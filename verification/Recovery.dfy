/** Turning a receiver's proven conflicts into queue progress. */
module Recovery {
  import opened Wrappers
  import opened Json
  import opened JsonFaithful
  import opened Delivery

  /** Why a recovery is refused; the source throws a type error for each. */
  datatype Refusal = OriginMismatch | BatchMismatch | MissingConflicts | CountMismatch | RecordMismatch | Unprintable

  datatype Outcome = Outcome(quarantinedRevisionIds: seq<Text>, retryBatch: Option<Batch>)

  predicate Matches(r: Record, c: Conflict) {
    c.RecordRevision? && r.recordId == c.recordId && r.revisionId == c.submittedRevisionId && r.revision == c.submittedRevision
  }

  function Matching(records: seq<Record>, c: Conflict): seq<Record> {
    if records == [] then []
    else Matching(records[..|records| - 1], c) + if Matches(records[|records| - 1], c) then [records[|records| - 1]] else []
  }

  /** The records whose revision is not among `ids`, in order. */
  function Kept(records: seq<Record>, ids: set<Text>): seq<Record> {
    if records == [] then []
    else
      var earlier, last := Kept(records[..|records| - 1], ids), records[|records| - 1];
      if last.revisionId in ids then earlier else earlier + [last]
  }

  function RevisionValues(records: seq<Record>): seq<Value> {
    seq(|records|, i requires 0 <= i < |records| => Str(records[i].revisionId))
  }

  /** What a retry's identity is a digest of. */
  function RetryValue(parent: Batch, parentDigest: Text, records: seq<Record>): Value {
    Arr([Str(Word("relayhistory-delivery-conflict-recovery-v1")), Str(parent.originId), Str(parent.batchId), Str(parentDigest),
         Arr(RevisionValues(records))])
  }

  function RecoveryBatch(sha: Hash, parent: Batch, records: seq<Record>): Result<Batch, Refusal> {
    var content := BatchDigest(sha, parent);
    if content.Err? then Err(Unprintable)
    else
      var identity := Digest(sha, RetryValue(parent, content.value, records));
      if identity.Err? then Err(Unprintable) else Ok(parent.(batchId := Word("conflict-") + identity.value, records := records))
  }

  /** The revisions the conflicts prove, one item after another. */
  function Quarantine(sha: Hash, batch: Batch, conflicts: seq<Conflict>): Result<seq<Text>, Refusal> {
    if conflicts == [] then Ok([])
    else
      var earlier, c := Quarantine(sha, batch, conflicts[..|conflicts| - 1]), conflicts[|conflicts| - 1];
      if earlier.Err? then earlier
      else if c.originId != batch.originId then Err(OriginMismatch)
      else
        var matching := Matching(batch.records, c);
        if |matching| != 1 then Err(RecordMismatch)
        else
          var digest := RecordDigest(sha, matching[0]);
          if digest.Err? then Err(Unprintable)
          else if c.submittedDigest != digest.value || matching[0].revisionId in earlier.value then Err(RecordMismatch)
          else Ok(earlier.value + [matching[0].revisionId])
  }

  function AsSet(ids: seq<Text>): set<Text> {
    set id | id in ids
  }

  /** The specification of a recovery. */
  function Recovered(sha: Hash, batch: Batch, response: Response): Result<Outcome, Refusal> {
    var conflict := response.conflict;
    if conflict.originId != batch.originId then Err(OriginMismatch)
    else if conflict.BatchId? then
      var content := BatchDigest(sha, batch);
      if conflict.batchId != batch.batchId then Err(BatchMismatch)
      else if content.Err? then Err(Unprintable)
      else if conflict.submittedDigest != content.value then Err(BatchMismatch)
      else
        var retry := RecoveryBatch(sha, batch, batch.records);
        if retry.Err? then Err(retry.error) else Ok(Outcome([], Some(retry.value)))
    else if response.details.None? then Err(MissingConflicts)
    else
      var details := response.details.value;
      if details.conflictCount < |details.conflicts| || details.conflictCount > |batch.records| then Err(CountMismatch)
      else
        var quarantined := Quarantine(sha, batch, details.conflicts);
        if quarantined.Err? then Err(quarantined.error)
        else
          var records := Kept(batch.records, AsSet(quarantined.value));
          if records == [] then Ok(Outcome(quarantined.value, None))
          else
            var retry := RecoveryBatch(sha, batch, records);
            if retry.Err? then Err(retry.error) else Ok(Outcome(quarantined.value, Some(retry.value)))
  }

  // ----- the loops

  lemma {:induction false} RefusalStands(sha: Hash, batch: Batch, conflicts: seq<Conflict>, n: nat)
    requires n <= |conflicts| && Quarantine(sha, batch, conflicts[..n]).Err?
    ensures Quarantine(sha, batch, conflicts) == Quarantine(sha, batch, conflicts[..n])
    decreases |conflicts|
  {
    if n < |conflicts| {
      assert conflicts[..|conflicts| - 1][..n] == conflicts[..n];
      RefusalStands(sha, batch, conflicts[..|conflicts| - 1], n);
    } else {
      assert conflicts[..n] == conflicts;
    }
  }

  method FindMatching(records: seq<Record>, c: Conflict) returns (matching: seq<Record>)
    ensures matching == Matching(records, c)
  {
    matching := [];
    for i := 0 to |records|
      invariant matching == Matching(records[..i], c)
    {
      assert records[..i + 1][..i] == records[..i];
      if Matches(records[i], c) {
        matching := matching + [records[i]];
      }
    }
    assert records[..|records|] == records;
  }

  method KeepOthers(records: seq<Record>, ids: set<Text>) returns (kept: seq<Record>)
    ensures kept == Kept(records, ids)
  {
    kept := [];
    for i := 0 to |records|
      invariant kept == Kept(records[..i], ids)
    {
      assert records[..i + 1][..i] == records[..i];
      if records[i].revisionId !in ids {
        kept := kept + [records[i]];
      }
    }
    assert records[..|records|] == records;
  }

  method CollectQuarantine(sha: Hash, batch: Batch, conflicts: seq<Conflict>) returns (r: Result<seq<Text>, Refusal>)
    ensures r == Quarantine(sha, batch, conflicts)
  {
    var quarantined: seq<Text> := [];
    for i := 0 to |conflicts|
      invariant Quarantine(sha, batch, conflicts[..i]) == Ok(quarantined)
    {
      assert conflicts[..i + 1][..i] == conflicts[..i];
      var c := conflicts[i];
      if c.originId != batch.originId {
        RefusalStands(sha, batch, conflicts, i + 1);
        return Err(OriginMismatch);
      }
      var matching := FindMatching(batch.records, c);
      if |matching| != 1 {
        RefusalStands(sha, batch, conflicts, i + 1);
        return Err(RecordMismatch);
      }
      var digest := RecordDigest(sha, matching[0]);
      if digest.Err? {
        RefusalStands(sha, batch, conflicts, i + 1);
        return Err(Unprintable);
      }
      if c.submittedDigest != digest.value || matching[0].revisionId in quarantined {
        RefusalStands(sha, batch, conflicts, i + 1);
        return Err(RecordMismatch);
      }
      quarantined := quarantined + [matching[0].revisionId];
    }
    assert conflicts[..|conflicts|] == conflicts;
    return Ok(quarantined);
  }

  /** What is left of a batch, and what is set aside, after a conflict answer. */
  method RecoverDeliveryConflict(sha: Hash, batch: Batch, response: Response) returns (r: Result<Outcome, Refusal>)
    ensures r == Recovered(sha, batch, response)
  {
    var conflict := response.conflict;
    if conflict.originId != batch.originId {
      return Err(OriginMismatch);
    }
    if conflict.BatchId? {
      if conflict.batchId != batch.batchId {
        return Err(BatchMismatch);
      }
      var content := BatchDigest(sha, batch);
      if content.Err? {
        return Err(Unprintable);
      }
      if conflict.submittedDigest != content.value {
        return Err(BatchMismatch);
      }
      var retry := RecoveryBatch(sha, batch, batch.records);
      return if retry.Err? then Err(retry.error) else Ok(Outcome([], Some(retry.value)));
    }
    if response.details.None? {
      return Err(MissingConflicts);
    }
    var details := response.details.value;
    if details.conflictCount < |details.conflicts| || details.conflictCount > |batch.records| {
      return Err(CountMismatch);
    }
    var quarantined := CollectQuarantine(sha, batch, details.conflicts);
    if quarantined.Err? {
      return Err(quarantined.error);
    }
    var records := KeepOthers(batch.records, AsSet(quarantined.value));
    if records == [] {
      return Ok(Outcome(quarantined.value, None));
    }
    var retry := RecoveryBatch(sha, batch, records);
    return if retry.Err? then Err(retry.error) else Ok(Outcome(quarantined.value, Some(retry.value)));
  }

  // ----- a proven record

  /** Exactly one record is the one `c` names, and it is the content `c` was submitted with. */
  ghost predicate Proves(sha: Hash, batch: Batch, c: Conflict) {
    && c.RecordRevision? && c.originId == batch.originId
    && exists k :: 0 <= k < |batch.records| && IsProof(sha, batch.records, c, k)
  }

  ghost predicate IsProof(sha: Hash, records: seq<Record>, c: Conflict, k: nat)
    requires k < |records|
  {
    && Matches(records[k], c) && (forall i | 0 <= i < |records| && i != k :: !Matches(records[i], c))
    && RecordDigest(sha, records[k]) == Ok(c.submittedDigest)
  }

  lemma {:induction false} NoneMatching(records: seq<Record>, c: Conflict)
    ensures Matching(records, c) == [] <==> forall i | 0 <= i < |records| :: !Matches(records[i], c)
    decreases |records|
  {
    if records != [] {
      NoneMatching(records[..|records| - 1], c);
    }
  }

  /** A single match is found exactly when one record, and no other, is named. */
  lemma {:induction false} OneMatching(records: seq<Record>, c: Conflict) returns (k: nat)
    requires |Matching(records, c)| == 1
    ensures k < |records| && Matching(records, c) == [records[k]] && Matches(records[k], c)
    ensures forall i | 0 <= i < |records| && i != k :: !Matches(records[i], c)
    decreases |records|
  {
    var n := |records| - 1;
    if Matches(records[n], c) {
      k := n;
      NoneMatching(records[..n], c);
      assert forall i | 0 <= i < n :: records[..n][i] == records[i];
    } else {
      k := OneMatching(records[..n], c);
    }
  }

  lemma {:induction false} TheMatching(records: seq<Record>, c: Conflict, k: nat)
    requires k < |records| && Matches(records[k], c) && forall i | 0 <= i < |records| && i != k :: !Matches(records[i], c)
    ensures Matching(records, c) == [records[k]]
    decreases |records|
  {
    var n := |records| - 1;
    if k == n {
      NoneMatching(records[..n], c);
    } else {
      TheMatching(records[..n], c, k);
    }
  }

  function SubmittedIds(conflicts: seq<Conflict>): seq<Text> {
    if conflicts == [] then []
    else
      var last := conflicts[|conflicts| - 1];
      SubmittedIds(conflicts[..|conflicts| - 1]) + if last.RecordRevision? then [last.submittedRevisionId] else []
  }

  ghost predicate Once(ids: seq<Text>) {
    ids == [] || (Once(ids[..|ids| - 1]) && ids[|ids| - 1] !in ids[..|ids| - 1])
  }

  ghost predicate EachProven(sha: Hash, batch: Batch, conflicts: seq<Conflict>) {
    forall i | 0 <= i < |conflicts| :: Proves(sha, batch, conflicts[i])
  }

  /** Every conflict is proven and no revision is named twice. */
  ghost predicate AllProven(sha: Hash, batch: Batch, conflicts: seq<Conflict>) {
    EachProven(sha, batch, conflicts) && Once(SubmittedIds(conflicts))
  }

  /** The quarantine is accepted exactly when every conflict is proven, and it holds exactly the named revisions, in order. */
  lemma {:induction false} QuarantineIsProven(sha: Hash, batch: Batch, conflicts: seq<Conflict>)
    ensures Quarantine(sha, batch, conflicts).Ok? <==> AllProven(sha, batch, conflicts)
    ensures Quarantine(sha, batch, conflicts).Ok? ==> Quarantine(sha, batch, conflicts).value == SubmittedIds(conflicts)
    decreases |conflicts|
  {
    hide Proves;
    hide RecordDigest;
    if conflicts != [] {
      var n := |conflicts| - 1;
      QuarantineIsProven(sha, batch, conflicts[..n]);
      OneProven(sha, batch, conflicts[n]);
      AllProvenSnoc(sha, batch, conflicts);
    }
  }

  lemma AllProvenSnoc(sha: Hash, batch: Batch, conflicts: seq<Conflict>)
    requires conflicts != []
    ensures var n := |conflicts| - 1;
            AllProven(sha, batch, conflicts) <==>
              && AllProven(sha, batch, conflicts[..n]) && Proves(sha, batch, conflicts[n])
              && conflicts[n].RecordRevision? && conflicts[n].submittedRevisionId !in SubmittedIds(conflicts[..n])
  {
    var n := |conflicts| - 1;
    ProvesRecord(sha, batch, conflicts[n]);
    hide EachProven;
    hide Proves;
    hide Once;
    EachProvenSnoc(sha, batch, conflicts);
    if conflicts[n].RecordRevision? {
      OnceSnoc(SubmittedIds(conflicts[..n]), conflicts[n].submittedRevisionId);
    }
  }

  lemma EachProvenSnoc(sha: Hash, batch: Batch, conflicts: seq<Conflict>)
    requires conflicts != []
    ensures EachProven(sha, batch, conflicts) <==>
              EachProven(sha, batch, conflicts[..|conflicts| - 1]) && Proves(sha, batch, conflicts[|conflicts| - 1])
  {
    hide Proves;
    var n := |conflicts| - 1;
    if EachProven(sha, batch, conflicts[..n]) && Proves(sha, batch, conflicts[n]) {
      forall i | 0 <= i < |conflicts| ensures Proves(sha, batch, conflicts[i]) {
        if i < n { assert conflicts[..n][i] == conflicts[i]; }
      }
    }
  }

  lemma OnceSnoc(ids: seq<Text>, id: Text)
    ensures Once(ids + [id]) <==> Once(ids) && id !in ids
  {
    assert (ids + [id])[..|ids|] == ids;
  }

  lemma ProvesRecord(sha: Hash, batch: Batch, c: Conflict)
    ensures Proves(sha, batch, c) ==> c.RecordRevision?
  {
  }

  lemma OneProven(sha: Hash, batch: Batch, c: Conflict)
    ensures Proves(sha, batch, c) <==>
              && c.originId == batch.originId && |Matching(batch.records, c)| == 1
              && RecordDigest(sha, Matching(batch.records, c)[0]) == Ok(c.submittedDigest)
    ensures |Matching(batch.records, c)| == 1 ==> c.RecordRevision? && Matching(batch.records, c)[0].revisionId == c.submittedRevisionId
  {
    if |Matching(batch.records, c)| == 1 {
      var k := OneMatching(batch.records, c);
      if RecordDigest(sha, batch.records[k]) == Ok(c.submittedDigest) {
        assert IsProof(sha, batch.records, c, k);
      }
    }
    if Proves(sha, batch, c) {
      var k :| 0 <= k < |batch.records| && IsProof(sha, batch.records, c, k);
      TheMatching(batch.records, c, k);
    }
  }

  // ----- what is removed

  lemma {:induction false} KeptElements(records: seq<Record>, ids: set<Text>)
    ensures forall r :: r in Kept(records, ids) <==> r in records && r.revisionId !in ids
    decreases |records|
  {
    if records != [] {
      var n := |records| - 1;
      KeptElements(records[..n], ids);
      assert records == records[..n] + [records[n]];
    }
  }

  ghost predicate DistinctRevisions(records: seq<Record>) {
    forall i, j | 0 <= i < j < |records| :: records[i].revisionId != records[j].revisionId
  }

  /** Filtering out records that are each named once takes away exactly as many as are named. */
  lemma {:induction false} KeptSize(records: seq<Record>, ids: set<Text>)
    requires DistinctRevisions(records) && forall id | id in ids :: exists k :: 0 <= k < |records| && records[k].revisionId == id
    ensures |Kept(records, ids)| + |ids| == |records|
    decreases |records|
  {
    if records == [] {
      assert ids == {};
    } else {
      var n := |records| - 1;
      var last := records[n].revisionId;
      forall id | id in ids - {last} ensures exists k :: 0 <= k < n && records[..n][k].revisionId == id {
        var k :| 0 <= k < |records| && records[k].revisionId == id;
        assert records[..n][k].revisionId == id;
      }
      KeptSize(records[..n], ids - {last});
      KeptSame(records[..n], ids, last);
      if last in ids {
        assert |ids - {last}| == |ids| - 1;
      } else {
        assert ids - {last} == ids;
      }
    }
  }

  lemma {:induction false} KeptSame(records: seq<Record>, ids: set<Text>, id: Text)
    requires forall k | 0 <= k < |records| :: records[k].revisionId != id
    ensures Kept(records, ids - {id}) == Kept(records, ids)
    decreases |records|
  {
    if records != [] {
      KeptSame(records[..|records| - 1], ids, id);
    }
  }

  lemma {:induction false} OnceSize(ids: seq<Text>)
    requires Once(ids)
    ensures |AsSet(ids)| == |ids|
    decreases |ids|
  {
    if ids == [] {
      assert AsSet(ids) == {};
    } else {
      var n := |ids| - 1;
      OnceSize(ids[..n]);
      assert ids == ids[..n] + [ids[n]];
      assert AsSet(ids) == AsSet(ids[..n]) + {ids[n]};
    }
  }

  lemma {:induction false} SubmittedIdsElements(conflicts: seq<Conflict>, id: Text)
    ensures id in SubmittedIds(conflicts) <==>
              exists i :: 0 <= i < |conflicts| && conflicts[i].RecordRevision? && conflicts[i].submittedRevisionId == id
    decreases |conflicts|
  {
    if conflicts != [] {
      var n := |conflicts| - 1;
      SubmittedIdsElements(conflicts[..n], id);
      if id in SubmittedIds(conflicts[..n]) {
        var i :| 0 <= i < n && conflicts[..n][i].RecordRevision? && conflicts[..n][i].submittedRevisionId == id;
        assert conflicts[i].RecordRevision? && conflicts[i].submittedRevisionId == id;
      }
      if exists i :: 0 <= i < |conflicts| && conflicts[i].RecordRevision? && conflicts[i].submittedRevisionId == id {
        var i :| 0 <= i < |conflicts| && conflicts[i].RecordRevision? && conflicts[i].submittedRevisionId == id;
        if i < n { assert conflicts[..n][i].RecordRevision?; }
      }
    }
  }

  /** A proven revision belongs to a record. */
  lemma ProvenRecord(sha: Hash, batch: Batch, conflicts: seq<Conflict>, id: Text) returns (i: nat, k: nat)
    requires AllProven(sha, batch, conflicts) && id in SubmittedIds(conflicts)
    ensures i < |conflicts| && k < |batch.records| && IsProof(sha, batch.records, conflicts[i], k)
    ensures conflicts[i].submittedRevisionId == id == batch.records[k].revisionId
  {
    SubmittedIdsElements(conflicts, id);
    i :| 0 <= i < |conflicts| && conflicts[i].RecordRevision? && conflicts[i].submittedRevisionId == id;
    assert Proves(sha, batch, conflicts[i]);
    k :| 0 <= k < |batch.records| && IsProof(sha, batch.records, conflicts[i], k);
  }

  /**
   When the batch names each revision once, an accepted record conflict splits it exactly: the quarantined revisions are the
   conflicts' own, in order and each once, and the records kept are the others, in order.
   */
  lemma RecoverySplits(sha: Hash, batch: Batch, response: Response)
    requires DistinctRevisions(batch.records)
    requires response.conflict.RecordRevision? && Recovered(sha, batch, response).Ok?
    ensures var o := Recovered(sha, batch, response).value;
            var kept := Kept(batch.records, AsSet(o.quarantinedRevisionIds));
            && response.details.Some? && AllProven(sha, batch, response.details.value.conflicts)
            && o.quarantinedRevisionIds == SubmittedIds(response.details.value.conflicts)
            && |kept| + |o.quarantinedRevisionIds| == |batch.records|
            && (o.retryBatch.None? <==> |o.quarantinedRevisionIds| == |batch.records|)
            && (o.retryBatch.Some? ==> o.retryBatch.value == batch.(batchId := o.retryBatch.value.batchId, records := kept))
  {
    hide RecordDigest;
    var conflicts := response.details.value.conflicts;
    QuarantineIsProven(sha, batch, conflicts);
    var ids := SubmittedIds(conflicts);
    forall id | id in AsSet(ids) ensures exists k :: 0 <= k < |batch.records| && batch.records[k].revisionId == id {
      var i, k := ProvenRecord(sha, batch, conflicts, id);
    }
    KeptSize(batch.records, AsSet(ids));
    OnceSize(ids);
  }

  /** Filtering keeps order and repetition: a record not named stands behind exactly those kept before it. */
  lemma {:induction false} KeptAt(records: seq<Record>, ids: set<Text>, k: nat)
    requires k < |records| && records[k].revisionId !in ids
    ensures |Kept(records[..k], ids)| < |Kept(records, ids)| && Kept(records, ids)[|Kept(records[..k], ids)|] == records[k]
    decreases |records|
  {
    var n := |records| - 1;
    if k < n {
      assert records[..n][..k] == records[..k];
      KeptAt(records[..n], ids, k);
    }
  }

  /** Where the records stand whose revision is not named. */
  ghost function Unnamed(records: seq<Record>, ids: set<Text>): set<int> {
    set k | 0 <= k < |records| && records[k].revisionId !in ids
  }

  /** As many records are kept as are not named. */
  lemma {:induction false} KeptCount(records: seq<Record>, ids: set<Text>)
    ensures |Kept(records, ids)| == |Unnamed(records, ids)|
    decreases |records|
  {
    if records == [] {
      assert Unnamed(records, ids) == {};
    } else {
      var n := |records| - 1;
      KeptCount(records[..n], ids);
      assert Unnamed(records, ids) == Unnamed(records[..n], ids) + if records[n].revisionId in ids then {} else {n};
    }
  }

  /**
   What an accepted answer leaves: a batch conflict quarantines nothing and retries every record, in order, under a new identity;
   a record conflict quarantines what it names and retries the rest, unless nothing is left. Nothing else of the batch changes.
   */
  lemma RecoveryKeepsTheRest(sha: Hash, batch: Batch, response: Response)
    requires Recovered(sha, batch, response).Ok?
    ensures var o := Recovered(sha, batch, response).value;
            && (response.conflict.BatchId? ==>
                  o.quarantinedRevisionIds == [] && o.retryBatch.Some? && o.retryBatch.value == batch.(batchId := o.retryBatch.value.batchId))
            && (response.conflict.RecordRevision? ==>
                  && response.details.Some? && o.quarantinedRevisionIds == SubmittedIds(response.details.value.conflicts)
                  && (o.retryBatch.None? <==> forall k | 0 <= k < |batch.records| :: batch.records[k].revisionId in o.quarantinedRevisionIds)
                  && (o.retryBatch.Some? ==>
                        var kept := Kept(batch.records, AsSet(o.quarantinedRevisionIds));
                        o.retryBatch.value == batch.(batchId := o.retryBatch.value.batchId, records := kept)))
  {
    hide RecordDigest;
    hide BatchDigest;
    hide RetryValue;
    if response.conflict.RecordRevision? {
      var conflicts := response.details.value.conflicts;
      QuarantineIsProven(sha, batch, conflicts);
      NothingKept(batch.records, AsSet(SubmittedIds(conflicts)));
    }
  }

  /** So no record is lost: each is retried, or its revision is quarantined. */
  lemma NoRecordIsLost(sha: Hash, batch: Batch, response: Response, k: nat)
    requires Recovered(sha, batch, response).Ok? && k < |batch.records|
    ensures var o := Recovered(sha, batch, response).value;
            batch.records[k].revisionId in o.quarantinedRevisionIds || (o.retryBatch.Some? && batch.records[k] in o.retryBatch.value.records)
  {
    RecoveryKeepsTheRest(sha, batch, response);
    hide Recovered;
    KeptElements(batch.records, AsSet(Recovered(sha, batch, response).value.quarantinedRevisionIds));
  }

  /** Every record the recovery leaves out is itself proven by one of the conflicts. */
  ghost predicate OnlyProvenRemoved(sha: Hash, batch: Batch, conflicts: seq<Conflict>) {
    forall k | 0 <= k < |batch.records| && batch.records[k].revisionId in SubmittedIds(conflicts) ::
      exists i :: 0 <= i < |conflicts| && IsProof(sha, batch.records, conflicts[i], k)
  }

  lemma {:induction false} OnceNamed(conflicts: seq<Conflict>, i: nat, j: nat)
    requires Once(SubmittedIds(conflicts)) && i < j < |conflicts| && conflicts[i].RecordRevision? && conflicts[j].RecordRevision?
    ensures conflicts[i].submittedRevisionId != conflicts[j].submittedRevisionId
    decreases |conflicts|
  {
    var n := |conflicts| - 1;
    if conflicts[n].RecordRevision? {
      assert SubmittedIds(conflicts)[..|SubmittedIds(conflicts)| - 1] == SubmittedIds(conflicts[..n]);
    } else {
      assert SubmittedIds(conflicts) == SubmittedIds(conflicts[..n]);
    }
    if j < n {
      OnceNamed(conflicts[..n], i, j);
    } else {
      SubmittedIdsElements(conflicts[..n], conflicts[i].submittedRevisionId);
      assert conflicts[..n][i] == conflicts[i];
    }
  }

  /** Two records of one revision cannot both be proven. */
  lemma ProofsDoNotShare(sha: Hash, batch: Batch, conflicts: seq<Conflict>, k: nat, m: nat)
    requires AllProven(sha, batch, conflicts) && OnlyProvenRemoved(sha, batch, conflicts)
    requires k < m < |batch.records| && batch.records[k].revisionId == batch.records[m].revisionId
    ensures batch.records[k].revisionId !in SubmittedIds(conflicts)
  {
    hide RecordDigest;
    hide Proves;
    hide SubmittedIds;
    hide Once;
    if batch.records[k].revisionId in SubmittedIds(conflicts) {
      var i :| 0 <= i < |conflicts| && IsProof(sha, batch.records, conflicts[i], k);
      var j :| 0 <= j < |conflicts| && IsProof(sha, batch.records, conflicts[j], m);
      if i < j {
        OnceNamed(conflicts, i, j);
      } else if j < i {
        OnceNamed(conflicts, j, i);
      }
      assert false;
    }
  }

  /**
   Records are taken out by revision alone. So nothing unproven is removed exactly when no proven revision is carried by two
   records of the batch.
   */
  lemma RemovesOnlyProvenIff(sha: Hash, batch: Batch, conflicts: seq<Conflict>)
    requires AllProven(sha, batch, conflicts)
    ensures OnlyProvenRemoved(sha, batch, conflicts) <==>
              forall k, m | 0 <= k < m < |batch.records| && batch.records[k].revisionId == batch.records[m].revisionId ::
                batch.records[k].revisionId !in SubmittedIds(conflicts)
  {
    hide RecordDigest;
    if OnlyProvenRemoved(sha, batch, conflicts) {
      forall k, m | 0 <= k < m < |batch.records| && batch.records[k].revisionId == batch.records[m].revisionId
        ensures batch.records[k].revisionId !in SubmittedIds(conflicts) {
        ProofsDoNotShare(sha, batch, conflicts, k, m);
      }
    }
    if forall k, m | 0 <= k < m < |batch.records| && batch.records[k].revisionId == batch.records[m].revisionId ::
         batch.records[k].revisionId !in SubmittedIds(conflicts) {
      forall k | 0 <= k < |batch.records| && batch.records[k].revisionId in SubmittedIds(conflicts)
        ensures exists i :: 0 <= i < |conflicts| && IsProof(sha, batch.records, conflicts[i], k) {
        var i, m := ProvenRecord(sha, batch, conflicts, batch.records[k].revisionId);
        assert m == k;
      }
    }
  }

  /** Two records under one revision: a proof about the first alone removes both, and nothing is left to retry. */
  lemma SharedRevisionLosesBoth(sha: Hash, batch: Batch, response: Response)
    requires |batch.records| == 2 && batch.records[0].revisionId == batch.records[1].revisionId
    requires batch.records[0].recordId != batch.records[1].recordId
    requires response.conflict.RecordRevision? && response.details == Some(Details([response.conflict], 1))
    requires response.conflict.originId == batch.originId && Matches(batch.records[0], response.conflict)
    requires RecordDigest(sha, batch.records[0]) == Ok(response.conflict.submittedDigest)
    ensures Recovered(sha, batch, response) == Ok(Outcome([batch.records[0].revisionId], None))
    ensures !OnlyProvenRemoved(sha, batch, [response.conflict])
  {
    hide RecordDigest;
    var c := response.conflict;
    assert IsProof(sha, batch.records, c, 0);
    assert SubmittedIds([c]) == [c.submittedRevisionId];
    assert Once([c.submittedRevisionId]);
    QuarantineIsProven(sha, batch, [c]);
    KeptElements(batch.records, {c.submittedRevisionId});
    assert AsSet([c.submittedRevisionId]) == {c.submittedRevisionId};
    forall k | 0 <= k < 2 ensures batch.records[k].revisionId == c.submittedRevisionId {
    }
    NothingKept(batch.records, {c.submittedRevisionId});
    assert batch.records[1].revisionId in SubmittedIds([c]);
    assert !IsProof(sha, batch.records, c, 1);
  }

  lemma {:induction false} NothingKept(records: seq<Record>, ids: set<Text>)
    ensures Kept(records, ids) == [] <==> forall k | 0 <= k < |records| :: records[k].revisionId in ids
    decreases |records|
  {
    if records != [] {
      NothingKept(records[..|records| - 1], ids);
    }
  }
}
