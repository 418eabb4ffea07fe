/** What a batch's digest vouches for: every field of the batch and the content and order of every record. */
module BatchContent {
  import opened Wrappers
  import opened Json
  import opened JsonFaithful
  import opened Delivery
  import opened RecoveryChains

  ghost predicate WellTypedBatch(b: Batch) {
    IsNumber(b.schemaVersion) && IsNumber(b.generation) && forall i | 0 <= i < |b.records| :: WellTyped(b.records[i])
  }

  ghost predicate SameRecords(p: seq<Record>, q: seq<Record>) {
    |p| == |q| && forall i | 0 <= i < |p| :: SameContent(p[i], q[i])
  }

  /** Equal in every field, and in the content of every record in its place. */
  ghost predicate SameBatch(p: Batch, q: Batch) {
    && p.schemaVersion == q.schemaVersion && p.originId == q.originId && p.batchId == q.batchId && p.jobId == q.jobId
    && p.generation == q.generation && p.destinationId == q.destinationId && p.instanceId == q.instanceId
    && p.accountId == q.accountId && p.mappingVersion == q.mappingVersion && SameRecords(p.records, q.records)
  }

  lemma BatchTags()
    ensures Tag(Word("schema_version")) == 14 * 0x1_0000 + 0xe1 && Tag(Word("origin_id")) == 9 * 0x1_0000 + 0xd3
    ensures Tag(Word("batch_id")) == 8 * 0x1_0000 + 0xc6 && Tag(Word("job_id")) == 6 * 0x1_0000 + 0xce
    ensures Tag(Word("generation")) == 10 * 0x1_0000 + 0xd5 && Tag(Word("destination_id")) == 14 * 0x1_0000 + 0xc8
    ensures Tag(Word("instance_id")) == 11 * 0x1_0000 + 0xcd && Tag(Word("account_id")) == 10 * 0x1_0000 + 0xc5
    ensures Tag(Word("mapping_version")) == 15 * 0x1_0000 + 0xdb && Tag(Word("records")) == 7 * 0x1_0000 + 0xe5
    ensures Tag(Word("protocolVersion")) == 15 * 0x1_0000 + 0xde && Tag(Word("batch")) == 5 * 0x1_0000 + 0xca
  {
    hide Word;
    hide Tag;
    WordTag("schema_version");
    WordTag("origin_id");
    WordTag("batch_id");
    WordTag("job_id");
    WordTag("generation");
    WordTag("destination_id");
    WordTag("instance_id");
    WordTag("account_id");
    WordTag("mapping_version");
    WordTag("records");
    WordTag("protocolVersion");
    WordTag("batch");
  }

  lemma BatchKeys(b: Batch)
    ensures Distinct(BatchValue(b).members)
  {
    hide Word;
    hide Tag;
    hide RecordValues;
    BatchTags();
  }

  /** What the digest is taken of. */
  function Submission(b: Batch): Value {
    Obj([Entry(Word("protocolVersion"), Number(Decimal(1))), Entry(Word("batch"), BatchValue(b))])
  }

  lemma SubmissionKeys(b: Batch)
    ensures Distinct(Submission(b).members) && !Absent(BatchValue(b))
  {
    hide Word;
    hide Tag;
    hide Decimal;
    BatchTags();
  }

  // ----- the records

  lemma RecordsPrintable(records: seq<Record>)
    requires forall i | 0 <= i < |records| :: WellTyped(records[i])
    ensures Valid(Arr(RecordValues(records))) && Serializable(Arr(RecordValues(records)))
  {
    hide WellTyped;
    hide RecordValue;
    forall i | 0 <= i < |records| ensures Valid(RecordValues(records)[i]) && Serializable(RecordValues(records)[i]) {
      RecordValueIsValid(records[i]);
    }
  }

  lemma RecordListsAlike(p: seq<Record>, q: seq<Record>)
    ensures Alike(Arr(RecordValues(p)), Arr(RecordValues(q))) <==> SameRecords(p, q)
  {
    hide RecordValue;
    hide SameContent;
    ItemsAlike(RecordValues(p), RecordValues(q));
    if |p| == |q| {
      forall i | 0 <= i < |p| ensures Alike(RecordValues(p)[i], RecordValues(q)[i]) <==> SameContent(p[i], q[i]) {
        RecordsAlike(p[i], q[i]);
      }
    }
  }

  lemma ItemsAlike(v: seq<Value>, w: seq<Value>)
    ensures Alike(Arr(v), Arr(w)) <==> |v| == |w| && forall i | 0 <= i < |v| :: Alike(v[i], w[i])
  {
  }

  // ----- the batch

  lemma BatchPrintable(b: Batch)
    requires WellTypedBatch(b)
    ensures Valid(BatchValue(b)) && Serializable(BatchValue(b))
  {
    BatchKeys(b);
    RecordsPrintable(b.records);
    hide Word;
    hide IsNumber;
    hide WellTyped;
    hide Valid;
    hide Serializable;
    hide Distinct;
    hide RecordValues;
    var members := BatchValue(b).members;
    forall i | 0 <= i < 9 ensures Valid(members[i].value) && Serializable(members[i].value) {
      ScalarValid(members[i].value);
    }
    ObjectSerializable(members);
  }

  lemma SubmissionPrintable(b: Batch)
    requires WellTypedBatch(b)
    ensures Valid(Submission(b)) && CanonicalDeliveryJson(Submission(b)).Ok?
  {
    BatchPrintable(b);
    SubmissionKeys(b);
    NumberIsSpelt(1);
    hide Word;
    hide Decimal;
    hide IsNumber;
    hide Valid;
    hide Serializable;
    hide Distinct;
    hide BatchValue;
    hide Print;
    var members := Submission(b).members;
    ScalarValid(members[0].value);
    ObjectSerializable(members);
  }

  lemma BatchScalars(p: Batch, q: Batch)
    ensures var a, b := BatchValue(p).members, BatchValue(q).members;
            && a[9].value == Arr(RecordValues(p.records)) && b[9].value == Arr(RecordValues(q.records))
            && (forall i | 0 <= i < 10 :: a[i].key == b[i].key)
            && (forall i | 0 <= i < 9 :: Scalar(a[i].value) && Scalar(b[i].value))
  {
    hide Word;
    hide RecordValues;
  }

  lemma BatchFields(p: Batch, q: Batch)
    ensures var a, b := BatchValue(p).members, BatchValue(q).members;
            SameBatch(p, q) <==> (forall i | 0 <= i < 9 :: a[i].value == b[i].value) && SameRecords(p.records, q.records)
  {
    hide Word;
    hide RecordValues;
    hide SameRecords;
    NineEqual(BatchValue(p).members, BatchValue(q).members);
  }

  lemma NineEqual(a: seq<Entry<Value>>, b: seq<Entry<Value>>)
    requires |a| == |b| == 10
    ensures (forall i | 0 <= i < 9 :: a[i].value == b[i].value) <==>
              && a[0].value == b[0].value && a[1].value == b[1].value && a[2].value == b[2].value && a[3].value == b[3].value
              && a[4].value == b[4].value && a[5].value == b[5].value && a[6].value == b[6].value && a[7].value == b[7].value
              && a[8].value == b[8].value
  {
  }

  lemma BatchesAlike(p: Batch, q: Batch)
    ensures Alike(BatchValue(p), BatchValue(q)) <==> SameBatch(p, q)
  {
    BatchKeys(p);
    BatchScalars(p, q);
    BatchFields(p, q);
    RecordListsAlike(p.records, q.records);
    hide BatchValue;
    hide SameBatch;
    hide SameRecords;
    hide RecordValues;
    hide Alike;
    hide Distinct;
    hide Scalar;
    var a, b := BatchValue(p).members, BatchValue(q).members;
    AlikeByMember(a, b);
    forall i | 0 <= i < 9 ensures MemberAlike(a[i].value, b[i].value) <==> a[i].value == b[i].value {
      ScalarsAlike(a[i].value, b[i].value);
    }
    assert MemberAlike(a[9].value, b[9].value) <==> Alike(a[9].value, b[9].value);
  }

  lemma SubmissionsAlike(p: Batch, q: Batch)
    ensures Alike(Submission(p), Submission(q)) <==> SameBatch(p, q)
  {
    SubmissionKeys(p);
    SubmissionKeys(q);
    BatchesAlike(p, q);
    hide Word;
    hide Decimal;
    hide BatchValue;
    hide SameBatch;
    hide Distinct;
    var a, b := Submission(p).members, Submission(q).members;
    AlikeByMember(a, b);
    ScalarsAlike(a[0].value, b[0].value);
    hide Alike;
    assert MemberAlike(a[1].value, b[1].value) <==> Alike(BatchValue(p), BatchValue(q));
  }

  /** Two batches share a digest exactly when no field and no record, place by place, tells them apart. */
  lemma BatchDigestIff(sha: Hash, p: Batch, q: Batch)
    requires Injective(sha) && WellTypedBatch(p) && WellTypedBatch(q)
    ensures BatchDigest(sha, p) == BatchDigest(sha, q) <==> SameBatch(p, q)
  {
    SubmissionPrintable(p);
    SubmissionPrintable(q);
    SubmissionsAlike(p, q);
    DigestsSubmission(sha, p);
    DigestsSubmission(sha, q);
    hide BatchDigest;
    hide Submission;
    hide SameBatch;
    hide WellTypedBatch;
    hide CanonicalDeliveryJson;
    SameDigestIffAlike(sha, Submission(p), Submission(q));
  }

  lemma DigestsSubmission(sha: Hash, b: Batch)
    ensures BatchDigest(sha, b) == Digest(sha, Submission(b))
  {
    hide BatchValue;
    hide CanonicalDeliveryJson;
  }

  // ----- what a receiver reads

  /** The object that `text` is read as holds `value` under `key`. */
  ghost predicate Reads(text: Text, key: string, value: Json) {
    var j := ReadJson(text);
    j.Some? && j.value.JObject? && Entry(Word(key), value) in j.value.members
  }

  lemma MemberReads(members: seq<Entry<Value>>, i: nat, text: Text)
    requires Valid(Obj(members)) && CanonicalDeliveryJson(Obj(members)) == Ok(text) && i < |members| && !Absent(members[i].value)
    ensures var j := ReadJson(text); j.Some? && j.value.JObject? && Entry(members[i].key, Normal(members[i].value)) in j.value.members
  {
    ReadPrint(Obj(members));
    NormalMember(members, i);
    SortElements(NormalMembers(members));
  }

  /** The fields that say what the record is. */
  ghost predicate ReadsIdentity(text: Text, r: Record) {
    && Reads(text, "schema_version", JNumber(r.schemaVersion)) && Reads(text, "origin_id", JString(r.originId))
    && Reads(text, "record_id", JString(r.recordId)) && Reads(text, "revision_id", JString(r.revisionId))
    && Reads(text, "revision", JNumber(Decimal(r.revision)))
  }

  /** The fields that say what it holds; no session, spelt either way, is null. */
  ghost predicate ReadsContent(text: Text, r: Record) {
    && Reads(text, "kind", JString(r.kind)) && Reads(text, "source", JString(r.source)) && Reads(text, "operation", JString(r.operation))
    && Reads(text, "session_id", if r.sessionId == None || r.sessionId == Some([]) then JNull else JString(r.sessionId.value))
    && (!Absent(r.payload) ==> Reads(text, "payload", Normal(r.payload)))
  }

  /** A record's text is read as its ten fields. */
  lemma RecordReadsBack(r: Record)
    requires WellTyped(r)
    ensures CanonicalDeliveryJson(RecordValue(r)).Ok?
    ensures var text := CanonicalDeliveryJson(RecordValue(r)).value; ReadsIdentity(text, r) && ReadsContent(text, r)
  {
    RecordValueIsValid(r);
    RecordMembers(r);
    var text := CanonicalDeliveryJson(RecordValue(r)).value;
    hide CanonicalDeliveryJson; hide RecordValue; hide ReadsIdentity; hide ReadsContent; hide Valid; hide Word;
    IdentityReads(RecordValue(r).members, text, r);
    ContentReads(RecordValue(r).members, text, r);
  }

  lemma IdentityReads(m: seq<Entry<Value>>, text: Text, r: Record)
    requires Valid(Obj(m)) && CanonicalDeliveryJson(Obj(m)) == Ok(text) && HoldsFields(m, r)
    ensures ReadsIdentity(text, r)
  {
    hide Word; hide Decimal; hide CanonicalDeliveryJson; hide Valid; hide Reads;
    FieldReads(m, 0, text, "schema_version", JNumber(r.schemaVersion));
    FieldReads(m, 1, text, "origin_id", JString(r.originId));
    FieldReads(m, 2, text, "record_id", JString(r.recordId));
    FieldReads(m, 3, text, "revision_id", JString(r.revisionId));
    FieldReads(m, 4, text, "revision", JNumber(Decimal(r.revision)));
  }

  lemma ContentReads(m: seq<Entry<Value>>, text: Text, r: Record)
    requires Valid(Obj(m)) && CanonicalDeliveryJson(Obj(m)) == Ok(text) && HoldsFields(m, r)
    ensures ReadsContent(text, r)
  {
    hide Word; hide Decimal; hide CanonicalDeliveryJson; hide Valid; hide Reads;
    FieldReads(m, 5, text, "kind", JString(r.kind));
    FieldReads(m, 6, text, "source", JString(r.source));
    FieldReads(m, 7, text, "session_id", if r.sessionId == None || r.sessionId == Some([]) then JNull else JString(r.sessionId.value));
    FieldReads(m, 8, text, "operation", JString(r.operation));
    if !Absent(r.payload) { FieldReads(m, 9, text, "payload", Normal(r.payload)); }
  }

  lemma FieldReads(members: seq<Entry<Value>>, i: nat, text: Text, key: string, value: Json)
    requires Valid(Obj(members)) && CanonicalDeliveryJson(Obj(members)) == Ok(text) && i < |members| && !Absent(members[i].value)
    requires members[i].key == Word(key) && Normal(members[i].value) == value
    ensures Reads(text, key, value)
  {
    MemberReads(members, i, text);
  }

  ghost predicate HoldsFields(m: seq<Entry<Value>>, r: Record) {
    && |m| == 10
    && m[0] == Entry(Word("schema_version"), Number(r.schemaVersion)) && m[1] == Entry(Word("origin_id"), Str(r.originId))
    && m[2] == Entry(Word("record_id"), Str(r.recordId)) && m[3] == Entry(Word("revision_id"), Str(r.revisionId))
    && m[4] == Entry(Word("revision"), Number(Decimal(r.revision))) && m[5] == Entry(Word("kind"), Str(r.kind))
    && m[6] == Entry(Word("source"), Str(r.source)) && m[8] == Entry(Word("operation"), Str(r.operation))
    && m[7] == Entry(Word("session_id"), if r.sessionId == None || r.sessionId == Some([]) then Null else Str(r.sessionId.value))
    && m[9] == Entry(Word("payload"), r.payload)
  }

  lemma RecordMembers(r: Record)
    ensures RecordValue(r) == Obj(RecordValue(r).members) && HoldsFields(RecordValue(r).members, r)
  {
    hide Word; hide Decimal;
  }
}
