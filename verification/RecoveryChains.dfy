/** Runs of recoveries: what a digest tells apart, and why a chain of retries makes progress. */
module RecoveryChains {
  import opened Wrappers
  import opened Json
  import opened JsonFaithful
  import opened Delivery
  import opened Recovery

  // ----- what a digest tells apart

  ghost predicate Injective(sha: Hash) {
    forall t, u :: sha(t) == sha(u) ==> t == u
  }

  lemma SameDigestIffAlike(sha: Hash, v: Value, w: Value)
    requires Injective(sha) && Valid(v) && Valid(w) && Digest(sha, v).Ok? && Digest(sha, w).Ok?
    ensures Digest(sha, v) == Digest(sha, w) <==> Alike(v, w)
  {
    SameTextIffAlike(v, w);
  }

  lemma ObjectSerializable(members: seq<Entry<Value>>)
    ensures Serializable(Obj(members)) <==> forall i | 0 <= i < |members| :: Serializable(members[i].value)
    ensures Valid(Obj(members)) <==> Distinct(members) && forall i | 0 <= i < |members| :: Valid(members[i].value)
  {
  }

  predicate Scalar(v: Value) {
    v.Str? || v.Number? || v.Null?
  }

  lemma ScalarValid(v: Value)
    requires Scalar(v) && (v.Number? ==> IsNumber(v.text))
    ensures Valid(v) && Serializable(v)
  {
  }

  /** Two members of one key: both absent, or both present and alike. */
  ghost predicate MemberAlike(v: Value, w: Value) {
    (Absent(v) <==> Absent(w)) && (!Absent(v) ==> Alike(v, w))
  }

  /** Objects spelling the same keys in the same order are alike member by member. */
  lemma AlikeByMember(a: seq<Entry<Value>>, b: seq<Entry<Value>>)
    requires |a| == |b| && Distinct(a) && forall i | 0 <= i < |a| :: a[i].key == b[i].key
    ensures Alike(Obj(a), Obj(b)) <==> forall i | 0 <= i < |a| :: MemberAlike(a[i].value, b[i].value)
  {
    if forall i | 0 <= i < |a| :: MemberAlike(a[i].value, b[i].value) {
      forall i | Holds(a, i) ensures HasKey(b, a[i].key) {
        assert MemberAlike(a[i].value, b[i].value);
        assert Holds(b, i) && b[i].key == a[i].key;
      }
      forall j | Holds(b, j) ensures HasKey(a, b[j].key) {
        assert MemberAlike(a[j].value, b[j].value);
        assert Holds(a, j) && a[j].key == b[j].key;
      }
      forall i, j | 0 <= i < |a| && Holds(a, i) && Holds(b, j) && a[i].key == b[j].key ensures Alike(a[i].value, b[j].value) {
        assert MemberAlike(a[i].value, b[i].value) && i == j;
      }
    }
    if Alike(Obj(a), Obj(b)) {
      forall i | 0 <= i < |a| ensures MemberAlike(a[i].value, b[i].value) {
        if Holds(a, i) {
          var j :| Holds(b, j) && b[j].key == a[i].key;
        }
        if Holds(b, i) {
          var j :| Holds(a, j) && a[j].key == b[i].key;
        }
      }
    }
  }

  lemma RecordTags()
    ensures Tag(Word("schema_version")) == 14 * 0x1_0000 + 0xe1 && Tag(Word("origin_id")) == 9 * 0x1_0000 + 0xd3
    ensures Tag(Word("record_id")) == 9 * 0x1_0000 + 0xd6 && Tag(Word("revision_id")) == 11 * 0x1_0000 + 0xd6
    ensures Tag(Word("revision")) == 8 * 0x1_0000 + 0xe0 && Tag(Word("kind")) == 4 * 0x1_0000 + 0xcf
    ensures Tag(Word("source")) == 6 * 0x1_0000 + 0xd8 && Tag(Word("session_id")) == 10 * 0x1_0000 + 0xd7
    ensures Tag(Word("operation")) == 9 * 0x1_0000 + 0xdd && Tag(Word("payload")) == 7 * 0x1_0000 + 0xd4
  {
    hide Word;
    hide Tag;
    WordTag("schema_version");
    WordTag("origin_id");
    WordTag("record_id");
    WordTag("revision_id");
    WordTag("revision");
    WordTag("kind");
    WordTag("source");
    WordTag("session_id");
    WordTag("operation");
    WordTag("payload");
  }

  lemma RecordKeys(r: Record)
    ensures Distinct(RecordValue(r).members)
  {
    hide Word;
    hide Tag;
    hide Decimal;
    hide SessionValue;
    RecordTags();
  }

  lemma NumberIsSpelt(n: nat)
    ensures IsNumber(Decimal(n))
  {
    DecimalReadsBack(n);
    AllDigits(Decimal(n));
    if n < 10 {
    } else {
      assert Decimal(n)[0] != 0x30;
    }
  }

  lemma {:induction false} AllDigits(t: Text)
    requires forall i | 0 <= i < |t| :: Digit(t[i])
    ensures Digits(t) == |t|
  {
    if t != [] {
      AllDigits(t[1..]);
    }
  }

  /** A record whose stored fields are JSON values. */
  ghost predicate WellTyped(r: Record) {
    IsNumber(r.schemaVersion) && Valid(r.payload) && Serializable(r.payload)
  }

  lemma RecordValueIsValid(r: Record)
    requires WellTyped(r)
    ensures Valid(RecordValue(r)) && CanonicalDeliveryJson(RecordValue(r)).Ok?
  {
    hide Word;
    hide Decimal;
    hide IsNumber;
    hide Print;
    hide Valid;
    hide Serializable;
    hide Distinct;
    RecordKeys(r);
    NumberIsSpelt(r.revision);
    var members := RecordValue(r).members;
    forall i | 0 <= i < 9 ensures Valid(members[i].value) && Serializable(members[i].value) {
      ScalarValid(members[i].value);
    }
    ObjectSerializable(members);
  }

  /** Equal in every field, but for key order in the payload and the two spellings of "no session". */
  ghost predicate SameContent(r: Record, s: Record) {
    && r.schemaVersion == s.schemaVersion && r.originId == s.originId && r.recordId == s.recordId && r.revisionId == s.revisionId
    && r.revision == s.revision && r.kind == s.kind && r.source == s.source && SessionValue(r) == SessionValue(s)
    && r.operation == s.operation && MemberAlike(r.payload, s.payload)
  }

  lemma DecimalInjective(m: nat, n: nat)
    ensures Decimal(m) == Decimal(n) <==> m == n
  {
    DecimalReadsBack(m);
    DecimalReadsBack(n);
  }

  lemma ScalarsAlike(v: Value, w: Value)
    requires Scalar(v) && Scalar(w)
    ensures MemberAlike(v, w) <==> v == w
  {
  }

  lemma RecordScalars(r: Record, s: Record)
    ensures |RecordValue(r).members| == 10 == |RecordValue(s).members|
    ensures forall i | 0 <= i < 10 :: RecordValue(r).members[i].key == RecordValue(s).members[i].key
    ensures forall i | 0 <= i < 9 :: Scalar(RecordValue(r).members[i].value) && Scalar(RecordValue(s).members[i].value)
  {
    hide Word;
    hide Decimal;
  }

  /** Records hold equal scalars exactly when they are equal field by field. */
  lemma FieldsEqual(r: Record, s: Record)
    ensures var a, b := RecordValue(r).members, RecordValue(s).members;
            SameContent(r, s) <==>
              && a[0].value == b[0].value && a[1].value == b[1].value && a[2].value == b[2].value && a[3].value == b[3].value
              && a[4].value == b[4].value && a[5].value == b[5].value && a[6].value == b[6].value && a[7].value == b[7].value
              && a[8].value == b[8].value && MemberAlike(a[9].value, b[9].value)
  {
    hide Word;
    hide Decimal;
    hide MemberAlike;
    hide SessionValue;
    DecimalInjective(r.revision, s.revision);
  }

  lemma RecordsAlike(r: Record, s: Record)
    ensures Alike(RecordValue(r), RecordValue(s)) <==> SameContent(r, s)
  {
    hide RecordValue;
    hide SameContent;
    hide Alike;
    hide MemberAlike;
    hide Distinct;
    hide Scalar;
    RecordKeys(r);
    RecordScalars(r, s);
    var a, b := RecordValue(r).members, RecordValue(s).members;
    AlikeByMember(a, b);
    forall i | 0 <= i < 9 ensures MemberAlike(a[i].value, b[i].value) <==> a[i].value == b[i].value {
      ScalarsAlike(a[i].value, b[i].value);
    }
    TenMembers(a, b);
    FieldsEqual(r, s);
  }

  lemma TenMembers(a: seq<Entry<Value>>, b: seq<Entry<Value>>)
    requires |a| == |b| == 10
    requires forall i | 0 <= i < 9 :: MemberAlike(a[i].value, b[i].value) <==> a[i].value == b[i].value
    ensures (forall i | 0 <= i < |a| :: MemberAlike(a[i].value, b[i].value)) <==>
              && a[0].value == b[0].value && a[1].value == b[1].value && a[2].value == b[2].value && a[3].value == b[3].value
              && a[4].value == b[4].value && a[5].value == b[5].value && a[6].value == b[6].value && a[7].value == b[7].value
              && a[8].value == b[8].value && MemberAlike(a[9].value, b[9].value)
  {
    hide MemberAlike;
  }

  /** Two records share a digest exactly when they have the same content. */
  lemma RecordDigestIff(sha: Hash, r: Record, s: Record)
    requires Injective(sha) && WellTyped(r) && WellTyped(s)
    ensures RecordDigest(sha, r) == RecordDigest(sha, s) <==> SameContent(r, s)
  {
    hide RecordValue;
    hide SameContent;
    hide WellTyped;
    hide CanonicalDeliveryJson;
    RecordValueIsValid(r);
    RecordValueIsValid(s);
    SameDigestIffAlike(sha, RecordValue(r), RecordValue(s));
    RecordsAlike(r, s);
  }

  // ----- chains of recoveries

  /** Each batch is the retry of the one before it. */
  ghost predicate Chain(sha: Hash, batches: seq<Batch>, answers: seq<Response>) {
    && |batches| == |answers| + 1
    && forall k {:trigger answers[k]} | 0 <= k < |answers| :: Step(sha, batches[k], answers[k], batches[k + 1])
  }

  ghost predicate Step(sha: Hash, batch: Batch, answer: Response, retry: Batch) {
    Recovered(sha, batch, answer).Ok? && Recovered(sha, batch, answer).value.retryBatch == Some(retry)
  }

  lemma {:induction false} KeepAll(records: seq<Record>)
    ensures Kept(records, {}) == records
    decreases |records|
  {
    if records != [] {
      KeepAll(records[..|records| - 1]);
      assert records == records[..|records| - 1] + [records[|records| - 1]];
    }
  }

  lemma {:induction false} KeptTwice(records: seq<Record>, a: set<Text>, b: set<Text>)
    ensures Kept(Kept(records, a), b) == Kept(records, a + b)
    decreases |records|
  {
    if records != [] {
      var earlier, last := records[..|records| - 1], records[|records| - 1];
      KeptTwice(earlier, a, b);
      if last.revisionId !in a {
        assert Kept(records, a)[..|Kept(records, a)| - 1] == Kept(earlier, a);
      }
    }
  }

  lemma {:induction false} KeptIsNoLonger(records: seq<Record>, ids: set<Text>)
    ensures |Kept(records, ids)| <= |records|
    ensures (exists k :: 0 <= k < |records| && records[k].revisionId in ids) ==> |Kept(records, ids)| < |records|
    decreases |records|
  {
    if records != [] {
      var n := |records| - 1;
      KeptIsNoLonger(records[..n], ids);
      if k :| 0 <= k < |records| && records[k].revisionId in ids {
        if k < n { assert records[..n][k].revisionId in ids; }
      }
    }
  }

  /** One retry keeps the others in order; a record conflict that names anything leaves fewer. */
  lemma StepShrinks(sha: Hash, batch: Batch, answer: Response, retry: Batch) returns (gone: set<Text>)
    requires Step(sha, batch, answer, retry)
    ensures retry.records == Kept(batch.records, gone)
    ensures answer.conflict.RecordRevision? && answer.details.value.conflicts != [] ==> |retry.records| < |batch.records|
  {
    hide RecordDigest;
    hide Proves;
    if answer.conflict.BatchId? {
      gone := {};
      KeepAll(batch.records);
    } else {
      var conflicts := answer.details.value.conflicts;
      QuarantineIsProven(sha, batch, conflicts);
      gone := AsSet(SubmittedIds(conflicts));
      if conflicts != [] {
        ProvesRecord(sha, batch, conflicts[0]);
        SubmittedIdsElements(conflicts, conflicts[0].submittedRevisionId);
        var i, k := ProvenRecord(sha, batch, conflicts, conflicts[0].submittedRevisionId);
        KeptIsNoLonger(batch.records, gone);
      }
    }
  }

  /** Along a chain records never grow and never change order, and every record conflict on the way leaves fewer. */
  lemma {:induction false} ChainShrinks(sha: Hash, batches: seq<Batch>, answers: seq<Response>, i: nat, j: nat) returns (gone: set<Text>)
    requires Chain(sha, batches, answers) && i <= j < |batches|
    ensures batches[j].records == Kept(batches[i].records, gone)
    ensures (exists k :: i <= k < j && answers[k].conflict.RecordRevision? && answers[k].details.value.conflicts != []) ==>
              |batches[j].records| < |batches[i].records|
    decreases j - i
  {
    hide Step;
    if i == j {
      gone := {};
      KeepAll(batches[i].records);
    } else {
      assert Step(sha, batches[j - 1], answers[j - 1], batches[j]);
      var before := ChainShrinks(sha, batches, answers, i, j - 1);
      var last := StepShrinks(sha, batches[j - 1], answers[j - 1], batches[j]);
      gone := before + last;
      KeptTwice(batches[i].records, before, last);
      KeptIsNoLonger(batches[i].records, before);
      KeptIsNoLonger(batches[j - 1].records, last);
    }
  }

  // ----- identities along a chain

  ghost predicate Occurs(s: Text, t: Text) {
    exists a: Text, b: Text :: t == a + s + b
  }

  /**
   `sha` is a digest in the sense that matters here: it tells texts apart, spells lower-case hex, and no text holds its own
   digest, nor one made later. `born` orders texts by when their digests are first made.
   */
  ghost predicate OneWay(sha: Hash, born: Text -> nat) {
    && Injective(sha) && (forall t :: forall u | u in sha(t) :: LowerHex(u))
    && forall t, u :: Occurs(sha(t), u) ==> born(t) < born(u)
  }

  /** The hex spelling of every unit, and one digit more than that. */
  function Spelled(t: Text): Text {
    if t == [] then [0x30] else Hex(t[0]) + Spelled(t[1..])
  }

  lemma {:induction false} SpelledIs(t: Text)
    ensures |Spelled(t)| == 4 * |t| + 1 && forall u | u in Spelled(t) :: LowerHex(u)
    decreases |t|
  {
    if t != [] {
      HexIs(t[0]);
      hide Hex;
      SpelledIs(t[1..]);
    }
  }

  lemma HexIs(u: Unit)
    ensures |Hex(u)| == 4 && forall v | v in Hex(u) :: LowerHex(v)
  {
  }

  lemma {:induction false} SpelledTells(t: Text, u: Text)
    requires Spelled(t) == Spelled(u)
    ensures t == u
    decreases |t|
  {
    SpelledIs(t);
    SpelledIs(u);
    if t != [] {
      assert Hex(t[0]) == Spelled(t)[..4] == Hex(u[0]);
      assert Spelled(t)[4..] == Spelled(t[1..]) && Spelled(u)[4..] == Spelled(u[1..]);
      HexTells(t[0], u[0]);
      SpelledTells(t[1..], u[1..]);
      assert t == [t[0]] + t[1..] && u == [u[0]] + u[1..];
    }
  }

  lemma HexTells(u: Unit, v: Unit)
    requires Hex(u) == Hex(v)
    ensures u == v
  {
    assert Hex(u)[0] == Hex(v)[0] && Hex(u)[1] == Hex(v)[1] && Hex(u)[2] == Hex(v)[2] && Hex(u)[3] == Hex(v)[3];
  }

  lemma LongerIsLater(t: Text, u: Text)
    requires Occurs(Spelled(t), u)
    ensures |t| < |u|
  {
    SpelledIs(t);
    hide Spelled;
    var a: Text, b: Text :| u == a + Spelled(t) + b;
  }

  function Length(t: Text): nat {
    |t|
  }

  /** What is asked of the hash is not contradictory: spelling a text out longer than it is has it, born by length. */
  lemma OneWayExists()
    ensures OneWay(Spelled, Length)
  {
    hide Spelled;
    hide Occurs;
    hide LowerHex;
    assert Injective(Spelled) by {
      forall t: Text, u: Text | Spelled(t) == Spelled(u) ensures t == u { SpelledTells(t, u); }
    }
    forall t: Text ensures forall u | u in Spelled(t) :: LowerHex(u) { SpelledIs(t); }
    forall t: Text, u: Text | Occurs(Spelled(t), u) ensures Length(t) < Length(u) { LongerIsLater(t, u); }
  }

  lemma OccursInside(s: Text, t: Text, before: Text, after: Text)
    requires Occurs(s, t)
    ensures Occurs(s, before + t + after)
  {
    var a: Text, b: Text :| t == a + s + b;
    assert before + t + after == (before + a) + s + (b + after);
  }

  lemma {:induction false} OccursInJoin(parts: seq<Text>, k: nat, s: Text)
    requires k < |parts| && Occurs(s, parts[k])
    ensures Occurs(s, Join(parts))
    decreases |parts|
  {
    hide Occurs;
    if |parts| == 1 {
      assert Join(parts) == parts[0];
    } else if k == 0 {
      OccursInside(s, parts[0], [], [COMMA] + Join(parts[1..]));
      assert [] + parts[0] + ([COMMA] + Join(parts[1..])) == Join(parts);
    } else {
      OccursInJoin(parts[1..], k - 1, s);
      OccursInside(s, Join(parts[1..]), parts[0] + [COMMA], []);
      assert parts[0] + [COMMA] + Join(parts[1..]) + [] == Join(parts);
    }
  }

  lemma {:induction false} PrintedItem(items: seq<Value>, k: nat)
    requires k < |items| && !Absent(items[k]) && forall i | 0 <= i < |items| :: Serializable(items[i])
    ensures k < |PrintItems(items)| && PrintItems(items)[k] == Print(items[k])
    decreases |items|
  {
    hide Print;
    if k > 0 {
      PrintedItem(items[1..], k - 1);
    }
  }

  predicate Plain(u: Unit) {
    u >= 0x20 && u != QUOTE && u != BACKSLASH && !High(u) && !Low(u)
  }

  lemma {:induction false} EscapedPlain(s: Text)
    requires forall u | u in s :: Plain(u)
    ensures Escaped(s) == s
    decreases |s|
  {
    hide Escape;
    hide Plain;
    if s != [] {
      PlainUnit(s[0]);
      EscapedPlain(s[1..]);
      assert Escaped(s) == Escape(s[0]) + Escaped(s[1..]);
      assert s == [s[0]] + s[1..];
    }
  }

  lemma PlainUnit(u: Unit)
    requires Plain(u)
    ensures Escape(u) == [u] && !High(u)
  {
  }

  function ConflictId(digest: Text): Text {
    Word("conflict-") + digest
  }

  lemma ConflictIdPlain(digest: Text)
    requires forall u | u in digest :: LowerHex(u)
    ensures forall u | u in ConflictId(digest) :: Plain(u)
  {
    forall u | u in Word("conflict-") ensures Plain(u) {
      var i :| 0 <= i < 9 && u == Word("conflict-")[i];
    }
  }

  /** The text a retry's identity is the digest of holds the parent's identity. */
  lemma RetryTextHoldsParent(parent: Batch, parentDigest: Text, records: seq<Record>, x: Text)
    requires (forall u | u in x :: LowerHex(u)) && parent.batchId == ConflictId(x)
    ensures CanonicalDeliveryJson(RetryValue(parent, parentDigest, records)).Ok?
    ensures Occurs(x, CanonicalDeliveryJson(RetryValue(parent, parentDigest, records)).value)
  {
    hide Occurs;
    hide Word;
    hide Join;
    hide Escaped;
    var items := RetryValue(parent, parentDigest, records).items;
    assert Serializable(RetryValue(parent, parentDigest, records)) by {
      assert forall i | 0 <= i < 5 :: Serializable(items[i]);
    }
    ConflictIdPlain(x);
    EscapedPlain(parent.batchId);
    DigestInId(x);
    OccursInside(x, parent.batchId, [QUOTE], [QUOTE]);
    PrintedItem(items, 2);
    OccursInJoin(PrintItems(items), 2, x);
    OccursInside(x, Join(PrintItems(items)), [LEFT_BRACKET], [RIGHT_BRACKET]);
  }

  lemma DigestInId(x: Text)
    ensures Occurs(x, ConflictId(x))
  {
    assert ConflictId(x) == Word("conflict-") + x + [];
  }

  /** A retry's identity is the digest of a text made after every digest its parent's identity holds. */
  lemma StepIsLater(sha: Hash, born: Text -> nat, batch: Batch, answer: Response, retry: Batch) returns (t: Text)
    requires OneWay(sha, born) && Step(sha, batch, answer, retry)
    ensures retry.batchId == ConflictId(sha(t))
    ensures forall x :: batch.batchId == ConflictId(sha(x)) ==> born(x) < born(t)
  {
    hide RecordDigest;
    hide BatchDigest;
    hide Quarantine;
    hide Occurs;
    hide RetryValue;
    hide CanonicalDeliveryJson;
    hide Word;
    var content := BatchDigest(sha, batch).value;
    t := CanonicalDeliveryJson(RetryValue(batch, content, retry.records)).value;
    forall x | batch.batchId == ConflictId(sha(x)) ensures born(x) < born(t) {
      RetryTextHoldsParent(batch, content, retry.records, sha(x));
    }
  }

  /** Along a chain each retry's identity is later than every identity before it. */
  lemma {:induction false} ChainIsLater(sha: Hash, born: Text -> nat, batches: seq<Batch>, answers: seq<Response>, i: nat, j: nat)
    returns (t: Text)
    requires OneWay(sha, born) && Chain(sha, batches, answers) && i < j < |batches|
    ensures batches[j].batchId == ConflictId(sha(t))
    ensures forall x :: batches[i].batchId == ConflictId(sha(x)) ==> born(x) < born(t)
    decreases j
  {
    hide Step;
    hide OneWay;
    hide ConflictId;
    assert Step(sha, batches[j - 1], answers[j - 1], batches[j]);
    t := StepIsLater(sha, born, batches[j - 1], answers[j - 1], batches[j]);
    if i < j - 1 {
      var s := ChainIsLater(sha, born, batches, answers, i, j - 1);
    }
  }

  /** No identity ever comes back along a chain, the first batch's own included. */
  lemma IdentitiesNeverRepeat(sha: Hash, born: Text -> nat, batches: seq<Batch>, answers: seq<Response>, i: nat, j: nat)
    requires OneWay(sha, born) && Chain(sha, batches, answers) && i < j < |batches|
    ensures batches[i].batchId != batches[j].batchId
  {
    hide ConflictId;
    var t := ChainIsLater(sha, born, batches, answers, i, j);
  }

  // ----- what a retry's identity stands for

  lemma ArraysAlike(v: seq<Value>, w: seq<Value>)
    requires (forall i | 0 <= i < |v| :: v[i].Str?) && (forall i | 0 <= i < |w| :: w[i].Str?)
    ensures Alike(Arr(v), Arr(w)) <==> v == w
  {
    if Alike(Arr(v), Arr(w)) {
      forall i | 0 <= i < |v| ensures v[i] == w[i] {
        assert Alike(v[i], w[i]);
      }
    }
  }

  lemma RevisionsPrintable(ps: seq<Record>)
    ensures Valid(Arr(RevisionValues(ps))) && Serializable(Arr(RevisionValues(ps)))
  {
    assert forall i | 0 <= i < |ps| :: Valid(RevisionValues(ps)[i]) && Serializable(RevisionValues(ps)[i]);
  }

  lemma RetryIsPrintable(p: Batch, pd: Text, ps: seq<Record>)
    ensures Valid(RetryValue(p, pd, ps)) && CanonicalDeliveryJson(RetryValue(p, pd, ps)).Ok?
  {
    hide Word;
    hide Print;
    var v := RetryValue(p, pd, ps).items;
    RevisionsPrintable(ps);
    assert v[4] == Arr(RevisionValues(ps));
    assert forall i | 0 <= i < |v| :: Valid(v[i]) && Serializable(v[i]);
  }

  lemma FiveItems(v: seq<Value>, w: seq<Value>)
    requires |v| == |w| == 5 && v[0] == w[0] && forall i | 0 <= i < 4 :: v[i].Str? && w[i].Str?
    ensures Alike(Arr(v), Arr(w)) <==> v[1] == w[1] && v[2] == w[2] && v[3] == w[3] && Alike(v[4], w[4])
  {
    if Alike(Arr(v), Arr(w)) {
      assert Alike(v[1], w[1]) && Alike(v[2], w[2]) && Alike(v[3], w[3]) && Alike(v[4], w[4]);
    }
  }

  lemma RetriesAlike(p: Batch, pd: Text, ps: seq<Record>, q: Batch, qd: Text, qs: seq<Record>)
    ensures Alike(RetryValue(p, pd, ps), RetryValue(q, qd, qs)) <==>
              p.originId == q.originId && p.batchId == q.batchId && pd == qd && RevisionValues(ps) == RevisionValues(qs)
  {
    hide Word;
    hide Alike;
    hide RevisionValues;
    FiveItems(RetryValue(p, pd, ps).items, RetryValue(q, qd, qs).items);
    RevisionsAlike(ps, qs);
  }

  lemma RevisionsAlike(ps: seq<Record>, qs: seq<Record>)
    ensures Alike(Arr(RevisionValues(ps)), Arr(RevisionValues(qs))) <==> RevisionValues(ps) == RevisionValues(qs)
  {
    hide Alike;
    ArraysAlike(RevisionValues(ps), RevisionValues(qs));
  }

  /** Two retries share an identity exactly when they come from one parent identity and content and keep the same revisions. */
  lemma RetryIdentityIff(sha: Hash, p: Batch, ps: seq<Record>, q: Batch, qs: seq<Record>)
    requires Injective(sha) && RecoveryBatch(sha, p, ps).Ok? && RecoveryBatch(sha, q, qs).Ok?
    ensures RecoveryBatch(sha, p, ps).value.batchId == RecoveryBatch(sha, q, qs).value.batchId <==>
              && p.originId == q.originId && p.batchId == q.batchId && BatchDigest(sha, p) == BatchDigest(sha, q)
              && RevisionValues(ps) == RevisionValues(qs)
  {
    hide Word;
    hide BatchDigest;
    hide RetryValue;
    hide CanonicalDeliveryJson;
    var pd, qd := BatchDigest(sha, p).value, BatchDigest(sha, q).value;
    RetryIsPrintable(p, pd, ps);
    RetryIsPrintable(q, qd, qs);
    RetriesAlike(p, pd, ps, q, qd, qs);
    SameDigestIffAlike(sha, RetryValue(p, pd, ps), RetryValue(q, qd, qs));
    AfterWord(Digest(sha, RetryValue(p, pd, ps)).value, Digest(sha, RetryValue(q, qd, qs)).value);
  }

  lemma AfterWord(s: Text, t: Text)
    ensures Word("conflict-") + s == Word("conflict-") + t <==> s == t
  {
    hide Word;
    var w := Word("conflict-");
    assert (w + s)[|w|..] == s && (w + t)[|w|..] == t;
  }

  // ----- which answers are acted on

  lemma RetryNeedsDigest(sha: Hash, parent: Batch, records: seq<Record>)
    ensures RecoveryBatch(sha, parent, records).Ok? <==> BatchDigest(sha, parent).Ok?
  {
    hide RetryValue;
    hide BatchDigest;
    hide CanonicalDeliveryJson;
    hide Word;
    if BatchDigest(sha, parent).Ok? {
      RetryIsPrintable(parent, BatchDigest(sha, parent).value, records);
    }
  }

  /**
   An answer is acted on exactly when it is about this batch's origin and either names this batch and its very content, or
   proves every record it names, each once, and claims no more conflicts than there are records. Every other answer is refused.
   */
  lemma ActsOnlyOnProof(sha: Hash, batch: Batch, response: Response)
    ensures Recovered(sha, batch, response).Ok? <==>
              && response.conflict.originId == batch.originId
              && if response.conflict.BatchId? then
                   response.conflict.batchId == batch.batchId && BatchDigest(sha, batch) == Ok(response.conflict.submittedDigest)
                 else
                   && response.details.Some?
                   && |response.details.value.conflicts| <= response.details.value.conflictCount <= |batch.records|
                   && AllProven(sha, batch, response.details.value.conflicts)
                   && (BatchDigest(sha, batch).Ok? || Kept(batch.records, AsSet(SubmittedIds(response.details.value.conflicts))) == [])
  {
    hide BatchDigest;
    hide RecordDigest;
    hide RecoveryBatch;
    hide Proves;
    hide AllProven;
    hide Quarantine;
    RetryNeedsDigest(sha, batch, batch.records);
    if response.details.Some? {
      var conflicts := response.details.value.conflicts;
      QuarantineIsProven(sha, batch, conflicts);
      RetryNeedsDigest(sha, batch, Kept(batch.records, AsSet(SubmittedIds(conflicts))));
    }
  }
}
