/** Recovery from a receiver's conflict answer. SHA-256 is a parameter, `sha`. */
module Delivery {
  import opened Wrappers
  import opened Json

  type Hash = Text -> Text

  function Word(s: string): Text {
    seq(|s|, i requires 0 <= i < |s| => if s[i] as int < 0x1_0000 then s[i] as int else 0)
  }

  // ----- batches and records

  datatype Record = Record(
    schemaVersion: Text, originId: Text, recordId: Text, revisionId: Text, revision: nat,
    kind: Text, source: Text, sessionId: Option<Text>, operation: Text, payload: Value)

  datatype Batch = Batch(
    schemaVersion: Text, originId: Text, batchId: Text, jobId: Text, generation: Text,
    destinationId: Text, instanceId: Text, accountId: Text, mappingVersion: Text, records: seq<Record>)

  const MAX_SAFE_INTEGER: nat := 9007199254740991
  const MAX_DELIVERY_CONFLICTS: nat := 100

  /** An integer as JSON spells it. */
  function Decimal(n: nat): Text {
    if n < 10 then [0x30 + n] else Decimal(n / 10) + [0x30 + n % 10]
  }

  /** The receiver spells "no session" as null; the change feed may spell it as an empty string. */
  function SessionValue(r: Record): Value {
    if r.sessionId.None? || r.sessionId.value == [] then Null else Str(r.sessionId.value)
  }

  function RecordValue(r: Record): (v: Value)
    ensures v.Obj? && |v.members| == 10
  {
    Obj([
      Entry(Word("schema_version"), Number(r.schemaVersion)), Entry(Word("origin_id"), Str(r.originId)),
      Entry(Word("record_id"), Str(r.recordId)), Entry(Word("revision_id"), Str(r.revisionId)),
      Entry(Word("revision"), Number(Decimal(r.revision))), Entry(Word("kind"), Str(r.kind)),
      Entry(Word("source"), Str(r.source)), Entry(Word("session_id"), SessionValue(r)),
      Entry(Word("operation"), Str(r.operation)), Entry(Word("payload"), r.payload)])
  }

  function RecordValues(records: seq<Record>): seq<Value> {
    seq(|records|, i requires 0 <= i < |records| => RecordValue(records[i]))
  }

  function BatchValue(b: Batch): (v: Value)
    ensures v.Obj? && |v.members| == 10
  {
    Obj([
      Entry(Word("schema_version"), Number(b.schemaVersion)), Entry(Word("origin_id"), Str(b.originId)),
      Entry(Word("batch_id"), Str(b.batchId)), Entry(Word("job_id"), Str(b.jobId)),
      Entry(Word("generation"), Number(b.generation)), Entry(Word("destination_id"), Str(b.destinationId)),
      Entry(Word("instance_id"), Str(b.instanceId)), Entry(Word("account_id"), Str(b.accountId)),
      Entry(Word("mapping_version"), Str(b.mappingVersion)), Entry(Word("records"), Arr(RecordValues(b.records)))])
  }

  function Digest(sha: Hash, v: Value): Result<Text, NotSerializable> {
    var text := CanonicalDeliveryJson(v);
    if text.Ok? then Ok(sha(text.value)) else Err(NotSerializable)
  }

  function RecordDigest(sha: Hash, r: Record): Result<Text, NotSerializable> {
    Digest(sha, RecordValue(r))
  }

  function BatchDigest(sha: Hash, b: Batch): Result<Text, NotSerializable> {
    Digest(sha, Obj([Entry(Word("protocolVersion"), Number(Decimal(1))), Entry(Word("batch"), BatchValue(b))]))
  }

  // ----- the receiver's answer

  datatype Conflict =
    | BatchId(originId: Text, batchId: Text, submittedDigest: Text, currentDigest: Text)
    | RecordRevision(originId: Text, recordId: Text, submittedRevisionId: Text, submittedRevision: nat, submittedDigest: Text,
                     currentRevisionId: Text, currentRevision: nat, currentDigest: Text)

  datatype Details = Details(conflicts: seq<Conflict>, conflictCount: nat)

  datatype Response = Response(message: Text, conflict: Conflict, details: Option<Details>, correlationId: Option<Text>)

  /** A property read: the last member of that key, as reading JSON text leaves it. */
  function Get(members: seq<Entry<Value>>, key: Text): Value {
    if members == [] then Undefined
    else if members[|members| - 1].key == key then members[|members| - 1].value
    else Get(members[..|members| - 1], key)
  }

  predicate HasOwn(members: seq<Entry<Value>>, key: Text) {
    exists i :: 0 <= i < |members| && members[i].key == key
  }

  predicate Label(t: Text) {
    0 < |t| <= 512
  }

  predicate LowerHex(u: Unit) {
    0x30 <= u <= 0x39 || 0x61 <= u <= 0x66
  }

  predicate DigestText(t: Text) {
    |t| == 64 && forall i | 0 <= i < |t| :: LowerHex(t[i])
  }

  function DecimalValue(t: Text): int {
    if t == [] then 0 else DecimalValue(t[..|t| - 1]) * 10 + t[|t| - 1] - 0x30
  }

  /** The number a spelling denotes when it is a positive safe integer. */
  function PositiveInteger(t: Text): (n: Option<nat>)
    ensures n.Some? ==> 0 < n.value <= MAX_SAFE_INTEGER
  {
    if t != [] && t[0] != 0x30 && (forall i | 0 <= i < |t| :: Digit(t[i])) && 0 < DecimalValue(t) <= MAX_SAFE_INTEGER
    then Some(DecimalValue(t)) else None
  }

  function LabelIn(members: seq<Entry<Value>>, key: Text): Option<Text> {
    var v := Get(members, key);
    if v.Str? && Label(v.chars) then Some(v.chars) else None
  }

  function DigestIn(members: seq<Entry<Value>>, key: Text): Option<Text> {
    var v := Get(members, key);
    if v.Str? && DigestText(v.chars) then Some(v.chars) else None
  }

  function RevisionIn(members: seq<Entry<Value>>, key: Text): (n: Option<nat>)
    ensures n.Some? ==> 0 < n.value <= MAX_SAFE_INTEGER
  {
    var v := Get(members, key);
    if v.Number? then PositiveInteger(v.text) else None
  }

  function ParseConflict(v: Value): Option<Conflict> {
    if !v.Obj? then None
    else
      var origin := LabelIn(v.members, Word("originId"));
      var submitted := DigestIn(v.members, Word("submittedDigest"));
      var current := DigestIn(v.members, Word("currentDigest"));
      if origin.None? || submitted.None? || current.None? || submitted == current then None
      else if Get(v.members, Word("type")) == Str(Word("batch_id")) then
        var batch := LabelIn(v.members, Word("batchId"));
        if batch.None? then None else Some(BatchId(origin.value, batch.value, submitted.value, current.value))
      else if Get(v.members, Word("type")) != Str(Word("record_revision")) then None
      else
        var record := LabelIn(v.members, Word("recordId"));
        var submittedId := LabelIn(v.members, Word("submittedRevisionId"));
        var currentId := LabelIn(v.members, Word("currentRevisionId"));
        var submittedRevision := RevisionIn(v.members, Word("submittedRevision"));
        var currentRevision := RevisionIn(v.members, Word("currentRevision"));
        if record.None? || submittedId.None? || currentId.None? || submittedRevision.None? || currentRevision.None?
           || submittedRevision != currentRevision then None
        else Some(RecordRevision(origin.value, record.value, submittedId.value, submittedRevision.value, submitted.value,
                                 currentId.value, currentRevision.value, current.value))
  }

  /** The conflict list, if every item is a record conflict and no submitted revision is named twice. */
  function ParsedList(items: seq<Value>): Option<seq<Conflict>> {
    if items == [] then Some([])
    else
      var earlier, last := ParsedList(items[..|items| - 1]), ParseConflict(items[|items| - 1]);
      if earlier.None? || last.None? || !last.value.RecordRevision? || Names(earlier.value, last.value) then None
      else Some(earlier.value + [last.value])
  }

  /** One of `conflicts` already names the revision `c` was submitted as. */
  predicate Names(conflicts: seq<Conflict>, c: Conflict)
    requires c.RecordRevision?
  {
    exists i :: 0 <= i < |conflicts| && conflicts[i].RecordRevision? && conflicts[i].submittedRevisionId == c.submittedRevisionId
  }

  lemma {:induction false} ListStops(items: seq<Value>, n: nat)
    requires n <= |items| && ParsedList(items[..n]).None?
    ensures ParsedList(items).None?
    decreases |items|
  {
    if n < |items| {
      assert items[..|items| - 1][..n] == items[..n];
      ListStops(items[..|items| - 1], n);
    } else {
      assert items[..n] == items;
    }
  }

  ghost function RevisionIds(conflicts: seq<Conflict>): set<Text> {
    set c | c in conflicts && c.RecordRevision? :: c.submittedRevisionId
  }

  method ParseList(items: seq<Value>) returns (parsed: Option<seq<Conflict>>)
    ensures parsed == ParsedList(items)
  {
    var conflicts: seq<Conflict>, revisionIds: set<Text> := [], {};
    for i := 0 to |items|
      invariant ParsedList(items[..i]) == Some(conflicts) && revisionIds == RevisionIds(conflicts)
    {
      assert items[..i + 1][..i] == items[..i];
      var c := ParseConflict(items[i]);
      if c.None? || !c.value.RecordRevision? || c.value.submittedRevisionId in revisionIds {
        ListStops(items, i + 1);
        return None;
      }
      revisionIds := revisionIds + {c.value.submittedRevisionId};
      conflicts := conflicts + [c.value];
    }
    assert items[..|items|] == items;
    return Some(conflicts);
  }

  function DetailsOf(error: seq<Entry<Value>>, conflict: Conflict): Result<Option<Details>, ()> {
    if conflict.BatchId? then
      if HasOwn(error, Word("conflicts")) || HasOwn(error, Word("conflictCount")) then Err(()) else Ok(None)
    else
      var list, count := Get(error, Word("conflicts")), RevisionIn(error, Word("conflictCount"));
      if !list.Arr? || !(1 <= |list.items| <= MAX_DELIVERY_CONFLICTS) || count.None? || count.value < |list.items| then Err(())
      else
        var conflicts := ParsedList(list.items);
        if conflicts.None? || conflicts.value == [] || conflicts.value[0] != conflict then Err(())
        else Ok(Some(Details(conflicts.value, count.value)))
  }

  /** The answer a parsed body carries, if it is the protocol's exact conflict answer. */
  function Accepted(status: int, v: Value): Option<Response> {
    if status != 409 || !v.Obj? then None
    else
      var error := Get(v.members, Word("error"));
      if !error.Obj? || Get(error.members, Word("code")) != Str(Word("delivery_conflict")) then None
      else
        var message, correlation := Get(error.members, Word("message")), Get(v.members, Word("correlationId"));
        var conflict := ParseConflict(Get(error.members, Word("conflict")));
        if !message.Str? || conflict.None? || !(correlation.Undefined? || correlation.Str?) then None
        else
          var details := DetailsOf(error.members, conflict.value);
          if details.Err? then None
          else Some(Response(message.chars, conflict.value, details.value, if correlation.Str? then Some(correlation.chars) else None))
  }

  /** A response body, parsed already or still text; `spell` is how a number literal is spelt once read. */
  datatype Body = Parsed(value: Value) | Raw(text: Text)

  function FromJson(j: Json, spell: Text -> Text): Value {
    match j
    case JNull => Null
    case JBool(truth) => Bool(truth)
    case JNumber(text) => Number(spell(text))
    case JString(chars) => Str(chars)
    case JArray(items) => Arr(seq(|items|, i requires 0 <= i < |items| => FromJson(items[i], spell)))
    case JObject(members) => Obj(seq(|members|, i requires 0 <= i < |members| => Entry(members[i].key, FromJson(members[i].value, spell))))
  }

  function BodyValue(body: Body, spell: Text -> Text): Option<Value> {
    match body
    case Parsed(value) => Some(value)
    case Raw(text) =>
      var j := ReadJson(text);
      if j.Some? then Some(FromJson(j.value, spell)) else None
  }

  method ParseDetails(error: seq<Entry<Value>>, conflict: Conflict) returns (details: Result<Option<Details>, ()>)
    ensures details == DetailsOf(error, conflict)
  {
    if conflict.BatchId? {
      if HasOwn(error, Word("conflicts")) || HasOwn(error, Word("conflictCount")) {
        return Err(());
      }
      return Ok(None);
    }
    var list, count := Get(error, Word("conflicts")), RevisionIn(error, Word("conflictCount"));
    if !list.Arr? || !(1 <= |list.items| <= MAX_DELIVERY_CONFLICTS) || count.None? || count.value < |list.items| {
      return Err(());
    }
    var conflicts := ParseList(list.items);
    if conflicts.None? || conflicts.value == [] || conflicts.value[0] != conflict {
      return Err(());
    }
    return Ok(Some(Details(conflicts.value, count.value)));
  }

  /** Read a receiver's answer; anything short of a well-formed conflict is no answer to act on. */
  method ParseDeliveryConflict(status: int, body: Body, spell: Text -> Text) returns (r: Option<Response>)
    ensures r == if BodyValue(body, spell).None? then None else Accepted(status, BodyValue(body, spell).value)
  {
    var parsed := BodyValue(body, spell);
    if status != 409 || parsed.None? || !parsed.value.Obj? {
      return None;
    }
    var members := parsed.value.members;
    var error := Get(members, Word("error"));
    if !error.Obj? || Get(error.members, Word("code")) != Str(Word("delivery_conflict")) || !Get(error.members, Word("message")).Str? {
      return None;
    }
    var conflict := ParseConflict(Get(error.members, Word("conflict")));
    var correlation := Get(members, Word("correlationId"));
    if conflict.None? || !(correlation.Undefined? || correlation.Str?) {
      return None;
    }
    var details := ParseDetails(error.members, conflict.value);
    if details.Err? {
      return None;
    }
    var message := Get(error.members, Word("message"));
    return Some(Response(message.chars, conflict.value, details.value, if correlation.Str? then Some(correlation.chars) else None));
  }

  // ----- what an accepted answer guarantees

  ghost predicate Sound(c: Conflict) {
    && Label(c.originId) && DigestText(c.submittedDigest) && DigestText(c.currentDigest) && c.submittedDigest != c.currentDigest
    && (c.BatchId? ==> Label(c.batchId))
    && (c.RecordRevision? ==>
          && Label(c.recordId) && Label(c.submittedRevisionId) && Label(c.currentRevisionId)
          && c.submittedRevision == c.currentRevision && 0 < c.submittedRevision <= MAX_SAFE_INTEGER)
  }

  /** Sound record conflicts, each naming a revision of its own. */
  ghost predicate Proper(conflicts: seq<Conflict>) {
    conflicts == [] ||
    var earlier, last := conflicts[..|conflicts| - 1], conflicts[|conflicts| - 1];
    Proper(earlier) && Sound(last) && last.RecordRevision? && !Names(earlier, last)
  }

  ghost predicate WellFormed(r: Response) {
    && Sound(r.conflict)
    && (r.conflict.BatchId? ==> r.details.None?)
    && (r.conflict.RecordRevision? ==>
          && r.details.Some? && 1 <= |r.details.value.conflicts| <= 100 && Proper(r.details.value.conflicts)
          && r.details.value.conflicts[0] == r.conflict
          && |r.details.value.conflicts| <= r.details.value.conflictCount <= MAX_SAFE_INTEGER)
  }

  lemma {:induction false} ProperMeans(conflicts: seq<Conflict>, i: nat, j: nat)
    requires Proper(conflicts) && i <= j < |conflicts|
    ensures Sound(conflicts[i]) && conflicts[i].RecordRevision? && conflicts[j].RecordRevision?
    ensures i < j ==> conflicts[i].submittedRevisionId != conflicts[j].submittedRevisionId
    decreases |conflicts|
  {
    var n := |conflicts| - 1;
    if j < n {
      ProperMeans(conflicts[..n], i, j);
    } else if i < j {
      ProperMeans(conflicts[..n], i, i);
      assert conflicts[..n][i] == conflicts[i];
    }
  }

  lemma ParsedIsSound(v: Value)
    ensures ParseConflict(v).Some? ==> Sound(ParseConflict(v).value)
  {
  }

  lemma {:induction false} ParsedListIsProper(items: seq<Value>)
    ensures ParsedList(items).Some? ==> Proper(ParsedList(items).value) && |ParsedList(items).value| == |items|
    decreases |items|
  {
    if items != [] {
      var n := |items| - 1;
      ParsedListIsProper(items[..n]);
      ParsedIsSound(items[n]);
      if ParsedList(items).Some? {
        assert ParsedList(items).value[..n] == ParsedList(items[..n]).value;
      }
    }
  }

  /** Nothing but a well-formed answer to a 409 is ever accepted. */
  lemma AcceptedIsWellFormed(status: int, v: Value)
    ensures Accepted(status, v).Some? ==> status == 409 && WellFormed(Accepted(status, v).value)
  {
    if Accepted(status, v).Some? {
      var error := Get(v.members, Word("error"));
      ParsedIsSound(Get(error.members, Word("conflict")));
      var list := Get(error.members, Word("conflicts"));
      if list.Arr? {
        ParsedListIsProper(list.items);
      }
    }
  }

  // ----- a receiver's well-formed answer is read back as it was meant

  function ConflictValue(c: Conflict): Value {
    if c.BatchId? then
      Obj([Entry(Word("type"), Str(Word("batch_id"))), Entry(Word("originId"), Str(c.originId)), Entry(Word("batchId"), Str(c.batchId)),
           Entry(Word("submittedDigest"), Str(c.submittedDigest)), Entry(Word("currentDigest"), Str(c.currentDigest))])
    else
      Obj([Entry(Word("type"), Str(Word("record_revision"))), Entry(Word("originId"), Str(c.originId)),
           Entry(Word("recordId"), Str(c.recordId)), Entry(Word("submittedRevisionId"), Str(c.submittedRevisionId)),
           Entry(Word("submittedRevision"), Number(Decimal(c.submittedRevision))), Entry(Word("submittedDigest"), Str(c.submittedDigest)),
           Entry(Word("currentRevisionId"), Str(c.currentRevisionId)),
           Entry(Word("currentRevision"), Number(Decimal(c.currentRevision))), Entry(Word("currentDigest"), Str(c.currentDigest))])
  }

  function ConflictValues(conflicts: seq<Conflict>): seq<Value> {
    seq(|conflicts|, i requires 0 <= i < |conflicts| => ConflictValue(conflicts[i]))
  }

  function ErrorValue(r: Response): (v: Value)
    ensures v.Obj?
  {
    Obj([Entry(Word("code"), Str(Word("delivery_conflict"))), Entry(Word("message"), Str(r.message)),
         Entry(Word("conflict"), ConflictValue(r.conflict))]
        + if r.details.None? then [] else
            [Entry(Word("conflicts"), Arr(ConflictValues(r.details.value.conflicts))),
             Entry(Word("conflictCount"), Number(Decimal(r.details.value.conflictCount)))])
  }

  function ResponseValue(r: Response): Value {
    Obj([Entry(Word("error"), ErrorValue(r))]
        + if r.correlationId.None? then [] else [Entry(Word("correlationId"), Str(r.correlationId.value))])
  }

  lemma {:induction false} GetAt(members: seq<Entry<Value>>, i: nat)
    requires i < |members| && forall k | i < k < |members| :: members[k].key != members[i].key
    ensures Get(members, members[i].key) == members[i].value
    decreases |members|
  {
    if i < |members| - 1 {
      GetAt(members[..|members| - 1], i);
    }
  }

  lemma {:induction false} GetAbsent(members: seq<Entry<Value>>, key: Text)
    requires forall k | 0 <= k < |members| :: members[k].key != key
    ensures Get(members, key) == Undefined
    decreases |members|
  {
    if members != [] {
      GetAbsent(members[..|members| - 1], key);
    }
  }

  lemma {:induction false} DecimalReadsBack(n: nat)
    ensures Decimal(n) != [] && (forall i | 0 <= i < |Decimal(n)| :: Digit(Decimal(n)[i])) && DecimalValue(Decimal(n)) == n
    ensures n > 0 ==> Decimal(n)[0] != 0x30
    decreases n
  {
    if n >= 10 {
      DecimalReadsBack(n / 10);
      assert Decimal(n)[..|Decimal(n)| - 1] == Decimal(n / 10);
    }
  }

  lemma PositiveReadsBack(n: nat)
    requires 0 < n <= MAX_SAFE_INTEGER
    ensures PositiveInteger(Decimal(n)) == Some(n)
  {
    DecimalReadsBack(n);
  }

  /** Enough of a property name to tell the names of one object apart. */
  ghost function Tag(key: Text): int {
    if key == [] then 0 else |key| * 0x1_0000 + key[0] + key[|key| - 1]
  }

  lemma WordTag(s: string)
    requires s != [] && s[0] as int < 0x1_0000 && s[|s| - 1] as int < 0x1_0000
    ensures Tag(Word(s)) == |s| * 0x1_0000 + s[0] as int + s[|s| - 1] as int
  {
  }

  lemma ConflictTags()
    ensures Tag(Word("type")) == 4 * 0x1_0000 + 0xd9 && Tag(Word("originId")) == 8 * 0x1_0000 + 0xd3
    ensures Tag(Word("submittedDigest")) == 15 * 0x1_0000 + 0xe7 && Tag(Word("currentDigest")) == 13 * 0x1_0000 + 0xd7
    ensures Tag(Word("batchId")) == 7 * 0x1_0000 + 0xc6 && Tag(Word("recordId")) == 8 * 0x1_0000 + 0xd6
    ensures Tag(Word("submittedRevisionId")) == 19 * 0x1_0000 + 0xd7 && Tag(Word("currentRevisionId")) == 17 * 0x1_0000 + 0xc7
    ensures Tag(Word("submittedRevision")) == 17 * 0x1_0000 + 0xe1 && Tag(Word("currentRevision")) == 15 * 0x1_0000 + 0xd1
    ensures Tag(Word("batch_id")) == 8 * 0x1_0000 + 0xc6 && Tag(Word("record_revision")) == 15 * 0x1_0000 + 0xe0
  {
    hide Word;
    hide Tag;
    WordTag("type");
    WordTag("originId");
    WordTag("submittedDigest");
    WordTag("currentDigest");
    WordTag("batchId");
    WordTag("recordId");
    WordTag("submittedRevisionId");
    WordTag("currentRevisionId");
    WordTag("submittedRevision");
    WordTag("currentRevision");
    WordTag("batch_id");
    WordTag("record_revision");
  }

  lemma BatchFields(c: Conflict, m: seq<Entry<Value>>)
    requires c.BatchId? && m == ConflictValue(c).members
    ensures Get(m, Word("type")) == Str(Word("batch_id")) && Get(m, Word("originId")) == Str(c.originId)
    ensures Get(m, Word("batchId")) == Str(c.batchId)
    ensures Get(m, Word("submittedDigest")) == Str(c.submittedDigest) && Get(m, Word("currentDigest")) == Str(c.currentDigest)
  {
    hide Word;
    hide Tag;
    hide Get;
    ConflictTags();
    GetAt(m, 0);
    GetAt(m, 1);
    GetAt(m, 2);
    GetAt(m, 3);
    GetAt(m, 4);
  }

  lemma SubmittedFields(c: Conflict, m: seq<Entry<Value>>)
    requires c.RecordRevision? && m == ConflictValue(c).members
    ensures Get(m, Word("type")) == Str(Word("record_revision")) && Get(m, Word("originId")) == Str(c.originId)
    ensures Get(m, Word("recordId")) == Str(c.recordId) && Get(m, Word("submittedRevisionId")) == Str(c.submittedRevisionId)
    ensures Get(m, Word("submittedRevision")) == Number(Decimal(c.submittedRevision))
  {
    hide Word;
    hide Tag;
    hide Get;
    hide Decimal;
    ConflictTags();
    GetAt(m, 0);
    GetAt(m, 1);
    GetAt(m, 2);
    GetAt(m, 3);
    GetAt(m, 4);
  }

  lemma CurrentFields(c: Conflict, m: seq<Entry<Value>>)
    requires c.RecordRevision? && m == ConflictValue(c).members
    ensures Get(m, Word("submittedDigest")) == Str(c.submittedDigest) && Get(m, Word("currentDigest")) == Str(c.currentDigest)
    ensures Get(m, Word("currentRevisionId")) == Str(c.currentRevisionId)
    ensures Get(m, Word("currentRevision")) == Number(Decimal(c.currentRevision))
  {
    hide Word;
    hide Tag;
    hide Get;
    hide Decimal;
    ConflictTags();
    GetAt(m, 5);
    GetAt(m, 6);
    GetAt(m, 7);
    GetAt(m, 8);
  }

  lemma ConflictReadsBack(c: Conflict)
    requires Sound(c)
    ensures ParseConflict(ConflictValue(c)) == Some(c)
  {
    hide Word;
    hide Tag;
    hide Get;
    hide Decimal;
    hide PositiveInteger;
    ConflictTags();
    if c.BatchId? {
      BatchFields(c, ConflictValue(c).members);
    } else {
      SubmittedFields(c, ConflictValue(c).members);
      CurrentFields(c, ConflictValue(c).members);
      PositiveReadsBack(c.submittedRevision);
    }
  }

  lemma {:induction false} ListReadsBack(conflicts: seq<Conflict>)
    requires Proper(conflicts)
    ensures ParsedList(ConflictValues(conflicts)) == Some(conflicts)
    decreases |conflicts|
  {
    hide ConflictValue;
    hide ParseConflict;
    hide Sound;
    if conflicts != [] {
      var n := |conflicts| - 1;
      ListReadsBack(conflicts[..n]);
      ConflictReadsBack(conflicts[n]);
      assert ConflictValues(conflicts)[..n] == ConflictValues(conflicts[..n]);
      assert conflicts == conflicts[..n] + [conflicts[n]];
    }
  }

  lemma ErrorTags()
    ensures Tag(Word("code")) == 4 * 0x1_0000 + 0xc8 && Tag(Word("message")) == 7 * 0x1_0000 + 0xd2
    ensures Tag(Word("conflict")) == 8 * 0x1_0000 + 0xd7 && Tag(Word("conflicts")) == 9 * 0x1_0000 + 0xd6
    ensures Tag(Word("conflictCount")) == 13 * 0x1_0000 + 0xd7
    ensures Tag(Word("error")) == 5 * 0x1_0000 + 0xd7 && Tag(Word("correlationId")) == 13 * 0x1_0000 + 0xc7
  {
    hide Word;
    hide Tag;
    WordTag("code");
    WordTag("message");
    WordTag("conflict");
    WordTag("conflicts");
    WordTag("conflictCount");
    WordTag("error");
    WordTag("correlationId");
  }

  lemma DetailsReadBack(r: Response)
    requires WellFormed(r)
    ensures DetailsOf(ErrorValue(r).members, r.conflict) == Ok(r.details)
  {
    hide Word;
    hide Tag;
    hide ConflictValue;
    ErrorTags();
    var e := ErrorValue(r).members;
    if r.details.Some? {
      GetAt(e, 3);
      GetAt(e, 4);
      ListReadsBack(r.details.value.conflicts);
      PositiveReadsBack(r.details.value.conflictCount);
    }
  }

  lemma ErrorReadsBack(r: Response)
    requires Sound(r.conflict)
    ensures Get(ErrorValue(r).members, Word("code")) == Str(Word("delivery_conflict"))
    ensures Get(ErrorValue(r).members, Word("message")) == Str(r.message)
    ensures ParseConflict(Get(ErrorValue(r).members, Word("conflict"))) == Some(r.conflict)
  {
    hide Word;
    hide Tag;
    hide ConflictValue;
    hide ParseConflict;
    ErrorTags();
    var e := ErrorValue(r).members;
    GetAt(e, 0);
    GetAt(e, 1);
    GetAt(e, 2);
    ConflictReadsBack(r.conflict);
  }

  /** Every well-formed answer is accepted and read back exactly. */
  lemma AnswerReadsBack(r: Response)
    requires WellFormed(r)
    ensures Accepted(409, ResponseValue(r)) == Some(r)
  {
    hide Word;
    hide Tag;
    hide ErrorValue;
    hide DetailsOf;
    hide ParseConflict;
    ErrorTags();
    ErrorReadsBack(r);
    DetailsReadBack(r);
    var m := ResponseValue(r).members;
    GetAt(m, 0);
    if r.correlationId.Some? {
      GetAt(m, 1);
    } else {
      GetAbsent(m, Word("correlationId"));
    }
  }
}
