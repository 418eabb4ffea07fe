/**
 Canonical delivery JSON: a printer that ignores the order of object keys, a reader for JSON text as RFC 8259 defines it,
 and the proof that the one undoes the other.
 */
module Json {
  import opened Wrappers

  /** A UTF-16 code unit, the element of a source string. */
  type Unit = u: int | 0 <= u < 0x1_0000
  type Text = seq<Unit>

  const QUOTE: Unit := 0x22
  const PLUS: Unit := 0x2b
  const COMMA: Unit := 0x2c
  const MINUS: Unit := 0x2d
  const POINT: Unit := 0x2e
  const SLASH: Unit := 0x2f
  const COLON: Unit := 0x3a
  const LEFT_BRACKET: Unit := 0x5b
  const BACKSLASH: Unit := 0x5c
  const RIGHT_BRACKET: Unit := 0x5d
  const LEFT_BRACE: Unit := 0x7b
  const RIGHT_BRACE: Unit := 0x7d
  const NULL_WORD: Text := [0x6e, 0x75, 0x6c, 0x6c]
  const TRUE_WORD: Text := [0x74, 0x72, 0x75, 0x65]
  const FALSE_WORD: Text := [0x66, 0x61, 0x6c, 0x73, 0x65]

  datatype Entry<T> = Entry(key: Text, value: T)

  /**
   What the printer may be handed. A finite number stands for the text `JSON.stringify` gives it, which tells finite
   numbers apart but for the two zeros.
   */
  datatype Value =
    | Undefined | Function | Symbol | BigInt | NonFinite | Null
    | Bool(truth: bool) | Number(text: Text) | Str(chars: Text)
    | Arr(items: seq<Value>) | Obj(members: seq<Entry<Value>>)

  /** What JSON text means. */
  datatype Json =
    | JNull | JBool(truth: bool) | JNumber(text: Text) | JString(chars: Text)
    | JArray(items: seq<Json>) | JObject(members: seq<Entry<Json>>)

  // ----- strings, section 7 of RFC 8259

  predicate High(u: Unit) { 0xd800 <= u < 0xdc00 }

  predicate Low(u: Unit) { 0xdc00 <= u < 0xe000 }

  function HexDigit(n: int): Unit
    requires 0 <= n < 16
  {
    if n < 10 then 0x30 + n else 0x61 + n - 10
  }

  function Hex(u: Unit): Text {
    var c := u / 0x10;
    var b := c / 0x10;
    [HexDigit(b / 0x10), HexDigit(b % 0x10), HexDigit(c % 0x10), HexDigit(u % 0x10)]
  }

  /** The letter of a two-character escape, if the unit has one. */
  function Short(u: Unit): Option<Unit> {
    if u == QUOTE || u == BACKSLASH then Some(u)
    else if u == 0x08 then Some(0x62)
    else if u == 0x09 then Some(0x74)
    else if u == 0x0a then Some(0x6e)
    else if u == 0x0c then Some(0x66)
    else if u == 0x0d then Some(0x72)
    else None
  }

  /** One unit that is not half of a surrogate pair. */
  function Escape(u: Unit): Text {
    if Short(u).Some? then [BACKSLASH, Short(u).value]
    else if u < 0x20 || High(u) || Low(u) then [BACKSLASH, 0x75] + Hex(u)
    else [u]
  }

  function Escaped(s: Text): Text {
    if s == [] then []
    else if |s| >= 2 && High(s[0]) && Low(s[1]) then [s[0], s[1]] + Escaped(s[2..])
    else Escape(s[0]) + Escaped(s[1..])
  }

  function Quoted(s: Text): Text {
    [QUOTE] + Escaped(s) + [QUOTE]
  }

  // ----- the printer

  /** Values an object member cannot hold and an array item reads as null. */
  predicate Absent(v: Value) {
    v.Undefined? || v.Function? || v.Symbol?
  }

  function Join(parts: seq<Text>): Text {
    if parts == [] then []
    else if |parts| == 1 then parts[0]
    else parts[0] + [COMMA] + Join(parts[1..])
  }

  /** Comparison by code units, as sorting without a comparator does. */
  predicate Less(a: Text, b: Text) {
    if b == [] then false
    else if a == [] then true
    else a[0] < b[0] || (a[0] == b[0] && Less(a[1..], b[1..]))
  }

  function Insert<T>(e: Entry<T>, s: seq<Entry<T>>): seq<Entry<T>> {
    if s == [] then [e]
    else if Less(s[0].key, e.key) then [s[0]] + Insert(e, s[1..])
    else [e] + s
  }

  function Sort<T>(s: seq<Entry<T>>): seq<Entry<T>> {
    if s == [] then [] else Insert(s[0], Sort(s[1..]))
  }

  function Pair(e: Entry<Text>): Text {
    Quoted(e.key) + [COLON] + e.value
  }

  function Pairs(entries: seq<Entry<Text>>): seq<Text> {
    seq(|entries|, i requires 0 <= i < |entries| => Pair(entries[i]))
  }

  /** A big integer makes serialization fail. */
  predicate Serializable(v: Value) {
    match v
    case BigInt => false
    case Arr(items) => forall i | 0 <= i < |items| :: Serializable(items[i])
    case Obj(members) => forall i | 0 <= i < |members| :: Serializable(members[i].value)
    case _ => true
  }

  function Print(v: Value): Text
    requires Serializable(v)
  {
    match v
    case Bool(truth) => if truth then TRUE_WORD else FALSE_WORD
    case Number(text) => text
    case Str(chars) => Quoted(chars)
    case Arr(items) => [LEFT_BRACKET] + Join(PrintItems(items)) + [RIGHT_BRACKET]
    case Obj(members) => [LEFT_BRACE] + Join(Pairs(Sort(PrintMembers(members)))) + [RIGHT_BRACE]
    case _ => NULL_WORD
  }

  function PrintItems(items: seq<Value>): seq<Text>
    requires forall i | 0 <= i < |items| :: Serializable(items[i])
  {
    if items == [] then []
    else [if Absent(items[0]) then NULL_WORD else Print(items[0])] + PrintItems(items[1..])
  }

  function PrintMembers(members: seq<Entry<Value>>): seq<Entry<Text>>
    requires forall i | 0 <= i < |members| :: Serializable(members[i].value)
  {
    if members == [] then []
    else (if Absent(members[0].value) then [] else [Entry(members[0].key, Print(members[0].value))]) + PrintMembers(members[1..])
  }

  datatype NotSerializable = NotSerializable

  /** Canonical delivery JSON. */
  function CanonicalDeliveryJson(v: Value): Result<Text, NotSerializable> {
    if Absent(v) || !Serializable(v) then Err(NotSerializable) else Ok(Print(v))
  }

  // ----- the reader

  predicate Blank(u: Unit) {
    u == 0x20 || u == 0x09 || u == 0x0a || u == 0x0d
  }

  function SkipBlank(t: Text): (r: Text)
    ensures |r| <= |t|
  {
    if t != [] && Blank(t[0]) then SkipBlank(t[1..]) else t
  }

  function HexValue(u: Unit): Option<int> {
    if 0x30 <= u <= 0x39 then Some(u - 0x30)
    else if 0x61 <= u <= 0x66 then Some(u - 0x61 + 10)
    else if 0x41 <= u <= 0x46 then Some(u - 0x41 + 10)
    else None
  }

  function ReadHex(t: Text): (r: Option<Unit>)
    requires |t| >= 4
  {
    if HexValue(t[0]).Some? && HexValue(t[1]).Some? && HexValue(t[2]).Some? && HexValue(t[3]).Some? then
      var n := HexValue(t[0]).value * 0x1000 + HexValue(t[1]).value * 0x100 + HexValue(t[2]).value * 0x10 + HexValue(t[3]).value;
      if 0 <= n < 0x1_0000 then Some(n) else None
    else None
  }

  /** The unit a two-character escape stands for. */
  function Long(u: Unit): Option<Unit> {
    if u == QUOTE || u == BACKSLASH || u == SLASH then Some(u)
    else if u == 0x62 then Some(0x08)
    else if u == 0x74 then Some(0x09)
    else if u == 0x6e then Some(0x0a)
    else if u == 0x66 then Some(0x0c)
    else if u == 0x72 then Some(0x0d)
    else None
  }

  /** One character inside a string. */
  function ReadChar(t: Text): (r: Option<(Unit, Text)>)
    ensures r.Some? ==> |r.value.1| < |t|
  {
    if t == [] || t[0] < 0x20 || t[0] == QUOTE then None
    else if t[0] != BACKSLASH then Some((t[0], t[1..]))
    else if |t| < 2 then None
    else if t[1] == 0x75 then
      if |t| < 6 || ReadHex(t[2..6]).None? then None else Some((ReadHex(t[2..6]).value, t[6..]))
    else if Long(t[1]).Some? then Some((Long(t[1]).value, t[2..]))
    else None
  }

  /** The rest of a string, its opening quote read. */
  function ReadString(t: Text): (r: Option<(Text, Text)>)
    ensures r.Some? ==> |r.value.1| < |t|
    decreases |t|
  {
    if t != [] && t[0] == QUOTE then Some(([], t[1..]))
    else
      var c := ReadChar(t);
      if c.None? then None
      else
        var s := ReadString(c.value.1);
        if s.None? then None else Some(([c.value.0] + s.value.0, s.value.1))
  }

  predicate Digit(u: Unit) {
    0x30 <= u <= 0x39
  }

  predicate Exponential(u: Unit) {
    u == 0x65 || u == 0x45
  }

  predicate NumberUnit(u: Unit) {
    Digit(u) || u == MINUS || u == PLUS || u == POINT || Exponential(u)
  }

  /** How many digits the text starts with. */
  function Digits(t: Text): (n: nat)
    ensures n <= |t| && forall i | 0 <= i < n :: Digit(t[i])
  {
    if t != [] && Digit(t[0]) then 1 + Digits(t[1..]) else 0
  }

  predicate IsExponent(t: Text) {
    t == [] || (Exponential(t[0]) &&
      var n := if |t| > 1 && (t[1] == MINUS || t[1] == PLUS) then t[2..] else t[1..];
      Digits(n) >= 1 && Digits(n) == |n|)
  }

  predicate IsFraction(t: Text) {
    if t != [] && t[0] == POINT then Digits(t[1..]) >= 1 && IsExponent(t[1..][Digits(t[1..])..]) else IsExponent(t)
  }

  /** The grammar of section 6 of RFC 8259. */
  predicate IsNumber(t: Text) {
    var n := if t != [] && t[0] == MINUS then t[1..] else t;
    Digits(n) >= 1 && (n[0] == 0x30 ==> Digits(n) == 1) && IsFraction(n[Digits(n)..])
  }

  /** How many number characters the text starts with. */
  function Run(t: Text): (n: nat)
    ensures n <= |t|
  {
    if t != [] && NumberUnit(t[0]) then 1 + Run(t[1..]) else 0
  }

  predicate StartsWith(t: Text, word: Text) {
    |word| <= |t| && t[..|word|] == word
  }

  function ReadScalar(t: Text): (r: Option<(Json, Text)>)
    ensures r.Some? ==> |r.value.1| < |t|
  {
    if StartsWith(t, NULL_WORD) then Some((JNull, t[4..]))
    else if StartsWith(t, TRUE_WORD) then Some((JBool(true), t[4..]))
    else if StartsWith(t, FALSE_WORD) then Some((JBool(false), t[5..]))
    else if Run(t) > 0 && IsNumber(t[..Run(t)]) then Some((JNumber(t[..Run(t)]), t[Run(t)..]))
    else None
  }

  function ReadValue(blank: Text): (r: Option<(Json, Text)>)
    ensures r.Some? ==> |r.value.1| < |blank|
    decreases |blank|, 0
  {
    var t := SkipBlank(blank);
    if t == [] then None
    else if t[0] == QUOTE then
      var s := ReadString(t[1..]);
      if s.None? then None else Some((JString(s.value.0), s.value.1))
    else if t[0] == LEFT_BRACKET then
      var inside := SkipBlank(t[1..]);
      if inside != [] && inside[0] == RIGHT_BRACKET then Some((JArray([]), inside[1..]))
      else
        var items := ReadItems(inside);
        if items.None? then None else Some((JArray(items.value.0), items.value.1))
    else if t[0] == LEFT_BRACE then
      var inside := SkipBlank(t[1..]);
      if inside != [] && inside[0] == RIGHT_BRACE then Some((JObject([]), inside[1..]))
      else
        var members := ReadMembers(inside);
        if members.None? then None else Some((JObject(members.value.0), members.value.1))
    else ReadScalar(t)
  }

  function ReadItems(t: Text): (r: Option<(seq<Json>, Text)>)
    ensures r.Some? ==> |r.value.1| < |t|
    decreases |t|, 1
  {
    var first := ReadValue(t);
    if first.None? then None
    else
      var after := SkipBlank(first.value.1);
      if after == [] then None
      else if after[0] == RIGHT_BRACKET then Some(([first.value.0], after[1..]))
      else if after[0] != COMMA then None
      else
        var others := ReadItems(after[1..]);
        if others.None? then None else Some(([first.value.0] + others.value.0, others.value.1))
  }

  /** A key, its colon and its value. */
  function ReadMember(blank: Text): (r: Option<(Entry<Json>, Text)>)
    ensures r.Some? ==> |r.value.1| < |blank|
    decreases |blank|, 1
  {
    var t := SkipBlank(blank);
    if t == [] || t[0] != QUOTE then None
    else
      var key := ReadString(t[1..]);
      if key.None? then None
      else
        var colon := SkipBlank(key.value.1);
        if colon == [] || colon[0] != COLON then None
        else
          var value := ReadValue(colon[1..]);
          if value.None? then None else Some((Entry(key.value.0, value.value.0), value.value.1))
  }

  function ReadMembers(t: Text): (r: Option<(seq<Entry<Json>>, Text)>)
    ensures r.Some? ==> |r.value.1| < |t|
    decreases |t|, 2
  {
    var first := ReadMember(t);
    if first.None? then None
    else
      var after := SkipBlank(first.value.1);
      if after == [] then None
      else if after[0] == RIGHT_BRACE then Some(([first.value.0], after[1..]))
      else if after[0] != COMMA then None
      else
        var others := ReadMembers(after[1..]);
        if others.None? then None else Some(([first.value.0] + others.value.0, others.value.1))
  }

  /** A whole JSON text: one value with nothing but blanks around it. */
  function ReadJson(t: Text): Option<Json> {
    var v := ReadValue(t);
    if v.Some? && SkipBlank(v.value.1) == [] then Some(v.value.0) else None
  }
}
