/** Canonical printing loses nothing but object key order, absent members and the spelling of null. */
module JsonFaithful {
  import opened Wrappers
  import opened Json

  // ----- what a value means

  /** An object has each key once, and a number is spelt as JSON spells numbers. */
  ghost predicate Valid(v: Value) {
    match v
    case Number(text) => IsNumber(text)
    case Arr(items) => forall i | 0 <= i < |items| :: Valid(items[i])
    case Obj(members) => Distinct(members) && forall i | 0 <= i < |members| :: Valid(members[i].value)
    case _ => true
  }

  ghost predicate Distinct<T(!new)>(s: seq<Entry<T>>) {
    forall i, j | 0 <= i < j < |s| :: s[i].key != s[j].key
  }

  /** The JSON value a source value is read as. */
  function Normal(v: Value): Json {
    match v
    case Bool(truth) => JBool(truth)
    case Number(text) => JNumber(text)
    case Str(chars) => JString(chars)
    case Arr(items) => JArray(NormalItems(items))
    case Obj(members) => JObject(Sort(NormalMembers(members)))
    case _ => JNull
  }

  function NormalItems(items: seq<Value>): seq<Json> {
    if items == [] then [] else [Normal(items[0])] + NormalItems(items[1..])
  }

  function NormalMembers(members: seq<Entry<Value>>): seq<Entry<Json>> {
    if members == [] then []
    else (if Absent(members[0].value) then [] else [Entry(members[0].key, Normal(members[0].value))]) + NormalMembers(members[1..])
  }

  /** Print JSON with its members in the order they are given. */
  function Render(j: Json): Text {
    match j
    case JNull => NULL_WORD
    case JBool(truth) => if truth then TRUE_WORD else FALSE_WORD
    case JNumber(text) => text
    case JString(chars) => Quoted(chars)
    case JArray(items) => [LEFT_BRACKET] + Join(RenderItems(items)) + [RIGHT_BRACKET]
    case JObject(members) => [LEFT_BRACE] + Join(Pairs(RenderMembers(members))) + [RIGHT_BRACE]
  }

  function RenderItems(items: seq<Json>): seq<Text> {
    if items == [] then [] else [Render(items[0])] + RenderItems(items[1..])
  }

  function RenderMembers(members: seq<Entry<Json>>): seq<Entry<Text>> {
    if members == [] then [] else [Entry(members[0].key, Render(members[0].value))] + RenderMembers(members[1..])
  }

  // ----- the printer prints the meaning

  lemma {:induction false} PrintIsRender(v: Value)
    requires Serializable(v)
    ensures Print(v) == Render(Normal(v))
    decreases v, 0
  {
    if v.Arr? {
      PrintItemsIsRender(v.items);
    } else if v.Obj? {
      PrintMembersIsRender(v.members);
      RenderSort(NormalMembers(v.members));
    }
  }

  lemma {:induction false} PrintItemsIsRender(items: seq<Value>)
    requires forall i | 0 <= i < |items| :: Serializable(items[i])
    ensures PrintItems(items) == RenderItems(NormalItems(items))
    decreases items, 1
  {
    if items != [] {
      PrintIsRender(items[0]);
      PrintItemsIsRender(items[1..]);
      assert NormalItems(items)[1..] == NormalItems(items[1..]);
    }
  }

  lemma {:induction false} PrintMembersIsRender(members: seq<Entry<Value>>)
    requires forall i | 0 <= i < |members| :: Serializable(members[i].value)
    ensures PrintMembers(members) == RenderMembers(NormalMembers(members))
    decreases members, 1
  {
    if members != [] {
      PrintIsRender(members[0].value);
      PrintMembersIsRender(members[1..]);
      if !Absent(members[0].value) {
        assert NormalMembers(members)[1..] == NormalMembers(members[1..]);
      } else {
        assert NormalMembers(members) == NormalMembers(members[1..]);
      }
    }
  }

  /** Sorting looks at keys alone, so it does not matter whether values are printed before or after it. */
  lemma {:induction false} RenderSort(s: seq<Entry<Json>>)
    ensures RenderMembers(Sort(s)) == Sort(RenderMembers(s))
  {
    if s != [] {
      RenderSort(s[1..]);
      RenderInsert(s[0], Sort(s[1..]));
      assert RenderMembers(s)[1..] == RenderMembers(s[1..]);
    }
  }

  lemma {:induction false} RenderInsert(e: Entry<Json>, s: seq<Entry<Json>>)
    ensures RenderMembers(Insert(e, s)) == Insert(Entry(e.key, Render(e.value)), RenderMembers(s))
  {
    var f := Entry(e.key, Render(e.value));
    if s == [] {
      assert RenderMembers([e]) == [f];
    } else {
      assert RenderMembers(s)[1..] == RenderMembers(s[1..]);
      if Less(s[0].key, e.key) {
        RenderInsert(e, s[1..]);
        assert ([s[0]] + Insert(e, s[1..]))[1..] == Insert(e, s[1..]);
      } else {
        assert ([e] + s)[1..] == s;
      }
    }
  }

  // ----- reading a string back

  lemma ReadDigitBack(n: int)
    requires 0 <= n < 16
    ensures HexValue(HexDigit(n)) == Some(n)
  {
  }

  lemma ReadHexBack(u: Unit)
    ensures ReadHex(Hex(u)) == Some(u)
  {
    var c := u / 0x10;
    var b := c / 0x10;
    ReadDigitBack(b / 0x10);
    ReadDigitBack(b % 0x10);
    ReadDigitBack(c % 0x10);
    ReadDigitBack(u % 0x10);
  }

  lemma ReadEscape(u: Unit, rest: Text)
    ensures ReadChar(Escape(u) + rest) == Some((u, rest))
    ensures Escape(u)[0] != QUOTE
  {
    var t := Escape(u) + rest;
    if Short(u).Some? {
      assert t[2..] == rest;
    } else if u < 0x20 || High(u) || Low(u) {
      assert t[2..6] == Hex(u) && t[6..] == rest;
      ReadHexBack(u);
    } else {
      assert t[1..] == rest;
    }
  }

  lemma ReadThen(t: Text, u: Unit, more: Text, s: Text, rest: Text)
    requires t != [] && t[0] != QUOTE && ReadChar(t) == Some((u, more)) && ReadString(more) == Some((s, rest))
    ensures ReadString(t) == Some(([u] + s, rest))
  {
  }

  /** A surrogate pair goes through as it is. */
  lemma ReadPair(u: Unit, v: Unit, more: Text, s: Text, rest: Text)
    requires High(u) && Low(v) && ReadString(more) == Some((s, rest))
    ensures ReadString([u, v] + more) == Some(([u, v] + s, rest))
  {
    var one := [v] + more;
    ReadRaw(v, more);
    ReadThen(one, v, more, s, rest);
    ReadRaw(u, one);
    ReadThen([u] + one, u, one, [v] + s, rest);
    assert [u] + one == [u, v] + more && [u] + ([v] + s) == [u, v] + s;
  }

  lemma ReadSingle(u: Unit, more: Text, s: Text, rest: Text)
    requires ReadString(more) == Some((s, rest))
    ensures ReadString(Escape(u) + more) == Some(([u] + s, rest))
  {
    ReadEscape(u, more);
    ReadThen(Escape(u) + more, u, more, s, rest);
  }

  lemma Associate(a: Text, b: Text, c: Text)
    ensures a + (b + c) == (a + b) + c
  {
  }

  /** `after` starts with the closing quote. */
  lemma {:induction false} ReadEscaped(s: Text, rest: Text, after: Text)
    requires after == [QUOTE] + rest
    ensures ReadString(Escaped(s) + after) == Some((s, rest))
    decreases |s|
  {
    if s == [] {
      assert after[1..] == rest;
      assert Escaped(s) + after == after;
    } else if |s| >= 2 && High(s[0]) && Low(s[1]) {
      ReadEscaped(s[2..], rest, after);
      ReadPair(s[0], s[1], Escaped(s[2..]) + after, s[2..], rest);
      Associate([s[0], s[1]], Escaped(s[2..]), after);
      assert s == [s[0], s[1]] + s[2..];
    } else {
      ReadEscaped(s[1..], rest, after);
      ReadSingle(s[0], Escaped(s[1..]) + after, s[1..], rest);
      Associate(Escape(s[0]), Escaped(s[1..]), after);
      assert s == [s[0]] + s[1..];
    }
  }

  lemma ReadRaw(u: Unit, rest: Text)
    requires High(u) || Low(u)
    ensures ReadChar([u] + rest) == Some((u, rest)) && ([u] + rest)[0] != QUOTE
  {
    assert ([u] + rest)[1..] == rest;
  }

  // ----- reading a number back

  lemma {:induction false} RunStops(text: Text, rest: Text)
    requires (forall u | u in text :: NumberUnit(u)) && (rest == [] || !NumberUnit(rest[0]))
    ensures Run(text + rest) == |text|
  {
    if text == [] {
      assert text + rest == rest;
    } else {
      assert (text + rest)[1..] == text[1..] + rest;
      RunStops(text[1..], rest);
    }
  }

  lemma UnitsOfParts(t: Text, k: nat)
    requires k <= |t| && (forall u | u in t[..k] :: NumberUnit(u)) && (forall u | u in t[k..] :: NumberUnit(u))
    ensures forall u | u in t :: NumberUnit(u)
  {
    assert t == t[..k] + t[k..];
  }

  lemma ExponentUnits(t: Text)
    requires IsExponent(t)
    ensures forall u | u in t :: NumberUnit(u)
  {
    if t != [] {
      var n := if |t| > 1 && (t[1] == MINUS || t[1] == PLUS) then t[2..] else t[1..];
      UnitsOfParts(t, |t| - |n|);
    }
  }

  lemma FractionUnits(t: Text)
    requires IsFraction(t)
    ensures forall u | u in t :: NumberUnit(u)
  {
    if t != [] && t[0] == POINT {
      var n := t[1..];
      ExponentUnits(n[Digits(n)..]);
      UnitsOfParts(n, Digits(n));
      UnitsOfParts(t, 1);
    } else {
      ExponentUnits(t);
    }
  }

  lemma NumberUnits(t: Text)
    requires IsNumber(t)
    ensures t != [] && (Digit(t[0]) || t[0] == MINUS) && forall u | u in t :: NumberUnit(u)
  {
    var n := if t[0] == MINUS then t[1..] else t;
    FractionUnits(n[Digits(n)..]);
    UnitsOfParts(n, Digits(n));
    UnitsOfParts(t, |t| - |n|);
  }

  // ----- reading a value back

  ghost predicate WellSpelt(j: Json) {
    match j
    case JNumber(text) => IsNumber(text)
    case JArray(items) => forall i | 0 <= i < |items| :: WellSpelt(items[i])
    case JObject(members) => forall i | 0 <= i < |members| :: WellSpelt(members[i].value)
    case _ => true
  }

  /** No number runs on into `rest`. */
  predicate Ends(rest: Text) {
    rest == [] || !NumberUnit(rest[0])
  }

  lemma RenderStarts(j: Json)
    requires WellSpelt(j)
    ensures Render(j) != [] && !Blank(Render(j)[0]) && Render(j)[0] != RIGHT_BRACKET
  {
    if j.JNumber? {
      NumberUnits(j.text);
    }
  }

  lemma NoBlank(t: Text)
    requires t == [] || !Blank(t[0])
    ensures SkipBlank(t) == t
  {
  }

  lemma ReadWord(word: Text, rest: Text)
    ensures StartsWith(word + rest, word) && (word + rest)[|word|..] == rest
  {
  }

  lemma ReadRenderScalar(j: Json, rest: Text)
    requires WellSpelt(j) && Ends(rest) && (j.JNull? || j.JBool? || j.JNumber?)
    ensures ReadScalar(Render(j) + rest) == Some((j, rest))
    ensures (Render(j) + rest)[0] != QUOTE && (Render(j) + rest)[0] != LEFT_BRACKET && (Render(j) + rest)[0] != LEFT_BRACE
  {
    ReadWord(Render(j), rest);
    if j.JNumber? {
      NumberUnits(j.text);
      RunStops(j.text, rest);
      assert (j.text + rest)[..|j.text|] == j.text;
    }
  }

  lemma Enclosed(open: Text, body: Text, close: Text, rest: Text)
    requires |open| == 1
    ensures open + body + close + rest == open + (body + (close + rest))
    ensures (open + body + close + rest)[1..] == body + (close + rest)
  {
  }

  lemma ReadRenderString(s: Text, rest: Text)
    ensures Quoted(s) + rest == [QUOTE] + (Escaped(s) + ([QUOTE] + rest))
    ensures (Quoted(s) + rest)[0] == QUOTE && ReadString((Quoted(s) + rest)[1..]) == Some((s, rest))
  {
    Enclosed([QUOTE], Escaped(s), [QUOTE], rest);
    ReadEscaped(s, rest, [QUOTE] + rest);
  }

  /** Reading what was printed gives back the value and what follows it. */
  lemma {:induction false} ReadRender(j: Json, rest: Text)
    requires WellSpelt(j) && Ends(rest)
    ensures ReadValue(Render(j) + rest) == Some((j, rest))
    decreases j, 0
  {
    RenderStarts(j);
    NoBlank(Render(j) + rest);
    if j.JString? {
      ReadRenderString(j.chars, rest);
    } else if j.JArray? {
      ReadRenderArray(j, rest);
    } else if j.JObject? {
      ReadRenderObject(j, rest);
    } else {
      ReadRenderScalar(j, rest);
    }
  }

  lemma {:induction false} ReadRenderArray(j: Json, rest: Text)
    requires j.JArray? && WellSpelt(j)
    ensures ReadValue(Render(j) + rest) == Some((j, rest))
    decreases j.items, 2
  {
    var inside := Join(RenderItems(j.items)) + ([RIGHT_BRACKET] + rest);
    Enclosed([LEFT_BRACKET], Join(RenderItems(j.items)), [RIGHT_BRACKET], rest);
    NoBlank([LEFT_BRACKET] + inside);
    if j.items == [] {
      assert inside == [RIGHT_BRACKET] + rest && inside[1..] == rest;
      NoBlank(inside);
    } else {
      ReadRenderItems(j.items, RenderItems(j.items), rest);
      RenderStarts(j.items[0]);
      assert inside[0] == Render(j.items[0])[0];
      NoBlank(inside);
    }
  }

  lemma JoinStep(parts: seq<Text>, close: Text)
    requires |parts| > 1
    ensures Join(parts) + close == parts[0] + ([COMMA] + (Join(parts[1..]) + close))
  {
  }

  lemma ReadLastItem(t: Text, j: Json, rest: Text)
    requires ReadValue(t) == Some((j, [RIGHT_BRACKET] + rest))
    ensures ReadItems(t) == Some(([j], rest))
  {
    NoBlank([RIGHT_BRACKET] + rest);
    assert ([RIGHT_BRACKET] + rest)[1..] == rest;
  }

  lemma ReadNextItem(t: Text, j: Json, others: Text, items: seq<Json>, rest: Text)
    requires ReadValue(t) == Some((j, [COMMA] + others)) && ReadItems(others) == Some((items, rest))
    ensures ReadItems(t) == Some(([j] + items, rest))
  {
    NoBlank([COMMA] + others);
    assert ([COMMA] + others)[1..] == others;
  }

  lemma ReadLastMember(t: Text, e: Entry<Json>, rest: Text)
    requires ReadMember(t) == Some((e, [RIGHT_BRACE] + rest))
    ensures ReadMembers(t) == Some(([e], rest))
  {
    NoBlank([RIGHT_BRACE] + rest);
    assert ([RIGHT_BRACE] + rest)[1..] == rest;
  }

  lemma ReadNextMember(t: Text, e: Entry<Json>, others: Text, members: seq<Entry<Json>>, rest: Text)
    requires ReadMember(t) == Some((e, [COMMA] + others)) && ReadMembers(others) == Some((members, rest))
    ensures ReadMembers(t) == Some(([e] + members, rest))
  {
    NoBlank([COMMA] + others);
    assert ([COMMA] + others)[1..] == others;
  }

  lemma {:induction false} ReadRenderItems(items: seq<Json>, parts: seq<Text>, rest: Text)
    requires items != [] && forall i | 0 <= i < |items| :: WellSpelt(items[i])
    requires parts == RenderItems(items)
    ensures ReadItems(Join(parts) + ([RIGHT_BRACKET] + rest)) == Some((items, rest))
    decreases items, 1
  {
    var close := [RIGHT_BRACKET] + rest;
    ItemsStep(items);
    if |items| == 1 {
      ReadRender(items[0], close);
      ReadLastItem(Join(parts) + close, items[0], rest);
      assert items == [items[0]];
    } else {
      var others := Join(parts[1..]) + close;
      ReadRenderItems(items[1..], parts[1..], rest);
      ReadRender(items[0], [COMMA] + others);
      JoinStep(parts, close);
      ReadNextItem(parts[0] + ([COMMA] + others), items[0], others, items[1..], rest);
      assert items == [items[0]] + items[1..];
    }
  }

  lemma {:induction false} ReadRenderObject(j: Json, rest: Text)
    requires j.JObject? && WellSpelt(j)
    ensures ReadValue(Render(j) + rest) == Some((j, rest))
    decreases j.members, 3
  {
    var inside := Join(Pairs(RenderMembers(j.members))) + ([RIGHT_BRACE] + rest);
    Enclosed([LEFT_BRACE], Join(Pairs(RenderMembers(j.members))), [RIGHT_BRACE], rest);
    NoBlank([LEFT_BRACE] + inside);
    if j.members == [] {
      assert inside == [RIGHT_BRACE] + rest && inside[1..] == rest;
      NoBlank(inside);
    } else {
      ReadRenderMembers(j.members, Pairs(RenderMembers(j.members)), rest);
      PairsStep(j.members);
      assert inside[0] == QUOTE;
      NoBlank(inside);
    }
  }

  lemma {:induction false} ReadRenderMember(e: Entry<Json>, rest: Text)
    requires WellSpelt(e.value) && Ends(rest)
    ensures ReadMember(Pair(Entry(e.key, Render(e.value))) + rest) == Some((e, rest))
    decreases e, 1
  {
    var value := Render(e.value) + rest;
    assert Pair(Entry(e.key, Render(e.value))) + rest == Quoted(e.key) + ([COLON] + value);
    ReadRenderString(e.key, [COLON] + value);
    NoBlank(Quoted(e.key) + ([COLON] + value));
    NoBlank([COLON] + value);
    assert ([COLON] + value)[1..] == value;
    ReadRender(e.value, rest);
  }

  lemma {:induction false} ReadRenderMembers(members: seq<Entry<Json>>, parts: seq<Text>, rest: Text)
    requires members != [] && forall i | 0 <= i < |members| :: WellSpelt(members[i].value)
    requires parts == Pairs(RenderMembers(members))
    ensures ReadMembers(Join(parts) + ([RIGHT_BRACE] + rest)) == Some((members, rest))
    decreases members, 2
  {
    var close := [RIGHT_BRACE] + rest;
    PairsStep(members);
    if |members| == 1 {
      ReadRenderMember(members[0], close);
      ReadLastMember(Join(parts) + close, members[0], rest);
      assert members == [members[0]];
    } else {
      var others := Join(parts[1..]) + close;
      ReadRenderMembers(members[1..], parts[1..], rest);
      ReadRenderMember(members[0], [COMMA] + others);
      JoinStep(parts, close);
      ReadNextMember(parts[0] + ([COMMA] + others), members[0], others, members[1..], rest);
      assert members == [members[0]] + members[1..];
    }
  }

  lemma ItemsStep(items: seq<Json>)
    requires items != []
    ensures |RenderItems(items)| == 1 + |RenderItems(items[1..])|
    ensures RenderItems(items)[0] == Render(items[0]) && RenderItems(items)[1..] == RenderItems(items[1..])
    ensures |items| > 1 ==> |RenderItems(items[1..])| >= 1
  {
  }

  lemma PairsStep(members: seq<Entry<Json>>)
    requires members != []
    ensures |Pairs(RenderMembers(members))| == 1 + |Pairs(RenderMembers(members[1..]))|
    ensures Pairs(RenderMembers(members))[0] == Pair(Entry(members[0].key, Render(members[0].value)))
    ensures Pairs(RenderMembers(members))[1..] == Pairs(RenderMembers(members[1..]))
    ensures |RenderMembers(members)| >= 1 && (|members| > 1 ==> |RenderMembers(members[1..])| >= 1)
  {
    assert RenderMembers(members)[1..] == RenderMembers(members[1..]);
  }

  // ----- sorting by key

  lemma {:induction false} LessTotal(a: Text, b: Text)
    ensures Less(a, b) || Less(b, a) || a == b
    ensures !(Less(a, b) && Less(b, a))
    decreases |a|
  {
    if a != [] && b != [] && a[0] == b[0] {
      LessTotal(a[1..], b[1..]);
      if a[1..] == b[1..] {
        assert a == [a[0]] + a[1..] && b == [b[0]] + b[1..];
      }
    }
  }

  lemma {:induction false} LessTransitive(a: Text, b: Text, c: Text)
    requires Less(a, b) && Less(b, c)
    ensures Less(a, c)
    decreases |a|
  {
    if a != [] && a[0] == b[0] && b[0] == c[0] {
      LessTransitive(a[1..], b[1..], c[1..]);
    }
  }

  ghost predicate Ascending<T(!new)>(s: seq<Entry<T>>) {
    s == [] || ((forall e | e in s[1..] :: Less(s[0].key, e.key)) && Ascending(s[1..]))
  }

  lemma {:induction false} InsertElements<T(!new)>(e: Entry<T>, s: seq<Entry<T>>)
    ensures forall x :: x in Insert(e, s) <==> x == e || x in s
  {
    if s != [] && Less(s[0].key, e.key) {
      InsertElements(e, s[1..]);
      assert s == [s[0]] + s[1..];
    }
  }

  lemma {:induction false} SortElements<T(!new)>(s: seq<Entry<T>>)
    ensures forall x :: x in Sort(s) <==> x in s
  {
    if s != [] {
      SortElements(s[1..]);
      InsertElements(s[0], Sort(s[1..]));
      assert s == [s[0]] + s[1..];
    }
  }

  lemma {:induction false} InsertAscends<T(!new)>(e: Entry<T>, s: seq<Entry<T>>)
    requires Ascending(s) && forall x | x in s :: x.key != e.key
    ensures Ascending(Insert(e, s))
  {
    if s != [] {
      if Less(s[0].key, e.key) {
        InsertAscends(e, s[1..]);
        InsertElements(e, s[1..]);
        assert Insert(e, s)[1..] == Insert(e, s[1..]);
      } else {
        LessTotal(s[0].key, e.key);
        forall x | x in s ensures Less(e.key, x.key) {
          if x != s[0] {
            assert x in s[1..] by { assert s == [s[0]] + s[1..]; }
            LessTransitive(e.key, s[0].key, x.key);
          }
        }
        assert Insert(e, s)[1..] == s;
      }
    }
  }

  lemma {:induction false} SortAscends<T(!new)>(s: seq<Entry<T>>)
    requires Distinct(s)
    ensures Ascending(Sort(s))
  {
    if s != [] {
      assert Distinct(s[1..]);
      SortAscends(s[1..]);
      SortElements(s[1..]);
      forall x | x in Sort(s[1..]) ensures x.key != s[0].key {
        var i :| 0 <= i < |s[1..]| && s[1..][i] == x;
        assert s[i + 1] == x;
      }
      InsertAscends(s[0], Sort(s[1..]));
    }
  }

  /** An ascending list is told by its elements. */
  lemma {:induction false} AscendingUnique<T(!new)>(s: seq<Entry<T>>, t: seq<Entry<T>>)
    requires Ascending(s) && Ascending(t) && forall x :: x in s <==> x in t
    ensures s == t
  {
    HeadIn(s);
    HeadIn(t);
    if s != [] {
      if s[0] != t[0] {
        assert s[0] in t[1..] by { assert t == [t[0]] + t[1..]; }
        assert t[0] in s[1..] by { assert s == [s[0]] + s[1..]; }
        LessTotal(s[0].key, t[0].key);
        assert false;
      }
      LessTotal(s[0].key, s[0].key);
      TailElements(s);
      TailElements(t);
      AscendingUnique(s[1..], t[1..]);
      assert s == [s[0]] + s[1..] && t == [t[0]] + t[1..];
    }
  }

  lemma HeadIn<T(!new)>(s: seq<Entry<T>>)
    ensures s == [] || s[0] in s
  {
  }

  lemma TailElements<T(!new)>(s: seq<Entry<T>>)
    requires s != [] && Ascending(s)
    ensures forall x :: x in s[1..] <==> x in s && x != s[0]
  {
    LessTotal(s[0].key, s[0].key);
    assert s == [s[0]] + s[1..];
  }

  lemma SortCanonical<T(!new)>(s: seq<Entry<T>>, t: seq<Entry<T>>)
    requires Distinct(s) && Distinct(t)
    ensures Sort(s) == Sort(t) <==> forall x :: x in s <==> x in t
  {
    SortElements(s);
    SortElements(t);
    SortAscends(s);
    SortAscends(t);
    if forall x :: x in s <==> x in t {
      AscendingUnique(Sort(s), Sort(t));
    }
  }

  // ----- what the meaning of an object holds

  ghost predicate Holds(members: seq<Entry<Value>>, i: int) {
    0 <= i < |members| && !Absent(members[i].value)
  }

  function NormalEntry(e: Entry<Value>): Entry<Json> {
    Entry(e.key, Normal(e.value))
  }

  lemma {:induction false} NormalMember(members: seq<Entry<Value>>, i: int)
    requires Holds(members, i)
    ensures NormalEntry(members[i]) in NormalMembers(members)
  {
    if i > 0 {
      NormalMember(members[1..], i - 1);
    }
  }

  lemma {:induction false} MemberOf(members: seq<Entry<Value>>, e: Entry<Json>) returns (i: int)
    requires e in NormalMembers(members)
    ensures Holds(members, i) && NormalEntry(members[i]) == e
  {
    if Holds(members, 0) && NormalEntry(members[0]) == e {
      i := 0;
    } else {
      i := MemberOf(members[1..], e);
      i := i + 1;
    }
  }

  lemma {:induction false} NormalDistinct(members: seq<Entry<Value>>)
    requires Distinct(members)
    ensures Distinct(NormalMembers(members))
  {
    if members != [] {
      assert Distinct(members[1..]);
      NormalDistinct(members[1..]);
      var tail := NormalMembers(members[1..]);
      forall k | 0 <= k < |tail| ensures tail[k].key != members[0].key {
        var i := MemberOf(members[1..], tail[k]);
        assert members[1..][i] == members[i + 1];
      }
    }
  }

  lemma {:induction false} NormalItem(items: seq<Value>)
    ensures |NormalItems(items)| == |items| && forall i | 0 <= i < |items| :: NormalItems(items)[i] == Normal(items[i])
  {
    if items != [] {
      NormalItem(items[1..]);
    }
  }

  lemma {:induction false} NormalWellSpelt(v: Value)
    requires Valid(v)
    ensures WellSpelt(Normal(v))
    decreases v
  {
    if v.Arr? {
      NormalItem(v.items);
      forall i | 0 <= i < |v.items| ensures WellSpelt(Normal(v.items[i])) {
        NormalWellSpelt(v.items[i]);
      }
    } else if v.Obj? {
      var sorted := Sort(NormalMembers(v.members));
      SortElements(NormalMembers(v.members));
      forall k | 0 <= k < |sorted| ensures WellSpelt(sorted[k].value) {
        assert sorted[k] in NormalMembers(v.members);
        var i := MemberOf(v.members, sorted[k]);
        NormalWellSpelt(v.members[i].value);
      }
    }
  }

  // ----- the two main results

  /** Reading canonical text back as JSON gives the value's meaning. */
  lemma ReadPrint(v: Value)
    requires Valid(v) && CanonicalDeliveryJson(v).Ok?
    ensures ReadJson(CanonicalDeliveryJson(v).value) == Some(Normal(v))
  {
    PrintIsRender(v);
    NormalWellSpelt(v);
    ReadRender(Normal(v), []);
    assert Print(v) + [] == Print(v);
  }

  predicate Nullish(v: Value) {
    v.Null? || v.NonFinite? || Absent(v)
  }

  /**
   Equal up to the order of object keys, absent members, and everything that reads as null being null.
   */
  ghost predicate Alike(v: Value, w: Value)
    decreases v
  {
    if Nullish(v) || Nullish(w) then Nullish(v) && Nullish(w)
    else if v.Arr? && w.Arr? then
      |v.items| == |w.items| && forall i | 0 <= i < |v.items| :: Alike(v.items[i], w.items[i])
    else if v.Obj? && w.Obj? then
      && (forall i | Holds(v.members, i) :: HasKey(w.members, v.members[i].key))
      && (forall j | Holds(w.members, j) :: HasKey(v.members, w.members[j].key))
      && (forall i, j | 0 <= i < |v.members| && Holds(v.members, i) && Holds(w.members, j) && v.members[i].key == w.members[j].key ::
            Alike(v.members[i].value, w.members[j].value))
    else v == w
  }

  ghost predicate HasKey(members: seq<Entry<Value>>, key: Text) {
    exists j :: Holds(members, j) && members[j].key == key
  }

  ghost predicate Agrees(v: Value, w: Value) {
    Normal(v) == Normal(w) <==> Alike(v, w)
  }

  lemma {:induction false} NormalAlike(v: Value, w: Value)
    requires Valid(v) && Valid(w) && Serializable(v) && Serializable(w)
    ensures Normal(v) == Normal(w) <==> Alike(v, w)
    decreases v
  {
    if v.Arr? && w.Arr? {
      NormalItem(v.items);
      NormalItem(w.items);
      forall i | 0 <= i < |v.items| && i < |w.items| ensures Normal(v.items[i]) == Normal(w.items[i]) <==> Alike(v.items[i], w.items[i]) {
        NormalAlike(v.items[i], w.items[i]);
      }
      if |v.items| == |w.items| && Alike(v, w) {
        assert NormalItems(v.items) == NormalItems(w.items);
      }
    } else if v.Obj? && w.Obj? {
      forall i, j | 0 <= i < |v.members| && 0 <= j < |w.members| ensures Agrees(v.members[i].value, w.members[j].value) {
        NormalAlike(v.members[i].value, w.members[j].value);
      }
      NormalDistinct(v.members);
      NormalDistinct(w.members);
      SortCanonical(NormalMembers(v.members), NormalMembers(w.members));
      if Normal(v) == Normal(w) {
        ObjectsAlike(v, w);
      }
      if Alike(v, w) {
        ObjectsEqual(v, w);
      }
    }
  }

  lemma KeysCarry(a: seq<Entry<Value>>, b: seq<Entry<Value>>, i: int)
    requires Holds(a, i) && forall x | x in NormalMembers(a) :: x in NormalMembers(b)
    ensures HasKey(b, a[i].key)
  {
    NormalMember(a, i);
    var j := MemberOf(b, NormalEntry(a[i]));
  }

  lemma SharedKey(a: seq<Entry<Value>>, b: seq<Entry<Value>>, i: int, j: int)
    requires Holds(a, i) && Holds(b, j) && a[i].key == b[j].key && Distinct(b)
    requires forall x | x in NormalMembers(a) :: x in NormalMembers(b)
    ensures Normal(a[i].value) == Normal(b[j].value)
  {
    NormalMember(a, i);
    var k := MemberOf(b, NormalEntry(a[i]));
    assert k == j;
  }

  lemma ObjectsAlike(v: Value, w: Value)
    requires v.Obj? && w.Obj? && Distinct(v.members) && Distinct(w.members)
    requires forall x :: x in NormalMembers(v.members) <==> x in NormalMembers(w.members)
    requires forall i, j | 0 <= i < |v.members| && 0 <= j < |w.members| :: Agrees(v.members[i].value, w.members[j].value)
    ensures Alike(v, w)
  {
    forall i | Holds(v.members, i) ensures HasKey(w.members, v.members[i].key) {
      KeysCarry(v.members, w.members, i);
    }
    forall j | Holds(w.members, j) ensures HasKey(v.members, w.members[j].key) {
      KeysCarry(w.members, v.members, j);
    }
    forall i, j | 0 <= i < |v.members| && Holds(v.members, i) && Holds(w.members, j) && v.members[i].key == w.members[j].key
      ensures Alike(v.members[i].value, w.members[j].value) {
      SharedKey(v.members, w.members, i, j);
      assert Agrees(v.members[i].value, w.members[j].value);
    }
  }

  lemma ObjectsEqual(v: Value, w: Value)
    requires v.Obj? && w.Obj? && Alike(v, w)
    requires forall i, j | 0 <= i < |v.members| && 0 <= j < |w.members| :: Agrees(v.members[i].value, w.members[j].value)
    ensures forall x :: x in NormalMembers(v.members) <==> x in NormalMembers(w.members)
  {
    forall x ensures x in NormalMembers(v.members) <==> x in NormalMembers(w.members) {
      if x in NormalMembers(v.members) {
        var i := MemberOf(v.members, x);
        assert HasKey(w.members, v.members[i].key);
        var j :| Holds(w.members, j) && w.members[j].key == v.members[i].key;
        assert Agrees(v.members[i].value, w.members[j].value);
        NormalMember(w.members, j);
      }
      if x in NormalMembers(w.members) {
        var j := MemberOf(w.members, x);
        assert HasKey(v.members, w.members[j].key);
        var i :| Holds(v.members, i) && v.members[i].key == w.members[j].key;
        assert Agrees(v.members[i].value, w.members[j].value);
        NormalMember(v.members, i);
      }
    }
  }

  /** Two values have the same canonical text exactly when they are alike. */
  lemma SameTextIffAlike(v: Value, w: Value)
    requires Valid(v) && Valid(w) && CanonicalDeliveryJson(v).Ok? && CanonicalDeliveryJson(w).Ok?
    ensures CanonicalDeliveryJson(v) == CanonicalDeliveryJson(w) <==> Alike(v, w)
  {
    ReadPrint(v);
    ReadPrint(w);
    PrintIsRender(v);
    PrintIsRender(w);
    NormalAlike(v, w);
  }
}
