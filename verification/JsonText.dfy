/** What canonical text looks like: keys by code unit, and nothing a change of encoding could lose. */
module JsonText {
  import opened Wrappers
  import opened Json
  import opened JsonFaithful

  // ----- the order of keys

  /** The texts agree up to some place, where the first ends or has the smaller unit. */
  ghost predicate Precedes(a: Text, b: Text) {
    exists k: nat :: DiffersAt(a, b, k)
  }

  ghost predicate DiffersAt(a: Text, b: Text, k: nat) {
    k <= |a| && k < |b| && a[..k] == b[..k] && (k == |a| || a[k] < b[k])
  }

  lemma FirstUnits(a: Text, b: Text, k: nat)
    requires DiffersAt(a, b, k)
    ensures b != [] && if k == 0 then a == [] || a[0] < b[0] else a != [] && a[0] == b[0]
  {
    if k > 0 {
      assert a[0] == a[..k][0];
    }
  }

  lemma {:induction false} LessIsFirstDifference(a: Text, b: Text)
    ensures Less(a, b) <==> Precedes(a, b)
    decreases |a|
  {
    if a == [] || b == [] || a[0] != b[0] {
      if b != [] && (a == [] || a[0] < b[0]) {
        assert DiffersAt(a, b, 0);
      }
      if k: nat :| DiffersAt(a, b, k) {
        FirstUnits(a, b, k);
      }
    } else {
      LessIsFirstDifference(a[1..], b[1..]);
      if k: nat :| DiffersAt(a[1..], b[1..], k) {
        assert a[..k + 1] == [a[0]] + a[1..][..k] && b[..k + 1] == [b[0]] + b[1..][..k];
        assert DiffersAt(a, b, k + 1);
      }
      if k: nat :| DiffersAt(a, b, k) {
        assert k > 0;
        assert a[1..][..k - 1] == a[..k][1..] && b[1..][..k - 1] == b[..k][1..];
        assert DiffersAt(a[1..], b[1..], k - 1);
      }
    }
  }

  ghost predicate KeysAscend(j: Json) {
    match j
    case JArray(items) => forall i | 0 <= i < |items| :: KeysAscend(items[i])
    case JObject(members) =>
      && (forall i, k | 0 <= i < k < |members| :: Precedes(members[i].key, members[k].key))
      && (forall i | 0 <= i < |members| :: KeysAscend(members[i].value))
    case _ => true
  }

  lemma {:induction false} AscendingAt<T(!new)>(s: seq<Entry<T>>, i: nat, k: nat)
    requires Ascending(s) && i < k < |s|
    ensures Precedes(s[i].key, s[k].key)
    decreases |s|
  {
    if i > 0 {
      AscendingAt(s[1..], i - 1, k - 1);
    } else {
      assert s[k] == s[1..][k - 1];
      assert s[k] in s[1..];
      LessIsFirstDifference(s[0].key, s[k].key);
    }
  }

  lemma {:induction false} NormalAscends(v: Value)
    requires Valid(v)
    ensures KeysAscend(Normal(v))
    decreases v
  {
    hide Precedes;
    if v.Arr? {
      NormalItem(v.items);
      forall i | 0 <= i < |v.items| ensures KeysAscend(Normal(v.items[i])) {
        NormalAscends(v.items[i]);
      }
    } else if v.Obj? {
      var members := NormalMembers(v.members);
      var sorted := Sort(members);
      NormalDistinct(v.members);
      SortAscends(members);
      SortElements(members);
      forall i, k | 0 <= i < k < |sorted| ensures Precedes(sorted[i].key, sorted[k].key) {
        AscendingAt(sorted, i, k);
      }
      forall k | 0 <= k < |sorted| ensures KeysAscend(sorted[k].value) {
        assert sorted[k] in members;
        var i := MemberOf(v.members, sorted[k]);
        NormalAscends(v.members[i].value);
      }
    }
  }

  /** Read as it stands, canonical text has the keys of every object in ascending order of their code units. */
  lemma PrintedKeysAscend(v: Value)
    requires Valid(v) && CanonicalDeliveryJson(v).Ok?
    ensures var j := ReadJson(CanonicalDeliveryJson(v).value); j.Some? && KeysAscend(j.value)
  {
    ReadPrint(v);
    NormalAscends(v);
  }

  // ----- no control character, no lone surrogate

  ghost predicate Clean(t: Text)
    decreases |t|
  {
    t == [] || (t[0] >= 0x20 && if High(t[0]) then |t| >= 2 && Low(t[1]) && Clean(t[2..]) else !Low(t[0]) && Clean(t[1..]))
  }

  lemma {:induction false} CleanConcat(a: Text, b: Text)
    requires Clean(a) && Clean(b)
    ensures Clean(a + b)
    decreases |a|
  {
    if a == [] {
      assert a + b == b;
    } else if High(a[0]) {
      CleanConcat(a[2..], b);
      assert (a + b)[2..] == a[2..] + b;
    } else {
      CleanConcat(a[1..], b);
      assert (a + b)[1..] == a[1..] + b;
    }
  }

  lemma {:induction false} CleanPlain(t: Text)
    requires forall u | u in t :: 0x20 <= u < 0xd800
    ensures Clean(t)
    decreases |t|
  {
    if t != [] {
      assert t[0] in t;
      forall u | u in t[1..] ensures 0x20 <= u < 0xd800 { assert u in t; }
      CleanPlain(t[1..]);
    }
  }

  lemma EscapePlain(u: Unit)
    ensures Clean(Escape(u))
  {
    if !High(u) && !Low(u) && u >= 0x20 && Short(u).None? {
      assert Escape(u) == [u] && [u][1..] == [];
    } else {
      HexPlain(u);
      CleanPlain(Escape(u));
    }
  }

  lemma HexPlain(u: Unit)
    ensures forall v | v in Hex(u) :: 0x30 <= v < 0x67
  {
  }

  lemma {:induction false} CleanEscaped(s: Text)
    ensures Clean(Escaped(s))
    decreases |s|
  {
    hide Escape;
    if s != [] {
      if |s| >= 2 && High(s[0]) && Low(s[1]) {
        CleanEscaped(s[2..]);
        assert ([s[0], s[1]] + Escaped(s[2..]))[2..] == Escaped(s[2..]);
      } else {
        EscapePlain(s[0]);
        CleanEscaped(s[1..]);
        CleanConcat(Escape(s[0]), Escaped(s[1..]));
      }
    }
  }

  lemma CleanQuoted(s: Text)
    ensures Clean(Quoted(s))
  {
    CleanEscaped(s);
    CleanPlain([QUOTE]);
    CleanConcat([QUOTE], Escaped(s));
    CleanConcat([QUOTE] + Escaped(s), [QUOTE]);
  }

  lemma {:induction false} CleanJoin(parts: seq<Text>)
    requires forall i | 0 <= i < |parts| :: Clean(parts[i])
    ensures Clean(Join(parts))
    decreases |parts|
  {
    if |parts| > 1 {
      CleanJoin(parts[1..]);
      CleanPlain([COMMA]);
      CleanConcat(parts[0], [COMMA]);
      CleanConcat(parts[0] + [COMMA], Join(parts[1..]));
    }
  }

  lemma CleanEnclosed(open: Unit, body: Text, close: Unit)
    requires 0x20 <= open < 0xd800 && 0x20 <= close < 0xd800 && Clean(body)
    ensures Clean([open] + body + [close])
  {
    CleanPlain([open]);
    CleanPlain([close]);
    CleanConcat([open], body);
    CleanConcat([open] + body, [close]);
  }

  lemma CleanPair(key: Text, value: Text)
    requires Clean(value)
    ensures Clean(Pair(Entry(key, value)))
  {
    CleanQuoted(key);
    CleanPlain([COLON]);
    CleanConcat(Quoted(key), [COLON]);
    CleanConcat(Quoted(key) + [COLON], value);
  }

  lemma {:induction false} CleanRender(j: Json)
    requires WellSpelt(j)
    ensures Clean(Render(j))
    decreases j, 0
  {
    match j
    case JNull => CleanPlain(NULL_WORD);
    case JBool(truth) => CleanPlain(if truth then TRUE_WORD else FALSE_WORD);
    case JNumber(text) =>
      NumberUnits(text);
      CleanPlain(text);
    case JString(chars) => CleanQuoted(chars);
    case JArray(items) =>
      CleanItems(items);
      CleanJoin(RenderItems(items));
      CleanEnclosed(LEFT_BRACKET, Join(RenderItems(items)), RIGHT_BRACKET);
    case JObject(members) =>
      CleanMembers(members);
      var pairs := Pairs(RenderMembers(members));
      forall i | 0 <= i < |pairs| ensures Clean(pairs[i]) {
        CleanPair(RenderMembers(members)[i].key, RenderMembers(members)[i].value);
      }
      CleanJoin(pairs);
      CleanEnclosed(LEFT_BRACE, Join(pairs), RIGHT_BRACE);
  }

  lemma {:induction false} CleanItems(items: seq<Json>)
    requires forall i | 0 <= i < |items| :: WellSpelt(items[i])
    ensures forall i | 0 <= i < |RenderItems(items)| :: Clean(RenderItems(items)[i])
    decreases items, 1
  {
    if items != [] {
      CleanRender(items[0]);
      CleanItems(items[1..]);
    }
  }

  lemma {:induction false} CleanMembers(members: seq<Entry<Json>>)
    requires forall i | 0 <= i < |members| :: WellSpelt(members[i].value)
    ensures forall i | 0 <= i < |RenderMembers(members)| :: Clean(RenderMembers(members)[i].value)
    decreases members, 1
  {
    if members != [] {
      CleanRender(members[0].value);
      CleanMembers(members[1..]);
    }
  }

  /** Canonical text has no control character and no lone surrogate, so encoding it as UTF-8 loses nothing. */
  lemma PrintedIsClean(v: Value)
    requires Valid(v) && CanonicalDeliveryJson(v).Ok?
    ensures Clean(CanonicalDeliveryJson(v).value)
  {
    PrintIsRender(v);
    NormalWellSpelt(v);
    CleanRender(Normal(v));
  }

  // ----- nothing is escaped that need not be, and nothing at more length than need be

  lemma EscapeIsNoLonger(u: Unit, s: Text)
    ensures |Escaped([u] + s)| <= |Escape(u)| + |Escaped(s)|
  {
    assert ([u] + s)[1..] == s;
    if s != [] && High(u) && Low(s[0]) {
      assert ([u] + s)[2..] == s[1..];
      assert !High(s[0]);
      assert |Escape(s[0])| == 6;
    }
  }

  lemma EscapeLengths(u: Unit)
    ensures |Escape(u)| <= 6
    ensures u in {QUOTE, BACKSLASH, SLASH, 0x08, 0x09, 0x0a, 0x0c, 0x0d} ==> |Escape(u)| <= 2
    ensures u >= 0x20 && u != QUOTE && u != BACKSLASH && !High(u) && !Low(u) ==> |Escape(u)| == 1
  {
  }

  lemma CleanAfterEscape(t: Text, n: nat)
    requires Clean(t) && n <= |t| && forall i | 0 <= i < n :: 0x20 <= t[i] < 0xd800
    ensures Clean(t[n..])
    decreases n
  {
    if n > 0 {
      CleanAfterEscape(t[1..], n - 1);
      assert t[1..][n - 1..] == t[n..];
    } else {
      assert t[0..] == t;
    }
  }

  /** One character read off a string's inside. */
  lemma ReadsOne(t: Text, s: Text)
    requires t != [] && t[0] != QUOTE && ReadString(t + [QUOTE]) == Some((s, []))
    ensures ReadChar(t + [QUOTE]).Some? && s != [] && s[0] == ReadChar(t + [QUOTE]).value.0
    ensures ReadString(ReadChar(t + [QUOTE]).value.1) == Some((s[1..], []))
  {
    assert (t + [QUOTE])[0] == t[0];
    var c := ReadChar(t + [QUOTE]);
    var rest := ReadString(c.value.1);
    assert s == [c.value.0] + rest.value.0;
  }

  lemma QuoteEnds(t: Text)
    requires t != [] && t[0] == QUOTE
    ensures ReadString(t + [QUOTE]) == Some(([], t[1..] + [QUOTE])) && t[1..] + [QUOTE] != []
  {
    assert (t + [QUOTE])[1..] == t[1..] + [QUOTE];
  }

  /** Among all clean ways to spell a string inside its quotes, the canonical one is the shortest. */
  lemma {:induction false} EscapedIsShortest(t: Text, s: Text)
    requires Clean(t) && ReadString(t + [QUOTE]) == Some((s, []))
    ensures |Escaped(s)| <= |t|
    decreases |t|
  {
    if t == [] {
      assert t + [QUOTE] == [QUOTE];
    } else if t[0] == QUOTE {
      QuoteEnds(t);
      assert false;
    } else {
      ReadsOne(t, s);
      assert s == [s[0]] + s[1..];
      if t[0] != BACKSLASH {
        assert (t + [QUOTE])[1..] == t[1..] + [QUOTE];
        if High(t[0]) {
          PairIsShortest(t, s);
        } else {
          EscapedIsShortest(t[1..], s[1..]);
          EscapeIsNoLonger(s[0], s[1..]);
          EscapeLengths(s[0]);
        }
      } else {
        var n := EscapeRead(t);
        CleanAfterEscape(t, n);
        EscapedIsShortest(t[n..], s[1..]);
        EscapeIsNoLonger(s[0], s[1..]);
      }
    }
  }

  lemma {:induction false} PairIsShortest(t: Text, s: Text)
    requires Clean(t) && t != [] && High(t[0]) && ReadString(t + [QUOTE]) == Some((s, []))
    requires s != [] && s[0] == t[0] && ReadString(t[1..] + [QUOTE]) == Some((s[1..], []))
    ensures |Escaped(s)| <= |t|
    decreases |t|, 0
  {
    var t' := t[1..];
    assert t'[0] == t[1];
    ReadsOne(t', s[1..]);
    assert (t' + [QUOTE])[1..] == t[2..] + [QUOTE];
    assert s[1] == t[1] && s[1..][1..] == s[2..];
    EscapedIsShortest(t[2..], s[2..]);
  }

  /** How long an escape is, and that the canonical one is not longer. */
  lemma EscapeRead(t: Text) returns (n: nat)
    requires Clean(t) && t != [] && t[0] == BACKSLASH && ReadChar(t + [QUOTE]).Some? && ReadString(ReadChar(t + [QUOTE]).value.1).Some?
    ensures n <= |t| && ReadChar(t + [QUOTE]).value.1 == t[n..] + [QUOTE] && |Escape(ReadChar(t + [QUOTE]).value.0)| <= n
    ensures forall i | 0 <= i < n :: 0x20 <= t[i] < 0xd800
  {
    var q := t + [QUOTE];
    EscapeLengths(ReadChar(q).value.0);
    if q[1] == 0x75 {
      n := 6;
      LongEscape(t);
    } else {
      n := 2;
      ShortEscape(t);
    }
  }

  lemma LongEscape(t: Text)
    requires t != [] && t[0] == BACKSLASH && (t + [QUOTE])[1] == 0x75 && ReadChar(t + [QUOTE]).Some?
    ensures |t| >= 6 && ReadChar(t + [QUOTE]).value.1 == t[6..] + [QUOTE] && forall i | 0 <= i < 6 :: 0x20 <= t[i] < 0xd800
  {
    var q := t + [QUOTE];
    var digits := q[2..6];
    assert ReadHex(digits).Some?;
    assert forall k | 0 <= k < 4 :: digits[k] == q[k + 2];
    assert HexValue(q[2]).Some? && HexValue(q[3]).Some? && HexValue(q[4]).Some? && HexValue(q[5]).Some?;
    assert q[|t|] == QUOTE;
    hide ReadHex;
    assert q[6..] == t[6..] + [QUOTE];
    assert q[0] == t[0] && q[1] == t[1] && q[2] == t[2] && q[3] == t[3] && q[4] == t[4] && q[5] == t[5];
  }

  lemma ShortEscape(t: Text)
    requires t != [] && t[0] == BACKSLASH && (t + [QUOTE])[1] != 0x75
    requires ReadChar(t + [QUOTE]).Some? && ReadString(ReadChar(t + [QUOTE]).value.1).Some?
    ensures |t| >= 2 && ReadChar(t + [QUOTE]).value.1 == t[2..] + [QUOTE] && 0x20 <= t[1] < 0xd800
    ensures ReadChar(t + [QUOTE]).value.0 in {QUOTE, BACKSLASH, SLASH, 0x08, 0x09, 0x0a, 0x0c, 0x0d}
  {
    var q := t + [QUOTE];
    assert ReadChar(q).value.1 == q[2..] && Long(q[1]).Some?;
    assert ReadString(q[2..]).Some? && q[2..] != [];
    assert q[1] == t[1] && q[2..] == t[2..] + [QUOTE];
  }
}
