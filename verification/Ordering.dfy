/** Finite sets of naturals read in ascending order, and how many of a set lie at or below a bound. */
module Ordering {

  ghost predicate Ascending(s: seq<nat>) {
    forall i, j :: 0 <= i < j < |s| ==> s[i] < s[j]
  }

  function ToSet<T(!new)>(s: seq<T>): (r: set<T>)
    ensures forall x {:trigger x in r} {:trigger x in s} :: x in r <==> x in s
  {
    set x | x in s
  }

  lemma ToSetConcat<T(!new)>(a: seq<T>, b: seq<T>)
    ensures ToSet(a + b) == ToSet(a) + ToSet(b)
  {
    forall x ensures x in ToSet(a + b) <==> x in ToSet(a) + ToSet(b) {
      assert x in a + b <==> x in a || x in b;
    }
  }

  function Take<T>(s: seq<T>, n: nat): (r: seq<T>)
    ensures r <= s && |r| == if |s| < n then |s| else n
  {
    if |s| <= n then s else s[..n]
  }

  ghost predicate IsLeast(m: nat, s: set<nat>) {
    m in s && forall x | x in s :: m <= x
  }

  function Least(s: set<nat>): (m: nat)
    requires s != {}
    ensures IsLeast(m, s)
  {
    LeastExists(s);
    var m :| m in s && forall x | x in s :: m <= x;
    m
  }

  lemma {:induction false} LeastExists(s: set<nat>)
    requires s != {}
    ensures exists m :: IsLeast(m, s)
  {
    var y :| y in s;
    var others := s - {y};
    assert forall x | x in s :: x == y || x in others;
    if others == {} {
      assert IsLeast(y, s);
    } else {
      LeastExists(others);
      var m :| IsLeast(m, others);
      assert IsLeast(if m <= y then m else y, s);
    }
  }

  /** The elements of `s` in ascending order: what `ORDER BY revision ASC` returns. */
  function SortSet(s: set<nat>): (r: seq<nat>)
    ensures Ascending(r) && ToSet(r) == s && |r| == |s|
    decreases |s|
  {
    if s == {} then [] else
      var m := Least(s);
      var rest := SortSet(s - {m});
      AscendingCons(m, rest, s);
      [m] + rest
  }

  lemma AscendingCons(m: nat, rest: seq<nat>, s: set<nat>)
    requires IsLeast(m, s) && Ascending(rest) && ToSet(rest) == s - {m}
    ensures Ascending([m] + rest) && ToSet([m] + rest) == s
  {
    var r := [m] + rest;
    forall i | 1 <= i < |r| ensures m < r[i] {
      assert r[i] in ToSet(rest);
    }
    forall i, j | 0 <= i < j < |r| ensures r[i] < r[j] {
      if i > 0 { assert r[i] == rest[i - 1] && r[j] == rest[j - 1]; }
    }
    forall x | x in s ensures x in r {
      if x != m { assert x in ToSet(rest); }
    }
    forall x | x in r ensures x in s {
      if x != m { assert x in ToSet(rest); }
    }
  }

  /** The elements of `s` at or below `c`. */
  function UpTo(s: set<nat>, c: nat): set<nat> {
    set x | x in s && x <= c
  }

  function Lesser(a: nat, b: nat): nat {
    if a <= b then a else b
  }

  lemma SubsetSize<T>(a: set<T>, b: set<T>)
    requires a <= b
    ensures |a| <= |b|
  {
    assert |b| == |a + (b - a)| == |a| + |b - a| by { assert b == a + (b - a); }
  }

  lemma {:induction false} AscendingSize(s: seq<nat>)
    requires Ascending(s)
    ensures |ToSet(s)| == |s|
    decreases |s|
  {
    if s == [] {
      assert ToSet(s) == {};
    } else {
      var init, last := s[..|s| - 1], s[|s| - 1];
      AscendingSize(init);
      assert s == init + [last];
      assert ToSet(s) == ToSet(init) + {last};
      assert last !in ToSet(init);
    }
  }

  /** An ascending list is determined by its elements. */
  lemma {:induction false} AscendingUnique(a: seq<nat>, b: seq<nat>)
    requires Ascending(a) && Ascending(b) && ToSet(a) == ToSet(b)
    ensures a == b
    decreases |a|
  {
    AscendingSize(a);
    AscendingSize(b);
    if a != [] {
      var x, p := AscendingLast(a);
      var y, q := AscendingLast(b);
      assert x in ToSet(b) && y in ToSet(a);
      assert x == y;
      AscendingUnique(p, q);
    }
  }

  /** The last element of an ascending list is its greatest, and occurs once. */
  lemma AscendingLast(a: seq<nat>) returns (last: nat, init: seq<nat>)
    requires Ascending(a) && a != []
    ensures a == init + [last] && Ascending(init)
    ensures ToSet(init) == ToSet(a) - {last}
    ensures last in ToSet(a) && forall x | x in ToSet(a) :: x <= last
  {
    last, init := a[|a| - 1], a[..|a| - 1];
    assert a == init + [last];
    assert forall x | x in init :: x < last;
  }

  /** A prefix of an ascending list holds exactly the elements up to its last one. */
  lemma PrefixElements(r: seq<nat>, j: nat)
    requires Ascending(r) && j < |r|
    ensures Ascending(r[..j + 1])
    ensures ToSet(r[..j + 1]) == UpTo(ToSet(r), r[j])
  {
    var p := r[..j + 1];
    forall x | x in UpTo(ToSet(r), r[j]) ensures x in p {
      var i :| 0 <= i < |r| && r[i] == x;
      assert i <= j;
      assert p[i] == x;
    }
  }

  lemma PrefixSize(r: seq<nat>, j: nat)
    requires Ascending(r) && j < |r|
    ensures |UpTo(ToSet(r), r[j])| == j + 1
  {
    PrefixElements(r, j);
    AscendingSize(r[..j + 1]);
  }
}
