/**
 The drain `changes_since` hands back: a two-pass page read and the cursor over it. The key pass reads
 revisions only, `batch` a stream, and cuts at the batch-th smallest; the row pass reads `(lo, cut]`.
 Each fill may see a later state of the store than the one before it.
 */
module FeedDrain {
  import opened Wrappers
  import opened Ordering
  import opened FeedStore

  const MAX_CHANGE_BATCH: nat := 10_000
  const DEFAULT_CHANGE_BATCH: nat := 1_000

  ghost predicate Distinct<T>(s: seq<T>) {
    forall i, j :: 0 <= i < j < |s| ==> s[i] != s[j]
  }

  // ----- the streams of one page

  function StreamsOf(kinds: seq<Kind>, session: Option<SessionId>, form: Form): (r: seq<Filter>)
    ensures |r| == |kinds| && forall i | 0 <= i < |kinds| :: r[i] == Filter({kinds[i]}, session, form)
  {
    seq(|kinds|, i requires 0 <= i < |kinds| => Filter({kinds[i]}, session, form))
  }

  /** Every kind's rows, then every kind's tombstones. */
  function Streams(kinds: seq<Kind>, session: Option<SessionId>): seq<Filter> {
    StreamsOf(kinds, session, Upserts) + StreamsOf(kinds, session, Tombstones)
  }

  function Whole(kinds: seq<Kind>, session: Option<SessionId>): Filter {
    Filter(ToSet(kinds), session, AnyForm)
  }

  /** The streams split what a page owes: each change is in exactly one. */
  lemma StreamsSplit(db: Db, kinds: seq<Kind>, session: Option<SessionId>, lo: nat, hi: nat, r: nat)
    requires Distinct(kinds)
    ensures var ss := Streams(kinds, session);
            && (Due(db, Whole(kinds, session), lo, hi, r) <==> exists i :: 0 <= i < |ss| && Due(db, ss[i], lo, hi, r))
            && (forall i, j | 0 <= i < j < |ss| :: !(Due(db, ss[i], lo, hi, r) && Due(db, ss[j], lo, hi, r)))
  {
    var ss := Streams(kinds, session);
    if Due(db, Whole(kinds, session), lo, hi, r) {
      var c := db.log[r];
      var n :| 0 <= n < |kinds| && kinds[n] == c.key.kind;
      assert Due(db, ss[if c.op.Upsert? then n else |kinds| + n], lo, hi, r);
    }
  }

  // ----- the key pass

  /** `SELECT revision ... ORDER BY revision ASC LIMIT n`. */
  function KeyPage(db: Db, f: Filter, lo: nat, hi: nat, n: nat): seq<nat> {
    Take(SortSet(DueSet(db, f, lo, hi)), n)
  }

  function Below(s: set<nat>, r: nat): set<nat> {
    set x | x in s && x < r
  }

  /** What a stream left out of `got` has `n` smaller revisions already in it. */
  ghost predicate Collected(part: set<nat>, got: set<nat>, n: nat) {
    && got <= part
    && forall r | r in part :: r in got || |Below(got, r)| >= n
  }

  lemma TakenOrCrowded(sorted: seq<nat>, n: nat, r: nat)
    requires Ascending(sorted) && r in sorted
    ensures r in Take(sorted, n) || |Below(ToSet(Take(sorted, n)), r)| >= n
  {
    var page := Take(sorted, n);
    var i :| 0 <= i < |sorted| && sorted[i] == r;
    if i < n {
      assert page[i] == r;
    } else {
      assert Below(ToSet(page), r) == ToSet(page);
      AscendingSize(page);
    }
  }

  lemma CollectStream(part: set<nat>, got: set<nat>, stream: set<nat>, sorted: seq<nat>, n: nat)
    requires Collected(part, got, n)
    requires Ascending(sorted) && ToSet(sorted) == stream
    ensures Collected(part + stream, got + ToSet(Take(sorted, n)), n)
  {
    var taken := ToSet(Take(sorted, n));
    forall r | r in part + stream ensures r in got + taken || |Below(got + taken, r)| >= n {
      SubsetSize(Below(got, r), Below(got + taken, r));
      SubsetSize(Below(taken, r), Below(got + taken, r));
      if r in stream { TakenOrCrowded(sorted, n, r); }
    }
    assert forall r | r in taken :: r in ToSet(sorted);
  }

  /** Nothing at or below the `n`-th smallest collected revision was left out. */
  lemma NothingMissed(all: set<nat>, got: set<nat>, sorted: seq<nat>, n: nat)
    requires 0 < n <= |sorted| && Collected(all, got, n)
    requires Ascending(sorted) && ToSet(sorted) == got
    ensures UpTo(all, sorted[n - 1]) == UpTo(got, sorted[n - 1])
  {
    var c := sorted[n - 1];
    PrefixSize(sorted, n - 1);
    forall r | r in UpTo(all, c) ensures r in got {
      if r !in got {
        assert c in ToSet(sorted);
        SubsetSize(Below(got, r), UpTo(got, c) - {c});
      }
    }
  }

  /** The `n`-th smallest collected revision is the `n`-th smallest of all. */
  lemma CutIsExact(all: set<nat>, due: seq<nat>, got: set<nat>, sorted: seq<nat>, n: nat)
    requires 0 < n && Collected(all, got, n)
    requires Ascending(due) && ToSet(due) == all
    requires Ascending(sorted) && ToSet(sorted) == got
    ensures |sorted| < n ==> sorted == due
    ensures |sorted| >= n ==> |due| >= n && due[n - 1] == sorted[n - 1]
  {
    AscendingSize(sorted);
    if |sorted| < n {
      forall r | r in all ensures r in got { SubsetSize(Below(got, r), got); }
      AscendingUnique(sorted, due);
    } else {
      var c := sorted[n - 1];
      NothingMissed(all, got, sorted, n);
      PrefixSize(sorted, n - 1);
      assert c in ToSet(sorted) && c in ToSet(due);
      var j :| 0 <= j < |due| && due[j] == c;
      PrefixSize(due, j);
    }
  }

  /** How far one page reaches: the batch-th revision owed, the bound when fewer are, `None` when none is. */
  function CutOf(db: Db, f: Filter, lo: nat, hi: nat, batch: nat): Option<nat>
    requires 0 < batch
  {
    var due := DueOrder(db, f, lo, hi);
    if due == [] then None else if |due| < batch then Some(hi) else Some(due[batch - 1])
  }

  /** What each stream still owes. */
  ghost function Dues(db: Db, kinds: seq<Kind>, session: Option<SessionId>, lo: nat, hi: nat): seq<set<nat>> {
    var ss := Streams(kinds, session);
    seq(|ss|, i requires 0 <= i < |ss| => DueSet(db, ss[i], lo, hi))
  }

  ghost predicate PairwiseDisjoint(dues: seq<set<nat>>) {
    forall i, j :: 0 <= i < j < |dues| ==> dues[i] !! dues[j]
  }

  /** After `i` streams: `part` is what they owe, and `got` all of it down to the crowded ones. */
  ghost predicate KeysRead(dues: seq<set<nat>>, i: nat, part: set<nat>, got: set<nat>, batch: nat) {
    && i <= |dues|
    && Collected(part, got, batch)
    && (forall j | 0 <= j < i :: dues[j] <= part)
    && (forall j | i <= j < |dues| :: dues[j] !! part)
  }

  lemma ReadKeys(dues: seq<set<nat>>, i: nat, part: set<nat>, got: set<nat>, batch: nat, sorted: seq<nat>)
    requires i < |dues| && PairwiseDisjoint(dues) && KeysRead(dues, i, part, got, batch)
    requires Ascending(sorted) && ToSet(sorted) == dues[i]
    ensures var page := Take(sorted, batch);
            && KeysRead(dues, i + 1, part + dues[i], got + ToSet(page), batch)
            && |got + ToSet(page)| == |got| + |page|
  {
    var page := Take(sorted, batch);
    CollectStream(part, got, dues[i], sorted, batch);
    AscendingSize(page);
    forall r | r in page ensures r !in got {
      assert r in ToSet(sorted);
    }
    assert |got + ToSet(page)| == |got| + |ToSet(page)|;
  }

  method PageCut(db: Db, kinds: seq<Kind>, session: Option<SessionId>, lo: nat, hi: nat, batch: nat)
    returns (cut: Option<nat>)
    requires Distinct(kinds) && 0 < batch
    ensures cut == CutOf(db, Whole(kinds, session), lo, hi, batch)
  {
    var streams := Streams(kinds, session);
    ghost var dues := Dues(db, kinds, session, lo, hi);
    DuesSplit(db, kinds, session, lo, hi);
    var revisions: seq<nat> := [];
    ghost var part: set<nat>, got: set<nat> := {}, {};
    for i := 0 to |streams|
      invariant KeysRead(dues, i, part, got, batch)
      invariant part <= DueSet(db, Whole(kinds, session), lo, hi)
      invariant got == ToSet(revisions) && |revisions| == |got|
    {
      ghost var sorted := SortSet(dues[i]);
      var page := KeyPage(db, streams[i], lo, hi, batch);
      ReadKeys(dues, i, part, got, batch, sorted);
      ToSetConcat(revisions, page);
      part, got := part + dues[i], got + ToSet(page);
      revisions := revisions + page;
    }
    KeyPassIsExact(db, kinds, session, lo, hi, batch, part, got);
    cut := CutAmong(revisions, hi, batch);
  }

  /** The cut the collected revisions give. No revision occurs twice among them, so sorting the list lists its set. */
  function CutAmong(revisions: seq<nat>, hi: nat, batch: nat): Option<nat>
    requires 0 < batch
  {
    if revisions == [] then None else
      var sorted := SortSet(ToSet(revisions));
      var last := if batch - 1 < |sorted| then sorted[batch - 1] else hi;
      Some(if last < hi then last else hi)
  }

  lemma DuesSplit(db: Db, kinds: seq<Kind>, session: Option<SessionId>, lo: nat, hi: nat)
    requires Distinct(kinds)
    ensures PairwiseDisjoint(Dues(db, kinds, session, lo, hi))
    ensures forall i | 0 <= i < |Dues(db, kinds, session, lo, hi)| ::
              Dues(db, kinds, session, lo, hi)[i] <= DueSet(db, Whole(kinds, session), lo, hi)
  {
    var dues := Dues(db, kinds, session, lo, hi);
    forall i, j | 0 <= i < j < |dues| ensures dues[i] !! dues[j] {
      forall r | r in dues[i] ensures r !in dues[j] {
        StreamsSplit(db, kinds, session, lo, hi, r);
      }
    }
    forall i | 0 <= i < |dues| ensures dues[i] <= DueSet(db, Whole(kinds, session), lo, hi) {
      forall r | r in dues[i] ensures Due(db, Whole(kinds, session), lo, hi, r) {
        StreamsSplit(db, kinds, session, lo, hi, r);
      }
    }
  }

  lemma KeyPassIsExact(db: Db, kinds: seq<Kind>, session: Option<SessionId>, lo: nat, hi: nat, batch: nat,
                       part: set<nat>, got: set<nat>)
    requires Distinct(kinds) && 0 < batch
    requires part <= DueSet(db, Whole(kinds, session), lo, hi)
    requires KeysRead(Dues(db, kinds, session, lo, hi), |Streams(kinds, session)|, part, got, batch)
    ensures CutOf(db, Whole(kinds, session), lo, hi, batch) ==
            if got == {} then None else if |got| < batch then Some(hi) else Some(SortSet(got)[batch - 1])
    ensures |got| >= batch ==> SortSet(got)[batch - 1] <= hi
  {
    var all := DueSet(db, Whole(kinds, session), lo, hi);
    forall r | r in all ensures r in part {
      StreamsSplit(db, kinds, session, lo, hi, r);
      var i :| 0 <= i < |Streams(kinds, session)| && Due(db, Streams(kinds, session)[i], lo, hi, r);
      assert r in Dues(db, kinds, session, lo, hi)[i];
    }
    assert part == all;
    CutIsExact(all, SortSet(all), got, SortSet(got), batch);
    if |got| >= batch {
      assert SortSet(got)[batch - 1] in ToSet(SortSet(got));
    }
  }

  // ----- the row pass

  /** `SELECT <row> ... ORDER BY revision ASC LIMIT n`. */
  function RowPage(db: Db, f: Filter, lo: nat, hi: nat, n: nat): seq<Change> {
    Take(Pending(db, f, lo, hi), n)
  }

  ghost predicate NoRevisionTwice(s: seq<Change>) {
    forall i, j :: 0 <= i < j < |s| ==> s[i].revision != s[j].revision
  }

  function Insert(c: Change, s: seq<Change>): (r: seq<Change>)
    requires Ordered(s) && forall d | d in s :: d.revision != c.revision
    ensures Ordered(r) && |r| == |s| + 1
    ensures forall d: Change :: d in r <==> d == c || d in s
    decreases |s|
  {
    if s == [] || c.revision < s[0].revision then [c] + s
    else
      assert s == [s[0]] + s[1..];
      var rest := Insert(c, s[1..]);
      assert forall d | d in rest :: s[0].revision < d.revision;
      [s[0]] + rest
  }

  /** `sort_by` over `(revision, kind, record_key)`; revisions are unique, so the later parts never decide. */
  function SortRows(s: seq<Change>): (r: seq<Change>)
    requires NoRevisionTwice(s)
    ensures Ordered(r) && |r| == |s|
    ensures forall c: Change :: c in r <==> c in s
    decreases |s|
  {
    if s == [] then [] else
      var last := |s| - 1;
      var init := SortRows(s[..last]);
      assert s == s[..last] + [s[last]];
      Insert(s[last], init)
  }

  lemma FirstOf(s: seq<Change>)
    requires s != []
    ensures exists c: Change :: c in s
  {
    assert s[0] in s;
  }

  /** Ordered changes are determined by which changes they are. */
  lemma {:induction false} OrderedUnique(a: seq<Change>, b: seq<Change>)
    requires Ordered(a) && Ordered(b)
    requires forall c: Change :: c in a <==> c in b
    ensures a == b
    decreases |a|
  {
    if a != [] && b != [] {
      var p, x := a[..|a| - 1], a[|a| - 1];
      var q, y := b[..|b| - 1], b[|b| - 1];
      assert a == p + [x] && b == q + [y];
      assert x in b && y in a;
      assert x == y;
      forall c: Change ensures c in p <==> c in q {
        assert c in p <==> c in a && c != x;
        assert c in q <==> c in b && c != y;
      }
      OrderedUnique(p, q);
    } else {
      if a != [] { FirstOf(a); }
      if b != [] { FirstOf(b); }
    }
  }

  /** A prefix of what is pending is everything pending up to its last revision. */
  lemma PendingPrefix(db: Db, f: Filter, lo: nat, hi: nat, n: nat)
    requires Wf(db) && 0 < n <= |Pending(db, f, lo, hi)|
    ensures Pending(db, f, lo, Pending(db, f, lo, hi)[n - 1].revision) == Pending(db, f, lo, hi)[..n]
  {
    var cut := Pending(db, f, lo, hi)[n - 1].revision;
    PendingMeaning(db, f, lo, hi);
    PendingMeaning(db, f, lo, cut);
    CutPrefix(db, f, lo, hi, Pending(db, f, lo, hi), n, Pending(db, f, lo, cut));
  }

  lemma CutPrefix(db: Db, f: Filter, lo: nat, hi: nat, p: seq<Change>, n: nat, q: seq<Change>)
    requires 0 < n <= |p| && Owes(db, f, lo, hi, p) && Owes(db, f, lo, p[n - 1].revision, q)
    ensures q == p[..n]
  {
    assert p[n - 1] in p;
    forall c: Change ensures c in q <==> c in p[..n] {
      if c in q {
        assert c in p;
        var i :| 0 <= i < |p| && p[i] == c;
        assert i < n;
        assert p[..n][i] == c;
      }
      if c in p[..n] {
        assert c in p;
      }
    }
    OrderedUnique(q, p[..n]);
  }

  /** What the row pass holds after `i` streams: exactly their due rows. */
  ghost predicate RowsRead(db: Db, dues: seq<set<nat>>, i: nat, rows: seq<Change>) {
    && i <= |dues|
    && NoRevisionTwice(rows)
    && forall c: Change :: c in rows <==> Reports(db, c) && exists j :: 0 <= j < i && c.revision in dues[j]
  }

  lemma ReadStream(db: Db, dues: seq<set<nat>>, i: nat, rows: seq<Change>, page: seq<Change>)
    requires i < |dues| && PairwiseDisjoint(dues) && RowsRead(db, dues, i, rows)
    requires Ordered(page) && forall c: Change :: c in page <==> Reports(db, c) && c.revision in dues[i]
    ensures RowsRead(db, dues, i + 1, rows + page)
  {
    forall m, n | 0 <= m < |rows| && 0 <= n < |page| ensures rows[m].revision != page[n].revision {
      assert rows[m] in rows && page[n] in page;
    }
    forall c: Change ensures c in rows + page <==> Reports(db, c) && exists j :: 0 <= j < i + 1 && c.revision in dues[j] {
      assert c in rows + page <==> c in rows || c in page;
    }
  }

  method ReadRows(db: Db, kinds: seq<Kind>, session: Option<SessionId>, lo: nat, cut: nat, batch: nat)
    returns (rows: seq<Change>)
    requires Wf(db) && Distinct(kinds)
    requires |DueSet(db, Whole(kinds, session), lo, cut)| <= batch
    ensures rows == Pending(db, Whole(kinds, session), lo, cut)
  {
    var streams := Streams(kinds, session);
    ghost var dues := Dues(db, kinds, session, lo, cut);
    DuesSplit(db, kinds, session, lo, cut);
    rows := [];
    for i := 0 to |streams|
      invariant RowsRead(db, dues, i, rows)
    {
      SubsetSize(dues[i], DueSet(db, Whole(kinds, session), lo, cut));
      PendingMeaning(db, streams[i], lo, cut);
      var page := RowPage(db, streams[i], lo, cut, batch);
      ReadStream(db, dues, i, rows, page);
      rows := rows + page;
    }
    RowPassIsExact(db, kinds, session, lo, cut, rows);
    rows := Take(SortRows(rows), batch);
  }

  lemma RowPassIsExact(db: Db, kinds: seq<Kind>, session: Option<SessionId>, lo: nat, cut: nat, rows: seq<Change>)
    requires Wf(db) && Distinct(kinds)
    requires RowsRead(db, Dues(db, kinds, session, lo, cut), |Streams(kinds, session)|, rows)
    ensures SortRows(rows) == Pending(db, Whole(kinds, session), lo, cut)
  {
    var whole := Whole(kinds, session);
    PendingMeaning(db, whole, lo, cut);
    forall c: Change ensures c in SortRows(rows) <==> c in Pending(db, whole, lo, cut) {
      StreamsSplit(db, kinds, session, lo, cut, c.revision);
      assert forall i | 0 <= i < |Streams(kinds, session)| ::
        c.revision in Dues(db, kinds, session, lo, cut)[i] <==> Due(db, Streams(kinds, session)[i], lo, cut, c.revision);
    }
    OrderedUnique(SortRows(rows), Pending(db, whole, lo, cut));
  }
}
