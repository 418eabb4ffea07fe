/** A handoff's evidence, four streams paged under one composite cursor. */
module Handoff {
  import opened Wrappers
  import Ordering

  /** A stored row: its time, which tool calls and file edits may lack, and its key. */
  datatype Row = Row(ts: Option<int>, id: int)

  datatype Cursor = Cursor(ts: Option<int>, id: int)

  /** A stream's own order: dated rows by time, undated rows last, ties by key. */
  predicate Before(a: Row, b: Row) {
    if a.ts.None? then b.ts.None? && a.id < b.id
    else b.ts.None? || a.ts.value < b.ts.value || (a.ts == b.ts && a.id < b.id)
  }

  function KeyOf(r: Row): Cursor {
    Cursor(r.ts, r.id)
  }

  /** The rows a page query admits after a cursor, in the cases the query is written in. */
  predicate After(cursor: Option<Cursor>, r: Row) {
    if cursor.None? then true
    else if cursor.value.ts.Some? then
      r.ts.None? || r.ts.value > cursor.value.ts.value || (r.ts.value == cursor.value.ts.value && r.id > cursor.value.id)
    else r.ts.None? && r.id > cursor.value.id
  }

  function Filter(rows: seq<Row>, cursor: Option<Cursor>): seq<Row> {
    if rows == [] then []
    else (if After(cursor, rows[0]) then [rows[0]] else []) + Filter(rows[1..], cursor)
  }

  function Insert(r: Row, s: seq<Row>): seq<Row> {
    if s == [] || Before(r, s[0]) then [r] + s else [s[0]] + Insert(r, s[1..])
  }

  function Sort(rows: seq<Row>): seq<Row> {
    if rows == [] then [] else Insert(rows[0], Sort(rows[1..]))
  }

  /** At most `n` rows. */
  function Limit(rows: seq<Row>, n: nat): seq<Row> {
    if |rows| <= n then rows else rows[..n]
  }

  datatype Page = Page(rows: seq<Row>, next: Option<Cursor>)

  /** One bounded page: a row more than asked for is read, and tells whether more follow. */
  function EvidencePage(rows: seq<Row>, limit: nat, after: Option<Cursor>): Page
    requires limit >= 1
  {
    Truncated(Limit(Sort(Filter(rows, after)), limit + 1), limit)
  }

  function Truncated(found: seq<Row>, limit: nat): Page
    requires limit >= 1
  {
    var page := Limit(found, limit);
    Page(page, if |found| > limit then Some(KeyOf(page[|page| - 1])) else None)
  }

  datatype Composite = Composite(prompt: Option<Cursor>, events: Option<Cursor>, toolCalls: Option<Cursor>, fileEdits: Option<Cursor>)

  datatype Evidence = Evidence(prompts: seq<Row>, events: seq<Row>, toolCalls: seq<Row>, fileEdits: seq<Row>)

  datatype Answer = Answer(evidence: Evidence, next: Option<Composite>)

  datatype InvalidArgument = InvalidArgument

  /** Where a stream stands after a page: its own continuation, else its last row, else where it stood. */
  function Checkpoint(page: Page, before: Option<Cursor>): Option<Cursor> {
    if page.next.Some? then page.next
    else if page.rows != [] then Some(KeyOf(page.rows[|page.rows| - 1]))
    else before
  }

  /** One page of every stream, and the cursor that continues them all while any of them continues. */
  function ResumeHandoff(store: Evidence, limit: Option<int>, cursor: Composite): Result<Answer, InvalidArgument> {
    var n := if limit.Some? then limit.value else 200;
    if !(1 <= n <= 1000) then Err(InvalidArgument)
    else
      var candidates := Sort(Filter(store.prompts, cursor.prompt));
      var prompts := Page(Limit(candidates, n), None);
      var events := EvidencePage(store.events, n, cursor.events);
      var toolCalls := EvidencePage(store.toolCalls, n, cursor.toolCalls);
      var fileEdits := EvidencePage(store.fileEdits, n, cursor.fileEdits);
      var hasMore := |candidates| > |prompts.rows| || events.next.Some? || toolCalls.next.Some? || fileEdits.next.Some?;
      var next := Composite(Checkpoint(prompts, cursor.prompt), Checkpoint(events, cursor.events),
                            Checkpoint(toolCalls, cursor.toolCalls), Checkpoint(fileEdits, cursor.fileEdits));
      Ok(Answer(Evidence(prompts.rows, events.rows, toolCalls.rows, fileEdits.rows), if hasMore then Some(next) else None))
  }

  // ----- order

  /** Rows of one table carry different keys. */
  ghost predicate Keyed(rows: seq<Row>) {
    forall i, j | 0 <= i < j < |rows| :: rows[i].id != rows[j].id
  }

  ghost predicate Ascending(s: seq<Row>) {
    s == [] || ((forall r | r in s[1..] :: Before(s[0], r)) && Ascending(s[1..]))
  }

  lemma {:induction false} InsertElements(r: Row, s: seq<Row>)
    ensures forall x :: x in Insert(r, s) <==> x == r || x in s
  {
    if s != [] && !Before(r, s[0]) {
      InsertElements(r, s[1..]);
      assert s == [s[0]] + s[1..];
    }
  }

  lemma {:induction false} SortElements(rows: seq<Row>)
    ensures forall x :: x in Sort(rows) <==> x in rows
  {
    if rows != [] {
      SortElements(rows[1..]);
      InsertElements(rows[0], Sort(rows[1..]));
      assert rows == [rows[0]] + rows[1..];
    }
  }

  lemma BeforeTotal(a: Row, b: Row)
    ensures a.id != b.id ==> Before(a, b) || Before(b, a)
    ensures forall c :: Before(a, b) && Before(b, c) ==> Before(a, c)
  {
  }

  lemma AscendingCons(r: Row, s: seq<Row>)
    requires Ascending(s) && forall x | x in s :: Before(r, x)
    ensures Ascending([r] + s)
  {
    hide Before;
    assert ([r] + s)[1..] == s;
  }

  lemma {:induction false} InsertAscends(r: Row, s: seq<Row>)
    requires Ascending(s) && forall x | x in s :: x.id != r.id
    ensures Ascending(Insert(r, s))
  {
    hide Before;
    HeadIn(s);
    if s == [] {
      AscendingCons(r, s);
    } else if Before(r, s[0]) {
      BeforeTotal(r, s[0]);
      assert forall x | x in s :: x == s[0] || x in s[1..];
      AscendingCons(r, s);
    } else {
      BeforeTotal(r, s[0]);
      InsertAscends(r, s[1..]);
      InsertElements(r, s[1..]);
      AscendingCons(s[0], Insert(r, s[1..]));
    }
  }

  lemma {:induction false} SortAscends(rows: seq<Row>)
    requires Keyed(rows)
    ensures Ascending(Sort(rows))
  {
    if rows != [] {
      assert Keyed(rows[1..]);
      SortAscends(rows[1..]);
      SortElements(rows[1..]);
      forall x | x in Sort(rows[1..]) ensures x.id != rows[0].id {
        var i :| 0 <= i < |rows[1..]| && rows[1..][i] == x;
        assert rows[i + 1] == x;
      }
      InsertAscends(rows[0], Sort(rows[1..]));
    }
  }

  lemma HeadIn(s: seq<Row>)
    ensures s == [] || s[0] in s
    ensures s != [] && Ascending(s) ==> forall x :: x in s[1..] <==> x in s && x != s[0]
  {
    if s != [] {
      assert s == [s[0]] + s[1..];
    }
  }

  lemma {:induction false} AscendingUnique(s: seq<Row>, t: seq<Row>)
    requires Ascending(s) && Ascending(t) && forall x :: x in s <==> x in t
    ensures s == t
  {
    HeadIn(s);
    HeadIn(t);
    if s != [] {
      AscendingUnique(s[1..], t[1..]);
      assert s == [s[0]] + s[1..] && t == [t[0]] + t[1..];
    }
  }

  lemma {:induction false} FilterElements(rows: seq<Row>, cursor: Option<Cursor>)
    ensures forall x :: x in Filter(rows, cursor) <==> x in rows && After(cursor, x)
  {
    if rows != [] {
      FilterElements(rows[1..], cursor);
      assert rows == [rows[0]] + rows[1..];
    }
  }

  lemma {:induction false} FilterKeyed(rows: seq<Row>, cursor: Option<Cursor>)
    requires Keyed(rows)
    ensures Keyed(Filter(rows, cursor))
  {
    if rows != [] {
      assert Keyed(rows[1..]);
      FilterKeyed(rows[1..], cursor);
      FilterElements(rows[1..], cursor);
      var rest := Filter(rows[1..], cursor);
      forall j | 0 <= j < |rest| ensures rest[j].id != rows[0].id {
        assert rest[j] in rows[1..];
        var i :| 0 <= i < |rows[1..]| && rows[1..][i] == rest[j];
        assert rows[i + 1] == rest[j];
      }
    }
  }

  lemma {:induction false} AscendingTail(s: seq<Row>, n: nat)
    requires Ascending(s) && n <= |s|
    ensures Ascending(s[n..])
    ensures n > 0 ==> forall x :: x in s[n..] <==> x in s && Before(s[n - 1], x)
    decreases n
  {
    if n == 0 {
      assert s[0..] == s;
    } else {
      AscendingTail(s[1..], n - 1);
      assert s[1..][n - 1..] == s[n..];
      HeadIn(s);
      if n > 1 {
        assert s[1..][n - 2] == s[n - 1];
        assert s[n - 1] in s[1..];
      }
    }
  }

  /** Where a stream stands once its first `n` rows are read. */
  function At(ordered: seq<Row>, n: nat): Option<Cursor>
    requires n <= |ordered|
  {
    if n == 0 then None else Some(KeyOf(ordered[n - 1]))
  }

  /** The query's cases spell out the stream's own order. */
  lemma AfterIsBefore(r: Row)
    ensures forall x :: After(Some(KeyOf(r)), x) <==> Before(r, x)
  {
  }

  /** A cursor at the first `n` rows admits exactly the others. */
  lemma ResumesAt(rows: seq<Row>, n: nat)
    requires Keyed(rows) && n <= |Sort(rows)|
    ensures Sort(Filter(rows, At(Sort(rows), n))) == Sort(rows)[n..]
  {
    hide Sort;
    hide Filter;
    hide Keyed;
    var ordered, cursor := Sort(rows), At(Sort(rows), n);
    SortAscends(rows);
    SortElements(rows);
    AscendingTail(ordered, n);
    FilterElements(rows, cursor);
    FilterKeyed(rows, cursor);
    SortAscends(Filter(rows, cursor));
    SortElements(Filter(rows, cursor));
    if n == 0 {
      assert ordered[0..] == ordered;
    } else {
      assert cursor == Some(KeyOf(ordered[n - 1]));
      AfterIsBefore(ordered[n - 1]);
    }
    hide After;
    hide Before;
    hide Ascending;
    AscendingUnique(Sort(Filter(rows, cursor)), ordered[n..]);
  }

  lemma SliceLast(ordered: seq<Row>, n: nat, m: nat)
    requires n <= m <= |ordered|
    ensures |ordered[n..m]| == m - n && (m > n ==> ordered[n..m][m - n - 1] == ordered[m - 1])
  {
  }

  lemma TakeMore(ordered: seq<Row>, n: nat, limit: nat)
    requires n <= |ordered| && limit >= 1
    ensures Limit(ordered[n..], limit) == ordered[n..Ordering.Lesser(n + limit, |ordered|)]
    ensures |ordered[n..]| > |Limit(ordered[n..], limit)| <==> Ordering.Lesser(n + limit, |ordered|) < |ordered|
  {
  }

  /** Reading one row more than a page holds, then cutting it, tells whether more follow. */
  lemma TakePage(ordered: seq<Row>, n: nat, limit: nat)
    requires n <= |ordered| && limit >= 1
    ensures var found, m := Limit(ordered[n..], limit + 1), Ordering.Lesser(n + limit, |ordered|);
            Limit(found, limit) == ordered[n..m] && (|found| > limit <==> m < |ordered|)
  {
    var rest := ordered[n..];
    if |rest| > limit {
      assert Limit(rest, limit + 1)[..limit] == rest[..limit];
    }
    TakeMore(ordered, n, limit);
  }

  lemma TruncatedAt(ordered: seq<Row>, limit: nat, n: nat)
    requires limit >= 1 && n <= |ordered|
    ensures var page, m := Truncated(Limit(ordered[n..], limit + 1), limit), Ordering.Lesser(n + limit, |ordered|);
            page.rows == ordered[n..m] && (page.next.Some? <==> m < |ordered|) && Checkpoint(page, At(ordered, n)) == At(ordered, m)
  {
    var m := Ordering.Lesser(n + limit, |ordered|);
    TakePage(ordered, n, limit);
    hide Limit;
    SliceLast(ordered, n, m);
  }

  /** A page read at the first `n` rows hands over the next ones, says whether more follow, and leaves the stream standing after them. */
  lemma PageAt(rows: seq<Row>, limit: nat, n: nat)
    requires Keyed(rows) && limit >= 1 && n <= |Sort(rows)|
    ensures var ordered, page := Sort(rows), EvidencePage(rows, limit, At(Sort(rows), n));
            var m := Ordering.Lesser(n + limit, |ordered|);
            page.rows == ordered[n..m] && (page.next.Some? <==> m < |ordered|) && Checkpoint(page, At(ordered, n)) == At(ordered, m)
  {
    hide Sort;
    hide Filter;
    hide Keyed;
    hide Limit;
    hide Checkpoint;
    hide At;
    hide Truncated;
    ResumesAt(rows, n);
    TruncatedAt(Sort(rows), limit, n);
  }

  /** The prompts, filtered and sorted whole, page just as the stored streams do. */
  lemma PromptsAt(rows: seq<Row>, limit: nat, n: nat)
    requires Keyed(rows) && limit >= 1 && n <= |Sort(rows)|
    ensures var ordered, candidates := Sort(rows), Sort(Filter(rows, At(Sort(rows), n)));
            var page, m := Page(Limit(candidates, limit), None), Ordering.Lesser(n + limit, |ordered|);
            page.rows == ordered[n..m] && (|candidates| > |page.rows| <==> m < |ordered|) && Checkpoint(page, At(ordered, n)) == At(ordered, m)
  {
    ResumesAt(rows, n);
    hide Sort;
    hide Filter;
    hide Keyed;
    var ordered := Sort(rows);
    var m := Ordering.Lesser(n + limit, |ordered|);
    TakeMore(ordered, n, limit);
    hide Limit;
    SliceLast(ordered, n, m);
  }

  // ----- following the cursor

  ghost predicate AllKeyed(store: Evidence) {
    Keyed(store.prompts) && Keyed(store.events) && Keyed(store.toolCalls) && Keyed(store.fileEdits)
  }

  function InOrder(store: Evidence): Evidence {
    Evidence(Sort(store.prompts), Sort(store.events), Sort(store.toolCalls), Sort(store.fileEdits))
  }

  function Upto(ordered: seq<Row>, reach: nat): nat {
    Ordering.Lesser(reach, |ordered|)
  }

  /** The cursor that stands after the first `reach` rows of every stream. */
  ghost function Marks(store: Evidence, reach: nat): Composite {
    var o := InOrder(store);
    Composite(At(o.prompts, Upto(o.prompts, reach)), At(o.events, Upto(o.events, reach)),
              At(o.toolCalls, Upto(o.toolCalls, reach)), At(o.fileEdits, Upto(o.fileEdits, reach)))
  }

  /** The first `reach` rows of every stream have been handed over, and the cursor stands after them. */
  ghost predicate Standing(store: Evidence, reach: nat, cursor: Composite, got: Evidence) {
    var o := InOrder(store);
    && cursor == Marks(store, reach)
    && got == Evidence(o.prompts[..Upto(o.prompts, reach)], o.events[..Upto(o.events, reach)],
                       o.toolCalls[..Upto(o.toolCalls, reach)], o.fileEdits[..Upto(o.fileEdits, reach)])
  }

  function Longer(got: Evidence, more: Evidence): Evidence {
    Evidence(got.prompts + more.prompts, got.events + more.events, got.toolCalls + more.toolCalls, got.fileEdits + more.fileEdits)
  }

  /** Some stream is longer than `reach`. */
  predicate Beyond(store: Evidence, reach: int) {
    var o := InOrder(store);
    |o.prompts| > reach || |o.events| > reach || |o.toolCalls| > reach || |o.fileEdits| > reach
  }

  /** A stored stream's part in one call. */
  lemma StreamAt(rows: seq<Row>, limit: nat, reach: nat)
    requires Keyed(rows) && limit >= 1
    ensures var o := Sort(rows);
            var page := EvidencePage(rows, limit, At(o, Upto(o, reach)));
            && o[..Upto(o, reach)] + page.rows == o[..Upto(o, reach + limit)] && (page.next.Some? <==> |o| > reach + limit)
            && Checkpoint(page, At(o, Upto(o, reach))) == At(o, Upto(o, reach + limit))
  {
    hide Sort;
    hide EvidencePage;
    hide Checkpoint;
    hide At;
    hide Keyed;
    PageAt(rows, limit, Upto(Sort(rows), reach));
  }

  /** The prompts' part in one call. */
  lemma PromptStreamAt(rows: seq<Row>, limit: nat, reach: nat)
    requires Keyed(rows) && limit >= 1
    ensures var o := Sort(rows);
            var candidates := Sort(Filter(rows, At(o, Upto(o, reach))));
            var page := Page(Limit(candidates, limit), None);
            && o[..Upto(o, reach)] + page.rows == o[..Upto(o, reach + limit)] && (|candidates| > |page.rows| <==> |o| > reach + limit)
            && Checkpoint(page, At(o, Upto(o, reach))) == At(o, Upto(o, reach + limit))
  {
    hide Sort;
    hide Filter;
    hide Limit;
    hide Checkpoint;
    hide At;
    hide Keyed;
    PromptsAt(rows, limit, Upto(Sort(rows), reach));
  }

  /** One call hands over the next rows of every stream, and continues exactly while some stream does. */
  lemma Advances(store: Evidence, limit: nat, reach: nat, cursor: Composite, got: Evidence)
    requires AllKeyed(store) && 1 <= limit <= 1000 && Standing(store, reach, cursor, got)
    ensures var answer := ResumeHandoff(store, Some(limit), cursor);
            && answer.Ok? && (answer.value.next.Some? <==> Beyond(store, reach + limit))
            && (answer.value.next.Some? ==> answer.value.next.value == Marks(store, reach + limit))
            && Standing(store, reach + limit, Marks(store, reach + limit), Longer(got, answer.value.evidence))
  {
    hide Sort;
    hide Filter;
    hide EvidencePage;
    hide Checkpoint;
    hide Limit;
    hide At;
    hide Upto;
    hide Keyed;
    PromptStreamAt(store.prompts, limit, reach);
    StreamAt(store.events, limit, reach);
    StreamAt(store.toolCalls, limit, reach);
    StreamAt(store.fileEdits, limit, reach);
  }

  /**
   Follow the cursor until there is none. Every row of every stream is handed over exactly once, each stream in its own order,
   in as many calls as the longest stream has pages.
   */
  method FollowHandoff(store: Evidence, limit: nat) returns (got: Evidence, calls: nat, ghost reach: nat)
    requires AllKeyed(store) && 1 <= limit <= 1000
    ensures got == InOrder(store)
    ensures calls >= 1 && reach == calls * limit && !Beyond(store, reach) && (calls > 1 ==> Beyond(store, reach - limit))
  {
    hide Sort;
    hide ResumeHandoff;
    hide Marks;
    hide Standing;
    hide AllKeyed;
    hide Beyond;
    StartsAt(store);
    reach := 0;
    got, calls := Evidence([], [], [], []), 0;
    var cursor, more := Composite(None, None, None, None), true;
    while more
      invariant reach == calls * limit && Standing(store, reach, if more then cursor else Marks(store, reach), got)
      invariant (!more ==> calls >= 1) && (calls >= 1 ==> (more <==> Beyond(store, reach)))
      invariant calls > 1 ==> Beyond(store, reach - limit)
      decreases more, Remaining(store, reach)
    {
      Advances(store, limit, reach, cursor, got);
      var answer := ResumeHandoff(store, Some(limit), cursor).value;
      got := Longer(got, answer.evidence);
      RemainingFalls(store, reach, limit);
      OneMore(calls, limit);
      calls, reach := calls + 1, reach + limit;
      if answer.next.Some? {
        cursor := answer.next.value;
      } else {
        more := false;
      }
    }
    Whole(store, reach, got);
  }

  lemma OneMore(calls: nat, limit: nat)
    ensures (calls + 1) * limit == calls * limit + limit
  {
  }

  lemma StartsAt(store: Evidence)
    ensures Standing(store, 0, Composite(None, None, None, None), Evidence([], [], [], []))
  {
    hide Sort;
  }

  ghost function Remaining(store: Evidence, reach: nat): nat {
    var o := InOrder(store);
    var total := |o.prompts| + |o.events| + |o.toolCalls| + |o.fileEdits|;
    if total >= reach then total - reach + 1 else 0
  }

  lemma RemainingFalls(store: Evidence, reach: nat, limit: nat)
    requires limit >= 1
    ensures Beyond(store, reach + limit) ==> Remaining(store, reach + limit) < Remaining(store, reach)
  {
    hide Sort;
  }

  lemma Whole(store: Evidence, reach: nat, got: Evidence)
    requires Standing(store, reach, Marks(store, reach), got) && !Beyond(store, reach)
    ensures got == InOrder(store)
  {
    hide Sort;
  }

  /** By time, rows without one last, and by key where that does not tell. */
  ghost predicate InTurn(a: Row, b: Row) {
    && (a.ts.None? ==> b.ts.None?)
    && (a.ts.Some? && b.ts.Some? ==> a.ts.value <= b.ts.value)
    && (a.ts == b.ts ==> a.id < b.id)
  }

  /** A call takes one to a thousand rows of a stream, two hundred unless told otherwise, and refuses any other number. */
  lemma RowsPerCall(store: Evidence, limit: Option<int>, cursor: Composite)
    ensures ResumeHandoff(store, limit, cursor).Err? <==> limit.Some? && !(1 <= limit.value <= 1000)
    ensures ResumeHandoff(store, None, cursor) == ResumeHandoff(store, Some(200), cursor)
  {
    hide Sort; hide Filter; hide EvidencePage; hide Limit; hide Checkpoint;
  }

  /** A stream in its own order is the stream: the same rows, each once, none before its turn. */
  lemma InOrderIsTheStream(rows: seq<Row>)
    requires Keyed(rows)
    ensures |Sort(rows)| == |rows| && (forall r :: r in Sort(rows) <==> r in rows) && multiset(Sort(rows)) == multiset(rows)
    ensures forall i, j | 0 <= i < j < |rows| :: InTurn(Sort(rows)[i], Sort(rows)[j])
  {
    SortElements(rows);
    SortAscends(rows);
    SortMultiset(rows);
    forall i, j | 0 <= i < j < |rows| ensures InTurn(Sort(rows)[i], Sort(rows)[j]) {
      EarlierBefore(Sort(rows), i, j);
    }
  }

  lemma EarlierBefore(s: seq<Row>, i: nat, j: nat)
    requires Ascending(s) && i < j < |s|
    ensures Before(s[i], s[j])
  {
    hide Before;
    AscendingTail(s, i + 1);
    assert s[i + 1..][j - i - 1] == s[j] && s[j] in s[i + 1..];
  }

  lemma {:induction false} SortMultiset(rows: seq<Row>)
    ensures multiset(Sort(rows)) == multiset(rows) && |Sort(rows)| == |rows|
  {
    if rows != [] {
      SortMultiset(rows[1..]);
      InsertMultiset(rows[0], Sort(rows[1..]));
      assert rows == [rows[0]] + rows[1..];
    }
  }

  lemma {:induction false} InsertMultiset(r: Row, s: seq<Row>)
    ensures multiset(Insert(r, s)) == multiset(s) + multiset{r} && |Insert(r, s)| == |s| + 1
  {
    if s != [] && !Before(r, s[0]) {
      InsertMultiset(r, s[1..]);
      assert s == [s[0]] + s[1..];
    }
  }

  /** Without a checkpoint for every stream, a shorter one would start over: the composite cursor is what prevents it. */
  lemma ShorterStreamWouldRestart(rows: seq<Row>, limit: nat)
    requires Keyed(rows) && limit >= 1 && rows != []
    ensures EvidencePage(rows, limit, None).rows == Sort(rows)[..Upto(Sort(rows), limit)] != []
    ensures EvidencePage(rows, limit, At(Sort(rows), |Sort(rows)|)).rows == []
  {
    hide Sort;
    hide EvidencePage;
    hide Checkpoint;
    hide Keyed;
    SortMultiset(rows);
    PageAt(rows, limit, 0);
    PageAt(rows, limit, |Sort(rows)|);
  }
}
