/**
 A consumer that folds the feed into a replica, while other connections write between any two reads and
 the consumer may stop at any change.
 */
module FeedMirror {
  import opened Wrappers
  import opened Ordering
  import opened FeedStore
  import opened FeedDrain
  import opened ChangeFeed

  type Rows = map<RecordKey, seq<string>>

  function Fold(rows: Rows, c: Change): Rows {
    match c.op
    case Upsert(columns) => rows[c.key := columns]
    case Delete => rows - {c.key}
  }

  ghost predicate Agrees(rows: Rows, c: Change) {
    match c.op
    case Upsert(columns) => c.key in rows && rows[c.key] == columns
    case Delete => c.key !in rows
  }

  /** The replica holds every selected record whose last write is at or below `upTo`. */
  ghost predicate Synced(db: Db, f: Filter, rows: Rows, upTo: nat) {
    forall r | r in db.log && r <= upTo && Selects(f, db.log[r]) :: Agrees(rows, db.log[r])
  }

  /** The record was written again, above `head`. */
  ghost predicate Superseded(db: Db, k: RecordKey, head: nat) {
    forall r | r in db.log && db.log[r].key == k :: r > head
  }

  /** As `Synced`, but for the changes still to be applied; each of those is current or was written again above `head`. */
  ghost predicate Applying(db: Db, f: Filter, rows: Rows, upTo: nat, head: nat, left: seq<Change>) {
    && upTo <= head
    && (forall r | r in db.log && r <= upTo && Selects(f, db.log[r]) :: Agrees(rows, db.log[r]) || db.log[r] in left)
    && (forall c | c in left :: Reports(db, c) || Superseded(db, c.key, head))
  }

  /** A record the filter can report: of its kinds, and of its session as far as the identity tells. */
  ghost predicate Within(f: Filter, k: RecordKey) {
    && k.kind in f.kinds
    && (f.session.Some? ==> k.source == f.session.value.source && (k.kind.History? || k.owner == f.session.value.session))
  }

  /** The replica holds only records that the filter can report and the store knows. */
  ghost predicate Known(db: Db, f: Filter, rows: Rows) {
    forall k | k in rows :: Within(f, k) && HoldsKey(db, k)
  }

  lemma ApplyNext(db: Db, f: Filter, rows: Rows, upTo: nat, head: nat, left: seq<Change>)
    requires Wf(db) && left != [] && Applying(db, f, rows, upTo, head, left)
    ensures Applying(db, f, Fold(rows, left[0]), upTo, head, left[1..])
  {
    var c := left[0];
    assert left == [c] + left[1..];
    forall r | r in db.log && r <= upTo && Selects(f, db.log[r])
      ensures Agrees(Fold(rows, c), db.log[r]) || db.log[r] in left[1..]
    {
      if db.log[r].key == c.key {
        assert c in left;
        assert db.log[r] == c;
      }
    }
  }

  lemma ApplyingLater(a: Db, b: Db, f: Filter, rows: Rows, upTo: nat, head: nat, left: seq<Change>)
    requires Wf(a) && Wf(b) && Evolves(a, b) && head <= a.clock && Applying(a, f, rows, upTo, head, left)
    ensures Applying(b, f, rows, upTo, head, left)
  {
  }

  lemma SyncedLater(a: Db, b: Db, f: Filter, rows: Rows, upTo: nat)
    requires Evolves(a, b) && upTo <= a.clock && Synced(a, f, rows, upTo)
    ensures Synced(b, f, rows, upTo)
  {
  }

  lemma KnownLater(a: Db, b: Db, f: Filter, rows: Rows)
    requires Evolves(a, b) && Known(a, f, rows)
    ensures Known(b, f, rows)
  {
  }

  /** The first changes owed are what a replica synced to `start` still lacks, up to the last of them. */
  lemma FirstToApply(db: Db, f: Filter, start: nat, head: nat, rows: Rows, owed: seq<Change>, changes: seq<Change>, last: nat)
    requires Wf(db) && start <= last <= head && Synced(db, f, rows, start) && Owes(db, f, start, head, owed)
    requires forall c | c in owed && c.revision <= last :: c in changes
    requires forall c | c in changes :: c in owed
    ensures Applying(db, f, rows, last, head, changes)
  {
    forall r | r in db.log && r <= last && Selects(f, db.log[r]) ensures Agrees(rows, db.log[r]) || db.log[r] in changes {
      if r > start {
        assert db.log[r] in owed;
      }
    }
  }

  /** With nothing left past the last change, applying them reaches the head. */
  lemma ReachesHead(db: Db, f: Filter, rows: Rows, last: nat, head: nat, changes: seq<Change>, left: seq<Change>)
    requires Wf(db) && Applying(db, f, rows, last, head, changes) && Owes(db, f, last, head, left) && left == []
    ensures Applying(db, f, rows, head, head, changes)
  {
    assert forall r | r in db.log && Due(db, f, last, head, r) :: db.log[r] in left;
  }

  /** A page read at `first` and settled at `later` is what a replica synced to its start still lacks, up to its end. */
  lemma PageToApply(first: Db, later: Db, o: Opened, limit: nat, rows: Rows, owed: seq<Change>, page: Page)
    requires Wf(first) && Wf(later) && Evolves(first, later) && 1 <= limit
    requires o.start.revision <= o.head.revision <= first.clock
    requires Synced(first, Whole(o.kinds, o.session), rows, o.start.revision)
    requires owed == Pending(first, Whole(o.kinds, o.session), o.start.revision, o.head.revision)
    requires page == PageOf(later, o, Take(owed, limit))
    ensures Applying(later, Whole(o.kinds, o.session), rows, page.position.revision, o.head.revision, page.changes)
    ensures !page.done ==> page.changes != []
  {
    var f := Whole(o.kinds, o.session);
    var changes := Take(owed, limit);
    var last := LastOf(o.start, changes).revision;
    PendingMeaning(first, f, o.start.revision, o.head.revision);
    LastInRange(first, f, o.start, o.head.revision, owed, limit);
    FirstAreOldest(owed, limit);
    if changes == [] {
      NothingAfterLast(first, later, f, o.start.revision, o.head.revision, owed, last);
    }
    FirstToApply(first, f, o.start.revision, o.head.revision, rows, owed, changes, last);
    ApplyingLater(first, later, f, rows, last, o.head.revision, changes);
    if page.done {
      PendingMeaning(later, f, last, o.head.revision);
      ReachesHead(later, f, rows, last, o.head.revision, changes, []);
    }
  }

  lemma PageRange(first: Db, o: Opened, limit: nat, owed: seq<Change>)
    requires Wf(first) && 1 <= limit && o.start.revision <= o.head.revision
    requires owed == Pending(first, Whole(o.kinds, o.session), o.start.revision, o.head.revision)
    ensures TakenRange(first, o, Take(owed, limit))
  {
    PendingMeaning(first, Whole(o.kinds, o.session), o.start.revision, o.head.revision);
    OwedRange(first, Whole(o.kinds, o.session), o, limit, owed);
  }

  /** The changes of a page: in order, after its start and up to its last, of the kinds asked for. */
  ghost predicate TakenRange(db: Db, o: Opened, changes: seq<Change>) {
    var last := LastOf(o.start, changes).revision;
    && Ordered(changes) && o.start.revision <= last <= o.head.revision
    && (forall c | c in changes :: o.start.revision < c.revision <= last && Within(Whole(o.kinds, o.session), c.key) && HoldsKey(db, c.key))
  }

  lemma OwedRange(db: Db, f: Filter, o: Opened, limit: nat, owed: seq<Change>)
    requires Wf(db) && 1 <= limit && o.start.revision <= o.head.revision && f == Whole(o.kinds, o.session)
    requires Owes(db, f, o.start.revision, o.head.revision, owed)
    ensures TakenRange(db, o, Take(owed, limit))
  {
    LastInRange(db, f, o.start, o.head.revision, owed, limit);
    FirstAreOldest(owed, limit);
    if Take(owed, limit) != [] { LastIsGreatest(Take(owed, limit)); }
  }

  lemma FirstAreOldest(owed: seq<Change>, limit: nat)
    requires Ordered(owed) && 1 <= limit
    ensures var changes := Take(owed, limit);
            && Ordered(changes) && (forall c | c in changes :: c in owed) && (changes == [] ==> owed == [])
            && (changes != [] ==> forall c | c in owed && c.revision <= changes[|changes| - 1].revision :: c in changes)
  {
    var changes := Take(owed, limit);
    if changes != [] {
      forall c | c in owed && c.revision <= changes[|changes| - 1].revision ensures c in changes {
        var i :| 0 <= i < |owed| && owed[i] == c;
        assert i < |changes|;
        assert changes[i] == c;
      }
    }
  }

  // ----- the driver

  class Replica {
    var rows: Rows

    constructor ()
      ensures rows == map[]
    {
      rows := map[];
    }

    method Apply(c: Change)
      modifies this
      ensures rows == Fold(old(rows), c)
    {
      match c.op
      case Upsert(columns) => rows := rows[c.key := columns];
      case Delete => rows := rows - {c.key};
    }
  }

  /** `views(p)` is what the `p`-th page's native reads see, its last the store while the page is consumed. */
  ghost predicate Calls(views: nat -> nat -> Store, limit: nat) {
    && (forall p :: Timeline(views(p)))
    && (forall p {:trigger Between(views, limit, p)} :: Between(views, limit, p))
  }

  ghost predicate Between(views: nat -> nat -> Store, limit: nat, p: nat) {
    Evolves(views(p)(limit + 3).db, views(p + 1)(0).db)
  }

  /**
   How a run ended: refused by its first page, or stopped at page `last` with the feed consumed up to
   `position`. A finished run has reached the head of its last page.
   */
  datatype Stop = Refused(error: FeedError) | Stopped(last: nat, position: Watermark, finished: bool)

  /** Hand a page's changes to the replica, oldest first, until the consumer has taken all it will. */
  method YieldAll(db: Db, ghost f: Filter, changes: seq<Change>, replica: Replica, budget: nat, ghost start: nat, ghost upTo: nat, ghost head: nat)
    returns (taken: nat)
    requires Wf(db) && Ordered(changes) && Applying(db, f, replica.rows, upTo, head, changes)
    requires start <= upTo && forall c | c in changes :: start < c.revision <= upTo
    requires Known(db, f, replica.rows) && forall c | c in changes :: Within(f, c.key) && HoldsKey(db, c.key)
    modifies replica
    ensures taken == if |changes| < budget then |changes| else budget
    ensures Known(db, f, replica.rows)
    ensures taken == |changes| ==> Synced(db, f, replica.rows, upTo)
    ensures Synced(db, f, replica.rows, if taken == 0 then start else changes[taken - 1].revision)
  {
    taken := 0;
    while taken < |changes| && taken < budget
      invariant taken <= |changes| && taken <= budget
      invariant Applying(db, f, replica.rows, upTo, head, changes[taken..])
      invariant Known(db, f, replica.rows)
    {
      ApplyAt(db, f, replica.rows, upTo, head, changes, taken);
      replica.Apply(changes[taken]);
      taken := taken + 1;
    }
    AppliedTo(db, f, replica.rows, start, upTo, head, changes, taken);
  }

  lemma ApplyAt(db: Db, f: Filter, rows: Rows, upTo: nat, head: nat, changes: seq<Change>, i: nat)
    requires Wf(db) && i < |changes| && Applying(db, f, rows, upTo, head, changes[i..])
    requires Known(db, f, rows) && forall c | c in changes :: Within(f, c.key) && HoldsKey(db, c.key)
    ensures Applying(db, f, Fold(rows, changes[i]), upTo, head, changes[i + 1..])
    ensures Known(db, f, Fold(rows, changes[i]))
  {
    ApplyNext(db, f, rows, upTo, head, changes[i..]);
    assert changes[i..][1..] == changes[i + 1..];
    assert changes[i] in changes;
  }

  /** Having applied the first `taken`, the replica is synced to the last of them. */
  lemma AppliedTo(db: Db, f: Filter, rows: Rows, start: nat, upTo: nat, head: nat, changes: seq<Change>, taken: nat)
    requires Wf(db) && taken <= |changes| && Ordered(changes) && Applying(db, f, rows, upTo, head, changes[taken..])
    requires start <= upTo && forall c | c in changes :: start < c.revision <= upTo
    ensures taken == |changes| ==> Synced(db, f, rows, upTo)
    ensures Synced(db, f, rows, if taken == 0 then start else changes[taken - 1].revision)
  {
    var left, reached := changes[taken..], if taken == 0 then start else changes[taken - 1].revision;
    forall c | c in left ensures c.revision > reached {
      var i :| 0 <= i < |left| && left[i] == c;
      assert changes[taken + i] == c && c in changes;
    }
    assert taken == |changes| ==> left == [];
    assert reached <= upTo by {
      if taken > 0 { assert changes[taken - 1] in changes; }
    }
  }

  /** A page opened at `opening` whose changes, applied now, bring a replica from `start` to the page's position. */
  ghost predicate Yieldable(opening: Db, now: Db, f: Filter, rows: Rows, start: nat, page: Page) {
    && Applying(now, f, rows, page.position.revision, page.head.revision, page.changes)
    && Ordered(page.changes) && (forall c | c in page.changes :: start < c.revision <= page.position.revision)
    && (forall c | c in page.changes :: Within(f, c.key) && HoldsKey(now, c.key))
    && Known(now, f, rows)
    && start <= page.position.revision <= page.head.revision <= now.clock && page.position.epoch == now.epoch
    && (if page.done then page.position == Head(opening) else page.changes != [])
  }

  lemma PageIsYieldable(opening: Db, first: Db, settled: Db, now: Db, o: Opened, limit: nat, rows: Rows, page: Page)
    requires Wf(opening) && Wf(first) && Wf(settled) && Wf(now)
    requires Evolves(opening, first) && Evolves(first, settled) && Evolves(settled, now)
    requires 1 <= limit && o.start.revision <= o.head.revision && o.head == Head(opening) && o.start.epoch == o.head.epoch
    requires Synced(opening, Whole(o.kinds, o.session), rows, o.start.revision) && Known(opening, Whole(o.kinds, o.session), rows)
    requires page == PageOf(settled, o, FirstOwed(first, o, limit))
    ensures Yieldable(opening, now, Whole(o.kinds, o.session), rows, o.start.revision, page)
  {
    var f := Whole(o.kinds, o.session);
    var owed := Pending(first, f, o.start.revision, o.head.revision);
    SyncedLater(opening, first, f, rows, o.start.revision);
    PageToApply(first, settled, o, limit, rows, owed, page);
    PageRange(first, o, limit, owed);
    ApplyingLater(settled, now, f, rows, page.position.revision, page.head.revision, page.changes);
    EvolvesTransitive(first, settled, now);
    EvolvesTransitive(opening, first, now);
    KnownLater(opening, now, f, rows);
  }

  /** A drain opened once opens again at any position of the same store up to its head. */
  lemma OpensAgain(s: Store, t: Store, from: Watermark, q: Query, position: Watermark)
    requires Wf(s.db) && Wf(t.db) && Open(s, from, q).Ok?
    requires position.epoch == t.db.epoch && position.revision <= t.db.clock
    ensures Open(t, position, q).Ok? && Open(t, position, q).value.start == position
  {
  }

  /** The replica holds what the drain about to open at `mark` takes as accounted for. */
  ghost predicate Ready(s: Store, mark: Watermark, query: Query, f: Filter, rows: Rows)
    requires Wf(s.db)
  {
    && Known(s.db, f, rows)
    && (Open(s, mark, query).Ok? ==> Synced(s.db, f, rows, Open(s, mark, query).value.start.revision))
  }

  /** Read one page; `start` is where its drain opened. */
  method ReadReady(view: nat -> Store, mark: Watermark, query: Query, limit: nat, ghost f: Filter, ghost rows: Rows)
    returns (answer: Result<Page, FeedError>, ghost start: nat)
    requires Timeline(view) && 1 <= limit <= MAX_CHANGE_BATCH && query.batch == limit + 1
    requires f == Whole(Normalize(query.kinds), query.session) && Ready(view(0), mark, query, f, rows)
    ensures answer.Ok? <==> Open(view(0), mark, query).Ok?
    ensures answer.Ok? ==> start == Open(view(0), mark, query).value.start.revision
    ensures answer.Ok? ==> Yieldable(view(0).db, view(limit + 3).db, f, rows, start, answer.value)
  {
    start := 0;
    answer := ReadPage(view, mark, query, query.(consumer := None, batch := 0), limit);
    if answer.Ok? {
      start := Open(view(0), mark, query).value.start.revision;
      ReadIsYieldable(view, Open(view(0), mark, query).value, limit, f, rows, answer.value);
    }
  }

  lemma PageViews(view: nat -> Store, limit: nat)
    requires Timeline(view) && 1 <= limit
    ensures Evolves(view(0).db, view(1).db)
    ensures Evolves(view(1).db, view(SettledAt(limit)).db)
    ensures Evolves(view(SettledAt(limit)).db, view(limit + 3).db)
  {
    Later(view, 0, 1);
    Later(view, 1, SettledAt(limit));
    Later(view, SettledAt(limit), limit + 3);
  }

  lemma ReadIsYieldable(view: nat -> Store, o: Opened, limit: nat, f: Filter, rows: Rows, page: Page)
    requires Timeline(view) && 1 <= limit && f == Whole(o.kinds, o.session)
    requires o.start.revision <= o.head.revision && o.head == Head(view(0).db) && o.start.epoch == o.head.epoch
    requires Synced(view(0).db, f, rows, o.start.revision) && Known(view(0).db, f, rows)
    requires page == PageOf(view(SettledAt(limit)).db, o, FirstOwed(view(1).db, o, limit))
    ensures Yieldable(view(0).db, view(limit + 3).db, f, rows, o.start.revision, page)
  {
    PageViews(view, limit);
    PageIsYieldable(view(0).db, view(1).db, view(SettledAt(limit)).db, view(limit + 3).db, o, limit, rows, page);
  }

  lemma SyncedToNothing(db: Db, f: Filter, rows: Rows)
    requires Wf(db)
    ensures Synced(db, f, rows, 0)
  {
  }

  /** `from`, then each page's own position: one page a turn until the feed is exhausted or the consumer stops. */
  method ChangesSince(views: nat -> nat -> Store, from: Watermark, query: Query, limit: nat, replica: Replica, budget: nat)
    returns (stop: Stop)
    requires Calls(views, limit) && 1 <= limit <= MAX_CHANGE_BATCH && query.batch == limit + 1
    requires Ready(views(0)(0), from, query, Whole(Normalize(query.kinds), query.session), replica.rows)
    modifies replica
    ensures stop.Stopped? ==>
      var now, f := views(stop.last)(limit + 3).db, Whole(Normalize(query.kinds), query.session);
      && Synced(now, f, replica.rows, stop.position.revision) && Known(now, f, replica.rows)
      && stop.position.revision <= now.clock
      && (stop.finished ==> stop.position == Head(views(stop.last)(0).db))
    ensures stop.Refused? <==> Open(views(0)(0), from, query).Err?
  {
    hide Synced; hide Known; hide Normalize; hide Pending; hide Evolves; hide Wf;
    ghost var f := Whole(Normalize(query.kinds), query.session);
    var mark, p: nat, left: nat := from, 0, budget;
    while true
      invariant Ready(views(p)(0), mark, query, f, replica.rows)
      invariant if p == 0 then mark == from
                else Open(views(0)(0), from, query).Ok? && Open(views(p)(0), mark, query).Ok?
                     && Open(views(p)(0), mark, query).value.start == mark && mark.revision <= views(p)(0).db.clock
      decreases left
    {
      var answer; ghost var start;
      answer, start := ReadReady(views(p), mark, query, limit, f, replica.rows);
      if answer.Err? {
        return Refused(answer.error);
      }
      var page := answer.value;
      var taken := YieldAll(views(p)(limit + 3).db, f, page.changes, replica, left, start, page.position.revision, page.head.revision);
      if taken < |page.changes| {
        SyncedToNothing(views(p)(limit + 3).db, f, replica.rows);
        var reached := if taken > 0 then Watermark(page.changes[taken - 1].revision, page.head.epoch)
                       else if p > 0 then mark else START;
        return Stopped(p, reached, false);
      }
      if page.done {
        return Stopped(p, page.position, true);
      }
      NextPage(views, limit, p, views(p)(0), mark, query, f, replica.rows, page.position);
      mark, p, left := page.position, p + 1, left - taken;
    }
  }

  lemma NextPage(views: nat -> nat -> Store, limit: nat, p: nat, opening: Store, mark: Watermark, query: Query,
                 f: Filter, rows: Rows, position: Watermark)
    requires Calls(views, limit) && Wf(opening.db) && Open(opening, mark, query).Ok?
    requires var now := views(p)(limit + 3).db;
             && Synced(now, f, rows, position.revision) && Known(now, f, rows)
             && position.revision <= now.clock && position.epoch == now.epoch
    ensures var next := views(p + 1)(0);
            && Ready(next, position, query, f, rows) && position.revision <= next.db.clock
            && Open(next, position, query).Ok? && Open(next, position, query).value.start == position
  {
    var moved := Between(views, limit, p);
    var now, next := views(p)(limit + 3).db, views(p + 1)(0);
    SyncedLater(now, next.db, f, rows, position.revision);
    KnownLater(now, next.db, f, rows);
    OpensAgain(opening, next, mark, query, position);
  }

  // ----- what a synced replica is

  /** The replica holds exactly the live records whose current change `f` selects. */
  ghost predicate Mirrors(db: Db, f: Filter, rows: Rows) {
    && (forall r | r in db.log && Selects(f, db.log[r]) && db.log[r].op.Upsert? :: Agrees(rows, db.log[r]))
    && (forall k | k in rows :: exists r :: r in db.log && db.log[r].key == k && Selects(f, db.log[r]) && db.log[r].op == Upsert(rows[k]))
  }

  /** A record the replica holds whose current change the filter no longer selects. */
  ghost predicate HasLeft(db: Db, f: Filter, k: RecordKey) {
    exists r :: r in db.log && db.log[r].key == k && !Selects(f, db.log[r])
  }

  /** Drained with no later write, a replica mirrors the store exactly when no record it holds has left the filter. */
  lemma MirrorsUnlessLeft(db: Db, f: Filter, rows: Rows)
    requires Wf(db) && Synced(db, f, rows, db.clock) && Known(db, f, rows)
    ensures Mirrors(db, f, rows) <==> forall k | k in rows :: !HasLeft(db, f, k)
  {
    forall k | k in rows && !HasLeft(db, f, k)
      ensures exists r :: r in db.log && db.log[r].key == k && Selects(f, db.log[r]) && db.log[r].op == Upsert(rows[k])
    {
      var r :| r in db.log && db.log[r].key == k;
      assert Agrees(rows, db.log[r]);
    }
  }

  /** The query asks for every session, or for no prompts. */
  predicate Mirrorable(f: Filter) {
    f.session.None? || History !in f.kinds
  }

  /** Such a query's drained replica is exactly the store: an identity of any other kind tells its session. */
  lemma MirrorIsExact(db: Db, f: Filter, rows: Rows)
    requires Wf(db) && Synced(db, f, rows, db.clock) && Known(db, f, rows) && f.form.AnyForm? && Mirrorable(f)
    ensures Mirrors(db, f, rows)
  {
    forall k | k in rows ensures !HasLeft(db, f, k) {
      forall r | r in db.log && db.log[r].key == k ensures Selects(f, db.log[r]) {
        assert Within(f, k) && NamesOwner(db.log[r]);
      }
    }
    MirrorsUnlessLeft(db, f, rows);
  }

  ghost function FoldAll(rows: Rows, changes: seq<Change>): Rows
    decreases |changes|
  {
    if changes == [] then rows else FoldAll(Fold(rows, changes[0]), changes[1..])
  }

  /** A replica once everything owed past `from` is folded in. */
  ghost function Drained(rows: Rows, db: Db, f: Filter, from: nat): Rows {
    FoldAll(rows, Pending(db, f, from, db.clock))
  }

  lemma {:induction false} FoldAllSyncs(db: Db, f: Filter, rows: Rows, left: seq<Change>)
    requires Wf(db) && Applying(db, f, rows, db.clock, db.clock, left) && Known(db, f, rows)
    requires forall c | c in left :: Within(f, c.key) && HoldsKey(db, c.key)
    ensures Synced(db, f, FoldAll(rows, left), db.clock) && Known(db, f, FoldAll(rows, left))
    decreases |left|
  {
    if left != [] {
      assert left == [left[0]] + left[1..];
      ApplyNext(db, f, rows, db.clock, db.clock, left);
      assert left[0] in left;
      FoldAllSyncs(db, f, Fold(rows, left[0]), left[1..]);
    }
  }

  lemma DrainSyncs(db: Db, f: Filter, rows: Rows, from: nat)
    requires Wf(db) && from <= db.clock && Synced(db, f, rows, from) && Known(db, f, rows)
    ensures Synced(db, f, Drained(rows, db, f, from), db.clock) && Known(db, f, Drained(rows, db, f, from))
  {
    var owed := Pending(db, f, from, db.clock);
    PendingMeaning(db, f, from, db.clock);
    forall c | c in owed ensures Reports(db, c) && Within(f, c.key) && HoldsKey(db, c.key) {
      assert Reports(db, c) && NamesOwner(c);
    }
    FirstToApply(db, f, from, db.clock, rows, owed, owed, db.clock);
    FoldAllSyncs(db, f, rows, owed);
  }

  /** Later and later states of one store, which somebody drains at each of them. */
  ghost predicate Visits(dbs: seq<Db>)
    decreases |dbs|
  {
    dbs == [] ||
    var n := |dbs| - 1;
    Visits(dbs[..n]) && Wf(dbs[n]) && (n > 0 ==> Evolves(dbs[n - 1], dbs[n]))
  }

  /** The replica of somebody who drains at every visit, each time from where the visit before ended. */
  ghost function Followed(dbs: seq<Db>, f: Filter): Rows
    decreases |dbs|
  {
    if dbs == [] then map[]
    else
      var n := |dbs| - 1;
      Drained(Followed(dbs[..n], f), dbs[n], f, if n > 0 then dbs[n - 1].clock else 0)
  }

  lemma {:induction false} FollowingSyncs(dbs: seq<Db>, f: Filter)
    requires Visits(dbs) && dbs != []
    ensures var db := dbs[|dbs| - 1]; Wf(db) && Synced(db, f, Followed(dbs, f), db.clock) && Known(db, f, Followed(dbs, f))
    decreases |dbs|
  {
    var n := |dbs| - 1;
    var db, rows := dbs[n], Followed(dbs[..n], f);
    if n > 0 {
      FollowingSyncs(dbs[..n], f);
      assert dbs[..n][n - 1] == dbs[n - 1];
      SyncedLater(dbs[n - 1], db, f, rows, dbs[n - 1].clock);
      KnownLater(dbs[n - 1], db, f, rows);
    }
    DrainSyncs(db, f, rows, if n > 0 then dbs[n - 1].clock else 0);
  }

  /** A prompt of the session asked for, in a store that holds nothing else. */
  function OnePrompt(session: SessionId): Db {
    Apply(Db(1, 0, map[]), Put(RecordKey(History, session.source, "", "prompt"), session.session, ["hello"]))
  }

  /** A store whose one change is `c` owes a filter that does not select it nothing. */
  lemma OneUnselected(db: Db, f: Filter, c: Change, from: nat)
    requires Wf(db) && db.log == map[c.revision := c] && !Selects(f, c)
    ensures Pending(db, f, from, db.clock) == []
  {
    PendingMeaning(db, f, from, db.clock);
    NoMember(Pending(db, f, from, db.clock));
  }

  lemma OneSelected(db: Db, f: Filter, c: Change)
    requires Wf(db) && db.log == map[c.revision := c] && Selects(f, c) && 0 < c.revision <= db.clock
    ensures Pending(db, f, 0, db.clock) == [c]
  {
    PendingMeaning(db, f, 0, db.clock);
    OrderedUnique(Pending(db, f, 0, db.clock), [c]);
  }

  lemma FollowedOnce(db: Db, f: Filter, c: Change)
    requires Wf(db) && db.log == map[c.revision := c] && Selects(f, c) && c.op.Upsert? && 0 < c.revision <= db.clock
    ensures Visits([db]) && Followed([db], f) == map[c.key := c.op.columns]
  {
    OneSelected(db, f, c);
    hide Pending;
    assert [db][..0] == [] && [c][1..] == [];
    assert Followed([db][..0], f) == map[];
    assert FoldAll(map[], [c]) == FoldAll(Fold(map[], c), []);
  }

  lemma FollowedOn(a: Db, b: Db, f: Filter)
    requires Visits([a]) && Wf(b) && Evolves(a, b) && Pending(b, f, a.clock, b.clock) == []
    ensures Visits([a, b]) && Followed([a, b], f) == Followed([a], f)
  {
    hide Pending;
    assert [a, b][..1] == [a];
  }

  /** The next write of a one-session replica's prompt no longer names the session, so the replica never hears of it. */
  lemma PromptIsMissed(f: Filter, written: Db, db: Db, first: Change, c: Change)
    requires History in f.kinds && f.form.AnyForm? && Wf(written) && Wf(db) && Evolves(written, db)
    requires written.log == map[1 := first] && first.revision == 1 == written.clock && Selects(f, first) && first.op.Upsert?
    requires db.log == map[2 := c] && c.revision == 2 == db.clock && c.key == first.key && !Selects(f, c)
    ensures Visits([written, db]) && c.key in Followed([written, db], f) && !Mirrors(db, f, Followed([written, db], f))
  {
    FollowedOnce(written, f, first);
    OneUnselected(db, f, c, 1);
    FollowedOn(written, db, f);
    FollowingSyncs([written, db], f);
    hide Followed;
    hide Visits;
    var rows := Followed([written, db], f);
    assert HasLeft(db, f, c.key) by { assert 2 in db.log && db.log[2].key == c.key; }
    MirrorsUnlessLeft(db, f, rows);
  }

  /** A prompt's tombstone names no session: somebody draining one session keeps a prompt that is deleted. */
  lemma PromptDeleteIsMissed(f: Filter)
    requires f.session.Some? && f.session.value.session != "" && History in f.kinds && f.form.AnyForm?
    ensures var written, k := OnePrompt(f.session.value), RecordKey(History, f.session.value.source, "", "prompt");
            var db := Apply(written, Remove(k));
            && Visits([written, db]) && db.log == map[2 := Change(k, 2, "", Delete)]
            && k in Followed([written, db], f) && !Mirrors(db, f, Followed([written, db], f))
  {
    var written, k := OnePrompt(f.session.value), RecordKey(History, f.session.value.source, "", "prompt");
    WriteEvolves(Db(1, 0, map[]), Put(k, f.session.value.session, ["hello"]));
    assert written.log == map[1 := Change(k, 1, f.session.value.session, Upsert(["hello"]))];
    assert 1 in Live(written, k);
    WriteEvolves(written, Remove(k));
    var db := Apply(written, Remove(k));
    assert db.log == map[2 := Change(k, 2, "", Delete)];
    PromptIsMissed(f, written, db, written.log[1], db.log[2]);
  }

  /** Nor does it hear that a prompt was given to another session. */
  lemma PromptMoveIsMissed(f: Filter)
    requires f.session.Some? && History in f.kinds && f.form.AnyForm?
    ensures exists dbs :: Visits(dbs) && dbs != [] && !Mirrors(dbs[|dbs| - 1], f, Followed(dbs, f))
  {
    hide Mirrors;
    hide Followed;
    hide Drained;
    var written, k := OnePrompt(f.session.value), RecordKey(History, f.session.value.source, "", "prompt");
    var other := f.session.value.session + "*";
    WriteEvolves(Db(1, 0, map[]), Put(k, f.session.value.session, ["hello"]));
    assert written.log == map[1 := Change(k, 1, f.session.value.session, Upsert(["hello"]))];
    assert other != f.session.value.session;
    WriteEvolves(written, Put(k, other, ["hello"]));
    var db := Apply(written, Put(k, other, ["hello"]));
    assert db.log == map[2 := Change(k, 2, other, Upsert(["hello"]))];
    PromptIsMissed(f, written, db, written.log[1], db.log[2]);
    var dbs := [written, db];
    assert Visits(dbs) && dbs[|dbs| - 1] == dbs[1];
  }

  /**
   A replica kept by draining, however often and with whatever writes between, is the selected part of the store whenever a
   drain ends, exactly when the query asks for every session or for no prompts.
   */
  lemma MirrorsIff(f: Filter)
    requires f.form.AnyForm?
    ensures (forall dbs | Visits(dbs) && dbs != [] :: Mirrors(dbs[|dbs| - 1], f, Followed(dbs, f))) <==> Mirrorable(f)
  {
    if Mirrorable(f) {
      forall dbs | Visits(dbs) && dbs != [] ensures Mirrors(dbs[|dbs| - 1], f, Followed(dbs, f)) {
        FollowingSyncs(dbs, f);
        MirrorIsExact(dbs[|dbs| - 1], f, Followed(dbs, f));
      }
    } else {
      PromptMoveIsMissed(f);
    }
  }

  // ----- a store nobody writes to

  /** The pages a reader takes from a store that stands still: each opens at the position of the one before. */
  ghost predicate QuietRun(db: Db, o: Opened, limit: nat, pages: seq<Page>)
    decreases |pages|
  {
    && pages != []
    && pages[0] == PageOf(db, o, FirstOwed(db, o, limit))
    && (if pages[0].done then |pages| == 1 else QuietRun(db, o.(start := pages[0].position), limit, pages[1..]))
  }

  /** A page is the first `min(limit, k)` owed, is done exactly when `k <= limit`, and leaves the rest owed. */
  lemma QuietPage(db: Db, o: Opened, limit: nat)
    requires Wf(db) && 1 <= limit && o.head == Head(db) && o.start.revision <= o.head.revision && o.start.epoch == o.head.epoch
    ensures var f, page := Whole(o.kinds, o.session), PageOf(db, o, FirstOwed(db, o, limit));
            var owed := Pending(db, f, o.start.revision, o.head.revision);
            && page.changes == (if |owed| <= limit then owed else owed[..limit])
            && (page.done <==> |owed| <= limit)
            && (page.done ==> page.position == Head(db))
            && (!page.done ==> Pending(db, f, page.position.revision, o.head.revision) == owed[limit..])
            && o.start.revision <= page.position.revision <= o.head.revision && page.position.epoch == o.head.epoch
  {
    var f := Whole(o.kinds, o.session);
    var owed := Pending(db, f, o.start.revision, o.head.revision);
    PageRange(db, o, limit, owed);
    PendingMeaning(db, f, o.start.revision, o.head.revision);
    var last := LastOf(o.start, Take(owed, limit)).revision;
    PendingMeaning(db, f, last, o.head.revision);
    RestOwed(db, f, o.start.revision, o.head.revision, owed, limit, last, Pending(db, f, last, o.head.revision));
  }

  lemma RestOwed(db: Db, f: Filter, lo: nat, hi: nat, owed: seq<Change>, limit: nat, last: nat, left: seq<Change>)
    requires 1 <= limit && lo <= last && Owes(db, f, lo, hi, owed) && Owes(db, f, last, hi, left)
    requires last == if owed == [] then lo else Take(owed, limit)[|Take(owed, limit)| - 1].revision
    ensures left == owed[|Take(owed, limit)|..]
  {
    var n := |Take(owed, limit)|;
    forall c: Change ensures c in left <==> c in owed[n..] {
      assert c in left <==> c in owed && last < c.revision;
      PastTaken(owed, n, last, lo, c);
    }
    OrderedUnique(left, owed[n..]);
  }

  lemma PastTaken(owed: seq<Change>, n: nat, last: nat, lo: nat, c: Change)
    requires Ordered(owed) && n <= |owed| && (n == 0 ==> owed == [])
    requires n > 0 ==> last == owed[n - 1].revision
    ensures c in owed && last < c.revision <==> c in owed[n..]
  {
    if c in owed && last < c.revision {
      var i :| 0 <= i < |owed| && owed[i] == c;
      assert owed[n..][i - n] == c;
    }
  }

  function Concat(pages: seq<Page>): seq<Change> {
    if pages == [] then [] else pages[0].changes + Concat(pages[1..])
  }

  function PagesFor(k: nat, limit: nat): (n: nat)
    requires 1 <= limit
    ensures 1 <= n
    decreases k
  {
    if k <= limit then 1 else 1 + PagesFor(k - limit, limit)
  }

  /** `PagesFor` is `max(1, ceil(k / limit))`. */
  lemma {:induction false} PagesForIsCeiling(k: nat, limit: nat)
    requires 1 <= limit
    ensures k <= PagesFor(k, limit) * limit
    ensures PagesFor(k, limit) > 1 ==> (PagesFor(k, limit) - 1) * limit < k
    decreases k
  {
    if k > limit {
      var n := PagesFor(k - limit, limit);
      PagesForIsCeiling(k - limit, limit);
      assert (n + 1) * limit == n * limit + limit;
      assert (n - 1) * limit + limit == n * limit;
    }
  }

  /** Draining a quiet store hands out everything owed, once and in order, in `max(1, ceil(k / limit))` pages. */
  lemma {:induction false} QuietDrain(db: Db, o: Opened, limit: nat, owed: seq<Change>, pages: seq<Page>)
    requires Wf(db) && 1 <= limit && o.head == Head(db) && o.start.revision <= o.head.revision && o.start.epoch == o.head.epoch
    requires owed == Pending(db, Whole(o.kinds, o.session), o.start.revision, o.head.revision)
    requires QuietRun(db, o, limit, pages)
    ensures Concat(pages) == owed && |pages| == PagesFor(|owed|, limit)
    ensures EndsAtHead(db, pages)
    decreases |pages|
  {
    var page, rest := pages[0], pages[1..];
    QuietPage(db, o, limit);
    if page.done {
      LastPage(db, pages);
    } else {
      var left := owed[limit..];
      QuietDrain(db, o.(start := page.position), limit, left, rest);
      MorePages(db, pages, owed, limit);
    }
  }

  ghost predicate EndsAtHead(db: Db, pages: seq<Page>) {
    pages != [] && pages[|pages| - 1].done && pages[|pages| - 1].position == Head(db)
  }

  lemma LastPage(db: Db, pages: seq<Page>)
    requires |pages| == 1 && pages[0].done && pages[0].position == Head(db)
    ensures Concat(pages) == pages[0].changes && EndsAtHead(db, pages)
  {
    assert pages[1..] == [];
    assert Concat(pages) == pages[0].changes + [];
  }

  lemma MorePages(db: Db, pages: seq<Page>, owed: seq<Change>, limit: nat)
    requires pages != [] && EndsAtHead(db, pages[1..])
    requires limit <= |owed| && pages[0].changes == owed[..limit] && Concat(pages[1..]) == owed[limit..]
    ensures Concat(pages) == owed && EndsAtHead(db, pages)
  {
    assert owed == owed[..limit] + owed[limit..];
    assert pages[1..][|pages| - 2] == pages[|pages| - 1];
  }

  /** Such a run exists: paging a quiet store always ends. */
  lemma {:induction false} QuietRunEnds(db: Db, o: Opened, limit: nat, owed: seq<Change>) returns (pages: seq<Page>)
    requires Wf(db) && 1 <= limit && o.head == Head(db) && o.start.revision <= o.head.revision && o.start.epoch == o.head.epoch
    requires owed == Pending(db, Whole(o.kinds, o.session), o.start.revision, o.head.revision)
    ensures QuietRun(db, o, limit, pages)
    decreases |owed|
  {
    var page := PageOf(db, o, FirstOwed(db, o, limit));
    QuietPage(db, o, limit);
    pages := [page];
    if !page.done {
      var rest := QuietRunEnds(db, o.(start := page.position), limit, owed[limit..]);
      pages := [page] + rest;
      assert pages[1..] == rest;
    }
  }
}
