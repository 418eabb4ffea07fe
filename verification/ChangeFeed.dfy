/**
 The feed across the native boundary: opening a drain, pulling from it, reading one bounded page and
 committing a named cursor. Every native read sees its own state of the store, `view(i)` being the state
 the `i`-th one sees; other connections write in between.
 */
module ChangeFeed {
  import opened Wrappers
  import opened Ordering
  import opened FeedStore
  import opened FeedDrain

  const START := Watermark(0, 0)
  const CONSUMER := Watermark(0xFFFF_FFFF_FFFF_FFFF, 0)

  /** `kinds` is fixed by the first commit: the cursor counts those and no others. */
  datatype Cursor = Cursor(revision: nat, kinds: seq<Kind>)

  datatype Store = Store(db: Db, cursors: map<string, Cursor>)

  /** `batch` zero asks for the default. */
  datatype Query = Query(kinds: Option<seq<Kind>>, consumer: Option<string>, batch: nat, session: Option<SessionId>)

  datatype FeedError = InvalidArgument | WatermarkAheadOfStore | ConsumerKindsMismatch

  function KindsAmong(order: seq<Kind>, kinds: seq<Kind>): (r: seq<Kind>)
    ensures forall k: Kind :: k in r <==> k in order && k in kinds
    ensures Distinct(order) ==> Distinct(r)
  {
    if order == [] then [] else
      assert order == [order[0]] + order[1..];
      var rest := KindsAmong(order[1..], kinds);
      if order[0] in kinds then [order[0]] + rest else rest
  }

  lemma AllKindsListed()
    ensures Distinct(ALL_KINDS) && forall k: Kind :: k in ALL_KINDS
  {
    forall k: Kind ensures k in ALL_KINDS {
      match k {
        case Session => assert ALL_KINDS[0] == k;
        case SessionEvent => assert ALL_KINDS[1] == k;
        case ToolCall => assert ALL_KINDS[2] == k;
        case FileEdit => assert ALL_KINDS[3] == k;
        case SessionMarker => assert ALL_KINDS[4] == k;
        case Relationship => assert ALL_KINDS[5] == k;
        case History => assert ALL_KINDS[6] == k;
        case Presence => assert ALL_KINDS[7] == k;
        case CommitLink => assert ALL_KINDS[8] == k;
        case SourceObservation => assert ALL_KINDS[9] == k;
        case ObservationEvidence => assert ALL_KINDS[10] == k;
      }
    }
  }

  /** The kinds asked for, in enum order, each once: `sort` then `dedup`. */
  function Normalize(kinds: Option<seq<Kind>>): (r: seq<Kind>)
    ensures Distinct(r)
    ensures forall k: Kind :: k in r <==> kinds == None || k in kinds.value
  {
    AllKindsListed();
    if kinds == None then ALL_KINDS else KindsAmong(ALL_KINDS, kinds.value)
  }

  // ----- opening a drain

  /** A drain as opened: `stale` is the consumer's cursor when it stood past the head. */
  datatype Opened = Opened(kinds: seq<Kind>, session: Option<SessionId>, consumer: Option<string>, batch: nat,
                           start: Watermark, head: Watermark, stale: Option<nat>)

  function CursorOf(s: Store, consumer: Option<string>): Option<Cursor> {
    if consumer.Some? && consumer.value in s.cursors then Some(s.cursors[consumer.value]) else None
  }

  /** Where a drain starts and what it is bounded to, read from one snapshot. */
  function Open(s: Store, from: Watermark, q: Query): (r: Result<Opened, FeedError>)
    ensures r.Ok? ==> r.value.start.revision <= r.value.head.revision && r.value.head == Head(s.db)
    ensures r.Ok? ==> r.value.kinds == Normalize(q.kinds) && r.value.session == q.session && r.value.consumer == q.consumer
    ensures r.Ok? && q.batch != 0 ==> r.value.batch == if q.batch < MAX_CHANGE_BATCH then q.batch else MAX_CHANGE_BATCH
    ensures r.Ok? ==> r.value.start.epoch == s.db.epoch && Distinct(r.value.kinds) && 0 < r.value.batch
    ensures r.Ok? && q.session.Some? ==> q.consumer == None && q.session.value.source != "" && q.session.value.session != ""
  {
    var kinds := Normalize(q.kinds);
    var cursor := CursorOf(s, q.consumer);
    if from == CONSUMER && q.consumer.None? then Err(InvalidArgument)
    else if q.session.Some? && q.consumer.Some? then Err(InvalidArgument)
    else if q.session.Some? && (q.session.value.source == "" || q.session.value.session == "") then Err(InvalidArgument)
    else if from == CONSUMER && cursor.Some? && cursor.value.kinds != kinds then Err(ConsumerKindsMismatch)
    else
      var start := if from != CONSUMER then from.revision else if cursor.Some? then cursor.value.revision else 0;
      if from != START && from != CONSUMER && from.epoch != s.db.epoch then Err(WatermarkAheadOfStore)
      else if start > s.db.clock then Err(WatermarkAheadOfStore)
      else Ok(Opened(kinds, q.session, q.consumer,
                     if q.batch == 0 then DEFAULT_CHANGE_BATCH else if q.batch < MAX_CHANGE_BATCH then q.batch else MAX_CHANGE_BATCH,
                     Watermark(start, s.db.epoch), Head(s.db),
                     if cursor.Some? && cursor.value.revision > s.db.clock then Some(cursor.value.revision) else None))
  }

  // ----- the drain

  /** The fields a drain moves. */
  datatype Place = Place(position: Watermark, buffer: seq<Change>, exhausted: bool)

  /** One pull from `was`, when the store then owes `owed`: buffered rows first, then one more fill, then the end. */
  ghost predicate Pulled(was: Place, owed: seq<Change>, batch: nat, head: Watermark, c: Option<Change>, now: Place) {
    var ready := if was.buffer != [] || was.exhausted then was.buffer else Take(owed, batch);
    if ready == []
    then c == None && now == Place(if was.exhausted then was.position else head, [], true)
    else c == Some(ready[0]) && now == Place(Watermark(ready[0].revision, head.epoch), ready[1..], false)
  }

  class Changes {
    const kinds: seq<Kind>
    const session: Option<SessionId>
    const consumer: Option<string>
    const batch: nat
    const head: Watermark
    var position: Watermark
    var buffer: seq<Change>
    var exhausted: bool

    ghost predicate Valid()
      reads this
    {
      && Distinct(kinds) && 0 < batch
      && position.revision <= head.revision
      && (exhausted ==> buffer == [])
      && (forall c | c in buffer :: c.revision <= head.revision)
    }

    ghost function At(): Place
      reads this
    {
      Place(position, buffer, exhausted)
    }

    /** What the store still owes this drain. */
    ghost function Owed(db: Db): seq<Change>
      reads this
    {
      Pending(db, Whole(kinds, session), position.revision, head.revision)
    }

    constructor (o: Opened)
      requires Distinct(o.kinds) && 0 < o.batch && o.start.revision <= o.head.revision
      ensures Valid() && position == o.start && buffer == [] && !exhausted
      ensures kinds == o.kinds && session == o.session && consumer == o.consumer && batch == o.batch && head == o.head
    {
      kinds, session, consumer, batch, head := o.kinds, o.session, o.consumer, o.batch, o.head;
      position, buffer, exhausted := o.start, [], false;
    }

    /** Cut and rows are taken from the one state `db`. */
    method Fill(db: Db)
      requires Valid() && Wf(db) && buffer == [] && !exhausted
      modifies this
      ensures Valid()
      ensures var owed := old(Owed(db));
              && buffer == Take(owed, batch)
              && exhausted == (owed == [])
              && position == (if owed == [] then head else old(position))
    {
      var lo, hi := position.revision, head.revision;
      ghost var whole := Whole(kinds, session);
      if lo >= hi {
        NothingDue(db, whole, lo, hi);
        exhausted, position := true, head;
        return;
      }
      var cut := PageCut(db, kinds, session, lo, hi, batch);
      CutPage(db, whole, lo, hi, batch);
      if cut == None {
        exhausted, position := true, head;
        return;
      }
      PendingMeaning(db, whole, lo, hi);
      TakenInRange(db, whole, lo, hi, Pending(db, whole, lo, hi), batch);
      buffer := ReadRows(db, kinds, session, lo, cut.value, batch);
    }

    method Next(db: Db) returns (c: Option<Change>)
      requires Valid() && Wf(db)
      modifies this
      ensures Valid()
      ensures Pulled(old(At()), old(Owed(db)), batch, head, c, At())
    {
      if buffer == [] && !exhausted {
        Fill(db);
      }
      if buffer == [] {
        return None;
      }
      var first := buffer[0];
      buffer := buffer[1..];
      position := Watermark(first.revision, head.epoch);
      return Some(first);
    }
  }

  lemma NothingDue(db: Db, f: Filter, lo: nat, hi: nat)
    requires lo >= hi
    ensures Pending(db, f, lo, hi) == []
  {
    assert DueSet(db, f, lo, hi) == {};
  }

  lemma TakenInRange(db: Db, f: Filter, lo: nat, hi: nat, owed: seq<Change>, n: nat)
    requires Owes(db, f, lo, hi, owed)
    ensures forall c | c in Take(owed, n) :: c in owed && lo < c.revision <= hi
  {
  }

  /** The page `(lo, cut]` is exactly the first `batch` changes owed. */
  lemma CutPage(db: Db, f: Filter, lo: nat, hi: nat, batch: nat)
    requires Wf(db) && 0 < batch
    ensures var cut, owed := CutOf(db, f, lo, hi, batch), Pending(db, f, lo, hi);
            && (cut == None <==> owed == [])
            && (cut.Some? ==> Pending(db, f, lo, cut.value) == Take(owed, batch)
                              && |DueSet(db, f, lo, cut.value)| <= batch)
  {
    var owed := Pending(db, f, lo, hi);
    CutIs(db, f, lo, hi, batch);
    if |owed| >= batch {
      PendingPrefix(db, f, lo, hi, batch);
    }
  }

  lemma CutIs(db: Db, f: Filter, lo: nat, hi: nat, batch: nat)
    requires Wf(db) && 0 < batch
    ensures var owed := Pending(db, f, lo, hi);
            CutOf(db, f, lo, hi, batch) ==
              if owed == [] then None else if |owed| < batch then Some(hi) else Some(owed[batch - 1].revision)
  {
  }

  // ----- one page

  ghost predicate MovesOn(view: nat -> Store, i: nat) {
    Evolves(view(i).db, view(i + 1).db)
  }

  /** Later views of the store are later states of it. */
  ghost predicate Timeline(view: nat -> Store) {
    && (forall i :: Wf(view(i).db))
    && (forall i {:trigger MovesOn(view, i)} :: MovesOn(view, i))
  }

  lemma {:induction false} Later(view: nat -> Store, i: nat, j: nat)
    requires Timeline(view) && i <= j
    ensures Evolves(view(i).db, view(j).db)
    decreases j - i
  {
    var moved := MovesOn(view, i);
    if i < j {
      Later(view, i + 1, j);
      EvolvesTransitive(view(i).db, view(i + 1).db, view(j).db);
    }
  }

  /** A later state owes nothing new below an earlier head. */
  lemma LaterOwesLess(a: Db, b: Db, f: Filter, lo: nat, mid: nat, hi: nat, p: seq<Change>, q: seq<Change>)
    requires Evolves(a, b) && lo <= mid && hi <= a.clock
    requires Owes(a, f, lo, hi, p) && Owes(b, f, mid, hi, q)
    ensures forall c | c in q :: c in p && c.revision > mid
  {
  }

  /** Past the last change owed, nothing is owed, then or later. */
  lemma NothingAfterLast(a: Db, b: Db, f: Filter, lo: nat, hi: nat, p: seq<Change>, last: nat)
    requires Wf(b) && Evolves(a, b) && hi <= a.clock && lo <= last
    requires Owes(a, f, lo, hi, p) && forall c | c in p :: c.revision <= last
    ensures Pending(b, f, last, hi) == []
  {
    var q := Pending(b, f, last, hi);
    PendingMeaning(b, f, last, hi);
    LaterOwesLess(a, b, f, lo, last, hi, p, q);
    NoMember(q);
  }

  lemma NoMember(q: seq<Change>)
    requires forall c: Change :: c !in q
    ensures q == []
  {
    if q != [] { FirstOf(q); }
  }

  datatype Page = Page(changes: seq<Change>, position: Watermark, head: Watermark, done: bool, consumer: Option<string>)

  function LastOf(start: Watermark, changes: seq<Change>): Watermark {
    if changes == [] then start else Watermark(changes[|changes| - 1].revision, start.epoch)
  }

  /** The first `limit` changes the store owes the opened drain. */
  function FirstOwed(db: Db, o: Opened, limit: nat): seq<Change> {
    Take(Pending(db, Whole(o.kinds, o.session), o.start.revision, o.head.revision), limit)
  }

  /** The page that returns `changes`, when what is left past them is judged in `db`. */
  function PageOf(db: Db, o: Opened, changes: seq<Change>): Page {
    var last := LastOf(o.start, changes);
    var done := Pending(db, Whole(o.kinds, o.session), last.revision, o.head.revision) == [];
    Page(changes, if done then o.head else last, o.head, done, o.consumer)
  }

  /** The view that settles `done`: the first pull's below the maximum page, the probe's at it. */
  function SettledAt(limit: nat): nat {
    if limit < MAX_CHANGE_BATCH then 1 else limit + 2
  }

  /** One page, by the views that decide it: opened at the first, read at the second, settled by `SettledAt`. */
  ghost function Read(view: nat -> Store, from: Watermark, query: Query, limit: nat): Result<Page, FeedError>
    requires Timeline(view)
  {
    match Open(view(0), from, query)
    case Err(e) => Err(e)
    case Ok(o) => Ok(PageOf(view(SettledAt(limit)).db, o, FirstOwed(view(1).db, o, limit)))
  }

  /** A drain that has handed out `changes` of what it owed at its first pull and read no further page. */
  ghost predicate Handed(at: Place, batch: nat, owed: seq<Change>, start: Watermark, changes: seq<Change>) {
    && |changes| <= batch && changes <= owed
    && at == Place(LastOf(start, changes), if changes == [] then [] else Take(owed, batch)[|changes|..], false)
  }

  /** A pull hands out the next change owed at the first pull, or ends exactly when there was none. */
  lemma HandsNext(was: Place, now: Place, c: Option<Change>, batch: nat, head: Watermark,
                  owed: seq<Change>, left: seq<Change>, start: Watermark, changes: seq<Change>)
    requires Handed(was, batch, owed, start, changes) && (|changes| < batch || |owed| <= batch)
    requires start.epoch == head.epoch && 0 < batch
    requires Pulled(was, left, batch, head, c, now)
    requires changes == [] ==> left == owed
    requires changes != [] && changes == owed ==> left == []
    ensures if |changes| < |owed|
            then c == Some(owed[|changes|]) && Handed(now, batch, owed, start, changes + [owed[|changes|]])
            else c == None && changes == owed && now.position == head
  {
    var page := Take(owed, batch);
    if |changes| < |owed| {
      assert (changes + [owed[|changes|]]) == owed[..|changes| + 1];
      if changes == [] {
        assert page[1..] == Take(owed, batch)[|changes| + 1..];
      } else {
        assert page[|changes|..][1..] == page[|changes| + 1..];
      }
    }
  }

  method Pull(d: Changes, first: Db, now: Db, ghost owed: seq<Change>, ghost start: Watermark, ghost changes: seq<Change>)
    returns (next: Option<Change>)
    requires Wf(first) && Wf(now) && Evolves(first, now) && d.head.revision <= first.clock && d.Valid()
    requires start.epoch == d.head.epoch && (changes == [] ==> now == first)
    requires owed == Pending(first, Whole(d.kinds, d.session), start.revision, d.head.revision)
    requires Handed(d.At(), d.batch, owed, start, changes) && (|changes| < d.batch || |owed| <= d.batch)
    modifies d
    ensures d.Valid()
    ensures if |changes| < |owed|
            then next == Some(owed[|changes|]) && Handed(d.At(), d.batch, owed, start, changes + [owed[|changes|]])
            else next == None && changes == owed && d.position == d.head
  {
    ghost var was, left := d.At(), d.Owed(now);
    if changes != [] && changes == owed {
      NothingMore(first, now, Whole(d.kinds, d.session), start, d.head.revision, owed);
    }
    next := d.Next(now);
    HandsNext(was, d.At(), next, d.batch, d.head, owed, left, start, changes);
  }

  lemma NothingMore(first: Db, now: Db, f: Filter, start: Watermark, hi: nat, owed: seq<Change>)
    requires Wf(first) && Wf(now) && Evolves(first, now) && hi <= first.clock && owed != []
    requires owed == Pending(first, f, start.revision, hi)
    ensures Pending(now, f, LastOf(start, owed).revision, hi) == []
  {
    PendingMeaning(first, f, start.revision, hi);
    LastIsGreatest(owed);
    NothingAfterLast(first, now, f, start.revision, hi, owed, LastOf(start, owed).revision);
  }

  lemma LastIsGreatest(s: seq<Change>)
    requires Ordered(s) && s != []
    ensures forall c | c in s :: c.revision <= s[|s| - 1].revision
    ensures s[|s| - 1] in s
  {
  }

  /** Pull until the page is full or the drain ends. */
  method TakeUpTo(drain: Changes, view: nat -> Store, limit: nat, ghost owed: seq<Change>, ghost start: Watermark)
    returns (changes: seq<Change>)
    requires Timeline(view) && 1 <= limit <= drain.batch && drain.Valid() && drain.head.revision <= view(0).db.clock
    requires start.epoch == drain.head.epoch && drain.At() == Place(start, [], false)
    requires owed == Pending(view(1).db, Whole(drain.kinds, drain.session), start.revision, drain.head.revision)
    modifies drain
    ensures drain.Valid() && changes == Take(owed, limit)
    ensures if |owed| < limit then drain.position == drain.head
            else Handed(drain.At(), drain.batch, owed, start, changes)
  {
    Later(view, 0, 1);
    changes := [];
    while |changes| < limit
      invariant drain.Valid() && |changes| <= limit
      invariant Handed(drain.At(), drain.batch, owed, start, changes)
      decreases limit - |changes|
    {
      Later(view, 1, |changes| + 1);
      var next := Pull(drain, view(1).db, view(|changes| + 1).db, owed, start, changes);
      match next
      case Some(change) => changes := changes + [change];
      case None => return;
    }
  }

  /** Whether a one-row drain from `position`, under the page's filters and no cursor, finds nothing up to `head`. */
  method Probe(opening: Store, reading: Store, position: Watermark, filters: Query, head: Watermark, ghost o: Opened)
    returns (done: bool)
    requires Wf(opening.db) && Wf(reading.db) && position.revision <= head.revision <= opening.db.clock
    requires position.epoch == opening.db.epoch && filters.consumer == None
    requires filters.session == o.session && Normalize(filters.kinds) == o.kinds
    requires o.session.Some? ==> o.session.value.source != "" && o.session.value.session != ""
    ensures done == (Pending(reading.db, Whole(o.kinds, o.session), position.revision, head.revision) == [])
  {
    var again := Open(opening, position, filters.(batch := 1));
    var probe := new Changes(again.value);
    ProbeSees(reading.db, Whole(o.kinds, o.session), position.revision, head.revision, again.value.head.revision);
    var next := probe.Next(reading.db);
    done := !(next.Some? && next.value.revision <= head.revision);
  }

  /** A full page below the maximum: whether the drain has anything more decides `done`. */
  method LookAhead(drain: Changes, view: nat -> Store, limit: nat, ghost owed: seq<Change>, ghost start: Watermark, ghost changes: seq<Change>)
    returns (position: Watermark, done: bool)
    requires Timeline(view) && drain.Valid() && drain.head.revision <= view(0).db.clock && start.epoch == drain.head.epoch
    requires owed == Pending(view(1).db, Whole(drain.kinds, drain.session), start.revision, drain.head.revision)
    requires 1 <= limit < drain.batch && |changes| == limit && Handed(drain.At(), drain.batch, owed, start, changes)
    modifies drain
    ensures done == (|owed| <= limit) && position == if done then drain.head else LastOf(start, changes)
  {
    Later(view, 0, 1);
    Later(view, 1, limit + 1);
    position := drain.position;
    var beyond := Pull(drain, view(1).db, view(limit + 1).db, owed, start, changes);
    if beyond == None {
      return drain.position, true;
    }
    done := false;
  }

  /** Where a page ends, and whether anything is left past it. */
  method Settle(drain: Changes, view: nat -> Store, limit: nat, changes: seq<Change>, filters: Query,
                ghost owed: seq<Change>, ghost o: Opened)
    returns (position: Watermark, done: bool)
    requires Timeline(view) && 1 <= limit <= MAX_CHANGE_BATCH && drain.Valid()
    requires drain.kinds == o.kinds && drain.session == o.session && drain.head == o.head == Head(view(0).db)
    requires drain.batch == if limit < MAX_CHANGE_BATCH then limit + 1 else limit
    requires o.start.revision <= o.head.revision && o.start.epoch == o.head.epoch
    requires filters.consumer == None && filters.session == o.session && Normalize(filters.kinds) == o.kinds
    requires o.session.Some? ==> o.session.value.source != "" && o.session.value.session != ""
    requires owed == Pending(view(1).db, Whole(o.kinds, o.session), o.start.revision, o.head.revision)
    requires changes == Take(owed, limit)
    requires if |owed| < limit then drain.position == drain.head
             else Handed(drain.At(), drain.batch, owed, o.start, changes)
    modifies drain
    ensures var last := LastOf(o.start, changes);
            && done == (Pending(view(SettledAt(limit)).db, Whole(o.kinds, o.session), last.revision, o.head.revision) == [])
            && position == if done then o.head else last
  {
    PageEnds(view, o, limit, owed);
    if |changes| < limit {
      return drain.position, true;
    }
    if limit < MAX_CHANGE_BATCH {
      position, done := LookAhead(drain, view, limit, owed, o.start, changes);
    } else {
      // At the maximum a second drain looks instead, under the same filters.
      Later(view, 0, limit + 1);
      done := Probe(view(limit + 1), view(limit + 2), drain.position, filters, drain.head, o);
      position := if done then drain.head else drain.position;
    }
  }

  method ReadPage(view: nat -> Store, from: Watermark, query: Query, filters: Query, limit: nat)
    returns (r: Result<Page, FeedError>)
    requires Timeline(view) && 1 <= limit <= MAX_CHANGE_BATCH
    requires query.batch == limit + 1 && filters == query.(consumer := None, batch := 0)
    ensures r == Read(view, from, query, limit)
  {
    var answer := Open(view(0), from, query);
    if answer.Err? {
      return Err(answer.error);
    }
    var drain := new Changes(answer.value);
    ghost var o := answer.value;
    ghost var owed := Pending(view(1).db, Whole(o.kinds, o.session), o.start.revision, o.head.revision);
    var changes := TakeUpTo(drain, view, limit, owed, o.start);
    var position, done := Settle(drain, view, limit, changes, filters, owed, o);
    r := Ok(Page(changes, position, drain.head, done, drain.consumer));
  }

  /** When the first view owes no more than the page, no later view below the head owes anything past it. */
  lemma PageEnds(view: nat -> Store, o: Opened, limit: nat, owed: seq<Change>)
    requires Timeline(view) && o.start.revision <= o.head.revision <= view(0).db.clock && 1 <= limit
    requires owed == Pending(view(1).db, Whole(o.kinds, o.session), o.start.revision, o.head.revision)
    ensures var f, last := Whole(o.kinds, o.session), LastOf(o.start, Take(owed, limit)).revision;
            && (|owed| <= limit ==> forall i: nat | 1 <= i :: Pending(view(i).db, f, last, o.head.revision) == [])
            && (|owed| > limit ==> Pending(view(1).db, f, last, o.head.revision) != [])
            && o.start.revision <= last <= o.head.revision
  {
    var f, last := Whole(o.kinds, o.session), LastOf(o.start, Take(owed, limit)).revision;
    Later(view, 0, 1);
    PendingMeaning(view(1).db, f, o.start.revision, o.head.revision);
    LastInRange(view(1).db, f, o.start, o.head.revision, owed, limit);
    if |owed| <= limit {
      if owed != [] { LastIsGreatest(owed); }
      forall i: nat | 1 <= i ensures Pending(view(i).db, f, last, o.head.revision) == [] {
        Later(view, 1, i);
        NothingAfterLast(view(1).db, view(i).db, f, o.start.revision, o.head.revision, owed, last);
      }
    } else {
      PendingMeaning(view(1).db, f, last, o.head.revision);
      hide Pending;
      assert owed[limit] in owed;
      assert owed[limit] in Pending(view(1).db, f, last, o.head.revision);
    }
  }

  lemma LastInRange(db: Db, f: Filter, start: Watermark, hi: nat, owed: seq<Change>, limit: nat)
    requires Owes(db, f, start.revision, hi, owed) && start.revision <= hi && 1 <= limit
    ensures start.revision <= LastOf(start, Take(owed, limit)).revision <= hi
  {
    var page := Take(owed, limit);
    if page != [] {
      assert page[|page| - 1] in owed;
    }
  }

  /** A probe bounded to a later head finds something at or below the page's head exactly when something is left. */
  lemma ProbeSees(db: Db, f: Filter, lo: nat, head: nat, later: nat)
    requires Wf(db) && head <= later
    ensures var found := Pending(db, f, lo, later);
            Pending(db, f, lo, head) != [] <==> found != [] && found[0].revision <= head
  {
    PendingMeaning(db, f, lo, head);
    PendingMeaning(db, f, lo, later);
    ProbeMeets(db, f, lo, head, later, Pending(db, f, lo, head), Pending(db, f, lo, later));
  }

  lemma ProbeMeets(db: Db, f: Filter, lo: nat, head: nat, later: nat, left: seq<Change>, found: seq<Change>)
    requires head <= later && Owes(db, f, lo, head, left) && Owes(db, f, lo, later, found)
    ensures left != [] <==> found != [] && found[0].revision <= head
  {
    if left != [] {
      assert left[0] in left;
      assert left[0] in found;
    }
    if found != [] && found[0].revision <= head {
      assert found[0] in found;
      assert found[0] in left;
    }
  }

  // ----- the two operations

  datatype From = Named(name: string) | Mark(mark: Watermark)

  datatype FeedStart = AtStart | AtConsumer | At(mark: Watermark)

  datatype ChangesArgs = ChangesArgs(from: Option<From>, consumer: Option<string>, kinds: Option<seq<Kind>>,
                                     session: Option<SessionId>, limit: Option<int>)

  /** Unicode white space, which trimming removes. */
  predicate White(c: char) {
    || '\t' <= c <= '\r' || c == ' ' || c == '\U{85}' || c == '\U{A0}' || c == '\U{1680}' || '\U{2000}' <= c <= '\U{200A}'
    || c == '\U{2028}' || c == '\U{2029}' || c == '\U{202F}' || c == '\U{205F}' || c == '\U{3000}'
  }

  /** A name an exact match can look up: not empty and not padded. */
  predicate Identity(name: string) {
    name != "" && !White(name[0]) && !White(name[|name| - 1])
  }

  function ParseFrom(from: Option<From>, consumer: bool): Result<FeedStart, FeedError> {
    match from
    case None => Ok(if consumer then AtConsumer else AtStart)
    case Some(Named(name)) =>
      if name == "start" then Ok(AtStart) else if name == "consumer" then Ok(AtConsumer) else Err(InvalidArgument)
    case Some(Mark(mark)) => Ok(At(mark))
  }

  datatype Asked = Asked(from: FeedStart, filters: Query, limit: nat)

  /** What the arguments ask for, before any database is opened. */
  function Ask(args: ChangesArgs): (r: Result<Asked, FeedError>)
    ensures r.Ok? ==> 1 <= r.value.limit <= MAX_CHANGE_BATCH
    ensures r.Ok? ==> r.value.filters == Query(args.kinds, None, 0, args.session)
  {
    var from := ParseFrom(args.from, args.consumer.Some?);
    var limit := if args.limit.Some? then args.limit.value else DEFAULT_CHANGE_BATCH;
    if args.consumer.Some? && !Identity(args.consumer.value) then Err(InvalidArgument)
    else if from.Err? then Err(from.error)
    else if from.value == AtConsumer && args.consumer.None? then Err(InvalidArgument)
    else if !(1 <= limit <= MAX_CHANGE_BATCH) then Err(InvalidArgument)
    else if args.session.Some? && !(Identity(args.session.value.source) && Identity(args.session.value.session)) then Err(InvalidArgument)
    else Ok(Asked(from.value, Query(args.kinds, None, 0, args.session), limit))
  }

  function QueryFor(consumer: Option<string>, asked: Asked): Query {
    asked.filters.(batch := asked.limit + 1, consumer := consumer)
  }

  function WatermarkOf(from: FeedStart): Watermark {
    match from
    case AtStart => START
    case AtConsumer => CONSUMER
    case At(mark) => mark
  }

  /** `changes`, by the views its page sees; without a database there is nothing to follow. */
  ghost function Answer(args: ChangesArgs, present: bool, view: nat -> Store): Result<Page, FeedError>
    requires Timeline(view)
  {
    match Ask(args)
    case Err(e) => Err(e)
    case Ok(asked) =>
      if !present then Ok(Page([], START, START, true, args.consumer))
      else Read(view, WatermarkOf(asked.from), QueryFor(args.consumer, asked), asked.limit)
  }

  method Dispatch(args: ChangesArgs, present: bool, view: nat -> Store) returns (r: Result<Page, FeedError>)
    requires Timeline(view)
    ensures r == Answer(args, present, view)
  {
    var asked := Ask(args);
    if asked.Err? {
      return Err(asked.error);
    }
    if !present {
      return Ok(Page([], START, START, true, args.consumer));
    }
    r := ReadPage(view, WatermarkOf(asked.value.from), QueryFor(args.consumer, asked.value), asked.value.filters, asked.value.limit);
  }

  // ----- when a request is refused

  /** Arguments that name what they ask for, whatever store there is. */
  predicate WellNamed(args: ChangesArgs) {
    && (args.consumer.Some? ==> Identity(args.consumer.value))
    && (args.session.Some? ==> Identity(args.session.value.source) && Identity(args.session.value.session))
    && (args.from.Some? && args.from.value.Named? ==> args.from.value.name == "start" || args.from.value.name == "consumer")
    && (args.from == Some(Named("consumer")) ==> args.consumer.Some?)
    && (args.limit.Some? ==> 1 <= args.limit.value <= MAX_CHANGE_BATCH)
  }

  /** A request for one session under a cursor, or for a cursor that nothing names. */
  predicate CursorMisused(args: ChangesArgs) {
    || (args.session.Some? && args.consumer.Some?)
    || (args.from == Some(Mark(CONSUMER)) && args.consumer.None?)
  }

  predicate Resumes(args: ChangesArgs) {
    (args.from == None && args.consumer.Some?) || args.from == Some(Named("consumer")) || args.from == Some(Mark(CONSUMER))
  }

  /** The named cursor counts other kinds than are asked for. */
  predicate BoundElsewhere(s: Store, args: ChangesArgs) {
    var cursor := CursorOf(s, args.consumer);
    Resumes(args) && cursor.Some? && cursor.value.kinds != Normalize(args.kinds)
  }

  /** The start is past the head, or is another database's. */
  predicate NotThisStores(s: Store, args: ChangesArgs) {
    var cursor := CursorOf(s, args.consumer);
    if Resumes(args) then cursor.Some? && cursor.value.revision > s.db.clock
    else args.from.Some? && args.from.value.Mark? && args.from.value.mark != START &&
         (args.from.value.mark.epoch != s.db.epoch || args.from.value.mark.revision > s.db.clock)
  }

  /** Exactly when `changes` answers with which error; nothing written later in the read can refuse it. */
  lemma RefusedIff(args: ChangesArgs, present: bool, view: nat -> Store)
    requires Timeline(view)
    ensures var r, s := Answer(args, present, view), view(0);
            && (r == Err(InvalidArgument) <==> !WellNamed(args) || (present && CursorMisused(args)))
            && (r == Err(ConsumerKindsMismatch) <==>
                  WellNamed(args) && present && !CursorMisused(args) && BoundElsewhere(s, args))
            && (r == Err(WatermarkAheadOfStore) <==>
                  WellNamed(args) && present && !CursorMisused(args) && !BoundElsewhere(s, args) && NotThisStores(s, args))
  {
    hide Normalize; hide FirstOwed; hide PageOf; hide White;
    var asked := Ask(args);
    assert WellNamed(args) <==> asked.Ok?;
    if asked.Ok? && present {
      var q := QueryFor(args.consumer, asked.value);
      assert (WatermarkOf(asked.value.from) == CONSUMER) == Resumes(args);
    }
  }

  // ----- what an accepted request is answered with

  /** Where a request starts: at its mark, at the named cursor it resumes, or at the beginning. */
  function StartsAt(s: Store, args: ChangesArgs): nat {
    if Resumes(args) then
      if args.consumer.Some? && args.consumer.value in s.cursors then s.cursors[args.consumer.value].revision else 0
    else if args.from.Some? && args.from.value.Mark? then args.from.value.mark.revision
    else 0
  }

  function LimitOf(args: ChangesArgs): int {
    if args.limit.Some? then args.limit.value else DEFAULT_CHANGE_BATCH
  }

  /**
   The page an accepted request gets, told by the request and the views alone: the first changes owed from where the request
   starts up to the head as it was opened; done, and moved to that head, exactly when nothing is left past them.
   */
  lemma AnsweredFromItsStart(args: ChangesArgs, view: nat -> Store)
    requires Timeline(view) && Answer(args, true, view).Ok?
    ensures 1 <= LimitOf(args) <= MAX_CHANGE_BATCH
    ensures var page, limit, head := Answer(args, true, view).value, LimitOf(args), view(0).db.clock;
            var f, start, epoch := Whole(Normalize(args.kinds), args.session), StartsAt(view(0), args), view(0).db.epoch;
            var last := if page.changes == [] then start else page.changes[|page.changes| - 1].revision;
            && start <= head && page.head == Watermark(head, epoch) && page.consumer == args.consumer
            && page.changes == Take(Pending(view(1).db, f, start, head), limit)
            && (page.done <==> Pending(view(SettledAt(limit)).db, f, last, head) == [])
            && page.position == Watermark(if page.done then head else last, epoch)
  {
    var o := OpensAt(args, view(0));
    hide Normalize; hide Pending; hide Ask; hide Open; hide StartsAt;
    assert Answer(args, true, view).value == PageOf(view(SettledAt(LimitOf(args))).db, o, FirstOwed(view(1).db, o, LimitOf(args)));
  }

  lemma OpensAt(args: ChangesArgs, s: Store) returns (o: Opened)
    requires Ask(args).Ok? && Open(s, WatermarkOf(Ask(args).value.from), QueryFor(args.consumer, Ask(args).value)).Ok?
    ensures Open(s, WatermarkOf(Ask(args).value.from), QueryFor(args.consumer, Ask(args).value)).value == o
    ensures Ask(args).value.limit == LimitOf(args) && o.head == Head(s.db) && StartsAt(s, args) <= s.db.clock
    ensures o.kinds == Normalize(args.kinds) && o.session == args.session && o.consumer == args.consumer
    ensures o.start == Watermark(StartsAt(s, args), s.db.epoch)
  {
    hide Normalize; hide Identity;
    var asked := Ask(args).value;
    assert (WatermarkOf(asked.from) == CONSUMER) == Resumes(args);
    o := Open(s, WatermarkOf(asked.from), QueryFor(args.consumer, asked)).value;
  }

  /** Without a database a well-named request gets an empty page that is done, and nothing is created. */
  lemma NothingWithoutADatabase(args: ChangesArgs, view: nat -> Store)
    requires Timeline(view) && WellNamed(args)
    ensures Answer(args, false, view) == Ok(Page([], Watermark(0, 0), Watermark(0, 0), true, args.consumer))
  {
    hide White;
  }

  /** A request that resumes is never handed a change its cursor has passed. */
  lemma ResumesPastItsCursor(args: ChangesArgs, view: nat -> Store)
    requires Timeline(view) && Answer(args, true, view).Ok? && Resumes(args)
    requires args.consumer.Some? && args.consumer.value in view(0).cursors
    ensures forall c | c in Answer(args, true, view).value.changes :: c.revision > view(0).cursors[args.consumer.value].revision
  {
    AnsweredFromItsStart(args, view);
    hide Answer;
    var f := Whole(Normalize(args.kinds), args.session);
    PendingMeaning(view(1).db, f, StartsAt(view(0), args), view(0).db.clock);
    TakenInRange(view(1).db, f, StartsAt(view(0), args), view(0).db.clock, Pending(view(1).db, f, StartsAt(view(0), args), view(0).db.clock), LimitOf(args));
  }

  // ----- why the page asks for one row more than it returns

  /** A pull from here reads the store. */
  predicate MustFill(at: Place) {
    at.buffer == [] && !at.exhausted
  }

  /** The pulls of one page: `places[i]` before the `i`-th, which finds the store owing `owed[i]`. */
  ghost predicate PageOfPulls(o: Opened, places: seq<Place>, owed: seq<seq<Change>>, pulled: seq<Option<Change>>) {
    && |places| == |pulled| + 1 && |owed| == |pulled|
    && places[0] == Place(o.start, [], false)
    && (forall i | 0 <= i < |pulled| :: Pulled(places[i], owed[i], o.batch, o.head, pulled[i], places[i + 1]))
  }

  lemma PullsOneMore(was: Place, now: Place, c: Option<Change>, batch: nat, head: Watermark, owed: seq<Change>, left: seq<Change>, start: Watermark, k: nat)
    requires k < |owed| && k < batch && start.epoch == head.epoch && (k == 0 ==> left == owed)
    requires Handed(was, batch, owed, start, owed[..k]) && Pulled(was, left, batch, head, c, now)
    ensures Handed(now, batch, owed, start, owed[..k + 1]) && c == Some(owed[k])
  {
    hide Handed; hide Pulled; hide LastOf;
    HandsNext(was, now, c, batch, head, owed, left, start, owed[..k]);
    assert owed[..k] + [owed[k]] == owed[..k + 1];
  }

  lemma {:induction false} PullsSoFar(o: Opened, places: seq<Place>, owed: seq<seq<Change>>, pulled: seq<Option<Change>>, i: nat)
    requires 0 < o.batch && o.start.epoch == o.head.epoch && PageOfPulls(o, places, owed, pulled)
    requires i <= |pulled| && |pulled| > 0 && i <= |owed[0]| && i <= o.batch
    ensures Handed(places[i], o.batch, owed[0], o.start, owed[0][..i])
    ensures forall k | 0 <= k < i :: pulled[k] == Some(owed[0][k])
  {
    if i == 0 {
      assert owed[0][..0] == [];
    } else {
      hide Handed; hide Pulled;
      PullsSoFar(o, places, owed, pulled, i - 1);
      PullsOneMore(places[i - 1], places[i], pulled[i - 1], o.batch, o.head, owed[0], owed[i - 1], o.start, i - 1);
    }
  }

  /**
   After its first pull a page's own drain reads the store again only when everything owed at the first pull is handed out, or
   at a full maximum page, where the batch cannot grow. So below the maximum the look-ahead's row is never a second read.
   */
  lemma OneFillServesAPage(s: Store, consumer: Option<string>, asked: Asked, places: seq<Place>, owed: seq<seq<Change>>,
                           pulled: seq<Option<Change>>, i: nat)
    requires 1 <= asked.limit <= MAX_CHANGE_BATCH && Open(s, WatermarkOf(asked.from), QueryFor(consumer, asked)).Ok?
    requires PageOfPulls(Open(s, WatermarkOf(asked.from), QueryFor(consumer, asked)).value, places, owed, pulled)
    requires 1 <= i <= asked.limit && i <= |pulled| && i <= |owed[0]|
    ensures MustFill(places[i]) <==> i == |owed[0]| || i == MAX_CHANGE_BATCH
    ensures forall k | 0 <= k < i :: pulled[k] == Some(owed[0][k])
  {
    var o := Open(s, WatermarkOf(asked.from), QueryFor(consumer, asked)).value;
    PullsSoFar(o, places, owed, pulled, i);
  }

  /** One statement: bound to the kind set and the database, forward only, except over exactly the stale cursor seen at open. */
  function CommitCursor(s: Store, name: string, position: Watermark, kinds: seq<Kind>, stale: Option<nat>): Result<Store, FeedError> {
    if position.epoch != s.db.epoch || position.revision > s.db.clock then Err(WatermarkAheadOfStore)
    else if name in s.cursors && s.cursors[name].kinds != kinds then Err(ConsumerKindsMismatch)
    else
      var revision :=
        if name !in s.cursors || stale == Some(s.cursors[name].revision) || s.cursors[name].revision < position.revision
        then position.revision else s.cursors[name].revision;
      Ok(s.(cursors := s.cursors[name := Cursor(revision, kinds)]))
  }

  /** The drain `commit_changes` opens at `position` before it commits. */
  function CommitOpen(s: Store, name: string, kinds: Option<seq<Kind>>, position: Watermark): Result<Opened, FeedError>
  {
    if position == START || position.epoch == 0 then Err(InvalidArgument)
    else Open(s, position, Query(kinds, Some(name), 1, None))
  }

  /** `commit_changes`: a drain is opened in `opening` and committed in `committing`, a later state. */
  function CommitChanges(opening: Store, committing: Store, name: string, kinds: Option<seq<Kind>>, position: Watermark): Result<Store, FeedError> {
    match CommitOpen(opening, name, kinds, position)
    case Err(e) => Err(e)
    case Ok(o) => CommitCursor(committing, name, position, o.kinds, o.stale)
  }

  /** A cursor of that name, if there is one, counts `kinds`. */
  predicate Counts(s: Store, name: string, kinds: Option<seq<Kind>>) {
    name in s.cursors ==> s.cursors[name].kinds == Normalize(kinds)
  }

  /**
   A commit is taken exactly when the position was issued by the store and the cursor counts the same kinds. It writes that one
   cursor: to the position when it is further, or when the cursor stood past the head at opening and has not moved since.
   */
  lemma CommitIff(opening: Store, committing: Store, name: string, kinds: Option<seq<Kind>>, position: Watermark)
    requires Evolves(opening.db, committing.db)
    ensures var r := CommitChanges(opening, committing, name, kinds, position);
            && (r.Ok? <==> position.epoch != 0 && position.epoch == opening.db.epoch && position.revision <= opening.db.clock
                           && Counts(committing, name, kinds))
            && (r == Err(InvalidArgument) <==> position.epoch == 0)
            && (r == Err(ConsumerKindsMismatch) ==> !Counts(committing, name, kinds))
            && (r.Ok? ==>
                  var moved := name !in committing.cursors || committing.cursors[name].revision < position.revision
                               || (name in opening.cursors && opening.cursors[name].revision == committing.cursors[name].revision > opening.db.clock);
                  r.value == committing.(cursors := committing.cursors[name :=
                    Cursor(if moved then position.revision else committing.cursors[name].revision, Normalize(kinds))]))
  {
    hide Normalize;
  }

  /** So the resync of a consumer whose cursor is past the head brings the cursor back to where the resync got. */
  lemma ResyncHeals(s: Store, later: Store, name: string, kinds: Option<seq<Kind>>, position: Watermark)
    requires Evolves(s.db, later.db) && name in s.cursors && s.cursors[name].revision > s.db.clock
    requires name in later.cursors && later.cursors[name] == s.cursors[name] && Counts(s, name, kinds)
    requires position.epoch == s.db.epoch != 0 && position.revision <= s.db.clock
    ensures var r := CommitChanges(s, later, name, kinds, position); r.Ok? && r.value.cursors[name].revision == position.revision
  {
    hide Normalize;
    CommitIff(s, later, name, kinds, position);
  }
}
