/** The process-wide registry of open export snapshots, its reaper, and an export that always closes what it opened. */
module ExportRegistry {
  import opened Wrappers
  import Ordering
  import opened ExportPages

  const MAX_OPEN_EXPORTS: nat := 32
  const MAX_EXPORT_TTL_MS: int := 86_400_000
  const REAPER_MAX_WAIT_MS: int := 1000

  type Open = seq<Snapshot>

  // ----- closing expired snapshots

  function CountExpired(open: Open, now: int): nat {
    if open == [] then 0 else CountExpired(open[..|open| - 1], now) + if Expired(open[|open| - 1], now) then 1 else 0
  }

  function Live(open: Open, now: int): Open {
    if open == [] then []
    else
      var earlier, last := Live(open[..|open| - 1], now), open[|open| - 1];
      if Expired(last, now) then earlier else earlier + [last]
  }

  /** What is left once up to `limit` expired snapshots are closed, oldest entry first. */
  function Kept(open: Open, now: int, limit: nat): Open {
    if open == [] then []
    else
      var init, last := open[..|open| - 1], open[|open| - 1];
      if CountExpired(init, now) < limit && Expired(last, now) then Kept(init, now, limit) else Kept(init, now, limit) + [last]
  }

  /** Closing takes exactly the first expired snapshots, as many as there are or as are allowed, and keeps the others in order. */
  lemma {:induction false} ExpireTakesTheFirst(open: Open, now: int, limit: nat) returns (c: nat)
    ensures c <= |open| && CountExpired(open[..c], now) == Ordering.Lesser(limit, CountExpired(open, now))
    ensures Kept(open, now, limit) == Live(open[..c], now) + open[c..]
    ensures |Kept(open, now, limit)| + Ordering.Lesser(limit, CountExpired(open, now)) == |open|
    decreases |open|
  {
    if open == [] {
      c := 0;
    } else {
      var n := |open| - 1;
      var init := open[..n];
      c := ExpireTakesTheFirst(init, now, limit);
      assert open[..n + 1] == open;
      if CountExpired(init, now) < limit {
        c := n + 1;
        KeptAll(init, now, limit);
        KeptAll(open, now, limit);
        LiveCount(open, now);
      } else {
        assert init[..c] == open[..c] && open[c..] == init[c..] + [open[n]];
      }
    }
  }

  lemma {:induction false} KeptAll(open: Open, now: int, limit: nat)
    requires CountExpired(open, now) <= limit
    ensures Kept(open, now, limit) == Live(open, now)
    decreases |open|
  {
    if open != [] {
      KeptAll(open[..|open| - 1], now, limit);
    }
  }

  lemma {:induction false} LiveCount(open: Open, now: int)
    ensures |Live(open, now)| + CountExpired(open, now) == |open|
    decreases |open|
  {
    if open != [] {
      LiveCount(open[..|open| - 1], now);
    }
  }

  lemma {:induction false} LiveSize(open: Open, now: int)
    ensures |Live(open, now)| + CountExpired(open, now) == |open|
    ensures forall s :: s in Live(open, now) <==> s in open && !Expired(s, now)
    decreases |open|
  {
    if open != [] {
      LiveSize(open[..|open| - 1], now);
      assert open == open[..|open| - 1] + [open[|open| - 1]];
    }
  }

  lemma {:induction false} KeptElements(open: Open, now: int, limit: nat)
    ensures forall s | s in Kept(open, now, limit) :: s in open
    ensures forall s | s in open && !Expired(s, now) :: s in Kept(open, now, limit)
    ensures |Kept(open, now, limit)| <= |open|
    decreases |open|
  {
    if open != [] {
      KeptElements(open[..|open| - 1], now, limit);
      assert open == open[..|open| - 1] + [open[|open| - 1]];
    }
  }

  function Without(open: Open, id: Token): Open {
    if open == [] then []
    else
      var earlier, last := Without(open[..|open| - 1], id), open[|open| - 1];
      if last.id == id then earlier else earlier + [last]
  }

  lemma {:induction false} WithoutElements(open: Open, id: Token)
    ensures forall s :: s in Without(open, id) <==> s in open && s.id != id
    ensures |Without(open, id)| <= |open|
    decreases |open|
  {
    if open != [] {
      WithoutElements(open[..|open| - 1], id);
      assert open == open[..|open| - 1] + [open[|open| - 1]];
    }
  }

  // ----- the operations

  datatype Op =
    | Create(id: Token, cursor: Token, ttl: int, limits: Limits, view: seq<Item>, now: int)
    | ReadNext(cursor: Token, now: int, issued: Token)
    | Close(id: Token)
    | ExpireSome(now: int, limit: int)
    | Reap(now: int)

  function Opened(op: Op): Snapshot
    requires op.Create?
  {
    Snapshot(op.id, op.now + op.ttl, op.limits, op.view, Some(op.cursor), None)
  }

  predicate ValidClock(op: Op)
    requires op.Create?
  {
    1 <= op.ttl <= MAX_EXPORT_TTL_MS && op.now >= 0
  }

  ghost predicate NoOwner(open: Open, cursor: Token) {
    forall i | 0 <= i < |open| :: !OwnsCursor(open[i], cursor)
  }

  /** The first snapshot that owns the cursor. */
  ghost predicate FirstOwner(open: Open, cursor: Token, i: nat) {
    i < |open| && OwnsCursor(open[i], cursor) && forall j | 0 <= j < i :: !OwnsCursor(open[j], cursor)
  }

  /** What an operation may do to the registry. */
  ghost predicate Moves(open: Open, op: Op, after: Open) {
    match op
    case Create(_, _, _, _, _, now) =>
      if !ValidClock(op) then after == open
      else
        var live := Live(open, now);
        after == if |live| < MAX_OPEN_EXPORTS then live + [Opened(op)] else live
    case ReadNext(cursor, now, issued) =>
      if NoOwner(open, cursor) then after == open
      else exists i: nat :: FirstOwner(open, cursor, i) && Reads(open, cursor, now, issued, i, after)
    case Close(id) => after == Without(open, id)
    case ExpireSome(now, limit) => after == if 1 <= limit <= MAX_OPEN_EXPORTS then Kept(open, now, limit) else open
    case Reap(now) => after == Live(open, now)
  }

  /** A read of snapshot `i`: gone if it has expired; unmoved if no page can be served; else moved on, and expired ones closed. */
  ghost predicate Reads(open: Open, cursor: Token, now: int, issued: Token, i: nat, after: Open)
    requires i < |open|
  {
    if Expired(open[i], now) then after == open[..i] + open[i + 1..]
    else if !CanServe(open[i], cursor) then after == open
    else exists page, s :: Serves(open[i], cursor, issued, page, s) && after == Kept(open[i := s], now, MAX_OPEN_EXPORTS)
  }

  /** The page comes from the first snapshot that owns the cursor, which has not expired. */
  ghost predicate ServedFrom(open: Open, op: Op, i: nat, page: Page, s: Snapshot, after: Open)
    requires op.ReadNext?
  {
    && FirstOwner(open, op.cursor, i) && !Expired(open[i], op.now)
    && Serves(open[i], op.cursor, op.issued, page, s) && after == Kept(open[i := s], op.now, MAX_OPEN_EXPORTS)
  }

  datatype Reply = Handle(id: Token, cursor: Token) | Served(page: Page) | Closed(count: nat) | Refused(why: Refusal) | InvalidClock | InvalidLimit | Nothing

  /** How each operation answers, told by the registry it found. */
  ghost predicate Answers(open: Open, op: Op, r: Reply) {
    match op
    case Create(id, cursor, _, _, _, now) =>
      r == if !ValidClock(op) then InvalidClock else if |Live(open, now)| < MAX_OPEN_EXPORTS then Handle(id, cursor) else Refused(TooManyOpen)
    case ReadNext(cursor, now, _) =>
      && !r.Handle?
      && (r == Refused(CursorNotFound) <==> NoOwner(open, cursor))
      && (r == Refused(SnapshotExpired) <==> exists i: nat :: FirstOwner(open, cursor, i) && Expired(open[i], now))
      && (r.Served? <==> exists i: nat :: FirstOwner(open, cursor, i) && !Expired(open[i], now) && CanServe(open[i], cursor))
    case Close(_) => r == Nothing
    case ExpireSome(now, limit) =>
      r == if 1 <= limit <= MAX_OPEN_EXPORTS then Closed(Ordering.Lesser(limit, CountExpired(open, now))) else InvalidLimit
    case Reap(now) => r == Closed(CountExpired(open, now))
  }

  /** When the reaper looks again: at the earliest expiry but within a second, or, with none open, only once it is woken. */
  function Wait(open: Open, now: int): Option<int> {
    if open == [] then None
    else
      var earliest := Earliest(open);
      Some(if earliest - now < 1 then 1 else if earliest - now > REAPER_MAX_WAIT_MS then REAPER_MAX_WAIT_MS else earliest - now)
  }

  function Earliest(open: Open): int
    requires open != []
  {
    if |open| == 1 then open[0].expiresAt
    else
      var earlier, last := Earliest(open[..|open| - 1]), open[|open| - 1].expiresAt;
      if last < earlier then last else earlier
  }

  class Registry {
    var open: Open

    /** No more snapshots are open than may be. */
    ghost predicate Valid()
      reads this
    {
      |open| <= MAX_OPEN_EXPORTS
    }

    constructor ()
      ensures Valid() && open == []
    {
      open := [];
    }

    method Expire(now: int, limit: nat) returns (closed: nat)
      modifies this
      ensures open == Kept(old(open), now, limit) && closed == Ordering.Lesser(limit, CountExpired(old(open), now))
    {
      var was, kept: Open := open, [];
      closed := 0;
      for i := 0 to |was|
        invariant kept == Kept(was[..i], now, limit) && closed == Ordering.Lesser(limit, CountExpired(was[..i], now))
        invariant open == was
      {
        assert was[..i + 1][..i] == was[..i];
        if closed < limit && Expired(was[i], now) {
          closed := closed + 1;
        } else {
          kept := kept + [was[i]];
        }
      }
      assert was[..|was|] == was;
      open := kept;
    }

    method ExpireAll(now: int) returns (closed: nat)
      modifies this
      ensures open == Live(old(open), now) && closed == CountExpired(old(open), now)
    {
      LiveSize(open, now);
      KeptAll(open, now, |open|);
      closed := Expire(now, |open|);
    }

    method CreateExport(op: Op) returns (r: Reply)
      requires op.Create? && Valid()
      modifies this
      ensures Valid() && Moves(old(open), op, open) && Answers(old(open), op, r)
      ensures r.Handle? ==> r == Handle(op.id, op.cursor) && open == Live(old(open), op.now) + [Opened(op)]
      ensures !r.Served? && (!r.Handle? ==> forall t | t in open :: t in old(open))
    {
      if !ValidClock(op) {
        return InvalidClock;
      }
      LiveSize(open, op.now);
      var closed := ExpireAll(op.now);
      if |open| >= MAX_OPEN_EXPORTS {
        return Refused(TooManyOpen);
      }
      open := open + [Opened(op)];
      return Handle(op.id, op.cursor);
    }

    method ExportPage(op: Op) returns (r: Reply)
      requires op.ReadNext? && Valid()
      modifies this
      ensures Valid() && Moves(old(open), op, open) && Answers(old(open), op, r)
      ensures r.Served? ==> exists i: nat, s :: ServedFrom(old(open), op, i, r.page, s, open)
    {
      var i := 0;
      while i < |open| && !OwnsCursor(open[i], op.cursor)
        invariant i <= |open| && forall j | 0 <= j < i :: !OwnsCursor(open[j], op.cursor)
      {
        i := i + 1;
      }
      if i == |open| {
        return Refused(CursorNotFound);
      }
      assert FirstOwner(open, op.cursor, i);
      assert forall j: nat | FirstOwner(open, op.cursor, j) :: j == i;
      if Expired(open[i], op.now) {
        open := open[..i] + open[i + 1..];
        return Refused(SnapshotExpired);
      }
      var served := ServePage(open[i], op.cursor, op.now, op.issued);
      if served.Err? {
        return Refused(served.error);
      }
      var (page, s) := served.value;
      ghost var was := open;
      KeptElements(open[i := s], op.now, MAX_OPEN_EXPORTS);
      open := open[i := s];
      var closed := Expire(op.now, MAX_OPEN_EXPORTS);
      assert ServedFrom(was, op, i, page, s, open);
      return Served(page);
    }

    method Retain(id: Token)
      modifies this
      ensures open == Without(old(open), id)
    {
      var was, kept: Open := open, [];
      for i := 0 to |was|
        invariant kept == Without(was[..i], id) && open == was
      {
        assert was[..i + 1][..i] == was[..i];
        if was[i].id != id {
          kept := kept + [was[i]];
        }
      }
      assert was[..|was|] == was;
      open := kept;
    }

    /** One operation, under the lock. A page is never served from a snapshot expired at that call. */
    method Perform(op: Op) returns (r: Reply)
      requires Valid()
      modifies this
      ensures Valid() && Moves(old(open), op, open) && Answers(old(open), op, r)
      ensures r.Served? ==> op.ReadNext? && exists i: nat, s :: ServedFrom(old(open), op, i, r.page, s, open)
      ensures op.Create? && !r.Handle? ==> forall t | t in open :: t in old(open)
      ensures r.Handle? ==> op.Create? && r == Handle(op.id, op.cursor) && open == Live(old(open), op.now) + [Opened(op)]
    {
      match op {
        case Create(_, _, _, _, _, _) => r := CreateExport(op);
        case ReadNext(_, _, _) => r := ExportPage(op);
        case Close(id) =>
          WithoutElements(open, id);
          Retain(id);
          r := Nothing;
        case ExpireSome(now, limit) =>
          if !(1 <= limit <= MAX_OPEN_EXPORTS) {
            return InvalidLimit;
          }
          KeptElements(open, now, limit);
          var closed := Expire(now, limit);
          r := Closed(closed);
        case Reap(now) =>
          LiveSize(open, now);
          var closed := ExpireAll(now);
          r := Closed(closed);
      }
    }

    /** Any interleaving of clients and the reaper. */
    method PerformAll(ops: seq<Op>)
      requires Valid()
      modifies this
      ensures Valid() && |open| <= 32
    {
      for i := 0 to |ops|
        invariant Valid()
      {
        var r := Perform(ops[i]);
      }
    }
  }

  // ----- one client among others

  function CountId(open: Open, id: Token): nat {
    if open == [] then 0 else CountId(open[..|open| - 1], id) + if open[|open| - 1].id == id then 1 else 0
  }

  lemma {:induction false} CountAppend(a: Open, b: Open, id: Token)
    ensures CountId(a + b, id) == CountId(a, id) + CountId(b, id)
    decreases |b|
  {
    if b == [] {
      assert a + b == a;
    } else {
      assert (a + b)[..|a + b| - 1] == a + b[..|b| - 1];
      CountAppend(a, b[..|b| - 1], id);
    }
  }

  lemma {:induction false} CountKept(open: Open, now: int, limit: nat, id: Token)
    ensures CountId(Kept(open, now, limit), id) <= CountId(open, id)
    decreases |open|
  {
    if open != [] {
      CountKept(open[..|open| - 1], now, limit, id);
      CountAppend(Kept(open[..|open| - 1], now, limit), [open[|open| - 1]], id);
    }
  }

  lemma {:induction false} CountWithout(open: Open, id: Token, other: Token)
    ensures CountId(Without(open, other), id) <= CountId(open, id)
    decreases |open|
  {
    if open != [] {
      CountWithout(open[..|open| - 1], id, other);
      CountAppend(Without(open[..|open| - 1], other), [open[|open| - 1]], id);
    }
  }

  lemma {:induction false} CountUpdate(open: Open, i: nat, s: Snapshot, id: Token)
    requires i < |open| && s.id == open[i].id
    ensures CountId(open[i := s], id) == CountId(open, id)
    decreases |open|
  {
    var n := |open| - 1;
    if i < n {
      assert open[i := s][..n] == open[..n][i := s];
      CountUpdate(open[..n], i, s, id);
    } else {
      assert open[i := s][..n] == open[..n];
    }
  }

  lemma CountRemoved(open: Open, i: nat, id: Token)
    requires i < |open|
    ensures CountId(open[..i] + open[i + 1..], id) <= CountId(open, id)
  {
    assert open == open[..i] + ([open[i]] + open[i + 1..]);
    CountAppend(open[..i], [open[i]] + open[i + 1..], id);
    CountAppend([open[i]], open[i + 1..], id);
    CountAppend(open[..i], open[i + 1..], id);
  }

  /** `s` is the only snapshot of its id, if it is still open, and no other owns a cursor of `mine`. */
  ghost predicate Mine(open: Open, s: Snapshot, mine: iset<Token>) {
    && CountId(open, s.id) <= 1
    && (forall c :: OwnsCursor(s, c) ==> c in mine)
    && (forall t | t in open && t.id == s.id :: t == s)
    && (forall t, c | t in open && t.id != s.id && c in mine :: !OwnsCursor(t, c))
  }

  /** An operation of somebody else: it names neither this snapshot nor a cursor of it, and is issued none. */
  ghost predicate Foreign(op: Op, id: Token, mine: iset<Token>) {
    match op
    case Create(other, cursor, _, _, _, _) => other != id && cursor !in mine
    case ReadNext(cursor, _, issued) => cursor !in mine && issued !in mine
    case Close(other) => other != id
    case ExpireSome(_, _) => true
    case Reap(_) => true
  }

  lemma FewerIsMine(open: Open, after: Open, s: Snapshot, mine: iset<Token>)
    requires Mine(open, s, mine) && CountId(after, s.id) <= CountId(open, s.id) && forall t | t in after :: t in open
    ensures Mine(after, s, mine)
  {
    hide CountId;
    hide OwnsCursor;
  }

  lemma LiveIsMine(open: Open, now: int, s: Snapshot, mine: iset<Token>)
    requires Mine(open, s, mine)
    ensures Mine(Live(open, now), s, mine)
  {
    LiveSize(open, now);
    KeptAll(open, now, |open|);
    CountKept(open, now, |open|, s.id);
    FewerIsMine(open, Live(open, now), s, mine);
  }

  lemma KeptIsMine(open: Open, now: int, limit: nat, s: Snapshot, mine: iset<Token>)
    requires Mine(open, s, mine)
    ensures Mine(Kept(open, now, limit), s, mine)
  {
    KeptElements(open, now, limit);
    CountKept(open, now, limit, s.id);
    FewerIsMine(open, Kept(open, now, limit), s, mine);
  }

  lemma AddedIsMine(open: Open, t: Snapshot, s: Snapshot, mine: iset<Token>)
    requires Mine(open, s, mine) && t.id != s.id && forall c | c in mine :: !OwnsCursor(t, c)
    ensures Mine(open + [t], s, mine)
  {
    CountAppend(open, [t], s.id);
    hide OwnsCursor;
  }

  lemma RemovedIsMine(open: Open, i: nat, s: Snapshot, mine: iset<Token>)
    requires Mine(open, s, mine) && i < |open|
    ensures Mine(open[..i] + open[i + 1..], s, mine)
  {
    CountRemoved(open, i, s.id);
    FewerIsMine(open, open[..i] + open[i + 1..], s, mine);
  }

  lemma MovedIsMine(open: Open, i: nat, t: Snapshot, s: Snapshot, mine: iset<Token>)
    requires Mine(open, s, mine) && i < |open| && open[i].id == t.id != s.id && forall c | c in mine :: !OwnsCursor(t, c)
    ensures Mine(open[i := t], s, mine)
  {
    CountUpdate(open, i, t, s.id);
    hide OwnsCursor;
    hide CountId;
  }

  /** Whatever others do, this snapshot is as it was or gone. */
  lemma ForeignKeeps(open: Open, op: Op, after: Open, s: Snapshot, mine: iset<Token>)
    requires Mine(open, s, mine) && Foreign(op, s.id, mine) && Moves(open, op, after)
    ensures Mine(after, s, mine)
  {
    match op {
      case Create(_, _, _, _, _, now) =>
        LiveIsMine(open, now, s, mine);
        AddedIsMine(Live(open, now), Opened(op), s, mine);
      case ReadNext(cursor, now, issued) =>
        if !NoOwner(open, cursor) {
          var i: nat :| FirstOwner(open, cursor, i) && Reads(open, cursor, now, issued, i, after);
          ForeignRead(open, op, i, after, s, mine);
        }
      case Close(id) =>
        WithoutElements(open, id);
        CountWithout(open, s.id, id);
        FewerIsMine(open, after, s, mine);
      case ExpireSome(now, limit) =>
        if 1 <= limit <= MAX_OPEN_EXPORTS { KeptIsMine(open, now, limit, s, mine); }
      case Reap(now) => LiveIsMine(open, now, s, mine);
    }
  }

  lemma ForeignRead(open: Open, op: Op, i: nat, after: Open, s: Snapshot, mine: iset<Token>)
    requires op.ReadNext? && Mine(open, s, mine) && Foreign(op, s.id, mine)
    requires FirstOwner(open, op.cursor, i) && Reads(open, op.cursor, op.now, op.issued, i, after)
    ensures Mine(after, s, mine)
  {
    assert open[i] in open;
    RemovedIsMine(open, i, s, mine);
    if !Expired(open[i], op.now) && after != open {
      var page, t :| Serves(open[i], op.cursor, op.issued, page, t) && after == Kept(open[i := t], op.now, MAX_OPEN_EXPORTS);
      MovedIsMine(open, i, t, s, mine);
      KeptIsMine(open[i := t], op.now, MAX_OPEN_EXPORTS, s, mine);
    }
  }

  /** What an operation takes the time to be. */
  function Clock(op: Op): Option<int> {
    match op
    case Create(_, _, _, _, _, now) => Some(now)
    case ReadNext(_, now, _) => Some(now)
    case Close(_) => None
    case ExpireSome(now, _) => Some(now)
    case Reap(now) => Some(now)
  }

  predicate Before(op: Op, time: int) {
    Clock(op).Some? ==> Clock(op).value < time
  }

  /** A snapshot nobody else names stays open while nobody's clock reaches its expiry. */
  lemma ForeignLeavesOpen(open: Open, op: Op, after: Open, s: Snapshot, mine: iset<Token>)
    requires Mine(open, s, mine) && s in open && Foreign(op, s.id, mine) && Moves(open, op, after) && Before(op, s.expiresAt)
    ensures s in after
  {
    match op {
      case Create(_, _, _, _, _, now) => LiveSize(open, now);
      case ReadNext(cursor, now, issued) =>
        if !NoOwner(open, cursor) {
          var i: nat :| FirstOwner(open, cursor, i) && Reads(open, cursor, now, issued, i, after);
          ForeignReadLeavesOpen(open, op, i, after, s, mine);
        }
      case Close(id) => WithoutElements(open, id);
      case ExpireSome(now, limit) => KeptElements(open, now, if limit > 0 then limit else 0);
      case Reap(now) => LiveSize(open, now);
    }
  }

  lemma ForeignReadLeavesOpen(open: Open, op: Op, i: nat, after: Open, s: Snapshot, mine: iset<Token>)
    requires op.ReadNext? && Mine(open, s, mine) && s in open && Foreign(op, s.id, mine) && op.now < s.expiresAt
    requires FirstOwner(open, op.cursor, i) && Reads(open, op.cursor, op.now, op.issued, i, after)
    ensures s in after
  {
    var k :| 0 <= k < |open| && open[k] == s;
    assert k != i;
    if Expired(open[i], op.now) {
      assert after[if k < i then k else k - 1] == s;
    } else if after != open {
      var page, t :| Serves(open[i], op.cursor, op.issued, page, t) && after == Kept(open[i := t], op.now, MAX_OPEN_EXPORTS);
      assert open[i := t][k] == s;
      KeptElements(open[i := t], op.now, MAX_OPEN_EXPORTS);
    }
  }

  /** Asked for with its own cursor before it expires, an open snapshot that can serve does, and stays open. */
  lemma OwnReadIsServed(open: Open, op: Op, r: Reply, s: Snapshot, mine: iset<Token>)
    requires op.ReadNext? && Mine(open, s, mine) && s in open && op.cursor in mine && Answers(open, op, r)
    requires !Expired(s, op.now) && OwnsCursor(s, op.cursor) && CanServe(s, op.cursor)
    ensures r.Served?
  {
    var k: nat :| k < |open| && open[k] == s;
    forall j | 0 <= j < k ensures !OwnsCursor(open[j], op.cursor) {
      if open[j].id == s.id {
        CountedTwice(open, j, k);
      }
      assert open[j] in open;
    }
    assert FirstOwner(open, op.cursor, k);
  }

  lemma ServedStaysOpen(open: Open, op: Op, i: nat, page: Page, t: Snapshot, after: Open)
    requires op.ReadNext? && ServedFrom(open, op, i, page, t, after)
    ensures t in after
  {
    assert open[i := t][i] == t;
    KeptElements(open[i := t], op.now, MAX_OPEN_EXPORTS);
  }

  lemma {:induction false} CountedTwice(open: Open, i: nat, j: nat)
    requires i < j < |open| && open[i].id == open[j].id
    ensures CountId(open, open[i].id) >= 2
    decreases |open|
  {
    var n := |open| - 1;
    if j < n {
      CountedTwice(open[..n], i, j);
    } else {
      CountedOnce(open[..n], i);
    }
  }

  lemma {:induction false} CountedOnce(open: Open, i: nat)
    requires i < |open|
    ensures CountId(open, open[i].id) >= 1
    decreases |open|
  {
    if i < |open| - 1 {
      CountedOnce(open[..|open| - 1], i);
    }
  }

  /** A page asked for with this snapshot's cursor comes from this snapshot, and moves it on. */
  lemma OwnRead(open: Open, op: Op, i: nat, page: Page, t: Snapshot, after: Open, s: Snapshot, mine: iset<Token>)
    requires op.ReadNext? && Mine(open, s, mine) && op.cursor in mine && op.issued in mine
    requires ServedFrom(open, op, i, page, t, after)
    ensures open[i] == s && t.id == s.id && Serves(s, op.cursor, op.issued, page, t) && Mine(after, t, mine)
  {
    assert open[i] in open;
    assert open[i] == s;
    assert t.id == s.id;
    var moved := open[i := t];
    CountUpdate(open, i, t, s.id);
    forall j | 0 <= j < |moved| && moved[j].id == t.id ensures moved[j] == t {
      if i < j {
        CountedTwice(open, i, j);
      } else if j < i {
        CountedTwice(open, j, i);
      }
    }
    hide CountId;
    KeptIsMine(moved, op.now, MAX_OPEN_EXPORTS, t, mine);
  }

  lemma {:induction false} NotCounted(open: Open, id: Token)
    ensures CountId(open, id) == 0 <==> forall t | t in open :: t.id != id
    decreases |open|
  {
    if open != [] {
      NotCounted(open[..|open| - 1], id);
      assert open == open[..|open| - 1] + [open[|open| - 1]];
    }
  }

  /** A snapshot just opened is its client's own. */
  lemma OpensAsMine(open: Open, op: Op, mine: iset<Token>)
    requires op.Create? && op.cursor in mine
    requires forall t | t in open :: t.id != op.id && forall c | c in mine :: !OwnsCursor(t, c)
    ensures Mine(Live(open, op.now) + [Opened(op)], Opened(op), mine)
  {
    LiveSize(open, op.now);
    NotCounted(Live(open, op.now), op.id);
    CountAppend(Live(open, op.now), [Opened(op)], op.id);
    hide CountId;
  }

  lemma {:induction false} EarliestIsLeast(open: Open)
    requires open != []
    ensures (exists s :: s in open && s.expiresAt == Earliest(open)) && forall s | s in open :: Earliest(open) <= s.expiresAt
    decreases |open|
  {
    var n := |open| - 1;
    assert open == open[..n] + [open[n]];
    if n > 0 {
      EarliestIsLeast(open[..n]);
      var s :| s in open[..n] && s.expiresAt == Earliest(open[..n]);
      assert s in open && open[n] in open;
    } else {
      assert open[0] in open;
    }
  }

  /**
   After a sweep the reaper sleeps without a deadline only when nothing is open; else at least a millisecond, at most a second,
   and never past the expiry of a snapshot that is open; and no shorter than one of those two asks for.
   */
  lemma ReaperWakesInTime(open: Open, now: int)
    ensures var left := Live(open, now);
            && (Wait(left, now).None? <==> left == [])
            && (Wait(left, now).Some? ==> 1 <= Wait(left, now).value <= REAPER_MAX_WAIT_MS)
            && (Wait(left, now).Some? ==> forall s | s in left :: now + Wait(left, now).value <= s.expiresAt)
            && (Wait(left, now).Some? ==> Wait(left, now).value == 1000 || exists s :: s in left && now + Wait(left, now).value == s.expiresAt)
  {
    var left := Live(open, now);
    LiveSize(open, now);
    if left != [] {
      EarliestIsLeast(left);
      var s :| s in left && s.expiresAt == Earliest(left);
      assert !Expired(s, now);
    }
  }
}
