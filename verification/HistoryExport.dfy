/** The export a client drives: one snapshot, read page by page and closed whatever happens. */
module HistoryExport {
  import opened Wrappers
  import opened ExportPages
  import opened ExportRegistry

  /**
   What surrounds one export. Between its native calls others act on the registry; each call reads the clock and may be issued a
   cursor; the consumer leaves, or the signal aborts, once `patience` records are taken, if ever.
   */
  datatype Around = Around(others: nat -> seq<Op>, clock: nat -> int, issued: nat -> Token, patience: Option<nat>)

  /** Ids and cursors are drawn at random: no two are the same, and nobody else holds one of these. */
  ghost predicate Private(a: Around, create: Op, mine: iset<Token>)
    requires create.Create?
  {
    && create.cursor in mine && (forall k: nat :: a.issued(k) in mine && a.issued(k) != create.cursor)
    && (forall j: nat, k: nat | j != k :: a.issued(j) != a.issued(k))
    && forall k: nat, op | op in a.others(k) :: Foreign(op, create.id, mine)
  }

  method LetOthers(reg: Registry, ops: seq<Op>, ghost s: Snapshot, ghost mine: iset<Token>)
    requires reg.Valid() && Mine(reg.open, s, mine) && forall op | op in ops :: Foreign(op, s.id, mine)
    modifies reg
    ensures reg.Valid() && Mine(reg.open, s, mine)
    ensures s in old(reg.open) && (forall op | op in ops :: Before(op, s.expiresAt)) ==> s in reg.open
  {
    hide Mine;
    hide Foreign;
    hide Moves;
    hide Answers;
    ghost var stays := s in reg.open && forall op | op in ops :: Before(op, s.expiresAt);
    for i := 0 to |ops|
      invariant reg.Valid() && Mine(reg.open, s, mine) && (stays ==> s in reg.open)
    {
      ghost var was := reg.open;
      var r := reg.Perform(ops[i]);
      ForeignKeeps(was, ops[i], reg.open, s, mine);
      if stays {
        ForeignLeavesOpen(was, ops[i], reg.open, s, mine);
      }
    }
  }

  /** Where an export stands: `s` is its snapshot as last seen, `cursor` the page it asks for next. */
  ghost predicate Under(create: Op, s: Snapshot, cursor: Option<Token>, yielded: seq<Record>, a: Around, k: nat)
    requires create.Create?
  {
    && s.id == create.id && s.cursor == cursor && s.limits == create.limits
    && yielded + Records(s.rest) == Records(create.view)
    && (cursor.None? ==> s.rest == [])
    && (cursor.Some? ==> cursor.value == if k == 0 then create.cursor else a.issued(k - 1))
    && (s.served.Some? ==> k > 0 && s.served.value.0 == if k == 1 then create.cursor else a.issued(k - 2))
  }

  /** One page read through the registry. */
  method ReadOnce(reg: Registry, cursor: Token, now: int, issued: Token, ghost s: Snapshot, ghost mine: iset<Token>) returns (r: Reply, ghost t: Snapshot)
    requires reg.Valid() && Mine(reg.open, s, mine) && cursor in mine && issued in mine
    modifies reg
    ensures reg.Valid()
    ensures r.Served? ==> Mine(reg.open, t, mine) && t.id == s.id && Serves(s, cursor, issued, r.page, t) && t in reg.open
    ensures s in old(reg.open) && !Expired(s, now) && OwnsCursor(s, cursor) && CanServe(s, cursor) ==> r.Served?
  {
    hide Moves;
    hide Mine;
    hide Serves;
    ghost var was := reg.open;
    var op := ReadNext(cursor, now, issued);
    t := s;
    r := reg.Perform(op);
    if s in was && !Expired(s, now) && OwnsCursor(s, cursor) && CanServe(s, cursor) {
      OwnReadIsServed(was, op, r, s, mine);
    }
    if r.Served? {
      ghost var i: nat, moved :| ServedFrom(was, op, i, r.page, moved, reg.open);
      OwnRead(was, op, i, r.page, moved, reg.open, s, mine);
      ServedStaysOpen(was, op, i, r.page, moved, reg.open);
      t := moved;
    }
  }

  /** The page after the ones served: its rows come off the rest. */
  lemma NextPage(s: Snapshot, cursor: Token, issued: Token, page: Page, t: Snapshot) returns (n: nat)
    requires Serves(s, cursor, issued, page, t) && (s.served.Some? ==> s.served.value.0 != cursor)
    requires s.limits.maxScan > 0 && s.limits.maxRecords > 0
    ensures n <= |s.rest| && page.records == Records(s.rest[..n])
    ensures t == s.(rest := s.rest[n..], cursor := page.next, served := Some((cursor, page)))
    ensures page.next.Some? ==> page.next == Some(issued) && n > 0
    ensures page.next.None? ==> n == |s.rest|
  {
    n :| IsPage(s.limits, s.rest, n) && page.records == Records(s.rest[..n])
      && page.next == (if n < |s.rest| || n == s.limits.maxScan || |page.records| == s.limits.maxRecords then Some(issued) else None)
      && (n == 0 ==> s.rest == [] || s.limits.maxScan == 0 || s.limits.maxRecords == 0)
      && t == s.(rest := s.rest[n..], cursor := page.next, served := Some((cursor, page)));
    if n == 0 {
      assert Records(s.rest[..0]) == [];
    }
  }

  lemma CursorsDiffer(a: Around, create: Op, mine: iset<Token>, k: nat)
    requires create.Create? && Private(a, create, mine) && k > 0
    ensures a.issued(k - 1) != if k == 1 then create.cursor else a.issued(k - 2)
  {
  }

  /** A page moves the export on by exactly its records. */
  lemma Advance(create: Op, s: Snapshot, cursor: Token, yielded: seq<Record>, a: Around, k: nat, page: Page, t: Snapshot, mine: iset<Token>)
    requires create.Create? && Private(a, create, mine) && Under(create, s, Some(cursor), yielded, a, k)
    requires create.limits.maxScan > 0 && create.limits.maxRecords > 0
    requires t.id == s.id && Serves(s, cursor, a.issued(k), page, t)
    ensures Under(create, t, page.next, yielded + page.records, a, k + 1)
    ensures page.next.Some? ==> |t.rest| < |s.rest|
    ensures t.expiresAt == s.expiresAt
  {
    hide Serves;
    if k > 0 {
      CursorsDiffer(a, create, mine, k);
    }
    hide Private;
    var n := NextPage(s, cursor, a.issued(k), page, t);
    assert s.rest == s.rest[..n] + s.rest[n..];
    RecordsAppend(s.rest[..n], s.rest[n..]);
    hide Records;
  }

  ghost predicate Prefix(yielded: seq<Record>, all: seq<Record>) {
    |yielded| <= |all| && all[..|yielded|] == yielded
  }

  /** Nothing stands in the way: there is room for the snapshot, every record fits a page, and nobody leaves or runs out of time. */
  ghost predicate Unhindered(open: Open, create: Op, a: Around)
    requires create.Create?
  {
    && 1 <= create.ttl <= 86_400_000 && create.now >= 0 && |Live(open, create.now)| < 32
    && create.limits.envelope < create.limits.maxBytes
    && (forall r | r in Records(create.view) :: Size(create.limits.envelope, [r]) <= create.limits.maxBytes)
    && (a.patience.None? || a.patience.value >= |Records(create.view)|)
    && forall k: nat :: InTime(create, a, k)
  }

  ghost predicate InTime(create: Op, a: Around, k: nat)
    requires create.Create?
  {
    a.clock(k) < create.now + create.ttl && forall op | op in a.others(k) :: Before(op, create.now + create.ttl)
  }

  lemma {:induction false} RecordOf(items: seq<Item>, n: nat)
    requires n < |items| && items[n].Some?
    ensures items[n].value in Records(items)
    decreases |items|
  {
    var m := |items| - 1;
    if n < m {
      RecordOf(items[..m], n);
    }
  }

  /** While every record of the export fits a page, the next page can be served. */
  lemma NextCanBeServed(create: Op, s: Snapshot, cursor: Token, yielded: seq<Record>, a: Around, k: nat)
    requires create.Create? && Under(create, s, Some(cursor), yielded, a, k) && create.limits.envelope < create.limits.maxBytes
    requires forall r | r in Records(create.view) :: Size(create.limits.envelope, [r]) <= create.limits.maxBytes
    ensures OwnsCursor(s, cursor) && CanServe(s, cursor)
  {
    hide Size;
    forall n | 0 <= n < |s.rest| && s.rest[n].Some? ensures Size(s.limits.envelope, [s.rest[n].value]) <= s.limits.maxBytes {
      RecordOf(s.rest, n);
      assert s.rest[n].value in yielded + Records(s.rest);
    }
  }

  /**
   Export one frozen view. What is yielded is always a beginning of its records, in order and each once; all of them when the
   export completes; and however it ends, its snapshot is not left open. It completes whenever nothing stands in its way.
   */
  method ExportHistory(reg: Registry, create: Op, a: Around, ghost mine: iset<Token>) returns (yielded: seq<Record>, completed: bool)
    requires reg.Valid() && create.Create? && Private(a, create, mine)
    requires create.limits.maxScan > 0 && create.limits.maxRecords > 0
    requires forall t | t in reg.open :: t.id != create.id && forall c | c in mine :: !OwnsCursor(t, c)
    modifies reg
    ensures reg.Valid() && forall t | t in reg.open :: t.id != create.id
    ensures Prefix(yielded, Records(create.view)) && (completed ==> yielded == Records(create.view))
    ensures Unhindered(old(reg.open), create, a) ==> completed
  {
    hide Mine;
    hide Under;
    hide Foreign;
    hide OwnsCursor;
    hide Moves;
    hide CanServe;
    hide Records;
    ghost var free := Unhindered(reg.open, create, a);
    yielded, completed := [], false;
    LiveSize(reg.open, create.now);
    OpensAsMine(reg.open, create, mine);
    var r := reg.Perform(create);
    if !r.Handle? {
      return;
    }
    var k, cursor, ended := 0, Some(r.cursor), false;
    ghost var s := Opened(create);
    StartsUnder(create, s, a);
    while cursor.Some? && !ended
      invariant !ended ==> Mine(reg.open, s, mine)
      invariant reg.Valid() && s.id == create.id
      invariant !ended ==> Under(create, s, cursor, yielded, a, k) && (cursor.Some? ==> cursor.value in mine)
      invariant Prefix(yielded, Records(create.view))
      invariant free ==> !ended && s in reg.open && s.expiresAt == create.now + create.ttl
      decreases !ended, cursor.Some?, |s.rest|
    {
      assert free ==> InTime(create, a, k);
      LetOthers(reg, a.others(k), s, mine);
      ghost var was := s;
      if free {
        NextCanBeServed(create, s, cursor.value, yielded, a, k);
      }
      var reply;
      reply, s := ReadOnce(reg, cursor.value, a.clock(k), a.issued(k), s, mine);
      if !reply.Served? {
        s := was;
        ended := true;
      } else {
        Advance(create, was, cursor.value, yielded, a, k, reply.page, s, mine);
        YieldedSoFar(create, s, reply.page.next, yielded + reply.page.records, a, k + 1);
        if a.patience.Some? && |yielded| + |reply.page.records| > a.patience.value {
          var take := if a.patience.value > |yielded| then a.patience.value - |yielded| else 0;
          Shorter(yielded, reply.page.records, take, Records(create.view));
          yielded, ended := yielded + reply.page.records[..take], true;
        } else {
          yielded, cursor, k := yielded + reply.page.records, reply.page.next, k + 1;
        }
      }
    }
    completed := !ended;
    if completed {
      EndsWhole(create, s, yielded, a, k);
    }
    WithoutElements(reg.open, create.id);
    var closed := reg.Perform(Close(create.id));
  }

  lemma StartsUnder(create: Op, s: Snapshot, a: Around)
    requires create.Create? && s == Opened(create)
    ensures Under(create, s, Some(create.cursor), [], a, 0)
  {
  }

  lemma YieldedSoFar(create: Op, s: Snapshot, cursor: Option<Token>, yielded: seq<Record>, a: Around, k: nat)
    requires create.Create? && Under(create, s, cursor, yielded, a, k)
    ensures Prefix(yielded, Records(create.view))
    ensures cursor.Some? ==> cursor.value == if k == 0 then create.cursor else a.issued(k - 1)
  {
  }

  lemma Shorter(yielded: seq<Record>, more: seq<Record>, take: nat, all: seq<Record>)
    requires Prefix(yielded + more, all) && take <= |more|
    ensures Prefix(yielded + more[..take], all)
  {
    assert yielded + more[..take] == (yielded + more)[..|yielded| + take];
  }

  lemma EndsWhole(create: Op, s: Snapshot, yielded: seq<Record>, a: Around, k: nat)
    requires create.Create? && Under(create, s, None, yielded, a, k)
    ensures yielded == Records(create.view)
  {
  }
}
