/** An export snapshot: one frozen view of the store, handed over in bounded pages that can be asked for again. */
module ExportPages {
  import opened Wrappers

  type Token = int

  datatype Record = Record(id: int, size: nat)

  /** A stored row in export order: a record to hand over, or one the selection leaves out. */
  type Item = Option<Record>

  /** The page caps, and the size of a page with no record in it. */
  datatype Limits = Limits(maxRecords: nat, maxScan: nat, maxBytes: nat, envelope: nat)

  datatype Page = Page(records: seq<Record>, next: Option<Token>)

  /** What is handed over: the records of the rows, in order. */
  function Records(items: seq<Item>): seq<Record> {
    if items == [] then []
    else
      var earlier, last := Records(items[..|items| - 1]), items[|items| - 1];
      if last.Some? then earlier + [last.value] else earlier
  }

  /** The size of a page: its envelope, its records, and a comma between two of them. */
  function Size(envelope: nat, records: seq<Record>): nat {
    if records == [] then envelope
    else Size(envelope, records[..|records| - 1]) + records[|records| - 1].size + if |records| > 1 then 1 else 0
  }

  /** Sizes add up: records take their own size and one separator between any two. */
  lemma {:induction false} SizeAppends(envelope: nat, a: seq<Record>, b: seq<Record>)
    ensures Size(envelope, a + b) == Size(envelope, a) + Size(0, b) + if a != [] && b != [] then 1 else 0
    decreases |b|
  {
    if b == [] {
      assert a + b == a;
    } else {
      assert (a + b)[..|a + b| - 1] == a + b[..|b| - 1];
      SizeAppends(envelope, a, b[..|b| - 1]);
    }
  }

  datatype PageError = EnvelopeTooLarge | RecordTooLarge

  /** The page still holds its byte cap with this row added. */
  predicate Fits(l: Limits, records: seq<Record>, item: Item) {
    item.None? || Size(l.envelope, records + [item.value]) <= l.maxBytes
  }

  /** `n` rows make one page: every cap holds, and the next row, if there is one, would break one. */
  ghost predicate IsPage(l: Limits, items: seq<Item>, n: nat) {
    && n <= |items| && n <= l.maxScan && |Records(items[..n])| <= l.maxRecords && Size(l.envelope, Records(items[..n])) <= l.maxBytes
    && (n < |items| ==> n == l.maxScan || |Records(items[..n])| == l.maxRecords || !Fits(l, Records(items[..n]), items[n]))
  }

  /** The record that would open the next page is no larger than a page may be, if there is one within reach. */
  ghost predicate NextRecordFits(l: Limits, items: seq<Item>) {
    forall n | 0 <= n < |items| && n < l.maxScan && 0 < l.maxRecords && items[n].Some? && Records(items[..n]) == [] ::
      Size(l.envelope, [items[n].value]) <= l.maxBytes
  }

  lemma RecordsSnoc(items: seq<Item>, n: nat)
    requires n < |items|
    ensures Records(items[..n + 1]) == if items[n].Some? then Records(items[..n]) + [items[n].value] else Records(items[..n])
  {
    assert items[..n + 1][..n] == items[..n];
  }

  lemma {:induction false} RecordsGrow(items: seq<Item>, n: nat, m: nat)
    requires n <= m <= |items| && Records(items[..n]) != []
    ensures Records(items[..m]) != []
    decreases m
  {
    if n < m {
      RecordsGrow(items, n, m - 1);
      RecordsSnoc(items, m - 1);
    }
  }

  ghost predicate FitsTo(l: Limits, items: seq<Item>, n: nat)
    requires n <= |items|
  {
    forall m | 0 <= m < n && items[m].Some? && Records(items[..m]) == [] :: Size(l.envelope, [items[m].value]) <= l.maxBytes
  }

  /** Once the page is full, nothing further on could open it. */
  lemma FitsBeyond(l: Limits, items: seq<Item>, n: nat, full: bool)
    requires n <= |items| && FitsTo(l, items, n) && (full ==> Records(items[..n]) != [])
    requires n == |items| || n >= l.maxScan || |Records(items[..n])| >= l.maxRecords || full
    ensures NextRecordFits(l, items)
  {
    hide Size;
    forall k | n <= k < |items| && k < l.maxScan && 0 < l.maxRecords ensures Records(items[..k]) != [] {
      RecordsGrow(items, n, k);
    }
  }

  /** Read rows into a page until a cap is met, a row does not fit, or no row is left; `more` unless it ran out of rows first. */
  method ReadPage(l: Limits, items: seq<Item>) returns (r: Result<(seq<Record>, nat, bool), PageError>)
    ensures r.Ok? ==> var (records, n, more) := r.value;
              && IsPage(l, items, n) && records == Records(items[..n])
              && (more <==> n < |items| || n == l.maxScan || |records| == l.maxRecords)
    ensures r.Ok? <==> l.envelope < l.maxBytes && NextRecordFits(l, items)
    ensures r == Err(EnvelopeTooLarge) <==> l.envelope >= l.maxBytes
    ensures r == Err(RecordTooLarge) <==> l.envelope < l.maxBytes && !NextRecordFits(l, items)
    ensures r.Ok? && l.maxScan > 0 && l.maxRecords > 0 && items != [] ==> r.value.1 > 0
  {
    if l.envelope >= l.maxBytes {
      return Err(EnvelopeTooLarge);
    }
    var records: seq<Record>, bytes, n, full := [], l.envelope, 0, false;
    while n < |items| && n < l.maxScan && |records| < l.maxRecords && !full
      invariant n <= |items| && n <= l.maxScan && records == Records(items[..n]) && |records| <= l.maxRecords
      invariant bytes == Size(l.envelope, records) && bytes <= l.maxBytes
      invariant full ==> n < |items| && records != [] && !Fits(l, records, items[n])
      invariant FitsTo(l, items, n)
      decreases |items| - n, !full
    {
      RecordsSnoc(items, n);
      if items[n].None? {
        n := n + 1;
      } else {
        var record := items[n].value;
        assert (records + [record])[..|records|] == records;
        var size := record.size + if records != [] then 1 else 0;
        if bytes + size > l.maxBytes {
          if records == [] {
            assert [] + [record] == [record];
            assert Records(items[..n]) == [];
            return Err(RecordTooLarge);
          }
          full := true;
        } else {
          bytes, records, n := bytes + size, records + [record], n + 1;
        }
      }
    }
    FitsBeyond(l, items, n, full);
    return Ok((records, n, full || n == l.maxScan || |records| == l.maxRecords));
  }

  // ----- the snapshot

  /** `rest` is what still has to be read; `served` keeps the latest page and the cursor it answered, for a retry. */
  datatype Snapshot = Snapshot(id: Token, expiresAt: int, limits: Limits, rest: seq<Item>, cursor: Option<Token>, served: Option<(Token, Page)>)

  predicate Expired(s: Snapshot, now: int) {
    s.expiresAt <= now
  }

  /** A page can be served: the last one again, or the next one, whose envelope and first record fit. */
  ghost predicate CanServe(s: Snapshot, cursor: Token) {
    || (s.served.Some? && s.served.value.0 == cursor)
    || (s.cursor == Some(cursor) && s.limits.envelope < s.limits.maxBytes && NextRecordFits(s.limits, s.rest))
  }

  predicate OwnsCursor(s: Snapshot, cursor: Token) {
    s.cursor == Some(cursor) || (s.served.Some? && s.served.value.0 == cursor)
  }

  datatype Refusal = CursorNotFound | SnapshotExpired | TooManyOpen | Unservable(error: PageError)

  /**
   How a page served for `cursor` moves a snapshot on: the page served last is served again and changes nothing; the next page
   takes its rows off the rest and becomes the page served last, and the new cursor it carries is kept.
   */
  ghost predicate Serves(s: Snapshot, cursor: Token, issued: Token, page: Page, after: Snapshot) {
    if s.served.Some? && s.served.value.0 == cursor then page == s.served.value.1 && after == s
    else
      && s.cursor == Some(cursor)
      && exists n: nat ::
        && IsPage(s.limits, s.rest, n) && page.records == Records(s.rest[..n])
        && page.next == (if n < |s.rest| || n == s.limits.maxScan || |page.records| == s.limits.maxRecords then Some(issued) else None)
        && (n == 0 ==> s.rest == [] || s.limits.maxScan == 0 || s.limits.maxRecords == 0)
        && after == s.(rest := s.rest[n..], cursor := page.next, served := Some((cursor, page)))
  }

  method ServePage(s: Snapshot, cursor: Token, now: int, issued: Token) returns (r: Result<(Page, Snapshot), Refusal>)
    ensures r.Ok? ==> !Expired(s, now) && Serves(s, cursor, issued, r.value.0, r.value.1)
    ensures r.Ok? <==> !Expired(s, now) && CanServe(s, cursor)
    ensures r == Err(SnapshotExpired) <==> Expired(s, now)
    ensures r == Err(CursorNotFound) <==> !Expired(s, now) && !OwnsCursor(s, cursor)
  {
    if Expired(s, now) {
      return Err(SnapshotExpired);
    }
    if s.served.Some? && s.served.value.0 == cursor {
      return Ok((s.served.value.1, s));
    }
    if s.cursor != Some(cursor) {
      return Err(CursorNotFound);
    }
    var read := ReadPage(s.limits, s.rest);
    if read.Err? {
      return Err(Unservable(read.error));
    }
    var (records, n, more) := read.value;
    var page := Page(records, if more then Some(issued) else None);
    return Ok((page, s.(rest := s.rest[n..], cursor := page.next, served := Some((cursor, page)))));
  }

  lemma {:induction false} RecordsAppend(a: seq<Item>, b: seq<Item>)
    ensures Records(a + b) == Records(a) + Records(b)
    decreases |b|
  {
    if b == [] {
      assert a + b == a;
    } else {
      assert (a + b)[..|a + b| - 1] == a + b[..|b| - 1];
      RecordsAppend(a, b[..|b| - 1]);
    }
  }
}
