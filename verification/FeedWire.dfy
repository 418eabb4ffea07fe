/** Feed positions as JSON: an epoch is written as sixteen lower-case hex digits and read from up to sixteen of either case. */
module FeedWire {
  import opened Wrappers
  import opened FeedStore

  datatype WireWatermark = WireWatermark(epoch: string, revision: nat)

  datatype InvalidArgument = InvalidArgument

  const EPOCH_DIGITS: nat := 16

  function Power16(n: nat): nat {
    if n == 0 then 1 else 16 * Power16(n - 1)
  }

  function Digit(n: nat): char
    requires n < 16
  {
    "0123456789abcdef"[n]
  }

  /** The low `width` hex digits of a number. */
  function Hex(n: nat, width: nat): string {
    if width == 0 then "" else Hex(n / 16, width - 1) + [Digit(n % 16)]
  }

  function Value(c: char): Option<nat> {
    if '0' <= c <= '9' then Some(c as int - '0' as int)
    else if 'a' <= c <= 'f' then Some(c as int - 'a' as int + 10)
    else if 'A' <= c <= 'F' then Some(c as int - 'A' as int + 10)
    else None
  }

  predicate AllHex(s: string) {
    forall i | 0 <= i < |s| :: Value(s[i]).Some?
  }

  function Number(s: string): nat
    requires AllHex(s)
  {
    if s == "" then 0 else Number(s[..|s| - 1]) * 16 + Value(s[|s| - 1]).value
  }

  function FromWatermark(m: Watermark): WireWatermark {
    WireWatermark(Hex(m.epoch, EPOCH_DIGITS), m.revision)
  }

  function Parse(w: WireWatermark): Result<Watermark, InvalidArgument> {
    if 0 < |w.epoch| <= EPOCH_DIGITS && AllHex(w.epoch) then Ok(Watermark(w.revision, Number(w.epoch))) else Err(InvalidArgument)
  }

  lemma DigitReadsBack(n: nat)
    requires n < 16
    ensures Value(Digit(n)) == Some(n)
  {
  }

  lemma {:induction false} HexReadsBack(n: nat, width: nat)
    requires n < Power16(width)
    ensures |Hex(n, width)| == width && AllHex(Hex(n, width)) && Number(Hex(n, width)) == n
    decreases width
  {
    if width > 0 {
      HexReadsBack(n / 16, width - 1);
      DigitReadsBack(n % 16);
      assert Hex(n, width)[..width - 1] == Hex(n / 16, width - 1);
    }
  }

  lemma {:induction false} NumberFits(s: string)
    requires AllHex(s)
    ensures Number(s) < Power16(|s|)
    decreases |s|
  {
    if s != "" {
      NumberFits(s[..|s| - 1]);
    }
  }

  /** Lower-case hex is spelt by its number: no two spellings of one width share one. */
  predicate Lower(s: string) {
    forall i | 0 <= i < |s| :: !('A' <= s[i] <= 'F')
  }

  lemma HexSnoc(n: nat, width: nat, c: char)
    requires Value(c).Some?
    ensures Hex(n * 16 + Value(c).value, width + 1) == Hex(n, width) + [Digit(Value(c).value)]
    ensures Digit(Value(c).value) == c <==> !('A' <= c <= 'F')
  {
    var v := Value(c).value;
    assert (n * 16 + v) / 16 == n && (n * 16 + v) % 16 == v;
  }

  lemma NumberSnoc(s: string)
    requires AllHex(s) && s != ""
    ensures AllHex(s[..|s| - 1]) && Value(s[|s| - 1]).Some?
    ensures Number(s) == Number(s[..|s| - 1]) * 16 + Value(s[|s| - 1]).value
  {
    hide Value;
  }

  /** `h` spells `init`'s number; one more digit spells `init + [last]` exactly when both parts are spelt in lower case. */
  lemma HexStep(h: string, init: string, last: char, n: nat)
    requires Value(last).Some? && h == Hex(n, |init|) && (h == init <==> Lower(init))
    ensures Hex(n * 16 + Value(last).value, |init| + 1) == init + [last] <==> Lower(init + [last])
  {
    HexSnoc(n, |init|, last);
    hide Hex;
    hide Value;
    hide Lower;
    SnocEqual(h, Digit(Value(last).value), init, last);
    LowerSnoc(init, last);
  }

  lemma {:induction false} HexOfNumber(s: string)
    requires AllHex(s)
    ensures Hex(Number(s), |s|) == s <==> Lower(s)
    decreases |s|
  {
    if s == "" {
      assert Hex(Number(s), 0) == "";
    } else {
      var init, last := s[..|s| - 1], s[|s| - 1];
      NumberSnoc(s);
      HexOfNumber(init);
      hide Hex;
      hide Value;
      hide Lower;
      hide Number;
      HexStep(Hex(Number(init), |init|), init, last, Number(init));
      assert s == init + [last];
    }
  }

  lemma LowerSnoc(init: string, last: char)
    ensures Lower(init + [last]) <==> Lower(init) && !('A' <= last <= 'F')
  {
    var s := init + [last];
    if Lower(s) {
      assert forall i | 0 <= i < |init| :: init[i] == s[i];
      assert s[|init|] == last;
    }
  }

  lemma SnocEqual(a: string, x: char, b: string, y: char)
    ensures a + [x] == b + [y] <==> a == b && x == y
  {
    if a + [x] == b + [y] {
      assert (a + [x])[..|a|] == a && (b + [y])[..|b|] == b;
      assert (a + [x])[|a|] == x && (b + [y])[|b|] == y;
    }
  }

  /** Every position this store issues is read back as itself. */
  lemma PositionReadsBack(m: Watermark)
    requires m.epoch < Power16(EPOCH_DIGITS)
    ensures Parse(FromWatermark(m)) == Ok(m)
  {
    HexReadsBack(m.epoch, EPOCH_DIGITS);
  }

  /** A position that is accepted fits 64 bits, and is written again as it came exactly when it came in canonical form. */
  lemma CanonicalIff(w: WireWatermark)
    requires Parse(w).Ok?
    ensures Parse(w).value.epoch < Power16(EPOCH_DIGITS)
    ensures FromWatermark(Parse(w).value) == w <==> |w.epoch| == EPOCH_DIGITS && Lower(w.epoch)
  {
    NumberFits(w.epoch);
    PowerGrows(|w.epoch|, EPOCH_DIGITS);
    HexLength(Number(w.epoch), EPOCH_DIGITS);
    if |w.epoch| == EPOCH_DIGITS {
      HexOfNumber(w.epoch);
    }
  }

  lemma {:induction false} HexLength(n: nat, width: nat)
    ensures |Hex(n, width)| == width
    decreases width
  {
    if width > 0 {
      HexLength(n / 16, width - 1);
    }
  }

  lemma {:induction false} PowerGrows(m: nat, n: nat)
    requires m <= n
    ensures Power16(m) <= Power16(n)
    decreases n
  {
    if m < n {
      PowerGrows(m, n - 1);
    }
  }
}
