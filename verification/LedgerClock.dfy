/** indexer/src/api/ledgerInfo.ts: reading the ledger clock and the round id, in the IEEE 754
    double arithmetic JavaScript computes it with. */
module LedgerClock {
  import opened Wrappers
  import opened Arithmetic
  import Decimal

  /** The finite doubles: a significand below 2^53 scaled by a power of two. */
  ghost predicate IsDouble(x: real) {
    exists m: int, j: nat :: Scaled(x, m, j)
  }

  ghost predicate Scaled(x: real, m: int, j: nat) {
    && m < Pow2(53) && -m < Pow2(53)
    && ((j <= 1074 && x * Pow2(j) as real == m as real) || (j <= 971 && x == (m * Pow2(j)) as real))
  }

  function AbsReal(x: real): real {
    if x < 0.0 then -x else x
  }

  /** Round to nearest (section 4.3.1 of IEEE 754-2019); the tie rule is left open. */
  ghost predicate IsNearest(r: real, x: real) {
    IsDouble(r) && forall y :: IsDouble(y) ==> AbsReal(r - x) <= AbsReal(y - x)
  }

  type Rounding = real -> real

  ghost predicate RoundsToNearest(rn: Rounding) {
    forall x :: IsNearest(rn(x), x)
  }

  const TWO_53: nat := 0x20_0000_0000_0000

  lemma Pow2Of53()
    ensures Pow2(53) == TWO_53 && Pow2(52) == 0x10_0000_0000_0000
  {
    assert Pow2(10) == 1024;
    assert Pow2(20) == 1024 * 1024 by { Pow2Sum(10, 10); }
    assert Pow2(40) == Pow2(20) * Pow2(20) by { Pow2Sum(20, 20); }
    assert Pow2(50) == Pow2(40) * Pow2(10) by { Pow2Sum(40, 10); }
    assert Pow2(51) == 2 * Pow2(50) && Pow2(52) == 2 * Pow2(51) && Pow2(53) == 2 * Pow2(52);
  }

  lemma {:induction false} Pow2Sum(a: nat, b: nat)
    ensures Pow2(a + b) == Pow2(a) * Pow2(b)
  {
    if a > 0 {
      Pow2Sum(a - 1, b);
      assert 2 * (Pow2(a - 1) * Pow2(b)) == (2 * Pow2(a - 1)) * Pow2(b);
    }
  }

  lemma IntegerIsDouble(n: int)
    requires n <= TWO_53 && -n <= TWO_53
    ensures IsDouble(n as real)
  {
    Pow2Of53();
    if n < TWO_53 && -n < TWO_53 {
      assert Pow2(0) == 1;
      assert Scaled(n as real, n, 0);
    } else {
      var half: int := if n > 0 then Pow2(52) else 0 - Pow2(52);
      assert Pow2(1) == 2 * Pow2(0);
      assert Scaled(n as real, half, 1);
    }
  }

  /** Integers up to 2^53 are not rounded, whatever their sign; larger ones do not come out closer to
      zero than it. */
  lemma RoundInteger(rn: Rounding, n: int)
    requires RoundsToNearest(rn)
    ensures n <= TWO_53 && -n <= TWO_53 ==> rn(n as real) == n as real
    ensures n > TWO_53 ==> rn(n as real) >= TWO_53 as real
    ensures -n > TWO_53 ==> rn(n as real) <= -(TWO_53 as real)
  {
    assert IsNearest(rn(n as real), n as real);
    if n <= TWO_53 && -n <= TWO_53 {
      IntegerIsDouble(n);
    } else {
      var bound: int := if n > 0 then TWO_53 else 0 - TWO_53;
      IntegerIsDouble(bound);
      assert AbsReal(rn(n as real) - n as real) <= AbsReal(bound as real - n as real);
    }
  }

  /** Doubles from 2^53 on are integers. */
  lemma LargeDoubleIsInteger(x: real)
    requires IsDouble(x) && x >= TWO_53 as real
    ensures x.Floor as real == x
  {
    Pow2Of53();
    var m: int, j: nat :| Scaled(x, m, j);
    if j <= 1074 && x * Pow2(j) as real == m as real {
      TimesAtLeast(x, Pow2(j) as real);
      assert false;
    }
  }

  lemma TimesAtLeast(x: real, p: real)
    requires x >= 0.0 && p >= 1.0
    ensures x * p >= x
  {
  }

  // ----------------------------------------------------- reading the ledger

  datatype LedgerInfo = LedgerInfo(sequence: int, closeTimeMs: int)

  const MAX_DATE_TIME_MS: nat := 8_640_000_000_000_000

  predicate IsSafeInteger(x: real) {
    x.Floor as real == x && -(TWO_53 as real) < x < TWO_53 as real
  }

  /** `/^(0|[1-9]\d*)$/`. */
  predicate UnixSeconds(s: string) {
    s == "0" || (s != "" && Decimal.AllDigits(s) && s[0] != '0')
  }

  /** getLatestLedgerInfo on the two raw fields; None stands for a value of another type. */
  function GetLatestLedgerInfo(rn: Rounding, sequence: Option<real>, closeTime: Option<string>): Result<LedgerInfo, string> {
    if sequence.None? || !IsSafeInteger(sequence.value) || sequence.value <= 0.0 then
      Failure("sequence")
    else if closeTime.None? || !UnixSeconds(closeTime.value) then
      Failure("closeTime")
    else
      assert Decimal.AllDigits(closeTime.value);
      var seconds := rn(Decimal.Parse(closeTime.value) as real);
      if !IsSafeInteger(seconds) then Failure("closeTime")
      else
        var ms := rn(seconds * 1000.0);
        if !IsSafeInteger(ms) || ms > MAX_DATE_TIME_MS as real then Failure("closeTime")
        else Success(LedgerInfo(sequence.value.Floor, ms.Floor))
  }

  lemma UnixSecondsPrinted(s: string)
    ensures UnixSeconds(s) <==> exists n: nat :: s == Decimal.Print(n)
  {
    if UnixSeconds(s) {
      assert Decimal.AllDigits(s);
      Decimal.PrintParse(s);
      assert s == Decimal.Print(Decimal.Parse(s));
    }
    if n: nat :| s == Decimal.Print(n) {
      Decimal.NoLeadingZero(n);
    }
  }

  predicate GoodSequence(sequence: Option<real>) {
    sequence.Some? && IsSafeInteger(sequence.value) && sequence.value > 0.0
  }

  lemma CloseTimeRead(rn: Rounding, sequence: Option<real>, closeTime: string, seconds: nat)
    requires RoundsToNearest(rn) && GoodSequence(sequence)
    requires UnixSeconds(closeTime) && Decimal.AllDigits(closeTime) && Decimal.Parse(closeTime) == seconds
    ensures GetLatestLedgerInfo(rn, sequence, Some(closeTime)) ==
            if seconds * 1000 <= MAX_DATE_TIME_MS then Success(LedgerInfo(sequence.value.Floor, seconds * 1000))
            else Failure("closeTime")
  {
    RoundInteger(rn, seconds);
    RoundInteger(rn, seconds * 1000);
    assert (seconds * 1000) as real == seconds as real * 1000.0;
    hide UnixSeconds, RoundsToNearest;
  }

  lemma SequenceRead(sequence: Option<real>, n: int)
    ensures GoodSequence(sequence) && sequence.value.Floor == n <==> sequence == Some(n as real) && 0 < n < TWO_53
  {
  }

  /** The checks accept exactly the close times that print a number of seconds whose milliseconds are
      a date, with a sequence number that is a positive safe integer, and no digit is lost on the
      way. */
  lemma CloseTimeExact(rn: Rounding, sequence: Option<real>, closeTime: Option<string>, info: LedgerInfo)
    requires RoundsToNearest(rn)
    ensures GetLatestLedgerInfo(rn, sequence, closeTime) == Success(info) <==>
            && sequence == Some(info.sequence as real) && 0 < info.sequence < TWO_53
            && exists seconds: nat :: closeTime == Some(Decimal.Print(seconds)) && info.closeTimeMs == seconds * 1000
                                      && seconds * 1000 <= MAX_DATE_TIME_MS
  {
    var r := GetLatestLedgerInfo(rn, sequence, closeTime);
    SequenceRead(sequence, info.sequence);
    assert r.Success? ==> GoodSequence(sequence) && closeTime.Some? && UnixSeconds(closeTime.value);
    if closeTime.Some? {
      UnixSecondsPrinted(closeTime.value);
    }
    hide RoundsToNearest, GetLatestLedgerInfo, UnixSeconds, IsSafeInteger, GoodSequence;
    if GoodSequence(sequence) && closeTime.Some? {
      if seconds: nat :| closeTime.value == Decimal.Print(seconds) {
        Decimal.ParsePrint(seconds);
        CloseTimeRead(rn, sequence, closeTime.value, seconds);
        forall n: nat | closeTime.value == Decimal.Print(n)
          ensures n == seconds
        {
          Decimal.ParsePrint(n);
        }
      }
    }
  }

  // ------------------------------------------------------------- the round id

  /** currentRoundId. */
  function CurrentRoundId(rn: Rounding, closeTimeMs: int, roundLengthSeconds: nat): int
    requires roundLengthSeconds > 0
  {
    rn(rn(closeTimeMs as real / 1000.0) / roundLengthSeconds as real).Floor
  }

  /** The power of two at or below n. */
  lemma BinaryMagnitude(n: nat) returns (j: nat)
    requires 0 < n < Pow2(60)
    ensures j < 60 && Pow2(j) <= n < 2 * Pow2(j)
  {
    j := 0;
    while 2 * Pow2(j) <= n
      invariant Pow2(j) <= n
      decreases n - Pow2(j)
    {
      j := j + 1;
    }
    if j >= 60 {
      Pow2Monotone(60, j);
    }
  }

  lemma {:induction false} Pow2Monotone(a: nat, b: nat)
    requires a <= b
    ensures Pow2(a) <= Pow2(b)
  {
    if a < b {
      Pow2Monotone(a, b - 1);
    }
  }

  /** A quotient strictly below an integer rounds strictly below it, because a double lies
      between the two. */
  lemma RoundBelow(r: real, x: real, k: nat, y: real)
    requires IsNearest(r, x) && IsDouble(y)
    requires y < k as real && x < k as real && 2.0 * x < k as real + y
    ensures r < k as real
  {
    assert AbsReal(r - x) <= AbsReal(y - x);
  }

  lemma RoundAbove(r: real, x: real, k: nat)
    requires IsNearest(r, x) && k <= TWO_53 && k as real <= x
    ensures r >= k as real
  {
    IntegerIsDouble(k);
    assert AbsReal(r - x) <= AbsReal(k as real - x);
  }

  /** Dividing two exact integers in doubles and flooring is integer division, as long as their
      sum stays within 2^53. */
  lemma FloorOfRoundedQuotient(r: real, x: real, s: nat, len: nat)
    requires len > 0 && s + len <= TWO_53
    requires x * len as real == s as real && IsNearest(r, x)
    ensures r.Floor == s / len
  {
    var k := s / len;
    QuotientBounds(x, s, len, k);
    RoundAbove(r, x, k);
    StaysBelow(r, x, s, len, k + 1);
    FloorIs(r, k);
  }

  lemma StaysBelow(r: real, x: real, s: nat, len: nat, k: nat)
    requires len > 0 && s + len <= TWO_53 && k > 0
    requires x * len as real == s as real && IsNearest(r, x)
    requires k as real * len as real >= s as real + 1.0 && k * len <= s + len
    ensures r < k as real
  {
    var j := MagnitudeOf(len);
    var y := DoubleJustBelow(k, j, len, s, x);
    RoundBelow(r, x, k, y);
  }

  lemma MagnitudeOf(len: nat) returns (j: nat)
    requires 0 < len <= TWO_53
    ensures j < 60 && Pow2(j) <= len < 2 * Pow2(j)
  {
    Pow2Of53();
    assert Pow2(54) == 2 * Pow2(53);
    Pow2Monotone(54, 60);
    j := BinaryMagnitude(len);
  }

  lemma FloorIs(r: real, k: nat)
    requires k as real <= r < (k + 1) as real
    ensures r.Floor == k
  {
  }

  lemma QuotientBounds(x: real, s: nat, len: nat, k: nat)
    requires len > 0 && k == s / len && x * len as real == s as real
    ensures k as real <= x && k <= s
    ensures (k + 1) as real * len as real >= s as real + 1.0
    ensures (k + 1) * len <= s + len
  {
    DivisionBounds(s, len);
    RealTimes(k, len);
    RealTimes(k + 1, len);
    ScaleOrder(k as real, x, len as real);
  }

  lemma RealTimes(a: nat, b: nat)
    ensures (a * b) as real == a as real * b as real
  {
  }

  lemma ScaleOrder(a: real, b: real, c: real)
    requires c > 0.0 && a * c <= b * c
    ensures a <= b
  {
  }

  /** k - 2^-j is a double when k * 2^j <= 2^53, and with 2^j <= len < 2^(j+1) it is more than
      half way from s/len to k. */
  lemma DoubleJustBelow(k: nat, j: nat, len: nat, s: nat, x: real) returns (y: real)
    requires k > 0 && j < 60 && Pow2(j) <= len < 2 * Pow2(j)
    requires k * len <= TWO_53 && x * len as real == s as real
    requires k as real * len as real >= s as real + 1.0
    ensures IsDouble(y) && y < k as real
    ensures x < k as real && 2.0 * x < k as real + y
  {
    hide Pow2, IsDouble;
    var p := Pow2(j);
    Pow2Of53();
    TimesMonotone(p, len, k);
    TimesMonotone(1, k, p);
    var m := k * p - 1;
    y := JustBelow(k, p, m);
    ScaledIsDouble(y, m, j);
    GapBelow(k as real, x, len as real, p as real);
  }

  lemma ScaledIsDouble(y: real, m: int, j: nat)
    requires y * Pow2(j) as real == m as real && j <= 1074
    requires m < Pow2(53) && -m < Pow2(53)
    ensures IsDouble(y)
  {
    assert Scaled(y, m, j);
  }

  lemma JustBelow(k: nat, p: nat, m: int) returns (y: real)
    requires p > 0 && m == k * p - 1
    ensures y == k as real - 1.0 / p as real && y * p as real == m as real && y < k as real
  {
    var step := 1.0 / p as real;
    assert step * p as real == 1.0;
    assert step > 0.0;
    y := k as real - step;
    RealTimes(k, p);
    assert y * p as real == k as real * p as real - step * p as real;
  }

  lemma GapBelow(k: real, x: real, len: real, p: real)
    requires len > 0.0 && p > 0.0 && len < 2.0 * p
    requires k * len >= x * len + 1.0
    ensures x < k && 2.0 * x < k + (k - 1.0 / p)
  {
    var d, step := k - x, 1.0 / p;
    assert d * len >= 1.0;
    ScaleStrictly(0.0, d, len);
    ScaleUp(d, len, 2.0 * p);
    assert step * p == 1.0;
    assert (2.0 * d) * p == d * (2.0 * p);
    ScaleStrictly(step, 2.0 * d, p);
  }

  lemma ScaleUp(d: real, a: real, b: real)
    requires d > 0.0 && a < b
    ensures d * a < d * b
  {
  }

  lemma ScaleStrictly(a: real, b: real, c: real)
    requires c > 0.0 && a * c < b * c
    ensures a < b
  {
  }

  /** For every close time the clock accepts and every positive round length, the floating-point
      round id is the integer quotient of the seconds, which is also the watcher's and the
      contract's formula. */
  lemma RoundIdExact(rn: Rounding, seconds: nat, roundLengthSeconds: nat)
    requires RoundsToNearest(rn) && seconds * 1000 <= MAX_DATE_TIME_MS && roundLengthSeconds > 0
    ensures CurrentRoundId(rn, seconds * 1000, roundLengthSeconds) == seconds / roundLengthSeconds
  {
    assert (seconds * 1000) as real / 1000.0 == seconds as real;
    RoundInteger(rn, seconds);
    var x := seconds as real / roundLengthSeconds as real;
    assert x * roundLengthSeconds as real == seconds as real;
    assert IsNearest(rn(x), x);
    if seconds + roundLengthSeconds <= TWO_53 {
      FloorOfRoundedQuotient(rn(x), x, seconds, roundLengthSeconds);
    } else {
      LongRound(rn(x), x, seconds, roundLengthSeconds);
    }
  }

  /** A round longer than 2^52 seconds: the quotient is below one half. */
  lemma LongRound(r: real, x: real, seconds: nat, len: nat)
    requires seconds * 1000 <= MAX_DATE_TIME_MS && seconds + len > TWO_53
    requires x * len as real == seconds as real && IsNearest(r, x)
    ensures r.Floor == 0 == seconds / len
  {
    assert 2 * seconds < len;
    ScaleOrder(0.0, x, len as real);
    ScaleStrictly(x, 0.5, len as real);
    RoundsNearZero(r, x);
    FloorIs(r, 0);
    DivisionIsZero(seconds, len);
  }

  lemma DivisionIsZero(a: nat, b: nat)
    requires a < b
    ensures a / b == 0
  {
  }

  lemma RoundsNearZero(r: real, x: real)
    requires IsNearest(r, x) && 0.0 <= x < 0.5
    ensures 0.0 <= r < 1.0
  {
    IntegerIsDouble(0);
    assert AbsReal(r - x) <= AbsReal(0.0 - x);
    RoundAbove(r, x, 0);
  }
}
