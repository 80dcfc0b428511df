/** JavaScript's `Number(string)`, with the rounding of doubles as a parameter. */
module JsNumbers {
  import opened Wrappers
  import opened Arithmetic
  import opened WhiteSpace
  import Decimal
  import LedgerClock

  datatype JsNumber = NaN | MinusInfinity | PlusInfinity | Finite(r: real)

  /** `x < r`. */
  predicate Below(x: JsNumber, r: real) {
    x.MinusInfinity? || (x.Finite? && x.r < r)
  }

  /** `x > r`. */
  predicate Above(x: JsNumber, r: real) {
    x.PlusInfinity? || (x.Finite? && x.r > r)
  }

  /** Magnitudes from here on round to infinity (section 4.3.1 of IEEE 754-2019): half a unit in
      the last place above the largest double. */
  function OverflowsAt(): nat {
    (2 * LedgerClock.TWO_53 - 1) * Pow2(970)
  }

  function Double(rn: LedgerClock.Rounding, negative: bool, magnitude: real): JsNumber {
    if magnitude >= OverflowsAt() as real then if negative then MinusInfinity else PlusInfinity
    else Finite(rn(if negative then -magnitude else magnitude))
  }

  /** Index of the first character that satisfies `p`, or the length. */
  function IndexOf(s: string, p: char -> bool): (i: nat)
    ensures i <= |s|
    ensures forall j :: 0 <= j < i ==> !p(s[j])
    ensures i < |s| ==> p(s[i])
  {
    if s == [] || p(s[0]) then 0 else 1 + IndexOf(s[1..], p)
  }

  /** What follows the character found, if it was found. */
  function AfterIndex(s: string, i: nat): Option<string>
    requires i <= |s|
  {
    if i < |s| then Some(s[i + 1..]) else None
  }

  predicate IsExponentMark(c: char) {
    c == 'e' || c == 'E'
  }

  predicate IsDot(c: char) {
    c == '.'
  }

  predicate IsSign(c: char) {
    c == '+' || c == '-'
  }

  /** The text without its sign. */
  function Unsigned(s: string): string {
    if s != "" && IsSign(s[0]) then s[1..] else s
  }

  /** The power of ten an exponent part stands for; None when it is malformed. */
  function Exponent(part: Option<string>): Option<int> {
    if part.None? then Some(0)
    else
      var digits := Unsigned(part.value);
      if digits == "" || !Decimal.AllDigits(digits) then None
      else
        var n: int := Decimal.Parse(digits);
        Some(if part.value[0] == '-' then -n else n)
  }

  /** digits * 10^power. */
  function Scaled(digits: nat, power: int): real {
    if power >= 0 then (digits * Decimal.Pow10(power)) as real else digits as real / Decimal.Pow10(-power) as real
  }

  /** The magnitude of an unsigned decimal literal. */
  function DecimalLiteral(s: string): Option<real> {
    var e := IndexOf(s, IsExponentMark);
    var mantissa, exponent := s[..e], Exponent(AfterIndex(s, e));
    var dot := IndexOf(mantissa, IsDot);
    var whole, fraction := mantissa[..dot], AfterIndex(mantissa, dot).UnwrapOr("");
    var digits := whole + fraction;
    if digits == "" || !Decimal.AllDigits(digits) || exponent.None? then None
    else Some(Scaled(Decimal.Parse(digits), exponent.value - |fraction|))
  }

  function DigitValue(c: char): Option<nat> {
    if '0' <= c <= '9' then Some(c as int - '0' as int)
    else if 'a' <= c <= 'f' then Some(10 + (c as int - 'a' as int))
    else if 'A' <= c <= 'F' then Some(10 + (c as int - 'A' as int))
    else None
  }

  /** Digits of a radix, most significant first. */
  function RadixValue(s: string, radix: nat): Option<nat> {
    if s == [] then Some(0)
    else
      var high, low := RadixValue(s[..|s| - 1], radix), DigitValue(s[|s| - 1]);
      if high.None? || low.None? || low.value >= radix then None else Some(high.value * radix + low.value)
  }

  /** The radix a prefix announces. */
  function RadixOf(s: string): Option<nat> {
    if |s| < 2 || s[0] != '0' then None
    else if s[1] == 'x' || s[1] == 'X' then Some(16)
    else if s[1] == 'o' || s[1] == 'O' then Some(8)
    else if s[1] == 'b' || s[1] == 'B' then Some(2)
    else None
  }

  /** `Number(s)`. */
  function NumberOf(rn: LedgerClock.Rounding, s: string): JsNumber {
    var t := Trim(s);
    if t == "" then Finite(0.0)
    else if RadixOf(t).Some? then
      var n := RadixValue(t[2..], RadixOf(t).value);
      if |t| == 2 || n.None? then NaN else Double(rn, false, n.value as real)
    else
      var body, negative := Unsigned(t), t[0] == '-';
      if body == "Infinity" then if negative then MinusInfinity else PlusInfinity
      else
        match DecimalLiteral(body)
        case None => NaN
        case Some(magnitude) => Double(rn, negative, magnitude)
  }

  lemma DigitsAreLiteral(s: string)
    requires s != "" && Decimal.AllDigits(s)
    ensures DecimalLiteral(s) == Some(Decimal.Parse(s) as real)
  {
    assert IndexOf(s, IsExponentMark) == |s|;
    assert s[..|s|] == s;
    assert IndexOf(s, IsDot) == |s|;
    assert s + "" == s;
    hide IndexOf, Decimal.Parse, Decimal.AllDigits;
    assert Scaled(Decimal.Parse(s), 0) == Decimal.Parse(s) as real;
  }

  lemma DigitsArePlain(s: string)
    requires s != "" && Decimal.AllDigits(s)
    ensures Trim(s) == s && RadixOf(s).None? && Unsigned(s) == s && s[0] != '-' && s != "Infinity"
  {
    assert Decimal.IsDigit(s[0]) && Decimal.IsDigit(s[|s| - 1]);
    assert |s| > 1 ==> Decimal.IsDigit(s[1]);
    assert "Infinity"[0] == 'I';
  }

  /** A whole number written in digits is the nearest double to it: itself up to 2^53, and never below 2^53 past that. */
  lemma NumberOfDigits(rn: LedgerClock.Rounding, s: string)
    requires LedgerClock.RoundsToNearest(rn) && s != "" && Decimal.AllDigits(s)
    ensures Decimal.Parse(s) <= LedgerClock.TWO_53 ==> NumberOf(rn, s) == Finite(Decimal.Parse(s) as real)
    ensures Decimal.Parse(s) > LedgerClock.TWO_53 ==>
              NumberOf(rn, s).PlusInfinity?
              || (NumberOf(rn, s).Finite? && NumberOf(rn, s).r >= LedgerClock.TWO_53 as real
                  && NumberOf(rn, s).r.Floor as real == NumberOf(rn, s).r)
  {
    hide Trim, RadixOf, Unsigned, DecimalLiteral;
    DigitsArePlain(s);
    DigitsAreLiteral(s);
    var n := Decimal.Parse(s);
    LedgerClock.RoundInteger(rn, n);
    Large();
    if n > LedgerClock.TWO_53 {
      assert LedgerClock.IsNearest(rn(n as real), n as real);
      LedgerClock.LargeDoubleIsInteger(rn(n as real));
    }
  }

  /** The largest double, (2^53 - 1) * 2^971. */
  function LargestDouble(): nat {
    (LedgerClock.TWO_53 - 1) * Pow2(971)
  }

  lemma TimesBound(m: int, a: nat, b: nat, n: nat)
    requires m <= n && a <= b
    ensures m * a <= n * b
  {
    if m > 0 {
      TimesMonotone(a, b, m);
      TimesMonotone(m, n, b);
    }
  }

  lemma DoubleAtMost(y: real)
    requires LedgerClock.IsDouble(y)
    ensures y <= LargestDouble() as real
  {
    LedgerClock.Pow2Of53();
    hide Pow2;
    var m: int, j: nat :| LedgerClock.Scaled(y, m, j);
    TimesMonotone(1, Pow2(971), LedgerClock.TWO_53 - 1);
    if j <= 971 && y == (m * Pow2(j)) as real {
      LedgerClock.Pow2Monotone(j, 971);
      TimesBound(m, Pow2(j), Pow2(971), LedgerClock.TWO_53 - 1);
    } else if y > 0.0 {
      LedgerClock.TimesAtLeast(y, Pow2(j) as real);
    }
  }

  lemma Pow2Next(k: nat)
    ensures Pow2(k + 1) == 2 * Pow2(k)
  {
  }

  lemma HalfUnit(t: int, p: int)
    ensures (2 * t - 1) * p == (t - 1) * (2 * p) + p
  {
  }

  lemma LargestIsDouble()
    ensures LedgerClock.IsDouble(LargestDouble() as real)
  {
    LedgerClock.Pow2Of53();
    hide Pow2;
    assert LedgerClock.Scaled(LargestDouble() as real, LedgerClock.TWO_53 - 1, 971);
  }

  /** The bound past which numbers are infinite is the largest double and half the unit in its last
      place. */
  lemma OverflowBound()
    ensures OverflowsAt() == LargestDouble() + Pow2(970) && Pow2(971) == 2 * Pow2(970)
    ensures LedgerClock.IsDouble(LargestDouble() as real)
    ensures forall y :: LedgerClock.IsDouble(y) ==> y <= LargestDouble() as real
  {
    hide Pow2, LedgerClock.IsDouble;
    Pow2Next(970);
    HalfUnit(LedgerClock.TWO_53, Pow2(970));
    LargestIsDouble();
    forall y | LedgerClock.IsDouble(y)
      ensures y <= LargestDouble() as real
    {
      DoubleAtMost(y);
    }
  }

  lemma Large()
    ensures OverflowsAt() > LedgerClock.TWO_53
  {
    TimesMonotone(1, Pow2(970), 2 * LedgerClock.TWO_53 - 1);
  }

  // --------------------------------------------------------- decimal spellings

  datatype ExponentPart = ExponentPart(mark: char, sign: string, digits: string)

  predicate SignText(sign: string) {
    sign == "" || sign == "+" || sign == "-"
  }

  /** The parts of a decimal spelling: a sign, digits, a dot with more digits or none, and an exponent
      or none. */
  datatype Spelling = Spelling(sign: string, whole: string, fraction: Option<string>, exponent: Option<ExponentPart>) {
    predicate Valid() {
      && SignText(sign) && Decimal.AllDigits(whole) && Decimal.AllDigits(Places()) && |whole| + |Places()| > 0
      && (exponent.Some? ==>
            && (exponent.value.mark == 'e' || exponent.value.mark == 'E') && SignText(exponent.value.sign)
            && exponent.value.digits != "" && Decimal.AllDigits(exponent.value.digits))
    }

    /** The digits after the dot. */
    function Places(): string {
      if fraction.Some? then fraction.value else ""
    }

    function Mantissa(): string {
      whole + (if fraction.Some? then "." + fraction.value else "")
    }

    function Tail(): string {
      if exponent.Some? then [exponent.value.mark] + exponent.value.sign + exponent.value.digits else ""
    }

    function Text(): string {
      sign + Mantissa() + Tail()
    }

    function Power(): int
      requires Valid()
    {
      if exponent.None? then 0
      else
        var n: int := Decimal.Parse(exponent.value.digits);
        if exponent.value.sign == "-" then -n else n
    }
  }

  lemma SignedPart(sign: string, digits: string)
    requires SignText(sign) && digits != "" && Decimal.AllDigits(digits)
    ensures Unsigned(sign + digits) == digits && ((sign + digits)[0] == '-' <==> sign == "-")
  {
    assert Decimal.IsDigit(digits[0]);
    if sign != "" {
      assert (sign + digits)[1..] == digits;
    } else {
      assert sign + digits == digits;
    }
  }

  lemma MantissaChars(p: Spelling)
    requires p.Valid()
    ensures var m := p.Mantissa();
            m != "" && (Decimal.IsDigit(m[0]) || m[0] == '.')
            && forall i :: 0 <= i < |m| ==> Decimal.IsDigit(m[i]) || m[i] == '.'
  {
    var m := p.Mantissa();
    forall i | 0 <= i < |m|
      ensures Decimal.IsDigit(m[i]) || m[i] == '.'
    {
      if i < |p.whole| {
        assert m[i] == p.whole[i];
      } else if i > |p.whole| {
        assert m[i] == p.Places()[i - |p.whole| - 1];
      }
    }
  }

  lemma ExponentRead(p: Spelling)
    requires p.Valid() && p.exponent.Some?
    ensures Exponent(Some(p.exponent.value.sign + p.exponent.value.digits)) == Some(p.Power())
  {
    SignedPart(p.exponent.value.sign, p.exponent.value.digits);
  }

  lemma MantissaSplits(p: Spelling)
    requires p.Valid()
    ensures var m := p.Mantissa();
            var dot := IndexOf(m, IsDot);
            m[..dot] == p.whole && AfterIndex(m, dot).UnwrapOr("") == p.Places()
  {
    var m := p.Mantissa();
    forall j | 0 <= j < |p.whole|
      ensures !IsDot(m[j])
    {
      assert m[j] == p.whole[j] && Decimal.IsDigit(p.whole[j]);
    }
    if p.fraction.Some? {
      assert IsDot(m[|p.whole|]);
    }
    assert IndexOf(m, IsDot) == |p.whole|;
  }

  lemma IndexBefore(m: string, tail: string, p: char -> bool)
    requires (forall j :: 0 <= j < |m| ==> !p(m[j])) && (tail != "" ==> p(tail[0]))
    ensures IndexOf(m + tail, p) == |m|
  {
    var s := m + tail;
    assert forall j :: 0 <= j < |m| ==> s[j] == m[j];
    assert tail != "" ==> s[|m|] == tail[0];
  }

  lemma TailSplits(p: Spelling)
    requires p.Valid()
    ensures var body := p.Mantissa() + p.Tail();
            var e := IndexOf(body, IsExponentMark);
            body[..e] == p.Mantissa() && Exponent(AfterIndex(body, e)) == Some(p.Power())
  {
    MantissaChars(p);
    hide IndexOf, Exponent, Spelling.Mantissa, Spelling.Power, Decimal.AllDigits;
    var m, tail := p.Mantissa(), p.Tail();
    var body := m + tail;
    IndexBefore(m, tail, IsExponentMark);
    assert body[..|m|] == m;
    if p.exponent.Some? {
      assert body[|m| + 1..] == p.exponent.value.sign + p.exponent.value.digits;
      ExponentRead(p);
    } else {
      NoExponent(p);
    }
  }

  lemma NoExponent(p: Spelling)
    requires p.Valid() && p.exponent.None?
    ensures Exponent(None) == Some(p.Power())
  {
  }

  lemma LiteralOf(body: string, mantissa: string, whole: string, places: string, power: int)
    requires var e := IndexOf(body, IsExponentMark); body[..e] == mantissa && Exponent(AfterIndex(body, e)) == Some(power)
    requires var dot := IndexOf(mantissa, IsDot);
             mantissa[..dot] == whole && AfterIndex(mantissa, dot).UnwrapOr("") == places
    requires whole + places != "" && Decimal.AllDigits(whole + places)
    ensures DecimalLiteral(body) == Some(Scaled(Decimal.Parse(whole + places), power - |places|))
  {
    hide IndexOf, AfterIndex, Exponent, Scaled, Decimal.Parse, Decimal.AllDigits;
  }

  lemma DigitsJoined(p: Spelling)
    requires p.Valid()
    ensures p.whole + p.Places() != "" && Decimal.AllDigits(p.whole + p.Places())
  {
  }

  lemma LiteralRead(p: Spelling)
    requires p.Valid()
    ensures Decimal.AllDigits(p.whole + p.Places())
    ensures DecimalLiteral(p.Mantissa() + p.Tail())
            == Some(Scaled(Decimal.Parse(p.whole + p.Places()), p.Power() - |p.Places()|))
  {
    hide *;
    DigitsJoined(p);
    TailSplits(p);
    MantissaSplits(p);
    LiteralOf(p.Mantissa() + p.Tail(), p.Mantissa(), p.whole, p.Places(), p.Power());
  }

  lemma NotInfinity(body: string)
    requires body != "" && (Decimal.IsDigit(body[0]) || body[0] == '.')
    ensures body != "Infinity"
  {
    assert "Infinity"[0] == 'I';
  }

  /** The character after the first of an unsigned spelling is no radix letter. */
  lemma SecondChar(p: Spelling)
    requires p.Valid() && |p.Mantissa() + p.Tail()| > 1
    ensures var c := (p.Mantissa() + p.Tail())[1]; Decimal.IsDigit(c) || c == '.' || c == 'e' || c == 'E'
  {
    MantissaChars(p);
    hide Spelling.Mantissa;
    var m := p.Mantissa();
    if |m| == 1 {
      assert (m + p.Tail())[1] == p.Tail()[0];
    }
  }

  lemma SignedBody(sign: string, body: string)
    requires SignText(sign) && body != "" && !IsSign(body[0])
    requires |body| > 1 ==> body[1] !in "xXoObB"
    ensures var t := sign + body;
            t != "" && Unsigned(t) == body && RadixOf(t).None? && (t[0] == '-' <==> sign == "-")
  {
    var t := sign + body;
    if sign == "" {
      assert t == body;
    } else {
      assert t[1..] == body && t[0] == sign[0];
    }
  }

  lemma BodyChars(p: Spelling)
    requires p.Valid()
    ensures var body := p.Mantissa() + p.Tail();
            && body != "" && (Decimal.IsDigit(body[0]) || body[0] == '.') && !IsSign(body[0])
            && (|body| > 1 ==> body[1] !in "xXoObB")
  {
    MantissaChars(p);
    var body := p.Mantissa() + p.Tail();
    if |body| > 1 {
      SecondChar(p);
    }
    hide Spelling.Mantissa, Spelling.Tail;
    assert body[0] == p.Mantissa()[0];
  }

  lemma TextRead(p: Spelling)
    requires p.Valid()
    ensures var t := p.Text();
            && t != "" && RadixOf(t).None? && Unsigned(t) == p.Mantissa() + p.Tail() != "Infinity"
            && (t[0] == '-' <==> p.sign == "-")
  {
    hide *;
    var body := p.Mantissa() + p.Tail();
    TextParts(p);
    BodyChars(p);
    NotInfinity(body);
    SignedBody(p.sign, body);
  }

  lemma TextParts(p: Spelling)
    requires p.Valid()
    ensures p.Text() == p.sign + (p.Mantissa() + p.Tail()) && SignText(p.sign)
  {
    hide Spelling.Mantissa, Spelling.Tail;
  }

  /** `magnitude` is digits * 10^power. */
  ghost predicate IsScaled(magnitude: real, digits: nat, power: int) {
    if power >= 0 then magnitude == (digits * Decimal.Pow10(power)) as real
    else magnitude * Decimal.Pow10(-power) as real == digits as real
  }

  lemma ScaledMeans(digits: nat, power: int)
    ensures IsScaled(Scaled(digits, power), digits, power)
  {
  }

  lemma NumberOfLiteral(rn: LedgerClock.Rounding, s: string, body: string, magnitude: real)
    requires Trim(s) != "" && RadixOf(Trim(s)).None? && Unsigned(Trim(s)) == body != "Infinity"
    requires DecimalLiteral(body) == Some(magnitude)
    ensures NumberOf(rn, s) == Double(rn, Trim(s)[0] == '-', magnitude)
  {
    hide Trim, RadixOf, Unsigned, DecimalLiteral, Double;
  }

  /** `Number` of every decimal spelling, white space around it or not: the number spelled, digits
      times ten to the power written less the places after the dot, with the sign written, correctly
      rounded, or infinite when it rounds past the largest double. */
  lemma NumberOfSpelling(rn: LedgerClock.Rounding, s: string, p: Spelling) returns (magnitude: real)
    requires p.Valid() && Trim(s) == p.Text()
    ensures Decimal.AllDigits(p.whole + p.Places())
    ensures IsScaled(magnitude, Decimal.Parse(p.whole + p.Places()), p.Power() - |p.Places()|)
    ensures NumberOf(rn, s) == if magnitude >= OverflowsAt() as real then
                                 if p.sign == "-" then MinusInfinity else PlusInfinity
                               else Finite(rn(if p.sign == "-" then -magnitude else magnitude))
  {
    hide Trim, RadixOf, Unsigned, DecimalLiteral, Scaled, OverflowsAt, Decimal.Parse, Decimal.AllDigits, IsScaled, NumberOf,
         Spelling.Text, Spelling.Mantissa, Spelling.Tail;
    TextRead(p);
    LiteralRead(p);
    magnitude := Scaled(Decimal.Parse(p.whole + p.Places()), p.Power() - |p.Places()|);
    ScaledMeans(Decimal.Parse(p.whole + p.Places()), p.Power() - |p.Places()|);
    NumberOfLiteral(rn, s, p.Mantissa() + p.Tail(), magnitude);
  }

  lemma PlainText(sign: string, digits: string)
    requires SignText(sign) && digits != "" && Decimal.IsDigit(digits[0]) && Decimal.IsDigit(digits[|digits| - 1])
    ensures Trim(sign + digits) == sign + digits
  {
  }

  lemma SignedSpelling(sign: string, digits: string)
    requires SignText(sign) && digits != "" && Decimal.AllDigits(digits)
    ensures var p := Spelling(sign, digits, None, None);
            p.Valid() && p.Text() == sign + digits && p.whole + p.Places() == digits && p.Power() - |p.Places()| == 0
  {
    assert digits + "" == digits;
  }

  lemma Unscaled(magnitude: real, digits: nat)
    requires IsScaled(magnitude, digits, 0)
    ensures magnitude == digits as real
  {
    assert Decimal.Pow10(0) == 1;
  }

  /** A whole number in digits, with its sign. */
  lemma NumberOfSigned(rn: LedgerClock.Rounding, sign: string, digits: string)
    requires SignText(sign) && digits != "" && Decimal.AllDigits(digits)
    ensures var n := Decimal.Parse(digits) as real;
            NumberOf(rn, sign + digits) == if n >= OverflowsAt() as real then
                                             if sign == "-" then MinusInfinity else PlusInfinity
                                           else Finite(rn(if sign == "-" then -n else n))
  {
    assert Decimal.IsDigit(digits[0]) && Decimal.IsDigit(digits[|digits| - 1]);
    PlainText(sign, digits);
    SignedSpelling(sign, digits);
    hide *;
    var p := Spelling(sign, digits, None, None);
    var magnitude := NumberOfSpelling(rn, sign + digits, p);
    Unscaled(magnitude, Decimal.Parse(digits));
  }

  // ----------------------------------------------------------- radix spellings

  /** What digits of a radix stand for, from the left: the value before times the radix, plus the next
      digit, which must be below the radix. */
  lemma RadixNext(digits: string, c: char, radix: nat)
    ensures RadixValue("", radix) == Some(0)
    ensures RadixValue(digits + [c], radix).Some? <==>
            RadixValue(digits, radix).Some? && DigitValue(c).Some? && DigitValue(c).value < radix
    ensures RadixValue(digits + [c], radix).Some? ==>
              RadixValue(digits + [c], radix).value == radix * RadixValue(digits, radix).value + DigitValue(c).value
  {
    assert (digits + [c])[..|digits|] == digits;
  }

  lemma DigitValues(c: char)
    ensures '0' <= c <= '9' ==> DigitValue(c) == Some(Decimal.ValueOf(c))
    ensures c in "abcdef" ==> DigitValue(c).Some? && 10 <= DigitValue(c).value < 16 && "abcdef"[DigitValue(c).value - 10] == c
    ensures c in "ABCDEF" ==> DigitValue(c).Some? && 10 <= DigitValue(c).value < 16 && "ABCDEF"[DigitValue(c).value - 10] == c
    ensures DigitValue(c).Some? <==> c in "0123456789abcdefABCDEF"
  {
  }

  /** `Number` of a radix spelling, white space around it or not: NaN unless there are digits and all
      are digits of the radix. No sign is allowed. */
  lemma NumberOfRadix(rn: LedgerClock.Rounding, s: string, letter: char, digits: string)
    requires Trim(s) == "0" + [letter] + digits && letter in "xXoObB"
    ensures var radix := if letter in "xX" then 16 else if letter in "oO" then 8 else 2;
            NumberOf(rn, s) == if digits == "" || RadixValue(digits, radix).None? then NaN
                               else if RadixValue(digits, radix).value >= OverflowsAt() then PlusInfinity
                               else Finite(rn(RadixValue(digits, radix).value as real))
  {
    hide Trim, DecimalLiteral, RadixValue, Unsigned, OverflowsAt;
    var t := "0" + [letter] + digits;
    assert t[0] == '0' && t[1] == letter && t[2..] == digits;
  }
}
