/** apps/web/lib/format.ts: the exact decimal printer and parser for token amounts. */
module TokenAmount {
  import opened Wrappers
  import opened Decimal
  import opened WhiteSpace

  // ---------------------------------------------------------------- printing

  /** Where the regular expression of formatTokenAmount matches: not at the start,
      with a positive multiple of three digits to the right. */
  predicate CommaBefore(digits: string, i: nat)
    requires i <= |digits|
  {
    0 < i < |digits| && (|digits| - i) % 3 == 0
  }

  function GroupFrom(digits: string, i: nat): string
    requires i <= |digits|
    decreases |digits| - i
  {
    if i == |digits| then ""
    else (if CommaBefore(digits, i) then "," else "") + [digits[i]] + GroupFrom(digits, i + 1)
  }

  function Group(digits: string): string {
    GroupFrom(digits, 0)
  }

  /** `replace(/0+$/, "")`. */
  function StripTrailingZeros(s: string): (r: string)
    ensures |r| <= |s| && s == r + Zeros(|s| - |r|)
    ensures r != [] ==> r[|r| - 1] != '0'
  {
    if s != [] && s[|s| - 1] == '0' then
      var r := StripTrailingZeros(s[..|s| - 1]);
      assert s == s[..|s| - 1] + "0";
      assert Zeros(|s| - |r|) == Zeros(|s| - 1 - |r|) + "0";
      r
    else
      s
  }

  function PadStart(s: string, width: nat): string {
    if |s| < width then Zeros(width - |s|) + s else s
  }

  function PadEnd(s: string, width: nat): string {
    if |s| < width then s + Zeros(width - |s|) else s
  }

  function Sign(amount: int): string {
    if amount < 0 then "-" else ""
  }

  function Abs(n: int): nat {
    if n < 0 then -n else n
  }

  function Whole(amount: int, decimals: nat): nat {
    Quotient(Abs(amount), Pow10(decimals))
  }

  /** The digits shown after the dot: padded on the left, trailing zeros dropped. */
  function Fraction(amount: int, decimals: nat): string {
    if decimals == 0 then ""
    else StripTrailingZeros(PadStart(Print(Remainder(Abs(amount), Pow10(decimals))), decimals))
  }

  function Dotted(fraction: string): string {
    if |fraction| > 0 then "." + fraction else ""
  }

  /** formatTokenAmount. */
  function Format(amount: int, decimals: nat): string {
    Sign(amount) + Group(Print(Whole(amount, decimals))) + Dotted(Fraction(amount, decimals))
  }

  lemma SameMagnitude(amount: int, decimals: nat)
    ensures Whole(amount, decimals) == Whole(-amount, decimals) && Fraction(amount, decimals) == Fraction(-amount, decimals)
  {
  }

  /** A negative amount prints as its magnitude after a minus sign. */
  lemma FormatNegative(amount: int, decimals: nat)
    requires amount < 0
    ensures Format(amount, decimals) == "-" + Format(-amount, decimals)
  {
    SameMagnitude(amount, decimals);
    hide Whole, Fraction, Group, Print, Dotted;
    var whole, fraction := Group(Print(Whole(amount, decimals))), Dotted(Fraction(amount, decimals));
    assert Format(-amount, decimals) == "" + whole + fraction;
    assert "" + whole + fraction == whole + fraction && "-" + whole + fraction == "-" + (whole + fraction);
  }

  // ----------------------------------------------------------------- parsing

  datatype AmountError = NotANumber | TooManyDecimals

  /** Index of the first dot, or the length when there is none. */
  function DotIndex(s: string): (i: nat)
    ensures i <= |s|
    ensures i < |s| ==> s[i] == '.'
    ensures forall j :: 0 <= j < i ==> s[j] != '.'
  {
    if s == [] || s[0] == '.' then 0 else 1 + DotIndex(s[1..])
  }

  function WholePart(s: string): string {
    s[..DotIndex(s)]
  }

  function FractionDigits(s: string): string {
    if DotIndex(s) == |s| then "" else s[DotIndex(s) + 1..]
  }

  /** parseTokenAmount: the regular expression test, the split at the dot, and the bigint
      arithmetic. */
  function ParseAmount(input: string, decimals: nat): Result<nat, AmountError> {
    ParseTrimmed(Trim(input), decimals)
  }

  function ParseTrimmed(trimmed: string, decimals: nat): Result<nat, AmountError> {
    var whole := WholePart(trimmed);
    var fraction := FractionDigits(trimmed);
    if !(AllDigits(whole) && AllDigits(fraction)) || trimmed == "" || trimmed == "." then
      Failure(NotANumber)
    else if |fraction| > decimals then
      Failure(TooManyDecimals)
    else
      Success(BaseUnits(whole, fraction, decimals))
  }

  /** `whole * 10n ** BigInt(decimals) + fraction`, with the fraction padded on the right. */
  function BaseUnits(whole: string, fraction: string, decimals: nat): nat
    requires AllDigits(whole) && AllDigits(fraction)
  {
    Parse(whole) * Pow10(decimals) + Parse(PadEnd(fraction, decimals))
  }

  /** The words by which the callers tell the two errors apart. */
  const PLACES := "decimal places"

  const NOT_VALID := " is not a valid amount."
  const MORE_PLACES := " has more " + PLACES + " than this token supports ("

  function Quoted(s: string): string {
    "\"" + s + "\""
  }

  /** What the thrown InvalidTokenAmountError says: it quotes the input as it was passed in. */
  function Message(input: string, decimals: nat, e: AmountError): string {
    match e
    case NotANumber => Quoted(input) + NOT_VALID
    case TooManyDecimals => Quoted(input) + MORE_PLACES + (Print(decimals) + ").")
  }

  // ----------------------------------------- what the parser accepts and means

  /** A plain decimal: digits, optionally a dot and more digits, at least one digit in all. */
  ghost predicate Spells(s: string, whole: string, fraction: string) {
    && AllDigits(whole) && AllDigits(fraction)
    && |whole| + |fraction| > 0
    && ((s == whole && fraction == "") || s == whole + "." + fraction)
  }

  lemma DotSplits(whole: string, fraction: string)
    requires AllDigits(whole)
    ensures WholePart(whole + "." + fraction) == whole
    ensures FractionDigits(whole + "." + fraction) == fraction
    ensures WholePart(whole) == whole && FractionDigits(whole) == ""
  {
    var s := whole + "." + fraction;
    assert s[|whole|] == '.';
    assert forall j :: 0 <= j < |whole| ==> s[j] == whole[j];
    assert DotIndex(s) == |whole|;
  }

  lemma SpellsIffMatches(s: string)
    ensures (exists w, f :: Spells(s, w, f)) <==>
            AllDigits(WholePart(s)) && AllDigits(FractionDigits(s)) && s != "" && s != "."
    ensures (exists w, f :: Spells(s, w, f)) <==> Spells(s, WholePart(s), FractionDigits(s))
    ensures forall w, f :: Spells(s, w, f) ==> w == WholePart(s) && f == FractionDigits(s)
  {
    forall w, f | Spells(s, w, f)
      ensures w == WholePart(s) && f == FractionDigits(s) && s != "" && s != "."
    {
      DotSplits(w, f);
    }
    if AllDigits(WholePart(s)) && AllDigits(FractionDigits(s)) && s != "" && s != "." {
      if DotIndex(s) < |s| {
        assert s == WholePart(s) + "." + FractionDigits(s);
      }
      assert Spells(s, WholePart(s), FractionDigits(s));
    }
  }

  /** What parsing an already trimmed string yields, in terms of how it is spelled. */
  ghost predicate ReadsSpelling(s: string, decimals: nat, r: Result<nat, AmountError>) {
    && (r == Failure(NotANumber) <==> forall w, f :: !Spells(s, w, f))
    && (forall w, f :: Spells(s, w, f) ==>
          if |f| > decimals then r == Failure(TooManyDecimals)
          else r.Success? && r.value * Pow10(|f|) == Parse(w + f) * Pow10(decimals))
  }

  lemma ParseTrimmedMeaning(s: string, decimals: nat)
    ensures ReadsSpelling(s, decimals, ParseTrimmed(s, decimals))
  {
    var r := ParseTrimmed(s, decimals);
    SpellsIffMatches(s);
    hide Parse, Pow10, PadEnd, DotIndex;
    forall w, f | Spells(s, w, f)
      ensures if |f| > decimals then r == Failure(TooManyDecimals)
              else r.Success? && r.value * Pow10(|f|) == Parse(w + f) * Pow10(decimals)
    {
      if |f| <= decimals {
        ScaleValue(w, f, decimals);
      }
    }
    if r != Failure(NotANumber) {
      assert Spells(s, WholePart(s), FractionDigits(s));
    }
  }

  /** The parser accepts exactly the plain decimals with at most `decimals` fraction digits,
      tells too many fraction digits apart from everything else, and the value it returns is
      the number spelled, scaled by 10^decimals:
      value / 10^decimals == digits / 10^|fraction|. */
  lemma ParseAmountMeaning(input: string, decimals: nat)
    ensures ReadsSpelling(Trim(input), decimals, ParseAmount(input, decimals))
  {
    ParseTrimmedMeaning(Trim(input), decimals);
  }

  lemma Pow10Sum(a: nat, b: nat)
    ensures Pow10(a + b) == Pow10(a) * Pow10(b)
  {
    if a > 0 {
      Pow10Sum(a - 1, b);
      assert 10 * (Pow10(a - 1) * Pow10(b)) == (10 * Pow10(a - 1)) * Pow10(b);
    }
  }

  lemma ParsePadEnd(f: string, decimals: nat)
    requires AllDigits(f) && |f| <= decimals
    ensures AllDigits(PadEnd(f, decimals))
    ensures Parse(PadEnd(f, decimals)) == Parse(f) * Pow10(decimals - |f|)
  {
    if |f| < decimals {
      ParseConcat(f, Zeros(decimals - |f|));
      ParseZeros(decimals - |f|);
    } else {
      assert Pow10(0) == 1;
    }
  }

  lemma Rescale(w: nat, f: nat, p: nat, q: nat)
    ensures (w * (p * q) + f * p) * q == (w * q + f) * (p * q)
  {
    assert (w * (p * q)) * q == (w * q) * (p * q);
    assert (f * p) * q == f * (p * q);
  }

  lemma ScaleValue(w: string, f: string, decimals: nat)
    requires AllDigits(w) && AllDigits(f) && |f| <= decimals
    ensures AllDigits(PadEnd(f, decimals)) && AllDigits(w + f)
    ensures (Parse(w) * Pow10(decimals) + Parse(PadEnd(f, decimals))) * Pow10(|f|)
            == Parse(w + f) * Pow10(decimals)
  {
    ParsePadEnd(f, decimals);
    ParseConcat(w, f);
    Pow10Sum(decimals - |f|, |f|);
    var p, q, W, F := Pow10(decimals - |f|), Pow10(|f|), Parse(w), Parse(f);
    assert Pow10(decimals) == p * q;
    Rescale(W, F, p, q);
  }

  // --------------------------------------------------------------- round trip

  function RemoveCommas(s: string): string {
    if s == [] then ""
    else if s[0] == ',' then RemoveCommas(s[1..])
    else [s[0]] + RemoveCommas(s[1..])
  }

  lemma Associate(a: string, b: string, c: string)
    ensures (a + b) + c == a + (b + c)
  {
  }

  lemma RemoveCommasCons(c: char, s: string)
    ensures RemoveCommas([c] + s) == (if c == ',' then [] else [c]) + RemoveCommas(s)
  {
    assert ([c] + s)[1..] == s;
  }

  lemma {:induction false} RemoveCommasConcat(a: string, b: string)
    ensures RemoveCommas(a + b) == RemoveCommas(a) + RemoveCommas(b)
  {
    if a == [] {
      assert a + b == b;
    } else {
      var c, rest := a[0], a[1..];
      var head: string := if c == ',' then [] else [c];
      RemoveCommasConcat(rest, b);
      assert a == [c] + rest;
      Associate([c], rest, b);
      RemoveCommasCons(c, rest);
      RemoveCommasCons(c, rest + b);
      Associate(head, RemoveCommas(rest), RemoveCommas(b));
    }
  }

  lemma {:induction false} RemoveCommasPlain(s: string)
    requires ',' !in s
    ensures RemoveCommas(s) == s
  {
    if s != [] {
      RemoveCommasPlain(s[1..]);
    }
  }

  lemma {:induction false} UngroupFrom(digits: string, i: nat)
    requires AllDigits(digits) && i <= |digits|
    ensures RemoveCommas(GroupFrom(digits, i)) == digits[i..]
    decreases |digits| - i
  {
    if i < |digits| {
      UngroupFrom(digits, i + 1);
      var head := (if CommaBefore(digits, i) then "," else "") + [digits[i]];
      RemoveCommasConcat(head, GroupFrom(digits, i + 1));
      if CommaBefore(digits, i) {
        assert head == [',', digits[i]];
        assert head[1..] == [digits[i]];
        assert RemoveCommas(head) == RemoveCommas([digits[i]]);
      }
      assert RemoveCommas([digits[i]]) == [digits[i]] + RemoveCommas([]);
      assert digits[i..] == [digits[i]] + digits[i + 1..];
    }
  }

  /** `t` digits and their commas take t + t/3 places: no digit falls on a fourth place from the
      right, and the comma before a full group does. */
  lemma FourthPlaces(t: nat)
    ensures (t + t / 3) % 4 != 3
    ensures (t + 1) % 3 == 0 ==> (t + t / 3 + 1) % 4 == 3
    ensures (t + 1) / 3 == if (t + 1) % 3 == 0 then t / 3 + 1 else t / 3
  {
  }

  lemma {:induction false} GroupedLength(digits: string, i: nat)
    requires i <= |digits|
    ensures var m := |digits| - i;
            |GroupFrom(digits, i)| == if m == 0 then 0 else m + (if i == 0 then (m - 1) / 3 else m / 3)
    decreases |digits| - i
  {
    if i < |digits| {
      GroupedLength(digits, i + 1);
      FourthPlaces(|digits| - i - 1);
    }
  }

  ghost predicate CommasOnFourths(g: string) {
    forall j :: 0 <= j < |g| ==> (g[j] == ',' <==> (|g| - 1 - j) % 4 == 3)
  }

  lemma PrependFourth(head: string, rest: string)
    requires CommasOnFourths(rest)
    requires forall j :: 0 <= j < |head| ==> (head[j] == ',' <==> (|head| + |rest| - 1 - j) % 4 == 3)
    ensures CommasOnFourths(head + rest)
  {
    var g := head + rest;
    forall j | 0 <= j < |g|
      ensures g[j] == ',' <==> (|g| - 1 - j) % 4 == 3
    {
      if j >= |head| {
        assert g[j] == rest[j - |head|];
      }
    }
  }

  lemma HeadOnFourths(digits: string, i: nat, head: string)
    requires AllDigits(digits) && i < |digits|
    requires head == (if CommaBefore(digits, i) then [',', digits[i]] else [digits[i]])
    ensures var rest := |GroupFrom(digits, i + 1)|;
            forall j :: 0 <= j < |head| ==> (head[j] == ',' <==> (|head| + rest - 1 - j) % 4 == 3)
  {
    GroupedLength(digits, i + 1);
    FourthPlaces(|digits| - i - 1);
    hide GroupFrom;
    assert IsDigit(digits[i]) && digits[i] != ',';
  }

  /** Reading the grouped digits from the right, every fourth character is a comma and
      nothing else is. */
  lemma {:induction false} CommasFrom(digits: string, i: nat)
    requires AllDigits(digits) && i <= |digits|
    ensures CommasOnFourths(GroupFrom(digits, i))
    decreases |digits| - i
  {
    if i < |digits| {
      CommasFrom(digits, i + 1);
      var head := if CommaBefore(digits, i) then [',', digits[i]] else [digits[i]];
      HeadOnFourths(digits, i, head);
      assert GroupFrom(digits, i) == head + GroupFrom(digits, i + 1);
      hide CommasOnFourths, GroupFrom, AllDigits;
      PrependFourth(head, GroupFrom(digits, i + 1));
    }
  }

  lemma GroupedDigits(n: nat)
    ensures var g := Group(Print(n));
            && RemoveCommas(g) == Print(n)
            && CommasOnFourths(g)
            && g != [] && g[0] != '-' && g[0] != '.'
            && forall c :: c in g ==> c == ',' || IsDigit(c)
  {
    var d := Print(n);
    UngroupFrom(d, 0);
    CommasFrom(d, 0);
    GroupChars(d, 0);
    assert d[0..] == d;
    assert Group(d)[0] == d[0];
  }

  lemma {:induction false} GroupChars(digits: string, i: nat)
    requires AllDigits(digits) && i <= |digits|
    ensures forall c :: c in GroupFrom(digits, i) ==> c == ',' || IsDigit(c)
    decreases |digits| - i
  {
    if i < |digits| {
      GroupChars(digits, i + 1);
    }
  }

  lemma ParseLeadingZeros(k: nat, s: string)
    requires AllDigits(s)
    ensures AllDigits(Zeros(k) + s) && Parse(Zeros(k) + s) == Parse(s)
  {
    ParseConcat(Zeros(k), s);
    ParseZeros(k);
    assert 0 * Pow10(|s|) == 0;
  }

  lemma ParsePadStart(n: nat, width: nat)
    requires width > 0 && n < Pow10(width)
    ensures var s := PadStart(Print(n), width);
            |s| == width && AllDigits(s) && Parse(s) == n
  {
    var digits := Print(n);
    PrintWidth(n, width);
    ParsePrint(n);
    if |digits| < width {
      ParseLeadingZeros(width - |digits|, digits);
    }
  }

  lemma StripThenPad(padded: string, decimals: nat)
    requires |padded| == decimals && AllDigits(padded)
    ensures var f := StripTrailingZeros(padded);
            |f| <= decimals && AllDigits(f) && PadEnd(f, decimals) == padded
  {
    var f := StripTrailingZeros(padded);
    assert forall i :: 0 <= i < |f| ==> f[i] == padded[i];
    assert |f| == decimals ==> f + Zeros(0) == f;
  }

  /** The digits after the dot, read back at the same number of decimals. */
  lemma FractionReadsBack(amount: int, decimals: nat)
    ensures var f := Fraction(amount, decimals);
            && |f| <= decimals && AllDigits(f) && AllDigits(PadEnd(f, decimals))
            && Whole(amount, decimals) * Pow10(decimals) + Parse(PadEnd(f, decimals)) == Abs(amount)
  {
    var fraction := Remainder(Abs(amount), Pow10(decimals));
    if decimals > 0 {
      ParsePadStart(fraction, decimals);
      StripThenPad(PadStart(Print(fraction), decimals), decimals);
    } else {
      assert Pow10(0) == 1 && PadEnd("", 0) == "";
    }
  }

  lemma AssembledEnd(sign: string, g: string, f: string)
    requires sign == "" || sign == "-"
    requires g != "" && forall c :: c in g ==> c == ',' || IsDigit(c)
    requires f != "" ==> IsDigit(f[|f| - 1]) && f[|f| - 1] != '0'
    ensures var s := sign + g + Dotted(f);
            s != "" && s[|s| - 1] != '.' && ('.' in s ==> s[|s| - 1] != '0')
  {
    var s := sign + g + Dotted(f);
    if f == "" {
      assert s[|s| - 1] == g[|g| - 1];
      assert forall i :: 0 <= i < |s| ==> s[i] == '-' || s[i] in g;
    } else {
      assert s[|s| - 1] == f[|f| - 1];
    }
  }

  lemma FractionEnd(amount: int, decimals: nat)
    ensures var f := Fraction(amount, decimals); f != "" ==> IsDigit(f[|f| - 1]) && f[|f| - 1] != '0'
  {
    FractionReadsBack(amount, decimals);
  }

  /** Nothing idle is printed: no zero at the end of the fraction, no dot without a fraction, no zero
      at the front of the whole part. */
  lemma NoIdleZeros(amount: int, decimals: nat)
    ensures var s := Format(amount, decimals);
            s != "" && s[|s| - 1] != '.' && ('.' in s ==> s[|s| - 1] != '0')
    ensures var digits := Print(Whole(amount, decimals));
            digits[0] == '0' ==> digits == "0" && Whole(amount, decimals) == 0
  {
    hide Fraction, Whole, Print, Group, PadEnd, Parse, Dotted;
    NoLeadingZero(Whole(amount, decimals));
    FractionEnd(amount, decimals);
    GroupedDigits(Whole(amount, decimals));
    AssembledEnd(Sign(amount), Group(Print(Whole(amount, decimals))), Fraction(amount, decimals));
  }

  lemma NoSpaces(s: string)
    requires forall c :: c in s ==> IsDigit(c) || c == '.' || c == ',' || c == '-'
    ensures Trim(s) == s
  {
    if s != [] {
      assert s[0] in s && s[|s| - 1] in s;
    }
  }

  lemma NotJustDot(w: string, tail: string)
    requires AllDigits(w) && w != ""
    ensures w + tail != "" && w + tail != "."
  {
    assert (w + tail)[0] == w[0] && IsDigit(w[0]);
  }

  lemma ParseSplit(s: string, w: string, f: string, decimals: nat)
    requires WholePart(s) == w && FractionDigits(s) == f && s != "" && s != "."
    requires AllDigits(w) && AllDigits(f) && |f| <= decimals
    ensures ParseTrimmed(s, decimals) == Success(BaseUnits(w, f, decimals))
  {
    hide BaseUnits, AllDigits, WholePart, FractionDigits;
  }

  lemma ParseParts(w: string, f: string, decimals: nat)
    requires AllDigits(w) && w != "" && AllDigits(f) && |f| <= decimals
    ensures ParseTrimmed(w + Dotted(f), decimals) == Success(BaseUnits(w, f, decimals))
  {
    NotJustDot(w, Dotted(f));
    DotSplits(w, f);
    hide BaseUnits, AllDigits, WholePart, FractionDigits, ParseTrimmed;
    if f == "" {
      assert w + Dotted(f) == w;
      ParseSplit(w, w, f, decimals);
    } else {
      Associate(w, ".", f);
      ParseSplit(w + "." + f, w, f, decimals);
    }
  }

  lemma ParsePrinted(whole: nat, f: string, decimals: nat)
    requires AllDigits(f) && |f| <= decimals
    ensures AllDigits(PadEnd(f, decimals))
    ensures ParseTrimmed(Print(whole) + Dotted(f), decimals)
            == Success(whole * Pow10(decimals) + Parse(PadEnd(f, decimals)))
  {
    hide Parse, Pow10, PadEnd, Print, Dotted, ParseTrimmed, AllDigits;
    ParsePrint(whole);
    ParsePadEnd(f, decimals);
    ParseParts(Print(whole), f, decimals);
  }

  /** An amount printed without its sign and its commas. */
  function Plain(amount: int, decimals: nat): string {
    Print(Whole(amount, decimals)) + Dotted(Fraction(amount, decimals))
  }

  lemma PlainChars(whole: nat, f: string)
    requires AllDigits(f)
    ensures Trim(Print(whole) + Dotted(f)) == Print(whole) + Dotted(f)
  {
    NoSpaces(Print(whole) + Dotted(f));
  }

  lemma ParsePlainParts(whole: nat, f: string, decimals: nat)
    requires AllDigits(f) && |f| <= decimals && AllDigits(PadEnd(f, decimals))
    ensures ParseAmount(Print(whole) + Dotted(f), decimals)
            == Success(whole * Pow10(decimals) + Parse(PadEnd(f, decimals)))
  {
    ParsePrinted(whole, f, decimals);
    PlainChars(whole, f);
  }

  lemma ParsePlain(amount: int, decimals: nat)
    ensures ParseAmount(Plain(amount, decimals), decimals) == Success(Abs(amount))
  {
    hide ParseAmount, Fraction, Whole, PadEnd;
    FractionReadsBack(amount, decimals);
    ParsePlainParts(Whole(amount, decimals), Fraction(amount, decimals), decimals);
  }

  lemma AssembledChars(sign: string, whole: nat, f: string)
    requires sign == "" || sign == "-"
    requires AllDigits(f)
    ensures var s := sign + Group(Print(whole)) + Dotted(f);
            && s != [] && (s[0] == '-' <==> sign == "-")
            && forall c :: c in s ==> IsDigit(c) || c == '.' || c == ',' || c == '-'
  {
    GroupedDigits(whole);
  }

  lemma AssembledUngroups(sign: string, whole: nat, f: string)
    requires sign == "" || sign == "-"
    requires AllDigits(f)
    ensures RemoveCommas(sign + Group(Print(whole)) + Dotted(f)) == sign + (Print(whole) + Dotted(f))
  {
    var g, tail := Group(Print(whole)), Dotted(f);
    GroupedDigits(whole);
    RemoveCommasPlain(tail);
    RemoveCommasPlain(sign);
    RemoveCommasConcat(sign + g, tail);
    RemoveCommasConcat(sign, g);
    Associate(sign, Print(whole), tail);
  }

  lemma FormatShape(amount: int, decimals: nat)
    ensures var s := Format(amount, decimals);
            && RemoveCommas(s) == Sign(amount) + Plain(amount, decimals)
            && s != [] && (s[0] == '-' <==> amount < 0)
            && forall c :: c in s ==> IsDigit(c) || c == '.' || c == ',' || c == '-'
  {
    FractionReadsBack(amount, decimals);
    AssembledChars(Sign(amount), Whole(amount, decimals), Fraction(amount, decimals));
    AssembledUngroups(Sign(amount), Whole(amount, decimals), Fraction(amount, decimals));
  }

  /** Printing and then parsing is the identity on every non-negative amount. */
  lemma ParseFormat(amount: nat, decimals: nat)
    ensures ParseAmount(RemoveCommas(Format(amount, decimals)), decimals) == Success(amount)
  {
    FormatShape(amount, decimals);
    ParsePlain(amount, decimals);
    assert Sign(amount) + Plain(amount, decimals) == Plain(amount, decimals);
  }

  /** At fixed decimals no two amounts, negative ones included, print the same. */
  lemma FormatInjective(a: int, b: int, decimals: nat)
    requires Format(a, decimals) == Format(b, decimals)
    ensures a == b
  {
    FormatShape(a, decimals);
    FormatShape(b, decimals);
    ParsePlain(a, decimals);
    ParsePlain(b, decimals);
    var sa, sb := Sign(a) + Plain(a, decimals), Sign(b) + Plain(b, decimals);
    assert Plain(a, decimals) == sa[|Sign(a)|..];
    assert Plain(b, decimals) == sb[|Sign(b)|..];
  }

  /** The printed form is itself accepted by the parser exactly when it carries neither a
      minus sign nor a comma, and it then means the amount it was printed from. */
  lemma FormatReparsesUnedited(amount: int, decimals: nat)
    ensures ParseAmount(Format(amount, decimals), decimals)
            == if 0 <= amount < 1000 * Pow10(decimals) then Success(amount) else Failure(NotANumber)
  {
    var s := Format(amount, decimals);
    FormatShape(amount, decimals);
    NoSpaces(s);
    if amount < 0 {
      NotAccepted(s, 0, decimals);
    } else {
      WholeBelow(amount, decimals);
      FractionReadsBack(amount, decimals);
      CommaPlace(Whole(amount, decimals), Fraction(amount, decimals));
      if amount < 1000 * Pow10(decimals) {
        RemoveCommasPlain(s);
        ParseFormat(amount, decimals);
      } else {
        var i :| 0 <= i < |s| && s[i] == ',';
        NotAccepted(s, i, decimals);
      }
    }
  }

  lemma CommaPlace(whole: nat, f: string)
    requires AllDigits(f)
    ensures ',' in "" + Group(Print(whole)) + Dotted(f) <==> whole >= 1000
  {
    var g := Group(Print(whole));
    CommaIff(whole);
    assert "" + g + Dotted(f) == g + Dotted(f);
    assert ',' !in Dotted(f);
    if whole >= 1000 {
      assert g[|g| - 4] in g;
    }
  }

  lemma WholeBelow(amount: nat, decimals: nat)
    ensures Whole(amount, decimals) < 1000 <==> amount < 1000 * Pow10(decimals)
  {
    Threshold(amount, Whole(amount, decimals), Pow10(decimals));
  }

  lemma Threshold(a: nat, q: nat, p: nat)
    requires q * p <= a < q * p + p
    ensures q < 1000 <==> a < 1000 * p
  {
    if q < 1000 {
      assert q * p <= 999 * p;
    } else {
      assert q * p >= 1000 * p;
    }
  }

  lemma CommaIff(whole: nat)
    ensures var g := Group(Print(whole));
            if whole < 1000 then ',' !in g else |g| > 3 && g[|g| - 4] == ','
  {
    Thousand();
    if whole < 1000 {
      PrintWidth(whole, 3);
    } else {
      PrintAtLeast(whole, 3);
    }
    FirstComma(Print(whole));
  }

  lemma FirstComma(digits: string)
    requires AllDigits(digits)
    ensures var g := Group(digits);
            if |digits| <= 3 then ',' !in g else |g| > 3 && g[|g| - 4] == ','
  {
    CommasFrom(digits, 0);
    GroupedLength(digits, 0);
  }

  lemma Thousand()
    ensures Pow10(3) == 1000
  {
    assert Pow10(1) == 10 && Pow10(2) == 100;
  }

  lemma NotAccepted(s: string, i: nat, decimals: nat)
    requires i < |s| && !IsDigit(s[i]) && s[i] != '.'
    ensures ParseTrimmed(s, decimals) == Failure(NotANumber)
  {
    var dot := DotIndex(s);
    if i < dot {
      assert WholePart(s)[i] == s[i];
    } else {
      assert FractionDigits(s)[i - dot - 1] == s[i];
    }
  }

  // -------------------------------------------------------------- basis points

  /** formatBps, on the unsigned values the contract stores. */
  function FormatBps(bps: nat): string {
    Print(bps / 100) + "." + PadStart(Print(bps % 100), 2) + "%"
  }

  lemma FormatBpsShape(bps: nat)
    ensures var s, f := FormatBps(bps), PadStart(Print(bps % 100), 2);
            && AllDigits(f) && |f| == 2 && Parse(f) == bps % 100
            && s[|s| - 1] == '%' && s[..|s| - 1] == Print(bps / 100) + Dotted(f)
  {
    assert Pow10(1) == 10 && Pow10(2) == 100;
    ParsePadStart(bps % 100, 2);
  }

  /** The printed percentage, without its sign, is read back as the same basis points by
      the parser the form uses for its uptime field. */
  lemma ParseFormatBps(bps: nat)
    ensures var s := FormatBps(bps);
            s[|s| - 1] == '%' && ParseAmount(s[..|s| - 1], 2) == Success(bps)
  {
    hide ParseAmount, PadStart, FormatBps;
    var f := PadStart(Print(bps % 100), 2);
    FormatBpsShape(bps);
    assert Pow10(1) == 10 && Pow10(2) == 100;
    ParsePlainParts(bps / 100, f, 2);
  }
}
