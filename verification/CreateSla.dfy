/** The create-SLA form (apps/web/lib/create-sla-validation.ts), the transaction builder it
    feeds (packages/sdk/src/sla-vault.ts, validate.ts, hash.ts) and the form component that
    joins the two. */
module CreateSla {
  import opened Wrappers
  import opened Decimal
  import opened TokenAmount
  import opened WhiteSpace
  import JsNumbers
  import LedgerClock

  const MAX_I128: nat := 0x7FFF_FFFF_FFFF_FFFF_FFFF_FFFF_FFFF_FFFF
  const MAX_U32: nat := 0xFFFF_FFFF
  const MAX_BPS: nat := 10_000

  type Hash32 = h: seq<bv8> | |h| == 32 witness seq(32, _ => 0)

  /** Foreign code: StrKey checksums, the URL parser and SHA-256. */
  datatype Platform = Platform(
    isContract: string -> bool,
    isPublicKey: string -> bool,
    isUrlWithHost: string -> bool,
    sha256: string -> Hash32
  ) {
    predicate IsAddress(s: string) {
      isPublicKey(s) || isContract(s)
    }
  }

  // ------------------------------------------------------------ endpoint hash

  const DOMAIN_PREFIX := "slasettle:endpoint:v1:"

  predicate IsAsciiSpace(c: char) {
    '\t' <= c <= '\r' || c == ' '
  }

  function TrimEndpoint(s: string): string {
    if s != [] && IsAsciiSpace(s[0]) then TrimEndpoint(s[1..])
    else if s != [] && IsAsciiSpace(s[|s| - 1]) then TrimEndpoint(s[..|s| - 1])
    else s
  }

  datatype EndpointError = EmptyEndpoint | NotHttp | BadUrl

  function ComputeEndpointHash(p: Platform, endpoint: string): Result<Hash32, EndpointError> {
    var trimmed := TrimEndpoint(endpoint);
    if trimmed == "" then Failure(EmptyEndpoint)
    else if !("http://" <= trimmed) && !("https://" <= trimmed) then Failure(NotHttp)
    else if !p.isUrlWithHost(trimmed) then Failure(BadUrl)
    else Success(p.sha256(DOMAIN_PREFIX + trimmed))
  }

  /** Space, tab, line feed, carriage return, vertical tab or form feed. */
  predicate IsBlank(c: char) {
    c == ' ' || c == '\t' || c == '\n' || c == '\r' || c == '\U{0B}' || c == '\U{0C}'
  }

  /** `url` stands in `endpoint` with nothing but blanks around it, and has none at its own ends. */
  ghost predicate StandsIn(endpoint: string, before: string, url: string, rest: string) {
    && endpoint == before + url + rest
    && (forall i :: 0 <= i < |before| ==> IsBlank(before[i])) && (forall i :: 0 <= i < |rest| ==> IsBlank(rest[i]))
    && (url != "" ==> !IsBlank(url[0]) && !IsBlank(url[|url| - 1]))
  }

  lemma MoreBlank(c: char, s: string, before: string, url: string, rest: string)
    requires IsBlank(c) && StandsIn(s, before, url, rest)
    ensures StandsIn([c] + s, [c] + before, url, rest) && StandsIn(s + [c], before, url, rest + [c])
  {
  }

  lemma StandsAlone(s: string)
    requires s != "" ==> !IsBlank(s[0]) && !IsBlank(s[|s| - 1])
    ensures StandsIn(s, "", s, "")
  {
    assert s == "" + s + "";
  }

  lemma {:induction false} TrimEndpointStands(s: string) returns (before: string, rest: string)
    ensures StandsIn(s, before, TrimEndpoint(s), rest)
  {
    hide StandsIn;
    before, rest := "", "";
    if s != [] && IsAsciiSpace(s[0]) {
      before, rest := TrimEndpointStands(s[1..]);
      MoreBlank(s[0], s[1..], before, TrimEndpoint(s[1..]), rest);
      assert s == [s[0]] + s[1..];
      before := [s[0]] + before;
    } else if s != [] && IsAsciiSpace(s[|s| - 1]) {
      before, rest := TrimEndpointStands(s[..|s| - 1]);
      MoreBlank(s[|s| - 1], s[..|s| - 1], before, TrimEndpoint(s[..|s| - 1]), rest);
      assert s == s[..|s| - 1] + [s[|s| - 1]];
      rest := rest + [s[|s| - 1]];
    } else {
      StandsAlone(s);
    }
  }

  lemma {:induction false} OnlyTrimmedStands(s: string, before: string, url: string, rest: string)
    requires StandsIn(s, before, url, rest)
    ensures url == TrimEndpoint(s)
    decreases |s|
  {
    if s != [] && IsBlank(s[0]) {
      if before != "" {
        assert s[1..] == before[1..] + url + rest;
        OnlyTrimmedStands(s[1..], before[1..], url, rest);
      } else {
        assert s[1..] == before + url + rest[1..];
        OnlyTrimmedStands(s[1..], before, url, rest[1..]);
      }
    } else if s != [] && IsBlank(s[|s| - 1]) {
      assert s[..|s| - 1] == before + url + rest[..|rest| - 1];
      OnlyTrimmedStands(s[..|s| - 1], before, url, rest[..|rest| - 1]);
    }
  }

  /** The commitment to an endpoint is the SHA-256 of the domain prefix and the URL as it stands in
      the input, which must begin with http:// or https:// and parse with a host; for any other input
      there is none. */
  lemma EndpointCommitment(p: Platform, endpoint: string, h: Hash32)
    ensures ComputeEndpointHash(p, endpoint) == Success(h) <==>
            exists before, url, rest :: StandsIn(endpoint, before, url, rest)
              && ("http://" <= url || "https://" <= url) && p.isUrlWithHost(url)
              && h == p.sha256("slasettle:endpoint:v1:" + url)
  {
    var before, rest := TrimEndpointStands(endpoint);
    forall b, url, r | StandsIn(endpoint, b, url, r)
      ensures url == TrimEndpoint(endpoint)
    {
      OnlyTrimmedStands(endpoint, b, url, r);
    }
    hide StandsIn, TrimEndpoint;
  }

  // ------------------------------------------------------------------ the SDK

  datatype CreateParams = CreateParams(
    provider: string,
    token: string,
    endpointUrl: Option<string>,
    endpointHash: Option<seq<bv8>>,
    bondAmount: int,
    uptimeTargetBps: int,
    quorumThreshold: int,
    penaltyPerBreach: int,
    beneficiary: string
  )

  datatype CreateSlaCall = CreateSlaCall(
    provider: string,
    token: string,
    endpointHash: Hash32,
    bondAmount: int,
    uptimeTargetBps: int,
    quorumThreshold: int,
    penaltyPerBreach: int,
    beneficiary: string
  )

  predicate PositiveAmount(v: int) {
    0 < v <= MAX_I128
  }

  predicate U32Between(v: int, min: int, max: int) {
    min <= v <= max
  }

  function ResolveEndpointHash(p: Platform, params: CreateParams): Result<Hash32, string> {
    if params.endpointUrl.Some? == params.endpointHash.Some? then
      Failure("endpointUrl/endpointHash")
    else if params.endpointUrl.Some? then
      match ComputeEndpointHash(p, params.endpointUrl.value)
      case Success(h) => Success(h)
      case Failure(_) => Failure("endpointUrl")
    else if |params.endpointHash.value| != 32 then
      Failure("endpointHash")
    else
      Success(params.endpointHash.value)
  }

  /** The precondition block of buildCreateSlaTx; a failure names the refused field. */
  function BuildCreateSlaTx(p: Platform, params: CreateParams): Result<CreateSlaCall, string> {
    if !p.IsAddress(params.provider) then Failure("provider")
    else if !p.isContract(params.token) then Failure("token")
    else if !p.IsAddress(params.beneficiary) then Failure("beneficiary")
    else if !PositiveAmount(params.bondAmount) then Failure("bondAmount")
    else if !PositiveAmount(params.penaltyPerBreach) then Failure("penaltyPerBreach")
    else if !U32Between(params.uptimeTargetBps, 1, MAX_BPS) then Failure("uptimeTargetBps")
    else if !U32Between(params.quorumThreshold, 1, MAX_U32) then Failure("quorumThreshold")
    else
      var hash :- ResolveEndpointHash(p, params);
      Success(CreateSlaCall(params.provider, params.token, hash, params.bondAmount,
                            params.uptimeTargetBps, params.quorumThreshold,
                            params.penaltyPerBreach, params.beneficiary))
  }

  /** What the contract call takes from arbitrary parameters: an endpoint commitment given one way or
      the other, never both, never neither. */
  ghost predicate CommitmentGiven(p: Platform, params: CreateParams, hash: Hash32) {
    || (params.endpointUrl.Some? && params.endpointHash.None?
        && ComputeEndpointHash(p, params.endpointUrl.value) == Success(hash))
    || (params.endpointUrl.None? && params.endpointHash == Some(hash))
  }

  /** The call is built exactly when every parameter is acceptable to the contract, and carries the
      parameters unchanged with the commitment given. */
  lemma BuildsExactly(p: Platform, params: CreateParams, call: CreateSlaCall)
    ensures BuildCreateSlaTx(p, params) == Success(call) <==>
            && (p.isPublicKey(params.provider) || p.isContract(params.provider)) && p.isContract(params.token)
            && (p.isPublicKey(params.beneficiary) || p.isContract(params.beneficiary))
            && 1 <= params.bondAmount < 0x8000_0000_0000_0000_0000_0000_0000_0000
            && 1 <= params.penaltyPerBreach < 0x8000_0000_0000_0000_0000_0000_0000_0000
            && 1 <= params.uptimeTargetBps <= 10_000 && 1 <= params.quorumThreshold < 0x1_0000_0000
            && CommitmentGiven(p, params, call.endpointHash)
            && call.provider == params.provider && call.token == params.token && call.beneficiary == params.beneficiary
            && call.bondAmount == params.bondAmount && call.penaltyPerBreach == params.penaltyPerBreach
            && call.uptimeTargetBps == params.uptimeTargetBps && call.quorumThreshold == params.quorumThreshold
  {
    hide ComputeEndpointHash;
  }

  predicate IsUsable(v: int) {
    1 <= v < 0x8000_0000_0000_0000_0000_0000_0000_0000
  }

  /** A refusal names the first unacceptable parameter. */
  lemma RefusesFirst(p: Platform, params: CreateParams, field: string)
    requires BuildCreateSlaTx(p, params) == Failure(field)
    ensures field == "provider" <==> !p.IsAddress(params.provider)
    ensures field == "token" <==> p.IsAddress(params.provider) && !p.isContract(params.token)
    ensures field == "beneficiary" <==>
            p.IsAddress(params.provider) && p.isContract(params.token) && !p.IsAddress(params.beneficiary)
    ensures field == "bondAmount" ==> !IsUsable(params.bondAmount)
    ensures field == "penaltyPerBreach" ==> IsUsable(params.bondAmount) && !IsUsable(params.penaltyPerBreach)
    ensures field == "uptimeTargetBps" ==> IsUsable(params.penaltyPerBreach) && !(1 <= params.uptimeTargetBps <= 10_000)
    ensures field == "quorumThreshold" ==>
              1 <= params.uptimeTargetBps <= 10_000 && !(1 <= params.quorumThreshold < 0x1_0000_0000)
    ensures field == "endpointUrl/endpointHash" ==> params.endpointUrl.Some? == params.endpointHash.Some?
    ensures field == "endpointUrl" ==>
              params.endpointHash.None? && params.endpointUrl.Some?
              && ComputeEndpointHash(p, params.endpointUrl.value).Failure?
    ensures field == "endpointHash" ==>
              params.endpointUrl.None? && params.endpointHash.Some? && |params.endpointHash.value| != 32
    ensures field in {"provider", "token", "beneficiary", "bondAmount", "penaltyPerBreach", "uptimeTargetBps",
                      "quorumThreshold", "endpointUrl/endpointHash", "endpointUrl", "endpointHash"}
  {
    hide ComputeEndpointHash;
  }

  // ----------------------------------------------------------------- the form

  datatype FormValues = FormValues(
    endpoint: string,
    token: string,
    bondAmount: string,
    uptimeTargetPercent: string,
    quorumThreshold: string,
    penaltyPerBreach: string,
    beneficiary: string
  )

  datatype Problem = Missing | Malformed | NotHttpUrl | TooManyPlaces | TooSmall | TooLarge | ExceedsBond

  /** The errors object: one optional message per field. */
  datatype FieldErrors = FieldErrors(
    endpoint: Option<Problem>,
    token: Option<Problem>,
    bondAmount: Option<Problem>,
    uptimeTargetPercent: Option<Problem>,
    quorumThreshold: Option<Problem>,
    penaltyPerBreach: Option<Problem>,
    beneficiary: Option<Problem>
  )

  const NO_ERRORS := FieldErrors(None, None, None, None, None, None, None)

  datatype StaticFields = StaticFields(
    errors: FieldErrors,
    endpointHash: Option<Hash32>,
    quorumThreshold: Option<nat>,
    uptimeTargetBps: Option<nat>
  )

  /** The number a plain decimal input denotes, at the token's number of decimals. */
  ghost predicate Denotes(input: string, decimals: nat, value: nat) {
    exists w, f :: Spells(Trim(input), w, f) && |f| <= decimals
                   && value * Pow10(|f|) == Parse(w + f) * Pow10(decimals)
  }

  lemma ParsedIffDenotes(input: string, decimals: nat, value: nat)
    ensures ParseAmount(input, decimals) == Success(value) <==> Denotes(input, decimals, value)
  {
    ParseAmountMeaning(input, decimals);
    if ParseAmount(input, decimals) == Success(value) {
      var w, f :| Spells(Trim(input), w, f);
      assert |f| <= decimals && value * Pow10(|f|) == Parse(w + f) * Pow10(decimals);
    }
    if Denotes(input, decimals, value) {
      var w, f :| Spells(Trim(input), w, f) && |f| <= decimals
                  && value * Pow10(|f|) == Parse(w + f) * Pow10(decimals);
      var parsed := ParseAmount(input, decimals).value;
      CancelFactor(parsed, value, Pow10(|f|));
    }
  }

  lemma CancelFactor(a: nat, b: nat, p: nat)
    requires p > 0 && a * p == b * p
    ensures a == b
  {
    if a < b {
      TimesPositive(a, b, p);
    } else if b < a {
      TimesPositive(b, a, p);
    }
  }

  lemma TimesPositive(a: nat, b: nat, p: nat)
    requires p > 0 && a < b
    ensures a * p < b * p
  {
  }

  /** A whole number from 1 to 2^32 - 1, written in digits. */
  predicate QuorumAccepted(input: string) {
    var quorum := Trim(input);
    quorum != "" && AllDigits(quorum) && 1 <= Parse(quorum) <= MAX_U32
  }

  /** `bps` is what the uptime input denotes in hundredths of a percent, or there is no such
      number between 1 and 10000. */
  ghost predicate UptimeRead(input: string, bps: Option<nat>) {
    match bps
    case Some(v) => Denotes(input, 2, v) && 1 <= v <= MAX_BPS
    case None => forall v: nat :: Denotes(input, 2, v) ==> !(1 <= v <= MAX_BPS)
  }

  ghost predicate IsDecimal(s: string) {
    exists w, f :: Spells(s, w, f)
  }

  ghost predicate HasMorePlaces(s: string, decimals: nat) {
    exists w, f :: Spells(s, w, f) && |f| > decimals
  }

  ghost predicate DenotesMoreThan(input: string, decimals: nat, limit: nat) {
    exists v: nat :: v > limit && Denotes(input, decimals, v)
  }

  /** The complaint about the quorum field fits what was entered; None is no complaint. */
  predicate QuorumComplaint(input: string, problem: Option<Problem>) {
    var quorum := Trim(input);
    match problem
    case None => QuorumAccepted(input)
    case Some(Missing) => AllSpace(input)
    case Some(Malformed) => !AllSpace(input) && !AllDigits(quorum)
    case Some(TooSmall) => !AllSpace(input) && AllDigits(quorum) && Parse(quorum) == 0
    case Some(TooLarge) => !AllSpace(input) && AllDigits(quorum) && Parse(quorum) > MAX_U32
    case _ => false
  }

  // ------------------------------------------- amounts, and what is said of them

  predicate OccursAt(s: string, word: string, i: nat) {
    i + |word| <= |s| && s[i..i + |word|] == word
  }

  predicate Contains(s: string, word: string) {
    exists i :: 0 <= i <= |s| && OccursAt(s, word, i)
  }

  /** Both callers of parseTokenAmount tell its errors apart by the words of the message. */
  function ProblemNamed(message: string): Problem {
    if Contains(message, PLACES) then TooManyPlaces else Malformed
  }

  lemma OccursBetween(before: string, word: string, rest: string)
    ensures Contains(before + word + rest, word)
  {
    var s := before + word + rest;
    assert s[|before|..|before| + |word|] == word;
    assert 0 <= |before| <= |s| && OccursAt(s, word, |before|);
  }

  lemma ContainsMore(before: string, s: string, rest: string, word: string)
    requires Contains(s, word)
    ensures Contains(before + s + rest, word)
  {
    var i :| 0 <= i <= |s| && OccursAt(s, word, i);
    var t := before + s + rest;
    assert t[|before| + i..|before| + i + |word|] == s[i..i + |word|];
    assert 0 <= |before| + i <= |t| && OccursAt(t, word, |before| + i);
  }

  /** Quotation marks fence a quoted text off from what follows it. */
  lemma FencedOff(quoted: string, rest: string, word: string)
    requires word != "" && '"' !in word && (forall j :: 0 <= j <= |rest| - |word| ==> rest[j] != word[0])
    requires Contains(Quoted(quoted) + rest, word)
    ensures Contains(quoted, word)
  {
    var message, end := Quoted(quoted) + rest, |quoted| + 1;
    var i :| 0 <= i <= |message| && OccursAt(message, word, i);
    assert message[i..i + |word|][0] == message[i] == word[0];
    forall m | i <= m < i + |word|
      ensures message[m] != '"'
    {
      assert message[i..i + |word|][m - i] == message[m];
    }
    assert message[0] == '"' && message[end] == '"';
    assert forall j :: 0 <= j < |rest| ==> message[end + 1 + j] == rest[j];
    assert i < end;
    assert message[i..i + |word|] == quoted[i - 1..i - 1 + |word|];
    assert OccursAt(quoted, word, i - 1);
  }

  /** The words stand in the message about too many places ... */
  lemma MorePlacesText()
    ensures Contains(MORE_PLACES, PLACES) && PLACES != "" && '"' !in PLACES
  {
    OccursBetween(" has more ", PLACES, " than this token supports (");
  }

  /** ... and cannot begin after the quotation in the other one. */
  lemma NotValidText()
    ensures forall j :: 0 <= j <= |NOT_VALID| - |PLACES| ==> NOT_VALID[j] != PLACES[0]
  {
  }

  /** The message has those words when there are too many places, and when the quoted input has
      them itself. */
  lemma MessageNames(quoted: string, decimals: nat, e: AmountError)
    ensures ProblemNamed(Message(quoted, decimals, e))
            == if e.TooManyDecimals? || Contains(quoted, PLACES) then TooManyPlaces else Malformed
  {
    MorePlacesText();
    NotValidText();
    hide Contains, PLACES, NOT_VALID, MORE_PLACES;
    match e {
      case TooManyDecimals =>
        ContainsMore(Quoted(quoted), MORE_PLACES, Print(decimals) + ").", PLACES);
      case NotANumber =>
        if Contains(quoted, PLACES) {
          ContainsMore("\"", quoted, "\"" + NOT_VALID, PLACES);
          assert "\"" + quoted + ("\"" + NOT_VALID) == Quoted(quoted) + NOT_VALID;
        }
        if Contains(Quoted(quoted) + NOT_VALID, PLACES) {
          FencedOff(quoted, NOT_VALID, PLACES);
        }
    }
  }

  /** `problem` is the complaint due about an amount field that allows 1 to `max`, its text quoted
      as `quoted` by the parser; None when there is nothing to complain about. */
  ghost predicate AmountComplaint(input: string, quoted: string, decimals: nat, max: nat, problem: Option<Problem>) {
    match problem
    case None => exists v: nat :: 1 <= v <= max && Denotes(input, decimals, v)
    case Some(Missing) => AllSpace(input)
    case Some(Malformed) => !AllSpace(input) && !IsDecimal(Trim(input)) && !Contains(quoted, PLACES)
    case Some(TooManyPlaces) =>
      !AllSpace(input) && (HasMorePlaces(Trim(input), decimals) || (!IsDecimal(Trim(input)) && Contains(quoted, PLACES)))
    case Some(TooSmall) => Denotes(input, decimals, 0)
    case Some(TooLarge) => DenotesMoreThan(input, decimals, max)
    case _ => false
  }

  /** What the form makes of the parser's outcome. */
  function ReadAmount(parsed: Result<nat, AmountError>, quoted: string, decimals: nat, max: nat): Result<nat, Problem> {
    match parsed
    case Failure(e) => Failure(ProblemNamed(Message(quoted, decimals, e)))
    case Success(value) =>
      if value < 1 then Failure(TooSmall)
      else if value > max then Failure(TooLarge)
      else Success(value)
  }

  function ProblemOf(r: Result<nat, Problem>): Option<Problem> {
    if r.Success? then None else Some(r.error)
  }

  lemma Readings(input: string, decimals: nat)
    ensures var r := ParseAmount(input, decimals);
            && (IsDecimal(Trim(input)) <==> r != Failure(NotANumber))
            && (HasMorePlaces(Trim(input), decimals) <==> r == Failure(TooManyDecimals))
            && (forall v: nat :: Denotes(input, decimals, v) <==> r == Success(v))
            && (Trim(input) == "" ==> r == Failure(NotANumber))
  {
    ParseAmountMeaning(input, decimals);
    forall v: nat
      ensures Denotes(input, decimals, v) <==> ParseAmount(input, decimals) == Success(v)
    {
      ParsedIffDenotes(input, decimals, v);
    }
    hide Denotes;
    assert Trim(input) == "" ==> ParseAmount(input, decimals) == Failure(NotANumber);
    hide ParseAmount;
    if ParseAmount(input, decimals) == Failure(TooManyDecimals) {
      var w, f :| Spells(Trim(input), w, f);
      assert |f| > decimals;
    }
  }

  /** The complaint made is the one due, and no other is. */
  lemma ComplaintDue(input: string, quoted: string, decimals: nat, max: nat)
    ensures var made := if AllSpace(input) then Some(Missing)
                        else ProblemOf(ReadAmount(ParseAmount(input, decimals), quoted, decimals, max));
            forall problem :: AmountComplaint(input, quoted, decimals, max, problem) <==> problem == made
  {
    BlankIffAllSpace(input);
    Readings(input, decimals);
    hide ParseAmount, Denotes, IsDecimal, HasMorePlaces, Trim, AllSpace, Contains, ProblemNamed, Message;
    var r := ParseAmount(input, decimals);
    if r.Failure? {
      MessageNames(quoted, decimals, r.error);
    }
  }

  /** The form's two comparisons come out on `Number(quorum)` as on the integer itself, and within
      the bounds it is that integer. */
  lemma QuorumNumber(rn: LedgerClock.Rounding, quorum: string)
    requires LedgerClock.RoundsToNearest(rn) && quorum != "" && AllDigits(quorum)
    ensures var n, parsed := Parse(quorum), JsNumbers.NumberOf(rn, quorum);
            && (JsNumbers.Below(parsed, 1.0) <==> n < 1)
            && (JsNumbers.Above(parsed, MAX_U32 as real) <==> n > MAX_U32)
            && (n <= MAX_U32 ==> parsed == JsNumbers.Finite(n as real))
  {
    JsNumbers.NumberOfDigits(rn, quorum);
  }

  /** The quorum branch of validateStaticFields, in doubles. */
  method ReadQuorum(rn: LedgerClock.Rounding, input: string) returns (threshold: Option<nat>, problem: Option<Problem>)
    requires LedgerClock.RoundsToNearest(rn)
    ensures threshold.Some? <==> problem.None?
    ensures threshold.Some? <==> QuorumAccepted(input)
    ensures threshold.Some? ==> threshold.value == Parse(Trim(input))
    ensures forall other :: QuorumComplaint(input, other) <==> other == problem
  {
    hide LedgerClock.RoundsToNearest, JsNumbers.NumberOf;
    BlankIffAllSpace(input);
    threshold, problem := None, None;
    var quorum := Trim(input);
    if quorum == "" {
      problem := Some(Missing);
    } else if !AllDigits(quorum) {
      problem := Some(Malformed);
    } else {
      QuorumNumber(rn, quorum);
      var parsed := JsNumbers.NumberOf(rn, quorum);
      if JsNumbers.Below(parsed, 1.0) {
        problem := Some(TooSmall);
      } else if JsNumbers.Above(parsed, MAX_U32 as real) {
        problem := Some(TooLarge);
      } else {
        threshold := Some(parsed.r.Floor);
      }
    }
  }

  /** What validateStaticFields makes of the trimmed uptime input. */
  lemma UptimeOutcome(input: string)
    ensures var r := ReadAmount(ParseAmount(Trim(input), 2), Trim(input), 2, MAX_BPS);
            && UptimeRead(input, if Trim(input) == "" || r.Failure? then None else Some(r.value))
            && (forall problem :: AmountComplaint(input, Trim(input), 2, MAX_BPS, problem) <==>
                  problem == if Trim(input) == "" then Some(Missing) else ProblemOf(r))
  {
    TrimTwice(input);
    assert ParseAmount(Trim(input), 2) == ParseAmount(input, 2);
    BlankIffAllSpace(input);
    Readings(input, 2);
    ComplaintDue(input, Trim(input), 2, MAX_BPS);
    hide ParseAmount, Denotes, IsDecimal, HasMorePlaces, Trim, AllSpace, ProblemNamed, Message, AmountComplaint;
  }

  /** The uptime branch of validateStaticFields. */
  method ReadUptime(input: string) returns (bps: Option<nat>, problem: Option<Problem>)
    ensures bps.Some? <==> problem.None?
    ensures UptimeRead(input, bps)
    ensures forall other :: AmountComplaint(input, Trim(input), 2, MAX_BPS, other) <==> other == problem
  {
    UptimeOutcome(input);
    hide ParseAmount, UptimeRead, AmountComplaint, Trim;
    var uptime := Trim(input);
    bps, problem := None, None;
    if uptime == "" {
      problem := Some(Missing);
    } else {
      var parsed := ParseAmount(uptime, 2);
      if parsed.Failure? {
        problem := Some(ProblemNamed(Message(uptime, 2, parsed.error)));
      } else if parsed.value < 1 {
        problem := Some(TooSmall);
      } else if parsed.value > MAX_BPS {
        problem := Some(TooLarge);
      } else {
        bps := Some(parsed.value);
      }
    }
  }

  /** The complaint about the endpoint field. */
  predicate EndpointComplaint(p: Platform, endpoint: string, problem: Option<Problem>) {
    var url := TrimEndpoint(endpoint);
    var http := "http://" <= url || "https://" <= url;
    problem == if url == "" then Some(Missing)
               else if !http then Some(NotHttpUrl)
               else if !p.isUrlWithHost(url) then Some(Malformed)
               else None
  }

  /** validateStaticFields. */
  method ValidateStaticFields(rn: LedgerClock.Rounding, p: Platform, values: FormValues) returns (r: StaticFields)
    requires LedgerClock.RoundsToNearest(rn)
    ensures r.errors.bondAmount == None && r.errors.penaltyPerBreach == None
    ensures r.errors.endpoint == None <==> ComputeEndpointHash(p, values.endpoint).Success?
    ensures r.errors.endpoint == None ==>
            r.endpointHash.Some? && ComputeEndpointHash(p, values.endpoint) == Success(r.endpointHash.value)
    ensures r.errors.token == None <==> Trim(values.token) != "" && p.isContract(Trim(values.token))
    ensures r.errors.beneficiary == None <==> Trim(values.beneficiary) != "" && p.IsAddress(Trim(values.beneficiary))
    ensures r.errors.quorumThreshold == None <==> r.quorumThreshold.Some?
    ensures if QuorumAccepted(values.quorumThreshold)
            then r.quorumThreshold == Some(Parse(Trim(values.quorumThreshold)))
            else r.quorumThreshold == None
    ensures r.errors.uptimeTargetPercent == None <==> r.uptimeTargetBps.Some?
    ensures UptimeRead(values.uptimeTargetPercent, r.uptimeTargetBps)
    ensures forall problem :: QuorumComplaint(values.quorumThreshold, problem) <==> problem == r.errors.quorumThreshold
    ensures var uptime := values.uptimeTargetPercent;
            forall problem :: AmountComplaint(uptime, Trim(uptime), 2, MAX_BPS, problem) <==>
                                problem == r.errors.uptimeTargetPercent
    ensures r.errors.token == if AllSpace(values.token) then Some(Missing)
                              else if p.isContract(Trim(values.token)) then None else Some(Malformed)
    ensures r.errors.beneficiary == if AllSpace(values.beneficiary) then Some(Missing)
                                    else if p.IsAddress(Trim(values.beneficiary)) then None else Some(Malformed)
    ensures EndpointComplaint(p, values.endpoint, r.errors.endpoint)
  {
    BlankIffAllSpace(values.token);
    BlankIffAllSpace(values.beneficiary);
    hide QuorumComplaint, AmountComplaint, UptimeRead, QuorumAccepted, AllSpace, TrimEndpoint,
         LedgerClock.RoundsToNearest;
    var errors := NO_ERRORS;
    var token := Trim(values.token);
    var beneficiary := Trim(values.beneficiary);

    var endpointHash: Option<Hash32> := None;
    match ComputeEndpointHash(p, values.endpoint) {
      case Success(h) => endpointHash := Some(h);
      case Failure(e) =>
        errors := errors.(endpoint := Some(if e == EmptyEndpoint then Missing
                                           else if e == NotHttp then NotHttpUrl else Malformed));
    }

    if token == "" {
      errors := errors.(token := Some(Missing));
    } else if !p.isContract(token) {
      errors := errors.(token := Some(Malformed));
    }

    if beneficiary == "" {
      errors := errors.(beneficiary := Some(Missing));
    } else if !p.IsAddress(beneficiary) {
      errors := errors.(beneficiary := Some(Malformed));
    }

    var quorumThreshold, quorumProblem := ReadQuorum(rn, values.quorumThreshold);
    errors := errors.(quorumThreshold := quorumProblem);

    var uptimeTargetBps, uptimeProblem := ReadUptime(values.uptimeTargetPercent);
    errors := errors.(uptimeTargetPercent := uptimeProblem);
    r := StaticFields(errors, endpointHash, quorumThreshold, uptimeTargetBps);
  }

  /** parsePositiveAmount. */
  function ParsePositiveAmount(input: string, decimals: nat): Result<nat, Problem> {
    if Trim(input) == "" then Failure(Missing)
    else ReadAmount(ParseAmount(input, decimals), input, decimals, MAX_I128)
  }

  lemma ParsePositiveAmountMeaning(input: string, decimals: nat, value: nat)
    ensures ParsePositiveAmount(input, decimals) == Success(value) <==>
            Denotes(input, decimals, value) && PositiveAmount(value)
  {
    Readings(input, decimals);
    hide ParseAmount, Denotes, Trim;
  }

  /** Which message an amount gets, exactly. */
  lemma ParsePositiveAmountProblem(input: string, decimals: nat)
    ensures forall problem :: AmountComplaint(input, input, decimals, MAX_I128, problem) <==>
                                problem == ProblemOf(ParsePositiveAmount(input, decimals))
  {
    BlankIffAllSpace(input);
    ComplaintDue(input, input, decimals, MAX_I128);
    hide ParseAmount, AmountComplaint, Trim, AllSpace;
  }

  lemma NoNumber(input: string)
    requires 'd' in input
    ensures 'd' in Trim(input) && !IsDecimal(Trim(input)) && !AllSpace(input)
  {
    var pre, post := TrimRemovesOnlySpace(input);
    hide Trim;
    var i :| 0 <= i < |input| && input[i] == 'd';
    assert input[i] == (pre + Trim(input) + post)[i];
  }

  /** Whatever holds those words is no number and is said to have too many decimal places. */
  lemma QuotedWordsMislead(input: string, decimals: nat)
    requires Contains(input, PLACES)
    ensures !IsDecimal(Trim(input))
    ensures ParsePositiveAmount(input, decimals) == Failure(TooManyPlaces)
    ensures Contains(Trim(input), PLACES) ==> AmountComplaint(input, Trim(input), 2, MAX_BPS, Some(TooManyPlaces))
  {
    var i :| 0 <= i <= |input| && OccursAt(input, PLACES, i);
    assert input[i] == input[i..i + |PLACES|][0] == 'd';
    NoNumber(input);
    hide IsDecimal, Denotes, ParseAmount, Contains, Trim, AllSpace;
    assert AmountComplaint(input, input, decimals, MAX_I128, Some(TooManyPlaces));
    ParsePositiveAmountProblem(input, decimals);
  }

  lemma TenPlacesText()
    ensures "10 decimal places" == "10 " + PLACES + "" && Trim("10 decimal places") == "10 decimal places"
  {
  }

  /** Such an input. */
  lemma TenDecimalPlaces(decimals: nat)
    ensures Trim("10 decimal places") == "10 decimal places"
    ensures ParsePositiveAmount("10 decimal places", decimals) == Failure(TooManyPlaces)
    ensures AmountComplaint("10 decimal places", "10 decimal places", 2, MAX_BPS, Some(TooManyPlaces))
  {
    hide *;
    TenPlacesText();
    OccursBetween("10 ", PLACES, "");
    QuotedWordsMislead("10 decimal places", decimals);
  }

  /** The two amounts the inputs denote, when they form a valid bond and penalty. */
  ghost predicate AmountsDenoted(values: FormValues, decimals: nat, bond: nat, penalty: nat) {
    && Denotes(values.bondAmount, decimals, bond)
    && Denotes(values.penaltyPerBreach, decimals, penalty)
    && 0 < penalty <= bond <= MAX_I128
  }

  lemma AmountsOutcome(values: FormValues, decimals: nat)
    ensures var bond, penalty := ParsePositiveAmount(values.bondAmount, decimals),
                                 ParsePositiveAmount(values.penaltyPerBreach, decimals);
            if bond.Success? && penalty.Success? && penalty.value <= bond.value then
              AmountsDenoted(values, decimals, bond.value, penalty.value)
            else
              forall b: nat, q: nat :: !AmountsDenoted(values, decimals, b, q)
  {
    forall b: nat, q: nat
      ensures AmountsDenoted(values, decimals, b, q) ==>
                && ParsePositiveAmount(values.bondAmount, decimals) == Success(b)
                && ParsePositiveAmount(values.penaltyPerBreach, decimals) == Success(q)
    {
      ParsePositiveAmountMeaning(values.bondAmount, decimals, b);
      ParsePositiveAmountMeaning(values.penaltyPerBreach, decimals, q);
    }
    var bond, penalty := ParsePositiveAmount(values.bondAmount, decimals),
                         ParsePositiveAmount(values.penaltyPerBreach, decimals);
    if bond.Success? && penalty.Success? {
      ParsePositiveAmountMeaning(values.bondAmount, decimals, bond.value);
      ParsePositiveAmountMeaning(values.penaltyPerBreach, decimals, penalty.value);
    }
  }

  datatype AmountFields = AmountFields(errors: FieldErrors, bondAmount: Option<nat>, penaltyPerBreach: Option<nat>)

  lemma ExceedingDenoted(values: FormValues, decimals: nat)
    ensures var bond, penalty := ParsePositiveAmount(values.bondAmount, decimals),
                                 ParsePositiveAmount(values.penaltyPerBreach, decimals);
            bond.Success? && penalty.Success? ==>
              && Denotes(values.bondAmount, decimals, bond.value)
              && Denotes(values.penaltyPerBreach, decimals, penalty.value)
    ensures ParsePositiveAmount(values.penaltyPerBreach, decimals) != Failure(ExceedsBond)
  {
    var bond, penalty := ParsePositiveAmount(values.bondAmount, decimals),
                         ParsePositiveAmount(values.penaltyPerBreach, decimals);
    if bond.Success? && penalty.Success? {
      ParsePositiveAmountMeaning(values.bondAmount, decimals, bond.value);
      ParsePositiveAmountMeaning(values.penaltyPerBreach, decimals, penalty.value);
    }
  }

  /** validateAmounts. */
  method ValidateAmounts(values: FormValues, decimals: nat) returns (r: AmountFields)
    ensures if r.errors == NO_ERRORS then
              && r.bondAmount.Some? && r.penaltyPerBreach.Some?
              && AmountsDenoted(values, decimals, r.bondAmount.value, r.penaltyPerBreach.value)
            else
              forall b: nat, q: nat :: !AmountsDenoted(values, decimals, b, q)
    ensures r.errors.(bondAmount := None, penaltyPerBreach := None) == NO_ERRORS
    ensures r.errors.bondAmount == ProblemOf(ParsePositiveAmount(values.bondAmount, decimals))
    ensures r.errors.penaltyPerBreach in {Some(ExceedsBond), ProblemOf(ParsePositiveAmount(values.penaltyPerBreach, decimals))}
    ensures r.errors.penaltyPerBreach == Some(ExceedsBond) ==>
              exists b: nat, q: nat :: Denotes(values.bondAmount, decimals, b)
                                       && Denotes(values.penaltyPerBreach, decimals, q) && q > b
  {
    hide ParsePositiveAmount, Denotes;
    AmountsOutcome(values, decimals);
    ExceedingDenoted(values, decimals);
    var errors := NO_ERRORS;
    var bond := ParsePositiveAmount(values.bondAmount, decimals);
    var penalty := ParsePositiveAmount(values.penaltyPerBreach, decimals);
    if bond.Failure? {
      errors := errors.(bondAmount := Some(bond.error));
    }
    if penalty.Failure? {
      errors := errors.(penaltyPerBreach := Some(penalty.error));
    }
    if bond.Success? && penalty.Success? && penalty.value > bond.value {
      errors := errors.(penaltyPerBreach := Some(ExceedsBond));
    }
    r := AmountFields(errors,
                      if bond.Success? then Some(bond.value) else None,
                      if penalty.Success? then Some(penalty.value) else None);
  }

  /** Every field of the form holds something the contract accepts. */
  ghost predicate FormComplete(p: Platform, values: FormValues, decimals: nat) {
    && ComputeEndpointHash(p, values.endpoint).Success?
    && Trim(values.token) != "" && p.isContract(Trim(values.token))
    && Trim(values.beneficiary) != "" && p.IsAddress(Trim(values.beneficiary))
    && QuorumAccepted(values.quorumThreshold)
    && !UptimeRead(values.uptimeTargetPercent, None)
    && exists bond: nat, penalty: nat :: AmountsDenoted(values, decimals, bond, penalty)
  }

  datatype Outcome = FormErrors(errors: FieldErrors) | SdkRefused(field: string) | Built(call: CreateSlaCall)

  /** handleSubmit followed by confirmCreate: the reviewed values go to the SDK unchanged. An
      error-free form is refused by the SDK only for the connected wallet's own address, which
      the form does not collect; otherwise the call carries exactly what the inputs denote. */
  method SubmitForm(rn: LedgerClock.Rounding, p: Platform, values: FormValues, decimals: nat, provider: string)
    returns (r: Outcome)
    requires LedgerClock.RoundsToNearest(rn)
    ensures r.FormErrors? <==> !FormComplete(p, values, decimals)
    ensures r.FormErrors? ==> r.errors != NO_ERRORS
    ensures r.SdkRefused? ==> r.field == "provider" && !p.IsAddress(provider)
    ensures r.Built? ==>
            && p.IsAddress(provider) && r.call.provider == provider
            && r.call.token == Trim(values.token) && p.isContract(r.call.token)
            && r.call.beneficiary == Trim(values.beneficiary) && p.IsAddress(r.call.beneficiary)
            && ComputeEndpointHash(p, values.endpoint) == Success(r.call.endpointHash)
            && r.call.bondAmount >= 0 && Denotes(values.bondAmount, decimals, r.call.bondAmount)
            && r.call.penaltyPerBreach >= 0 && Denotes(values.penaltyPerBreach, decimals, r.call.penaltyPerBreach)
            && 0 < r.call.penaltyPerBreach <= r.call.bondAmount <= MAX_I128
            && r.call.uptimeTargetBps >= 0 && Denotes(values.uptimeTargetPercent, 2, r.call.uptimeTargetBps)
            && 1 <= r.call.uptimeTargetBps <= MAX_BPS
            && QuorumAccepted(values.quorumThreshold)
            && r.call.quorumThreshold == Parse(Trim(values.quorumThreshold))
  {
    hide ParsePositiveAmount, ProblemOf, QuorumComplaint, AmountComplaint, EndpointComplaint, Denotes, Trim, AllSpace,
         ComputeEndpointHash, LedgerClock.RoundsToNearest;
    var fields := ValidateStaticFields(rn, p, values);
    if fields.errors != NO_ERRORS {
      return FormErrors(fields.errors);
    }
    var amounts := ValidateAmounts(values, decimals);
    if amounts.errors != NO_ERRORS {
      return FormErrors(amounts.errors);
    }
    var params := CreateParams(
      provider, Trim(values.token), None, Some(fields.endpointHash.value),
      amounts.bondAmount.value, fields.uptimeTargetBps.value, fields.quorumThreshold.value,
      amounts.penaltyPerBreach.value, Trim(values.beneficiary));
    match BuildCreateSlaTx(p, params) {
      case Success(call) => r := Built(call);
      case Failure(field) => r := SdkRefused(field);
    }
  }
}
