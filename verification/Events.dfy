/** indexer/src/rpc/decode.ts and indexer/src/ingest/classify.ts: decoded chain events and
    the fold that turns a page of them into rows. */
module Events {
  import opened Wrappers
  import opened Sequences
  import opened WhiteSpace
  import Decimal

  /** What `scValToNative` yields, plus `undefined` for a missing topic or field. */
  datatype Native =
    | Undefined
    | Null
    | Bool(b: bool)
    | Number(n: int)
    | BigInt(big: int)
    | Text(s: string)
    | Bytes(bytes: seq<bv8>)
    | Arr(elems: seq<Native>)
    | Record(fields: map<string, Native>)

  datatype DecodedEvent = DecodedEvent(
    eventId: string,
    ledger: int,
    ledgerCloseTime: string,
    txHash: string,
    contractId: string,
    topicSymbol: Option<string>,
    topics: seq<Native>,
    data: Native
  )

  // --------------------------------------------------- JavaScript conversions

  function ShowInt(n: int): string {
    if n < 0 then "-" + Decimal.Print(-n) else Decimal.Print(n)
  }

  /** `String(v)`. */
  function StringOf(v: Native): string
    decreases v, 0
  {
    match v
    case Undefined => "undefined"
    case Null => "null"
    case Bool(b) => if b then "true" else "false"
    case Number(n) => ShowInt(n)
    case BigInt(n) => ShowInt(n)
    case Text(s) => s
    case Bytes(bytes) => JoinBytes(bytes)
    case Arr(elems) => JoinElems(elems)
    case Record(_) => "[object Object]"
  }

  function JoinElems(elems: seq<Native>): string
    decreases elems, 1
  {
    if elems == [] then ""
    else
      var head := if elems[0].Undefined? || elems[0].Null? then "" else StringOf(elems[0]);
      if |elems| == 1 then head else head + "," + JoinElems(elems[1..])
  }

  function JoinBytes(bytes: seq<bv8>): string {
    if bytes == [] then ""
    else if |bytes| == 1 then Decimal.Print(bytes[0] as int)
    else Decimal.Print(bytes[0] as int) + "," + JoinBytes(bytes[1..])
  }

  function HexDigit(n: bv8): char
    requires n < 16
  {
    "0123456789abcdef"[n as int]
  }

  function Hex(bytes: seq<bv8>): string {
    if bytes == [] then ""
    else [HexDigit(bytes[0] >> 4), HexDigit(bytes[0] & 15)] + Hex(bytes[1..])
  }

  /** `topics[i]`. */
  function Topic(e: DecodedEvent, i: nat): Native {
    if i < |e.topics| then e.topics[i] else Undefined
  }

  /** `data.key`: reading a property of null or undefined throws, and anything that is not a
      record of fields has none of the keys asked for. */
  function Field(data: Native, key: string): Result<Native, string> {
    match data
    case Undefined => Failure("TypeError")
    case Null => Failure("TypeError")
    case Record(fields) => Success(if key in fields then fields[key] else Undefined)
    case _ => Success(Undefined)
  }

  function AmountToString(v: Native): Result<string, string> {
    match v
    case BigInt(n) => Success(ShowInt(n))
    case Text(s) => Success(s)
    case _ => Failure("amountToString")
  }

  function BytesToHex(v: Native): Result<string, string> {
    if v.Bytes? then Success(Hex(v.bytes)) else Failure("bytesToHex")
  }

  /** `Number(text)` of a text that spells an integer in decimal, with an optional sign and white
      space around it; blank text is zero. */
  function IntegerText(text: string): Option<int> {
    var t := Trim(text);
    var digits := if t != "" && (t[0] == '-' || t[0] == '+') then t[1..] else t;
    if t == "" then Some(0)
    else if digits == "" || !Decimal.AllDigits(digits) then None
    else
      var value: int := Decimal.Parse(digits);
      Some(if t[0] == '-' then -value else value)
  }

  /** `Number(v)` as the threshold column stores it: an integer, or NULL for anything that is
      not one (NaN is stored as NULL). An object is read as its text is. */
  function ThresholdOf(v: Native): Option<int> {
    match v
    case Undefined => None
    case Null => Some(0)
    case Bool(b) => Some(if b then 1 else 0)
    case Number(n) => Some(n)
    case BigInt(n) => Some(n)
    case _ => IntegerText(StringOf(v))
  }

  lemma IntegerTextOfShown(n: int)
    ensures IntegerText(ShowInt(n)) == Some(n)
  {
    var digits := Decimal.Print(if n < 0 then -n else n);
    Decimal.ParsePrint(if n < 0 then -n else n);
    assert Decimal.IsDigit(digits[0]) && Decimal.IsDigit(digits[|digits| - 1]);
    assert Trim(ShowInt(n)) == ShowInt(n);
    if n < 0 {
      assert ShowInt(n)[1..] == digits;
    }
  }

  /** How an element prints inside a list. */
  function ElementText(v: Native): string {
    if v.Undefined? || v.Null? then "" else StringOf(v)
  }

  lemma ListOfOne(v: Native)
    ensures StringOf(Arr([v])) == ElementText(v)
  {
    assert StringOf(Arr([v])) == JoinElems([v]);
  }

  lemma JoinCons(head: Native, rest: seq<Native>)
    ensures JoinElems([head] + rest) == ElementText(head) + (if rest == [] then "" else "," + JoinElems(rest))
  {
    hide StringOf;
    assert ([head] + rest)[1..] == rest;
  }

  lemma {:induction false} JoinSnoc(elems: seq<Native>, last: Native)
    requires elems != []
    ensures JoinElems(elems + [last]) == JoinElems(elems) + "," + ElementText(last)
  {
    hide StringOf, JoinElems, ElementText;
    var head, rest := elems[0], elems[1..];
    assert elems == [head] + rest && elems + [last] == [head] + (rest + [last]);
    JoinCons(head, rest);
    JoinCons(head, rest + [last]);
    JoinCons(last, []);
    if rest == [] {
      assert rest + [last] == [last] + [];
    } else {
      JoinSnoc(rest, last);
    }
  }

  /** A list prints as its elements with commas between them, missing ones as nothing. */
  lemma ListPrints(elems: seq<Native>, last: Native)
    ensures StringOf(Arr([])) == "" && StringOf(Arr([last])) == ElementText(last)
    ensures elems != [] ==> StringOf(Arr(elems + [last])) == StringOf(Arr(elems)) + "," + ElementText(last)
  {
    ListOfOne(last);
    if elems != [] {
      JoinSnoc(elems, last);
    }
  }

  function Numbers(bytes: seq<bv8>): seq<Native> {
    seq(|bytes|, i requires 0 <= i < |bytes| => Number(bytes[i] as int))
  }

  lemma {:induction false} JoinedBytes(bytes: seq<bv8>)
    ensures JoinBytes(bytes) == JoinElems(Numbers(bytes))
  {
    if bytes != [] {
      JoinedBytes(bytes[1..]);
      assert Numbers(bytes)[1..] == Numbers(bytes[1..]);
      assert StringOf(Number(bytes[0] as int)) == Decimal.Print(bytes[0] as int);
    }
  }

  /** A byte string prints as the list of its bytes as numbers. */
  lemma BytesPrint(bytes: seq<bv8>)
    ensures StringOf(Bytes(bytes)) == StringOf(Arr(Numbers(bytes)))
  {
    JoinedBytes(bytes);
  }

  /** What stands in a column for a field that is missing or of another kind than documented. */
  lemma OddValuesPrint(fields: map<string, Native>)
    ensures StringOf(Undefined) == "undefined" && StringOf(Null) == "null"
    ensures StringOf(Bool(true)) == "true" && StringOf(Bool(false)) == "false"
    ensures StringOf(Record(fields)) == "[object Object]"
  {
  }

  /** The thresholds of such values: zero for null, false, blank texts and empty lists, one for true,
      the byte of a byte string of one, and null where `Number` gives NaN. */
  lemma OddThresholds(text: string, b: bv8, fields: map<string, Native>)
    requires AllSpace(text)
    ensures ThresholdOf(Null) == ThresholdOf(Bool(false)) == ThresholdOf(Arr([])) == Some(0)
    ensures ThresholdOf(Text(text)) == Some(0)
    ensures ThresholdOf(Bool(true)) == Some(1) && ThresholdOf(Bytes([b])) == Some(b as int)
    ensures ThresholdOf(Undefined) == ThresholdOf(Record(fields)) == None
  {
    ByteThreshold(b);
    NotANumber();
    BlankReadsZero(text);
    BlankReadsZero("");
    hide IntegerText;
  }

  lemma ByteThreshold(b: bv8)
    ensures ThresholdOf(Bytes([b])) == Some(b as int)
  {
    assert JoinBytes([b]) == Decimal.Print(b as int) == ShowInt(b as int);
    IntegerTextOfShown(b as int);
    hide IntegerText, ShowInt;
  }

  lemma BlankReadsZero(text: string)
    requires AllSpace(text)
    ensures IntegerText(text) == Some(0)
  {
    BlankIffAllSpace(text);
  }

  lemma NotANumber()
    ensures IntegerText("[object Object]") == None
  {
    assert Trim("[object Object]") == "[object Object]";
    assert "[object Object]"[0] == '[';
  }

  /** An integer threshold is stored as that integer in whatever form it arrives: as a number, a
      bigint, its decimal text, or alone in a list. */
  lemma ThresholdInAnyForm(n: int, v: Native)
    requires v in {Number(n), BigInt(n), Text(ShowInt(n))}
    ensures ThresholdOf(v) == Some(n) && ThresholdOf(Arr([v])) == Some(n)
  {
    hide ShowInt, IntegerText;
    IntegerTextOfShown(n);
    ListOfOne(v);
  }

  // -------------------------------------------------------------------- rows

  datatype WatcherEvent =
    | Registered(address: string, at: string)
    | Removed(address: string, at: string)

  datatype Vote = Up | Down

  datatype CheckRow = CheckRow(
    eventId: string, slaId: string, roundId: string, watcher: string,
    status: Vote, endpointHash: string, checkedAt: string)

  datatype SlaRow = SlaRow(
    slaId: string, provider: string, token: string, endpointHash: string,
    bondAmountAtCreation: string, quorumThreshold: Option<int>, beneficiary: string,
    createdAt: string, txHash: string)

  datatype SettlementRow = SettlementRow(
    eventId: string, slaId: string, roundId: string, quorumThreshold: Option<int>,
    penaltyAmount: string, beneficiary: string, txHash: string, ledgerCloseTime: string)

  datatype LifecycleType = BondToppedUp | SlaCancelled | BondWithdrawn

  datatype LifecycleRow = LifecycleRow(
    eventId: string, slaId: string, eventType: LifecycleType, amount: Option<string>,
    txHash: string, ledgerCloseTime: string)

  // -------------------------------------------------------------- classifying

  /** parseCheckStatus: exactly `["Up"]` or `["Down"]`, anything else is quarantined. */
  function ParseCheckStatus(raw: Native): Option<Vote> {
    if !raw.Arr? || |raw.elems| != 1 then None
    else if raw.elems[0] == Text("Up") then Some(Up)
    else if raw.elems[0] == Text("Down") then Some(Down)
    else None
  }

  datatype Outcome =
    | WatcherOutcome(watcher: WatcherEvent)
    | CheckOutcome(check: CheckRow)
    | SlaOutcome(sla: SlaRow)
    | SettlementOutcome(settlement: SettlementRow)
    | LifecycleOutcome(lifecycle: LifecycleRow)
    | Skipped(eventId: string)

  /** The body of the classifier's switch. A failure is an exception: it aborts the page. */
  function Classify(e: DecodedEvent): Result<Outcome, string> {
    if e.topicSymbol == Some("watcher_registered") then
      Success(WatcherOutcome(Registered(StringOf(Topic(e, 1)), e.ledgerCloseTime)))
    else if e.topicSymbol == Some("watcher_removed") then
      Success(WatcherOutcome(Removed(StringOf(Topic(e, 1)), e.ledgerCloseTime)))
    else if e.topicSymbol == Some("check_submitted") then
      ClassifyCheck(e)
    else if e.topicSymbol == Some("sla_created") then
      ClassifySla(e)
    else if e.topicSymbol == Some("settlement_paid") then
      ClassifySettlement(e)
    else if e.topicSymbol == Some("bond_topped_up") then
      ClassifyAmount(e, BondToppedUp)
    else if e.topicSymbol == Some("sla_cancelled") then
      Success(LifecycleOutcome(LifecycleRow(e.eventId, StringOf(Topic(e, 1)), SlaCancelled, None,
                                            e.txHash, e.ledgerCloseTime)))
    else if e.topicSymbol == Some("bond_withdrawn") then
      ClassifyAmount(e, BondWithdrawn)
    else
      Success(Skipped(e.eventId))
  }

  function ClassifyCheck(e: DecodedEvent): Result<Outcome, string> {
    var rawStatus :- Field(e.data, "status");
    match ParseCheckStatus(rawStatus)
    case None => Success(Skipped(e.eventId))
    case Some(status) =>
      var roundId :- Field(e.data, "round_id");
      var rawHash :- Field(e.data, "endpoint_hash");
      var hash :- BytesToHex(rawHash);
      Success(CheckOutcome(CheckRow(e.eventId, StringOf(Topic(e, 1)), StringOf(roundId),
                                    StringOf(Topic(e, 2)), status, hash, e.ledgerCloseTime)))
  }

  function ClassifySla(e: DecodedEvent): Result<Outcome, string> {
    var token :- Field(e.data, "token");
    var rawHash :- Field(e.data, "endpoint_hash");
    var hash :- BytesToHex(rawHash);
    var rawBond :- Field(e.data, "bond_amount");
    var bond :- AmountToString(rawBond);
    var quorum :- Field(e.data, "quorum_threshold");
    var beneficiary :- Field(e.data, "beneficiary");
    Success(SlaOutcome(SlaRow(StringOf(Topic(e, 1)), StringOf(Topic(e, 2)), StringOf(token), hash,
                              bond, ThresholdOf(quorum), StringOf(beneficiary),
                              e.ledgerCloseTime, e.txHash)))
  }

  function ClassifySettlement(e: DecodedEvent): Result<Outcome, string> {
    var rawPayout :- Field(e.data, "payout");
    var payout :- AmountToString(rawPayout);
    var beneficiary :- Field(e.data, "beneficiary");
    Success(SettlementOutcome(SettlementRow(e.eventId, StringOf(Topic(e, 1)), StringOf(Topic(e, 2)), None,
                                            payout, StringOf(beneficiary), e.txHash, e.ledgerCloseTime)))
  }

  function ClassifyAmount(e: DecodedEvent, kind: LifecycleType): Result<Outcome, string> {
    var rawAmount :- Field(e.data, "amount");
    var amount :- AmountToString(rawAmount);
    Success(LifecycleOutcome(LifecycleRow(e.eventId, StringOf(Topic(e, 1)), kind, Some(amount),
                                          e.txHash, e.ledgerCloseTime)))
  }

  predicate Classifiable(e: DecodedEvent) {
    Classify(e).Success?
  }

  predicate AllClassifiable(events: seq<DecodedEvent>) {
    forall i :: 0 <= i < |events| ==> Classifiable(events[i])
  }

  // The row, if any, an event contributes to each bucket.

  function WatcherIn(o: Result<Outcome, string>): Option<WatcherEvent> {
    if o.Success? && o.value.WatcherOutcome? then Some(o.value.watcher) else None
  }

  function WatcherOf(e: DecodedEvent): Option<WatcherEvent> {
    WatcherIn(Classify(e))
  }

  function CheckIn(o: Result<Outcome, string>): Option<CheckRow> {
    if o.Success? && o.value.CheckOutcome? then Some(o.value.check) else None
  }

  function CheckOf(e: DecodedEvent): Option<CheckRow> {
    CheckIn(Classify(e))
  }

  function SlaIn(o: Result<Outcome, string>): Option<SlaRow> {
    if o.Success? && o.value.SlaOutcome? then Some(o.value.sla) else None
  }

  function SlaOf(e: DecodedEvent): Option<SlaRow> {
    SlaIn(Classify(e))
  }

  function SettlementIn(o: Result<Outcome, string>): Option<SettlementRow> {
    if o.Success? && o.value.SettlementOutcome? then Some(o.value.settlement) else None
  }

  function SettlementOf(e: DecodedEvent): Option<SettlementRow> {
    SettlementIn(Classify(e))
  }

  function LifecycleIn(o: Result<Outcome, string>): Option<LifecycleRow> {
    if o.Success? && o.value.LifecycleOutcome? then Some(o.value.lifecycle) else None
  }

  function LifecycleOf(e: DecodedEvent): Option<LifecycleRow> {
    LifecycleIn(Classify(e))
  }

  function SkipOf(e: DecodedEvent): Option<string> {
    match Classify(e)
    case Success(Skipped(id)) => Some(id)
    case _ => None
  }

  datatype Batch = Batch(
    watcherEvents: seq<WatcherEvent>,
    checks: seq<CheckRow>,
    slas: seq<SlaRow>,
    settlements: seq<SettlementRow>,
    lifecycleEvents: seq<LifecycleRow>
  )

  const EMPTY_BATCH := Batch([], [], [], [], [])

  /** The batch a page amounts to: every bucket is the page filtered, in page order. */
  function BatchOf(events: seq<DecodedEvent>): Batch {
    Batch(FilterMap(events, WatcherOf), FilterMap(events, CheckOf), FilterMap(events, SlaOf),
          FilterMap(events, SettlementOf), FilterMap(events, LifecycleOf))
  }

  function ToSeq<T>(o: Option<T>): seq<T> {
    if o.Some? then [o.value] else []
  }

  /** One turn of the classifier's loop. */
  function Push(b: Batch, o: Result<Outcome, string>): Batch {
    Batch(b.watcherEvents + ToSeq(WatcherIn(o)), b.checks + ToSeq(CheckIn(o)), b.slas + ToSeq(SlaIn(o)),
          b.settlements + ToSeq(SettlementIn(o)), b.lifecycleEvents + ToSeq(LifecycleIn(o)))
  }

  lemma BatchOfAppend(events: seq<DecodedEvent>, e: DecodedEvent)
    ensures BatchOf(events + [e]) == Push(BatchOf(events), Classify(e))
  {
    hide Classify;
    FilterMapAppend(events, e, WatcherOf);
    FilterMapAppend(events, e, CheckOf);
    FilterMapAppend(events, e, SlaOf);
    FilterMapAppend(events, e, SettlementOf);
    FilterMapAppend(events, e, LifecycleOf);
  }

  /** Only the outcome's own bucket changes. */
  lemma PushChanges(b: Batch, o: Result<Outcome, string>)
    ensures Push(b, o) == match o
            case Success(WatcherOutcome(w)) => b.(watcherEvents := b.watcherEvents + [w])
            case Success(CheckOutcome(c)) => b.(checks := b.checks + [c])
            case Success(SlaOutcome(s)) => b.(slas := b.slas + [s])
            case Success(SettlementOutcome(s)) => b.(settlements := b.settlements + [s])
            case Success(LifecycleOutcome(l)) => b.(lifecycleEvents := b.lifecycleEvents + [l])
            case _ => b
  {
    assert forall rows: seq<WatcherEvent> :: rows + [] == rows;
    assert forall rows: seq<CheckRow> :: rows + [] == rows;
    assert forall rows: seq<SlaRow> :: rows + [] == rows;
    assert forall rows: seq<SettlementRow> :: rows + [] == rows;
    assert forall rows: seq<LifecycleRow> :: rows + [] == rows;
  }

  /** classifyEvents: pushes each event's row onto its bucket; `skips` are the events logged
      and not persisted. An exception leaves no batch at all. */
  method ClassifyEvents(events: seq<DecodedEvent>) returns (batch: Result<Batch, string>, skips: seq<string>)
    ensures batch.Success? <==> AllClassifiable(events)
    ensures batch.Success? ==> batch.value == BatchOf(events) && skips == FilterMap(events, SkipOf)
  {
    var b := EMPTY_BATCH;
    skips := [];
    assert b == BatchOf(events[..0]) && skips == FilterMap(events[..0], SkipOf);
    hide Classify, BatchOf, FilterMap, Push;
    for i := 0 to |events|
      invariant AllClassifiable(events[..i])
      invariant b == BatchOf(events[..i]) && skips == FilterMap(events[..i], SkipOf)
    {
      var e := events[i];
      assert events[..i + 1] == events[..i] + [e];
      BatchOfAppend(events[..i], e);
      PushChanges(b, Classify(e));
      FilterMapAppend(events[..i], e, SkipOf);
      match Classify(e) {
        case Failure(err) =>
          assert !Classifiable(events[i]);
          return Failure(err), skips;
        case Success(WatcherOutcome(w)) => b := b.(watcherEvents := b.watcherEvents + [w]);
        case Success(CheckOutcome(c)) => b := b.(checks := b.checks + [c]);
        case Success(SlaOutcome(s)) => b := b.(slas := b.slas + [s]);
        case Success(SettlementOutcome(s)) => b := b.(settlements := b.settlements + [s]);
        case Success(LifecycleOutcome(l)) => b := b.(lifecycleEvents := b.lifecycleEvents + [l]);
        case Success(Skipped(id)) => skips := skips + [id];
      }
    }
    assert events[..|events|] == events;
    batch := Success(b);
  }

  /** Nothing is lost and nothing is counted twice: the six position lists partition the page,
      so their lengths add up to it. Together with FilterMapOrigin this says that each event
      is exactly one row, one watcher update or one logged skip, in page order. */
  lemma {:induction false} EventsConserved(events: seq<DecodedEvent>)
    requires AllClassifiable(events)
    ensures |FilterMap(events, WatcherOf)| + |FilterMap(events, CheckOf)| + |FilterMap(events, SlaOf)|
            + |FilterMap(events, SettlementOf)| + |FilterMap(events, LifecycleOf)| + |FilterMap(events, SkipOf)|
            == |events|
    ensures forall k: nat :: k < |events| ==>
              (if k in Positions(events, WatcherOf) then 1 else 0) + (if k in Positions(events, CheckOf) then 1 else 0)
              + (if k in Positions(events, SlaOf) then 1 else 0) + (if k in Positions(events, SettlementOf) then 1 else 0)
              + (if k in Positions(events, LifecycleOf) then 1 else 0) + (if k in Positions(events, SkipOf) then 1 else 0)
              == 1
  {
    hide Classify;
    OriginsOf(events);
    BucketSizes(events);
    assert forall k :: 0 <= k < |events| ==> Classifiable(events[k]);
  }

  lemma OriginsOf(events: seq<DecodedEvent>)
    ensures forall k: nat :: k in Positions(events, WatcherOf) <==> k < |events| && WatcherOf(events[k]).Some?
    ensures forall k: nat :: k in Positions(events, CheckOf) <==> k < |events| && CheckOf(events[k]).Some?
    ensures forall k: nat :: k in Positions(events, SlaOf) <==> k < |events| && SlaOf(events[k]).Some?
    ensures forall k: nat :: k in Positions(events, SettlementOf) <==> k < |events| && SettlementOf(events[k]).Some?
    ensures forall k: nat :: k in Positions(events, LifecycleOf) <==> k < |events| && LifecycleOf(events[k]).Some?
    ensures forall k: nat :: k in Positions(events, SkipOf) <==> k < |events| && SkipOf(events[k]).Some?
  {
    hide Classify;
    FilterMapOrigin(events, WatcherOf);
    FilterMapOrigin(events, CheckOf);
    FilterMapOrigin(events, SlaOf);
    FilterMapOrigin(events, SettlementOf);
    FilterMapOrigin(events, LifecycleOf);
    FilterMapOrigin(events, SkipOf);
  }

  lemma {:induction false} BucketSizes(events: seq<DecodedEvent>)
    requires AllClassifiable(events)
    ensures |FilterMap(events, WatcherOf)| + |FilterMap(events, CheckOf)| + |FilterMap(events, SlaOf)|
            + |FilterMap(events, SettlementOf)| + |FilterMap(events, LifecycleOf)| + |FilterMap(events, SkipOf)|
            == |events|
  {
    hide Classify;
    if events != [] {
      var init, e := events[..|events| - 1], events[|events| - 1];
      BucketSizes(init);
      assert Classifiable(e);
    }
  }

  /** The status field as the classifier sees it: absent from anything but a record. */
  function StatusField(data: Native): Native {
    if data.Record? && "status" in data.fields then data.fields["status"] else Undefined
  }

  /** A vote is recorded only for the two well-formed statuses, and as the one submitted; every
      other status is quarantined, and only a missing value stops the page. */
  lemma QuarantineMalformedStatus(e: DecodedEvent)
    requires e.topicSymbol == Some("check_submitted")
    ensures var status := StatusField(e.data);
            && (CheckOf(e).Some? ==> status == Arr([Text(if CheckOf(e).value.status == Up then "Up" else "Down")]))
            && (Classify(e) == Success(Skipped(e.eventId)) <==>
                !e.data.Undefined? && !e.data.Null? && status != Arr([Text("Up")]) && status != Arr([Text("Down")]))
            && SkipOf(e).Some? == (Classify(e) == Success(Skipped(e.eventId)))
  {
    var raw := StatusField(e.data);
    if raw.Arr? && |raw.elems| == 1 {
      assert raw == Arr([raw.elems[0]]);
    }
  }
}
