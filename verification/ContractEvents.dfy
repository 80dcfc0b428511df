/** The contract events the classifier is written for, their wire format as the header of
    indexer/src/rpc/decode.ts documents it, and the rows they must become. */
module ContractEvents {
  import opened Wrappers
  import opened Events
  import Decimal

  datatype ContractEvent =
    | WatcherRegistered(watcher: string)
    | WatcherRemoved(watcher: string)
    | CheckSubmitted(slaId: nat, watcher: string, roundId: nat, endpointHash: seq<bv8>, status: Vote)
    | SlaCreated(slaId: nat, provider: string, token: string, endpointHash: seq<bv8>, bondAmount: int,
                 uptimeTargetBps: nat, quorumThreshold: nat, penaltyPerBreach: int, beneficiary: string)
    | BondToppedUp(slaId: nat, amount: int)
    | SettlementPaid(slaId: nat, roundId: nat, payout: int, beneficiary: string)
    | SlaCancelled(slaId: nat)
    | BondWithdrawn(slaId: nat, amount: int)

  /** What getEvents says about an event besides its topics and value. */
  datatype Meta = Meta(eventId: string, ledger: int, closeTime: string, txHash: string, contractId: string)

  /** scValToNative yields an i128 as a bigint or as a string, depending on the SDK version. */
  function Amount(n: int, asText: bool): Native {
    if asText then Text(ShowInt(n)) else BigInt(n)
  }

  /** The symbol in topic[0]. */
  function Symbol(ev: ContractEvent): string {
    match ev
    case WatcherRegistered(_) => "watcher_registered"
    case WatcherRemoved(_) => "watcher_removed"
    case CheckSubmitted(_, _, _, _, _) => "check_submitted"
    case SlaCreated(_, _, _, _, _, _, _, _, _) => "sla_created"
    case BondToppedUp(_, _) => "bond_topped_up"
    case SettlementPaid(_, _, _, _) => "settlement_paid"
    case SlaCancelled(_) => "sla_cancelled"
    case BondWithdrawn(_, _) => "bond_withdrawn"
  }

  /** The topics after the symbol. */
  function Fields(ev: ContractEvent): seq<Native> {
    match ev
    case WatcherRegistered(w) => [Text(w)]
    case WatcherRemoved(w) => [Text(w)]
    case CheckSubmitted(sla, w, _, _, _) => [BigInt(sla), Text(w)]
    case SlaCreated(sla, provider, _, _, _, _, _, _, _) => [BigInt(sla), Text(provider)]
    case BondToppedUp(sla, _) => [BigInt(sla)]
    case SettlementPaid(sla, round, _, _) => [BigInt(sla), BigInt(round)]
    case SlaCancelled(sla) => [BigInt(sla)]
    case BondWithdrawn(sla, _) => [BigInt(sla)]
  }

  /** The decoded value. */
  function Data(ev: ContractEvent, asText: bool): map<string, Native> {
    match ev
    case CheckSubmitted(_, _, round, hash, status) =>
      map["round_id" := BigInt(round), "endpoint_hash" := Bytes(hash),
          "status" := Arr([Text(if status == Up then "Up" else "Down")])]
    case SlaCreated(_, _, token, hash, bond, bps, quorum, penalty, beneficiary) =>
      map["token" := Text(token), "endpoint_hash" := Bytes(hash), "bond_amount" := Amount(bond, asText),
          "uptime_target_bps" := Number(bps), "quorum_threshold" := Number(quorum),
          "penalty_per_breach" := Amount(penalty, asText), "beneficiary" := Text(beneficiary)]
    case BondToppedUp(_, amount) => map["amount" := Amount(amount, asText)]
    case SettlementPaid(_, _, payout, beneficiary) =>
      map["payout" := Amount(payout, asText), "beneficiary" := Text(beneficiary)]
    case BondWithdrawn(_, amount) => map["amount" := Amount(amount, asText)]
    case _ => map[]
  }

  function Wire(ev: ContractEvent, m: Meta, asText: bool): DecodedEvent {
    DecodedEvent(m.eventId, m.ledger, m.closeTime, m.txHash, m.contractId, Some(Symbol(ev)),
                 [Text(Symbol(ev))] + Fields(ev), Record(Data(ev, asText)))
  }

  /** The row or watcher update an event must become. */
  function RowFor(ev: ContractEvent, m: Meta): Outcome {
    match ev
    case WatcherRegistered(w) => WatcherOutcome(Registered(w, m.closeTime))
    case WatcherRemoved(w) => WatcherOutcome(Removed(w, m.closeTime))
    case CheckSubmitted(sla, w, round, hash, status) =>
      CheckOutcome(CheckRow(m.eventId, ShowInt(sla), ShowInt(round), w, status, Hex(hash), m.closeTime))
    case SlaCreated(sla, provider, token, hash, bond, _, quorum, _, beneficiary) =>
      SlaOutcome(SlaRow(ShowInt(sla), provider, token, Hex(hash), ShowInt(bond), Some(quorum), beneficiary,
                        m.closeTime, m.txHash))
    case BondToppedUp(sla, amount) =>
      LifecycleOutcome(LifecycleRow(m.eventId, ShowInt(sla), LifecycleType.BondToppedUp, Some(ShowInt(amount)),
                                    m.txHash, m.closeTime))
    case SettlementPaid(sla, round, payout, beneficiary) =>
      SettlementOutcome(SettlementRow(m.eventId, ShowInt(sla), ShowInt(round), None, ShowInt(payout), beneficiary,
                                      m.txHash, m.closeTime))
    case SlaCancelled(sla) =>
      LifecycleOutcome(LifecycleRow(m.eventId, ShowInt(sla), LifecycleType.SlaCancelled, None, m.txHash, m.closeTime))
    case BondWithdrawn(sla, amount) =>
      LifecycleOutcome(LifecycleRow(m.eventId, ShowInt(sla), LifecycleType.BondWithdrawn, Some(ShowInt(amount)),
                                    m.txHash, m.closeTime))
  }

  /** What the classifier does with an event of this kind, whatever its fields. */
  function Handler(ev: ContractEvent, e: DecodedEvent): Result<Outcome, string> {
    match ev
    case WatcherRegistered(_) => Success(WatcherOutcome(Registered(StringOf(Topic(e, 1)), e.ledgerCloseTime)))
    case WatcherRemoved(_) => Success(WatcherOutcome(Removed(StringOf(Topic(e, 1)), e.ledgerCloseTime)))
    case CheckSubmitted(_, _, _, _, _) => ClassifyCheck(e)
    case SlaCreated(_, _, _, _, _, _, _, _, _) => ClassifySla(e)
    case BondToppedUp(_, _) => ClassifyAmount(e, LifecycleType.BondToppedUp)
    case SettlementPaid(_, _, _, _) => ClassifySettlement(e)
    case SlaCancelled(_) =>
      Success(LifecycleOutcome(LifecycleRow(e.eventId, StringOf(Topic(e, 1)), LifecycleType.SlaCancelled, None,
                                            e.txHash, e.ledgerCloseTime)))
    case BondWithdrawn(_, _) => ClassifyAmount(e, LifecycleType.BondWithdrawn)
  }

  /** The eight symbols are told apart. */
  lemma Dispatched(ev: ContractEvent, e: DecodedEvent)
    requires e.topicSymbol == Some(Symbol(ev))
    ensures Classify(e) == Handler(ev, e)
  {
    hide ClassifyCheck, ClassifySla, ClassifySettlement, ClassifyAmount, StringOf, Topic;
  }

  lemma TopicsOf(ev: ContractEvent, m: Meta, asText: bool)
    ensures var e, fields := Wire(ev, m, asText), Fields(ev);
            && |fields| >= 1 && Topic(e, 1) == fields[0]
            && (|fields| > 1 ==> Topic(e, 2) == fields[1])
  {
    hide Symbol;
  }

  lemma CheckRowOf(ev: ContractEvent, m: Meta, asText: bool)
    requires ev.CheckSubmitted?
    ensures ClassifyCheck(Wire(ev, m, asText)) == Success(RowFor(ev, m))
  {
    hide Topic, ShowInt, Hex, Symbol;
    TopicsOf(ev, m, asText);
    var raw := Field(Record(Data(ev, asText)), "status").value;
    assert |raw.elems| == 1;
  }

  lemma SlaRowOf(ev: ContractEvent, m: Meta, asText: bool)
    requires ev.SlaCreated?
    ensures ClassifySla(Wire(ev, m, asText)) == Success(RowFor(ev, m))
  {
    hide Topic, ShowInt, Hex, Symbol;
    TopicsOf(ev, m, asText);
  }

  /** Every event in the documented format is classified, and every field ends up in its own
      column whichever of topics and data carried it. */
  lemma DocumentedFormatClassified(ev: ContractEvent, m: Meta, asText: bool)
    ensures Classify(Wire(ev, m, asText)) == Success(RowFor(ev, m))
  {
    hide Classify, ClassifyCheck, ClassifySla, Topic, ShowInt, Hex, Symbol;
    Dispatched(ev, Wire(ev, m, asText));
    TopicsOf(ev, m, asText);
    match ev {
      case CheckSubmitted(_, _, _, _, _) => CheckRowOf(ev, m, asText);
      case SlaCreated(_, _, _, _, _, _, _, _, _) => SlaRowOf(ev, m, asText);
      case _ =>
    }
  }

  // ------------------------------------------------------ columns read back

  predicate IsHexDigit(c: char) {
    '0' <= c <= '9' || 'a' <= c <= 'f'
  }

  function HexValue(c: char): nat
    requires IsHexDigit(c)
  {
    if '0' <= c <= '9' then c as int - '0' as int else 10 + (c as int - 'a' as int)
  }

  predicate SpellsByte(high: char, low: char, b: bv8) {
    IsHexDigit(high) && IsHexDigit(low) && 16 * HexValue(high) + HexValue(low) == b as int
  }

  /** Two lowercase hexadecimal digits for each byte, the high one first. */
  ghost predicate SpellsBytes(text: string, bytes: seq<bv8>) {
    |text| == 2 * |bytes| && forall i :: 0 <= i < |bytes| ==> SpellsByte(text[2 * i], text[2 * i + 1], bytes[i])
  }

  lemma DigitValue(i: nat)
    requires i < 16
    ensures IsHexDigit("0123456789abcdef"[i]) && HexValue("0123456789abcdef"[i]) == i
  {
  }

  lemma Nibbles(b: bv8)
    ensures b >> 4 < 16 && b & 15 < 16 && 16 * (b >> 4) as int + (b & 15) as int == b as int
  {
  }

  lemma OneByte(b: bv8)
    ensures b >> 4 < 16 && b & 15 < 16 && SpellsByte(HexDigit(b >> 4), HexDigit(b & 15), b)
  {
    Nibbles(b);
    DigitValue((b >> 4) as int);
    DigitValue((b & 15) as int);
  }

  lemma {:induction false} HexReadsBack(bytes: seq<bv8>)
    ensures SpellsBytes(Hex(bytes), bytes)
  {
    if bytes != [] {
      OneByte(bytes[0]);
      HexReadsBack(bytes[1..]);
      hide HexDigit, SpellsByte;
      var text, rest := Hex(bytes), Hex(bytes[1..]);
      assert text[2..] == rest;
      forall i | 0 <= i < |bytes|
        ensures SpellsByte(text[2 * i], text[2 * i + 1], bytes[i])
      {
        if i > 0 {
          assert text[2 * i] == rest[2 * (i - 1)] && text[2 * i + 1] == rest[2 * (i - 1) + 1];
        }
      }
    }
  }

  /** The endpoint hash columns, in both tables, read back as the very bytes of the event. */
  lemma HashColumns(ev: ContractEvent, m: Meta, asText: bool)
    requires ev.CheckSubmitted? || ev.SlaCreated?
    ensures var o := Classify(Wire(ev, m, asText));
            && (ev.CheckSubmitted? ==> CheckIn(o).Some? && SpellsBytes(CheckIn(o).value.endpointHash, ev.endpointHash))
            && (ev.SlaCreated? ==> SlaIn(o).Some? && SpellsBytes(SlaIn(o).value.endpointHash, ev.endpointHash))
  {
    DocumentedFormatClassified(ev, m, asText);
    hide Classify, Wire, ShowInt, SpellsBytes, Hex;
    HexReadsBack(ev.endpointHash);
  }

  /** A decimal integer as JavaScript prints it: a minus sign only, and no leading zeros. */
  ghost predicate SpellsInteger(text: string, n: int) {
    var digits := if n < 0 && text != "" then text[1..] else text;
    && (n < 0 ==> text != "" && text[0] == '-')
    && digits != "" && Decimal.AllDigits(digits) && Decimal.Parse(digits) == (if n < 0 then -n else n)
    && (digits[0] == '0' ==> digits == "0")
  }

  lemma ShowIntReadsBack(n: int)
    ensures SpellsInteger(ShowInt(n), n)
  {
    var magnitude := if n < 0 then -n else n;
    Decimal.ParsePrint(magnitude);
    Decimal.NoLeadingZero(magnitude);
    if n < 0 {
      assert ShowInt(n)[1..] == Decimal.Print(magnitude);
    }
  }

  /** So do the columns that hold integers as text: ids, round ids, the bond, the payout and the
      amounts of lifecycle events. */
  lemma IntegerColumns(ev: ContractEvent, m: Meta, asText: bool)
    ensures var o := Classify(Wire(ev, m, asText));
            match ev
            case CheckSubmitted(sla, _, round, _, _) =>
              CheckIn(o).Some? && SpellsInteger(CheckIn(o).value.slaId, sla) && SpellsInteger(CheckIn(o).value.roundId, round)
            case SlaCreated(sla, _, _, _, bond, _, _, _, _) =>
              SlaIn(o).Some? && SpellsInteger(SlaIn(o).value.slaId, sla)
              && SpellsInteger(SlaIn(o).value.bondAmountAtCreation, bond)
            case SettlementPaid(sla, round, payout, _) =>
              SettlementIn(o).Some? && SpellsInteger(SettlementIn(o).value.slaId, sla)
              && SpellsInteger(SettlementIn(o).value.roundId, round)
              && SpellsInteger(SettlementIn(o).value.penaltyAmount, payout)
            case BondToppedUp(sla, amount) =>
              LifecycleIn(o).Some? && SpellsInteger(LifecycleIn(o).value.slaId, sla)
              && LifecycleIn(o).value.amount.Some? && SpellsInteger(LifecycleIn(o).value.amount.value, amount)
            case BondWithdrawn(sla, amount) =>
              LifecycleIn(o).Some? && SpellsInteger(LifecycleIn(o).value.slaId, sla)
              && LifecycleIn(o).value.amount.Some? && SpellsInteger(LifecycleIn(o).value.amount.value, amount)
            case SlaCancelled(sla) => LifecycleIn(o).Some? && SpellsInteger(LifecycleIn(o).value.slaId, sla)
            case _ => true
  {
    DocumentedFormatClassified(ev, m, asText);
    hide Classify, Wire, ShowInt, SpellsInteger, Hex;
    forall n: int
      ensures SpellsInteger(ShowInt(n), n)
    {
      ShowIntReadsBack(n);
    }
  }

  // --------------------------------------------------- rows determine events

  lemma DigitInjective(a: bv8, b: bv8)
    requires a < 16 && b < 16 && HexDigit(a) == HexDigit(b)
    ensures a == b
  {
    DigitAt(a as int, b as int);
  }

  lemma DigitAt(i: nat, j: nat)
    requires i < 16 && j < 16 && "0123456789abcdef"[i] == "0123456789abcdef"[j]
    ensures i == j
  {
  }

  lemma NibblesInjective(a: bv8, b: bv8)
    requires a >> 4 == b >> 4 && a & 15 == b & 15
    ensures a == b
  {
  }

  lemma {:induction false} HexInjective(a: seq<bv8>, b: seq<bv8>)
    requires Hex(a) == Hex(b)
    ensures a == b
  {
    if a != [] && b != [] {
      var high, low := a[0] >> 4, a[0] & 15;
      var high', low' := b[0] >> 4, b[0] & 15;
      assert Hex(a)[0] == HexDigit(high) && Hex(b)[0] == HexDigit(high');
      assert Hex(a)[1] == HexDigit(low) && Hex(b)[1] == HexDigit(low');
      DigitInjective(high, high');
      DigitInjective(low, low');
      NibblesInjective(a[0], b[0]);
      assert Hex(a)[2..] == Hex(a[1..]) && Hex(b)[2..] == Hex(b[1..]);
      HexInjective(a[1..], b[1..]);
    }
  }

  lemma ShowIntInjective(a: int, b: int)
    requires ShowInt(a) == ShowInt(b)
    ensures a == b
  {
    var i, j := if a < 0 then -a else a, if b < 0 then -b else b;
    Decimal.ParsePrint(i);
    Decimal.ParsePrint(j);
    assert Decimal.IsDigit(Decimal.Print(i)[0]) && Decimal.IsDigit(Decimal.Print(j)[0]);
    if a < 0 {
      assert ShowInt(a)[1..] == Decimal.Print(i);
    }
    if b < 0 {
      assert ShowInt(b)[1..] == Decimal.Print(j);
    }
  }

  /** The two fields of sla_created the tables have no column for. */
  function Stored(ev: ContractEvent): ContractEvent {
    if ev.SlaCreated? then ev.(uptimeTargetBps := 0, penaltyPerBreach := 0) else ev
  }

  /** Two events that are recorded alike are the same event, except for the uptime target and
      the penalty of an SLA, which are not stored: the tables lose nothing else. */
  lemma RowsDetermineEvents(a: ContractEvent, b: ContractEvent, m: Meta, m': Meta, x: bool, y: bool)
    requires Classify(Wire(a, m, x)) == Classify(Wire(b, m', y))
    ensures Stored(a) == Stored(b)
  {
    DocumentedFormatClassified(a, m, x);
    DocumentedFormatClassified(b, m', y);
    hide Classify, Wire, Hex;
    var r := RowFor(a, m);
    match a {
      case CheckSubmitted(_, _, _, _, _) =>
        ShowIntInjective(a.slaId, b.slaId);
        ShowIntInjective(a.roundId, b.roundId);
        HexInjective(a.endpointHash, b.endpointHash);
      case SlaCreated(_, _, _, _, _, _, _, _, _) =>
        ShowIntInjective(a.slaId, b.slaId);
        ShowIntInjective(a.bondAmount, b.bondAmount);
        HexInjective(a.endpointHash, b.endpointHash);
      case SettlementPaid(_, _, _, _) =>
        ShowIntInjective(a.slaId, b.slaId);
        ShowIntInjective(a.roundId, b.roundId);
        ShowIntInjective(a.payout, b.payout);
      case BondToppedUp(_, _) =>
        ShowIntInjective(a.slaId, b.slaId);
        ShowIntInjective(a.amount, b.amount);
      case BondWithdrawn(_, _) =>
        ShowIntInjective(a.slaId, b.slaId);
        ShowIntInjective(a.amount, b.amount);
      case SlaCancelled(_) =>
        ShowIntInjective(a.slaId, b.slaId);
      case _ =>
    }
  }
}
