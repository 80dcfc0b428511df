/** What the read API answers from the tables: the eligible watchers, the current-round split
    and the vote counts (indexer/src/db/d1.ts, indexer/src/worker/routes.ts). */
module Reads {
  import opened Wrappers
  import opened Events
  import opened Store
  import opened Replay
  import opened Redelivery

  // -------------------------------------------------------- eligible watchers

  /** `SELECT address ... FROM watchers WHERE removed_at IS NULL`. */
  predicate Eligible(t: Tables, a: string) {
    a in t.watchers && t.watchers[a].removedAt == None
  }

  predicate Registers(o: Result<Outcome, string>, a: string) {
    Touches(o, a) && o.value.watcher.Registered?
  }

  /** Position of the last event for an address. */
  ghost predicate LastTouch(events: seq<DecodedEvent>, a: string, i: nat) {
    && i < |events| && Touches(Classify(events[i]), a)
    && forall j :: i < j < |events| ==> !Touches(Classify(events[j]), a)
  }

  /** Position of the first registration of an address. */
  ghost predicate FirstRegistration(events: seq<DecodedEvent>, a: string, i: nat) {
    && i < |events| && Registers(Classify(events[i]), a)
    && forall j :: 0 <= j < i ==> !Registers(Classify(events[j]), a)
  }

  /** A watcher is eligible exactly when the last event for its address is a registration, and
      the registration time shown is that of the first registration ever; a known watcher whose last
      event is a removal is marked removed at the time of that event. */
  lemma {:induction false} EligibleIffLastRegistered(events: seq<DecodedEvent>, a: string)
    ensures var t := Replayed(EMPTY_TABLES, events);
            && (Eligible(t, a) <==> exists i: nat :: LastTouch(events, a, i) && Registers(Classify(events[i]), a))
            && (a in t.watchers <==> exists i: nat :: FirstRegistration(events, a, i))
            && (forall i: nat :: FirstRegistration(events, a, i) ==>
                  a in t.watchers && t.watchers[a].registeredAt == Classify(events[i]).value.watcher.at)
            && (forall i: nat :: LastTouch(events, a, i) && !Registers(Classify(events[i]), a) && a in t.watchers ==>
                  t.watchers[a].removedAt == Some(Classify(events[i]).value.watcher.at))
  {
    hide Classify;
    if events != [] {
      var init, e := events[..|events| - 1], events[|events| - 1];
      var o := Classify(e);
      EligibleIffLastRegistered(init, a);
      assert events == init + [e];
      ReplayedSnoc(EMPTY_TABLES, init, e);
      FirstRegistrationSnoc(init, e, a);
      LastTouchSnoc(init, e, a);
      WatcherAfter(Replayed(EMPTY_TABLES, init), o, a);
    }
  }

  lemma FirstRegistrationSnoc(init: seq<DecodedEvent>, e: DecodedEvent, a: string)
    ensures forall i: nat :: i < |init| ==>
              (FirstRegistration(init + [e], a, i) <==> FirstRegistration(init, a, i))
    ensures FirstRegistration(init + [e], a, |init|) <==>
            Registers(Classify(e), a) && forall i: nat :: !FirstRegistration(init, a, i)
  {
    hide Classify;
    var events := init + [e];
    assert events[|init|] == e;
    assert forall j :: 0 <= j < |init| ==> events[j] == init[j];
    if exists j :: 0 <= j < |init| && Registers(Classify(init[j]), a) {
      var j :| 0 <= j < |init| && Registers(Classify(init[j]), a);
      var i := SomeFirstRegistration(init, a, j);
    }
  }

  lemma {:induction false} SomeFirstRegistration(events: seq<DecodedEvent>, a: string, j: nat) returns (i: nat)
    requires j < |events| && Registers(Classify(events[j]), a)
    ensures FirstRegistration(events, a, i)
    decreases j
  {
    if k :| 0 <= k < j && Registers(Classify(events[k]), a) {
      i := SomeFirstRegistration(events, a, k);
    } else {
      i := j;
    }
  }

  lemma LastTouchSnoc(init: seq<DecodedEvent>, e: DecodedEvent, a: string)
    ensures forall i: nat :: i < |init| ==>
              (LastTouch(init + [e], a, i) <==> LastTouch(init, a, i) && !Touches(Classify(e), a))
    ensures LastTouch(init + [e], a, |init|) <==> Touches(Classify(e), a)
  {
    hide Classify;
    var events := init + [e];
    assert events[|init|] == e;
    assert forall j :: 0 <= j < |init| ==> events[j] == init[j];
  }

  lemma WatcherAfter(t: Tables, o: Result<Outcome, string>, a: string)
    ensures var t' := Effect(t, o);
            if !Touches(o, a) then SameWatcher(t, t', a)
            else if Registers(o, a) then
              Eligible(t', a)
              && t'.watchers[a].registeredAt == (if a in t.watchers then t.watchers[a].registeredAt else o.value.watcher.at)
            else
              !Eligible(t', a) && (a in t'.watchers <==> a in t.watchers)
              && (a in t.watchers ==> t'.watchers[a].registeredAt == t.watchers[a].registeredAt
                                      && t'.watchers[a].removedAt == Some(o.value.watcher.at))
  {
    hide Effect;
    EffectFields(t, o);
  }

  // ------------------------------------------------------------ current round

  /** `watchers.map((w) => w.address).filter((a) => !checkedInAddresses.has(a))`. */
  function NotYetCheckedIn(watchers: seq<string>, checkedIn: set<string>): seq<string> {
    if watchers == [] then []
    else
      var rest := NotYetCheckedIn(watchers[..|watchers| - 1], checkedIn);
      if watchers[|watchers| - 1] in checkedIn then rest else rest + [watchers[|watchers| - 1]]
  }

  /** The watchers that submitted a check for this SLA and round. */
  function CheckedIn(t: Tables, slaId: string, roundId: string): set<string> {
    set id | id in t.checks && t.checks[id].slaId == slaId && t.checks[id].roundId == roundId :: t.checks[id].watcher
  }

  /** However the query lists the eligible watchers, each of them is in exactly one of the two
      answers, as often as it was listed, and nobody else is in the second. */
  lemma {:induction false} CurrentRoundSplit(watchers: seq<string>, checkedIn: set<string>)
    ensures var missing := NotYetCheckedIn(watchers, checkedIn);
            && (forall a :: a in watchers ==> (a in checkedIn <==> a !in missing))
            && (forall a :: multiset(missing)[a] == if a in checkedIn then 0 else multiset(watchers)[a])
  {
    if watchers != [] {
      var init, a := watchers[..|watchers| - 1], watchers[|watchers| - 1];
      CurrentRoundSplit(init, checkedIn);
      assert watchers == init + [a];
    }
  }

  // -------------------------------------------------------------- vote counts

  /** The rows of checks for an SLA, a round and a status. */
  function VoteIds(t: Tables, slaId: string, roundId: string, status: Vote): set<string> {
    set id | id in t.checks && t.checks[id].slaId == slaId && t.checks[id].roundId == roundId
             && t.checks[id].status == status
  }

  /** `SUM(CASE WHEN status = ... THEN 1 ELSE 0 END) ... WHERE sla_id = ? AND round_id = ?`,
      with null read as zero. */
  function Votes(t: Tables, slaId: string, roundId: string, status: Vote): nat {
    |VoteIds(t, slaId, roundId, status)|
  }

  /** The check_submitted event is well-formed and casts this vote. */
  predicate Casts(e: DecodedEvent, slaId: string, roundId: string, status: Vote) {
    && CheckOf(e).Some? && CheckOf(e).value.slaId == slaId && CheckOf(e).value.roundId == roundId
    && CheckOf(e).value.status == status
  }

  /** The distinct events of a delivery that cast this vote. */
  function ChecksDelivered(events: seq<DecodedEvent>, slaId: string, roundId: string, status: Vote): set<string> {
    set i | 0 <= i < |events| && Casts(events[i], slaId, roundId, status) :: CheckOf(events[i]).value.eventId
  }

  /** Deliveries may repeat events, but an event id names one event. */
  ghost predicate IdsIdentify(events: seq<DecodedEvent>) {
    forall i, j :: 0 <= i < |events| && 0 <= j < |events|
                   && CheckOf(events[i]).Some? && CheckOf(events[j]).Some?
                   && CheckOf(events[i]).value.eventId == CheckOf(events[j]).value.eventId
                   ==> CheckOf(events[i]) == CheckOf(events[j])
  }

  /** The table holds exactly the check rows of these events, each under its own id. */
  ghost predicate HoldsChecks(checks: map<string, CheckRow>, events: seq<DecodedEvent>) {
    && (forall i :: 0 <= i < |events| && CheckOf(events[i]).Some? ==>
          CheckOf(events[i]).value.eventId in checks
          && checks[CheckOf(events[i]).value.eventId] == CheckOf(events[i]).value)
    && (forall id :: id in checks ==>
          exists i :: 0 <= i < |events| && CheckOf(events[i]) == Some(checks[id]) && checks[id].eventId == id)
  }

  function InsertCheckOf(checks: map<string, CheckRow>, o: Option<CheckRow>): map<string, CheckRow> {
    if o.Some? then InsertOrIgnore(checks, o.value.eventId, o.value) else checks
  }

  lemma InsertHolds(before: map<string, CheckRow>, events: seq<DecodedEvent>, e: DecodedEvent)
    requires HoldsChecks(before, events) && IdsIdentify(events + [e])
    ensures HoldsChecks(InsertCheckOf(before, CheckOf(e)), events + [e])
  {
    hide CheckOf;
    var all, after := events + [e], InsertCheckOf(before, CheckOf(e));
    assert all[|events|] == e;
    assert forall i :: 0 <= i < |events| ==> all[i] == events[i];
    forall id | id in after
      ensures exists i :: 0 <= i < |all| && CheckOf(all[i]) == Some(after[id]) && after[id].eventId == id
    {
      if id in before {
        var i :| 0 <= i < |events| && CheckOf(events[i]) == Some(before[id]) && before[id].eventId == id;
        assert CheckOf(all[i]) == Some(after[id]);
      } else {
        assert CheckOf(all[|events|]) == Some(after[id]);
      }
    }
  }

  /** However often events are delivered, the checks table holds exactly their check rows. */
  lemma {:induction false} ChecksTable(events: seq<DecodedEvent>)
    requires IdsIdentify(events)
    ensures HoldsChecks(Replayed(EMPTY_TABLES, events).checks, events)
  {
    hide Classify, Effect;
    if events != [] {
      var init, e := events[..|events| - 1], events[|events| - 1];
      assert forall i :: 0 <= i < |init| ==> init[i] == events[i];
      hide InsertOrIgnore, ApplyWatcher;
      ChecksTable(init);
      EffectFields(Replayed(EMPTY_TABLES, init), Classify(e));
      assert init + [e] == events;
      InsertHolds(Replayed(EMPTY_TABLES, init).checks, init, e);
    }
  }

  lemma VoteIdsDelivered(events: seq<DecodedEvent>, slaId: string, roundId: string, status: Vote, checks: map<string, CheckRow>)
    requires HoldsChecks(checks, events)
    ensures (set id | id in checks && checks[id].slaId == slaId && checks[id].roundId == roundId
                      && checks[id].status == status)
            == ChecksDelivered(events, slaId, roundId, status)
  {
    hide Classify, CheckOf;
    forall id | id in checks && checks[id].slaId == slaId && checks[id].roundId == roundId && checks[id].status == status
      ensures id in ChecksDelivered(events, slaId, roundId, status)
    {
      var i :| 0 <= i < |events| && CheckOf(events[i]) == Some(checks[id]) && checks[id].eventId == id;
      assert Casts(events[i], slaId, roundId, status);
    }
    forall id | id in ChecksDelivered(events, slaId, roundId, status)
      ensures id in checks && checks[id].slaId == slaId && checks[id].roundId == roundId && checks[id].status == status
    {
      var i :| 0 <= i < |events| && Casts(events[i], slaId, roundId, status) && CheckOf(events[i]).value.eventId == id;
      assert checks[id] == CheckOf(events[i]).value;
    }
  }

  /** The votes counted for a status are the distinct well-formed events that cast it, however
      often each was delivered; in particular no event is counted under both statuses. */
  lemma VotesCountDistinctChecks(events: seq<DecodedEvent>, slaId: string, roundId: string, status: Vote)
    requires IdsIdentify(events)
    ensures VoteIds(Replayed(EMPTY_TABLES, events), slaId, roundId, status)
            == ChecksDelivered(events, slaId, roundId, status)
    ensures Votes(Replayed(EMPTY_TABLES, events), slaId, roundId, status)
            == |ChecksDelivered(events, slaId, roundId, status)|
    ensures VoteIds(Replayed(EMPTY_TABLES, events), slaId, roundId, Up)
            !! VoteIds(Replayed(EMPTY_TABLES, events), slaId, roundId, Down)
  {
    hide Classify;
    ChecksTable(events);
    VoteIdsDelivered(events, slaId, roundId, status, Replayed(EMPTY_TABLES, events).checks);
  }

  predicate ChecksRound(e: DecodedEvent, slaId: string, roundId: string) {
    CheckOf(e).Some? && CheckOf(e).value.slaId == slaId && CheckOf(e).value.roundId == roundId
  }

  /** The distinct well-formed check events of a delivery for an SLA and a round. */
  function WellFormedChecks(events: seq<DecodedEvent>, slaId: string, roundId: string): set<string> {
    set i | 0 <= i < |events| && ChecksRound(events[i], slaId, roundId) :: CheckOf(events[i]).value.eventId
  }

  lemma EitherStatus(events: seq<DecodedEvent>, slaId: string, roundId: string)
    ensures WellFormedChecks(events, slaId, roundId)
            == ChecksDelivered(events, slaId, roundId, Up) + ChecksDelivered(events, slaId, roundId, Down)
  {
    hide CheckOf;
    var up, down := ChecksDelivered(events, slaId, roundId, Up), ChecksDelivered(events, slaId, roundId, Down);
    forall id | id in WellFormedChecks(events, slaId, roundId)
      ensures id in up + down
    {
      var i :| 0 <= i < |events| && ChecksRound(events[i], slaId, roundId) && CheckOf(events[i]).value.eventId == id;
      assert Casts(events[i], slaId, roundId, CheckOf(events[i]).value.status);
    }
    forall id | id in up + down
      ensures id in WellFormedChecks(events, slaId, roundId)
    {
      var i :| 0 <= i < |events| && CheckOf(events[i]).Some? && CheckOf(events[i]).value.eventId == id
               && (Casts(events[i], slaId, roundId, Up) || Casts(events[i], slaId, roundId, Down));
      assert ChecksRound(events[i], slaId, roundId);
    }
  }

  /** votes_up + votes_down is the number of distinct well-formed check events for the SLA and
      the round, whatever endpoint hash they were submitted under. */
  lemma VotesAddUp(events: seq<DecodedEvent>, slaId: string, roundId: string)
    requires IdsIdentify(events)
    ensures var t := Replayed(EMPTY_TABLES, events);
            Votes(t, slaId, roundId, Up) + Votes(t, slaId, roundId, Down) == |WellFormedChecks(events, slaId, roundId)|
  {
    hide Classify, CheckOf, Replayed, ChecksDelivered, WellFormedChecks, IdsIdentify;
    VotesCountDistinctChecks(events, slaId, roundId, Up);
    VotesCountDistinctChecks(events, slaId, roundId, Down);
    EitherStatus(events, slaId, roundId);
  }

  // ------------------------------------------------------ current round, by log

  /** The last event for the address registers it. */
  ghost predicate EligibleByLog(events: seq<DecodedEvent>, a: string) {
    exists i: nat :: LastTouch(events, a, i) && Registers(Classify(events[i]), a)
  }

  /** The address submitted a well-formed check for this SLA and round. */
  ghost predicate ChecksIn(events: seq<DecodedEvent>, slaId: string, roundId: string, a: string) {
    exists i :: 0 <= i < |events| && Submits(events[i], slaId, roundId, a)
  }

  predicate Submits(e: DecodedEvent, slaId: string, roundId: string, a: string) {
    CheckOf(e).Some? && CheckOf(e).value.slaId == slaId && CheckOf(e).value.roundId == roundId && CheckOf(e).value.watcher == a
  }

  lemma CheckedInIff(events: seq<DecodedEvent>, slaId: string, roundId: string, a: string)
    requires IdsIdentify(events)
    ensures a in CheckedIn(Replayed(EMPTY_TABLES, events), slaId, roundId) <==> ChecksIn(events, slaId, roundId, a)
  {
    hide CheckOf, Replayed, IdsIdentify;
    var t := Replayed(EMPTY_TABLES, events);
    ChecksTable(events);
    if a in CheckedIn(t, slaId, roundId) {
      var id :| id in t.checks && t.checks[id].slaId == slaId && t.checks[id].roundId == roundId && t.checks[id].watcher == a;
      var i :| 0 <= i < |events| && CheckOf(events[i]) == Some(t.checks[id]);
      assert Submits(events[i], slaId, roundId, a);
    }
    if ChecksIn(events, slaId, roundId, a) {
      var i :| 0 <= i < |events| && Submits(events[i], slaId, roundId, a);
      var id := CheckOf(events[i]).value.eventId;
      assert t.checks[id] == CheckOf(events[i]).value;
    }
  }

  /** The current-round answer on a log, for any order in which the query lists the eligible
      watchers: `not_yet_checked_in` are exactly those whose last event is a registration and
      who submitted no well-formed check for the SLA in this round, each of them once. */
  lemma CurrentRoundAnswer(events: seq<DecodedEvent>, slaId: string, roundId: string, listed: seq<string>)
    requires IdsIdentify(events)
    requires forall a :: multiset(listed)[a] == if Eligible(Replayed(EMPTY_TABLES, events), a) then 1 else 0
    ensures var missing := NotYetCheckedIn(listed, CheckedIn(Replayed(EMPTY_TABLES, events), slaId, roundId));
            forall a :: multiset(missing)[a] ==
                        if EligibleByLog(events, a) && !ChecksIn(events, slaId, roundId, a) then 1 else 0
  {
    hide Classify, Replayed, CheckedIn, IdsIdentify;
    var t := Replayed(EMPTY_TABLES, events);
    var checkedIn := CheckedIn(t, slaId, roundId);
    CurrentRoundSplit(listed, checkedIn);
    forall a
      ensures a in checkedIn <==> ChecksIn(events, slaId, roundId, a)
      ensures Eligible(t, a) <==> EligibleByLog(events, a)
    {
      CheckedInIff(events, slaId, roundId, a);
      EligibleIffLastRegistered(events, a);
    }
  }
}
