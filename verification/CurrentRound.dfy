/** The current-round route from end to end (indexer/src/worker/routes.ts, indexer/src/api/routes.ts):
    from the events the contracts emit and the close time of the latest ledger to its answer. */
module CurrentRound {
  import opened Wrappers
  import opened Events
  import opened ContractEvents
  import opened Store
  import opened Replay
  import opened Redelivery
  import opened Reads
  import LedgerClock

  /** A contract event as the chain holds it. */
  datatype Emitted = Emitted(event: ContractEvent, meta: Meta, asText: bool)

  function Decoded(e: Emitted): DecodedEvent {
    Wire(e.event, e.meta, e.asText)
  }

  function Delivered(chain: seq<Emitted>): seq<DecodedEvent> {
    seq(|chain|, i requires 0 <= i < |chain| => Decoded(chain[i]))
  }

  /** An event may be delivered again, but an id names one event. */
  ghost predicate OneEventPerId(chain: seq<Emitted>) {
    forall i, j :: 0 <= i < |chain| && 0 <= j < |chain| && chain[i].meta.eventId == chain[j].meta.eventId ==>
                     chain[i].event == chain[j].event && chain[i].meta == chain[j].meta
  }

  /** The watcher voted on the SLA in the round. */
  ghost predicate Voted(chain: seq<Emitted>, slaId: nat, round: int, watcher: string) {
    exists i :: 0 <= i < |chain| && IsVote(chain[i].event, slaId, round, watcher)
  }

  predicate IsVote(ev: ContractEvent, slaId: nat, round: int, watcher: string) {
    ev.CheckSubmitted? && ev.slaId == slaId && ev.roundId == round && ev.watcher == watcher
  }

  predicate IsAbout(ev: ContractEvent, watcher: string) {
    (ev.WatcherRegistered? || ev.WatcherRemoved?) && ev.watcher == watcher
  }

  /** The registry's last word on the watcher is that it is registered. */
  ghost predicate Active(chain: seq<Emitted>, watcher: string) {
    exists i: nat :: i < |chain| && IsAbout(chain[i].event, watcher) && chain[i].event.WatcherRegistered?
                     && forall j :: i < j < |chain| ==> !IsAbout(chain[j].event, watcher)
  }

  lemma ClassifiedVote(e: Emitted, slaId: nat, round: int, watcher: string)
    ensures Submits(Decoded(e), ShowInt(slaId), ShowInt(round), watcher) <==> IsVote(e.event, slaId, round, watcher)
  {
    DocumentedFormatClassified(e.event, e.meta, e.asText);
    hide Classify, ShowInt, Hex, Wire;
    if e.event.CheckSubmitted? && ShowInt(e.event.slaId) == ShowInt(slaId) {
      ShowIntInjective(e.event.slaId, slaId);
    }
    if e.event.CheckSubmitted? && ShowInt(e.event.roundId) == ShowInt(round) {
      ShowIntInjective(e.event.roundId, round);
    }
  }

  lemma ClassifiedWatcher(e: Emitted, watcher: string)
    ensures Touches(Classify(Decoded(e)), watcher) <==> IsAbout(e.event, watcher)
    ensures Registers(Classify(Decoded(e)), watcher) <==> IsAbout(e.event, watcher) && e.event.WatcherRegistered?
  {
    DocumentedFormatClassified(e.event, e.meta, e.asText);
    hide Classify, ShowInt, Hex, Wire;
  }

  lemma VotedIffChecksIn(chain: seq<Emitted>, slaId: nat, round: int, watcher: string)
    ensures ChecksIn(Delivered(chain), ShowInt(slaId), ShowInt(round), watcher) <==> Voted(chain, slaId, round, watcher)
  {
    hide Submits, IsVote, Decoded, ShowInt;
    var events := Delivered(chain);
    forall i | 0 <= i < |chain|
      ensures Submits(events[i], ShowInt(slaId), ShowInt(round), watcher) <==> IsVote(chain[i].event, slaId, round, watcher)
    {
      assert events[i] == Decoded(chain[i]);
      ClassifiedVote(chain[i], slaId, round, watcher);
    }
  }

  lemma ActiveIffEligible(chain: seq<Emitted>, watcher: string)
    ensures EligibleByLog(Delivered(chain), watcher) <==> Active(chain, watcher)
  {
    hide Touches, Registers, IsAbout, Classify, Decoded;
    var events := Delivered(chain);
    forall i | 0 <= i < |chain|
      ensures Touches(Classify(events[i]), watcher) <==> IsAbout(chain[i].event, watcher)
      ensures Registers(Classify(events[i]), watcher) <==>
              IsAbout(chain[i].event, watcher) && chain[i].event.WatcherRegistered?
    {
      assert events[i] == Decoded(chain[i]);
      ClassifiedWatcher(chain[i], watcher);
    }
    if EligibleByLog(events, watcher) {
      var i: nat :| LastTouch(events, watcher, i) && Registers(Classify(events[i]), watcher);
      assert IsAbout(chain[i].event, watcher);
      assert forall j :: i < j < |chain| ==> !IsAbout(chain[j].event, watcher);
    }
    if Active(chain, watcher) {
      var i: nat :| i < |chain| && IsAbout(chain[i].event, watcher) && chain[i].event.WatcherRegistered?
                    && forall j :: i < j < |chain| ==> !IsAbout(chain[j].event, watcher);
      assert LastTouch(events, watcher, i);
    }
  }

  lemma DeliveredIds(chain: seq<Emitted>)
    requires OneEventPerId(chain)
    ensures IdsIdentify(Delivered(chain))
  {
    hide Classify, ShowInt, Hex, Wire;
    var events := Delivered(chain);
    forall i | 0 <= i < |chain|
      ensures CheckOf(events[i]).Some? ==> CheckOf(events[i]).value.eventId == chain[i].meta.eventId
      ensures Classify(events[i]) == Success(RowFor(chain[i].event, chain[i].meta))
    {
      DocumentedFormatClassified(chain[i].event, chain[i].meta, chain[i].asText);
    }
  }

  /** For contract events delivered in whatever repetition, any latest ledger, any round length and
      any order in which the query lists the eligible watchers: the route's answer, computed with the
      round id of floating-point arithmetic and with texts for ids, splits the watchers by who voted
      in round `seconds / length`. Checked in are exactly those; not yet checked in are exactly the
      watchers the registry last registered that did not vote in that round, each once. */
  lemma CurrentRoundOnChain(rn: LedgerClock.Rounding, chain: seq<Emitted>, slaId: nat, seconds: nat, length: nat,
                            listed: seq<string>)
    requires LedgerClock.RoundsToNearest(rn) && seconds * 1000 <= LedgerClock.MAX_DATE_TIME_MS && length > 0
    requires OneEventPerId(chain)
    requires forall a :: multiset(listed)[a] == if Eligible(Replayed(EMPTY_TABLES, Delivered(chain)), a) then 1 else 0
    ensures var roundId := LedgerClock.CurrentRoundId(rn, seconds * 1000, length);
            var checkedIn := CheckedIn(Replayed(EMPTY_TABLES, Delivered(chain)), ShowInt(slaId), ShowInt(roundId));
            var missing := NotYetCheckedIn(listed, checkedIn);
            && (forall a :: a in checkedIn <==> Voted(chain, slaId, seconds / length, a))
            && (forall a :: multiset(missing)[a] ==
                            if Active(chain, a) && !Voted(chain, slaId, seconds / length, a) then 1 else 0)
  {
    hide LedgerClock.RoundsToNearest, LedgerClock.CurrentRoundId, Replayed, CheckedIn, IdsIdentify, OneEventPerId,
         EligibleByLog, ChecksIn, Active, Voted, ShowInt, Eligible, NotYetCheckedIn, Delivered;
    LedgerClock.RoundIdExact(rn, seconds, length);
    DeliveredIds(chain);
    var events, round := Delivered(chain), seconds / length;
    CurrentRoundAnswer(events, ShowInt(slaId), ShowInt(round), listed);
    forall a
      ensures ChecksIn(events, ShowInt(slaId), ShowInt(round), a) <==> Voted(chain, slaId, round, a)
      ensures EligibleByLog(events, a) <==> Active(chain, a)
      ensures a in CheckedIn(Replayed(EMPTY_TABLES, events), ShowInt(slaId), ShowInt(round)) <==>
              ChecksIn(events, ShowInt(slaId), ShowInt(round), a)
    {
      VotedIffChecksIn(chain, slaId, round, a);
      ActiveIffEligible(chain, a);
      CheckedInIff(events, ShowInt(slaId), ShowInt(round), a);
    }
  }
}
