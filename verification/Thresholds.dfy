/** The lazily cached quorum_threshold and how it commutes with ingestion. */
module Thresholds {
  import opened Wrappers
  import opened Events
  import opened Store
  import opened Replay

  ghost predicate SameSlas(m: map<string, SlaRow>, m': map<string, SlaRow>) {
    && m.Keys == m'.Keys
    && forall k :: k in m ==> m[k].(quorumThreshold := None) == m'[k].(quorumThreshold := None)
  }

  ghost predicate SameSettlements(m: map<string, SettlementRow>, m': map<string, SettlementRow>) {
    && m.Keys == m'.Keys
    && forall k :: k in m ==> m[k].(quorumThreshold := None) == m'[k].(quorumThreshold := None)
  }

  /** The tables hold the same rows, but for the thresholds cached in them. */
  ghost predicate SameButThresholds(t: Tables, t': Tables) {
    && t.watchers == t'.watchers && t.checks == t'.checks && t.lifecycle == t'.lifecycle
    && SameSlas(t.slas, t'.slas) && SameSettlements(t.settlements, t'.settlements)
  }

  /** setSlaQuorumThreshold, on the tables. */
  ghost function Filled(t: Tables, slaId: string, threshold: int): Tables {
    t.(slas := OverwriteThreshold(t.slas, slaId, threshold),
       settlements := FillNullThresholds(t.settlements, slaId, threshold))
  }

  lemma CacheThresholdFills(db: DbState, slaId: string, threshold: int)
    ensures CacheThreshold(db, slaId, threshold) == db.(tables := Filled(db.tables, slaId, threshold))
  {
  }

  /** A fill changes nothing but thresholds. */
  lemma FillInvisible(t: Tables, t': Tables, slaId: string, threshold: int)
    requires SameButThresholds(t, t')
    ensures SameButThresholds(Filled(t, slaId, threshold), t')
  {
  }

  lemma InsertSameSla(m: map<string, SlaRow>, m': map<string, SlaRow>, s: SlaRow)
    requires SameSlas(m, m')
    ensures SameSlas(InsertOrIgnore(m, s.slaId, s), InsertOrIgnore(m', s.slaId, s))
  {
  }

  lemma InsertSameSettlement(m: map<string, SettlementRow>, m': map<string, SettlementRow>, s: SettlementRow)
    requires SameSettlements(m, m')
    ensures SameSettlements(InsertOrIgnore(m, s.eventId, s), InsertOrIgnore(m', s.eventId, s))
  {
  }

  lemma EffectIgnoresThresholds(t: Tables, t': Tables, o: Result<Outcome, string>)
    requires SameButThresholds(t, t')
    ensures SameButThresholds(Effect(t, o), Effect(t', o))
  {
    hide Effect;
    if o.Success? && o.value.SlaOutcome? {
      InsertSameSla(t.slas, t'.slas, o.value.sla);
    } else if o.Success? && o.value.SettlementOutcome? {
      InsertSameSettlement(t.settlements, t'.settlements, o.value.settlement);
    }
    EffectFields(t, o);
    EffectFields(t', o);
  }

  /** Ingestion neither reads nor writes a threshold that is already cached: with or without
      fills in between, it builds the same rows. */
  lemma {:induction false} ReplayIgnoresThresholds(t: Tables, t': Tables, events: seq<DecodedEvent>)
    requires SameButThresholds(t, t')
    ensures SameButThresholds(Replayed(t, events), Replayed(t', events))
  {
    hide Classify, Effect;
    if events != [] {
      var init, e := events[..|events| - 1], events[|events| - 1];
      ReplayIgnoresThresholds(t, t', init);
      EffectIgnoresThresholds(Replayed(t, init), Replayed(t', init), Classify(e));
    }
  }

  /** The threshold each SLA was created with; it never changes on chain. */
  type Quorum = string -> int

  ghost predicate TruthfulSlas(slas: map<string, SlaRow>, q: Quorum) {
    forall k :: k in slas && slas[k].quorumThreshold.Some? ==> slas[k].quorumThreshold.value == q(k)
  }

  ghost predicate TruthfulSettlements(settlements: map<string, SettlementRow>, q: Quorum) {
    forall k :: k in settlements && settlements[k].quorumThreshold.Some? ==>
      settlements[k].quorumThreshold.value == q(settlements[k].slaId)
  }

  /** Every stored threshold is the SLA's own. */
  ghost predicate Truthful(t: Tables, q: Quorum) {
    TruthfulSlas(t.slas, q) && TruthfulSettlements(t.settlements, q)
  }

  /** The sla_created events carry the same thresholds the live reads return. */
  predicate EventAgrees(o: Result<Outcome, string>, q: Quorum) {
    o.Success? && o.value.SlaOutcome? && o.value.sla.quorumThreshold.Some? ==>
      o.value.sla.quorumThreshold.value == q(o.value.sla.slaId)
  }

  ghost predicate EventsAgree(events: seq<DecodedEvent>, q: Quorum) {
    forall i :: 0 <= i < |events| ==> EventAgrees(Classify(events[i]), q)
  }

  /** No threshold, once stored, is ever lost or changed. */
  ghost predicate KeepsThresholds(t: Tables, t': Tables) {
    && (forall k :: k in t.slas && t.slas[k].quorumThreshold.Some? ==>
          k in t'.slas && t'.slas[k].quorumThreshold == t.slas[k].quorumThreshold)
    && (forall k :: k in t.settlements && t.settlements[k].quorumThreshold.Some? ==>
          k in t'.settlements && t'.settlements[k].quorumThreshold == t.settlements[k].quorumThreshold)
  }

  lemma FillTruthful(t: Tables, slaId: string, q: Quorum)
    requires Truthful(t, q)
    ensures Truthful(Filled(t, slaId, q(slaId)), q)
    ensures KeepsThresholds(t, Filled(t, slaId, q(slaId)))
    ensures var t' := Filled(t, slaId, q(slaId));
            && (slaId in t'.slas ==> t'.slas[slaId].quorumThreshold == Some(q(slaId)))
            && (forall k :: k in t'.settlements && t'.settlements[k].slaId == slaId ==>
                  t'.settlements[k].quorumThreshold == Some(q(slaId)))
  {
  }

  lemma InsertTruthfulSla(m: map<string, SlaRow>, s: SlaRow, q: Quorum)
    requires TruthfulSlas(m, q)
    requires s.quorumThreshold.Some? ==> s.quorumThreshold.value == q(s.slaId)
    ensures TruthfulSlas(InsertOrIgnore(m, s.slaId, s), q)
  {
  }

  lemma InsertNullSettlement(m: map<string, SettlementRow>, s: SettlementRow, q: Quorum)
    requires TruthfulSettlements(m, q) && s.quorumThreshold == None
    ensures TruthfulSettlements(InsertOrIgnore(m, s.eventId, s), q)
  {
  }

  lemma EffectTruthful(t: Tables, o: Result<Outcome, string>, q: Quorum)
    requires Truthful(t, q) && EventAgrees(o, q)
    requires SettlementIn(o).Some? ==> SettlementIn(o).value.quorumThreshold == None
    ensures Truthful(Effect(t, o), q) && KeepsThresholds(t, Effect(t, o))
  {
    hide Effect;
    EffectFields(t, o);
    if o.Success? && o.value.SlaOutcome? {
      InsertTruthfulSla(t.slas, o.value.sla, q);
    } else if o.Success? && o.value.SettlementOutcome? {
      InsertNullSettlement(t.settlements, o.value.settlement, q);
    }
  }

  lemma SettlementsStartNull(e: DecodedEvent)
    ensures SettlementOf(e).Some? ==> SettlementOf(e).value.quorumThreshold == None
  {
  }

  lemma {:induction false} ReplayTruthful(t: Tables, events: seq<DecodedEvent>, q: Quorum)
    requires Truthful(t, q) && EventsAgree(events, q)
    ensures Truthful(Replayed(t, events), q) && KeepsThresholds(t, Replayed(t, events))
  {
    hide Classify;
    if events != [] {
      var init, e := events[..|events| - 1], events[|events| - 1];
      assert forall i :: 0 <= i < |init| ==> init[i] == events[i];
      ReplayTruthful(t, init, q);
      SettlementsStartNull(e);
      EffectTruthful(Replayed(t, init), Classify(e), q);
    }
  }
}
