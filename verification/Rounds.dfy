/** watcher/internal/round/round.go and the daemon loop of watcher/cmd/watcher/main.go. Times
    are nanoseconds since 1970. */
module Rounds {
  import opened Arithmetic
  import LedgerClock

  const SECOND: nat := 1_000_000_000

  function Unix(t: nat): nat {
    t / SECOND
  }

  function CurrentID(t: nat, roundLengthSeconds: nat): nat
    requires roundLengthSeconds > 0
  {
    Unix(t) / roundLengthSeconds
  }

  function StartTime(id: nat, roundLengthSeconds: nat): nat {
    id * roundLengthSeconds * SECOND
  }

  function UntilNextRound(now: nat, roundLengthSeconds: nat): int
    requires roundLengthSeconds > 0
  {
    var currentRound := CurrentID(now, roundLengthSeconds);
    var d := StartTime(currentRound + 1, roundLengthSeconds) - now;
    if d < 0 then 0 else d
  }

  /** A moment is in a round exactly when it lies between that round's start and the next. */
  lemma InRoundIff(t: nat, len: nat, id: nat)
    requires len > 0
    ensures CurrentID(t, len) == id <==> StartTime(id, len) <= t < StartTime(id + 1, len)
  {
    var s, k := Unix(t), CurrentID(t, len);
    DivisionBounds(t, SECOND);
    DivisionBounds(s, len);
    Between(t, s, len, k);
    if k < id {
      TimesMonotone(k + 1, id, len);
      TimesMonotone((k + 1) * len, id * len, SECOND);
    } else if k > id {
      TimesMonotone(id + 1, k, len);
      TimesMonotone((id + 1) * len, k * len, SECOND);
    }
  }

  lemma Between(t: nat, s: nat, len: nat, k: nat)
    requires s * SECOND <= t < (s + 1) * SECOND
    requires k * len <= s < (k + 1) * len
    ensures StartTime(k, len) <= t < StartTime(k + 1, len)
  {
    TimesMonotone(k * len, s, SECOND);
    TimesMonotone(s + 1, (k + 1) * len, SECOND);
  }

  /** The wait ends exactly on the next boundary: it is positive, at most one round long, and
      lands on the start of the round after the current one. */
  lemma WaitLandsOnBoundary(now: nat, len: nat)
    requires len > 0
    ensures var d := UntilNextRound(now, len);
            && 0 < d <= len * SECOND
            && now + d == StartTime(CurrentID(now, len) + 1, len)
            && CurrentID(now + d, len) == CurrentID(now, len) + 1
  {
    var id := CurrentID(now, len);
    InRoundIff(now, len, id);
    Consecutive(id, len);
    Consecutive(id + 1, len);
    InRoundIff(StartTime(id + 1, len), len, id + 1);
  }

  lemma Consecutive(id: nat, len: nat)
    ensures StartTime(id + 1, len) == StartTime(id, len) + len * SECOND
    ensures len > 0 ==> StartTime(id, len) < StartTime(id + 1, len)
  {
    assert (id + 1) * len == id * len + len;
  }

  lemma IdMonotone(t: nat, t': nat, len: nat)
    requires len > 0 && t <= t'
    ensures CurrentID(t, len) <= CurrentID(t', len)
  {
    var id, id' := CurrentID(t, len), CurrentID(t', len);
    InRoundIff(t, len, id);
    InRoundIff(t', len, id');
    if id' < id {
      TimesMonotone(id' + 1, id, len);
      TimesMonotone((id' + 1) * len, id * len, SECOND);
    }
  }

  /** The first boundary after a moment. */
  function NextBoundary(t: nat, len: nat): nat
    requires len > 0
  {
    StartTime(CurrentID(t, len) + 1, len)
  }

  /** No boundary lies between a moment and its next boundary. */
  lemma NextBoundaryIsFirst(t: nat, len: nat, id: nat)
    requires len > 0
    ensures t < NextBoundary(t, len) <= t + len * SECOND
    ensures StartTime(id, len) > t ==> StartTime(id, len) >= NextBoundary(t, len)
    ensures CurrentID(NextBoundary(t, len), len) == CurrentID(t, len) + 1
  {
    WaitLandsOnBoundary(t, len);
    InRoundIff(t, len, CurrentID(t, len));
    if id <= CurrentID(t, len) {
      TimesMonotone(id, CurrentID(t, len), len);
      TimesMonotone(id * len, CurrentID(t, len) * len, SECOND);
    } else {
      TimesMonotone(CurrentID(t, len) + 1, id, len);
      TimesMonotone((CurrentID(t, len) + 1) * len, id * len, SECOND);
    }
  }

  /** When round k's work starts: at the start, or when the sleep before it ends. */
  function WorkStarts(start: nat, targets: seq<nat>, late: nat -> nat, k: nat): nat
    requires k <= |targets|
  {
    if k == 0 then start else targets[k - 1] + late(k - 1)
  }

  /** Round k's work ended after its checks, and the sleep after it aimed at the first boundary
      from then on. */
  ghost predicate Paced(start: nat, len: nat, checks: nat -> nat, late: nat -> nat, targets: seq<nat>, ended: seq<nat>, k: nat)
    requires len > 0
  {
    && k < |targets| && k < |ended|
    && ended[k] == WorkStarts(start, targets, late, k) + checks(k)
    && targets[k] == NextBoundary(ended[k], len)
  }

  lemma PacedOnward(start: nat, len: nat, checks: nat -> nat, late: nat -> nat, targets: seq<nat>, ended: seq<nat>,
                    target: nat, end: nat, k: nat)
    requires len > 0 && Paced(start, len, checks, late, targets, ended, k)
    ensures Paced(start, len, checks, late, targets + [target], ended + [end], k)
  {
    hide NextBoundary;
  }

  /** Later targets are later boundaries, in later rounds. */
  lemma {:induction false} PacedRises(start: nat, len: nat, checks: nat -> nat, late: nat -> nat,
                                      targets: seq<nat>, ended: seq<nat>, i: nat, j: nat)
    requires len > 0 && i < j < |targets|
    requires forall k: nat :: k < |targets| ==> Paced(start, len, checks, late, targets, ended, k)
    ensures targets[i] < targets[j] && CurrentID(targets[i], len) < CurrentID(targets[j], len)
    decreases j - i
  {
    if i + 1 < j {
      PacedRises(start, len, checks, late, targets, ended, i, j - 1);
    }
    assert Paced(start, len, checks, late, targets, ended, j);
    hide Paced, NextBoundary, CurrentID;
    NextBoundaryIsFirst(ended[j], len, 0);
    IdMonotone(targets[j - 1], ended[j], len);
  }

  /** The daemon loop. `checks(k)` is how long the k-th round's work takes, `late(k)` how much
      after the requested moment the k-th sleep ends, and `stop(k)` whether the context is
      cancelled by then. `ended[k]` is when the k-th round's work ended. Each sleep aims at the
      first boundary after the work before it, the boundaries aimed at strictly increase whatever
      the work and the wake-ups take, and the loop goes on until it is stopped. */
  method Daemon(start: nat, len: nat, checks: nat -> nat, late: nat -> nat, stop: nat -> bool, limit: nat)
    returns (targets: seq<nat>, ended: seq<nat>)
    requires len > 0
    ensures |targets| == |ended| <= limit
    ensures forall k: nat :: k < |targets| ==> Paced(start, len, checks, late, targets, ended, k)
    ensures forall i, j :: 0 <= i < j < |targets| ==>
              targets[i] < targets[j] && CurrentID(targets[i], len) < CurrentID(targets[j], len)
    ensures forall i: nat :: i + 1 < |targets| ==> !stop(i)
    ensures |targets| == limit || (targets != [] && stop(|targets| - 1))
  {
    hide CurrentID, StartTime, UntilNextRound;
    var now := start;
    targets, ended := [], [];
    var stopped := false;
    while |targets| < limit && !stopped
      invariant |targets| == |ended| <= limit
      invariant !stopped ==> now == WorkStarts(start, targets, late, |targets|)
      invariant stopped ==> targets != [] && stop(|targets| - 1)
      invariant forall k: nat :: k < |targets| ==> Paced(start, len, checks, late, targets, ended, k)
      invariant forall i: nat :: i < |targets| && (!stopped || i + 1 < |targets|) ==> !stop(i)
      decreases limit - |targets|
    {
      var k := |targets|;
      var finished := now + checks(k);
      WaitLandsOnBoundary(finished, len);
      var target := finished + UntilNextRound(finished, len);
      forall i: nat | i < k
        ensures Paced(start, len, checks, late, targets + [target], ended + [finished], i)
      {
        PacedOnward(start, len, checks, late, targets, ended, target, finished, i);
      }
      targets, ended := targets + [target], ended + [finished];
      stopped := stop(k);
      now := target + late(k);
    }
    forall i, j | 0 <= i < j < |targets|
      ensures targets[i] < targets[j] && CurrentID(targets[i], len) < CurrentID(targets[j], len)
    {
      PacedRises(start, len, checks, late, targets, ended, i, j);
    }
  }

  /** The watcher's round id and the indexer's floating-point one agree at every moment whose
      second the indexer's clock accepts. */
  lemma WatcherAndIndexerAgree(rn: LedgerClock.Rounding, t: nat, len: nat)
    requires LedgerClock.RoundsToNearest(rn) && len > 0
    requires Unix(t) * 1000 <= LedgerClock.MAX_DATE_TIME_MS
    ensures LedgerClock.CurrentRoundId(rn, Unix(t) * 1000, len) == CurrentID(t, len)
  {
    LedgerClock.RoundIdExact(rn, Unix(t), len);
  }
}
