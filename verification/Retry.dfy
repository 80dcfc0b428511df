/** watcher/internal/retry/retry.go. Durations are nanoseconds. */
module Retry {
  import opened Wrappers
  import opened Arithmetic

  datatype Options = Options(maxAttempts: int, baseDelay: nat, maxDelay: nat)

  /** The k-th wait, k from 0: the base delay, then doubled each time up to the cap. The cap is
      not applied to the first wait. */
  function WaitOf(opts: Options, k: nat): nat {
    if k == 0 then opts.baseDelay else Min(opts.baseDelay * Pow2(k), opts.maxDelay)
  }

  function Attempts(opts: Options): nat {
    if opts.maxAttempts < 1 then 1 else opts.maxAttempts
  }

  /** What a call of fn, or Do itself, ends in. */
  datatype Outcome<T> = Ok(value: T) | Failed | Cancelled

  lemma DoubleCapped(base: nat, k: nat, cap: nat)
    ensures Min(2 * (base * Pow2(k)), cap) == Min(base * Pow2(k + 1), cap)
    ensures Min(2 * Min(base * Pow2(k), cap), cap) == Min(base * Pow2(k + 1), cap)
  {
    assert 2 * (base * Pow2(k)) == base * Pow2(k + 1);
  }

  function SumOf(waits: seq<nat>): nat {
    if waits == [] then 0 else SumOf(waits[..|waits| - 1]) + waits[|waits| - 1]
  }

  /** Do. `fn(k)` is what the k-th call (from 0) returns, None for an error; `cancelled(k)` says
      whether the context ends the k-th wait. The result is the first success if the calls up
      to it were not cut off, a cancellation if a wait was, and a failure only after every
      attempt was made. */
  method Do<T>(opts: Options, fn: nat -> Option<T>, cancelled: nat -> bool)
    returns (result: Outcome<T>, calls: nat, waits: seq<nat>)
    ensures 1 <= calls <= Attempts(opts)
    ensures |waits| == calls - 1 || (result.Cancelled? && |waits| == calls)
    ensures forall k :: 0 <= k < |waits| ==> waits[k] == WaitOf(opts, k)
    ensures forall k: nat :: k + 1 < calls ==> fn(k).None? && !cancelled(k)
    ensures match result
            case Ok(v) => fn(calls - 1) == Some(v)
            case Cancelled => fn(calls - 1).None? && cancelled(calls - 1) && calls < Attempts(opts)
            case Failed => fn(calls - 1).None? && calls == Attempts(opts)
    ensures opts.maxAttempts <= 1 ==> calls == 1
    ensures opts.maxAttempts >= 1 && result.Failed? ==> calls == opts.maxAttempts
  {
    var maxAttempts := if opts.maxAttempts < 1 then 1 else opts.maxAttempts;
    var delay := opts.baseDelay;
    waits, calls := [], 0;
    var attempt := 1;
    while attempt <= maxAttempts
      invariant 1 <= attempt <= maxAttempts
      invariant calls == attempt - 1 == |waits|
      invariant delay == WaitOf(opts, |waits|)
      invariant forall k :: 0 <= k < |waits| ==> waits[k] == WaitOf(opts, k)
      invariant forall k: nat :: k < calls ==> fn(k).None? && !cancelled(k)
    {
      var r := fn(calls);
      calls := calls + 1;
      if r.Some? {
        return Ok(r.value), calls, waits;
      }
      if attempt == maxAttempts {
        break;
      }
      waits := waits + [delay];
      if cancelled(calls - 1) {
        return Cancelled, calls, waits;
      }
      DoubleCapped(opts.baseDelay, calls - 1, opts.maxDelay);
      assert Pow2(0) == 1 && Pow2(1) == 2;
      delay := delay * 2;
      if delay > opts.maxDelay {
        delay := opts.maxDelay;
      }
      attempt := attempt + 1;
    }
    result := Failed;
  }

  /** Without cancellation, Do returns nil exactly when one of the calls it is allowed returns
      nil, and then with the value of the first such call. */
  method DoUncancelled<T>(opts: Options, fn: nat -> Option<T>) returns (result: Outcome<T>, calls: nat, waits: seq<nat>)
    ensures 1 <= calls <= Attempts(opts) && !result.Cancelled?
    ensures result.Ok? <==> exists k: nat :: k < Attempts(opts) && fn(k).Some?
    ensures result.Ok? ==> fn(calls - 1) == Some(result.value) && forall k: nat :: k < calls - 1 ==> fn(k).None?
    ensures opts.baseDelay <= opts.maxDelay ==> SumOf(waits) <= (Attempts(opts) - 1) * opts.maxDelay
  {
    result, calls, waits := Do(opts, fn, _ => false);
    if opts.baseDelay <= opts.maxDelay {
      SumBound(waits, opts.maxDelay);
      TimesMonotone(|waits|, Attempts(opts) - 1, opts.maxDelay);
    }
    if result.Failed? {
      forall k: nat | k < Attempts(opts)
        ensures fn(k).None?
      {
        assert k == calls - 1 || k + 1 < calls;
      }
    }
  }

  lemma {:induction false} SumBound(waits: seq<nat>, cap: nat)
    requires forall k :: 0 <= k < |waits| ==> waits[k] <= cap
    ensures SumOf(waits) <= |waits| * cap
  {
    if waits != [] {
      SumBound(waits[..|waits| - 1], cap);
      assert |waits| * cap == (|waits| - 1) * cap + cap;
    }
  }

  /** With a base delay within the cap, the k-th wait is min(base * 2^k, cap). */
  lemma WaitsWithinCap(opts: Options, k: nat)
    requires opts.baseDelay <= opts.maxDelay
    ensures WaitOf(opts, k) == Min(opts.baseDelay * Pow2(k), opts.maxDelay)
  {
    assert Pow2(0) == 1;
  }
}
