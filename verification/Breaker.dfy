/** The circuit breaker and the retry loop in front of an AI provider.

    Times are integers; None stands for Go's zero time. The breaker is specified by the history of its
    calls: when it refuses is said in terms of the failures since the last success. */
module Breaker {
  import opened Wrappers

  datatype Call = Allowed(at: int) | Refused(at: int) | Success | Failure(at: int)

  /** The failures after the last success, oldest first. */
  function Failures(calls: seq<Call>): seq<int> {
    if calls == [] then []
    else
      var c, before := calls[|calls| - 1], Failures(calls[..|calls| - 1]);
      if c.Success? then [] else if c.Failure? then before + [c.at] else before
  }

  lemma FailuresSnoc(calls: seq<Call>, c: Call)
    ensures Failures(calls + [c]) ==
            if c.Success? then [] else if c.Failure? then Failures(calls) + [c.at] else Failures(calls)
  {
  }

  /** When a call at time now is refused: the threshold has been reached since the last success, and the
      cooldown after the last failure is not over. */
  predicate Refuses(threshold: nat, cooldown: int, zero: int, calls: seq<Call>, now: int) {
    var fs := Failures(calls);
    |fs| >= threshold && fs != [] && fs[|fs| - 1] + cooldown != zero && now <= fs[|fs| - 1] + cooldown
  }

  class CircuitBreaker {
    const threshold: int
    const cooldown: int
    const zero: int  // Go's zero time
    var failures: int
    var openedUntil: int
    var halfOpen: bool
    ghost var calls: seq<Call>

    ghost predicate Valid()
      reads this
    {
      var fs := Failures(calls);
      && threshold > 0
      && (|fs| < threshold ==> failures == |fs| && openedUntil == zero && !halfOpen)
      && (|fs| >= threshold ==> openedUntil == fs[|fs| - 1] + cooldown && (failures >= threshold || halfOpen))
    }

    constructor (threshold: int, cooldown: int, zero: int)
      ensures Valid() && calls == [] && this.cooldown == cooldown && this.zero == zero
      ensures this.threshold == if threshold <= 0 then 5 else threshold
    {
      this.threshold := if threshold <= 0 then 5 else threshold;
      this.cooldown, this.zero := cooldown, zero;
      failures, openedUntil, halfOpen := 0, zero, false;
      calls := [];
    }

    /** Refuses exactly when the history says so. */
    method Allow(now: int) returns (ok: bool)
      requires Valid()
      modifies this
      ensures Valid()
      ensures ok <==> !Refuses(threshold, cooldown, zero, old(calls), now)
      ensures calls == old(calls) + [if ok then Allowed(now) else Refused(now)]
    {
      FailuresSnoc(calls, Allowed(now));
      FailuresSnoc(calls, Refused(now));
      ok := openedUntil == zero || now > openedUntil;
      if ok && openedUntil != zero {
        halfOpen := true;
      }
      calls := calls + [if ok then Allowed(now) else Refused(now)];
    }

    method RecordSuccess()
      requires Valid()
      modifies this
      ensures Valid() && calls == old(calls) + [Success]
    {
      FailuresSnoc(calls, Success);
      failures, openedUntil, halfOpen := 0, zero, false;
      calls := calls + [Success];
    }

    method RecordFailure(now: int)
      requires Valid()
      modifies this
      ensures Valid() && calls == old(calls) + [Failure(now)]
    {
      FailuresSnoc(calls, Failure(now));
      if halfOpen {
        failures := threshold;
      } else {
        failures := failures + 1;
      }
      if failures >= threshold {
        openedUntil := now + cooldown;
        halfOpen := false;
      }
      calls := calls + [Failure(now)];
    }
  }

  /** One success closes the breaker, whatever came before. */
  lemma SuccessCloses(threshold: nat, cooldown: int, zero: int, calls: seq<Call>, now: int)
    requires threshold > 0
    ensures !Refuses(threshold, cooldown, zero, calls + [Success], now)
  {
  }

  /** After the cooldown, one failed trial opens it again, for one more cooldown from that failure. */
  lemma TrialReopens(threshold: nat, cooldown: int, zero: int, calls: seq<Call>, trial: int, now: int)
    requires |Failures(calls)| >= threshold > 0 && trial + cooldown != zero
    ensures Refuses(threshold, cooldown, zero, calls + [Allowed(trial), Failure(trial)], now) <==> now <= trial + cooldown
  {
    assert calls + [Allowed(trial), Failure(trial)] == (calls + [Allowed(trial)]) + [Failure(trial)];
    FailuresSnoc(calls, Allowed(trial));
    FailuresSnoc(calls + [Allowed(trial)], Failure(trial));
  }

  // ---------- Retrying ----------

  datatype Attempt<T> = Ok(value: T) | Transient(error: string) | Permanent(error: string)

  function Power2(n: nat): nat {
    if n == 0 then 1 else 2 * Power2(n - 1)
  }

  /** The waits before attempts 1 to n. */
  function Waits(backoff: nat, n: nat): nat {
    if n == 0 then 0 else Waits(backoff, n - 1) + backoff * Power2(n - 1)
  }

  /** Each wait is twice the one before, so n of them add up to 2^n - 1 times the first. */
  lemma {:induction false} WaitsClosedForm(backoff: nat, n: nat)
    ensures Waits(backoff, n) == backoff * (Power2(n) - 1)
  {
    if n > 0 {
      WaitsClosedForm(backoff, n - 1);
      assert Power2(n) == 2 * Power2(n - 1);
      assert backoff * (Power2(n) - 1) == backoff * (Power2(n - 1) - 1) + backoff * Power2(n - 1);
    }
  }

  function Attempts(maxRetries: int): nat {
    if maxRetries + 1 < 1 then 1 else maxRetries + 1
  }

  /** callWithRetry: the provider's answers, and the sleeps that are cancelled, are given in advance.
      The first answer that is not a transient error is returned; transient errors are retried up to the
      limit, with doubling waits, and a cancelled sleep ends it. */
  method CallWithRetry<T>(maxRetries: int, backoff: nat, provider: nat -> Attempt<T>, cancelled: nat -> bool)
    returns (r: Option<Attempt<T>>, calls: nat, slept: nat)
    ensures 1 <= calls <= Attempts(maxRetries)
    ensures forall i :: 0 <= i < calls - 1 ==> provider(i).Transient? && !cancelled(i)
    ensures r.Some? ==> r.value == provider(calls - 1) && (provider(calls - 1).Transient? ==> calls == Attempts(maxRetries))
    ensures r.Some? ==> slept == Waits(backoff, calls - 1)
    ensures r == None ==> provider(calls - 1).Transient? && calls < Attempts(maxRetries) && cancelled(calls - 1)
  {
    var attempts := maxRetries + 1;
    if attempts < 1 {
      attempts := 1;
    }
    var wait := backoff;
    calls, slept := 0, 0;
    var i := 0;
    while i < attempts
      invariant 0 <= i <= attempts && calls == i && (i > 0 ==> i < attempts)
      invariant forall k :: 0 <= k < i ==> provider(k).Transient? && !cancelled(k)
      invariant slept == Waits(backoff, i) && wait == backoff * Power2(i)
    {
      var a := provider(i);
      calls := calls + 1;
      if a.Ok? || i == attempts - 1 || a.Permanent? {
        return Some(a), calls, slept;
      }
      if cancelled(i) {
        return None, calls, slept;
      }
      slept := slept + wait;
      wait := wait * 2;
      i := i + 1;
    }
    assert false;
  }
}
