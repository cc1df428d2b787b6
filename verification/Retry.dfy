/**
 The timed retry loops: `SyncClient::send` (pause of one second) and `BaseClient::CheckConnStatus` (pause of the
 configured ping time). The clock, the calls and the length of a sleep are the environment's.
 */
module Retry {

  /** One attempt: how long the call took, whether it succeeded, and by how much the following pause overslept (µs). */
  datatype Attempt = Attempt(took: nat, ok: bool, overslept: nat)

  datatype Outcome = Succeeded | GaveUp

  /** The time, in microseconds since the timer was started, at which the outcome of attempt `k` is seen. */
  function Clock(env: nat -> Attempt, period: nat, k: nat): (t: nat)
  {
    if k == 0 then env(0).took
    else Clock(env, period, k - 1) + period + env(k - 1).overslept + env(k).took
  }

  /** The sum of the first `k` values. */
  function Total(f: nat -> nat, k: nat): (n: nat)
  {
    if k == 0 then 0 else Total(f, k - 1) + f(k - 1)
  }

  /** All the calls up to this one, and a pause and its oversleeping after each but this one. */
  lemma {:induction false} ClockIsTotal(env: nat -> Attempt, period: nat, k: nat)
    ensures Clock(env, period, k)
         == Total((i: nat) => env(i).took, k + 1) + k * period + Total((i: nat) => env(i).overslept, k)
  {
    var took, overslept := (i: nat) => env(i).took, (i: nat) => env(i).overslept;
    assert Total(took, k + 1) == Total(took, k) + env(k).took;
    if k > 0 {
      ClockIsTotal(env, period, k - 1);
      assert Total(overslept, k) == Total(overslept, k - 1) + env(k - 1).overslept;
      assert k * period == (k - 1) * period + period;
    }
  }

  lemma ClockStep(env: nat -> Attempt, period: nat, k: nat)
    requires k > 0
    ensures Clock(env, period, k) == Clock(env, period, k - 1) + period + env(k - 1).overslept + env(k).took
  {
  }

  lemma {:induction false} ClockGrows(env: nat -> Attempt, period: nat, k: nat)
    ensures Clock(env, period, k) >= k * period
  {
    if k > 0 {
      ClockGrows(env, period, k - 1);
    }
  }

  /** Attempt `k` failed, and its failure was seen before the timeout. */
  predicate FailedEarly(env: nat -> Attempt, timeout: nat, period: nat, k: nat) {
    !env(k).ok && Clock(env, period, k) < 1000 * timeout
  }

  /** ceil(timeout / period) + 1, with the timeout in milliseconds and the period in microseconds. */
  function MaxAttempts(timeout: nat, period: nat): (n: nat)
    requires period > 0
    ensures n >= 1
  {
    (1000 * timeout + period - 1) / period + 1
  }

  lemma DivMod(a: int, b: int)
    requires b > 0
    ensures a / b * b <= a < a / b * b + b
  {
  }

  lemma MulMono(a: int, b: int, c: nat)
    requires a <= b
    ensures a * c <= b * c
  {
  }

  /** Pauses alone push the last attempt past the timeout, and no earlier one. */
  lemma LastAttemptIsLate(timeout: nat, period: nat)
    requires period > 0
    ensures (MaxAttempts(timeout, period) - 1) * period >= 1000 * timeout
  {
  }

  lemma EarlierAttemptsAreNot(timeout: nat, period: nat, k: nat)
    requires period > 0 && k < MaxAttempts(timeout, period) - 1
    ensures k * period < 1000 * timeout
  {
    var q := MaxAttempts(timeout, period) - 1;
    DivMod(1000 * timeout + period - 1, period);
    MulMono(k, q - 1, period);
    assert (q - 1) * period == q * period - period;
  }

  /** What the loop promises of its result: it stops on the first success, or on the first failure past the timeout. */
  ghost predicate Looped(env: nat -> Attempt, timeout: nat, period: nat, outcome: Outcome, attempts: nat) {
    && attempts >= 1
    && (outcome == Succeeded <==> env(attempts - 1).ok)
    && (outcome == GaveUp ==> Clock(env, period, attempts - 1) >= 1000 * timeout)
    && (forall k :: 0 <= k < attempts - 1 ==> FailedEarly(env, timeout, period, k))
  }

  /** An attempt that failed before the timeout is not the last one allowed. */
  lemma AnotherAttemptAllowed(env: nat -> Attempt, timeout: nat, period: nat, attempts: nat)
    requires period > 0 && 1 <= attempts
    requires Clock(env, period, attempts - 1) < 1000 * timeout
    ensures attempts < MaxAttempts(timeout, period)
  {
    ClockGrows(env, period, attempts - 1);
    LastAttemptIsLate(timeout, period);
    var n := MaxAttempts(timeout, period);
    if attempts >= n {
      MulMono(n - 1, attempts - 1, period);
    }
  }

  lemma LoopIsBounded(env: nat -> Attempt, timeout: nat, period: nat, outcome: Outcome, attempts: nat)
    requires period > 0 && Looped(env, timeout, period, outcome, attempts)
    ensures attempts <= MaxAttempts(timeout, period)
  {
    if attempts > 1 {
      assert FailedEarly(env, timeout, period, attempts - 2);
      AnotherAttemptAllowed(env, timeout, period, attempts - 1);
    }
  }

  /** The promise leaves the loop no choice. */
  lemma LoopIsDetermined(env: nat -> Attempt, timeout: nat, period: nat, o: Outcome, n: nat, o': Outcome, n': nat)
    requires Looped(env, timeout, period, o, n) && Looped(env, timeout, period, o', n')
    ensures o == o' && n == n'
  {
    assert !FailedEarly(env, timeout, period, n - 1) && !FailedEarly(env, timeout, period, n' - 1);
  }

  /**
   The loop: try, stop on success, give up once the truncated elapsed milliseconds have reached the timeout,
   otherwise pause and try again. It makes at most ceil(timeout / period) + 1 attempts, and gives up only on an
   attempt that failed at or after the timeout.
   */
  method RetryLoop(env: nat -> Attempt, timeout: nat, period: nat) returns (outcome: Outcome, attempts: nat)
    requires period > 0
    ensures Looped(env, timeout, period, outcome, attempts)
    ensures attempts <= MaxAttempts(timeout, period)
  {
    attempts := 0;
    var now := 0;
    ghost var limit := MaxAttempts(timeout, period);
    assert env(0).took == Clock(env, period, 0);
    hide MaxAttempts, Clock;
    while true
      invariant attempts < limit
      invariant now + env(attempts).took == Clock(env, period, attempts)
      invariant forall k :: 0 <= k < attempts ==> FailedEarly(env, timeout, period, k)
      decreases limit - attempts
    {
      var a := env(attempts);
      now := now + a.took;
      attempts := attempts + 1;
      if a.ok {
        return Succeeded, attempts;
      }
      var elapsed := now / 1000;
      DivMod(now, 1000);
      if elapsed >= timeout {
        return GaveUp, attempts;
      }
      assert FailedEarly(env, timeout, period, attempts - 1);
      AnotherAttemptAllowed(env, timeout, period, attempts);
      ClockStep(env, period, attempts);
      now := now + period + a.overslept;
    }
  }

  lemma {:induction false} IdleClock(env: nat -> Attempt, period: nat, k: nat)
    requires forall i :: env(i) == Attempt(0, false, 0)
    ensures Clock(env, period, k) == k * period
  {
    if k > 0 {
      IdleClock(env, period, k - 1);
    }
  }

  /** The bound is reached when every call fails at once and no sleep is late. */
  lemma BoundIsReached(timeout: nat, period: nat)
    requires period > 0
    ensures Looped((k: nat) => Attempt(0, false, 0), timeout, period, GaveUp, MaxAttempts(timeout, period))
  {
    var env := (k: nat) => Attempt(0, false, 0);
    LastAttemptIsLate(timeout, period);
    IdleClock(env, period, MaxAttempts(timeout, period) - 1);
    forall k: nat | k < MaxAttempts(timeout, period) - 1
      ensures FailedEarly(env, timeout, period, k)
    {
      IdleClock(env, period, k);
      EarlierAttemptsAreNot(timeout, period, k);
    }
  }

  /** Without a pause there is no bound: on a clock that does not move, no number of failed attempts is enough. */
  lemma NoPauseNoBound(timeout: nat, k: nat)
    requires timeout > 0
    ensures var env := (i: nat) => Attempt(0, false, 0); Clock(env, 0, k) < 1000 * timeout
  {
    IdleClock((i: nat) => Attempt(0, false, 0), 0, k);
  }
}
