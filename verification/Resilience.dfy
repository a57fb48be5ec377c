/**
  Retry with exponential backoff, alone and behind a circuit breaker.  The n-th call of the operation has the outcome
  `outcomes(n)`, and `Open` is the breaker's fail-fast error.
*/
module Resilience {
  import opened Wrappers

  datatype Outcome = Success(value: int) | Failure(error: int) | Open

  /** `random(n)` is the random number drawn for the n-th delay when jitter is on. */
  datatype Options = Options(
    attempts: int, baseDelay: int, maxDelay: Option<int>, random: Option<nat -> real>, retryIf: (Outcome, nat) -> bool)

  /** What the caller gets; `Throws(None)` is the throw of an unset error. */
  datatype Ending = Returns(value: int) | Throws(error: Option<Outcome>)

  type Outcomes = nat -> Outcome

  function Pow2(n: nat): nat {
    if n == 0 then 1 else 2 * Pow2(n - 1)
  }

  function Round(x: real): int {
    (x + 0.5).Floor
  }

  function Capped(attempt: nat, options: Options): int {
    var exponential := options.baseDelay * Pow2(if attempt <= 1 then 0 else attempt - 1);
    match options.maxDelay
    case None => exponential
    case Some(m) => if m < exponential then m else exponential
  }

  /** Between half of the delay and all of it, by a random number in [0, 1). */
  function Jittered(delay: int, r: real): int {
    Round(Shortened(delay as real, r))
  }

  function Shortened(delay: real, r: real): real {
    delay * (0.5 + r * 0.5)
  }

  function ComputeBackoffDelay(attempt: nat, options: Options): int {
    match options.random
    case None => Capped(attempt, options)
    case Some(random) => Jittered(Capped(attempt, options), random(attempt))
  }

  /* ---- what one execution is ---- */

  /** How often the operation was called, how it ended, and the sleeps in between. */
  datatype Execution = Execution(calls: nat, ending: Ending, sleeps: seq<int>)

  predicate SleptBetween(x: Execution, options: Options) {
    |x.sleeps| == (if x.calls == 0 then 0 else x.calls - 1) && forall k | 0 <= k < |x.sleeps| :: x.sleeps[k] == ComputeBackoffDelay(k + 1, options)
  }

  /** Every call before the last failed in a way that may be retried. */
  predicate FailedBefore(outcomes: Outcomes, options: Options, last: nat) {
    forall k | 1 <= k < last :: !outcomes(k).Success? && options.retryIf(outcomes(k), k)
  }

  /** `withRetry`: every error is alike, an open circuit included. */
  predicate Retried(outcomes: Outcomes, options: Options, x: Execution) {
    && SleptBetween(x, options)
    && if options.attempts < 1 then x.calls == 0 && x.ending == Throws(None)
       else
        && 1 <= x.calls <= options.attempts
        && FailedBefore(outcomes, options, x.calls)
        && (match outcomes(x.calls)
          case Success(value) => x.ending == Returns(value)
          case error => x.ending == Throws(Some(error)) && (x.calls == options.attempts || !options.retryIf(error, x.calls)))
  }

  function Attempts(retry: Option<Options>): int {
    if retry.Some? && retry.value.attempts > 1 then retry.value.attempts else 1
  }

  /** `withResilience`: an open circuit ends the loop, and the fallback answers for it. */
  predicate Resilient(outcomes: Outcomes, retry: Option<Options>, fallback: Option<int>, x: Execution) {
    && 1 <= x.calls <= Attempts(retry)
    && (x.calls > 1 ==> FailedBefore(outcomes, retry.value, x.calls))
    && (forall k | 1 <= k < x.calls :: !outcomes(k).Open?)
    && (match outcomes(x.calls)
      case Success(value) => x.ending == Returns(value)
      case Open => x.ending == if fallback.Some? then Returns(fallback.value) else Throws(Some(Open))
      case error => x.ending == Throws(Some(error)) && (x.calls == Attempts(retry) || !retry.value.retryIf(error, x.calls)))
    && (if retry.Some? then SleptBetween(x, retry.value) else x.sleeps == [])
  }

  /* ---- the loops ---- */

  method WithRetry(outcomes: Outcomes, options: Options) returns (x: Execution)
    ensures Retried(outcomes, options, x)
  {
    var sleeps: seq<int> := [];
    var attempt := 1;
    while attempt <= options.attempts
      invariant 1 <= attempt
      invariant FailedBefore(outcomes, options, attempt)
      invariant attempt == 1 || attempt <= options.attempts
      invariant |sleeps| == attempt - 1 && forall k | 0 <= k < |sleeps| :: sleeps[k] == ComputeBackoffDelay(k + 1, options)
    {
      var outcome := outcomes(attempt);
      if outcome.Success? {
        return Execution(attempt, Returns(outcome.value), sleeps);
      }
      var retryable := options.retryIf(outcome, attempt);
      if attempt >= options.attempts || !retryable {
        return Execution(attempt, Throws(Some(outcome)), sleeps);
      }
      sleeps := sleeps + [ComputeBackoffDelay(attempt, options)];
      attempt := attempt + 1;
    }
    x := Execution(0, Throws(None), []);
  }

  method WithResilience(outcomes: Outcomes, retry: Option<Options>, fallback: Option<int>) returns (x: Execution)
    ensures Resilient(outcomes, retry, fallback, x)
  {
    var attempts := if retry.Some? && retry.value.attempts > 1 then retry.value.attempts else 1;
    var sleeps: seq<int> := [];
    var attempt: nat := 1;
    var lastError := outcomes(1);
    while true
      invariant 1 <= attempt <= attempts
      invariant attempt > 1 ==> retry.Some? && FailedBefore(outcomes, retry.value, attempt)
      invariant forall k | 1 <= k < attempt :: !outcomes(k).Open?
      invariant |sleeps| == attempt - 1
      invariant retry.Some? ==> forall k | 0 <= k < |sleeps| :: sleeps[k] == ComputeBackoffDelay(k + 1, retry.value)
      decreases attempts - attempt
    {
      var outcome := outcomes(attempt);
      if outcome.Success? {
        return Execution(attempt, Returns(outcome.value), sleeps);
      }
      lastError := outcome;
      if outcome.Open? {
        break;
      }
      var shouldRetry := retry.Some? && attempt < attempts && retry.value.retryIf(outcome, attempt);
      if !shouldRetry {
        break;
      }
      sleeps := sleeps + [ComputeBackoffDelay(attempt, retry.value)];
      attempt := attempt + 1;
    }
    if lastError.Open? && fallback.Some? {
      return Execution(attempt, Returns(fallback.value), sleeps);
    }
    x := Execution(attempt, Throws(Some(lastError)), sleeps);
  }

  /* ---- properties ---- */

  /** With at least one attempt and a breaker that never reports open, both loops call, sleep and end alike. */
  lemma ResilienceIsRetry(outcomes: Outcomes, options: Options, fallback: Option<int>, x: Execution, y: Execution)
    requires options.attempts >= 1 && forall k: nat :: !outcomes(k).Open?
    requires Retried(outcomes, options, x) && Resilient(outcomes, Some(options), fallback, y)
    ensures x == y
  {
    assert x.calls == y.calls;
    assert |x.sleeps| == |y.sleeps|;
  }

  /**
    In general they agree exactly up to the first open error: the breaker's loop calls the operation no more often, and if
    it calls it less often it stopped on an open error.
  */
  lemma ResilienceStopsEarlier(outcomes: Outcomes, options: Options, fallback: Option<int>, x: Execution, y: Execution)
    requires options.attempts >= 1
    requires Retried(outcomes, options, x) && Resilient(outcomes, Some(options), fallback, y)
    ensures y.calls <= x.calls && (y.calls < x.calls ==> outcomes(y.calls).Open?)
    ensures y.sleeps == x.sleeps[..y.calls - 1]
    ensures !outcomes(y.calls).Open? ==> x == y
  {
    if y.calls < x.calls {
      assert !outcomes(y.calls).Success? && options.retryIf(outcomes(y.calls), y.calls);
    }
  }

  /** Each loop has exactly one execution: calls stop at the first success, open error or failure not retried. */
  lemma ResilientIsUnique(outcomes: Outcomes, retry: Option<Options>, fallback: Option<int>, x: Execution, y: Execution)
    requires Resilient(outcomes, retry, fallback, x) && Resilient(outcomes, retry, fallback, y)
    ensures x == y
  {
    assert x.calls == y.calls;
    assert |x.sleeps| == |y.sleeps|;
  }

  /** Without cap and jitter the first delay is the base and each further one twice the one before. */
  lemma DelayDoubles(attempt: nat, options: Options)
    requires options.maxDelay.None? && options.random.None? && attempt >= 1
    ensures ComputeBackoffDelay(1, options) == options.baseDelay
    ensures ComputeBackoffDelay(attempt + 1, options) == 2 * ComputeBackoffDelay(attempt, options)
  {
    assert Pow2(0) == 1 && Pow2(attempt) == 2 * Pow2(attempt - 1);
    Twice(options.baseDelay, Pow2(attempt - 1));
  }

  lemma Twice(base: int, power: nat)
    ensures base * (2 * power) == 2 * (base * power)
  {
  }

  /** A cap takes effect exactly on the delays above it. */
  lemma CapApplies(attempt: nat, options: Options, m: int)
    requires options.random.None? && options.maxDelay == Some(m)
    ensures var uncapped := ComputeBackoffDelay(attempt, options.(maxDelay := None));
      ComputeBackoffDelay(attempt, options) == if uncapped > m then m else uncapped
  {
  }

  /** Jitter takes the delay times (1 + r) / 2, to the nearest integer. */
  lemma JitterIs(attempt: nat, options: Options)
    requires options.random.Some?
    ensures var plain := ComputeBackoffDelay(attempt, options.(random := None)) as real;
      var twice := 2.0 * ComputeBackoffDelay(attempt, options) as real;
      -1.0 <= twice - plain * (1.0 + options.random.value(attempt)) <= 1.0
  {
    hide Capped, Round, Shortened;
    var c, r := Capped(attempt, options) as real, options.random.value(attempt);
    assert Capped(attempt, options.(random := None)) == Capped(attempt, options) by { CapIgnoresJitter(attempt, options); }
    HalfOf(c, r);
    Nearest(Shortened(c, r));
  }

  lemma CapIgnoresJitter(attempt: nat, options: Options)
    ensures Capped(attempt, options.(random := None)) == Capped(attempt, options)
  {
  }

  lemma HalfOf(c: real, r: real)
    ensures 2.0 * Shortened(c, r) == c * (1.0 + r)
  {
  }

  lemma Nearest(x: real)
    ensures -0.5 <= Round(x) as real - x <= 0.5
  {
  }

  function Total(sleeps: seq<int>): int {
    if sleeps == [] then 0 else Total(sleeps[..|sleeps| - 1]) + sleeps[|sleeps| - 1]
  }

  /** Without cap and jitter, k retries sleep base * (2^k - 1) in all. */
  lemma {:induction false} UncappedTotal(sleeps: seq<int>, options: Options)
    requires options.maxDelay.None? && options.random.None?
    requires forall k | 0 <= k < |sleeps| :: sleeps[k] == ComputeBackoffDelay(k + 1, options)
    ensures Total(sleeps) == options.baseDelay * (Pow2(|sleeps|) - 1)
  {
    if sleeps != [] {
      var n := |sleeps| - 1;
      UncappedTotal(sleeps[..n], options);
      assert sleeps[n] == options.baseDelay * Pow2(n);
      Doubling(options.baseDelay, Pow2(n));
    }
  }

  lemma Doubling(base: int, power: nat)
    ensures base * (power - 1) + base * power == base * (2 * power - 1)
  {
  }

  ghost predicate RandomInRange(options: Options) {
    options.random.Some? ==> forall n: nat :: 0.0 <= options.random.value(n) < 1.0
  }

  /** Jitter leaves between half of the capped delay and all of it. */
  lemma JitterStaysBelow(attempt: nat, options: Options)
    requires RandomInRange(options) && Capped(attempt, options) >= 0
    ensures Capped(attempt, options) <= 2 * ComputeBackoffDelay(attempt, options)
    ensures ComputeBackoffDelay(attempt, options) <= Capped(attempt, options)
  {
    hide Capped, Jittered;
    if options.random.Some? {
      JitteredBounds(Capped(attempt, options), options.random.value(attempt));
    }
  }

  lemma JitteredBounds(c: int, r: real)
    requires c >= 0 && 0.0 <= r < 1.0
    ensures c <= 2 * Jittered(c, r) && Jittered(c, r) <= c
  {
    hide Round, Shortened;
    Scaled(c as real, r);
    Rounded(c, Shortened(c as real, r));
  }

  lemma Rounded(c: int, x: real)
    requires 0.5 * c as real <= x <= c as real
    ensures c <= 2 * Round(x) && Round(x) <= c
  {
  }

  lemma Scaled(c: real, r: real)
    requires c >= 0.0 && 0.0 <= r < 1.0
    ensures 0.5 * c <= Shortened(c, r) <= c
  {
    assert 0.0 <= c * r <= c;
    assert Shortened(c, r) == c * (0.5 + r * 0.5);
    assert c * (0.5 + r * 0.5) == 0.5 * c + 0.5 * (c * r);
  }

  lemma Positive(base: int, power: nat)
    requires base >= 0
    ensures base * power >= 0
  {
  }

  /** With a cap m, k retries sleep at most k * m in all, jitter or not. */
  lemma {:induction false} CappedTotal(sleeps: seq<int>, options: Options, m: int)
    requires options.maxDelay == Some(m) && m >= 0 && options.baseDelay >= 0 && RandomInRange(options)
    requires forall k | 0 <= k < |sleeps| :: sleeps[k] == ComputeBackoffDelay(k + 1, options)
    ensures Total(sleeps) <= |sleeps| * m
  {
    hide ComputeBackoffDelay;
    if sleeps != [] {
      var n := |sleeps| - 1;
      CappedTotal(sleeps[..n], options, m);
      Positive(options.baseDelay, Pow2(n));
      JitterStaysBelow(n + 1, options);
      assert Capped(n + 1, options) <= m;
    }
  }
}
