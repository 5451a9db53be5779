/**
 The retry loop around tag operations, and its exponential back-off. Delays are
 whole nanoseconds; the growth factor is exact, and scaling a delay drops the
 fraction as the conversion to a duration does.
 */
module TagRetry {

  datatype RetryConfig = RetryConfig(maxAttempts: int, initialDelay: nat, maxDelay: nat, backoffFactor: real)

  /** How one attempt ended, and how isRetryableError classifies its error. */
  datatype Attempt = Ok | Retryable | NonRetryable

  datatype Verdict = Succeeded | GaveUp | Cancelled | Exhausted

  // ----- back-off -----

  function Min(a: nat, b: nat): nat {
    if a <= b then a else b
  }

  /** time.Duration(float64(delay) * factor) */
  function Scale(delay: nat, factor: real): (d: nat)
    requires factor >= 0.0
    ensures d as real <= delay as real * factor < d as real + 1.0
  {
    assert delay as real * factor >= 0.0;
    (delay as real * factor).Floor
  }

  /** The delay after the k-th failed attempt, as the loop carries it. */
  function LoopDelay(config: RetryConfig, k: nat): nat
    requires k >= 1 && config.backoffFactor >= 0.0
  {
    if k == 1 then config.initialDelay
    else Min(Scale(LoopDelay(config, k - 1), config.backoffFactor), config.maxDelay)
  }

  function Power(factor: real, n: nat): (r: real)
    requires factor >= 0.0
    ensures r >= 0.0
  {
    if n == 0 then 1.0
    else
      var rest := Power(factor, n - 1);
      assert rest * factor >= 0.0;
      rest * factor
  }

  /** The uncapped delay after the k-th attempt. */
  function Grown(config: RetryConfig, k: nat): (g: real)
    requires k >= 1 && config.backoffFactor >= 0.0
    ensures g >= 0.0
  {
    config.initialDelay as real * Power(config.backoffFactor, k - 1)
  }

  /** calculateBackoff */
  function ClosedDelay(config: RetryConfig, k: nat): (d: nat)
    requires k >= 1 && config.backoffFactor >= 0.0
  {
    if Grown(config, k) > config.maxDelay as real then config.maxDelay else Grown(config, k).Floor
  }

  lemma {:induction false} GrownFirst(config: RetryConfig)
    requires config.backoffFactor >= 0.0
    ensures Grown(config, 1) == config.initialDelay as real
  {
    assert Power(config.backoffFactor, 0) == 1.0;
  }

  lemma {:induction false} GrownNext(config: RetryConfig, k: nat)
    requires k >= 2 && config.backoffFactor >= 0.0
    ensures Grown(config, k) == Grown(config, k - 1) * config.backoffFactor
  {
    var rest := Power(config.backoffFactor, k - 2);
    Regroup(config.initialDelay as real, rest, config.backoffFactor);
  }

  lemma Regroup(a: real, b: real, c: real)
    ensures a * (b * c) == (a * b) * c
  {
  }

  lemma MonotoneTimes(a: real, b: real, factor: real)
    requires a <= b && factor >= 0.0
    ensures a * factor <= b * factor
  {
  }

  /** The loop never waits longer than the closed form: truncation only shortens delays. */
  lemma {:induction false} LoopDelayAtMostClosed(config: RetryConfig, k: nat)
    requires k >= 1 && config.backoffFactor >= 0.0 && config.initialDelay <= config.maxDelay
    ensures LoopDelay(config, k) <= ClosedDelay(config, k)
    ensures LoopDelay(config, k) as real <= Grown(config, k)
  {
    hide *;
    DelayCases(config, k);
    ClosedIs(config, k);
    if k == 1 {
      GrownFirst(config);
    } else {
      LoopDelayAtMostClosed(config, k - 1);
      GrownNext(config, k);
      ScaledAtMost(LoopDelay(config, k - 1), Grown(config, k - 1), config.backoffFactor, Grown(config, k));
    }
  }

  /** The carried delay, one step unfolded. */
  lemma {:induction false} DelayCases(config: RetryConfig, k: nat)
    requires k >= 1 && config.backoffFactor >= 0.0
    ensures k == 1 ==> LoopDelay(config, k) == config.initialDelay
    ensures k > 1 ==>
              var scaled := Scale(LoopDelay(config, k - 1), config.backoffFactor);
              LoopDelay(config, k) == if scaled <= config.maxDelay then scaled else config.maxDelay
  {
    hide Scale;
  }

  lemma ClosedIs(config: RetryConfig, k: nat)
    requires k >= 1 && config.backoffFactor >= 0.0
    ensures ClosedDelay(config, k) == if Grown(config, k) > config.maxDelay as real then config.maxDelay
            else Grown(config, k).Floor
  {
    hide Grown;
  }

  lemma ScaledAtMost(d: nat, g: real, factor: real, bound: real)
    requires factor >= 0.0 && d as real <= g && g * factor == bound
    ensures Scale(d, factor) as real <= bound && Scale(d, factor) <= bound.Floor
  {
    hide Scale;
    MonotoneTimes(d as real, g, factor);
  }

  function Whole(factor: real): nat
    requires factor >= 0.0
  {
    factor.Floor
  }

  predicate IsWhole(x: real) {
    x == x.Floor as real
  }

  lemma WholeTimesWhole(d: nat, n: nat)
    ensures d as real * n as real == (d * n) as real
  {
  }

  lemma ScaleWhole(d: nat, n: nat)
    ensures Scale(d, n as real) == d * n
  {
    WholeTimesWhole(d, n);
  }

  /** With an integral factor the uncapped delay is a whole number. */
  lemma {:induction false} WholeGrown(config: RetryConfig, k: nat) returns (whole: nat, before: nat)
    requires k >= 1 && config.backoffFactor >= 0.0 && IsWhole(config.backoffFactor)
    ensures Grown(config, k) == whole as real
    ensures k >= 2 ==> Grown(config, k - 1) == before as real && whole == before * Whole(config.backoffFactor)
  {
    hide Power, Grown;
    if k == 1 {
      GrownFirst(config);
      whole, before := config.initialDelay, 0;
    } else {
      var earlier;
      before, earlier := WholeGrown(config, k - 1);
      var n := Whole(config.backoffFactor);
      GrownNext(config, k);
      WholeTimesWhole(before, n);
      whole := before * n;
    }
  }

  lemma CapThenScale(before: nat, max: nat, n: nat)
    ensures Min(Min(before, max) * n, max) == Min(before * n, max)
  {
    if before > max && n >= 1 {
      TimesAtLeast(before, n);
      TimesAtLeast(max, n);
    }
  }

  lemma TimesAtLeast(d: nat, n: nat)
    requires n >= 1
    ensures d * n >= d
  {
  }

  /** With an integral factor nothing is truncated: the k-th delay is the capped power. */
  lemma {:induction false} LoopDelayIsClosed(config: RetryConfig, k: nat)
    requires k >= 1 && config.backoffFactor >= 0.0 && IsWhole(config.backoffFactor)
    requires config.initialDelay <= config.maxDelay
    ensures LoopDelay(config, k) == ClosedDelay(config, k)
  {
    hide Power, Grown, Scale;
    var whole, before := WholeGrown(config, k);
    if k == 1 {
      GrownFirst(config);
    } else {
      LoopDelayIsClosed(config, k - 1);
      var n := Whole(config.backoffFactor);
      ScaleWhole(LoopDelay(config, k - 1), n);
      CapThenScale(before, config.maxDelay, n);
    }
  }

  /**
   For an integral factor the delays the loop carries are the closed form at every
   attempt exactly when the initial delay respects the cap: the loop caps only
   what it has scaled, the closed form caps the first delay too.
   */
  lemma {:induction false} BackoffAgreesIff(config: RetryConfig)
    requires config.backoffFactor >= 0.0 && IsWhole(config.backoffFactor)
    ensures (forall k: nat | k >= 1 :: LoopDelay(config, k) == ClosedDelay(config, k))
            <==> config.initialDelay <= config.maxDelay
  {
    if config.initialDelay <= config.maxDelay {
      forall k: nat | k >= 1
        ensures LoopDelay(config, k) == ClosedDelay(config, k)
      {
        LoopDelayIsClosed(config, k);
      }
    } else {
      GrownFirst(config);
      assert LoopDelay(config, 1) != ClosedDelay(config, 1);
    }
  }

  /**
   For any factor, fractional ones too, the k-th delay is the capped power as long as
   every earlier uncapped delay is a whole number or beyond the cap.
   */
  lemma {:induction false} WholeDelaysAgree(config: RetryConfig, k: nat)
    requires k >= 1 && config.backoffFactor >= 0.0 && config.initialDelay <= config.maxDelay
    requires forall j :: 1 <= j < k ==> IsWhole(Grown(config, j)) || Grown(config, j) > config.maxDelay as real
    ensures LoopDelay(config, k) == ClosedDelay(config, k)
  {
    hide *;
    DelayCases(config, k);
    ClosedIs(config, k);
    if k == 1 {
      GrownFirst(config);
    } else {
      WholeDelaysAgree(config, k - 1);
      NextAgrees(config, k);
    }
  }

  lemma {:induction false} NextAgrees(config: RetryConfig, k: nat)
    requires k >= 2 && config.backoffFactor >= 0.0 && config.initialDelay <= config.maxDelay
    requires IsWhole(Grown(config, k - 1)) || Grown(config, k - 1) > config.maxDelay as real
    requires LoopDelay(config, k - 1) == ClosedDelay(config, k - 1)
    ensures LoopDelay(config, k) == ClosedDelay(config, k)
  {
    hide *;
    var d, g, next := LoopDelay(config, k - 1), Grown(config, k - 1), Grown(config, k);
    assert d == if g > config.maxDelay as real then config.maxDelay else g.Floor by {
      ClosedIs(config, k - 1);
    }
    assert g > config.maxDelay as real ==> config.backoffFactor >= 1.0 by {
      if g > config.maxDelay as real {
        GrownBeyond(config, k - 1);
      }
    }
    assert next == g * config.backoffFactor by {
      GrownNext(config, k);
    }
    StepAgrees(d, g, next, config.backoffFactor, config.maxDelay);
    DelayCases(config, k);
    ClosedIs(config, k);
  }

  /** One step of the loop on a capped delay is one capped step of the uncapped delay. */
  lemma StepAgrees(d: nat, g: real, next: real, factor: real, max: nat)
    requires g >= 0.0 && factor >= 0.0 && next == g * factor && d == if g > max as real then max else g.Floor
    requires IsWhole(g) || g > max as real
    requires g > max as real ==> factor >= 1.0
    ensures (if Scale(d, factor) <= max then Scale(d, factor) else max) == if next > max as real then max
            else next.Floor
  {
    if g > max as real {
      CapStays(max, g, factor);
    } else {
      assert d as real == g;
    }
  }

  /** Beyond the cap only a factor of one or more can lead, from an initial delay within it. */
  lemma {:induction false} GrownBeyond(config: RetryConfig, k: nat)
    requires k >= 1 && config.backoffFactor >= 0.0 && Grown(config, k) > config.initialDelay as real
    ensures config.backoffFactor >= 1.0
  {
    if config.backoffFactor < 1.0 {
      GrownShrinks(config, k);
      assert false;
    }
  }

  lemma {:induction false} GrownShrinks(config: RetryConfig, k: nat)
    requires k >= 1 && 0.0 <= config.backoffFactor < 1.0
    ensures 0.0 <= Grown(config, k) <= config.initialDelay as real
  {
    hide *;
    if k == 1 {
      GrownFirst(config);
    } else {
      GrownShrinks(config, k - 1);
      GrownNext(config, k);
      Shrinks(Grown(config, k - 1), config.backoffFactor, Grown(config, k));
    }
  }

  lemma Shrinks(x: real, factor: real, next: real)
    requires x >= 0.0 && 0.0 <= factor < 1.0 && next == x * factor
    ensures 0.0 <= next <= x
  {
    NonNegative(x, factor);
    NonNegative(x, 1.0 - factor);
    assert x * (1.0 - factor) == x - x * factor;
  }

  lemma NonNegative(a: real, b: real)
    requires a >= 0.0 && b >= 0.0
    ensures a * b >= 0.0
  {
  }

  lemma CapStays(max: nat, g: real, factor: real)
    requires factor >= 1.0 && g > max as real
    ensures Scale(max, factor) >= max && g * factor > max as real
  {
    AtLeastItself(max as real, factor);
    AtLeastItself(g, factor);
  }

  lemma AtLeastItself(x: real, factor: real)
    requires x >= 0.0 && factor >= 1.0
    ensures x * factor >= x
  {
  }

  /** With a fractional factor they can differ: a 1ns delay never grows by half. */
  lemma {:induction false} FractionIsLost(config: RetryConfig)
    requires config == RetryConfig(4, 1, 10, 1.5)
    ensures LoopDelay(config, 3) == 1 && ClosedDelay(config, 3) == 2
  {
    GrownFirst(config);
    GrownNext(config, 2);
    GrownNext(config, 3);
    hide Power, Grown;
    assert Scale(1, 1.5) == 1;
    assert LoopDelay(config, 1) == LoopDelay(config, 2) == 1;
  }

  // ----- the loop -----

  function Sum(delays: seq<nat>): nat {
    if delays == [] then 0 else Sum(delays[..|delays| - 1]) + delays[|delays| - 1]
  }

  /**
   withRetry. `attempts(k)` is how the k-th call ends, `cancelled(k)` whether the
   wait after it is interrupted. The operation runs up to the first attempt that
   stops the loop, with one completed wait between consecutive calls.
   */
  method WithRetry(config: RetryConfig, attempts: nat -> Attempt, cancelled: nat -> bool)
    returns (verdict: Verdict, calls: nat, sleeps: seq<nat>)
    requires config.backoffFactor >= 0.0
    ensures config.maxAttempts < 1 ==> verdict == Exhausted && calls == 0 && sleeps == []
    ensures config.maxAttempts >= 1 ==>
              && 1 <= calls <= config.maxAttempts
              && (forall k :: 1 <= k < calls ==> attempts(k) == Retryable && !cancelled(k))
              && (verdict == Succeeded <==> attempts(calls) == Ok)
              && (verdict == GaveUp <==> attempts(calls) == NonRetryable)
              && (verdict == Exhausted <==> attempts(calls) == Retryable && calls == config.maxAttempts)
              && (verdict == Cancelled ==> cancelled(calls))
              && |sleeps| == calls - 1
              && forall k :: 1 <= k < calls ==> sleeps[k - 1] == LoopDelay(config, k)
  {
    hide Scale, Power;
    calls, sleeps := 0, [];
    var delay := config.initialDelay;
    var attempt: nat := 1;
    while attempt <= config.maxAttempts
      invariant attempt >= 1 && calls == attempt - 1 == |sleeps|
      invariant attempt == 1 || attempt <= config.maxAttempts
      invariant forall k :: 1 <= k < attempt ==> attempts(k) == Retryable && !cancelled(k)
      invariant forall k :: 1 <= k < attempt ==> sleeps[k - 1] == LoopDelay(config, k)
      invariant delay == LoopDelay(config, attempt)
      decreases config.maxAttempts - attempt
    {
      calls := calls + 1;
      match attempts(attempt) {
        case Ok => return Succeeded, calls, sleeps;
        case NonRetryable => return GaveUp, calls, sleeps;
        case Retryable =>
      }
      if attempt >= config.maxAttempts {
        return Exhausted, calls, sleeps;
      }
      if cancelled(attempt) {
        return Cancelled, calls, sleeps;
      }
      sleeps := sleeps + [delay];
      delay := Min(Scale(delay, config.backoffFactor), config.maxDelay);
      attempt := attempt + 1;
    }
    return Exhausted, calls, sleeps;
  }

  lemma LoopDelayUnfolds(config: RetryConfig, k: nat)
    requires k >= 1 && config.backoffFactor >= 0.0
    ensures LoopDelay(config, 1) == config.initialDelay
    ensures LoopDelay(config, k + 1) == Min(Scale(LoopDelay(config, k), config.backoffFactor), config.maxDelay)
  {
    hide Scale, Min;
  }

  /**
   The carried delay: the configured one first, then each time the whole part of
   the previous one times the factor, cut at the cap.
   */
  lemma NextDelay(config: RetryConfig, k: nat)
    requires k >= 1 && config.backoffFactor >= 0.0
    ensures LoopDelay(config, 1) == config.initialDelay
    ensures var product, next := LoopDelay(config, k) as real * config.backoffFactor, LoopDelay(config, k + 1);
            && next <= config.maxDelay && next as real <= product
            && (next == config.maxDelay || product < next as real + 1.0)
  {
    hide *;
    LoopDelayUnfolds(config, k);
    CutProduct(Scale(LoopDelay(config, k), config.backoffFactor),
               LoopDelay(config, k) as real * config.backoffFactor, config.maxDelay);
  }

  lemma CutProduct(d: nat, product: real, cap: nat)
    requires d as real <= product < d as real + 1.0
    ensures Min(d, cap) <= cap && Min(d, cap) as real <= product
    ensures Min(d, cap) == cap || product < Min(d, cap) as real + 1.0
  {
  }

  lemma {:induction false} LoopDelayCapped(config: RetryConfig, k: nat)
    requires k >= 1 && config.backoffFactor >= 0.0 && config.initialDelay <= config.maxDelay
    ensures LoopDelay(config, k) <= config.maxDelay
  {
  }

  /** Total waiting is at most one maximal delay per retry. */
  lemma {:induction false} TotalSleepBounded(config: RetryConfig, sleeps: seq<nat>)
    requires config.backoffFactor >= 0.0 && config.initialDelay <= config.maxDelay
    requires forall k :: 1 <= k <= |sleeps| ==> sleeps[k - 1] == LoopDelay(config, k)
    ensures Sum(sleeps) <= |sleeps| * config.maxDelay
  {
    if sleeps != [] {
      var front := sleeps[..|sleeps| - 1];
      TotalSleepBounded(config, front);
      LoopDelayCapped(config, |sleeps|);
      hide LoopDelay;
      OneMore(|front|, config.maxDelay);
    }
  }

  lemma OneMore(n: nat, d: nat)
    ensures (n + 1) * d == n * d + d
  {
  }
}
