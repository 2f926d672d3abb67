/**
 The running latency average of plugins/llmrouter/claude.go, kept the same way by every provider.
 Counters are unbounded; Go's integer division agrees with `/` here because nothing is negative.
 */
module ProviderStats {

  datatype Stats = Stats(totalRequests: nat, successRequests: nat, failedRequests: nat, totalTokens: int, avgLatencyMs: nat)

  const NO_REQUESTS := Stats(0, 0, 0, 0, 0)

  /** The average over `n` requests, from that over the others, rounded down. */
  function NextAverage(avg: nat, n: nat, latency: nat): (next: nat)
    requires n > 0
    ensures 0 <= avg * (n - 1) + latency - n * next <= n - 1
  {
    ProductNonNegative(avg, n - 1);
    QuotientAndRest(avg * (n - 1) + latency, n);
    (avg * (n - 1) + latency) / n
  }

  function WithSuccess(s: Stats, tokens: int, latencyMs: nat): Stats {
    var n := s.totalRequests + 1;
    Stats(n, s.successRequests + 1, s.failedRequests, s.totalTokens + tokens, NextAverage(s.avgLatencyMs, n, latencyMs))
  }

  function WithError(s: Stats): Stats {
    s.(totalRequests := s.totalRequests + 1, failedRequests := s.failedRequests + 1)
  }

  class Provider {
    var totalRequests: nat
    var successRequests: nat
    var failedRequests: nat
    var totalTokens: int
    var avgLatencyMs: nat

    ghost function View(): Stats
      reads this
    {
      Stats(totalRequests, successRequests, failedRequests, totalTokens, avgLatencyMs)
    }

    constructor ()
      ensures View() == NO_REQUESTS
    {
      totalRequests, successRequests, failedRequests, totalTokens, avgLatencyMs := 0, 0, 0, 0, 0;
    }

    method RecordSuccess(tokens: int, latencyMs: nat)
      modifies this
      ensures View() == WithSuccess(old(View()), tokens, latencyMs)
    {
      totalRequests := totalRequests + 1;
      successRequests := successRequests + 1;
      totalTokens := totalTokens + tokens;
      if totalRequests > 0 {
        ProductNonNegative(avgLatencyMs, totalRequests - 1);
        avgLatencyMs := (avgLatencyMs * (totalRequests - 1) + latencyMs) / totalRequests;
      } else {
        // the guard always holds: the counter has just been incremented
        assert false;
      }
    }

    method RecordError()
      modifies this
      ensures View() == WithError(old(View()))
    {
      totalRequests := totalRequests + 1;
      failedRequests := failedRequests + 1;
    }
  }

  // ----- runs -----

  datatype Outcome = Succeeded(tokens: int, latencyMs: nat) | Failed

  function After(outcomes: seq<Outcome>): Stats {
    if outcomes == [] then NO_REQUESTS
    else
      var before := After(outcomes[..|outcomes| - 1]);
      match outcomes[|outcomes| - 1]
      case Succeeded(tokens, latencyMs) => WithSuccess(before, tokens, latencyMs)
      case Failed => WithError(before)
  }

  function TotalLatency(outcomes: seq<Outcome>): nat {
    if outcomes == [] then 0
    else TotalLatency(outcomes[..|outcomes| - 1]) +
         match outcomes[|outcomes| - 1] case Succeeded(_, latencyMs) => latencyMs case Failed => 0
  }

  ghost predicate FailureFree(outcomes: seq<Outcome>) {
    forall i :: 0 <= i < |outcomes| ==> outcomes[i].Succeeded?
  }

  function Successes(outcomes: seq<Outcome>): nat {
    if outcomes == [] then 0
    else Successes(outcomes[..|outcomes| - 1]) + if outcomes[|outcomes| - 1].Succeeded? then 1 else 0
  }

  function TotalTokens(outcomes: seq<Outcome>): int {
    if outcomes == [] then 0
    else TotalTokens(outcomes[..|outcomes| - 1]) +
         match outcomes[|outcomes| - 1] case Succeeded(tokens, _) => tokens case Failed => 0
  }

  /** The counters add up: every request is counted once, by its outcome, and its tokens if it succeeded. */
  lemma {:induction false} CountersAddUp(outcomes: seq<Outcome>)
    ensures var s := After(outcomes); s.totalRequests == |outcomes| == s.successRequests + s.failedRequests
    ensures After(outcomes).successRequests == Successes(outcomes) && After(outcomes).totalTokens == TotalTokens(outcomes)
    ensures FailureFree(outcomes) <==> After(outcomes).failedRequests == 0
  {
    if outcomes != [] {
      var front := outcomes[..|outcomes| - 1];
      CountersAddUp(front);
      assert FailureFree(outcomes) <==> FailureFree(front) && outcomes[|outcomes| - 1].Succeeded?;
    }
  }

  /** What rounding has lost so far grows by less than the number of requests each time. */
  lemma {:induction false} RoundingLoss(outcomes: seq<Outcome>)
    requires FailureFree(outcomes)
    ensures var n := |outcomes|;
            var loss := TotalLatency(outcomes) - n * After(outcomes).avgLatencyMs;
            0 <= 2 * loss <= n * (n - 1)
  {
    if outcomes != [] {
      var n, front := |outcomes|, outcomes[..|outcomes| - 1];
      RoundingLoss(front);
      CountersAddUp(front);
      var avg, latency := After(front).avgLatencyMs, outcomes[n - 1].latencyMs;
      LossAdds(n, TotalLatency(front), avg, latency, NextAverage(avg, n, latency));
    }
  }

  lemma LossAdds(n: int, total: int, avg: int, latency: int, next: int)
    requires 0 <= 2 * (total - (n - 1) * avg) <= (n - 1) * (n - 2)
    requires 0 <= avg * (n - 1) + latency - n * next <= n - 1
    ensures 0 <= 2 * (total + latency - n * next) <= n * (n - 1)
  {
    assert n * (n - 1) == (n - 1) * (n - 2) + 2 * (n - 1);
  }

  lemma ProductNonNegative(x: nat, y: nat)
    ensures x * y >= 0
  {
  }

  lemma QuotientAndRest(sum: nat, n: nat)
    requires n > 0
    ensures sum / n >= 0 && 0 <= sum - n * (sum / n) <= n - 1
  {
    assert sum == n * (sum / n) + sum % n;
  }

  /** Without failures the stored average never exceeds the true mean and lags it by at most (n-1)/2. */
  lemma AverageLagsMean(outcomes: seq<Outcome>)
    requires outcomes != [] && FailureFree(outcomes)
    ensures var n := |outcomes| as real;
            var mean := TotalLatency(outcomes) as real / n;
            0.0 <= mean - After(outcomes).avgLatencyMs as real <= (n - 1.0) / 2.0
  {
    RoundingLoss(outcomes);
    MeanFromLoss(TotalLatency(outcomes), After(outcomes).avgLatencyMs, |outcomes|);
  }

  lemma MeanFromLoss(total: nat, avg: nat, n: nat)
    requires n > 0
    requires 0 <= 2 * (total - n * avg) <= n * (n - 1)
    ensures 0.0 <= total as real / n as real - avg as real <= (n as real - 1.0) / 2.0
  {
    var m, a, t := n as real, avg as real, total as real;
    RealProduct(n, avg);
    RealProduct(n, n - 1);
    QuotientTimes(t, m);
    MeanBounds(t / m, a, m, t);
  }

  lemma QuotientTimes(t: real, m: real)
    requires m > 0.0
    ensures t / m * m == t
  {
  }

  lemma MeanBounds(mean: real, a: real, m: real, t: real)
    requires m > 0.0 && mean * m == t && 0.0 <= 2.0 * (t - m * a) <= m * (m - 1.0)
    ensures 0.0 <= mean - a <= (m - 1.0) / 2.0
  {
    var half := (m - 1.0) / 2.0;
    Distributes(mean, a, m);
    HalfProduct(m, half);
    CancelBounds(mean - a, half, m, t - m * a, m * (m - 1.0));
  }

  lemma HalfProduct(m: real, half: real)
    requires 2.0 * half == m - 1.0
    ensures 2.0 * (half * m) == m * (m - 1.0)
  {
  }

  lemma CancelBounds(x: real, y: real, m: real, xm: real, twice: real)
    requires m > 0.0 && x * m == xm && 2.0 * (y * m) == twice
    requires 0.0 <= 2.0 * xm <= twice
    ensures 0.0 <= x <= y
  {
    CancelReal(0.0, x, m);
    CancelReal(x, y, m);
  }

  lemma RealProduct(x: nat, y: nat)
    ensures (x * y) as real == x as real * y as real
  {
  }

  lemma Distributes(x: real, y: real, m: real)
    ensures (x - y) * m == x * m - m * y
  {
  }

  lemma CancelReal(x: real, y: real, m: real)
    requires m > 0.0 && x * m <= y * m
    ensures x <= y
  {
  }

  /** With failures as well, the average never exceeds the largest latency seen. */
  lemma {:induction false} AverageBelowLargest(outcomes: seq<Outcome>, largest: nat)
    requires forall i :: 0 <= i < |outcomes| && outcomes[i].Succeeded? ==> outcomes[i].latencyMs <= largest
    ensures After(outcomes).avgLatencyMs <= largest
  {
    if outcomes != [] {
      var n, front := |outcomes|, outcomes[..|outcomes| - 1];
      AverageBelowLargest(front, largest);
      CountersAddUp(front);
      if outcomes[n - 1].Succeeded? {
        WeightedBelow(After(front).avgLatencyMs, outcomes[n - 1].latencyMs, largest, n);
      }
    }
  }

  lemma WeightedBelow(avg: nat, latency: nat, largest: nat, n: nat)
    requires n > 0 && avg <= largest && latency <= largest
    ensures NextAverage(avg, n, latency) <= largest
  {
    ProductMonotone(n - 1, avg, largest);
    assert n * largest == (n - 1) * largest + largest;
    Cancel(n, NextAverage(avg, n, latency), largest);
  }

  lemma Cancel(n: nat, x: nat, y: nat)
    requires n > 0 && n * x <= n * y
    ensures x <= y
  {
  }

  lemma ProductMonotone(n: nat, x: nat, y: nat)
    requires x <= y
    ensures n * x <= n * y
  {
  }

  /** A failure weighs like a success at the current average: it pulls later averages towards it. */
  lemma FailureWeighsLikeAverage(s: Stats)
    ensures WithError(s).avgLatencyMs == WithSuccess(s, 0, s.avgLatencyMs).avgLatencyMs
    ensures WithError(s).totalRequests == WithSuccess(s, 0, s.avgLatencyMs).totalRequests
  {
    var n := s.totalRequests + 1;
    assert s.avgLatencyMs * (n - 1) + s.avgLatencyMs == s.avgLatencyMs * n;
    ExactQuotient(s.avgLatencyMs, n);
  }

  lemma ExactQuotient(q: nat, n: nat)
    requires n > 0
    ensures q * n / n == q
  {
    QuotientAndRest(q * n, n);
    Cancel(n, q * n / n, q);
    CancelStrict(n, q, q * n / n);
  }

  lemma CancelStrict(n: nat, x: nat, y: nat)
    requires n > 0 && n * x < n * y + n
    ensures x <= y
  {
    if x > y { ProductMonotone(n, y + 1, x); }
  }
}
