/**
 The token bucket and the rate limiter of plugins/llmrouter/gateway.go. Tokens and seconds are exact
 reals; every clock reading is an input.
 */
module RateLimit {
  import opened Wrappers

  // ----- one bucket -----

  datatype Bucket = Bucket(tokens: real, maxTokens: real, refillRate: real, lastRefill: real)

  function NewBucket(maxTokens: real, refillRate: real, now: real): Bucket {
    Bucket(maxTokens, maxTokens, refillRate, now)
  }

  /** The tokens that flow in between two clock readings. */
  function Inflow(rate: real, from: real, to: real): real {
    (to - from) * rate
  }

  function Refilled(b: Bucket, now: real): Bucket {
    var tokens := b.tokens + Inflow(b.refillRate, b.lastRefill, now);
    b.(tokens := if tokens > b.maxTokens then b.maxTokens else tokens, lastRefill := now)
  }

  predicate Grants(b: Bucket, now: real) {
    Refilled(b, now).tokens >= 1.0
  }

  function Taken(b: Bucket, now: real): Bucket {
    var full := Refilled(b, now);
    if Grants(b, now) then full.(tokens := full.tokens - 1.0) else full
  }

  class TokenBucket {
    var tokens: real
    var maxTokens: real
    var refillRate: real
    var lastRefill: real

    ghost function View(): Bucket
      reads this
    {
      Bucket(tokens, maxTokens, refillRate, lastRefill)
    }

    constructor (maxTokens: real, refillRate: real, now: real)
      ensures View() == NewBucket(maxTokens, refillRate, now)
    {
      this.tokens, this.maxTokens, this.refillRate, this.lastRefill := maxTokens, maxTokens, refillRate, now;
    }

    method Allow(now: real) returns (ok: bool)
      modifies this
      ensures ok == Grants(old(View()), now)
      ensures View() == Taken(old(View()), now)
    {
      Refill(now);
      if tokens >= 1.0 {
        tokens := tokens - 1.0;
        return true;
      }
      return false;
    }

    method Refill(now: real)
      modifies this
      ensures View() == Refilled(old(View()), now)
    {
      var elapsed := now - lastRefill;
      tokens := tokens + elapsed * refillRate;
      if tokens > maxTokens {
        tokens := maxTokens;
      }
      lastRefill := now;
    }
  }

  /** A bucket never holds more than its maximum. */
  predicate NotOverfull(b: Bucket) {
    b.tokens <= b.maxTokens && b.refillRate >= 0.0
  }

  /** `n` grants since `start` fit the budget: what was granted and what is left is at most a full bucket and the refill since. */
  predicate Budget(b: Bucket, n: nat, start: real) {
    && NotOverfull(b)
    && if b.lastRefill <= start then n == 0 || (b.lastRefill == start && n as real + b.tokens <= b.maxTokens && b.tokens >= 0.0)
       else n as real + b.tokens <= b.maxTokens + Inflow(b.refillRate, start, b.lastRefill) && (n >= 1 ==> b.tokens >= 0.0)
  }

  lemma InflowSplits(rate: real, from: real, via: real, to: real)
    ensures Inflow(rate, from, to) == Inflow(rate, from, via) + Inflow(rate, via, to)
    ensures Inflow(rate, from, from) == 0.0
  {
  }

  lemma InflowNonNegative(rate: real, from: real, to: real)
    requires rate >= 0.0 && from <= to
    ensures Inflow(rate, from, to) >= 0.0
  {
  }

  lemma TakeKeepsBudget(b: Bucket, n: nat, start: real, now: real)
    requires Budget(b, n, start)
    requires start <= now && b.lastRefill <= now
    ensures Budget(Taken(b, now), n + (if Grants(b, now) then 1 else 0), start)
    ensures Taken(b, now).lastRefill == now
  {
    InflowSplits(b.refillRate, start, b.lastRefill, now);
    InflowNonNegative(b.refillRate, b.lastRefill, now);
    InflowNonNegative(b.refillRate, start, now);
    if b.lastRefill <= start { InflowSplits(b.refillRate, b.lastRefill, start, now); }
  }

  /** No more than a full bucket and what flows in over the window. */
  ghost predicate WithinBound(n: nat, maxTokens: real, rate: real, start: real, end: real) {
    n == 0 || n as real <= maxTokens + Inflow(rate, start, end)
  }

  lemma BudgetBounds(b: Bucket, n: nat, start: real, end: real)
    requires Budget(b, n, start) && start <= end && b.lastRefill <= end
    ensures WithinBound(n, b.maxTokens, b.refillRate, start, end)
  {
    InflowSplits(b.refillRate, start, b.lastRefill, end);
    InflowNonNegative(b.refillRate, b.lastRefill, end);
    InflowNonNegative(b.refillRate, start, end);
  }

  // ----- runs of one bucket -----

  predicate Ascending(times: seq<real>) {
    forall i :: 0 < i < |times| ==> times[i - 1] <= times[i]
  }

  function After(b: Bucket, times: seq<real>, n: nat): (r: Bucket)
    requires n <= |times|
    ensures r.maxTokens == b.maxTokens && r.refillRate == b.refillRate
    ensures n > 0 ==> r.lastRefill == times[n - 1]
  {
    if n == 0 then b else Taken(After(b, times, n - 1), times[n - 1])
  }

  function Granted(b: Bucket, times: seq<real>, lo: nat, hi: nat): nat
    requires lo <= hi <= |times|
  {
    if lo == hi then 0
    else Granted(b, times, lo, hi - 1) + if Grants(After(b, times, hi - 1), times[hi - 1]) then 1 else 0
  }

  lemma {:induction false} NeverOverfull(b: Bucket, times: seq<real>, n: nat)
    requires n <= |times| && NotOverfull(b)
    ensures NotOverfull(After(b, times, n))
  {
    if n > 0 { NeverOverfull(b, times, n - 1); }
  }

  lemma {:induction false} RunKeepsBudget(b: Bucket, times: seq<real>, lo: nat, hi: nat)
    requires lo <= hi <= |times| && lo < |times| && Ascending(times)
    requires NotOverfull(b) && b.lastRefill <= times[0]
    ensures Budget(After(b, times, hi), Granted(b, times, lo, hi), times[lo])
  {
    if lo == hi {
      NeverOverfull(b, times, lo);
    } else {
      RunKeepsBudget(b, times, lo, hi - 1);
      AscendingMeans(times, lo, hi - 1);
      TakeKeepsBudget(After(b, times, hi - 1), Granted(b, times, lo, hi - 1), times[lo], times[hi - 1]);
    }
  }

  lemma {:induction false} AscendingMeans(times: seq<real>, i: nat, j: nat)
    requires Ascending(times) && i <= j < |times|
    ensures times[i] <= times[j]
  {
    if i < j { AscendingMeans(times, i, j - 1); }
  }

  /** Over any window of a run, at most a full bucket and the refill of the window is granted. */
  lemma WindowBound(b: Bucket, times: seq<real>, lo: nat, hi: nat)
    requires lo < hi <= |times| && Ascending(times)
    requires NotOverfull(b) && b.lastRefill <= times[0]
    ensures WithinBound(Granted(b, times, lo, hi), b.maxTokens, b.refillRate, times[lo], times[hi - 1])
  {
    RunKeepsBudget(b, times, lo, hi);
    AscendingMeans(times, lo, hi - 1);
    BudgetBounds(After(b, times, hi), Granted(b, times, lo, hi), times[lo], times[hi - 1]);
  }

  lemma {:induction false} NeverOverdrawn(b: Bucket, times: seq<real>, n: nat)
    requires n <= |times| && Ascending(times)
    requires 0.0 <= b.tokens && 0.0 <= b.maxTokens && b.refillRate >= 0.0
    requires n > 0 ==> b.lastRefill <= times[0]
    ensures After(b, times, n).tokens >= 0.0
  {
    if n > 0 {
      NeverOverdrawn(b, times, n - 1);
      var before := After(b, times, n - 1);
      InflowNonNegative(before.refillRate, before.lastRefill, times[n - 1]);
    }
  }

  /** A request that comes at least one refill period after the previous one, or first, is granted. */
  lemma SpacedRequestIsGranted(maxTokens: real, refillRate: real, created: real, times: seq<real>, n: nat)
    requires maxTokens >= 1.0 && refillRate > 0.0
    requires n < |times| && Ascending(times) && created <= times[0]
    requires n == 0 || Inflow(refillRate, times[n - 1], times[n]) >= 1.0
    ensures Grants(After(NewBucket(maxTokens, refillRate, created), times, n), times[n])
  {
    var b := NewBucket(maxTokens, refillRate, created);
    NeverOverdrawn(b, times, n);
    if n == 0 { InflowNonNegative(refillRate, created, times[0]); }
  }

  /** The tokens on hand at request `n`, after the refill. */
  function OnHand(b: Bucket, times: seq<real>, n: nat): real
    requires n < |times|
  {
    Refilled(After(b, times, n), times[n]).tokens
  }

  /** A full bucket and the inflow since request `lo`, less the requests granted since. */
  function Left(b: Bucket, times: seq<real>, lo: nat, n: nat): real
    requires lo <= n < |times|
  {
    b.maxTokens + Inflow(b.refillRate, times[lo], times[n]) - Granted(b, times, lo, n) as real
  }

  /** One request to the next: the tokens on hand, less the one taken, plus the inflow, up to the maximum. */
  lemma OnHandSteps(b: Bucket, times: seq<real>, n: nat)
    requires 0 < n < |times|
    ensures var on := OnHand(b, times, n - 1) + Inflow(b.refillRate, times[n - 1], times[n])
                      - if Grants(After(b, times, n - 1), times[n - 1]) then 1.0 else 0.0;
            OnHand(b, times, n) == if on > b.maxTokens then b.maxTokens else on
  {
    hide Inflow;
  }

  lemma LeftSteps(b: Bucket, times: seq<real>, lo: nat, n: nat)
    requires lo < n < |times|
    ensures Left(b, times, lo, n) == Left(b, times, lo, n - 1) + Inflow(b.refillRate, times[n - 1], times[n])
                                     - if Grants(After(b, times, n - 1), times[n - 1]) then 1.0 else 0.0
  {
    hide Inflow, Grants;
    InflowSplits(b.refillRate, times[lo], times[n - 1], times[n]);
  }

  lemma LeftIsFull(b: Bucket, times: seq<real>, n: nat)
    requires n < |times|
    ensures Left(b, times, n, n) == b.maxTokens >= OnHand(b, times, n)
  {
    hide Grants;
    InflowSplits(b.refillRate, times[n], times[n], times[n]);
  }

  lemma {:induction false} OnHandAtMostLeft(b: Bucket, times: seq<real>, lo: nat, n: nat)
    requires lo <= n < |times|
    ensures OnHand(b, times, n) <= Left(b, times, lo, n)
  {
    hide Left, OnHand, Grants, Inflow;
    if lo == n {
      LeftIsFull(b, times, n);
    } else {
      OnHandAtMostLeft(b, times, lo, n - 1);
      OnHandSteps(b, times, n);
      LeftSteps(b, times, lo, n);
    }
  }

  /** Since the bucket was last full, nothing has overflowed. */
  lemma {:induction false} OnHandIsLeft(b: Bucket, times: seq<real>, n: nat) returns (lo: nat)
    requires n < |times| && b.tokens == b.maxTokens && b.refillRate >= 0.0 && b.lastRefill <= times[0]
    ensures lo <= n && OnHand(b, times, n) == Left(b, times, lo, n)
  {
    hide Left, OnHand, Grants, Inflow;
    lo := n;
    LeftIsFull(b, times, n);
    if n == 0 {
      FullStaysFull(b, times);
    } else if OnHand(b, times, n) < b.maxTokens {
      lo := OnHandIsLeft(b, times, n - 1);
      OnHandSteps(b, times, n);
      LeftSteps(b, times, lo, n);
    }
  }

  lemma FullStaysFull(b: Bucket, times: seq<real>)
    requires times != [] && b.tokens == b.maxTokens && b.refillRate >= 0.0 && b.lastRefill <= times[0]
    ensures OnHand(b, times, 0) == b.maxTokens
  {
    InflowNonNegative(b.refillRate, b.lastRefill, times[0]);
  }

  /** Over some window that ends with request `n`, granting it too would go beyond a full bucket and the window's inflow. */
  ghost predicate Exhausted(maxTokens: real, refillRate: real, created: real, times: seq<real>, n: nat)
    requires n < |times|
  {
    exists lo: nat :: lo <= n &&
      Granted(NewBucket(maxTokens, refillRate, created), times, lo, n) as real + 1.0
        > maxTokens + (times[n] - times[lo]) * refillRate
  }

  /** The converse of the window bound: a new bucket refuses a request only where granting it would break the bound. */
  lemma RefusedExactlyWhen(maxTokens: real, refillRate: real, created: real, times: seq<real>, n: nat)
    requires refillRate >= 0.0 && n < |times| && created <= times[0]
    ensures !Grants(After(NewBucket(maxTokens, refillRate, created), times, n), times[n])
            <==> Exhausted(maxTokens, refillRate, created, times, n)
  {
    hide Granted, Exhausted;
    var b := NewBucket(maxTokens, refillRate, created);
    var lo := OnHandIsLeft(b, times, n);
    if !Grants(After(b, times, n), times[n]) {
      BelowOneExhausts(maxTokens, refillRate, created, times, lo, n);
    }
    if Exhausted(maxTokens, refillRate, created, times, n) {
      var from := ExhaustedLeavesLess(maxTokens, refillRate, created, times, n);
      OnHandAtMostLeft(b, times, from, n);
    }
  }

  lemma BelowOneExhausts(maxTokens: real, refillRate: real, created: real, times: seq<real>, lo: nat, n: nat)
    requires lo <= n < |times| && Left(NewBucket(maxTokens, refillRate, created), times, lo, n) < 1.0
    ensures Exhausted(maxTokens, refillRate, created, times, n)
  {
    hide Granted;
  }

  lemma ExhaustedLeavesLess(maxTokens: real, refillRate: real, created: real, times: seq<real>, n: nat) returns (lo: nat)
    requires n < |times| && Exhausted(maxTokens, refillRate, created, times, n)
    ensures lo <= n && Left(NewBucket(maxTokens, refillRate, created), times, lo, n) < 1.0
  {
    hide Granted;
    lo :| lo <= n && Granted(NewBucket(maxTokens, refillRate, created), times, lo, n) as real + 1.0
                       > maxTokens + (times[n] - times[lo]) * refillRate;
  }

  /** A new bucket grants its whole burst, however fast the requests come. */
  lemma BurstIsGranted(maxTokens: real, refillRate: real, created: real, times: seq<real>, n: nat)
    requires refillRate >= 0.0 && n < |times| && Ascending(times) && created <= times[0]
    requires n as real + 1.0 <= maxTokens
    ensures Grants(After(NewBucket(maxTokens, refillRate, created), times, n), times[n])
  {
    RefusedExactlyWhen(maxTokens, refillRate, created, times, n);
    if Exhausted(maxTokens, refillRate, created, times, n) {
      var lo := ExhaustedLeavesLess(maxTokens, refillRate, created, times, n);
      AscendingMeans(times, lo, n);
      InflowNonNegative(refillRate, times[lo], times[n]);
      GrantedAtMostAll(NewBucket(maxTokens, refillRate, created), times, lo, n);
      assert false;
    }
  }

  lemma {:induction false} GrantedAtMostAll(b: Bucket, times: seq<real>, lo: nat, hi: nat)
    requires lo <= hi <= |times|
    ensures Granted(b, times, lo, hi) <= hi - lo
  {
    if lo < hi { GrantedAtMostAll(b, times, lo, hi - 1); }
  }

  // ----- the rate limiter -----

  datatype LimitConfig = LimitConfig(requestsPerSecond: real, burstSize: int, perProviderLimits: bool)

  datatype Limiter = Limiter(config: LimitConfig, global: Option<Bucket>, buckets: map<string, Bucket>)

  function FreshBucket(config: LimitConfig, now: real): Bucket {
    NewBucket(config.burstSize as real, config.requestsPerSecond, now)
  }

  function NewLimiter(config: LimitConfig, now: real): Limiter {
    Limiter(config, if config.requestsPerSecond > 0.0 then Some(FreshBucket(config, now)) else None, map[])
  }

  /** A request for a model; the global bucket is asked first, the model's bucket later. */
  datatype Call = Call(model: string, first: real, second: real)

  function BucketFor(l: Limiter, call: Call): Bucket {
    if call.model in l.buckets then l.buckets[call.model] else FreshBucket(l.config, call.second)
  }

  predicate Allows(l: Limiter, call: Call) {
    l.global.Some? ==> Grants(l.global.value, call.first)
                       && (l.config.perProviderLimits ==> Grants(BucketFor(l, call), call.second))
  }

  function Next(l: Limiter, call: Call): Limiter {
    if l.global.None? then l
    else
      var asked := l.(global := Some(Taken(l.global.value, call.first)));
      if Grants(l.global.value, call.first) && l.config.perProviderLimits
      then asked.(buckets := l.buckets[call.model := Taken(BucketFor(l, call), call.second)])
      else asked
  }

  class RateLimiter {
    const config: LimitConfig
    var global: TokenBucket?
    var buckets: map<string, TokenBucket>

    ghost function Objects(): set<object>
      reads this
    {
      (if global == null then {} else {global}) + set m | m in buckets :: buckets[m]
    }

    /** Every model has a bucket of its own. */
    ghost predicate Valid()
      reads this
    {
      && (forall m, n :: m in buckets && n in buckets && m != n ==> buckets[m] != buckets[n])
      && (forall m :: m in buckets ==> buckets[m] != global)
    }

    ghost function View(): Limiter
      reads this, Objects()
    {
      Limiter(config, if global == null then None else Some(global.View()), map m | m in buckets :: buckets[m].View())
    }

    constructor (config: LimitConfig, now: real)
      ensures Valid() && fresh(Objects())
      ensures View() == NewLimiter(config, now)
    {
      this.config := config;
      this.buckets := map[];
      this.global := null;
      new;
      if config.requestsPerSecond > 0.0 {
        global := new TokenBucket(config.burstSize as real, config.requestsPerSecond, now);
      }
    }

    method Allow(model: string, first: real, second: real) returns (ok: bool)
      requires Valid()
      modifies this, Objects()
      ensures Valid() && fresh(Objects() - old(Objects()))
      ensures ok == Allows(old(View()), Call(model, first, second))
      ensures View() == Next(old(View()), Call(model, first, second))
    {
      hide Grants, Taken, Refilled;
      if global == null {
        return true;
      }
      var passed := global.Allow(first);
      if !passed {
        return false;
      }
      if config.perProviderLimits {
        ok := AllowForModel(model, first, second);
        return;
      }
      return true;
    }

    method AllowForModel(model: string, ghost first: real, second: real) returns (ok: bool)
      requires Valid()
      modifies this, Objects() - {global}
      ensures Valid() && fresh(Objects() - old(Objects()))
      ensures global == old(global)
      ensures var call := Call(model, first, second);
              && ok == Grants(BucketFor(old(View()), call), second)
              && View() == old(View()).(buckets := old(View()).buckets[model := Taken(BucketFor(old(View()), call), second)])
    {
      hide Grants, Taken;
      EnsureBucket(model, first, second);
      ok := AskBucket(model, second);
    }

    /** The model's own bucket, created when it is first asked for. */
    method EnsureBucket(model: string, ghost first: real, second: real)
      requires Valid()
      modifies this
      ensures Valid() && fresh(Objects() - old(Objects()))
      ensures global == old(global) && model in buckets
      ensures View() == old(View()).(buckets := old(View()).buckets[model := BucketFor(old(View()), Call(model, first, second))])
    {
      if model !in buckets {
        var bucket := new TokenBucket(config.burstSize as real, config.requestsPerSecond, second);
        buckets := buckets[model := bucket];
      }
    }

    method AskBucket(model: string, second: real) returns (ok: bool)
      requires Valid() && model in buckets
      modifies buckets[model]
      ensures Valid() && Objects() == old(Objects()) && global == old(global)
      ensures ok == Grants(old(View()).buckets[model], second)
      ensures View() == old(View()).(buckets := old(View()).buckets[model := Taken(old(View()).buckets[model], second)])
    {
      hide Grants, Taken;
      var bucket := buckets[model];
      ok := bucket.Allow(second);
    }
  }

  // ----- runs of the limiter -----

  predicate InOrder(calls: seq<Call>) {
    && (forall i :: 0 <= i < |calls| ==> calls[i].first <= calls[i].second)
    && (forall i :: 0 < i < |calls| ==> calls[i - 1].second <= calls[i].first)
  }

  function AfterCalls(l: Limiter, calls: seq<Call>, n: nat): (r: Limiter)
    requires n <= |calls|
    ensures r.config == l.config && r.global.Some? == l.global.Some?
  {
    if n == 0 then l else Next(AfterCalls(l, calls, n - 1), calls[n - 1])
  }

  /** How many of the calls `lo..hi` are allowed. */
  function AllowedIn(l: Limiter, calls: seq<Call>, lo: nat, hi: nat): nat
    requires lo <= hi <= |calls|
  {
    if lo == hi then 0
    else AllowedIn(l, calls, lo, hi - 1) + if Allows(AfterCalls(l, calls, hi - 1), calls[hi - 1]) then 1 else 0
  }

  /** How many of them are for one model. */
  function AllowedFor(l: Limiter, calls: seq<Call>, model: string, lo: nat, hi: nat): nat
    requires lo <= hi <= |calls|
  {
    if lo == hi then 0
    else AllowedFor(l, calls, model, lo, hi - 1)
         + if calls[hi - 1].model == model && Allows(AfterCalls(l, calls, hi - 1), calls[hi - 1]) then 1 else 0
  }

  lemma {:induction false} CallsInOrder(calls: seq<Call>, i: nat, j: nat)
    requires InOrder(calls) && i <= j < |calls|
    ensures calls[i].first <= calls[j].first && calls[i].second <= calls[j].second
  {
    if i < j { CallsInOrder(calls, i, j - 1); }
  }

  /** The global bucket sees every call, and each allowed call took one of its tokens. */
  lemma {:induction false} GlobalKeepsBudget(config: LimitConfig, created: real, calls: seq<Call>, lo: nat, hi: nat) returns (n: nat)
    requires config.requestsPerSecond > 0.0
    requires lo <= hi <= |calls| && lo < |calls| && InOrder(calls) && created <= calls[0].first
    ensures var l := NewLimiter(config, created);
            var g := AfterCalls(l, calls, hi).global.value;
            && Budget(g, n, calls[lo].first) && AllowedIn(l, calls, lo, hi) <= n
            && g.maxTokens == config.burstSize as real && g.refillRate == config.requestsPerSecond
            && g.lastRefill <= (if hi == 0 then created else calls[hi - 1].first)
  {
    if hi > lo {
      n := GlobalKeepsBudget(config, created, calls, lo, hi - 1);
      var g := AfterCalls(NewLimiter(config, created), calls, hi - 1).global.value;
      CallsInOrder(calls, lo, hi - 1);
      TakeKeepsBudget(g, n, calls[lo].first, calls[hi - 1].first);
      n := n + if Grants(g, calls[hi - 1].first) then 1 else 0;
    } else {
      n := 0;
      if hi > 0 {
        var _ := GlobalKeepsBudget(config, created, calls, lo - 1, hi);
      }
    }
  }

  /** Over any window of calls, at most the burst and the refill of the window is allowed in all. */
  lemma GlobalWindowBound(config: LimitConfig, created: real, calls: seq<Call>, lo: nat, hi: nat)
    requires config.requestsPerSecond > 0.0
    requires lo < hi <= |calls| && InOrder(calls) && created <= calls[0].first
    ensures WithinBound(AllowedIn(NewLimiter(config, created), calls, lo, hi),
                        config.burstSize as real, config.requestsPerSecond, calls[lo].first, calls[hi - 1].first)
  {
    var n := GlobalKeepsBudget(config, created, calls, lo, hi);
    CallsInOrder(calls, lo, hi - 1);
    BudgetBounds(AfterCalls(NewLimiter(config, created), calls, hi).global.value, n, calls[lo].first, calls[hi - 1].first);
  }

  lemma FreshBudget(config: LimitConfig, now: real, start: real)
    requires config.requestsPerSecond > 0.0 && start <= now
    ensures Budget(FreshBucket(config, now), 0, start)
  {
    InflowNonNegative(config.requestsPerSecond, start, now);
  }

  /** A window that starts after the last request begins with a budget nothing was taken from. */
  lemma BudgetRestarts(b: Bucket, n: nat, start: real, later: real)
    requires Budget(b, n, start) && b.lastRefill <= later
    ensures Budget(b, 0, later)
  {
  }

  /** A model's bucket, if it exists yet, keeps its own budget. */
  lemma {:induction false} ModelKeepsBudget(config: LimitConfig, created: real, calls: seq<Call>, model: string, lo: nat, hi: nat)
    requires config.requestsPerSecond > 0.0 && config.perProviderLimits
    requires lo <= hi <= |calls| && lo < |calls| && InOrder(calls)
    ensures var l := NewLimiter(config, created);
            var buckets := AfterCalls(l, calls, hi).buckets;
            if model in buckets then
              && Budget(buckets[model], AllowedFor(l, calls, model, lo, hi), calls[lo].second)
              && buckets[model].maxTokens == config.burstSize as real && buckets[model].refillRate == config.requestsPerSecond
              && hi > 0 && buckets[model].lastRefill <= calls[hi - 1].second
            else AllowedFor(l, calls, model, lo, hi) == 0
  {
    hide Budget, Inflow;
    var l := NewLimiter(config, created);
    if hi > lo {
      ModelKeepsBudget(config, created, calls, model, lo, hi - 1);
      CallsInOrder(calls, lo, hi - 1);
      if hi > 1 { CallsInOrder(calls, hi - 2, hi - 1); }
      var before, call := AfterCalls(l, calls, hi - 1), calls[hi - 1];
      FreshBudget(config, call.second, calls[lo].second);
      if call.model == model && Grants(before.global.value, call.first) {
        TakeKeepsBudget(BucketFor(before, call), AllowedFor(l, calls, model, lo, hi - 1), calls[lo].second, call.second);
      }
    } else if lo > 0 {
      ModelKeepsBudget(config, created, calls, model, lo - 1, hi);
      CallsInOrder(calls, lo - 1, lo);
      var buckets := AfterCalls(l, calls, hi).buckets;
      if model in buckets {
        BudgetRestarts(buckets[model], AllowedFor(l, calls, model, lo - 1, hi), calls[lo - 1].second, calls[lo].second);
      }
    }
  }

  /** With per-provider limits, the same bound holds for the calls of each model. */
  lemma ModelWindowBound(config: LimitConfig, created: real, calls: seq<Call>, model: string, lo: nat, hi: nat)
    requires config.requestsPerSecond > 0.0 && config.perProviderLimits
    requires lo < hi <= |calls| && InOrder(calls)
    ensures WithinBound(AllowedFor(NewLimiter(config, created), calls, model, lo, hi),
                        config.burstSize as real, config.requestsPerSecond, calls[lo].second, calls[hi - 1].second)
  {
    var l := NewLimiter(config, created);
    ModelKeepsBudget(config, created, calls, model, lo, hi);
    CallsInOrder(calls, lo, hi - 1);
    var buckets := AfterCalls(l, calls, hi).buckets;
    if model in buckets {
      BudgetBounds(buckets[model], AllowedFor(l, calls, model, lo, hi), calls[lo].second, calls[hi - 1].second);
    }
  }

  /** No bucket has been overdrawn, and none has been asked later than the last call. */
  ghost predicate Solvent(config: LimitConfig, created: real, calls: seq<Call>, n: nat)
    requires n <= |calls|
  {
    var l := AfterCalls(NewLimiter(config, created), calls, n);
    && l.global.Some? && SolventBucket(config, l.global.value, if n == 0 then created else calls[n - 1].first)
    && forall m :: m in l.buckets ==> n > 0 && SolventBucket(config, l.buckets[m], calls[n - 1].second)
  }

  ghost predicate SolventBucket(config: LimitConfig, b: Bucket, asked: real) {
    && b.tokens >= 0.0 && b.lastRefill <= asked
    && b.maxTokens == config.burstSize as real && b.refillRate == config.requestsPerSecond
  }

  lemma TakingKeepsSolvent(config: LimitConfig, b: Bucket, asked: real, now: real)
    requires config.burstSize >= 1 && config.requestsPerSecond > 0.0
    requires SolventBucket(config, b, asked) && asked <= now
    ensures SolventBucket(config, Taken(b, now), now)
    ensures Inflow(config.requestsPerSecond, asked, now) >= 1.0 ==> Grants(b, now)
  {
    InflowNonNegative(b.refillRate, b.lastRefill, now);
    InflowSplits(b.refillRate, b.lastRefill, asked, now);
    InflowNonNegative(b.refillRate, b.lastRefill, asked);
  }

  lemma FreshIsSolvent(config: LimitConfig, now: real)
    requires config.burstSize >= 1 && config.requestsPerSecond > 0.0
    ensures SolventBucket(config, FreshBucket(config, now), now) && Grants(FreshBucket(config, now), now)
    ensures SolventBucket(config, Taken(FreshBucket(config, now), now), now)
  {
    InflowSplits(config.requestsPerSecond, now, now, now);
  }

  lemma {:induction false} CallsKeepSolvent(config: LimitConfig, created: real, calls: seq<Call>, n: nat)
    requires config.burstSize >= 1 && config.requestsPerSecond > 0.0
    requires n <= |calls| && InOrder(calls) && (calls != [] ==> created <= calls[0].first)
    ensures Solvent(config, created, calls, n)
  {
    hide Taken, Grants, SolventBucket, FreshBucket;
    if n == 0 {
      FreshIsSolvent(config, created);
    } else {
      CallsKeepSolvent(config, created, calls, n - 1);
      OneCallKeepsSolvent(config, created, calls, n - 1);
    }
  }

  lemma LaterIsSolvent(config: LimitConfig, b: Bucket, asked: real, later: real)
    requires SolventBucket(config, b, asked) && asked <= later
    ensures SolventBucket(config, b, later)
  {
  }

  lemma OneCallKeepsSolvent(config: LimitConfig, created: real, calls: seq<Call>, n: nat)
    requires config.burstSize >= 1 && config.requestsPerSecond > 0.0
    requires n < |calls| && InOrder(calls) && created <= calls[0].first && Solvent(config, created, calls, n)
    ensures Solvent(config, created, calls, n + 1)
  {
    hide Taken, Grants, SolventBucket, FreshBucket;
    var l, call := AfterCalls(NewLimiter(config, created), calls, n), calls[n];
    TakingKeepsSolvent(config, l.global.value, if n == 0 then created else calls[n - 1].first, call.first);
    FreshIsSolvent(config, call.second);
    forall m | m in l.buckets
      ensures SolventBucket(config, l.buckets[m], call.second) && SolventBucket(config, Taken(l.buckets[m], call.second), call.second)
    {
      LaterIsSolvent(config, l.buckets[m], calls[n - 1].second, call.second);
      TakingKeepsSolvent(config, l.buckets[m], calls[n - 1].second, call.second);
    }
  }

  /** With a burst of at least one, a call that comes a refill period after the previous one, or first, is allowed, by its model's bucket as well. */
  lemma SpacedCallIsAllowed(config: LimitConfig, created: real, calls: seq<Call>, n: nat)
    requires config.burstSize >= 1 && config.requestsPerSecond > 0.0
    requires n < |calls| && InOrder(calls) && created <= calls[0].first
    requires n == 0 || Inflow(config.requestsPerSecond, calls[n - 1].second, calls[n].first) >= 1.0
    ensures Allows(AfterCalls(NewLimiter(config, created), calls, n), calls[n])
  {
    var l, call := AfterCalls(NewLimiter(config, created), calls, n), calls[n];
    CallsKeepSolvent(config, created, calls, n);
    FreshIsSolvent(config, call.second);
    if n == 0 {
      TakingKeepsSolvent(config, l.global.value, created, call.first);
      FullGrants(config, created, call.first);
    } else {
      var last := calls[n - 1];
      WiderInflow(config.requestsPerSecond, last.first, last.second, call.first, call.second);
      TakingKeepsSolvent(config, l.global.value, last.first, call.first);
      if call.model in l.buckets {
        TakingKeepsSolvent(config, l.buckets[call.model], last.second, call.second);
      }
    }
  }

  lemma FullGrants(config: LimitConfig, created: real, now: real)
    requires config.burstSize >= 1 && config.requestsPerSecond > 0.0 && created <= now
    ensures Grants(FreshBucket(config, created), now)
  {
    InflowNonNegative(config.requestsPerSecond, created, now);
  }

  /** A wider window has at least the inflow of a narrower one. */
  lemma WiderInflow(rate: real, from: real, later: real, to: real, end: real)
    requires rate > 0.0 && from <= later <= to <= end
    ensures Inflow(rate, from, to) >= Inflow(rate, later, to) && Inflow(rate, later, end) >= Inflow(rate, later, to)
  {
    InflowSplits(rate, from, later, to);
    InflowSplits(rate, later, to, end);
    InflowNonNegative(rate, from, later);
    InflowNonNegative(rate, to, end);
  }

  /** So calls spaced that far apart are all allowed. */
  lemma {:induction false} SpacedCallsAreAllowed(config: LimitConfig, created: real, calls: seq<Call>, lo: nat, hi: nat)
    requires config.burstSize >= 1 && config.requestsPerSecond > 0.0
    requires lo <= hi <= |calls| && InOrder(calls) && (calls != [] ==> created <= calls[0].first)
    requires forall i :: 0 < i < hi ==> Inflow(config.requestsPerSecond, calls[i - 1].second, calls[i].first) >= 1.0
    ensures AllowedIn(NewLimiter(config, created), calls, lo, hi) == hi - lo
  {
    if lo < hi {
      SpacedCallsAreAllowed(config, created, calls, lo, hi - 1);
      SpacedCallIsAllowed(config, created, calls, hi - 1);
    }
  }

  /** When the calls reach the global bucket. */
  function Firsts(calls: seq<Call>): (times: seq<real>)
    ensures |times| == |calls| && forall i :: 0 <= i < |calls| ==> times[i] == calls[i].first
  {
    seq(|calls|, i requires 0 <= i < |calls| => calls[i].first)
  }

  /** When the calls for one model, of the first `n`, reach the bucket of the model: those that the global bucket granted. */
  function Seconds(l: Limiter, calls: seq<Call>, model: string, n: nat): seq<real>
    requires n <= |calls| && l.global.Some?
  {
    if n == 0 then []
    else if calls[n - 1].model == model && Grants(AfterCalls(l, calls, n - 1).global.value, calls[n - 1].first)
    then Seconds(l, calls, model, n - 1) + [calls[n - 1].second]
    else Seconds(l, calls, model, n - 1)
  }

  lemma {:induction false} GlobalIsBucketRun(config: LimitConfig, created: real, calls: seq<Call>, n: nat)
    requires config.requestsPerSecond > 0.0 && n <= |calls|
    ensures AfterCalls(NewLimiter(config, created), calls, n).global
         == Some(After(FreshBucket(config, created), Firsts(calls), n))
  {
    hide Taken, Grants;
    if n > 0 { GlobalIsBucketRun(config, created, calls, n - 1); }
  }

  lemma {:induction false} RunOfPrefix(b: Bucket, times: seq<real>, more: seq<real>, n: nat)
    requires n <= |times|
    ensures After(b, times + more, n) == After(b, times, n)
  {
    hide Taken;
    if n > 0 { RunOfPrefix(b, times, more, n - 1); }
  }

  /** A model's bucket is a run of a bucket that is made when the model first gets past the global one. */
  lemma {:induction false} ModelIsBucketRun(config: LimitConfig, created: real, calls: seq<Call>, model: string, n: nat)
    requires config.requestsPerSecond > 0.0 && config.perProviderLimits && n <= |calls|
    ensures var l := NewLimiter(config, created);
            var buckets, times := AfterCalls(l, calls, n).buckets, Seconds(l, calls, model, n);
            && (model in buckets <==> times != [])
            && (model in buckets ==> buckets[model] == After(FreshBucket(config, times[0]), times, |times|))
  {
    hide Taken, Grants, FreshBucket;
    var l := NewLimiter(config, created);
    if n > 0 {
      ModelIsBucketRun(config, created, calls, model, n - 1);
      var call, before := calls[n - 1], AfterCalls(l, calls, n - 1);
      var times := Seconds(l, calls, model, n - 1);
      if call.model == model && Grants(before.global.value, call.first) {
        AskedBucketIsRun(config, before, call, times);
      }
    }
  }

  lemma AskedBucketIsRun(config: LimitConfig, l: Limiter, call: Call, times: seq<real>)
    requires l.config == config && (call.model in l.buckets <==> times != [])
    requires call.model in l.buckets ==> l.buckets[call.model] == After(FreshBucket(config, times[0]), times, |times|)
    ensures var more := times + [call.second];
            && BucketFor(l, call) == After(FreshBucket(config, more[0]), more, |times|)
            && Taken(BucketFor(l, call), call.second) == After(FreshBucket(config, more[0]), more, |more|)
  {
    hide Taken, FreshBucket;
    var more := times + [call.second];
    if times != [] { RunOfPrefix(FreshBucket(config, times[0]), times, [call.second], |times|); }
  }

  /**
   A call is refused exactly when it would break the bound of the global bucket over some window of calls, or, having
   passed that, the bound of its model's bucket over some window of the calls that came to that bucket.
   */
  lemma AllowedExactlyWhen(config: LimitConfig, created: real, calls: seq<Call>, n: nat)
    requires config.requestsPerSecond > 0.0
    requires n < |calls| && created <= calls[0].first
    ensures var l := NewLimiter(config, created);
            var times := Seconds(l, calls, calls[n].model, n) + [calls[n].second];
            Allows(AfterCalls(l, calls, n), calls[n]) <==>
              && !Exhausted(config.burstSize as real, config.requestsPerSecond, created, Firsts(calls), n)
              && (config.perProviderLimits ==>
                    !Exhausted(config.burstSize as real, config.requestsPerSecond, times[0], times, |times| - 1))
  {
    hide Grants, Exhausted;
    var l := NewLimiter(config, created);
    var times := Seconds(l, calls, calls[n].model, n) + [calls[n].second];
    GlobalIsBucketRun(config, created, calls, n);
    RefusedExactlyWhen(config.burstSize as real, config.requestsPerSecond, created, Firsts(calls), n);
    if config.perProviderLimits {
      ModelIsBucketRun(config, created, calls, calls[n].model, n);
      AskedBucketIsRun(config, AfterCalls(l, calls, n), calls[n], Seconds(l, calls, calls[n].model, n));
      RefusedExactlyWhen(config.burstSize as real, config.requestsPerSecond, times[0], times, |times| - 1);
    }
  }

  /** Without a positive rate the limiter lets everything through. */
  lemma {:induction false} UnlimitedAllowsAll(config: LimitConfig, created: real, calls: seq<Call>, lo: nat, hi: nat)
    requires config.requestsPerSecond <= 0.0 && lo <= hi <= |calls|
    ensures AllowedIn(NewLimiter(config, created), calls, lo, hi) == hi - lo
  {
    if lo < hi { UnlimitedAllowsAll(config, created, calls, lo, hi - 1); }
  }
}
