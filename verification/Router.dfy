/**
 `Router.Complete` of plugins/llmrouter/router.go with the retry loop of plugins/llmrouter/retry.go,
 run sequentially. What a provider answers, whether a cancelled context is noticed, jitter draws and
 clock readings are arbitrary; ranging over a map picks any next key. `log` records the provider calls.
 */
module Router {
  import opened Wrappers
  import opened Sequences
  import opened Retry
  import Breakers = CircuitBreaker

  const MODEL_CLAUDE_SONNET := "claude-sonnet-4"
  const MODEL_CLAUDE_HAIKU := "claude-haiku-3"
  const MODEL_GLM5 := "glm-5.1"
  const MODEL_GLM5_AIR := "glm-5.1-air"

  function UpgradeModel(model: string): string {
    if model == MODEL_CLAUDE_HAIKU then MODEL_CLAUDE_SONNET
    else if model == MODEL_GLM5_AIR then MODEL_GLM5
    else if model == MODEL_CLAUDE_SONNET || model == MODEL_GLM5 then model
    else MODEL_CLAUDE_SONNET
  }

  datatype ModelTier = TierLow | TierMedium

  function GetModelTier(model: string): ModelTier {
    if model == MODEL_CLAUDE_HAIKU || model == MODEL_GLM5_AIR then TierLow else TierMedium
  }

  predicate IsKnown(model: string) {
    model in {MODEL_CLAUDE_SONNET, MODEL_CLAUDE_HAIKU, MODEL_GLM5, MODEL_GLM5_AIR}
  }

  /** An upgrade leads to the medium tier, moves a known model exactly if it is of the low one, and stays with its vendor. */
  lemma UpgradeRaisesTier(model: string)
    ensures IsKnown(UpgradeModel(model)) && GetModelTier(UpgradeModel(model)) == TierMedium
    ensures IsKnown(model) ==> (UpgradeModel(model) != model <==> GetModelTier(model) == TierLow)
    ensures IsKnown(model) ==> UpgradeModel(model)[0] == model[0]
    ensures !IsKnown(model) ==> UpgradeModel(model) == MODEL_CLAUDE_SONNET
  {
  }

  /** An upgraded model is never upgraded again. */
  lemma UpgradeIsFixed(model: string)
    ensures UpgradeModel(UpgradeModel(model)) == UpgradeModel(model) != ""
  {
    assert UpgradeModel(model) in {MODEL_CLAUDE_SONNET, MODEL_GLM5};
  }

  datatype Response = Response(content: string, model: string)

  /** A provider's answer: no error, with a response that may be nil, or an error. */
  datatype Answer = Answered(response: Option<Response>) | Fail(error: CallError)

  datatype ProviderCall = ProviderCall(model: string, answer: Answer)

  datatype RouteError = ProviderError(error: CallError) | ContextDone | NoProvider(model: string)

  datatype RouterConfig = RouterConfig(
    primaryProvider: string,
    enableAdaptiveRouting: bool,
    retry: RetryConfig,
    breaker: Breakers.Config,
    taskPreferences: map<string, seq<string>>,
    fallbackOrder: seq<string>)

  // ----- what the counters mean -----

  /** How many calls to `model` have failed in a row, counted from the end. */
  function FailuresInARow(log: seq<ProviderCall>, model: string): nat {
    if log == [] then 0
    else
      var last, front := log[|log| - 1], log[..|log| - 1];
      if last.model != model then FailuresInARow(front, model)
      else if last.answer.Answered? then 0
      else 1 + FailuresInARow(front, model)
  }

  function SuccessesInARow(log: seq<ProviderCall>, model: string): nat {
    if log == [] then 0
    else
      var last, front := log[|log| - 1], log[..|log| - 1];
      if last.model != model then SuccessesInARow(front, model)
      else if last.answer.Fail? then 0
      else 1 + SuccessesInARow(front, model)
  }

  function Count(counters: map<string, int>, model: string): int {
    if model in counters then counters[model] else 0
  }

  function NonNegative(n: int): nat {
    if n < 0 then 0 else n
  }

  type Circuits = map<string, Breakers.Breaker>

  ghost predicate AllCount(circuits: Circuits) {
    forall m :: m in circuits ==> Breakers.Counts(circuits[m])
  }

  /** The breaker of a model, if it has one, has been told of an event; the others are untouched. */
  function Told(config: Breakers.Config, circuits: Circuits, model: string, event: Breakers.Event): (r: Circuits)
    requires AllCount(circuits)
    ensures AllCount(r)
  {
    if model in circuits then circuits[model := Breakers.Step(config, circuits[model], event)] else circuits
  }

  /** How many calls went to `model`, and how many of those failed. */
  function CallsTo(log: seq<ProviderCall>, model: string): nat {
    if log == [] then 0
    else CallsTo(log[..|log| - 1], model) + if log[|log| - 1].model == model then 1 else 0
  }

  function FailuresOf(log: seq<ProviderCall>, model: string): nat {
    if log == [] then 0
    else FailuresOf(log[..|log| - 1], model) + if log[|log| - 1].model == model && log[|log| - 1].answer.Fail? then 1 else 0
  }

  /** With its last call, which went to `model`, the calls to it are enough and the failed share is too large. */
  predicate Trips(config: Breakers.Config, log: seq<ProviderCall>, model: string) {
    && log != [] && log[|log| - 1].model == model
    && CallsTo(log, model) > 0 && CallsTo(log, model) >= config.minRequests
    && FailuresOf(log, model) as real / CallsTo(log, model) as real >= config.errorRateThreshold
  }

  ghost predicate HasTripped(config: Breakers.Config, log: seq<ProviderCall>, model: string) {
    exists n :: 0 <= n <= |log| && Trips(config, log[..n], model)
  }

  /** The breaker of `model` is open since it tripped, and counts the calls to `model` until then. */
  ghost predicate Reflects(config: Breakers.Config, b: Breakers.Breaker, log: seq<ProviderCall>, model: string) {
    if HasTripped(config, log, model) then b.state == Breakers.Open
    else b.state == Breakers.Closed && b.totalReqs == CallsTo(log, model) && b.failedReqs == FailuresOf(log, model)
  }

  ghost predicate AllReflect(config: Breakers.Config, circuits: Circuits, log: seq<ProviderCall>) {
    forall m :: m in circuits ==> Reflects(config, circuits[m], log, m)
  }

  lemma TrippedStep(config: Breakers.Config, log: seq<ProviderCall>, call: ProviderCall, model: string)
    ensures HasTripped(config, log + [call], model) <==> HasTripped(config, log, model) || Trips(config, log + [call], model)
  {
    hide Trips;
    var longer := log + [call];
    assert longer[..|longer|] == longer;
    assert forall n :: 0 <= n <= |log| ==> longer[..n] == log[..n];
    if HasTripped(config, log, model) {
      var n :| 0 <= n <= |log| && Trips(config, log[..n], model);
      assert Trips(config, longer[..n], model);
    }
  }

  lemma OutcomeReflects(config: Breakers.Config, b: Breakers.Breaker, log: seq<ProviderCall>, call: ProviderCall, now: int)
    requires Breakers.Counts(b) && Reflects(config, b, log, call.model)
    ensures Reflects(config, Breakers.Step(config, b, OutcomeEvent(call.answer, now)), log + [call], call.model)
  {
    hide HasTripped;
    TrippedStep(config, log, call, call.model);
    assert (log + [call])[..|log|] == log;
  }

  lemma OtherReflects(config: Breakers.Config, b: Breakers.Breaker, log: seq<ProviderCall>, call: ProviderCall, model: string)
    requires Reflects(config, b, log, model) && call.model != model
    ensures Reflects(config, b, log + [call], model)
  {
    hide HasTripped;
    TrippedStep(config, log, call, model);
    assert (log + [call])[..|log|] == log;
  }

  lemma ToldReflects(config: Breakers.Config, circuits: Circuits, log: seq<ProviderCall>, call: ProviderCall, now: int)
    requires AllCount(circuits) && AllReflect(config, circuits, log)
    ensures AllReflect(config, Told(config, circuits, call.model, OutcomeEvent(call.answer, now)), log + [call])
  {
    hide Reflects, OutcomeEvent;
    forall m | m in circuits
      ensures Reflects(config, Told(config, circuits, call.model, OutcomeEvent(call.answer, now))[m], log + [call], m)
    {
      if m == call.model {
        OutcomeReflects(config, circuits[m], log, call, now);
      } else {
        OtherReflects(config, circuits[m], log, call, m);
      }
    }
  }

  function OutcomeEvent(answer: Answer, now: int): Breakers.Event {
    if answer.Answered? then Breakers.Success(now) else Breakers.Failure(now)
  }

  /** The breaker of the model, if it has one, is not open. */
  predicate Available(circuits: Circuits, model: string) {
    model in circuits ==> circuits[model].state != Breakers.Open
  }

  /** A response that came without an error. */
  predicate Delivers(call: ProviderCall) {
    call.answer.Answered? && call.answer.response.Some?
  }

  /** No call from `start` on succeeded. */
  ghost predicate AllFailed(log: seq<ProviderCall>, start: nat) {
    forall i :: start <= i < |log| ==> log[i].answer.Fail?
  }

  /** A call from `start` on gave the response. */
  ghost predicate Answers(log: seq<ProviderCall>, start: nat, response: Option<Response>) {
    exists i :: start <= i < |log| && log[i].answer == Answered(response)
  }

  /** No call from `start` on delivered a response, unless it was the last of all. */
  ghost predicate NoneDelivers(log: seq<ProviderCall>, start: nat) {
    forall i :: start <= i < |log| ==> !Delivers(log[i])
  }

  ghost predicate OnlyLastDelivers(log: seq<ProviderCall>, start: nat) {
    forall i :: start <= i < |log| - 1 ==> !Delivers(log[i])
  }

  /** A call from `start` on went to the model. */
  ghost predicate Called(log: seq<ProviderCall>, start: nat, model: string) {
    exists i :: start <= i < |log| && log[i].model == model
  }

  /** The breakers of the models that were not called from `start` on are as they were. */
  ghost predicate OthersUntouched(before: Circuits, after: Circuits, log: seq<ProviderCall>, start: nat) {
    && after.Keys == before.Keys
    && forall m :: m in before && !Called(log, start, m) ==> after[m] == before[m]
  }

  /** Each of these models that was available has been called from `start` on. */
  ghost predicate AllCalled(models: set<string>, circuits: Circuits, log: seq<ProviderCall>, start: nat) {
    forall m :: m in models && Available(circuits, m) ==> Called(log, start, m)
  }

  /**
   The calls from `start` on come from going down the first `k` entries of the order: `picks` are the entries called,
   each a candidate that was available, and an available candidate is passed over only if it was called further up.
   */
  ghost predicate WentDown(log: seq<ProviderCall>, start: nat, order: seq<string>, picks: seq<nat>, k: nat,
                           candidates: set<string>, circuits: Circuits)
  {
    && k <= |order| && |log| == start + |picks|
    && (forall i :: 0 <= i < |picks| ==> picks[i] < k && log[start + i].model == order[picks[i]])
    && (forall i :: 0 <= i < |picks| ==> order[picks[i]] in candidates && Available(circuits, order[picks[i]]))
    && (forall i, j :: 0 <= i < j < |picks| ==> picks[i] < picks[j])
    && (forall j :: 0 <= j < k && order[j] in candidates && Available(circuits, order[j]) ==> PickedBy(order, picks, j))
  }

  /** The candidate in entry `j` has been called there or further up. */
  ghost predicate PickedBy(order: seq<string>, picks: seq<nat>, j: nat)
    requires j < |order| && forall i :: 0 <= i < |picks| ==> picks[i] < |order|
  {
    exists i :: 0 <= i < |picks| && picks[i] <= j && order[picks[i]] == order[j]
  }

  class Request {
    const taskType: string
    var model: string

    constructor (taskType: string, model: string)
      ensures this.taskType == taskType && this.model == model
    {
      this.taskType, this.model := taskType, model;
    }
  }

  class Router {
    const config: RouterConfig
    var providers: set<string>
    var circuits: Circuits
    var consecutiveFails: map<string, int>
    var consecutiveSuccesses: map<string, int>
    ghost var log: seq<ProviderCall>

    /** The breakers and the counters tell what the calls so far amount to. */
    ghost predicate Valid()
      reads this
    {
      && AllCount(circuits) && circuits.Keys == config.taskPreferences.Keys && AllReflect(config.breaker, circuits, log)
      && (forall m :: Count(consecutiveFails, m) == FailuresInARow(log, m))
      && (forall m :: Count(consecutiveSuccesses, m) == SuccessesInARow(log, m))
    }

    constructor (config: RouterConfig)
      ensures Valid() && this.config == config && providers == {} && log == []
      ensures circuits.Keys == config.taskPreferences.Keys && forall m :: IsModelAvailable(m)
    {
      var now := *;
      this.config := config;
      providers := {};
      circuits := map m | m in config.taskPreferences :: Breakers.NewBreaker(now);
      consecutiveFails, consecutiveSuccesses := map[], map[];
      log := [];
    }

    method RegisterProvider(name: string)
      modifies `providers
      ensures providers == old(providers) + {name}
    {
      providers := providers + {name};
    }

    predicate IsModelAvailable(model: string)
      reads this
    {
      Available(circuits, model)
    }

    /**
     The router only reports outcomes to its breakers, so a model with one is unavailable exactly when, after some call
     to it, its calls numbered at least the minimum and the failed share of them reached the threshold.
     */
    lemma UnavailableExactlyWhen(model: string)
      requires Valid()
      ensures !IsModelAvailable(model) <==>
                && model in config.taskPreferences
                && exists n :: 0 <= n <= |log| && Trips(config.breaker, log[..n], model)
    {
      assert model in circuits ==> Reflects(config.breaker, circuits[model], log, model);
    }

    // ----- one provider call -----

    method AnswerOf(model: string) returns (answer: Answer)
    {
      answer := *;
    }

    /** Calls a provider and hands the outcome to `handleSuccess` or `handleFailure`: its breaker is told of it once. */
    method Call(model: string) returns (answer: Answer, ghost now: int)
      requires Valid()
      modifies `circuits, `consecutiveFails, `consecutiveSuccesses, `log
      ensures Valid()
      ensures log == old(log) + [ProviderCall(model, answer)]
      ensures circuits == Told(config.breaker, old(circuits), model, OutcomeEvent(answer, now))
      ensures OthersUntouched(old(circuits), circuits, log, |old(log)|)
      ensures forall m :: !old(IsModelAvailable(m)) ==> !IsModelAvailable(m)
    {
      answer := AnswerOf(model);
      log := log + [ProviderCall(model, answer)];
      assert log[..|log| - 1] == old(log);
      if answer.Answered? {
        now := HandleSuccess(model);
      } else {
        now := HandleFailure(model);
      }
      ToldReflects(config.breaker, old(circuits), old(log), ProviderCall(model, answer), now);
      assert log[|old(log)|].model == model;
    }

    method HandleFailure(model: string) returns (ghost at: int)
      requires AllCount(circuits)
      modifies `circuits, `consecutiveFails, `consecutiveSuccesses
      ensures circuits == Told(config.breaker, old(circuits), model, Breakers.Failure(at))
      ensures forall m :: Count(consecutiveFails, m) == old(Count(consecutiveFails, m)) + if m == model then 1 else 0
      ensures forall m :: Count(consecutiveSuccesses, m) == if m == model then 0 else old(Count(consecutiveSuccesses, m))
    {
      var now := *;
      at := now;
      consecutiveFails := consecutiveFails[model := Count(consecutiveFails, model) + 1];
      consecutiveSuccesses := consecutiveSuccesses[model := 0];
      if model in circuits {
        circuits := circuits[model := Breakers.Step(config.breaker, circuits[model], Breakers.Failure(now))];
      }
    }

    method HandleSuccess(model: string) returns (ghost at: int)
      requires AllCount(circuits)
      modifies `circuits, `consecutiveFails, `consecutiveSuccesses
      ensures circuits == Told(config.breaker, old(circuits), model, Breakers.Success(at))
      ensures forall m :: Count(consecutiveSuccesses, m) == old(Count(consecutiveSuccesses, m)) + if m == model then 1 else 0
      ensures forall m :: Count(consecutiveFails, m) == if m == model then 0 else old(Count(consecutiveFails, m))
    {
      var now := *;
      at := now;
      consecutiveSuccesses := consecutiveSuccesses[model := Count(consecutiveSuccesses, model) + 1];
      if model in circuits {
        circuits := circuits[model := Breakers.Step(config.breaker, circuits[model], Breakers.Success(now))];
      }
      consecutiveFails := consecutiveFails[model := 0];
    }

    // ----- the retry loop -----

    /** Whether the context is seen to be done; a live context never is. */
    method ContextIsDone(live: bool) returns (done: bool)
      ensures live ==> !done
    {
      done := *;
      if live {
        done := false;
      }
    }

    /**
     `DoWithRetry` around one provider. Every attempt but the last failed with an error worth retrying; no error means
     the last attempt succeeded, unless no attempt was allowed at all. `dead` tells that the context was seen to be
     done before the first attempt. `waits` are the delays: attempt n+1 is followed by the delay for n, so that the
     first retry comes at once.
     */
    method CompleteWithRetry(live: bool, model: string)
      returns (err: Option<RouteError>, lastResp: Option<Response>, lastErr: Option<CallError>, ghost dead: bool, ghost waits: seq<int>)
      requires Valid()
      modifies `circuits, `consecutiveFails, `consecutiveSuccesses, `log
      ensures Valid()
      ensures forall m :: !old(IsModelAvailable(m)) ==> !IsModelAvailable(m)
      ensures old(log) <= log && |log| <= |old(log)| + NonNegative(config.retry.maxAttempts)
      ensures OthersUntouched(old(circuits), circuits, log, |old(log)|)
      ensures forall i :: |old(log)| <= i < |log| ==> log[i].model == model
      ensures forall i :: |old(log)| <= i < |log| - 1 ==> log[i].answer.Fail? && log[i].answer.error.retryable
      ensures config.retry.maxAttempts <= 0 ==> err == None && lastResp == None && lastErr == None && !dead
      ensures log == old(log) <==> config.retry.maxAttempts <= 0 || dead
      ensures dead ==> !live && err == Some(ContextDone)
      ensures config.retry.maxAttempts > 0 && err == None ==>
                |log| > |old(log)| && log[|log| - 1].answer == Answered(lastResp)
      ensures err.Some? ==> lastResp == None && forall i :: |old(log)| <= i < |log| ==> log[i].answer.Fail?
      ensures err.Some? ==> lastErr == if |log| > |old(log)| then Some(log[|log| - 1].answer.error) else None
      ensures err.Some? && live ==>
                && |log| > |old(log)|
                && err == Some(ProviderError(log[|log| - 1].answer.error))
                && (log[|log| - 1].answer.error.retryable ==> |log| - |old(log)| == config.retry.maxAttempts)
      ensures |log| - |old(log)| - 1 <= |waits| <= |log| - |old(log)|
      ensures forall i :: 0 <= i < |waits| ==> IsDelay(config.retry, i, waits[i])
    {
      hide IsDelay;
      err, lastResp, lastErr, dead, waits := None, None, None, false, [];
      var attempt := 0;
      while attempt < config.retry.maxAttempts
        invariant Valid()
        invariant forall m :: !old(IsModelAvailable(m)) ==> !IsModelAvailable(m)
        invariant old(log) <= log && |log| == |old(log)| + attempt
        invariant OthersUntouched(old(circuits), circuits, log, |old(log)|)
        invariant attempt <= NonNegative(config.retry.maxAttempts)
        invariant forall i :: |old(log)| <= i < |log| ==>
                    log[i].model == model && log[i].answer.Fail? && log[i].answer.error.retryable
        invariant err == None && lastResp == None && !dead
        invariant |waits| == attempt && forall i :: 0 <= i < |waits| ==> IsDelay(config.retry, i, waits[i])
        invariant lastErr == if attempt > 0 then Some(log[|log| - 1].answer.error) else None
        invariant config.retry.maxAttempts > 0 ==> attempt < config.retry.maxAttempts
      {
        var done := ContextIsDone(live);
        if done {
          dead := attempt == 0;
          err := Some(ContextDone);
          return;
        }
        ghost var before, tried := circuits, log;
        var answer, _ := Call(model);
        UntouchedChains(old(circuits), before, circuits, tried, log, |old(log)|);
        match answer {
          case Answered(response) =>
            lastResp := response;
            return;
          case Fail(error) =>
            lastErr := Some(error);
            if !ShouldRetry(config.retry, attempt + 1, error) {
              err := Some(ProviderError(error));
              return;
            }
        }
        var draw: real := *;
        var delay := NextDelay(config.retry, attempt, draw);
        DelayIsDelay(config.retry, attempt, draw);
        waits := waits + [delay];
        if delay > 0 {
          done := ContextIsDone(live);
          if done {
            err := Some(ContextDone);
            return;
          }
        }
        attempt := attempt + 1;
      }
    }

    // ----- fallback and upgrade -----

    /** The models that may stand in for a failed one. */
    function StandIns(failedModel: string): set<string>
      reads `providers
    {
      set m | m in providers && m != failedModel && (config.fallbackOrder == [] || m in config.fallbackOrder)
    }

    /** The configured order, or else the other providers, each once, in any order. */
    ghost predicate IsFallbackOrder(order: seq<string>, failedModel: string)
      reads `providers
    {
      if config.fallbackOrder != [] then order == config.fallbackOrder
      else Distinct(order) && forall m :: m in order <==> m in providers && m != failedModel
    }

    method FallbackOrder(failedModel: string) returns (order: seq<string>)
      ensures IsFallbackOrder(order, failedModel)
      ensures |order| <= FallbackCandidates(failedModel)
    {
      if |config.fallbackOrder| > 0 {
        return config.fallbackOrder;
      }
      order := [];
      var rest := providers;
      while rest != {}
        invariant rest <= providers
        invariant Distinct(order) && forall m :: m in order <==> m in providers - rest && m != failedModel
        decreases rest
      {
        var m :| m in rest;
        if m != failedModel {
          assert m !in order;
          order := order + [m];
        }
        rest := rest - {m};
      }
      DistinctIsShort(order, providers - {failedModel});
    }

    function FallbackCandidates(failedModel: string): nat
      reads `providers
    {
      if |config.fallbackOrder| > 0 then |config.fallbackOrder| else |providers - {failedModel}|
    }

    /** Goes down the order, through its first `k` entries, until a candidate answers without an error. */
    method TryFallback(failedModel: string)
      returns (resp: Option<Response>, ghost order: seq<string>, ghost picks: seq<nat>, ghost k: nat)
      requires Valid()
      modifies `circuits, `consecutiveFails, `consecutiveSuccesses, `log
      ensures Valid()
      ensures forall m :: !old(IsModelAvailable(m)) ==> !IsModelAvailable(m)
      ensures OthersUntouched(old(circuits), circuits, log, |old(log)|)
      ensures old(log) <= log && |log| <= |old(log)| + FallbackCandidates(failedModel)
      ensures IsFallbackOrder(order, failedModel)
      ensures WentDown(log, |old(log)|, order, picks, k, StandIns(failedModel), old(circuits))
      ensures forall i :: |old(log)| <= i < |log| - 1 ==> log[i].answer.Fail?
      ensures if AllFailed(log, |old(log)|) then resp == None && k == |order|
              else picks != [] && k == picks[|picks| - 1] + 1 && log[|log| - 1].answer == Answered(resp)
      ensures AllFailed(log, |old(log)|) ==> AllCalled(StandIns(failedModel), old(circuits), log, |old(log)|)
    {
      hide Valid, OthersUntouched, WentDown, AllCalled, IsFallbackOrder, Available, Called;
      var candidates := FallbackOrder(failedModel);
      order, picks, k := candidates, [], 0;
      WentNowhere(log, order, StandIns(failedModel), circuits);
      UntouchedYet(circuits, log);
      for next := 0 to |candidates|
        invariant Valid()
        invariant forall m :: !old(IsModelAvailable(m)) ==> !IsModelAvailable(m)
        invariant OthersUntouched(old(circuits), circuits, log, |old(log)|)
        invariant old(log) <= log && |log| <= |old(log)| + next
        invariant WentDown(log, |old(log)|, order, picks, next, StandIns(failedModel), old(circuits))
        invariant AllFailed(log, |old(log)|)
      {
        var candidate := candidates[next];
        if candidate == failedModel || !IsModelAvailable(candidate) || candidate !in providers {
          PassOver(log, |old(log)|, order, picks, next, StandIns(failedModel), old(circuits), circuits);
          continue;
        }
        ghost var before, tried := circuits, log;
        CandidateIsStandIn(order, failedModel, next);
        var answer, _ := Call(candidate);
        UntouchedChains(old(circuits), before, circuits, tried, log, |old(log)|);
        CallNext(tried, log[|tried|], |old(log)|, order, picks, next, StandIns(failedModel), old(circuits));
        picks := picks + [next];
        if answer.Answered? {
          assert log[|log| - 1].answer.Answered?;
          return answer.response, order, picks, next + 1;
        }
      }
      EveryStandInListed(order, failedModel);
      ThroughCallsAll(log, |old(log)|, order, picks, StandIns(failedModel), old(circuits));
      return None, order, picks, |candidates|;
    }

    lemma CandidateIsStandIn(order: seq<string>, failedModel: string, i: nat)
      requires IsFallbackOrder(order, failedModel) && i < |order|
      ensures order[i] in StandIns(failedModel) <==> order[i] in providers && order[i] != failedModel
    {
    }

    lemma EveryStandInListed(order: seq<string>, failedModel: string)
      requires IsFallbackOrder(order, failedModel)
      ensures forall m :: m in StandIns(failedModel) ==> m in order
    {
    }

    method TryUpgrade(current: string) returns (next: string)
      requires Valid()
      ensures next == if UpgradeModel(current) != current && IsModelAvailable(UpgradeModel(current))
                         && FailuresInARow(log, current) >= 3
                      then UpgradeModel(current) else current
    {
      var upgraded := UpgradeModel(current);
      if upgraded == current {
        return current;
      }
      if !IsModelAvailable(upgraded) {
        return current;
      }
      var fails := Count(consecutiveFails, current);
      if fails >= 3 {
        return upgraded;
      }
      return current;
    }

    // ----- choosing a model -----

    predicate Prefers(model: string, taskType: string) {
      model in config.taskPreferences && taskType in config.taskPreferences[model]
    }

    /** An available model that prefers this kind of task, if there is one, else the primary provider. */
    method SelectByTaskType(taskType: string) returns (model: string)
      ensures (IsModelAvailable(model) && Prefers(model, taskType)) ||
              (model == config.primaryProvider && forall m :: Prefers(m, taskType) ==> !IsModelAvailable(m))
    {
      var rest := config.taskPreferences.Keys;
      while rest != {}
        invariant rest <= config.taskPreferences.Keys
        invariant forall m :: m in config.taskPreferences.Keys - rest && Prefers(m, taskType) ==> !IsModelAvailable(m)
        decreases rest
      {
        var m :| m in rest;
        rest := rest - {m};
        if IsModelAvailable(m) && taskType in config.taskPreferences[m] {
          return m;
        }
      }
      return config.primaryProvider;
    }

    method FindAlternativeModel(unavailable: string) returns (model: string)
      ensures model == "" || (model in providers && model != unavailable && IsModelAvailable(model))
      ensures model == "" && "" !in providers ==> forall m :: m in providers && m != unavailable ==> !IsModelAvailable(m)
    {
      var rest := providers;
      while rest != {}
        invariant rest <= providers
        invariant forall m :: m in providers - rest && m != unavailable ==> !IsModelAvailable(m)
        decreases rest
      {
        var m :| m in rest;
        rest := rest - {m};
        if m != unavailable && IsModelAvailable(m) {
          return m;
        }
      }
      return "";
    }

    // ----- the whole request -----

    /** 0 when the requested model is used as it is and no upgrade leads away from it, else 1. */
    function UpgradesLeft(req: Request): nat
      reads this, req
    {
      if req.model != "" && IsModelAvailable(req.model) && UpgradeModel(req.model) == req.model then 0 else 1
    }

    /** The most provider calls one pass can make. */
    function CallsPerPass(): nat
      reads `providers
    {
      NonNegative(config.retry.maxAttempts) +
      if |config.fallbackOrder| > 0 then |config.fallbackOrder| else NonNegative(|providers| - 1)
    }

    /** The requested model if it can be used, else one for the task; an open circuit is swapped for any closed one. */
    ghost predicate MayPick(req: Request, model: string)
      reads this, req
    {
      && (req.model != "" && IsModelAvailable(req.model) ==> model == req.model)
      && (req.model == "" || !IsModelAvailable(req.model) ==>
            || (IsModelAvailable(model) && Prefers(model, req.taskType))
            || ((forall m :: Prefers(m, req.taskType) ==> !IsModelAvailable(m))
                && (model == config.primaryProvider || (!IsModelAvailable(config.primaryProvider) && IsModelAvailable(model)))))
      && (model in providers && !IsModelAvailable(model) && "" !in providers ==>
            model == config.primaryProvider && forall m :: m in providers ==> !IsModelAvailable(m))
    }

    method PickModel(req: Request) returns (model: string)
      ensures MayPick(req, model)
      ensures req.model != "" && IsModelAvailable(req.model) ==> model == req.model
    {
      model := req.model;
      if model == "" || !IsModelAvailable(model) {
        model := SelectByTaskType(req.taskType);
      }
      if model !in providers {
        return;
      }
      if !IsModelAvailable(model) {
        var alternative := FindAlternativeModel(model);
        if alternative != "" {
          model := alternative;
        }
      }
    }

    /** One pass over the request: `own` attempts with the model, then, if they all failed, the fallbacks. */
    method CompleteOnce(live: bool, model: string)
      returns (resp: Option<Response>, failed: bool, lastErr: Option<CallError>,
               ghost dead: bool, ghost own: nat, ghost order: seq<string>, ghost picks: seq<nat>, ghost k: nat)
      requires Valid() && model in providers
      modifies `circuits, `consecutiveFails, `consecutiveSuccesses, `log
      ensures Valid()
      ensures forall m :: !old(IsModelAvailable(m)) ==> !IsModelAvailable(m)
      ensures OthersUntouched(old(circuits), circuits, log, |old(log)|)
      ensures old(log) <= log && |log| - |old(log)| <= CallsPerPass()
      ensures |old(log)| + own <= |log| && own <= NonNegative(config.retry.maxAttempts)
      ensures forall i :: |old(log)| <= i < |old(log)| + own ==> log[i].model == model
      ensures own == 0 <==> config.retry.maxAttempts <= 0 || dead
      ensures WentDown(log, |old(log)| + own, order, picks, k, StandIns(model), old(circuits))
      ensures picks != [] ==> IsFallbackOrder(order, model)
      ensures forall i :: |old(log)| <= i < |log| - 1 ==> log[i].answer.Fail?
      ensures AllFailed(log, |old(log)|) && config.retry.maxAttempts > 0 ==>
                failed && AllCalled(StandIns(model), old(circuits), log, |old(log)|)
      ensures resp.Some? || (live && config.retry.maxAttempts >= 1 && !failed) ==>
                !failed && Answers(log, |old(log)|, resp)
      ensures OnlyLastDelivers(log, |old(log)|) && (failed ==> NoneDelivers(log, |old(log)|))
      ensures dead ==> !live && config.retry.maxAttempts > 0
      ensures failed ==> (lastErr == None <==> dead)
      ensures config.retry.maxAttempts <= 0 ==> log == old(log) && !failed && resp == None
    {
      hide Valid, OthersUntouched, WentDown, AllCalled, IsFallbackOrder, Available, Called;
      var failure;
      ghost var waits;
      failure, resp, lastErr, dead, waits := CompleteWithRetry(live, model);
      own, order, picks, k := |log| - |old(log)|, [], [], 0;
      if failure == None {
        if resp.Some? || config.retry.maxAttempts >= 1 {
          assert log[|log| - 1].answer == Answered(resp);
        }
        WentNowhere(log, [], StandIns(model), old(circuits));
        return resp, false, lastErr, dead, own, order, picks, k;
      }
      ghost var tried, between := log, circuits;
      OthersStayAvailable(old(circuits), between, tried, |old(log)|, model);
      resp, order, picks, k := TryFallback(model);
      WithoutOne(providers, model);
      UntouchedChains(old(circuits), between, circuits, tried, log, |old(log)|);
      WentDownSame(log, |tried|, order, picks, k, StandIns(model), between, old(circuits));
      if AllFailed(log, |tried|) {
        CalledChains(StandIns(model), old(circuits), between, tried, log, |old(log)|);
      }
      assert forall i :: |old(log)| <= i < |tried| ==> log[i] == tried[i];
      failed := resp == None;
      if resp.Some? {
        assert log[|log| - 1].answer == Answered(resp);
      }
    }

    /**
     Routes one request. It goes round at most twice, with the models `first` and `last`; with a live context and at
     least one attempt allowed, no error means the response of a successful call, and an error means that no call of
     this request delivered one. When every call failed and there was a provider, every model that may stand in for
     the last one has been called, and the error is nil all the same exactly when no attempt is allowed or the context
     was seen to be done before the first attempt of the last round (`dead`).
     */
    method Complete(live: bool, req: Request)
      returns (resp: Option<Response>, err: Option<RouteError>, ghost dead: bool, ghost first: string, ghost last: string)
      requires Valid()
      modifies `circuits, `consecutiveFails, `consecutiveSuccesses, `log, req
      ensures Valid()
      ensures forall m :: !old(IsModelAvailable(m)) ==> !IsModelAvailable(m)
      ensures OthersUntouched(old(circuits), circuits, log, |old(log)|)
      ensures old(log) <= log && |log| - |old(log)| <= if old(UpgradesLeft(req)) == 0 then CallsPerPass() else 2 * CallsPerPass()
      ensures old(MayPick(req, first))
      ensures old(req.model) != "" && old(IsModelAvailable(req.model)) ==> first == old(req.model)
      ensures if last == first then req.model == old(req.model)
              else config.enableAdaptiveRouting && last == UpgradeModel(first) == req.model
                   && exists n :: |old(log)| <= n <= |log| && FailuresInARow(log[..n], first) >= 3
      ensures last !in providers <==> err == Some(NoProvider(last))
      ensures err.Some? && err.value.NoProvider? ==> err.value.model == last
      ensures first in providers && live && config.retry.maxAttempts > 0 ==> |log| > |old(log)| && log[|old(log)|].model == first
      ensures live && config.retry.maxAttempts >= 1 && err == None ==>
                Answers(log, |old(log)|, resp)
      ensures resp.Some? ==> err == None && Answers(log, |old(log)|, resp)
      ensures err.Some? ==> NoneDelivers(log, |old(log)|)
      ensures OnlyLastDelivers(log, |old(log)|)
      ensures dead ==> !live && config.retry.maxAttempts > 0
      ensures AllFailed(log, |old(log)|) && last in providers ==>
                resp == None && (err == None <==> config.retry.maxAttempts <= 0 || dead)
      ensures AllFailed(log, |old(log)|) && last in providers && config.retry.maxAttempts > 0 ==>
                && (dead || Called(log, |old(log)|, last))
                && AllCalled(StandIns(last), old(circuits), log, |old(log)|)
                && (config.enableAdaptiveRouting && UpgradeModel(last) != last && IsModelAvailable(UpgradeModel(last)) ==>
                      FailuresInARow(log, last) < 3)
      ensures config.retry.maxAttempts <= 0 ==> log == old(log) && resp == None && (err == None || err.value.NoProvider?)
      decreases UpgradesLeft(req)
    {
      hide Valid, UpgradeModel, MayPick, Answers, NoneDelivers, OnlyLastDelivers, AllFailed, Called, OthersUntouched;
      hide WentDown, AllCalled, IsFallbackOrder, Available, FailuresInARow, CallsPerPass, StandIns;
      var model := PickModel(req);
      first, last := model, model;
      UntouchedYet(circuits, log);
      NoCalls(log);
      if model !in providers {
        return None, Some(NoProvider(model)), false, first, last;
      }
      var failed, lastErr;
      ghost var own, order, picks, k;
      resp, failed, lastErr, dead, own, order, picks, k := CompleteOnce(live, model);
      if !failed {
        return resp, None, dead, first, last;
      }
      ghost var tried, between := log, circuits;
      UpgradeIsFixed(model);
      OwnIsCalled(log, |old(log)|, model, own);
      if config.enableAdaptiveRouting {
        var upgraded := TryUpgrade(model);
        if upgraded != model && upgraded != "" {
          req.model := upgraded;
          ghost var second;
          resp, err, dead, second, last := Complete(live, req);
          UntouchedChains(old(circuits), between, circuits, tried, log, |old(log)|);
          TwoRounds(tried, log, |old(log)|, resp);
          assert log[..|tried|] == tried;
          if AllFailed(log, |tried|) && last in providers && config.retry.maxAttempts > 0 {
            CalledChains(StandIns(last), old(circuits), between, tried, log, |old(log)|);
          }
          return;
        }
      }
      return None, (match lastErr case None => None case Some(error) => Some(ProviderError(error))), dead, first, last;
    }
  }

  lemma UntouchedChains(first: Circuits, second: Circuits, third: Circuits,
                        log: seq<ProviderCall>, longer: seq<ProviderCall>, start: nat)
    requires start <= |log| && log <= longer
    requires OthersUntouched(first, second, log, start) && OthersUntouched(second, third, longer, |log|)
    ensures OthersUntouched(first, third, longer, start)
  {
    forall m | m in first && !Called(longer, start, m)
      ensures third[m] == first[m]
    {
      assert forall i :: start <= i < |log| ==> longer[i] == log[i];
      assert !Called(log, start, m) && !Called(longer, |log|, m);
    }
  }

  lemma TwoRounds(log: seq<ProviderCall>, longer: seq<ProviderCall>, start: nat, response: Option<Response>)
    requires start <= |log| && log <= longer
    ensures Answers(longer, |log|, response) ==> Answers(longer, start, response)
    ensures NoneDelivers(log, start) && NoneDelivers(longer, |log|) ==> NoneDelivers(longer, start)
    ensures NoneDelivers(log, start) && OnlyLastDelivers(longer, |log|) ==> OnlyLastDelivers(longer, start)
    ensures AllFailed(longer, start) ==> AllFailed(longer, |log|)
    ensures forall m :: Called(longer, |log|, m) ==> Called(longer, start, m)
  {
    assert forall i :: start <= i < |log| ==> longer[i] == log[i];
  }

  lemma OwnIsCalled(log: seq<ProviderCall>, start: nat, model: string, own: nat)
    requires start + own <= |log| && forall i :: start <= i < start + own ==> log[i].model == model
    ensures own > 0 ==> log[start].model == model && Called(log, start, model)
  {
  }

  lemma NoCalls(log: seq<ProviderCall>)
    ensures NoneDelivers(log, |log|) && OnlyLastDelivers(log, |log|)
  {
  }

  lemma UntouchedYet(circuits: Circuits, log: seq<ProviderCall>)
    ensures OthersUntouched(circuits, circuits, log, |log|)
  {
  }

  lemma WentNowhere(log: seq<ProviderCall>, order: seq<string>, candidates: set<string>, circuits: Circuits)
    ensures WentDown(log, |log|, order, [], 0, candidates, circuits)
  {
  }

  /** An entry is passed over if it is no candidate or not available now; then it was not available before or has been called. */
  lemma PassOver(log: seq<ProviderCall>, start: nat, order: seq<string>, picks: seq<nat>, k: nat,
                 candidates: set<string>, before: Circuits, now: Circuits)
    requires k < |order| && WentDown(log, start, order, picks, k, candidates, before)
    requires OthersUntouched(before, now, log, start)
    requires order[k] !in candidates || !Available(now, order[k])
    ensures WentDown(log, start, order, picks, k + 1, candidates, before)
  {
    hide Available, PickedBy;
    if order[k] in candidates && Available(before, order[k]) {
      UncalledIsAvailable(before, now, log, start, order[k]);
      CalledIsPicked(log, start, order, picks, k);
    }
  }

  lemma UncalledIsAvailable(before: Circuits, now: Circuits, log: seq<ProviderCall>, start: nat, model: string)
    requires OthersUntouched(before, now, log, start) && Available(before, model)
    ensures Called(log, start, model) || Available(now, model)
  {
  }

  lemma CalledIsPicked(log: seq<ProviderCall>, start: nat, order: seq<string>, picks: seq<nat>, k: nat)
    requires k < |order| && |log| == start + |picks| && Called(log, start, order[k])
    requires forall i :: 0 <= i < |picks| ==> picks[i] < k && log[start + i].model == order[picks[i]]
    ensures PickedBy(order, picks, k)
  {
    var i :| start <= i < |log| && log[i].model == order[k];
    assert log[start + (i - start)].model == order[picks[i - start]];
  }

  lemma PickedIsCalled(log: seq<ProviderCall>, start: nat, order: seq<string>, picks: seq<nat>, j: nat)
    requires j < |order| && |log| == start + |picks|
    requires forall i :: 0 <= i < |picks| ==> picks[i] < |order| && log[start + i].model == order[picks[i]]
    requires PickedBy(order, picks, j)
    ensures Called(log, start, order[j])
  {
    var i :| 0 <= i < |picks| && picks[i] <= j && order[picks[i]] == order[j];
    assert log[start + i].model == order[j];
  }

  lemma CallNext(log: seq<ProviderCall>, call: ProviderCall, start: nat, order: seq<string>, picks: seq<nat>, k: nat,
                 candidates: set<string>, circuits: Circuits)
    requires k < |order| && WentDown(log, start, order, picks, k, candidates, circuits)
    requires call.model == order[k] && order[k] in candidates && Available(circuits, order[k])
    ensures WentDown(log + [call], start, order, picks + [k], k + 1, candidates, circuits)
  {
    hide Available, PickedBy;
    var more, longer := picks + [k], log + [call];
    assert forall i :: 0 <= i < |more| ==> more[i] == if i < |picks| then picks[i] else k;
    forall i | 0 <= i < |more|
      ensures longer[start + i].model == order[more[i]]
    {
      assert i < |picks| ==> longer[start + i] == log[start + i];
    }
    PickMore(order, picks, k);
  }

  lemma PickMore(order: seq<string>, picks: seq<nat>, k: nat)
    requires k < |order| && forall i :: 0 <= i < |picks| ==> picks[i] < |order|
    ensures PickedBy(order, picks + [k], k)
    ensures forall j :: 0 <= j < |order| && PickedBy(order, picks, j) ==> PickedBy(order, picks + [k], j)
  {
    assert (picks + [k])[|picks|] == k;
    forall j | 0 <= j < |order| && PickedBy(order, picks, j)
      ensures PickedBy(order, picks + [k], j)
    {
      var i :| 0 <= i < |picks| && picks[i] <= j && order[picks[i]] == order[j];
      assert (picks + [k])[i] == picks[i];
    }
  }

  lemma ThroughCallsAll(log: seq<ProviderCall>, start: nat, order: seq<string>, picks: seq<nat>,
                        candidates: set<string>, circuits: Circuits)
    requires WentDown(log, start, order, picks, |order|, candidates, circuits)
    requires forall m :: m in candidates ==> m in order
    ensures AllCalled(candidates, circuits, log, start)
  {
    hide Available, PickedBy, Called;
    forall m | m in candidates && Available(circuits, m)
      ensures Called(log, start, m)
    {
      var j :| 0 <= j < |order| && order[j] == m;
      PickedIsCalled(log, start, order, picks, j);
    }
  }

  lemma WentDownSame(log: seq<ProviderCall>, start: nat, order: seq<string>, picks: seq<nat>, k: nat,
                     candidates: set<string>, circuits: Circuits, others: Circuits)
    requires WentDown(log, start, order, picks, k, candidates, circuits)
    requires forall m :: m in candidates ==> (Available(circuits, m) <==> Available(others, m))
    ensures WentDown(log, start, order, picks, k, candidates, others)
  {
    hide Available, PickedBy;
  }

  /** A model that was available first and not called in between is still available then. */
  lemma CalledChains(models: set<string>, before: Circuits, between: Circuits,
                     log: seq<ProviderCall>, longer: seq<ProviderCall>, start: nat)
    requires start <= |log| && log <= longer && OthersUntouched(before, between, log, start)
    requires AllCalled(models, between, longer, |log|)
    ensures AllCalled(models, before, longer, start)
  {
    forall m | m in models && Available(before, m)
      ensures Called(longer, start, m)
    {
      UncalledIsAvailable(before, between, log, start, m);
      if Called(log, start, m) {
        var i :| start <= i < |log| && log[i].model == m;
        assert longer[i].model == m;
      }
    }
  }

  lemma OthersStayAvailable(before: Circuits, after: Circuits, log: seq<ProviderCall>, start: nat, model: string)
    requires OthersUntouched(before, after, log, start) && forall i :: start <= i < |log| ==> log[i].model == model
    ensures forall m :: m != model ==> (Available(before, m) <==> Available(after, m))
  {
  }

  lemma WithoutOne(s: set<string>, x: string)
    requires x in s
    ensures |s - {x}| == |s| - 1
  {
  }
}
