# Cloud agent platform: verified models

A Dafny model of the platform's in-process algorithms, and proofs about them for all inputs and all runs.
`dafny verify dfyconfig.toml` checks the whole project.

| files | what they model |
|---|---|
| DependencyGraph, ExecutionOrder, Priorities, Decompose (with StringOrder, Sequences) | task decomposition: dependency analysis, Kahn's algorithm with a sorted queue, recursive priorities |
| Template (with Text) | the string-rewriting prompt renderer, against an evaluator of template trees |
| CircuitBreaker, RateLimit, Retry, Router, ProviderStats | the LLM router: breaker protocol, token buckets, backoff, adaptive routing, running averages |
| Scheduler | the cold-start container scheduler, as an object and as a system of interleaved steps |
| Guardian, Approvals | approval requests: the object, and its calls and sweeps interleaved |
| StateMachine, Entity, Events | the generic state machine, the Task and Subtask life cycles, domain events and idempotency keys |
| Diff | the positional line diff of the git client |

Code that updates fields is a class whose methods state the whole new state; loops are loops. Each such
method is tied to a specification function, and the laws are lemmas about that function, over runs given
as sequences of events. Systems in which a lock is dropped between steps (Scheduler, Approvals) are state
machines on values whose steps are the critical sections and the calls between them, in any order.
Clock readings, backend and provider answers, jitter draws and the order in which a map is ranged over are
arbitrary inputs. Floating-point quantities are exact reals. `hide` statements only withhold definitions
that a proof does not use.

Where code and comments of the repository disagree, the model follows the code:

- `internal/orchestrator/decompose.go:454-455` says that subtasks without dependencies get the highest
  priority. The in-degree counts dependents, so 9 goes to the subtasks nothing depends on.
- `plugins/llmrouter/retry.go:100` says that `powF` computes base^exp. For a base above one it does exactly when
  exp + 1 is a power of two.
- `internal/orchestrator/decompose.go:561-562` speaks of cycles only. The fallback is also taken for a dependency
  outside the list.
- `internal/guardian/guardian.go:175-181` suggests that the `select` also copes with a closed channel. A send
  on a closed channel panics there as well; what prevents it is that each request is taken from the map once.
- The probe that moves a breaker to half-open (`plugins/llmrouter/circuitbreaker.go:83-84`) is not counted, so
  an episode admits one request more than configured.
- The comments of `plugins/llmrouter/circuitbreaker.go:70-99` describe recovery through `Allow`, but the router only
  reads the state and reports outcomes (`plugins/llmrouter/router.go:458-485`): a model whose breaker has opened stays
  unavailable to it.
- Without any successful call `Complete` can return a nil response with a nil error, in two ways. With `MaxAttempts` at most zero, `DoWithRetry`
  (`plugins/llmrouter/retry.go:115-148`) returns a nil error without calling anything. And when the context is already
  done before the first attempt, `DoWithRetry` returns its error with nothing recorded, so that after failed fallbacks
  `plugins/llmrouter/router.go:364` returns the nil `lastErr`.

Laws of the design that the code does not meet are stated with an input on which they fail and, for all inputs, the
condition under which they hold:

- the renderer's result depends on map order exactly when a value can hold or complete the token of another variable,
  a turn panics exactly on an unclosed opening, and the block loop, which need not end, does end on printed templates
  and whenever no value holds more than two opening braces (Template);
- a request is never answered exactly when its task asks again while it is pending, and a sweep times out a request
  that was not due at its reading exactly when the task asked again after that (Approvals);
- an error of an action leaves the machine as it was exactly when the actions before it did (StateMachine);
- a raw subtask run visits the statuses of a task run exactly when it meets neither of two events (Entity);
- a printed diff determines the change exactly when no empty line at the end of the shorter side could come or go
  unseen; taking the lines by their marks gives back both sides exactly when no side has an empty line beyond the end
  of the other, and no change is shown exactly when the sides are equal up to empty lines at the end (Diff);
- an idle cleanup destroys a container that is no longer idle exactly when it was used after the cleanup began (Scheduler);
- racing calls of Acquire exceed the container limit by up to one less than their number, and that is reached (Scheduler);
- the execution order is a permutation of the ids exactly when the sort is given up for the list or reaches no key
  outside the list; without cycles and dangling dependencies, when only listed ids have dependencies (ExecutionOrder).

## Model

| member | source | states |
|---|---|---|
| ExecutionOrder.ComputeExecutionOrder | internal/orchestrator/decompose.go:515-571 | when only listed ids have dependencies the order is a permutation of the ids: the lexicographically least topological order if there is no cycle and no dependency outside the list, otherwise the list order; on any graph the order holds exactly what can be put into an order with dependencies first, keys outside the list included, or is the list when that is less than the ids, so that it is a permutation of them exactly when less is grounded or nothing outside the list is |
| ExecutionOrder.SortedIsGrounded | internal/orchestrator/decompose.go:529-559 | the sort yields exactly what some list holds in which each entry comes after its dependencies |
| ExecutionOrder.AcyclicGroundsAll | internal/orchestrator/decompose.go:561-571 | without cycle and dangling dependency the order is a permutation of the ids exactly when only listed ids have dependencies |
| ExecutionOrder.StrangerIsGrounded | internal/orchestrator/decompose.go:529-559 | an input on which it is not: a key outside the list that depends on a listed id |
| ExecutionOrder.Outcome | internal/orchestrator/decompose.go:539-568 | the test for a short result succeeds exactly when there is a cycle or a dependency outside the list; a full result is least and a permutation |
| ExecutionOrder.TakeNext | internal/orchestrator/decompose.go:541-558 | one turn takes the least ready id and leaves queue and in-degrees describing what is ready next, repeated dependency entries included |
| ExecutionOrder.BuildAdjacency | internal/orchestrator/decompose.go:520-534 | in whatever order the graph is visited, edges and in-degrees count the dependency entries |
| ExecutionOrder.Relax | internal/orchestrator/decompose.go:552-557 | consuming the edges of one id lowers each in-degree by the number of its entries and queues exactly the ids that reach zero, once |
| ExecutionOrder.InitialQueue | internal/orchestrator/decompose.go:537-542 | the queue starts with exactly the listed ids of in-degree zero, each once |
| ExecutionOrder.StepKeepsState | internal/orchestrator/decompose.go:543-559 | taking an id and releasing its neighbours keeps the invariant of the main loop |
| DependencyGraph.GreedyIsLeast | internal/orchestrator/decompose.go:543-559 | no topological order precedes the one that always takes the least ready id |
| DependencyGraph.LeastTopologicalIsUnique | internal/orchestrator/decompose.go:529-559 | the least order depends on the sets of ids and dependencies only, not on map order, list order or repetition |
| DependencyGraph.StuckHasCycle | internal/orchestrator/decompose.go:561-564 | when nothing is ready and an id is left, there is a cycle |
| DependencyGraph.TopologicalHasNoCycle | internal/orchestrator/decompose.go:561-564 | a graph with a topological order has no cycle |
| StringOrder.Sort | internal/orchestrator/decompose.go:547-547 | the queue sort: an ascending permutation under the byte-wise order of Go strings |
| StringOrder.LessExactlyWhen | internal/orchestrator/decompose.go:547-547 | that order: a proper beginning comes first, else the smaller character at the first difference |
| Decompose.DecomposeTask | internal/orchestrator/decompose.go:112-125 | truncate, analyse, order: the fallback is never taken, the execution order is the least one respecting every dependency, dependencies are exactly the earlier retained subtasks of a feeding kind, and priority 9 marks exactly the subtasks that feed no later one |
| Decompose.AnalyzeDependencies | internal/orchestrator/decompose.go:399-439 | the graph lists for each subtask the earlier subtasks of a feeding kind, in list order |
| Decompose.DependencyMeans | internal/orchestrator/decompose.go:407-432 | a dependency is exactly an earlier subtask whose kind feeds into this one's |
| Decompose.WaitsFor | internal/orchestrator/decompose.go:407-432 | research and analysis wait for nothing, coding for both of them, a review for coding only, testing for research, analysis and coding |
| Decompose.FeedingIsLayered | internal/orchestrator/decompose.go:407-432 | feeding has no cycle among the kinds and at most two layers, the middle one coding; it carries over two layers except to a review |
| Decompose.ListRespectsDependencies | internal/orchestrator/decompose.go:407-432 | so the list itself is a topological order and there is no cycle |
| Decompose.LinkPair | internal/orchestrator/decompose.go:412-430 | the three rules, tried in turn, add the earlier subtask exactly when its kind feeds into the later one's |
| Decompose.LinkEarlier | internal/orchestrator/decompose.go:407-432 | the inner loop makes one more entry final and leaves the others alone |
| Decompose.UniqueStrings | internal/orchestrator/decompose.go:442-452 | keeps the first occurrence of each string, in order |
| Decompose.FirstOccurrencesIs | internal/orchestrator/decompose.go:442-452 | the result has no repetition and the same elements, and a list without repetition comes back unchanged |
| Decompose.RemoveDuplicates | internal/orchestrator/decompose.go:434-437 | on a graph the analysis built, deduplication in any map order changes nothing |
| Decompose.DependedOnFeedsLater | internal/orchestrator/decompose.go:407-432 | a subtask something depends on feeds into a later one |
| Decompose.FeedsLaterDependedOn | internal/orchestrator/decompose.go:407-432 | and conversely |
| Priorities.AssignPriorities | internal/orchestrator/decompose.go:456-512 | on every graph, cyclic ones included, it ends with one priority per subtask: 9 exactly for those nothing depends on, otherwise 1 to 4; 4 exactly where a visit restarts, and below 4 one less than that of a dependency of its own, but at least 1 |
| Priorities.AssignLevel | internal/orchestrator/decompose.go:475-495 | one visit ends, keeps what was there, gives the level's priority, and reaches everything that depends on what it reached |
| Priorities.VisitIfDependent | internal/orchestrator/decompose.go:489-494 | the inner loop visits a subtask that lists the id among its dependencies, however often |
| Priorities.CountDependents | internal/orchestrator/decompose.go:459-468 | the in-degree of this function is zero exactly when no subtask depends on the id |
| Priorities.NestedVisit | internal/orchestrator/decompose.go:475-495 | a nested visit extends the enclosing one: new subtasks depend on its root and follow a dependency by one step |
| Priorities.DependentsReached | internal/orchestrator/decompose.go:488-494 | a set closed under dependents holds everything that depends on a member through any chain |
| Template.RenderString | plugins/llmrouter/template.go:187-243 | on a printed template the result is the template's value for every order of the variable map: without blocks whenever the order never matters, with blocks for values that complete no token or opening; on any input whose loop ends it is the residue of the loop with the variables replaced in some order, or the slice panic |
| Template.PrintedTemplateHalts | plugins/llmrouter/template.go:198-235 | on every printed template the block loop ends, with the printed expansion |
| Template.TurnExpandsBlock | plugins/llmrouter/template.go:198-235 | one turn rewrites exactly the first block: kept with its own key replaced when the key is set and non-empty, else removed |
| Template.TurnsExpand | plugins/llmrouter/template.go:198-235 | as many turns as there are blocks expand the whole template |
| Template.RenderIsEval | plugins/llmrouter/template.go:237-240 | replacing the variables in any order turns the residue of a template with blocks into its value |
| Template.OrderNeverMattersExactlyWhen | plugins/llmrouter/template.go:237-240 | on templates without blocks the result is the same for every order of the map, and always the template's value, exactly when no value holds the token of another variable or ends in a beginning of one |
| Template.UnsafeValueShows | plugins/llmrouter/template.go:237-240 | for every pair of variables that breaks this there is a template and two orders of the whole map with different results |
| Template.OrderSafeEvaluates | plugins/llmrouter/template.go:237-240 | and otherwise every order gives the template's value |
| Template.SubstituteIsSubstAll | plugins/llmrouter/template.go:237-240 | successive textual replacement on printed leaves is substitution in the tree |
| Template.ReplaceInLeaves | plugins/llmrouter/template.go:229-229 | replacing a variable in printed leaves replaces exactly the leaves of that variable |
| Template.ResidueIsUnique | plugins/llmrouter/template.go:198-235 | the block loop has one outcome |
| Template.FewBracesHalt | plugins/llmrouter/template.go:198-235 | the block loop ends on every text when no value holds more than two opening braces |
| Template.TurnClosesBraces | plugins/llmrouter/template.go:198-235 | each turn then lowers the number of opening braces |
| Template.BlockLoopCanSpin | plugins/llmrouter/template.go:198-235 | a value that contains the block using it keeps the loop going for ever |
| Template.OrderCanMatter | plugins/llmrouter/template.go:237-240 | a value that contains another variable makes the result depend on map order |
| Template.PanicsExactlyWhen | plugins/llmrouter/template.go:198-224 | a turn slices out of range exactly on a text whose first opening has no closing braces of its own before the next end marker |
| Template.BuildVarMap | plugins/llmrouter/template.go:190-194 | the lookup table has the keys of the pairs, each with the value of its last pair |
| Template.ExpandBlocks | plugins/llmrouter/template.go:198-235 | the loop stops with the text a turn no longer changes, by leaving or by the panic |
| Template.ReplaceVariables | plugins/llmrouter/template.go:237-240 | every key is replaced once, in some order |
| CircuitBreaker.OpenSegmentBound | plugins/llmrouter/circuitbreaker.go:71-99 | from open and without closing, at most (elapsed/OpenTimeout + 1) * (HalfOpenMaxRequests + 1) requests are admitted; the probe that enters half-open is not counted by the breaker |
| CircuitBreaker.CountEpisodes | plugins/llmrouter/circuitbreaker.go:71-99 | admissions are bounded by the half-open episodes begun, and each episode after the first needs a full timeout |
| CircuitBreaker.HalfOpenCloses | plugins/llmrouter/circuitbreaker.go:71-168 | half-open admits exactly while fewer than HalfOpenMaxRequests have been admitted since it was entered; it closes exactly on a recorded success after that many, with no failure since, and opens again exactly on a recorded failure, at its time |
| CircuitBreaker.HalfOpenHistory | plugins/llmrouter/circuitbreaker.go:71-118 | in half-open the counters are the history since it was entered |
| CircuitBreaker.ClosedIsHealthy | plugins/llmrouter/circuitbreaker.go:147-155 | closed always means no request yet, too few requests, or an error rate below the threshold |
| CircuitBreaker.ClosedOpens | plugins/llmrouter/circuitbreaker.go:102-155 | a closed breaker admits every request, and opens exactly on a recorded outcome at which the outcomes since it was last closed, counted from the events, number at least MinRequests and their failed share reaches the threshold, at the time of that outcome |
| CircuitBreaker.ClosedHistory | plugins/llmrouter/circuitbreaker.go:102-118 | in closed the counters count the outcomes recorded since the breaker was made, reset or closed again |
| CircuitBreaker.NoFailuresStayClosed | plugins/llmrouter/circuitbreaker.go:147-155 | with a positive threshold a breaker to which no failure is reported stays closed |
| CircuitBreaker.OpenProbes | plugins/llmrouter/circuitbreaker.go:79-85 | an open breaker admits a request, and becomes half-open, exactly when OpenTimeoutMs has passed since the outcome that opened it; apart from that only a reset changes its state |
| CircuitBreaker.Circuit.Allow | plugins/llmrouter/circuitbreaker.go:71-99 | admits and moves as the protocol step says |
| CircuitBreaker.Circuit.RecordSuccess | plugins/llmrouter/circuitbreaker.go:102-108 | counts the request and updates the state as the protocol step says |
| CircuitBreaker.Circuit.RecordFailure | plugins/llmrouter/circuitbreaker.go:111-118 | counts the failure and updates the state as the protocol step says |
| CircuitBreaker.Circuit.UpdateStateLocked | plugins/llmrouter/circuitbreaker.go:145-168 | the state update as a function of the fields |
| CircuitBreaker.Circuit.Reset | plugins/llmrouter/circuitbreaker.go:132-142 | back to a new, closed breaker |
| RateLimit.WindowBound | plugins/llmrouter/gateway.go:94-116 | over any window of requests at most maxTokens + refillRate * length are granted |
| RateLimit.RefusedExactlyWhen | plugins/llmrouter/gateway.go:81-105 | a new bucket refuses a request exactly when granting it would break that bound over some window that ends with it |
| RateLimit.BurstIsGranted | plugins/llmrouter/gateway.go:81-105 | so the first maxTokens requests are granted however fast they come |
| RateLimit.SpacedRequestIsGranted | plugins/llmrouter/gateway.go:94-116 | with maxTokens >= 1 a request at least one refill period after the previous one is always granted, and so is the first |
| RateLimit.RunKeepsBudget | plugins/llmrouter/gateway.go:94-116 | grants so far plus tokens left fit a full bucket plus the refill |
| RateLimit.GlobalWindowBound | plugins/llmrouter/gateway.go:218-248 | the limiter as a whole keeps the bound |
| RateLimit.ModelWindowBound | plugins/llmrouter/gateway.go:218-248 | with per-provider limits each model keeps the bound, lazily created buckets included |
| RateLimit.AllowedExactlyWhen | plugins/llmrouter/gateway.go:218-248 | the limiter refuses a call exactly when it would break the bound of the global bucket over some window of calls or, having passed that, the bound of its model over some window of the calls that got that far |
| RateLimit.SpacedCallIsAllowed | plugins/llmrouter/gateway.go:218-248 | with a burst of at least one the limiter allows a first call and every call a refill period after the previous one, the model's bucket included |
| RateLimit.SpacedCallsAreAllowed | plugins/llmrouter/gateway.go:218-248 | so calls spaced that far apart are all allowed |
| RateLimit.UnlimitedAllowsAll | plugins/llmrouter/gateway.go:203-222 | without a positive rate every call is allowed |
| RateLimit.TokenBucket.Allow | plugins/llmrouter/gateway.go:94-105 | refills, then takes one token if there is one |
| RateLimit.TokenBucket.Refill | plugins/llmrouter/gateway.go:108-116 | adds the elapsed inflow up to the maximum |
| RateLimit.RateLimiter.Allow | plugins/llmrouter/gateway.go:218-248 | asks the global bucket first and the model's bucket only if that grants; the whole new state |
| RateLimit.RateLimiter.EnsureBucket | plugins/llmrouter/gateway.go:231-242 | the model's bucket is created full when it is first asked for; other buckets keep their state |
| Retry.PowF | plugins/llmrouter/retry.go:101-112 | the squaring loop returns the power with exponent 2^rounds - 1 |
| Retry.RoundsIsLogarithm | plugins/llmrouter/retry.go:101-112 | rounds is the binary logarithm of exp + 1, rounded down |
| Retry.PowFAtMostPower | plugins/llmrouter/retry.go:101-112 | for base >= 1 and natural n it lies between 1 and base^n |
| Retry.PowFIsPowerExactlyWhen | plugins/llmrouter/retry.go:100-112 | for every base and natural n it is base^n, as its comment claims, exactly when n + 1 is a power of two or the base is 0, 1 or, with n odd, -1 |
| Retry.NextDelay | plugins/llmrouter/retry.go:73-98 | with any jitter draw the delay stays between 0 and MaxDelayMs (0 if that is negative) |
| Retry.DelayGrows | plugins/llmrouter/retry.go:73-98 | without jitter and with Multiplier >= 1 later attempts never wait less |
| Retry.FirstDelayIsInitial | plugins/llmrouter/retry.go:73-98 | without jitter the first delay is InitialDelayMs, or MaxDelayMs if that is less |
| Retry.DelayIsExponential | plugins/llmrouter/retry.go:73-98 | without jitter the delay from attempt 2^k up to 2^(k+1) is the initial one times Multiplier to the power 2^k - 1, rounded down to milliseconds and held between 0 and MaxDelayMs |
| Retry.JitterSpreads | plugins/llmrouter/retry.go:80-87 | jitter spreads the delay evenly by JitterPercent before the cap: fully downwards and upwards for the extreme draws, not at all for the middle one, in between for the others |
| Router.Router.Complete | plugins/llmrouter/router.go:303-368 | at most one recursion and at most 2 * (MaxAttempts + fallback candidates) provider calls; a usable requested model is called first, and the second round is the upgrade of the first model after three failures in a row; with a live context and MaxAttempts >= 1 a nil error carries the response of a successful call, an error means no call delivered one; when all calls failed and there was a provider, the last model and every model that may stand in for it and was available have been called, no upgrade is open, and the error is nil exactly if MaxAttempts <= 0 or the context was done before the first attempt of the last round |
| Router.Router.CompleteWithRetry | plugins/llmrouter/retry.go:115-148 | every attempt but the last failed with a retryable error, at most MaxAttempts calls, nil error means the last one succeeded; nothing is called exactly when MaxAttempts <= 0, with a nil error, or the context was done at once; the delays between attempts are those for 0, 1, 2 and so on, the first of them none |
| Router.Router.CompleteOnce | plugins/llmrouter/router.go:331-366 | attempts with the model, then, if they all failed, a walk down the fallback order: which calls each makes, the call bound of one pass, what its outcome says about the calls, and that a failure without a last error means the attempts called nothing |
| Router.Router.TryFallback | plugins/llmrouter/router.go:371-412 | goes down the order, calling each registered, available candidate other than the failed one unless it called it before, and stops at the first success; when all fail every such candidate has been called; breakers of models not called are untouched |
| Router.Router.FallbackOrder | plugins/llmrouter/router.go:372-383 | the configured order when there is one, else every other provider exactly once |
| Router.Router.UnavailableExactlyWhen | plugins/llmrouter/router.go:458-485 | a model is unavailable exactly when it has a breaker and after some call to it its calls so far numbered at least MinRequests and the failed share reached the threshold: the router never asks a breaker, so none recovers |
| Router.Router.TryUpgrade | plugins/llmrouter/router.go:488-508 | upgrades exactly when the better model is available and the current one failed three times in a row |
| Router.UpgradeIsFixed | plugins/llmrouter/router.go:67-79 | an upgraded model is never upgraded again |
| Router.UpgradeRaisesTier | plugins/llmrouter/router.go:55-79 | an upgrade leads to the medium tier, moves a known model exactly if it is of the low one and stays with its vendor; unknown models go to the default one |
| Router.Router.Call | plugins/llmrouter/router.go:458-485 | each call is handed to exactly one handler: the breaker of its model is told of the outcome once, and the counters stay the lengths of the current runs of failures and successes |
| Router.Router.HandleFailure | plugins/llmrouter/router.go:458-469 | one failure more, successes back to zero, the breaker told of the failure, the other models untouched |
| Router.Router.HandleSuccess | plugins/llmrouter/router.go:472-485 | one success more, failures back to zero, the breaker told of the success, the other models untouched |
| Router.Router.SelectByTaskType | plugins/llmrouter/router.go:147-162 | an available model that prefers the task, or the primary provider when there is none |
| Router.Router.FindAlternativeModel | plugins/llmrouter/router.go:534-542 | an available registered model other than the given one, or none when there is none |
| Router.Router.PickModel | plugins/llmrouter/router.go:305-329 | a usable requested model is used as it is; otherwise one preferred for the task, else the primary provider or, when its circuit is open, any available registered model; a model with an open circuit is used only when no registered one is available |
| ProviderStats.AverageLagsMean | plugins/llmrouter/claude.go:201-212 | in failure-free runs the stored average never exceeds the mean and lags it by at most (n-1)/2 |
| ProviderStats.RoundingLoss | plugins/llmrouter/claude.go:207-208 | the total lost to rounding is between 0 and n(n-1)/2 |
| ProviderStats.AverageBelowLargest | plugins/llmrouter/claude.go:201-222 | with failures as well the average never exceeds the largest latency recorded |
| ProviderStats.FailureWeighsLikeAverage | plugins/llmrouter/claude.go:215-222 | a failure acts on later averages like a success at the current average |
| ProviderStats.CountersAddUp | plugins/llmrouter/claude.go:201-222 | every request is counted once, as a success or a failure, and the tokens of the successes add up |
| ProviderStats.Provider.RecordSuccess | plugins/llmrouter/claude.go:201-212 | the new counters and average |
| ProviderStats.Provider.RecordError | plugins/llmrouter/claude.go:215-222 | the new counters; the average stays |
| Scheduler.DestroyedAtMostOnce | internal/scheduler/coldstart.go:226-257 | under every interleaving no container is passed to Destroy twice |
| Scheduler.TrackedUntilDestroyed | internal/scheduler/coldstart.go:226-257 | a tracked container stays tracked until a Destroy of it has succeeded |
| Scheduler.FailedDestroyKeepsSlot | internal/scheduler/coldstart.go:236-247 | after a failed Destroy the container stays tracked and closed and is never destroyed again |
| Scheduler.ClosedExactlyWhenFailed | internal/scheduler/coldstart.go:226-257 | when no release is under way the tracked containers that are closed are exactly those whose Destroy failed |
| Scheduler.ReleasedIsSettled | internal/scheduler/coldstart.go:226-257 | once a release of a tracked container has begun, it has been passed to Destroy and is destroyed or marked as failed by the time no release is under way |
| Scheduler.RemembersLastUse | internal/scheduler/coldstart.go:192-205 | a tracked container carries the time of its last use, or of its creation when it has not been used since |
| Scheduler.ListedExactlyWhen | internal/scheduler/coldstart.go:313-322 | a cleanup lists a container exactly when it is tracked and its last use is longer ago than IdleTimeout |
| Scheduler.CleanedIsIdleExactlyWhen | internal/scheduler/coldstart.go:313-331 | when a cleanup comes to a container it is still idle, by the time at which the cleanup began, exactly when it has not been used in between |
| Scheduler.CleanupCanDestroyUsed | internal/scheduler/coldstart.go:313-331 | and a run in which a container is destroyed though it was used in between |
| Scheduler.UsedIsNotIdle | internal/scheduler/coldstart.go:373-378 | a container used at t is idle only after t + IdleTimeout, whenever it was created |
| Scheduler.CapacityBound | internal/scheduler/coldstart.go:181-206 | with at most k concurrent Acquire calls at most MaxContainers - 1 + k are tracked |
| Scheduler.SequentialCapacity | internal/scheduler/coldstart.go:181-206 | sequential Acquire calls never exceed MaxContainers |
| Scheduler.CapacityBoundIsReached | internal/scheduler/coldstart.go:181-206 | and the bound is reached for every k |
| Scheduler.StepKeeps | internal/scheduler/coldstart.go:181-257 | every step keeps the invariant that ties tracking, marking and Destroy together |
| Scheduler.ColdStartScheduler.Release | internal/scheduler/coldstart.go:226-257 | not found, already closed, or marked and then destroyed and dropped, or left marked when Destroy fails |
| Scheduler.ColdStartScheduler.CleanupIdle | internal/scheduler/coldstart.go:313-331 | alone, it closes or drops exactly the open containers whose last use is longer ago than IdleTimeout and leaves the others as they were |
| Scheduler.ColdStartScheduler.IdleIds | internal/scheduler/coldstart.go:314-322 | the snapshot holds exactly the containers whose last use is longer ago than IdleTimeout, each once |
| Scheduler.ColdStartScheduler.MarkClosed | internal/scheduler/coldstart.go:227-238 | only an open container is marked |
| Approvals.ResolvedAtMostOnce | internal/guardian/guardian.go:161-182 | under every interleaving no channel is sent to or closed after a close, each gets at most one result, that of the one decision that took its request, and is closed at most once and only after it |
| Approvals.QuietWorldsAreResolved | internal/guardian/guardian.go:161-182 | when no call is under way a request was told and closed exactly when it is neither pending nor overwritten |
| Approvals.DecisionAlone | internal/guardian/guardian.go:161-182 | a decision nothing interleaves with empties the map entry, delivers its result and closes the channel, as the object does |
| Approvals.CallsCanFinish | internal/guardian/guardian.go:161-182 | no call gets stuck |
| Approvals.OverwrittenIsNeverResolved | internal/guardian/guardian.go:118-121 | a request overwritten by a later one for its task is never told anything |
| Approvals.OverwrittenExactlyWhen | internal/guardian/guardian.go:118-121 | which happens exactly when its task asks again while it is pending |
| Approvals.SweepIsStaleExactlyWhen | internal/guardian/timeout.go:68-93 | what a sweep's call takes was found due by an earlier reading of the map; with requests that expire after they are made, it takes one that is not due at the reading's time exactly when the task asked again between the reading and the Take |
| Approvals.SweepIsEarlyExactlyWhen | internal/guardian/timeout.go:68-93 | for any expiries: exactly when the task's last request came after the reading and expires after it |
| Approvals.PendingIsLastAsk | internal/guardian/guardian.go:118-121 | what a task has pending is always its last request |
| Approvals.SweepHasReading | internal/guardian/timeout.go:68-93 | every call of a sweep goes back to a reading in which its task was due |
| Approvals.ReadingIsExact | internal/guardian/timeout.go:68-78 | a reading finds exactly the tasks with a pending request whose expiry, as last asked for, has come |
| Approvals.SweepIsDueOrStale | internal/guardian/timeout.go:68-93 | in every later world too, what a sweep timed out was due or made after the reading |
| Approvals.StaleSweepTimesOutFreshRequest | internal/guardian/timeout.go:68-93 | and that can happen |
| Approvals.StepKeeps | internal/guardian/guardian.go:118-182 | every step keeps the invariant on requests, calls and channels |
| Guardian.ApprovalGuardian.RequestApproval | internal/guardian/guardian.go:87-144 | the expiry is the custom timeout up to the maximum, else the default; the request replaces any pending one of its task |
| Guardian.ApprovalGuardian.ProcessApproval | internal/guardian/guardian.go:161-247 | the request leaves the map, its waiter gets the result, its channel is closed, the others are untouched |
| Guardian.ApprovalGuardian.HandleTimeout | internal/guardian/guardian.go:250-260 | the same with a timeout; an event is built exactly when the task ID has no colon |
| Guardian.ApprovalGuardian.CheckExpiredApprovals | internal/guardian/timeout.go:68-93 | a sweep nothing interleaves with leaves pending exactly what expires after its time and times out the rest |
| Guardian.DecisionIsReported | internal/guardian/guardian.go:184-247 | an event is built exactly for the four known results and a task ID without colon; it carries the task, the payload and version 1, and its type, different for each result, spells the result out |
| StateMachine.Build | internal/domain/statemachine.go:125-146 | after any calls of AddTransition, repeated ones included, the index finds what a linear search of the calls finds |
| StateMachine.StateMachine.IndexIsFirstMatch | internal/domain/statemachine.go:676-683 | map index and linear search agree on every state and event |
| StateMachine.FindTransition | internal/domain/statemachine.go:676-683 | returns the first rule for the state and event, or none |
| StateMachine.StateMachine.AddTransition | internal/domain/statemachine.go:125-146 | the first rule for a state and event stays; other rules are untouched |
| StateMachine.StateMachine.Trigger | internal/domain/statemachine.go:206-244 | TransitionAllowed predicts lookup and guards; a refused event changes nothing; success enters the target with one version more than the actions left; with actions that only read every error changes nothing |
| StateMachine.StateMachine.TransitionAllowed | internal/domain/statemachine.go:178-198 | the outcome of lookup and guards, without running actions |
| StateMachine.StateMachine.CanTransition | internal/domain/statemachine.go:166-170 | whether the current state has a rule for the event |
| StateMachine.AskMeans | internal/domain/statemachine.go:187-196 | guards allow exactly when each does; otherwise the first that does not decides |
| StateMachine.RunActionsMeans | internal/domain/statemachine.go:228-233 | each action starts from where the one before it left the machine, and the first that fails is the last to run and gives the error |
| StateMachine.EitherMeans | internal/domain/statemachine.go:337-350 | a disjunction blocks exactly when every guard does; otherwise the first that allows or errs decides |
| StateMachine.ReadingActionsChangeNothing | internal/domain/statemachine.go:228-233 | actions that do not write the machine leave it as it was, failing ones included |
| StateMachine.FailedActionIsUndoneExactlyWhen | internal/domain/statemachine.go:228-233 | after any actions and a failing one the machine is as it was exactly when those actions left it so |
| StateMachine.IncrementsAreNotUndone | internal/domain/statemachine.go:476-481 | for instance n version increments before a failing action leave the version raised by n |
| StateMachine.OrIsNotAndOfNots | internal/domain/statemachine.go:320-362 | De Morgan's law for the guard combinators, errors and order included |
| StateMachine.GroupingChangesNothing | internal/domain/statemachine.go:320-333 | a conjunction of guards in a list does what its members would do there |
| StateMachine.ChainingChangesNothing | internal/domain/statemachine.go:462-471 | and so does a chain of actions |
| StateMachine.StateMachine.Reset | internal/domain/statemachine.go:257-260 | back to the initial state and version 1 |
| Entity.Task.TransitionTo | internal/domain/entity.go:117-130 | status and version as the table says; a refused event changes nothing |
| Entity.Task.CanTransitionTo | internal/domain/entity.go:133-137 | whether the table has a move |
| Entity.Subtask.TransitionTo | internal/domain/entity.go:228-241 | the same with the subtask table |
| Entity.VersionCountsSuccesses | internal/domain/entity.go:117-130 | over every sequence of calls the version is 1 plus the successes, which alone lead to the same place |
| Entity.TerminalIsNeverLeft | internal/domain/statemachine.go:519-590 | a completed, failed or cancelled aggregate never changes again |
| Entity.EventDecidesTarget | internal/domain/statemachine.go:519-560 | a task accepts an event exactly in its source states, and the event alone decides the target: for instance review passed completes and a fatal review failure fails |
| Entity.RunningFollowsDispatched | internal/domain/statemachine.go:519-590 | running, reviewing, confirming and completed are reached only after dispatched and then running |
| Entity.SubtaskRunIsTaskRun | internal/domain/statemachine.go:519-590 | the accepted events of a subtask, Assign renamed to Dispatch, are accepted by a task and lead through the same statuses and versions |
| Entity.SameStatusesExactlyWhen | internal/domain/statemachine.go:519-590 | with refused events included the statuses agree exactly when no Dispatch meets pending and no RequestConfirmation meets running |
| Entity.SubtaskNeverConfirming | internal/domain/statemachine.go:563-590 | a subtask never awaits confirmation |
| Entity.MovesAgree | internal/domain/statemachine.go:519-590 | the two tables move alike on a renamed event outside those two cases |
| Entity.MovesDiverge | internal/domain/statemachine.go:519-590 | and differ in them |
| Events.AcceptedExactlyWhen | internal/domain/events.go:36-113 | an event is accepted exactly when its type has the required form and its aggregate ID has no colon |
| Events.EventsWithEqualKeys | internal/domain/events.go:92-113 | two accepted events have equal keys exactly when ID, type and version are equal |
| Events.EqualKeys | internal/domain/events.go:92-113 | with well-formed types that holds for keys of any IDs |
| Events.KeySplitsBack | internal/domain/events.go:85-113 | the key of an accepted event splits into exactly its three parts |
| Events.KeyIsValidExactlyWhen | internal/domain/events.go:62-87 | a key passes its check exactly when it has two colons |
| Events.PatternHasNoColon | internal/domain/events.go:36-36 | a type that matches the pattern has no colon |
| Events.PatternMeans | internal/domain/events.go:36-36 | the pattern is a letter, at least one letter or digit, V and at least one digit, read as a concatenation |
| Events.FormatIntIsInjective | internal/domain/events.go:98-98 | different versions print differently, negative ones included |
| Events.FormatIntMeans | internal/domain/events.go:98-98 | printing gives the decimal digits that stand for the number, after a minus sign exactly for negative ones |
| Diff.GenerateUnifiedDiff | plugins/gitclient/client.go:691-721 | appends the printed line diff to the buffer |
| Diff.SidesRebuild | plugins/gitclient/client.go:691-721 | the printed diff gives back both sides, each with one empty line more per empty line the other has beyond its end |
| Diff.SidesAreExactWhen | plugins/gitclient/client.go:691-721 | exactly the two contents when, and only when, no side has an empty line beyond the end of the other |
| Diff.SharesItsDiffExactlyWhen | plugins/gitclient/client.go:691-721 | another change is printed the same exactly when the line counts differ and the longer side is empty right after the end of the shorter, or both sides are empty at the last line, from the second on, of the shorter |
| Diff.PositionIsPrinted | plugins/gitclient/client.go:696-719 | position by position, where the printed diff shows a kept line, or the old line and right after it the new one, and that it shows nothing else |
| Diff.DiffDeterminesInputs | plugins/gitclient/client.go:691-721 | changes that are printed the same are equal up to empty lines at the end of their sides |
| Diff.DiffsCollide | plugins/gitclient/client.go:691-721 | two different changes with one printed diff |
| Diff.ShowsNoChangeExactlyWhen | plugins/gitclient/client.go:691-721 | no change is shown exactly when the inputs are equal up to empty lines at the end |
| Diff.ReadPrint | plugins/gitclient/client.go:710-718 | printed lines can be read back |
| Text.SplitConcat | plugins/gitclient/client.go:692-693 | splitting at one separator first changes nothing |
| Text.JoinSplit | plugins/gitclient/client.go:692-693 | splitting loses nothing |

## Left out

- ExecutionOrder.ComputeExecutionOrder: ids are distinct, because they are generated ULIDs. A repeated id would be queued twice and lower the in-degrees of its dependents twice; that is not modelled.
- Decompose.DecomposeTask: starts from the generated subtasks; goal parsing, strategy choice and the keyword classifiers are not part of this model, nor is the nil task error.
- Priorities.AssignLevel: the closure and the two maps it captures are a method with in and out values.
- Template.RenderString: requires that the block loop ends, since it need not; PrintedTemplateHalts and FewBracesHalt say when it does, one way only. The tree theorems cover blocks without nesting, keys without braces and texts in which no action begins; the condition on values is exact without blocks and sufficient with them, because a value that holds a whole block may be rewritten by the loop and put together again by another variable.
- Retry.PowF: once the exponent is below one the loop of the source runs on until it underflows, without effect on the result; that tail, overflow and rounding are left out.
- Retry.NextDelay: the conversion to a duration drops the fraction of a millisecond and cannot overflow here.
- CircuitBreaker.OpenSegmentBound: assumes a positive timeout and a clock that does not run backwards.
- RateLimit.RateLimiter.Allow: calls run one at a time, so the double-checked creation of a bucket is a single check.
- Router.Router.Complete: runs sequentially; breakers are held as values in the router's map; Stream, Embed, DowngradeModel, the other selection strategies and the gateway around the router are left out.
- ProviderStats.Provider.RecordSuccess: latencies are non-negative and counters unbounded; the last error and its time are left out.
- Scheduler.DestroyedAtMostOnce: assumes that the backend never hands out an id twice and leaves out Stop, which replaces the map under running calls; specs, exec and statistics are left out.
- Guardian.ApprovalGuardian.ProcessApproval: events are not claimed to be unique, since the code emits one even when nothing is pending; encoding of payloads, the web socket push and risk levels are left out.
- Approvals.ResolvedAtMostOnce: the calls that a sweep makes may overlap here, which allows more runs than the code's single loop.
- StateMachine.StateMachine.AddTransition: returns an index; the pointer of the source, which goes stale when the slice grows, is not modelled. Guards only read the machine; audit logging and the ready-made field, version and state guards are left out.
- Entity.Task.TransitionTo: events are constructors, with Other for every string not in a table; time stamps, Mark helpers and the persisted status of the orchestrator, which does not follow the table, are left out.
- Events.AcceptedExactlyWhen: event IDs, time stamps, payload encoding and the outbox are left out.
- Diff.GenerateUnifiedDiff: the path parameter, unused in the source, and the surrounding git calls are left out; the body of the loop is a method of its own.
- Integer widths: counters, versions and times are unbounded.
- HTTP, gRPC, REST, MCP, dashboards, Docker, storage and authentication: plumbing around foreign libraries.
