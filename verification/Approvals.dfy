/**
 Approval requests under interleaving (internal/guardian/guardian.go, timeout.go): a decision takes
 its request out of the map under the lock, then sends to the request's channel and closes it without
 the lock, while other requests, decisions and timeout sweeps go on. Requests are numbered in the
 order in which they are made.
 */
module Approvals {
  import opened Sequences
  import opened Wrappers
  import Guardian

  datatype Request = Request(task: string, expiresAt: int)

  /** `buffered` is the one-place buffer; `delivered` and `received` are what went in and came out. */
  datatype Channel = Channel(buffered: Option<string>, delivered: seq<string>, received: seq<string>, closes: nat)

  /** Who decides: somebody, or a sweep that read the map at `now`, when `known` requests had been made. */
  datatype Origin = Anyone | Sweep(now: int, known: nat)

  datatype Stage = Started | Took | Sent | Done

  /** One call of ProcessApproval, with the request it took out of the map. */
  datatype Call = Call(task: string, result: string, origin: Origin, taken: Option<nat>, stage: Stage)

  datatype World = World(
    requests: seq<Request>,
    channels: seq<Channel>,
    pending: map<string, nat>,
    calls: seq<Call>,
    sweep: seq<string>,       // what is left of a sweep's list
    sweepOrigin: Origin,      // when that list was read
    overwritten: set<nat>,    // requests replaced in the map by a later one for the same task
    takenBy: map<nat, nat>,   // which call took which request
    panicked: bool)

  const EMPTY_CHANNEL := Channel(None, [], [], 0)

  const EMPTY_WORLD := World([], [], map[], [], [], Anyone, {}, map[], false)

  datatype Step =
    | MakeRequest(task: string, expiresAt: int)
    | Decide(task: string, result: string)
    | Take(k: nat)
    | Send(k: nat)
    | Close(k: nat)
    | Receive(id: nat)
    | Snapshot(now: int, expired: seq<string>)
    | SweepNext

  predicate IsDue(w: World, task: string, now: int)
    requires task in w.pending && w.pending[task] < |w.requests|
  {
    now >= w.requests[w.pending[task]].expiresAt
  }

  predicate HoldsChannel(w: World, call: Call) {
    call.taken.Some? && call.taken.value < |w.channels|
  }

  ghost predicate Enabled(w: World, s: Step) {
    match s
    case MakeRequest(task, expiresAt) => true
    case Decide(task, result) => true
    case Take(k) => k < |w.calls| && w.calls[k].stage == Started
    case Send(k) => k < |w.calls| && w.calls[k].stage == Took && HoldsChannel(w, w.calls[k])
    case Close(k) => k < |w.calls| && w.calls[k].stage == Sent && HoldsChannel(w, w.calls[k])
    case Receive(id) => id < |w.channels| && w.channels[id].buffered.Some?
    case Snapshot(now, expired) =>
      && w.sweep == [] && Distinct(expired)
      && (forall t :: t in expired <==> t in w.pending && w.pending[t] < |w.requests| && IsDue(w, t, now))
    case SweepNext => w.sweep != []
  }

  /** A send on a closed channel and a second close panic. */
  function Sending(w: World, k: nat, id: nat): World
    requires k < |w.calls| && id < |w.channels|
  {
    var c := w.channels[id];
    if c.closes > 0 then w.(panicked := true) else
      var told := if c.buffered == None
                  then c.(buffered := Some(w.calls[k].result), delivered := c.delivered + [w.calls[k].result])
                  else c;
      w.(channels := w.channels[id := told], calls := w.calls[k := w.calls[k].(stage := Sent)])
  }

  function Closing(w: World, k: nat, id: nat): World
    requires k < |w.calls| && id < |w.channels|
  {
    var c := w.channels[id];
    if c.closes > 0 then w.(panicked := true)
    else w.(channels := w.channels[id := c.(closes := c.closes + 1)], calls := w.calls[k := w.calls[k].(stage := Done)])
  }

  function Taking(w: World, k: nat): World
    requires k < |w.calls|
  {
    var call := w.calls[k];
    if call.task in w.pending then
      var id := w.pending[call.task];
      w.(pending := w.pending - {call.task}, calls := w.calls[k := call.(taken := Some(id), stage := Took)], takenBy := w.takenBy[id := k])
    else w.(calls := w.calls[k := call.(stage := Done)])
  }

  function Requesting(w: World, task: string, expiresAt: int): World {
    w.(requests := w.requests + [Request(task, expiresAt)],
       channels := w.channels + [EMPTY_CHANNEL],
       pending := w.pending[task := |w.requests|],
       overwritten := if task in w.pending then w.overwritten + {w.pending[task]} else w.overwritten)
  }

  function Receiving(w: World, id: nat): World
    requires id < |w.channels| && w.channels[id].buffered.Some?
  {
    var c := w.channels[id];
    w.(channels := w.channels[id := c.(buffered := None, received := c.received + [c.buffered.value])])
  }

  function Beginning(w: World, call: Call): World {
    w.(calls := w.calls + [call])
  }

  ghost function Next(w: World, s: Step): World
    requires Enabled(w, s)
  {
    match s
    case MakeRequest(task, expiresAt) => Requesting(w, task, expiresAt)
    case Decide(task, result) => Beginning(w, Call(task, result, Anyone, None, Started))
    case Take(k) => Taking(w, k)
    case Send(k) => Sending(w, k, w.calls[k].taken.value)
    case Close(k) => Closing(w, k, w.calls[k].taken.value)
    case Receive(id) => Receiving(w, id)
    case Snapshot(now, expired) => w.(sweep := expired, sweepOrigin := Sweep(now, |w.requests|))
    case SweepNext =>
      Beginning(w, Call(w.sweep[0], Guardian.TIMEOUT, w.sweepOrigin, None, Started)).(sweep := w.sweep[1..])
  }

  // ----- the invariant -----

  /** Each request is pending, overwritten or taken by one call, and only one of these. */
  ghost predicate RequestsOk(w: World) {
    && |w.channels| == |w.requests|
    && (forall t :: t in w.pending ==>
          && w.pending[t] < |w.requests| && w.requests[w.pending[t]].task == t
          && w.pending[t] !in w.takenBy && w.pending[t] !in w.overwritten)
    && (forall id :: id in w.overwritten ==> id < |w.requests| && id !in w.takenBy)
    && (forall id :: id in w.takenBy ==> id < |w.requests| && w.takenBy[id] < |w.calls| && w.calls[w.takenBy[id]].taken == Some(id))
    && (forall id :: 0 <= id < |w.requests| && id !in w.takenBy && id !in w.overwritten ==>
          w.requests[id].task in w.pending && w.pending[w.requests[id].task] == id)
  }

  ghost predicate CallOk(call: Call, k: nat, requests: seq<Request>, takenBy: map<nat, nat>) {
    && (call.stage == Started ==> call.taken == None)
    && (call.stage in {Took, Sent} ==> call.taken.Some?)
    && (call.taken.Some? ==>
          && call.taken.value in takenBy && takenBy[call.taken.value] == k
          && call.taken.value < |requests| && requests[call.taken.value].task == call.task)
  }

  ghost predicate CallsOk(w: World) {
    forall k :: 0 <= k < |w.calls| ==> CallOk(w.calls[k], k, w.requests, w.takenBy)
  }

  /** How far a request's resolution has come, and with what result. */
  function StageOf(w: World, id: nat): Stage {
    if id in w.takenBy && w.takenBy[id] < |w.calls| then w.calls[w.takenBy[id]].stage else Started
  }

  function ResultOf(w: World, id: nat): string {
    if id in w.takenBy && w.takenBy[id] < |w.calls| then w.calls[w.takenBy[id]].result else ""
  }

  predicate ChannelOk(c: Channel, stage: Stage, result: string) {
    && c.delivered == c.received + (if c.buffered.Some? then [c.buffered.value] else [])
    && c.delivered == (if stage in {Sent, Done} then [result] else [])
    && c.closes == if stage == Done then 1 else 0
  }

  ghost predicate ChannelsOk(w: World) {
    forall id :: 0 <= id < |w.channels| ==> ChannelOk(w.channels[id], StageOf(w, id), ResultOf(w, id))
  }

  /** A sweep that took a request either saw that it was due or read the map before the request was made. */
  ghost predicate DueOrLater(w: World, id: nat, origin: Origin) {
    id < |w.requests| && (origin == Anyone || w.requests[id].expiresAt <= origin.now || id >= origin.known)
  }

  ghost predicate SweepsOk(w: World) {
    && (forall t :: t in w.sweep && t in w.pending ==> DueOrLater(w, w.pending[t], w.sweepOrigin))
    && (w.sweepOrigin.Sweep? ==> w.sweepOrigin.known <= |w.requests|)
    && (forall k :: 0 <= k < |w.calls| ==> CallIsDue(w, w.calls[k]))
  }

  ghost predicate CallIsDue(w: World, call: Call) {
    && (call.origin.Sweep? ==> call.origin.known <= |w.requests|)
    && (call.stage == Started && call.task in w.pending ==> DueOrLater(w, w.pending[call.task], call.origin))
    && (call.taken.Some? ==> DueOrLater(w, call.taken.value, call.origin))
  }

  ghost predicate Consistent(w: World) {
    !w.panicked && RequestsOk(w) && CallsOk(w) && ChannelsOk(w) && SweepsOk(w)
  }

  // ----- every step keeps it -----

  /** Nothing that resolutions depend on has changed. */
  ghost predicate SameResolutions(w: World, next: World) {
    forall i: nat :: StageOf(next, i) == StageOf(w, i) && ResultOf(next, i) == ResultOf(w, i)
  }

  lemma RequestingKeepsRequests(w: World, task: string, expiresAt: int)
    requires Consistent(w)
    ensures RequestsOk(Requesting(w, task, expiresAt)) && CallsOk(Requesting(w, task, expiresAt))
  {
    var next := Requesting(w, task, expiresAt);
    assert |w.requests| !in w.takenBy;
    assert forall id :: 0 <= id < |w.requests| ==> next.requests[id] == w.requests[id];
  }

  lemma RequestingKeepsChannels(w: World, task: string, expiresAt: int)
    requires Consistent(w)
    ensures ChannelsOk(Requesting(w, task, expiresAt))
  {
    var next := Requesting(w, task, expiresAt);
    assert SameResolutions(w, next);
    assert |w.requests| !in w.takenBy && StageOf(next, |w.requests|) == Started;
    forall id | 0 <= id < |next.channels|
      ensures ChannelOk(next.channels[id], StageOf(next, id), ResultOf(next, id))
    {
      if id < |w.channels| { assert ChannelOk(w.channels[id], StageOf(w, id), ResultOf(w, id)); }
    }
  }

  lemma RequestingKeepsSweeps(w: World, task: string, expiresAt: int)
    requires Consistent(w)
    ensures SweepsOk(Requesting(w, task, expiresAt))
  {
    var next := Requesting(w, task, expiresAt);
    assert forall id, origin :: DueOrLater(w, id, origin) ==> DueOrLater(next, id, origin);
    assert next.pending[task] == |w.requests|;
    forall k | 0 <= k < |w.calls|
      ensures CallIsDue(next, w.calls[k])
    {
      assert CallIsDue(w, w.calls[k]);
    }
  }

  lemma RequestingKeeps(w: World, task: string, expiresAt: int)
    requires Consistent(w)
    ensures Consistent(Requesting(w, task, expiresAt))
  {
    RequestingKeepsRequests(w, task, expiresAt);
    RequestingKeepsChannels(w, task, expiresAt);
    RequestingKeepsSweeps(w, task, expiresAt);
  }

  lemma BeginningKeeps(w: World, call: Call)
    requires Consistent(w)
    requires call.stage == Started && call.taken == None && CallIsDue(w, call)
    ensures Consistent(Beginning(w, call))
  {
    var next := Beginning(w, call);
    assert SameResolutions(w, next);
  }

  lemma TakingKeepsRequests(w: World, k: nat)
    requires Consistent(w) && k < |w.calls| && w.calls[k].stage == Started
    ensures RequestsOk(Taking(w, k))
  {
    var next := Taking(w, k);
    var task := w.calls[k].task;
    assert CallOk(w.calls[k], k, w.requests, w.takenBy);
    forall id | id in next.takenBy
      ensures id < |w.requests| && next.takenBy[id] < |w.calls| && next.calls[next.takenBy[id]].taken == Some(id)
    {
      assert id in w.takenBy ==> w.takenBy[id] != k;
    }
  }

  lemma TakingKeepsCalls(w: World, k: nat)
    requires Consistent(w) && k < |w.calls| && w.calls[k].stage == Started
    ensures CallsOk(Taking(w, k))
  {
    var next := Taking(w, k);
    forall j | 0 <= j < |w.calls|
      ensures CallOk(next.calls[j], j, next.requests, next.takenBy)
    {
      assert CallOk(w.calls[j], j, w.requests, w.takenBy);
    }
  }

  lemma TakingKeepsChannels(w: World, k: nat)
    requires Consistent(w) && k < |w.calls| && w.calls[k].stage == Started
    ensures ChannelsOk(Taking(w, k))
  {
    var next := Taking(w, k);
    forall id | 0 <= id < |w.channels|
      ensures ChannelOk(next.channels[id], StageOf(next, id), ResultOf(next, id))
    {
      assert ChannelOk(w.channels[id], StageOf(w, id), ResultOf(w, id));
      assert id in w.takenBy ==> w.takenBy[id] != k;
    }
  }

  lemma TakingKeepsSweeps(w: World, k: nat)
    requires Consistent(w) && k < |w.calls| && w.calls[k].stage == Started
    ensures SweepsOk(Taking(w, k))
  {
    var next := Taking(w, k);
    assert CallOk(w.calls[k], k, w.requests, w.takenBy);
    forall j | 0 <= j < |w.calls|
      ensures CallIsDue(next, next.calls[j])
    {
      assert CallIsDue(w, w.calls[j]);
    }
  }

  lemma TakingKeeps(w: World, k: nat)
    requires Consistent(w) && k < |w.calls| && w.calls[k].stage == Started
    ensures Consistent(Taking(w, k))
  {
    TakingKeepsRequests(w, k);
    TakingKeepsCalls(w, k);
    TakingKeepsChannels(w, k);
    TakingKeepsSweeps(w, k);
  }

  lemma AdvancingKeepsOthers(w: World, next: World, k: nat, id: nat, stage: Stage)
    requires RequestsOk(w) && CallsOk(w) && k < |w.calls| && w.calls[k].taken == Some(id)
    requires next.calls == w.calls[k := w.calls[k].(stage := stage)] && next.takenBy == w.takenBy
    ensures id < |w.channels| && StageOf(w, id) == w.calls[k].stage && ResultOf(w, id) == w.calls[k].result
    ensures StageOf(next, id) == stage && ResultOf(next, id) == w.calls[k].result
    ensures forall i: nat :: i != id ==> StageOf(next, i) == StageOf(w, i) && ResultOf(next, i) == ResultOf(w, i)
  {
    assert CallOk(w.calls[k], k, w.requests, w.takenBy);
  }

  lemma SendingKeeps(w: World, k: nat, id: nat)
    requires Consistent(w) && k < |w.calls| && w.calls[k].stage == Took && w.calls[k].taken == Some(id)
    ensures id < |w.channels| && Consistent(Sending(w, k, id))
  {
    AdvancingKeepsOthers(w, w.(calls := w.calls[k := w.calls[k].(stage := Sent)]), k, id, Sent);
    assert ChannelOk(w.channels[id], Took, ResultOf(w, id));
    var next := Sending(w, k, id);
    AdvancingKeepsOthers(w, next, k, id, Sent);
  }

  lemma ClosingKeeps(w: World, k: nat, id: nat)
    requires Consistent(w) && k < |w.calls| && w.calls[k].stage == Sent && w.calls[k].taken == Some(id)
    ensures id < |w.channels| && Consistent(Closing(w, k, id))
  {
    AdvancingKeepsOthers(w, w.(calls := w.calls[k := w.calls[k].(stage := Done)]), k, id, Done);
    assert ChannelOk(w.channels[id], Sent, ResultOf(w, id));
    var next := Closing(w, k, id);
    AdvancingKeepsOthers(w, next, k, id, Done);
  }

  lemma ReceivingKeeps(w: World, id: nat)
    requires Consistent(w) && id < |w.channels| && w.channels[id].buffered.Some?
    ensures Consistent(Receiving(w, id))
  {
    var next := Receiving(w, id);
    OnlyChannelsChange(w, next);
    assert ChannelOk(w.channels[id], StageOf(w, id), ResultOf(w, id));
  }

  lemma OnlyChannelsChange(w: World, next: World)
    requires Consistent(w)
    requires next == w.(channels := next.channels) && |next.channels| == |w.channels|
    ensures RequestsOk(next) && CallsOk(next) && SweepsOk(next) && SameResolutions(w, next)
  {
    assert forall id, origin :: DueOrLater(w, id, origin) ==> DueOrLater(next, id, origin);
    forall k | 0 <= k < |w.calls|
      ensures CallIsDue(next, w.calls[k])
    {
      assert CallIsDue(w, w.calls[k]);
    }
  }

  lemma SnapshotKeeps(w: World, now: int, expired: seq<string>)
    requires Consistent(w) && Enabled(w, Snapshot(now, expired))
    ensures Consistent(w.(sweep := expired, sweepOrigin := Sweep(now, |w.requests|)))
  {
    var next := w.(sweep := expired, sweepOrigin := Sweep(now, |w.requests|));
    assert SameResolutions(w, next);
  }

  lemma DecidingKeeps(w: World, task: string, result: string)
    requires Consistent(w)
    ensures Consistent(Beginning(w, Call(task, result, Anyone, None, Started)))
  {
    BeginningKeeps(w, Call(task, result, Anyone, None, Started));
  }

  lemma SweepingKeeps(w: World)
    requires Consistent(w) && w.sweep != []
    ensures Consistent(Next(w, SweepNext))
  {
    var call := Call(w.sweep[0], Guardian.TIMEOUT, w.sweepOrigin, None, Started);
    BeginningKeeps(w, call);
    SweepShrinks(Beginning(w, call));
  }

  lemma SweepShrinks(w: World)
    requires Consistent(w) && w.sweep != []
    ensures Consistent(w.(sweep := w.sweep[1..]))
  {
    assert SameResolutions(w, w.(sweep := w.sweep[1..]));
  }

  lemma StepKeeps(w: World, s: Step)
    requires Consistent(w) && Enabled(w, s)
    ensures Consistent(Next(w, s))
  {
    hide Consistent;
    match s
    case MakeRequest(task, expiresAt) => RequestingKeeps(w, task, expiresAt);
    case Decide(task, result) => DecidingKeeps(w, task, result);
    case Take(k) => TakingKeeps(w, k);
    case Send(k) => SendingKeeps(w, k, w.calls[k].taken.value);
    case Close(k) => ClosingKeeps(w, k, w.calls[k].taken.value);
    case Receive(id) => ReceivingKeeps(w, id);
    case Snapshot(now, expired) => SnapshotKeeps(w, now, expired);
    case SweepNext => SweepingKeeps(w);
  }

  // ----- runs -----

  ghost predicate IsRun(worlds: seq<World>, steps: seq<Step>) {
    && |worlds| == |steps| + 1 && worlds[0] == EMPTY_WORLD
    && forall i :: 0 <= i < |steps| ==> Enabled(worlds[i], steps[i]) && worlds[i + 1] == Next(worlds[i], steps[i])
  }

  lemma {:induction false} RunIsConsistent(worlds: seq<World>, steps: seq<Step>, n: nat)
    requires IsRun(worlds, steps) && n < |worlds|
    ensures Consistent(worlds[n])
  {
    if n > 0 {
      RunIsConsistent(worlds, steps, n - 1);
      StepKeeps(worlds[n - 1], steps[n - 1]);
    }
  }

  /**
   No send or close ever hits a closed channel; every channel gets at most one result, that of the one
   decision that took its request, and is closed at most once, after that result. A waiter never sees
   a channel closed without a result.
   */
  lemma ResolvedAtMostOnce(worlds: seq<World>, steps: seq<Step>, n: nat, id: nat)
    requires IsRun(worlds, steps) && n < |worlds| && id < |worlds[n].requests|
    ensures !worlds[n].panicked && id < |worlds[n].channels|
    ensures |worlds[n].channels[id].delivered| <= 1 && worlds[n].channels[id].closes <= 1
    ensures worlds[n].channels[id].received <= worlds[n].channels[id].delivered
    ensures worlds[n].channels[id].closes == 1 ==> |worlds[n].channels[id].delivered| == 1
    ensures forall k, j :: 0 <= k < |worlds[n].calls| && 0 <= j < |worlds[n].calls| ==>
              worlds[n].calls[k].taken == Some(id) && worlds[n].calls[j].taken == Some(id) ==> k == j
    ensures forall result :: result in worlds[n].channels[id].delivered ==>
              exists k :: 0 <= k < |worlds[n].calls| && worlds[n].calls[k].taken == Some(id)
                && worlds[n].calls[k].task == worlds[n].requests[id].task && worlds[n].calls[k].result == result
  {
    RunIsConsistent(worlds, steps, n);
    var w := worlds[n];
    assert ChannelOk(w.channels[id], StageOf(w, id), ResultOf(w, id));
    forall k, j | 0 <= k < |w.calls| && 0 <= j < |w.calls| && w.calls[k].taken == Some(id) && w.calls[j].taken == Some(id)
      ensures k == j
    {
      assert CallOk(w.calls[k], k, w.requests, w.takenBy);
      assert CallOk(w.calls[j], j, w.requests, w.takenBy);
    }
    forall result | result in w.channels[id].delivered
      ensures exists k :: 0 <= k < |w.calls| && w.calls[k].taken == Some(id)
                && w.calls[k].task == w.requests[id].task && w.calls[k].result == result
    {
      var k := w.takenBy[id];
      assert CallOk(w.calls[k], k, w.requests, w.takenBy);
    }
  }

  /** No call is ever stuck: one that is not done can take its next step. */
  lemma CallsCanFinish(worlds: seq<World>, steps: seq<Step>, n: nat, k: nat)
    requires IsRun(worlds, steps) && n < |worlds| && k < |worlds[n].calls|
    ensures worlds[n].calls[k].stage != Done ==>
              Enabled(worlds[n], Take(k)) || Enabled(worlds[n], Send(k)) || Enabled(worlds[n], Close(k))
  {
    RunIsConsistent(worlds, steps, n);
    assert CallOk(worlds[n].calls[k], k, worlds[n].requests, worlds[n].takenBy);
  }

  ghost predicate IsPending(w: World, id: nat) {
    exists t :: t in w.pending && w.pending[t] == id
  }

  ghost predicate IsQuiet(w: World) {
    forall k :: 0 <= k < |w.calls| ==> w.calls[k].stage == Done
  }

  /** When no call is under way, a request was told its result and closed exactly when it is neither pending nor overwritten. */
  lemma QuietWorldsAreResolved(worlds: seq<World>, steps: seq<Step>, n: nat, id: nat)
    requires IsRun(worlds, steps) && n < |worlds| && id < |worlds[n].requests| && IsQuiet(worlds[n])
    ensures id < |worlds[n].channels|
    ensures IsPending(worlds[n], id) ==> id !in worlds[n].overwritten
    ensures if IsPending(worlds[n], id) || id in worlds[n].overwritten
            then worlds[n].channels[id] == EMPTY_CHANNEL
            else |worlds[n].channels[id].delivered| == 1 && worlds[n].channels[id].closes == 1
  {
    RunIsConsistent(worlds, steps, n);
    var w := worlds[n];
    assert ChannelOk(w.channels[id], StageOf(w, id), ResultOf(w, id));
    if id !in w.takenBy && id !in w.overwritten {
      assert w.requests[id].task in w.pending && w.pending[w.requests[id].task] == id;
    }
  }

  lemma StepGrows(w: World, s: Step)
    requires Enabled(w, s)
    ensures w.overwritten <= Next(w, s).overwritten && w.requests <= Next(w, s).requests
  {
  }

  /** What is settled stays settled. */
  lemma {:induction false} HistoryGrows(worlds: seq<World>, steps: seq<Step>, m: nat, n: nat)
    requires IsRun(worlds, steps) && m <= n < |worlds|
    ensures worlds[m].overwritten <= worlds[n].overwritten
    ensures worlds[m].requests <= worlds[n].requests
  {
    hide Next, Enabled;
    if m < n {
      HistoryGrows(worlds, steps, m, n - 1);
      StepGrows(worlds[n - 1], steps[n - 1]);
    }
  }

  /** The channel of an overwritten request stays empty and open for the rest of the run: its waiter is never told. */
  lemma OverwrittenIsNeverResolved(worlds: seq<World>, steps: seq<Step>, m: nat, n: nat, id: nat)
    requires IsRun(worlds, steps) && m <= n < |worlds|
    requires id in worlds[m].overwritten
    ensures id < |worlds[n].channels| && worlds[n].channels[id] == EMPTY_CHANNEL
  {
    HistoryGrows(worlds, steps, m, n);
    RunIsConsistent(worlds, steps, n);
    assert ChannelOk(worlds[n].channels[id], StageOf(worlds[n], id), ResultOf(worlds[n], id));
  }

  /** Step `i` asks again for approval of a task whose request `id` is pending. */
  ghost predicate AsksAgain(worlds: seq<World>, steps: seq<Step>, i: nat, id: nat) {
    && i < |steps| && i < |worlds| && steps[i].MakeRequest?
    && steps[i].task in worlds[i].pending && worlds[i].pending[steps[i].task] == id
  }

  /** That happens exactly to requests whose task asked again while they were pending. */
  lemma {:induction false} OverwrittenExactlyWhen(worlds: seq<World>, steps: seq<Step>, n: nat, id: nat)
    requires IsRun(worlds, steps) && n < |worlds|
    ensures id in worlds[n].overwritten <==> exists i: nat :: i < n && AsksAgain(worlds, steps, i, id)
  {
    if n > 0 {
      OverwrittenExactlyWhen(worlds, steps, n - 1, id);
      assert worlds[n] == Next(worlds[n - 1], steps[n - 1]);
      assert id in worlds[n].overwritten <==> id in worlds[n - 1].overwritten || AsksAgain(worlds, steps, n - 1, id);
    }
  }

  /**
   Nothing between its three steps, a call does what `ApprovalGuardian.ProcessApproval` says of the object: the
   request leaves the map, its channel holds the result and is closed, every other channel is untouched.
   */
  lemma DecisionAlone(w: World, k: nat, id: nat)
    requires Consistent(w) && k < |w.calls| && w.calls[k].stage == Started
    requires w.calls[k].task in w.pending && w.pending[w.calls[k].task] == id
    ensures id < |w.channels|
    ensures var taken := Taking(w, k);
            var sent := Sending(taken, k, id);
            var done := Closing(sent, k, id);
            && Enabled(w, Take(k)) && Enabled(taken, Send(k)) && Enabled(sent, Close(k))
            && done.pending == w.pending - {w.calls[k].task}
            && done.channels == w.channels[id := Channel(Some(w.calls[k].result), [w.calls[k].result], [], 1)]
            && done.calls[k].stage == Done && !done.panicked
  {
    assert ChannelOk(w.channels[id], StageOf(w, id), ResultOf(w, id));
    assert w.channels[id] == EMPTY_CHANNEL;
    var result := w.calls[k].result;
    assert EMPTY_CHANNEL.delivered + [result] == [result];
    var sent := Sending(Taking(w, k), k, id);
    assert sent.channels == w.channels[id := Channel(Some(result), [result], [], 0)] && sent.calls[k].stage == Sent;
    assert Closing(sent, k, id).channels == w.channels[id := Channel(Some(result), [result], [], 1)];
  }

  // ----- timeouts -----

  /** In every later world as well: what a sweep timed out was due, or made after the sweep read the map. */
  lemma SweepIsDueOrStale(worlds: seq<World>, steps: seq<Step>, n: nat, k: nat)
    requires IsRun(worlds, steps) && n < |worlds| && k < |worlds[n].calls|
    requires worlds[n].calls[k].origin.Sweep? && worlds[n].calls[k].taken.Some?
    ensures worlds[n].calls[k].taken.value < |worlds[n].requests|
    ensures worlds[n].requests[worlds[n].calls[k].taken.value].expiresAt > worlds[n].calls[k].origin.now ==>
              worlds[n].calls[k].taken.value >= worlds[n].calls[k].origin.known
  {
    RunIsConsistent(worlds, steps, n);
    assert CallIsDue(worlds[n], worlds[n].calls[k]);
  }

  /** Step `i` is the last request for `task` before step `n`. */
  ghost predicate IsLastAsk(steps: seq<Step>, task: string, i: nat, n: nat) {
    && i < n <= |steps| && steps[i].MakeRequest? && steps[i].task == task
    && forall j :: i < j < n ==> !(steps[j].MakeRequest? && steps[j].task == task)
  }

  /** A pending entry is new only after a request for its task. */
  lemma StepPending(w: World, s: Step, task: string)
    requires Enabled(w, s) && task in Next(w, s).pending
    ensures if s.MakeRequest? && s.task == task
            then Next(w, s).pending[task] == |w.requests| && Next(w, s).requests == w.requests + [Request(task, s.expiresAt)]
            else task in w.pending && Next(w, s).pending[task] == w.pending[task]
  {
  }

  /** What a task has pending is its last request. */
  lemma {:induction false} PendingIsLastAsk(worlds: seq<World>, steps: seq<Step>, n: nat, task: string) returns (i: nat)
    requires IsRun(worlds, steps) && n < |worlds| && task in worlds[n].pending
    ensures IsLastAsk(steps, task, i, n)
    ensures worlds[n].pending[task] == |worlds[i].requests| < |worlds[n].requests|
    ensures worlds[n].requests[worlds[n].pending[task]] == Request(task, steps[i].expiresAt)
  {
    hide Next, Enabled;
    assert n > 0;
    var s := steps[n - 1];
    assert worlds[n] == Next(worlds[n - 1], s) && Enabled(worlds[n - 1], s);
    StepPending(worlds[n - 1], s, task);
    if s.MakeRequest? && s.task == task {
      i := n - 1;
    } else {
      i := PendingIsLastAsk(worlds, steps, n - 1, task);
      StepGrows(worlds[n - 1], s);
    }
  }

  /** A sweep's reading finds the tasks with a pending request whose expiry, as last asked for, has come, and no others. */
  lemma ReadingIsExact(worlds: seq<World>, steps: seq<Step>, n: nat, task: string) returns (i: nat)
    requires IsRun(worlds, steps) && n < |steps| && steps[n].Snapshot?
    ensures task in steps[n].expired ==> task in worlds[n].pending
    ensures task in worlds[n].pending ==>
              IsLastAsk(steps, task, i, n) && (task in steps[n].expired <==> steps[i].expiresAt <= steps[n].now)
  {
    i := 0;
    if task in worlds[n].pending {
      i := PendingIsLastAsk(worlds, steps, n, task);
    }
  }

  /** Step `m` is a sweep's reading, in which it found `task` due. */
  ghost predicate IsReading(worlds: seq<World>, steps: seq<Step>, m: nat, origin: Origin, task: string) {
    && m < |steps| && m < |worlds| && steps[m].Snapshot?
    && origin == Sweep(steps[m].now, |worlds[m].requests|) && task in steps[m].expired
  }

  /** A sweep's list or one of its calls still holds the task. */
  ghost predicate Sweeps(w: World, origin: Origin, task: string) {
    || (w.sweepOrigin == origin && task in w.sweep)
    || exists k :: 0 <= k < |w.calls| && w.calls[k].origin == origin && w.calls[k].task == task
  }

  lemma StepSweeps(w: World, s: Step, origin: Origin, task: string)
    requires Enabled(w, s) && origin.Sweep? && Sweeps(Next(w, s), origin, task)
    ensures Sweeps(w, origin, task) || (s.Snapshot? && origin == Sweep(s.now, |w.requests|) && task in s.expired)
  {
    var next := Next(w, s);
    if k :| 0 <= k < |next.calls| && next.calls[k].origin == origin && next.calls[k].task == task {
      if k < |w.calls| {
        assert w.calls[k].origin == origin && w.calls[k].task == task;
      }
    }
  }

  /** Every sweep's call comes from an earlier reading. */
  lemma {:induction false} SweepHasReading(worlds: seq<World>, steps: seq<Step>, n: nat, origin: Origin, task: string) returns (m: nat)
    requires IsRun(worlds, steps) && n < |worlds| && origin.Sweep? && Sweeps(worlds[n], origin, task)
    ensures m < n && IsReading(worlds, steps, m, origin, task)
  {
    hide Next, Enabled;
    assert n > 0;
    assert worlds[n] == Next(worlds[n - 1], steps[n - 1]) && Enabled(worlds[n - 1], steps[n - 1]);
    StepSweeps(worlds[n - 1], steps[n - 1], origin, task);
    if Sweeps(worlds[n - 1], origin, task) {
      m := SweepHasReading(worlds, steps, n - 1, origin, task);
    } else {
      m := n - 1;
    }
  }

  /** A request is numbered at least `|worlds[m].requests|` exactly when it is made at step `m` or later. */
  lemma MadeSince(worlds: seq<World>, steps: seq<Step>, m: nat, i: nat)
    requires IsRun(worlds, steps) && m < |steps| && i < |steps| && steps[i].MakeRequest?
    ensures |worlds[i].requests| >= |worlds[m].requests| <==> i >= m
  {
    assert worlds[i + 1] == Next(worlds[i], steps[i]);
    if i >= m { HistoryGrows(worlds, steps, m, i); } else { HistoryGrows(worlds, steps, i + 1, m); }
  }

  /**
   When a sweep's call takes a request, at step `n`, the sweep read the map at an earlier step `m`. The request is not
   due at the reading's time exactly when its task asked again after the reading, last so with an expiry after that time.
   */
  lemma SweepIsEarlyExactlyWhen(worlds: seq<World>, steps: seq<Step>, n: nat, k: nat) returns (m: nat)
    requires IsRun(worlds, steps) && n < |steps| && steps[n] == Take(k)
    requires k < |worlds[n].calls| && worlds[n].calls[k].origin.Sweep? && worlds[n].calls[k].task in worlds[n].pending
    ensures var call := worlds[n].calls[k];
            var id := worlds[n].pending[call.task];
            && m < n && IsReading(worlds, steps, m, call.origin, call.task)
            && k < |worlds[n + 1].calls| && worlds[n + 1].calls[k].taken == Some(id) && id < |worlds[n].requests|
            && (worlds[n].requests[id].expiresAt > steps[m].now <==>
                exists i: nat :: m <= i && IsLastAsk(steps, call.task, i, n) && steps[i].expiresAt > steps[m].now)
  {
    var call := worlds[n].calls[k];
    assert worlds[n + 1] == Next(worlds[n], steps[n]);
    assert Sweeps(worlds[n], call.origin, call.task);
    m := SweepHasReading(worlds, steps, n, call.origin, call.task);
    var last := PendingIsLastAsk(worlds, steps, n, call.task);
    MadeSince(worlds, steps, m, last);
    RunIsConsistent(worlds, steps, n);
    assert CallIsDue(worlds[n], call) && CallOk(call, k, worlds[n].requests, worlds[n].takenBy);
    if i: nat :| m <= i && IsLastAsk(steps, call.task, i, n) && steps[i].expiresAt > steps[m].now {
      OneLastAsk(steps, call.task, i, last, n);
    }
  }

  lemma OneLastAsk(steps: seq<Step>, task: string, i: nat, j: nat, n: nat)
    requires IsLastAsk(steps, task, i, n) && IsLastAsk(steps, task, j, n)
    ensures i == j
  {
  }

  /** What is requested after the reading `m` expires after it, as it does with a positive timeout. */
  ghost predicate LaterRequestsExpireLater(steps: seq<Step>, m: nat, n: nat) {
    && m < n <= |steps| && steps[m].Snapshot?
    && forall i :: m <= i < n && steps[i].MakeRequest? ==> steps[i].expiresAt > steps[m].now
  }

  ghost predicate AskedBetween(steps: seq<Step>, task: string, m: nat, n: nat) {
    exists i :: m <= i < n <= |steps| && steps[i].MakeRequest? && steps[i].task == task
  }

  lemma {:induction false} LastAskBetween(steps: seq<Step>, task: string, m: nat, n: nat) returns (i: nat)
    requires AskedBetween(steps, task, m, n)
    ensures m <= i && IsLastAsk(steps, task, i, n)
    decreases n
  {
    if steps[n - 1].MakeRequest? && steps[n - 1].task == task {
      i := n - 1;
    } else {
      i := LastAskBetween(steps, task, m, n - 1);
    }
  }

  /** So a sweep times out a request that was not due at the reading's time exactly when its task asked again between the reading and the Take. */
  lemma SweepIsStaleExactlyWhen(worlds: seq<World>, steps: seq<Step>, n: nat, k: nat) returns (m: nat)
    requires IsRun(worlds, steps) && n < |steps| && steps[n] == Take(k)
    requires k < |worlds[n].calls| && worlds[n].calls[k].origin.Sweep? && worlds[n].calls[k].task in worlds[n].pending
    ensures var call := worlds[n].calls[k];
            var id := worlds[n].pending[call.task];
            && m < n && IsReading(worlds, steps, m, call.origin, call.task) && id < |worlds[n].requests|
            && (LaterRequestsExpireLater(steps, m, n) ==>
                  (worlds[n].requests[id].expiresAt > steps[m].now <==> AskedBetween(steps, call.task, m, n)))
  {
    m := SweepIsEarlyExactlyWhen(worlds, steps, n, k);
    var task := worlds[n].calls[k].task;
    if AskedBetween(steps, task, m, n) {
      var i := LastAskBetween(steps, task, m, n);
    }
  }

  ghost predicate Reachable(w: World) {
    exists worlds, steps :: IsRun(worlds, steps) && worlds[|worlds| - 1] == w
  }

  lemma ReachesNext(w: World, s: Step)
    requires Reachable(w) && Enabled(w, s)
    ensures Reachable(Next(w, s))
  {
    hide Next, Enabled;
    var worlds, steps :| IsRun(worlds, steps) && worlds[|worlds| - 1] == w;
    assert IsRun(worlds + [Next(w, s)], steps + [s]);
  }

  /** A world in which a sweep has read that a task's request is due and the task's decision has taken that request. */
  lemma DecidedDuringSweep(task: string, now: int, result: string) returns (w: World)
    ensures Reachable(w) && |w.requests| == |w.channels| == 1 && |w.calls| == 1 && w.pending == map[]
    ensures w.sweep == [task] && w.sweepOrigin == Sweep(now, 1)
  {
    assert IsRun([EMPTY_WORLD], []);
    ReachesNext(EMPTY_WORLD, MakeRequest(task, now));
    w := Requesting(EMPTY_WORLD, task, now);
    assert w.pending.Keys == {task} && w.pending[task] == 0;
    ReachesNext(w, Snapshot(now, [task]));
    w := w.(sweep := [task], sweepOrigin := Sweep(now, 1));
    ReachesNext(w, Decide(task, result));
    w := Beginning(w, Call(task, result, Anyone, None, Started));
    ReachesNext(w, Take(0));
    w := Taking(w, 0);
    assert w.pending == map[];
  }

  /** And that happens: the task is decided and asks again between the sweep's reading and its decision. */
  lemma StaleSweepTimesOutFreshRequest(task: string, now: int, result: string) returns (w: World)
    ensures Reachable(w) && |w.requests| == |w.channels| == |w.calls| == 2
    ensures w.calls[1].origin == Sweep(now, 1) && w.calls[1].taken == Some(1)
    ensures w.requests[1] == Request(task, now + 1) && w.channels[1].delivered == [Guardian.TIMEOUT]
  {
    w := DecidedDuringSweep(task, now, result);
    ReachesNext(w, MakeRequest(task, now + 1));
    w := Requesting(w, task, now + 1);
    ReachesNext(w, SweepNext);
    w := Beginning(w, Call(task, Guardian.TIMEOUT, Sweep(now, 1), None, Started)).(sweep := []);
    assert w.pending[task] == 1;
    ReachesNext(w, Take(1));
    w := Taking(w, 1);
    ReachesNext(w, Send(1));
    w := Sending(w, 1, 1);
  }
}
