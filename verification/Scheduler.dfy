/**
 The cold-start scheduler of internal/scheduler/coldstart.go. The object's methods are its critical
 sections, plus the calls made of them when nothing interleaves; `World` is the whole system, whose
 steps are those sections and the backend calls between them, in any interleaving without `Stop`.
 The backend's answers and the clock readings are arbitrary.
 */
module Scheduler {
  import opened Sequences

  datatype Handle = Handle(createdAt: int, lastUsed: int, closed: bool)

  type Tracked = map<string, Handle>

  datatype ReleaseStart = NotFound | AlreadyClosed | Marked

  function StartOfRelease(tracked: Tracked, id: string): ReleaseStart {
    if id !in tracked then NotFound else if tracked[id].closed then AlreadyClosed else Marked
  }

  function MarkedClosed(tracked: Tracked, id: string): Tracked
    requires id in tracked
  {
    tracked[id := tracked[id].(closed := true)]
  }

  function Touched(tracked: Tracked, id: string, now: int): Tracked {
    if id in tracked then tracked[id := tracked[id].(lastUsed := now)] else tracked
  }

  predicate IsIdle(h: Handle, now: int, idleTimeout: int) {
    now - h.lastUsed > idleTimeout
  }

  /** A container used at `t` is not idle until the timeout has passed since then, whenever it was made. */
  lemma UsedIsNotIdle(tracked: Tracked, id: string, t: int, now: int, idleTimeout: int)
    requires id in tracked
    ensures IsIdle(Touched(tracked, id, t)[id], now, idleTimeout) <==> now > t + idleTimeout
    ensures Touched(tracked, id, t).Keys == tracked.Keys && forall m :: m in tracked && m != id ==> Touched(tracked, id, t)[m] == tracked[m]
    ensures Touched(tracked, id, t)[id].createdAt == tracked[id].createdAt && Touched(tracked, id, t)[id].closed == tracked[id].closed
  {
  }

  // ----- the scheduler object -----

  class ColdStartScheduler {
    const maxContainers: int
    const idleTimeout: int
    var containers: Tracked

    constructor (maxContainers: int, idleTimeout: int)
      ensures containers == map[] && this.maxContainers == maxContainers && this.idleTimeout == idleTimeout
    {
      this.maxContainers, this.idleTimeout, this.containers := maxContainers, idleTimeout, map[];
    }

    /** The first section of `Acquire`. */
    method HasRoom() returns (ok: bool)
      ensures ok <==> |containers| < maxContainers
    {
      if |containers| >= maxContainers {
        return false;
      }
      return true;
    }

    /** The second section of `Acquire`. */
    method Track(id: string, now: int)
      modifies this
      ensures containers == old(containers)[id := Handle(now, now, false)]
    {
      containers := containers[id := Handle(now, now, false)];
    }

    /** The first section of `Release`. */
    method MarkClosed(id: string) returns (start: ReleaseStart)
      modifies this
      ensures start == StartOfRelease(old(containers), id)
      ensures containers == if start == Marked then MarkedClosed(old(containers), id) else old(containers)
    {
      if id !in containers {
        return NotFound;
      }
      var handle := containers[id];
      if handle.closed {
        return AlreadyClosed;
      }
      handle := handle.(closed := true);
      containers := containers[id := handle];
      return Marked;
    }

    /** The second section of `Release`. */
    method Untrack(id: string)
      modifies this
      ensures containers == old(containers) - {id}
    {
      containers := containers - {id};
    }

    method UpdateLastUsed(id: string, now: int)
      modifies this
      ensures containers == Touched(old(containers), id, now)
    {
      if id in containers {
        var h := containers[id];
        h := h.(lastUsed := now);
        containers := containers[id := h];
      }
    }

    /** The first section of `cleanupIdle`. */
    method IdleIds(now: int) returns (toClean: seq<string>)
      ensures Distinct(toClean)
      ensures forall id :: id in toClean <==> id in containers && now - containers[id].lastUsed > idleTimeout
    {
      toClean := [];
      var rest := containers.Keys;
      while rest != {}
        invariant rest <= containers.Keys && Distinct(toClean)
        invariant forall id :: id in toClean <==> id in containers && id !in rest && now - containers[id].lastUsed > idleTimeout
        decreases rest
      {
        var id :| id in rest;
        rest := rest - {id};
        if now - containers[id].lastUsed > idleTimeout {
          toClean := toClean + [id];
        }
      }
    }

    method BackendDestroys(id: string) returns (ok: bool)
    {
      ok := *;
    }

    /** `Release` when nothing interleaves. */
    method Release(id: string) returns (start: ReleaseStart, destroyed: bool)
      modifies this
      ensures start == StartOfRelease(old(containers), id)
      ensures start != Marked ==> containers == old(containers) && !destroyed
      ensures start == Marked ==> containers == if destroyed then old(containers) - {id} else MarkedClosed(old(containers), id)
    {
      destroyed := false;
      start := MarkClosed(id);
      if start != Marked {
        return;
      }
      destroyed := BackendDestroys(id);
      if destroyed {
        Untrack(id);
        assert containers == old(containers) - {id};
      }
    }

    /**
     `cleanupIdle` when nothing interleaves: every container that was used longer ago than the idle timeout is gone or
     closed, those that were closed already stay, and the others are untouched.
     */
    method CleanupIdle(now: int)
      modifies this
      ensures containers.Keys <= old(containers).Keys
      ensures forall id :: id in old(containers) && (now - old(containers)[id].lastUsed <= idleTimeout || old(containers)[id].closed) ==>
                id in containers && containers[id] == old(containers)[id]
      ensures forall id :: id in old(containers) && now - old(containers)[id].lastUsed > idleTimeout && id in containers ==>
                containers[id] == old(containers)[id].(closed := true)
    {
      var toClean := IdleIds(now);
      for i := 0 to |toClean|
        invariant containers.Keys <= old(containers).Keys
        invariant forall id :: id in old(containers) && (id !in toClean[..i] || old(containers)[id].closed) ==>
                    id in containers && containers[id] == old(containers)[id]
        invariant forall id :: id in toClean[..i] && id in containers ==>
                    containers[id] == old(containers)[id].(closed := true)
      {
        assert toClean[..i + 1] == toClean[..i] + [toClean[i]];
        var start, destroyed := Release(toClean[i]);
      }
      assert toClean[..|toClean|] == toClean;
    }
  }

  // ----- the interleaved system -----

  datatype World = World(
    containers: Tracked,      // what the scheduler tracks
    creating: nat,            // Acquire calls between the limit check and the backend's answer
    created: set<string>,     // ids an Acquire call holds but has not tracked yet
    used: set<string>,        // every id the backend has handed out
    marked: set<string>,      // Release calls that marked their container and are about to call Destroy
    inBackend: set<string>,   // Release calls waiting for Destroy
    removing: set<string>,    // Release calls whose Destroy succeeded and that are about to untrack
    destroyCalls: seq<string>,
    destroyed: set<string>,
    failed: set<string>,      // ids whose Destroy failed
    toClean: seq<string>)     // what is left of an idle cleanup's snapshot

  const EMPTY_WORLD := World(map[], 0, {}, {}, {}, {}, {}, [], {}, {}, [])

  datatype Step =
    | CheckLimit
    | CreateFails
    | CreateReturns(id: string)
    | TrackCreated(id: string, now: int)
    | StartRelease(id: string)
    | CallDestroy(id: string)
    | DestroyReturns(id: string, ok: bool)
    | UntrackDestroyed(id: string)
    | Touch(id: string, now: int)
    | SnapshotIdle(now: int, toClean: seq<string>)
    | CleanNext

  datatype Limits = Limits(maxContainers: int, idleTimeout: int)

  /** Calls of `Acquire` in flight. */
  function InFlight(w: World): nat {
    w.creating + |w.created|
  }

  /** `Release`, from any caller: a container's `Close`, a direct call or the idle cleanup. */
  function Releasing(w: World, id: string): World {
    if StartOfRelease(w.containers, id) == Marked
    then w.(containers := MarkedClosed(w.containers, id), marked := w.marked + {id})
    else w
  }

  ghost predicate Enabled(limits: Limits, w: World, s: Step) {
    match s
    case CheckLimit => true
    case CreateFails => w.creating > 0
    case CreateReturns(id) => w.creating > 0 && id !in w.used
    case TrackCreated(id, now) => id in w.created
    case StartRelease(id) => true
    case CallDestroy(id) => id in w.marked
    case DestroyReturns(id, ok) => id in w.inBackend
    case UntrackDestroyed(id) => id in w.removing
    case Touch(id, now) => true
    case SnapshotIdle(now, toClean) =>
      && w.toClean == [] && Distinct(toClean)
      && forall id :: id in toClean <==> id in w.containers && IsIdle(w.containers[id], now, limits.idleTimeout)
    case CleanNext => w.toClean != []
  }

  ghost function Next(limits: Limits, w: World, s: Step): World
    requires Enabled(limits, w, s)
  {
    match s
    case CheckLimit => if |w.containers| >= limits.maxContainers then w else w.(creating := w.creating + 1)
    case CreateFails => w.(creating := w.creating - 1)
    case CreateReturns(id) => w.(creating := w.creating - 1, created := w.created + {id}, used := w.used + {id})
    case TrackCreated(id, now) => w.(containers := w.containers[id := Handle(now, now, false)], created := w.created - {id})
    case StartRelease(id) => Releasing(w, id)
    case CallDestroy(id) => w.(marked := w.marked - {id}, inBackend := w.inBackend + {id}, destroyCalls := w.destroyCalls + [id])
    case DestroyReturns(id, ok) =>
      var answered := w.(inBackend := w.inBackend - {id});
      if ok then answered.(removing := w.removing + {id}, destroyed := w.destroyed + {id})
      else answered.(failed := w.failed + {id})
    case UntrackDestroyed(id) => w.(containers := w.containers - {id}, removing := w.removing - {id})
    case Touch(id, now) => w.(containers := Touched(w.containers, id, now))
    case SnapshotIdle(now, toClean) => w.(toClean := toClean)
    case CleanNext => Releasing(w, w.toClean[0]).(toClean := w.toClean[1..])
  }

  /** Containers being released are tracked, closed, and each in one stage of its release. */
  ghost predicate StagesOk(w: World) {
    && (forall id :: id in w.marked ==> id in w.containers && w.containers[id].closed && id !in w.destroyCalls)
    && (forall id :: id in w.inBackend ==> id in w.containers && w.containers[id].closed && id in w.destroyCalls)
    && (forall id :: id in w.removing ==> id in w.containers && w.containers[id].closed && id in w.destroyed)
    && (forall id :: id in w.failed ==> id in w.containers && w.containers[id].closed && id in w.destroyCalls)
    && w.inBackend !! w.removing && w.inBackend !! w.failed && w.removing !! w.failed
  }

  /** A container not being released has not been passed to Destroy; ids are never handed out again. */
  ghost predicate HistoryOk(w: World) {
    && Distinct(w.destroyCalls)
    && (forall id :: id in w.containers && !w.containers[id].closed ==> id !in w.destroyCalls)
    && (forall id :: id in w.destroyCalls ==> id in w.used && id !in w.created)
    && (forall id :: id in w.containers ==> id in w.used && id !in w.created)
    && (forall id :: id in w.destroyed ==> id in w.destroyCalls)
    && (forall id :: id in w.created ==> id in w.used)
    && (forall id :: id in w.used && id !in w.created ==> id in w.containers || id in w.destroyed)
  }

  ghost predicate Consistent(w: World) {
    StagesOk(w) && HistoryOk(w)
  }

  lemma ReleasingKeeps(w: World, id: string)
    requires Consistent(w)
    ensures Consistent(Releasing(w, id))
  {
  }

  lemma StepKeeps(limits: Limits, w: World, s: Step)
    requires Consistent(w) && Enabled(limits, w, s)
    ensures Consistent(Next(limits, w, s))
  {
    match s
    case StartRelease(id) => ReleasingKeeps(w, id);
    case CleanNext => ReleasingKeeps(w, w.toClean[0]);
    case _ =>
  }

  // ----- runs -----

  ghost predicate IsRun(limits: Limits, worlds: seq<World>, steps: seq<Step>) {
    && |worlds| == |steps| + 1 && worlds[0] == EMPTY_WORLD
    && forall i :: 0 <= i < |steps| ==> Enabled(limits, worlds[i], steps[i]) && worlds[i + 1] == Next(limits, worlds[i], steps[i])
  }

  lemma {:induction false} RunIsConsistent(limits: Limits, worlds: seq<World>, steps: seq<Step>, n: nat)
    requires IsRun(limits, worlds, steps) && n < |worlds|
    ensures Consistent(worlds[n])
  {
    if n > 0 {
      RunIsConsistent(limits, worlds, steps, n - 1);
      StepKeeps(limits, worlds[n - 1], steps[n - 1]);
    }
  }

  /** No container is passed to Destroy twice, under any interleaving of closes, releases and idle cleanups. */
  lemma DestroyedAtMostOnce(limits: Limits, worlds: seq<World>, steps: seq<Step>, n: nat)
    requires IsRun(limits, worlds, steps) && n < |worlds|
    ensures Distinct(worlds[n].destroyCalls)
    ensures forall id :: id in worlds[n].destroyed ==> id in worlds[n].destroyCalls
  {
    RunIsConsistent(limits, worlds, steps, n);
  }

  lemma StepGrows(limits: Limits, w: World, s: Step)
    requires Enabled(limits, w, s)
    ensures w.used - w.created <= Next(limits, w, s).used - Next(limits, w, s).created
    ensures w.failed <= Next(limits, w, s).failed && w.destroyCalls <= Next(limits, w, s).destroyCalls
  {
  }

  /** What only grows along a run. */
  lemma {:induction false} HistoryGrows(limits: Limits, worlds: seq<World>, steps: seq<Step>, m: nat, n: nat)
    requires IsRun(limits, worlds, steps) && m <= n < |worlds|
    ensures worlds[m].used - worlds[m].created <= worlds[n].used - worlds[n].created
    ensures worlds[m].failed <= worlds[n].failed
    ensures worlds[m].destroyCalls <= worlds[n].destroyCalls
  {
    hide Next, Enabled;
    if m < n {
      HistoryGrows(limits, worlds, steps, m, n - 1);
      StepGrows(limits, worlds[n - 1], steps[n - 1]);
    }
  }

  /** Once tracked, a container stays tracked until a Destroy of it has succeeded. */
  lemma TrackedUntilDestroyed(limits: Limits, worlds: seq<World>, steps: seq<Step>, m: nat, n: nat, id: string)
    requires IsRun(limits, worlds, steps) && m <= n < |worlds|
    requires id in worlds[m].containers
    ensures id in worlds[n].containers || id in worlds[n].destroyed
  {
    RunIsConsistent(limits, worlds, steps, m);
    RunIsConsistent(limits, worlds, steps, n);
    HistoryGrows(limits, worlds, steps, m, n);
    assert id in worlds[m].used - worlds[m].created;
  }

  /** A failed Destroy is never retried: the container keeps its slot, closed, for the rest of the run. */
  lemma FailedDestroyKeepsSlot(limits: Limits, worlds: seq<World>, steps: seq<Step>, m: nat, n: nat, id: string)
    requires IsRun(limits, worlds, steps) && m <= n < |worlds|
    requires id in worlds[m].failed
    ensures id in worlds[n].containers && worlds[n].containers[id].closed
    ensures multiset(worlds[n].destroyCalls)[id] == 1
  {
    HistoryGrows(limits, worlds, steps, m, n);
    RunIsConsistent(limits, worlds, steps, n);
    DistinctMultiplicity(worlds[n].destroyCalls, id);
  }

  /** A closed container is being released, or its Destroy has failed. */
  ghost predicate ClosedIsAccounted(w: World) {
    forall id :: id in w.containers && w.containers[id].closed ==>
      id in w.marked || id in w.inBackend || id in w.removing || id in w.failed
  }

  lemma StepAccounts(limits: Limits, w: World, s: Step)
    requires ClosedIsAccounted(w) && Enabled(limits, w, s)
    ensures ClosedIsAccounted(Next(limits, w, s))
  {
  }

  lemma {:induction false} RunAccounts(limits: Limits, worlds: seq<World>, steps: seq<Step>, n: nat)
    requires IsRun(limits, worlds, steps) && n < |worlds|
    ensures ClosedIsAccounted(worlds[n])
  {
    hide Next, Enabled;
    if n > 0 {
      RunAccounts(limits, worlds, steps, n - 1);
      StepAccounts(limits, worlds[n - 1], steps[n - 1]);
    }
  }

  /** When no release is under way, the closed containers are exactly those whose Destroy failed. */
  lemma ClosedExactlyWhenFailed(limits: Limits, worlds: seq<World>, steps: seq<Step>, n: nat, id: string)
    requires IsRun(limits, worlds, steps) && n < |worlds|
    requires worlds[n].marked == {} && worlds[n].inBackend == {} && worlds[n].removing == {}
    ensures id in worlds[n].containers && worlds[n].containers[id].closed <==> id in worlds[n].failed
  {
    RunIsConsistent(limits, worlds, steps, n);
    RunAccounts(limits, worlds, steps, n);
  }

  lemma StepKeepsClosed(limits: Limits, w: World, s: Step, id: string)
    requires Consistent(w) && Enabled(limits, w, s)
    requires id in w.containers && w.containers[id].closed && id in Next(limits, w, s).containers
    ensures Next(limits, w, s).containers[id].closed
  {
  }

  /** What is tracked at both ends of a run has been tracked all along, and stays closed once it is. */
  lemma {:induction false} StaysClosed(limits: Limits, worlds: seq<World>, steps: seq<Step>, m: nat, n: nat, id: string)
    requires IsRun(limits, worlds, steps) && m <= n < |worlds|
    requires id in worlds[m].containers && worlds[m].containers[id].closed
    ensures id in worlds[n].containers ==> worlds[n].containers[id].closed
  {
    hide Next, Enabled, Consistent;
    if m < n {
      StaysClosed(limits, worlds, steps, m, n - 1, id);
      RunIsConsistent(limits, worlds, steps, n - 1);
      if id in worlds[n].containers {
        NeverTrackedAgain(limits, worlds, steps, m, n - 1, id);
        StepKeepsClosed(limits, worlds[n - 1], steps[n - 1], id);
      }
    }
  }

  /** Ids are not handed out again: what has been tracked and is so at the next step is so now. */
  lemma NeverTrackedAgain(limits: Limits, worlds: seq<World>, steps: seq<Step>, m: nat, n: nat, id: string)
    requires IsRun(limits, worlds, steps) && m <= n < |steps|
    requires id in worlds[m].containers && id in worlds[n + 1].containers
    ensures id in worlds[n].containers
  {
    RunIsConsistent(limits, worlds, steps, m);
    RunIsConsistent(limits, worlds, steps, n);
    HistoryGrows(limits, worlds, steps, m, n);
    assert id in worlds[m].used - worlds[m].created;
    assert worlds[n + 1] == Next(limits, worlds[n], steps[n]);
  }

  /** Once a release of a tracked container has begun, it is destroyed or its Destroy has failed by the time no release is under way. */
  lemma ReleasedIsSettled(limits: Limits, worlds: seq<World>, steps: seq<Step>, m: nat, n: nat, id: string)
    requires IsRun(limits, worlds, steps) && m < n < |worlds|
    requires steps[m] == StartRelease(id) || (steps[m] == CleanNext && worlds[m].toClean[0] == id)
    requires id in worlds[m].containers
    requires worlds[n].marked == {} && worlds[n].inBackend == {} && worlds[n].removing == {}
    ensures id in worlds[n].destroyCalls && (id in worlds[n].destroyed || id in worlds[n].failed)
  {
    assert worlds[m + 1] == Next(limits, worlds[m], steps[m]);
    assert id in worlds[m + 1].containers && worlds[m + 1].containers[id].closed;
    StaysClosed(limits, worlds, steps, m + 1, n, id);
    TrackedUntilDestroyed(limits, worlds, steps, m + 1, n, id);
    ClosedExactlyWhenFailed(limits, worlds, steps, n, id);
    RunIsConsistent(limits, worlds, steps, n);
  }

  // ----- idle cleanup -----

  /** The container is tracked or used, at the time given. */
  predicate Uses(s: Step, id: string) {
    (s.TrackCreated? || s.Touch?) && s.id == id
  }

  /** Step `k` was the last use of the container before step `n`. */
  ghost predicate IsLastUse(steps: seq<Step>, id: string, k: nat, n: nat) {
    k < n <= |steps| && Uses(steps[k], id) && forall i :: k < i < n ==> !Uses(steps[i], id)
  }

  /** A tracked container remembers the time of its last use. */
  lemma {:induction false} RemembersLastUse(limits: Limits, worlds: seq<World>, steps: seq<Step>, n: nat, id: string) returns (k: nat)
    requires IsRun(limits, worlds, steps) && n < |worlds| && id in worlds[n].containers
    ensures IsLastUse(steps, id, k, n) && worlds[n].containers[id].lastUsed == steps[k].now
  {
    StepUses(limits, worlds[n - 1], steps[n - 1], id);
    hide Next, Enabled;
    if Uses(steps[n - 1], id) {
      k := n - 1;
    } else {
      k := RemembersLastUse(limits, worlds, steps, n - 1, id);
    }
  }

  lemma StepUses(limits: Limits, w: World, s: Step, id: string)
    requires Enabled(limits, w, s) && id in Next(limits, w, s).containers
    ensures if Uses(s, id) then Next(limits, w, s).containers[id].lastUsed == s.now
            else id in w.containers && Next(limits, w, s).containers[id].lastUsed == w.containers[id].lastUsed
  {
  }

  /** A cleanup lists a tracked container exactly when its last use is longer ago than the idle timeout, and no others. */
  lemma ListedExactlyWhen(limits: Limits, worlds: seq<World>, steps: seq<Step>, n: nat, id: string) returns (k: nat)
    requires IsRun(limits, worlds, steps) && n < |steps| && steps[n].SnapshotIdle?
    ensures id in steps[n].toClean ==> id in worlds[n].containers
    ensures id in worlds[n].containers ==>
              && IsLastUse(steps, id, k, n)
              && (id in steps[n].toClean <==> steps[n].now - steps[k].now > limits.idleTimeout)
  {
    k := 0;
    if id in worlds[n].containers {
      k := RemembersLastUse(limits, worlds, steps, n, id);
    }
  }

  /** Step `m` was the last cleanup to be begun before step `n`. */
  ghost predicate IsLastSnapshot(steps: seq<Step>, m: nat, n: nat) {
    m < n <= |steps| && steps[m].SnapshotIdle? && forall i :: m < i < n ==> !steps[i].SnapshotIdle?
  }

  /** Whatever a cleanup has left to do was listed when it began. */
  lemma {:induction false} LeftWasListed(limits: Limits, worlds: seq<World>, steps: seq<Step>, n: nat) returns (m: nat)
    requires IsRun(limits, worlds, steps) && n < |worlds| && worlds[n].toClean != []
    ensures IsLastSnapshot(steps, m, n)
    ensures forall id :: id in worlds[n].toClean ==> id in steps[m].toClean
  {
    StepLists(limits, worlds[n - 1], steps[n - 1]);
    hide Next, Enabled;
    if steps[n - 1].SnapshotIdle? {
      m := n - 1;
    } else {
      m := LeftWasListed(limits, worlds, steps, n - 1);
    }
  }

  lemma StepLists(limits: Limits, w: World, s: Step)
    requires Enabled(limits, w, s)
    ensures if s.SnapshotIdle? then Next(limits, w, s).toClean == s.toClean
            else forall id :: id in Next(limits, w, s).toClean ==> id in w.toClean
  {
  }

  /** The clock readings of a run do not run backwards. */
  ghost predicate Timely(steps: seq<Step>) {
    forall i, j :: 0 <= i < j < |steps| && ReadsClock(steps[i]) && ReadsClock(steps[j]) ==> steps[i].now <= steps[j].now
  }

  predicate ReadsClock(s: Step) {
    s.TrackCreated? || s.Touch? || s.SnapshotIdle?
  }

  /**
   When a cleanup comes to a container, it was idle when the cleanup began; measured by that time it is idle still
   exactly when it has not been used in between.
   */
  lemma CleanedIsIdleExactlyWhen(limits: Limits, worlds: seq<World>, steps: seq<Step>, n: nat, id: string) returns (m: nat)
    requires IsRun(limits, worlds, steps) && Timely(steps) && limits.idleTimeout >= 0
    requires n < |steps| && steps[n].CleanNext? && worlds[n].toClean[0] == id && id in worlds[n].containers
    ensures IsLastSnapshot(steps, m, n) && id in steps[m].toClean
    ensures id in worlds[m].containers && IsIdle(worlds[m].containers[id], steps[m].now, limits.idleTimeout)
    ensures IsIdle(worlds[n].containers[id], steps[m].now, limits.idleTimeout) <==> forall i :: m < i < n ==> !Uses(steps[i], id)
  {
    m := LeftWasListed(limits, worlds, steps, n);
    var first := ListedExactlyWhen(limits, worlds, steps, m, id);
    var k := RemembersLastUse(limits, worlds, steps, n, id);
    assert k != m;
    assert k < m ==> k == first;
  }

  /** The world with one container, which an Acquire call has tracked. */
  function OneTracked(h: Handle): World {
    EMPTY_WORLD.(containers := map["a" := h], used := {"a"})
  }

  ghost predicate Leads(limits: Limits, w: World, s: Step, next: World) {
    Enabled(limits, w, s) && next == Next(limits, w, s)
  }

  lemma TrackOne(limits: Limits)
    requires limits.maxContainers >= 1
    ensures Leads(limits, EMPTY_WORLD, CheckLimit, EMPTY_WORLD.(creating := 1))
    ensures Leads(limits, EMPTY_WORLD.(creating := 1), CreateReturns("a"), EMPTY_WORLD.(created := {"a"}, used := {"a"}))
    ensures Leads(limits, EMPTY_WORLD.(created := {"a"}, used := {"a"}), TrackCreated("a", 0), OneTracked(Handle(0, 0, false)))
  {
    assert {} + {"a"} == {"a"} && {"a"} - {"a"} == {};
  }

  lemma ListOneThenUseIt(limits: Limits, t: int)
    requires t > limits.idleTimeout
    ensures Leads(limits, OneTracked(Handle(0, 0, false)), SnapshotIdle(t, ["a"]), OneTracked(Handle(0, 0, false)).(toClean := ["a"]))
    ensures Leads(limits, OneTracked(Handle(0, 0, false)).(toClean := ["a"]), Touch("a", t), OneTracked(Handle(0, t, false)).(toClean := ["a"]))
  {
  }

  lemma CleanOne(limits: Limits, t: int)
    ensures var marked := OneTracked(Handle(0, t, true)).(marked := {"a"});
            && Leads(limits, OneTracked(Handle(0, t, false)).(toClean := ["a"]), CleanNext, marked)
            && Leads(limits, marked, CallDestroy("a"), marked.(marked := {}, inBackend := {"a"}, destroyCalls := ["a"]))
  {
    assert {} + {"a"} == {"a"} && {"a"} - {"a"} == {} && [] + ["a"] == ["a"];
  }

  /** A cleanup can destroy a container that was used after it began. */
  lemma CleanupCanDestroyUsed(limits: Limits) returns (worlds: seq<World>, steps: seq<Step>)
    requires limits.maxContainers >= 1 && limits.idleTimeout >= 0
    ensures IsRun(limits, worlds, steps) && Timely(steps)
    ensures |steps| == 7 && steps[4].Touch? && steps[5].CleanNext? && worlds[7].destroyCalls == [steps[4].id]
    ensures steps[4].id in worlds[7].containers && !IsIdle(worlds[7].containers[steps[4].id], steps[4].now, limits.idleTimeout)
  {
    hide Next, Enabled;
    var t := limits.idleTimeout + 1;
    TrackOne(limits);
    ListOneThenUseIt(limits, t);
    CleanOne(limits, t);
    var before, used := OneTracked(Handle(0, 0, false)), OneTracked(Handle(0, t, false));
    var marked := OneTracked(Handle(0, t, true)).(marked := {"a"});
    steps := [CheckLimit, CreateReturns("a"), TrackCreated("a", 0), SnapshotIdle(t, ["a"]), Touch("a", t), CleanNext, CallDestroy("a")];
    worlds := [EMPTY_WORLD, EMPTY_WORLD.(creating := 1), EMPTY_WORLD.(created := {"a"}, used := {"a"}), before,
               before.(toClean := ["a"]), used.(toClean := ["a"]), marked,
               marked.(marked := {}, inBackend := {"a"}, destroyCalls := ["a"])];
    assert forall i :: 0 <= i < 7 ==> Leads(limits, worlds[i], steps[i], worlds[i + 1]);
  }

  // ----- capacity -----

  ghost predicate AtMostInFlight(worlds: seq<World>, k: nat) {
    forall i :: 0 <= i < |worlds| ==> InFlight(worlds[i]) <= k
  }

  ghost predicate WithinCapacity(limits: Limits, w: World, k: nat) {
    |w.containers| + InFlight(w) <= limits.maxContainers - 1 + k
  }

  /** Only the limit check adds to what is tracked or about to be. */
  lemma SizeStep(limits: Limits, w: World, s: Step)
    requires Consistent(w) && Enabled(limits, w, s) && !s.CheckLimit?
    ensures |Next(limits, w, s).containers| + InFlight(Next(limits, w, s)) <= |w.containers| + InFlight(w)
  {
    match s
    case CreateFails =>
    case CreateReturns(id) =>
    case TrackCreated(id, now) =>
      TrackedKeys(w.containers, id, Handle(now, now, false));
    case UntrackDestroyed(id) =>
      UntrackedKeys(w.containers, id);
    case StartRelease(id) =>
      ReleasingKeepsSize(w, id);
    case CleanNext =>
      ReleasingKeepsSize(w, w.toClean[0]);
    case Touch(id, now) =>
      if id in w.containers { TrackedKeys(w.containers, id, w.containers[id].(lastUsed := now)); }
    case CallDestroy(id) =>
    case DestroyReturns(id, ok) =>
    case SnapshotIdle(now, toClean) =>
  }

  lemma TrackedKeys(tracked: Tracked, id: string, h: Handle)
    ensures |tracked[id := h]| == |tracked| + if id in tracked then 0 else 1
  {
    assert tracked[id := h].Keys == tracked.Keys + {id};
  }

  lemma UntrackedKeys(tracked: Tracked, id: string)
    requires id in tracked
    ensures |tracked - {id}| == |tracked| - 1
  {
    assert (tracked - {id}).Keys == tracked.Keys - {id};
  }

  lemma ReleasingKeepsSize(w: World, id: string)
    ensures |Releasing(w, id).containers| == |w.containers| && InFlight(Releasing(w, id)) == InFlight(w)
  {
    if id in w.containers { TrackedKeys(w.containers, id, w.containers[id].(closed := true)); }
  }

  lemma CapacityStep(limits: Limits, w: World, s: Step, k: nat)
    requires Consistent(w) && Enabled(limits, w, s)
    requires WithinCapacity(limits, w, k) && InFlight(Next(limits, w, s)) <= k
    ensures WithinCapacity(limits, Next(limits, w, s), k)
  {
    if !s.CheckLimit? { SizeStep(limits, w, s); }
  }

  /** With at most k calls of Acquire in flight at any time, at most MaxContainers-1+k containers are tracked. */
  lemma {:induction false} CapacityBound(limits: Limits, worlds: seq<World>, steps: seq<Step>, k: nat, n: nat)
    requires IsRun(limits, worlds, steps) && n < |worlds| && limits.maxContainers >= 1
    requires AtMostInFlight(worlds, k)
    ensures WithinCapacity(limits, worlds[n], k)
    ensures |worlds[n].containers| <= limits.maxContainers - 1 + k
  {
    if n > 0 {
      CapacityBound(limits, worlds, steps, k, n - 1);
      RunIsConsistent(limits, worlds, steps, n - 1);
      assert InFlight(worlds[n]) <= k;
      CapacityStep(limits, worlds[n - 1], steps[n - 1], k);
    }
  }

  /** Sequential Acquire calls never exceed the configured maximum. */
  lemma SequentialCapacity(limits: Limits, worlds: seq<World>, steps: seq<Step>, n: nat)
    requires IsRun(limits, worlds, steps) && n < |worlds| && limits.maxContainers >= 1
    requires AtMostInFlight(worlds, 1)
    ensures |worlds[n].containers| <= limits.maxContainers
  {
    CapacityBound(limits, worlds, steps, 1, n);
  }

  // ----- the bound is reached -----

  /** Some run with at most `k` calls in flight leads to `w`. */
  ghost predicate Reachable(limits: Limits, k: nat, w: World) {
    exists worlds, steps :: IsRun(limits, worlds, steps) && AtMostInFlight(worlds, k) && worlds[|worlds| - 1] == w
  }

  lemma ReachesNext(limits: Limits, k: nat, w: World, s: Step)
    requires Reachable(limits, k, w) && Enabled(limits, w, s) && InFlight(Next(limits, w, s)) <= k
    ensures Reachable(limits, k, Next(limits, w, s))
  {
    hide Next, Enabled, InFlight;
    var worlds, steps :| IsRun(limits, worlds, steps) && AtMostInFlight(worlds, k) && worlds[|worlds| - 1] == w;
    assert IsRun(limits, worlds + [Next(limits, w, s)], steps + [s]);
    assert AtMostInFlight(worlds + [Next(limits, w, s)], k);
  }

  lemma {:induction false} LengthBound(s: set<string>) returns (n: nat)
    ensures forall x :: x in s ==> |x| <= n
  {
    if s == {} { return 0; }
    var x :| x in s;
    n := LengthBound(s - {x});
    n := if |x| > n then |x| else n;
    assert s == (s - {x}) + {x};
  }

  lemma FreshId(used: set<string>) returns (id: string)
    ensures id !in used
  {
    var n := LengthBound(used);
    id := seq(n + 1, i => 'x');
  }

  /** A world in which `tracked` containers are in use and `checked` calls of Acquire have passed the limit check. */
  ghost predicate Holding(w: World, tracked: nat, checked: nat) {
    |w.containers| == tracked && w.creating == checked && w.created == {} && w.containers.Keys == w.used
  }

  lemma CheckOnce(limits: Limits, k: nat, w: World, tracked: nat, checked: nat) returns (next: World)
    requires Reachable(limits, k, w) && Holding(w, tracked, checked)
    requires tracked < limits.maxContainers && checked < k
    ensures Reachable(limits, k, next) && Holding(next, tracked, checked + 1)
  {
    ReachesNext(limits, k, w, CheckLimit);
    next := Next(limits, w, CheckLimit);
  }

  lemma FinishOnce(limits: Limits, k: nat, w: World, tracked: nat, checked: nat) returns (next: World)
    requires Reachable(limits, k, w) && Holding(w, tracked, checked) && 0 < checked <= k
    ensures Reachable(limits, k, next) && Holding(next, tracked + 1, checked - 1)
  {
    var id := FreshId(w.used);
    var returned := Next(limits, w, CreateReturns(id));
    assert returned.created == {id};
    ReachesNext(limits, k, w, CreateReturns(id));
    next := Next(limits, returned, TrackCreated(id, 0));
    assert next.created == {} && next.containers.Keys == w.containers.Keys + {id};
    ReachesNext(limits, k, returned, TrackCreated(id, 0));
  }

  lemma {:induction false} FillSequentially(limits: Limits, k: nat, tracked: nat) returns (w: World)
    requires k >= 1 && tracked < limits.maxContainers
    ensures Reachable(limits, k, w) && Holding(w, tracked, 0)
  {
    if tracked == 0 {
      w := EMPTY_WORLD;
      assert IsRun(limits, [w], []);
      assert AtMostInFlight([w], k);
    } else {
      w := FillSequentially(limits, k, tracked - 1);
      w := CheckOnce(limits, k, w, tracked - 1, 0);
      w := FinishOnce(limits, k, w, tracked - 1, 1);
    }
  }

  /** So the bound is exact: k racing calls that all pass the check fill MaxContainers-1+k slots. */
  lemma CapacityBoundIsReached(limits: Limits, k: nat) returns (w: World)
    requires k >= 1 && limits.maxContainers >= 1
    ensures Reachable(limits, k, w) && |w.containers| == limits.maxContainers - 1 + k
  {
    var base := limits.maxContainers - 1;
    w := FillSequentially(limits, k, base);
    for j := 0 to k
      invariant Reachable(limits, k, w) && Holding(w, base, j)
    {
      w := CheckOnce(limits, k, w, base, j);
    }
    for j := 0 to k
      invariant Reachable(limits, k, w) && Holding(w, base + j, k - j)
    {
      w := FinishOnce(limits, k, w, base + j, k - j);
    }
  }
}
