/**
 Priority assignment of internal/orchestrator/decompose.go. The in-degree of this function counts the
 dependents of a subtask, so the top priority goes to the subtasks nothing depends on.
 The recursive closure of the source and the two maps it writes are a method with in and out values.
 */
module Priorities {
  import opened Sequences
  import opened DependencyGraph
  import opened ExecutionOrder

  ghost predicate HasDependent(graph: Graph, id: string) {
    exists x :: x in graph && id in graph[x]
  }

  /** `x` is `y` or needs it through a chain of dependencies within the list. */
  ghost predicate DependsTransitively(ids: seq<string>, graph: Graph, x: string, y: string) {
    exists walk :: IsWalk(walk, ids, graph) && walk[0] == x && walk[|walk| - 1] == y
  }

  lemma DependsOnItself(ids: seq<string>, graph: Graph, x: string)
    requires x in ids
    ensures DependsTransitively(ids, graph, x, x)
  {
    assert IsWalk([x], ids, graph);
  }

  /** Nothing but the subtask itself leads to one that no subtask depends on. */
  lemma ReachedHasDependent(ids: seq<string>, graph: Graph, x: string, y: string)
    requires DependsTransitively(ids, graph, x, y) && x != y
    ensures HasDependent(graph, y)
  {
    var walk :| IsWalk(walk, ids, graph) && walk[0] == x && walk[|walk| - 1] == y;
    assert walk[|walk| - 2 + 1] in Deps(graph, walk[|walk| - 2]);
  }

  /** Every listed subtask that depends on a member is a member. */
  ghost predicate DependentsInside(ids: seq<string>, graph: Graph, members: set<string>, all: set<string>) {
    forall u, w :: u in members && w in ids && u in Deps(graph, w) ==> w in all
  }

  lemma {:induction false} DependentsReached(ids: seq<string>, graph: Graph, members: set<string>, walk: seq<string>)
    requires DependentsInside(ids, graph, members, members)
    requires IsWalk(walk, ids, graph) && walk[|walk| - 1] in members
    ensures walk[0] in members
    decreases |walk|
  {
    if |walk| > 1 {
      assert IsWalk(walk[1..], ids, graph);
      DependentsReached(ids, graph, members, walk[1..]);
      assert walk[1] in Deps(graph, walk[0]);
    }
  }

  function PriorityOfLevel(level: int): int {
    if 9 - level < 1 then 1 else 9 - level
  }

  function OneLower(priority: int): int {
    if priority <= 1 then 1 else priority - 1
  }

  /** What one visit adds: everything new hangs below `id`, one priority step per dependency. */
  ghost predicate Visit(ids: seq<string>, graph: Graph, id: string, level: int,
                        before: map<string, int>, after: map<string, int>)
  {
    && before.Keys <= after.Keys
    && (forall x :: x in before ==> after[x] == before[x])
    && (forall x :: x in after.Keys - before.Keys ==>
          x in ids && DependsTransitively(ids, graph, x, id) && 1 <= after[x] <= PriorityOfLevel(level))
    && (forall x :: x in after.Keys - before.Keys && x != id ==>
          after[x] <= PriorityOfLevel(level + 1) && FollowsDependency(graph, before, after, x))
  }

  ghost predicate FollowsDependency(graph: Graph, before: map<string, int>, after: map<string, int>, x: string)
    requires x in after
  {
    exists y :: y in Deps(graph, x) && y in after.Keys - before.Keys && after[x] == OneLower(after[y])
  }

  /** The state between two nested visits: a visit of `id` whose own dependents are not yet all covered. */
  ghost predicate Progress(ids: seq<string>, graph: Graph, id: string, level: int,
                           start: map<string, int>, now: map<string, int>)
  {
    && id in now && id !in start && now[id] == PriorityOfLevel(level)
    && Visit(ids, graph, id, level, start, now)
    && DependentsInside(ids, graph, now.Keys - start.Keys - {id}, now.Keys)
  }

  /** A finished visit: `id` has the priority of its level and everything that depends on what is new is there too. */
  ghost predicate CompleteVisit(ids: seq<string>, graph: Graph, id: string, level: int,
                                before: map<string, int>, after: map<string, int>)
  {
    && Visit(ids, graph, id, level, before, after)
    && (id !in before ==> id in after && after[id] == PriorityOfLevel(level))
    && DependentsInside(ids, graph, after.Keys - before.Keys, after.Keys)
  }

  lemma ProgressStarts(ids: seq<string>, graph: Graph, id: string, level: nat, start: map<string, int>)
    requires id in ids && id !in start
    ensures Progress(ids, graph, id, level, start, start[id := PriorityOfLevel(level)])
  {
    DependsOnItself(ids, graph, id);
  }

  lemma ProgressContinues(ids: seq<string>, graph: Graph, id: string, next: string, level: nat,
                          start: map<string, int>, before: map<string, int>, after: map<string, int>)
    requires id in Deps(graph, next) && next in ids && id in ids
    requires Progress(ids, graph, id, level, start, before)
    requires CompleteVisit(ids, graph, next, level + 1, before, after)
    ensures Progress(ids, graph, id, level, start, after)
  {
    NestedVisit(ids, graph, id, next, level, start, before, after);
    InsideGrows(ids, graph, before.Keys - start.Keys - {id}, before.Keys, after.Keys);
    assert after.Keys - start.Keys - {id} <= (before.Keys - start.Keys - {id}) + (after.Keys - before.Keys);
  }

  lemma InsideGrows(ids: seq<string>, graph: Graph, members: set<string>, before: set<string>, after: set<string>)
    requires before <= after
    requires DependentsInside(ids, graph, members, before)
    requires DependentsInside(ids, graph, after - before, after)
    ensures DependentsInside(ids, graph, members + (after - before), after)
  {
  }

  /** Visits an unvisited subtask and everything that depends on it; each visit marks a new one, so it ends on cycles too. */
  method AssignLevel(ids: seq<string>, graph: Graph, id: string, level: nat,
                     visited0: set<string>, priorities0: map<string, int>)
    returns (visited: set<string>, priorities: map<string, int>)
    requires id in ids && visited0 <= Elements(ids) && priorities0.Keys == visited0
    ensures visited0 <= visited && id in visited
    ensures visited <= Elements(ids) && priorities.Keys == visited
    ensures id in visited0 ==> visited == visited0 && priorities == priorities0
    ensures CompleteVisit(ids, graph, id, level, priorities0, priorities)
    decreases Elements(ids) - visited0, 0
  {
    visited, priorities := visited0, priorities0;
    if id in visited {
      return;
    }
    visited := visited + {id};
    var priority := 9 - level;
    if priority < 1 {
      priority := 1;
    }
    priorities := priorities[id := priority];
    ProgressStarts(ids, graph, id, level, priorities0);
    for k := 0 to |ids|
      invariant visited0 + {id} <= visited && visited <= Elements(ids) && priorities.Keys == visited
      invariant Progress(ids, graph, id, level, priorities0, priorities)
      invariant Covered(ids, graph, id, k, visited)
    {
      ghost var before := visited;
      visited, priorities := VisitIfDependent(ids, graph, id, ids[k], level, visited0, priorities0, visited, priorities);
      CoversNext(ids, graph, id, k, before, visited);
    }
    VisitEnds(ids, graph, id, level, priorities0, priorities);
  }

  /** The dependents of `id` among the first `n` subtasks have been visited. */
  ghost predicate Covered(ids: seq<string>, graph: Graph, id: string, n: nat, visited: set<string>)
    requires n <= |ids|
  {
    forall m :: 0 <= m < n && id in Deps(graph, ids[m]) ==> ids[m] in visited
  }

  lemma CoversNext(ids: seq<string>, graph: Graph, id: string, n: nat, before: set<string>, after: set<string>)
    requires n < |ids| && before <= after && Covered(ids, graph, id, n, before)
    requires id in Deps(graph, ids[n]) ==> ids[n] in after
    ensures Covered(ids, graph, id, n + 1, after)
  {
  }

  lemma VisitEnds(ids: seq<string>, graph: Graph, id: string, level: nat, start: map<string, int>, now: map<string, int>)
    requires Progress(ids, graph, id, level, start, now)
    requires Covered(ids, graph, id, |ids|, now.Keys)
    ensures CompleteVisit(ids, graph, id, level, start, now)
  {
    forall u, w | u in now.Keys - start.Keys && w in ids && u in Deps(graph, w)
      ensures w in now.Keys
    {
      var m :| 0 <= m < |ids| && ids[m] == w;
      if u != id { assert u in now.Keys - start.Keys - {id}; }
    }
  }

  /** The inner loop over the dependencies of one subtask: every entry equal to `id` visits the subtask. */
  method VisitIfDependent(ids: seq<string>, graph: Graph, id: string, next: string, level: nat,
                          ghost start: set<string>, ghost startPriorities: map<string, int>,
                          visited0: set<string>, priorities0: map<string, int>)
    returns (visited: set<string>, priorities: map<string, int>)
    requires id in ids && next in ids && start <= Elements(ids) && startPriorities.Keys == start
    requires start + {id} <= visited0 <= Elements(ids) && priorities0.Keys == visited0
    requires Progress(ids, graph, id, level, startPriorities, priorities0)
    ensures visited0 <= visited && visited <= Elements(ids) && priorities.Keys == visited
    ensures Progress(ids, graph, id, level, startPriorities, priorities)
    ensures id in Deps(graph, next) ==> next in visited
    decreases Elements(ids) - visited0, 1
  {
    hide Progress, CompleteVisit;
    visited, priorities := visited0, priorities0;
    var deps := Deps(graph, next);
    for j := 0 to |deps|
      invariant visited0 <= visited
      invariant visited <= Elements(ids)
      invariant priorities.Keys == visited
      invariant Progress(ids, graph, id, level, startPriorities, priorities)
      invariant forall i :: 0 <= i < j && deps[i] == id ==> next in visited
    {
      if deps[j] == id {
        ghost var before := priorities;
        LessLeft(Elements(ids), visited0, visited);
        visited, priorities := AssignLevel(ids, graph, next, level + 1, visited, priorities);
        ProgressContinues(ids, graph, id, next, level, startPriorities, before, priorities);
      }
    }
  }

  lemma LessLeft(all: set<string>, before: set<string>, after: set<string>)
    requires before <= after
    ensures all - after < all - before || all - after == all - before
  {
    assert all - after <= all - before;
  }

  lemma NestedVisit(ids: seq<string>, graph: Graph, id: string, next: string, level: nat,
                    start: map<string, int>, before: map<string, int>, after: map<string, int>)
    requires id in Deps(graph, next) && next in ids
    requires Visit(ids, graph, id, level, start, before)
    requires id in before && id !in start && before[id] == PriorityOfLevel(level)
    requires Visit(ids, graph, next, level + 1, before, after)
    requires next !in before ==> next in after && after[next] == PriorityOfLevel(level + 1)
    ensures Visit(ids, graph, id, level, start, after)
  {
    forall x | x in after.Keys - start.Keys
      ensures x in ids && DependsTransitively(ids, graph, x, id) && 1 <= after[x] <= PriorityOfLevel(level)
      ensures x != id ==> after[x] <= PriorityOfLevel(level + 1) && FollowsDependency(graph, start, after, x)
    {
      if x in before {
        if x != id {
          var y :| y in Deps(graph, x) && y in before.Keys - start.Keys && before[x] == OneLower(before[y]);
          assert after[x] == OneLower(after[y]);
        }
      } else {
        DependencyThrough(ids, graph, x, next, id);
        if x == next {
          assert after[x] == OneLower(after[id]);
        } else {
          var y :| y in Deps(graph, x) && y in after.Keys - before.Keys && after[x] == OneLower(after[y]);
        }
      }
    }
  }

  lemma DependencyThrough(ids: seq<string>, graph: Graph, x: string, y: string, z: string)
    requires DependsTransitively(ids, graph, x, y) && z in Deps(graph, y) && y in ids
    requires z in ids
    ensures DependsTransitively(ids, graph, x, z)
  {
    var walk :| IsWalk(walk, ids, graph) && walk[0] == x && walk[|walk| - 1] == y;
    var longer := walk + [z];
    forall i | 0 <= i < |longer| - 1
      ensures longer[i + 1] in Deps(graph, longer[i])
    {
      if i < |walk| - 1 { assert walk[i + 1] in Deps(graph, walk[i]); }
    }
    assert IsWalk(longer, ids, graph);
  }

  // ----- the whole assignment -----

  /** Counts, for every id, the subtasks that list it as a dependency; only zero or not matters below. */
  method CountDependents(ids: seq<string>, graph: Graph) returns (inDegree: map<string, int>)
    ensures forall x :: Degree(inDegree, x) == 0 <==> !HasDependent(graph, x)
  {
    inDegree := map[];
    for i := 0 to |ids|
      invariant forall x :: Degree(inDegree, x) == 0
    {
      inDegree := WithDegree(inDegree, ids[i], 0);
    }
    var keys := graph.Keys;
    while keys != {}
      invariant keys <= graph.Keys
      invariant forall x :: Degree(inDegree, x) >= 0
      invariant forall x :: Degree(inDegree, x) == 0 <==> forall id :: id in graph.Keys - keys ==> x !in graph[id]
      decreases keys
    {
      var id :| id in keys;
      inDegree := CountEntries(graph[id], inDegree);
      keys := keys - {id};
    }
    forall x
      ensures Degree(inDegree, x) == 0 <==> !HasDependent(graph, x)
    {
      assert HasDependent(graph, x) <==> exists id :: id in graph.Keys - keys && x in graph[id];
    }
  }

  method CountEntries(deps: seq<string>, inDegree0: map<string, int>) returns (inDegree: map<string, int>)
    requires forall x :: Degree(inDegree0, x) >= 0
    ensures forall x :: Degree(inDegree, x) == Degree(inDegree0, x) + Multiplicity(deps, x)
  {
    inDegree := inDegree0;
    assert forall d :: Multiplicity(deps[..0], d) == 0;
    for j := 0 to |deps|
      invariant forall x :: Degree(inDegree, x) == Degree(inDegree0, x) + Multiplicity(deps[..j], x)
    {
      MultiplicityOfPrefix(deps, j);
      inDegree := WithDegree(inDegree, deps[j], Degree(inDegree, deps[j]) + 1);
    }
    assert deps[..|deps|] == deps;
  }

  /** The first `n` listed subtasks that are depended on; each restarts the visiting at priority 4. */
  ghost predicate ReachedBefore(ids: seq<string>, graph: Graph, n: nat, x: string)
    requires n <= |ids|
  {
    exists m :: 0 <= m < n && HasDependent(graph, ids[m]) && DependsTransitively(ids, graph, x, ids[m])
  }

  /** What holds after the first `n` subtasks of the last loop. */
  ghost predicate Assigned(ids: seq<string>, graph: Graph, n: nat, priorities: map<string, int>)
    requires n <= |ids|
  {
    && (forall x :: x in priorities <==> x in ids && (!HasDependent(graph, x) || ReachedBefore(ids, graph, n, x)))
    && (forall x :: x in priorities && !HasDependent(graph, x) ==> priorities[x] == 9)
    && (forall x :: x in priorities && HasDependent(graph, x) ==> 1 <= priorities[x] <= 4)
    && (forall x :: x in priorities && priorities[x] < 4 ==>
          exists y :: y in Deps(graph, x) && y in priorities && priorities[x] == OneLower(priorities[y]))
  }

  /** `x` is listed, before position `n`, where it depends on no earlier subtask that is depended on. */
  ghost predicate IsMarked(ids: seq<string>, graph: Graph, n: nat, x: string)
    requires n <= |ids|
  {
    exists k :: 0 <= k < n && ids[k] == x && !ReachedBefore(ids, graph, k, x)
  }

  /** Restarts: among the subtasks depended on, priority 4 goes to those that depend on no earlier one of them. */
  ghost predicate RestartsAtFour(ids: seq<string>, graph: Graph, n: nat, priorities: map<string, int>)
    requires n <= |ids|
  {
    forall x :: x in priorities && HasDependent(graph, x) ==>
      (priorities[x] == 4 <==> IsMarked(ids, graph, n, x))
  }

  /** Visiting a subtask nothing depends on reaches nothing else. */
  lemma RootVisit(ids: seq<string>, graph: Graph, id: string, before: map<string, int>, after: map<string, int>)
    requires !HasDependent(graph, id)
    requires Visit(ids, graph, id, 0, before, after)
    requires id in after
    ensures after.Keys == before.Keys + {id}
  {
    forall x | x in after
      ensures x in before || x == id
    {
      if x !in before && x != id {
        ReachedHasDependent(ids, graph, x, id);
      }
    }
  }

  lemma VisitedReaches(ids: seq<string>, graph: Graph, n: nat, covered: set<string>, x: string)
    requires n < |ids| && ids[n] in covered
    requires forall y :: y in ids && ReachedBefore(ids, graph, n, y) ==> y in covered
    requires DependentsInside(ids, graph, covered, covered)
    requires ReachedBefore(ids, graph, n + 1, x)
    ensures x in covered
  {
    var m :| 0 <= m < n + 1 && HasDependent(graph, ids[m]) && DependsTransitively(ids, graph, x, ids[m]);
    var walk :| IsWalk(walk, ids, graph) && walk[0] == x && walk[|walk| - 1] == ids[m];
    if m < n {
      assert ReachedBefore(ids, graph, n, x);
    } else {
      DependentsReached(ids, graph, covered, walk);
    }
  }

  lemma VisitedAssigned(ids: seq<string>, graph: Graph, n: nat, priorities: map<string, int>)
    requires n < |ids| && ids[n] in priorities
    requires Assigned(ids, graph, n, priorities)
    requires DependentsInside(ids, graph, priorities.Keys, priorities.Keys)
    ensures Assigned(ids, graph, n + 1, priorities)
  {
    forall x
      ensures x in priorities <==> x in ids && (!HasDependent(graph, x) || ReachedBefore(ids, graph, n + 1, x))
    {
      if ReachedBefore(ids, graph, n + 1, x) {
        VisitedReaches(ids, graph, n, priorities.Keys, x);
      }
    }
  }

  lemma VisitedMarked(ids: seq<string>, graph: Graph, n: nat, priorities: map<string, int>)
    requires n < |ids| && ids[n] in priorities
    requires Assigned(ids, graph, n, priorities) && RestartsAtFour(ids, graph, n, priorities)
    ensures RestartsAtFour(ids, graph, n + 1, priorities)
  {
    forall x | x in priorities && HasDependent(graph, x)
      ensures priorities[x] == 4 <==> IsMarked(ids, graph, n + 1, x)
    {
      assert ReachedBefore(ids, graph, n, x);
    }
  }

  lemma RestartReaches(ids: seq<string>, graph: Graph, n: nat, before: map<string, int>, after: map<string, int>, x: string)
    requires n < |ids| && ids[n] !in before && ids[n] in after
    requires Assigned(ids, graph, n, before)
    requires Visit(ids, graph, ids[n], 5, before, after)
    requires DependentsInside(ids, graph, after.Keys, after.Keys)
    ensures x in after <==> x in ids && (!HasDependent(graph, x) || ReachedBefore(ids, graph, n + 1, x))
  {
    if x in after {
      assert x in before ==> ReachedBefore(ids, graph, n, x) ==> ReachedBefore(ids, graph, n + 1, x);
      assert x !in before ==> DependsTransitively(ids, graph, x, ids[n]);
    } else if x in ids && ReachedBefore(ids, graph, n + 1, x) {
      var m :| 0 <= m < n + 1 && HasDependent(graph, ids[m]) && DependsTransitively(ids, graph, x, ids[m]);
      assert m == n;
      var walk :| IsWalk(walk, ids, graph) && walk[0] == x && walk[|walk| - 1] == ids[m];
      DependentsReached(ids, graph, after.Keys, walk);
      assert false;
    }
  }

  lemma RestartAssigned(ids: seq<string>, graph: Graph, n: nat, before: map<string, int>, after: map<string, int>)
    requires n < |ids| && ids[n] !in before && ids[n] in after
    requires Assigned(ids, graph, n, before)
    requires Visit(ids, graph, ids[n], 5, before, after) && after[ids[n]] == 4
    requires DependentsInside(ids, graph, after.Keys, after.Keys)
    ensures Assigned(ids, graph, n + 1, after)
  {
    forall x
      ensures x in after <==> x in ids && (!HasDependent(graph, x) || ReachedBefore(ids, graph, n + 1, x))
    {
      RestartReaches(ids, graph, n, before, after, x);
    }
    forall x | x in after && after[x] < 4
      ensures exists y :: y in Deps(graph, x) && y in after && after[x] == OneLower(after[y])
    {
      if x in before {
        var y :| y in Deps(graph, x) && y in before && before[x] == OneLower(before[y]);
        assert after[x] == OneLower(after[y]);
      } else {
        assert FollowsDependency(graph, before, after, x);
      }
    }
  }

  lemma RestartMarked(ids: seq<string>, graph: Graph, n: nat, before: map<string, int>, after: map<string, int>)
    requires n < |ids| && ids[n] !in before && ids[n] in after
    requires Assigned(ids, graph, n, before) && RestartsAtFour(ids, graph, n, before)
    requires Visit(ids, graph, ids[n], 5, before, after) && after[ids[n]] == 4
    ensures RestartsAtFour(ids, graph, n + 1, after)
  {
    forall x | x in after && HasDependent(graph, x)
      ensures after[x] == 4 <==> IsMarked(ids, graph, n + 1, x)
    {
      if x == ids[n] {
        assert !ReachedBefore(ids, graph, n, x);
      } else if x in before {
        assert IsMarked(ids, graph, n + 1, x) <==> IsMarked(ids, graph, n, x);
      } else {
        assert after[x] <= PriorityOfLevel(6);
        NewIsUnmarked(ids, graph, n, before, x);
      }
    }
  }

  lemma NewIsUnmarked(ids: seq<string>, graph: Graph, n: nat, before: map<string, int>, x: string)
    requires n < |ids| && x != ids[n] && x !in before && x in ids && HasDependent(graph, x)
    requires Assigned(ids, graph, n, before)
    ensures !IsMarked(ids, graph, n + 1, x)
  {
    if k :| 0 <= k < n + 1 && ids[k] == x && !ReachedBefore(ids, graph, k, x) {
      DependsOnItself(ids, graph, x);
      assert ReachedBefore(ids, graph, n, x);
      assert false;
    }
  }

  /** A priority below 4 is one step below that of a dependency, but at least 1. */
  ghost predicate StepsDown(ids: seq<string>, graph: Graph, priorities: map<string, int>) {
    forall x :: x in ids && x in priorities && priorities[x] < 4 ==> StepsDownAt(ids, graph, priorities, x)
  }

  ghost predicate StepsDownAt(ids: seq<string>, graph: Graph, priorities: map<string, int>, x: string)
    requires x in priorities
  {
    exists y :: y in Deps(graph, x) && y in ids && y in priorities
                && priorities[x] == if priorities[y] <= 1 then 1 else priorities[y] - 1
  }

  /**
   Every listed subtask gets one priority: 9 exactly when nothing depends on it; of the others, 4 exactly
   when it needs no other such subtask listed earlier, and one step below a dependency of its own, but at least 1, else.
   */
  method AssignPriorities(ids: seq<string>, graph: Graph) returns (priorities: map<string, int>)
    ensures priorities.Keys == Elements(ids)
    ensures forall x :: x in ids ==> (priorities[x] == 9 <==> !HasDependent(graph, x))
    ensures forall x :: x in ids && HasDependent(graph, x) ==> 1 <= priorities[x] <= 4
    ensures RestartsAtFour(ids, graph, |ids|, priorities)
    ensures StepsDown(ids, graph, priorities)
  {
    var inDegree := CountDependents(ids, graph);
    var visited: set<string>;
    visited, priorities := {}, map[];
    for i := 0 to |ids|
      invariant visited <= Elements(ids) && priorities.Keys == visited
      invariant forall x :: x in priorities <==> x in ids[..i] && !HasDependent(graph, x)
      invariant forall x :: x in priorities ==> priorities[x] == 9
    {
      assert ids[..i + 1] == ids[..i] + [ids[i]];
      if Degree(inDegree, ids[i]) == 0 {
        ghost var before := priorities;
        visited, priorities := AssignLevel(ids, graph, ids[i], 0, visited, priorities);
        RootVisit(ids, graph, ids[i], before, priorities);
      }
    }
    assert ids[..|ids|] == ids;
    for n := 0 to |ids|
      invariant visited <= Elements(ids) && priorities.Keys == visited
      invariant Assigned(ids, graph, n, priorities) && RestartsAtFour(ids, graph, n, priorities)
      invariant DependentsInside(ids, graph, priorities.Keys, priorities.Keys)
    {
      ghost var before := priorities;
      if ids[n] !in visited {
        visited, priorities := AssignLevel(ids, graph, ids[n], 5, visited, priorities);
        RestartKeeps(ids, graph, n, before, priorities);
      } else {
        VisitedMarked(ids, graph, n, priorities);
        VisitedAssigned(ids, graph, n, priorities);
      }
    }
    AllAssigned(ids, graph, priorities);
  }

  lemma RestartKeeps(ids: seq<string>, graph: Graph, n: nat, before: map<string, int>, after: map<string, int>)
    requires n < |ids| && ids[n] !in before && ids[n] in after && after[ids[n]] == 4
    requires Assigned(ids, graph, n, before) && RestartsAtFour(ids, graph, n, before)
    requires Visit(ids, graph, ids[n], 5, before, after)
    requires DependentsInside(ids, graph, before.Keys, before.Keys)
    requires DependentsInside(ids, graph, after.Keys - before.Keys, after.Keys)
    ensures Assigned(ids, graph, n + 1, after) && RestartsAtFour(ids, graph, n + 1, after)
    ensures DependentsInside(ids, graph, after.Keys, after.Keys)
  {
    InsideGrows(ids, graph, before.Keys, before.Keys, after.Keys);
    assert before.Keys + (after.Keys - before.Keys) == after.Keys;
    RestartAssigned(ids, graph, n, before, after);
    RestartMarked(ids, graph, n, before, after);
  }

  lemma AllAssigned(ids: seq<string>, graph: Graph, priorities: map<string, int>)
    requires Assigned(ids, graph, |ids|, priorities)
    ensures priorities.Keys == Elements(ids)
    ensures StepsDown(ids, graph, priorities)
  {
    hide Assigned, StepsDownAt;
    forall x | x in ids
      ensures x in priorities
    {
      ListedIsAssigned(ids, graph, priorities, x);
    }
    assert priorities.Keys == Elements(ids) by { AssignedIsListed(ids, graph, priorities); }
    forall x | x in ids && x in priorities && priorities[x] < 4
      ensures StepsDownAt(ids, graph, priorities, x)
    {
      AssignedStepsDown(ids, graph, priorities, x);
    }
  }

  lemma AssignedIsListed(ids: seq<string>, graph: Graph, priorities: map<string, int>)
    requires Assigned(ids, graph, |ids|, priorities)
    ensures priorities.Keys <= Elements(ids)
  {
    hide HasDependent, ReachedBefore, OneLower;
  }

  lemma AssignedStepsDown(ids: seq<string>, graph: Graph, priorities: map<string, int>, x: string)
    requires Assigned(ids, graph, |ids|, priorities) && x in priorities && priorities[x] < 4
    ensures StepsDownAt(ids, graph, priorities, x)
  {
    hide HasDependent, ReachedBefore, StepsDownAt;
    AssignedIsListed(ids, graph, priorities);
    var y :| y in Deps(graph, x) && y in priorities && priorities[x] == OneLower(priorities[y]);
    StepDownTo(ids, graph, priorities, x, y);
  }

  lemma StepDownTo(ids: seq<string>, graph: Graph, priorities: map<string, int>, x: string, y: string)
    requires x in priorities && y in Deps(graph, x) && y in ids && y in priorities && priorities[x] == OneLower(priorities[y])
    ensures StepsDownAt(ids, graph, priorities, x)
  {
  }

  lemma ListedIsAssigned(ids: seq<string>, graph: Graph, priorities: map<string, int>, x: string)
    requires Assigned(ids, graph, |ids|, priorities) && x in ids
    ensures x in priorities
  {
    if HasDependent(graph, x) {
      var m :| 0 <= m < |ids| && ids[m] == x;
      DependsOnItself(ids, graph, x);
      assert ReachedBefore(ids, graph, |ids|, x);
    }
  }
}
