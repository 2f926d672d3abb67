/**
 Dependency analysis and the whole decomposition step of internal/orchestrator/decompose.go.
 Splitting a goal into typed subtasks is keyword matching; its result is an input here.
 */
module Decompose {
  import opened Sequences
  import opened StringOrder
  import opened DependencyGraph
  import opened ExecutionOrder
  import opened Priorities

  datatype SubtaskKind = Analysis | Coding | Review | Testing | Research

  datatype Subtask = Subtask(id: string, kind: SubtaskKind)

  function Ids(subtasks: seq<Subtask>): (ids: seq<string>)
    ensures |ids| == |subtasks|
    ensures forall i :: 0 <= i < |ids| ==> ids[i] == subtasks[i].id
  {
    seq(|subtasks|, i requires 0 <= i < |subtasks| => subtasks[i].id)
  }

  /** What an earlier subtask of kind `prev` is followed by: findings feed coding and testing, code feeds review and testing. */
  predicate FeedsInto(prev: SubtaskKind, next: SubtaskKind) {
    match prev
    case Research => next in {Coding, Testing}
    case Analysis => next in {Coding, Testing}
    case Coding => next in {Review, Testing}
    case Review => false
    case Testing => false
  }

  /** What a subtask of each kind waits for: findings never wait, code waits for findings, a review for code, tests for both. */
  lemma WaitsFor(prev: SubtaskKind, next: SubtaskKind)
    ensures next in {Research, Analysis} ==> !FeedsInto(prev, next)
    ensures next == Coding ==> (FeedsInto(prev, next) <==> prev in {Research, Analysis})
    ensures next == Review ==> (FeedsInto(prev, next) <==> prev == Coding)
    ensures next == Testing ==> (FeedsInto(prev, next) <==> prev in {Research, Analysis, Coding})
  {
  }

  /** Feeding is layered, so it has no cycle; of what feeds a feeder only a review does not wait itself. */
  lemma FeedingIsLayered(a: SubtaskKind, b: SubtaskKind, c: SubtaskKind)
    requires FeedsInto(a, b) && FeedsInto(b, c)
    ensures !FeedsInto(c, a) && a != c && b == Coding
    ensures FeedsInto(a, c) <==> c != Review
  {
  }

  /** The ids, in list order, of those among the first `j` subtasks that feed into `next`. */
  function Prerequisites(subtasks: seq<Subtask>, j: nat, next: SubtaskKind): seq<string>
    requires j <= |subtasks|
  {
    if j == 0 then []
    else Prerequisites(subtasks, j - 1, next)
         + if FeedsInto(subtasks[j - 1].kind, next) then [subtasks[j - 1].id] else []
  }

  /** `d` is the id of one of the first `j` subtasks that feeds into `next`. */
  ghost predicate IsPrerequisite(subtasks: seq<Subtask>, j: nat, next: SubtaskKind, d: string)
    requires j <= |subtasks|
  {
    exists m :: 0 <= m < j && subtasks[m].id == d && FeedsInto(subtasks[m].kind, next)
  }

  lemma {:induction false} PrerequisitesAre(subtasks: seq<Subtask>, j: nat, next: SubtaskKind)
    requires j <= |subtasks|
    ensures forall d :: d in Prerequisites(subtasks, j, next) <==> IsPrerequisite(subtasks, j, next, d)
    ensures Distinct(Ids(subtasks)) ==> Distinct(Prerequisites(subtasks, j, next))
  {
    if j > 0 {
      PrerequisitesAre(subtasks, j - 1, next);
      var front := Prerequisites(subtasks, j - 1, next);
      forall d
        ensures IsPrerequisite(subtasks, j, next, d) <==>
                (IsPrerequisite(subtasks, j - 1, next, d) ||
                 (d == subtasks[j - 1].id && FeedsInto(subtasks[j - 1].kind, next)))
      {
      }
      if Distinct(Ids(subtasks)) {
        assert subtasks[j - 1].id !in front by {
          assert forall m :: 0 <= m < j - 1 ==> Ids(subtasks)[m] != Ids(subtasks)[j - 1];
        }
      }
    }
  }

  // ----- removing duplicates -----

  function FirstOccurrences(ss: seq<string>): seq<string> {
    if ss == [] then []
    else
      var front := FirstOccurrences(ss[..|ss| - 1]);
      if ss[|ss| - 1] in front then front else front + [ss[|ss| - 1]]
  }

  lemma {:induction false} FirstOccurrencesIs(ss: seq<string>)
    ensures Distinct(FirstOccurrences(ss))
    ensures forall x :: x in FirstOccurrences(ss) <==> x in ss
    ensures Distinct(ss) ==> FirstOccurrences(ss) == ss
  {
    if ss != [] {
      FirstOccurrencesIs(ss[..|ss| - 1]);
      assert ss == ss[..|ss| - 1] + [ss[|ss| - 1]];
    }
  }

  method UniqueStrings(ss: seq<string>) returns (result: seq<string>)
    ensures result == FirstOccurrences(ss)
    ensures Distinct(result) && forall x :: x in result <==> x in ss
  {
    var seen := {};
    result := [];
    for i := 0 to |ss|
      invariant result == FirstOccurrences(ss[..i])
      invariant seen == Elements(result)
    {
      assert ss[..i + 1][..i] == ss[..i];
      if ss[i] !in seen {
        seen := seen + {ss[i]};
        result := result + [ss[i]];
      }
    }
    assert ss[..|ss|] == ss;
    FirstOccurrencesIs(ss);
  }

  // ----- dependency analysis -----

  /** The entries for the first `n` subtasks are final, the others are still empty. */
  ghost predicate FilledUpTo(subtasks: seq<Subtask>, n: nat, graph: Graph)
    requires n <= |subtasks|
  {
    && graph.Keys == Elements(Ids(subtasks))
    && forall i :: 0 <= i < |subtasks| ==>
         graph[Ids(subtasks)[i]] == if i < n then Prerequisites(subtasks, i, subtasks[i].kind) else []
  }

  method AnalyzeDependencies(subtasks: seq<Subtask>) returns (graph: Graph)
    requires Distinct(Ids(subtasks))
    ensures FilledUpTo(subtasks, |subtasks|, graph)
  {
    var ids := Ids(subtasks);
    graph := map[];
    for i := 0 to |subtasks|
      invariant forall x :: x in graph <==> x in ids[..i]
      invariant forall x :: x in graph ==> graph[x] == []
    {
      assert ids[..i + 1] == ids[..i] + [ids[i]];
      graph := graph[subtasks[i].id := []];
    }
    assert ids[..|ids|] == ids;
    for i := 0 to |subtasks|
      invariant FilledUpTo(subtasks, i, graph)
    {
      graph := LinkEarlier(subtasks, i, graph);
    }
    graph := RemoveDuplicates(subtasks, graph);
  }

  lemma PrerequisitesStep(subtasks: seq<Subtask>, j: nat, next: SubtaskKind)
    requires j < |subtasks|
    ensures Prerequisites(subtasks, j + 1, next) ==
            if FeedsInto(subtasks[j].kind, next) then Prerequisites(subtasks, j, next) + [subtasks[j].id]
            else Prerequisites(subtasks, j, next)
  {
  }

  function Append(graph: Graph, id: string, d: string): (r: Graph)
    requires id in graph
    ensures r.Keys == graph.Keys
    ensures r[id] == graph[id] + [d]
    ensures forall x :: x in graph && x != id ==> r[x] == graph[x]
  {
    graph[id := graph[id] + [d]]
  }

  /** The three rules, tried in turn, for one earlier subtask. */
  method LinkPair(st: Subtask, prev: Subtask, graph0: Graph) returns (graph: Graph)
    requires st.id in graph0
    ensures graph == if FeedsInto(prev.kind, st.kind) then Append(graph0, st.id, prev.id) else graph0
  {
    graph := graph0;
    if (st.kind == Coding || st.kind == Testing) && (prev.kind == Research || prev.kind == Analysis) {
      graph := Append(graph, st.id, prev.id);
      return;
    }
    if st.kind == Review && prev.kind == Coding {
      graph := Append(graph, st.id, prev.id);
      return;
    }
    if st.kind == Testing && prev.kind == Coding {
      graph := Append(graph, st.id, prev.id);
    }
  }

  /** The inner loop over the earlier subtasks. */
  method LinkEarlier(subtasks: seq<Subtask>, i: nat, graph0: Graph) returns (graph: Graph)
    requires Distinct(Ids(subtasks)) && i < |subtasks|
    requires FilledUpTo(subtasks, i, graph0)
    ensures FilledUpTo(subtasks, i + 1, graph)
  {
    graph := graph0;
    var st := subtasks[i];
    assert st.id == Ids(subtasks)[i];
    for j := 0 to i
      invariant graph.Keys == graph0.Keys
      invariant forall x :: x in graph && x != st.id ==> graph[x] == graph0[x]
      invariant graph[st.id] == Prerequisites(subtasks, j, st.kind)
    {
      PrerequisitesStep(subtasks, j, st.kind);
      graph := LinkPair(st, subtasks[j], graph);
    }
    OneMoreFilled(subtasks, i, graph0, graph);
  }

  lemma OneMoreFilled(subtasks: seq<Subtask>, i: nat, graph0: Graph, graph: Graph)
    requires Distinct(Ids(subtasks)) && i < |subtasks|
    requires FilledUpTo(subtasks, i, graph0)
    requires graph.Keys == graph0.Keys && subtasks[i].id in graph
    requires forall x :: x in graph && x != subtasks[i].id ==> graph[x] == graph0[x]
    requires graph[subtasks[i].id] == Prerequisites(subtasks, i, subtasks[i].kind)
    ensures FilledUpTo(subtasks, i + 1, graph)
  {
    var ids := Ids(subtasks);
    forall k | 0 <= k < |subtasks|
      ensures graph[ids[k]] == if k < i + 1 then Prerequisites(subtasks, k, subtasks[k].kind) else []
    {
      if k != i {
        assert ids[k] != ids[i] by { assert k < i ==> ids[k] != ids[i]; }
        assert graph[ids[k]] == graph0[ids[k]];
      }
    }
  }

  /** Deduplicates every entry, in whatever order the map is visited; the analysis has produced no duplicates. */
  method RemoveDuplicates(subtasks: seq<Subtask>, graph0: Graph) returns (graph: Graph)
    requires Distinct(Ids(subtasks))
    requires FilledUpTo(subtasks, |subtasks|, graph0)
    ensures graph == graph0
  {
    hide FilledUpTo, FirstOccurrences;
    graph := graph0;
    var keys := graph.Keys;
    while keys != {}
      invariant keys <= graph0.Keys
      invariant graph == graph0
      decreases keys
    {
      var id :| id in keys;
      NothingToRemove(subtasks, graph, id);
      var unique := UniqueStrings(graph[id]);
      graph := graph[id := unique];
      keys := keys - {id};
    }
  }

  lemma NothingToRemove(subtasks: seq<Subtask>, graph: Graph, id: string)
    requires Distinct(Ids(subtasks)) && FilledUpTo(subtasks, |subtasks|, graph)
    requires id in graph
    ensures FirstOccurrences(graph[id]) == graph[id]
  {
    var i :| 0 <= i < |subtasks| && Ids(subtasks)[i] == id;
    PrerequisitesAre(subtasks, i, subtasks[i].kind);
    FirstOccurrencesIs(graph[id]);
  }

  /** A dependency is exactly an earlier listed subtask whose kind feeds into this one's. */
  lemma DependencyMeans(subtasks: seq<Subtask>, graph: Graph, i: nat, d: string)
    requires i < |subtasks| && FilledUpTo(subtasks, |subtasks|, graph)
    ensures d in Deps(graph, subtasks[i].id) <==> IsPrerequisite(subtasks, i, subtasks[i].kind, d)
  {
    PrerequisitesAre(subtasks, i, subtasks[i].kind);
    assert graph[Ids(subtasks)[i]] == Prerequisites(subtasks, i, subtasks[i].kind);
  }

  lemma PrerequisiteIsEarlier(subtasks: seq<Subtask>, i: nat, d: string)
    requires i < |subtasks| && IsPrerequisite(subtasks, i, subtasks[i].kind, d)
    ensures d in Ids(subtasks)[..i]
  {
    var m :| 0 <= m < i && subtasks[m].id == d && FeedsInto(subtasks[m].kind, subtasks[i].kind);
    assert Ids(subtasks)[..i][m] == d;
  }

  /** So the list itself respects every dependency and there is no cycle. */
  lemma ListRespectsDependencies(subtasks: seq<Subtask>, graph: Graph)
    requires Distinct(Ids(subtasks)) && FilledUpTo(subtasks, |subtasks|, graph)
    ensures IsTopological(Ids(subtasks), Ids(subtasks), graph)
    ensures Closed(Ids(subtasks), graph) && !HasCycle(Ids(subtasks), graph)
  {
    var ids := Ids(subtasks);
    forall i, d | 0 <= i < |ids| && d in Deps(graph, ids[i])
      ensures d in ids[..i]
    {
      DependencyMeans(subtasks, graph, i, d);
      PrerequisiteIsEarlier(subtasks, i, d);
    }
    ListedOrderIsTopological(ids, graph);
  }

  /** Some later listed subtask is fed by the `m`-th. */
  ghost predicate FeedsLater(subtasks: seq<Subtask>, m: nat)
    requires m < |subtasks|
  {
    exists i :: m < i < |subtasks| && FeedsInto(subtasks[m].kind, subtasks[i].kind)
  }

  lemma DependedOnFeedsLater(subtasks: seq<Subtask>, graph: Graph, m: nat)
    requires Distinct(Ids(subtasks)) && m < |subtasks| && FilledUpTo(subtasks, |subtasks|, graph)
    requires HasDependent(graph, subtasks[m].id)
    ensures FeedsLater(subtasks, m)
  {
    var ids := Ids(subtasks);
    var x :| x in graph && subtasks[m].id in graph[x];
    var i :| 0 <= i < |ids| && ids[i] == x;
    DependencyMeans(subtasks, graph, i, subtasks[m].id);
    var k :| 0 <= k < i && subtasks[k].id == subtasks[m].id && FeedsInto(subtasks[k].kind, subtasks[i].kind);
    assert ids[k] == ids[m];
    assert k == m;
  }

  lemma FeedsLaterDependedOn(subtasks: seq<Subtask>, graph: Graph, m: nat)
    requires m < |subtasks| && FilledUpTo(subtasks, |subtasks|, graph)
    requires FeedsLater(subtasks, m)
    ensures HasDependent(graph, subtasks[m].id)
  {
    var i :| m < i < |subtasks| && FeedsInto(subtasks[m].kind, subtasks[i].kind);
    DependencyMeans(subtasks, graph, i, subtasks[m].id);
    assert Ids(subtasks)[i] in graph;
  }

  datatype Decomposition = Decomposition(
    subtasks: seq<Subtask>,
    executionOrder: seq<string>,
    priorities: map<string, int>,
    graph: Graph)

  /**
   Truncation first, then analysis: the cycle fallback is never taken, every dependency of a retained
   subtask is retained and runs before it, and priority 9 marks what no later retained subtask needs.
   */
  method DecomposeTask(generated: seq<Subtask>, maxSubtasks: int) returns (r: Decomposition)
    requires Distinct(Ids(generated))
    ensures r.subtasks == if 0 < maxSubtasks < |generated| then generated[..maxSubtasks] else generated
    ensures IsLeastTopological(r.executionOrder, Ids(r.subtasks), r.graph)
    ensures ListAtMost(r.executionOrder, Ids(r.subtasks))
    ensures forall i, d :: 0 <= i < |r.subtasks| ==>
              (d in Deps(r.graph, r.subtasks[i].id) <==> IsPrerequisite(r.subtasks, i, r.subtasks[i].kind, d))
    ensures r.priorities.Keys == Elements(Ids(r.subtasks))
    ensures forall m :: 0 <= m < |r.subtasks| ==>
              (r.priorities[Ids(r.subtasks)[m]] == 9 <==> !FeedsLater(r.subtasks, m))
  {
    var subtasks := generated;
    if maxSubtasks > 0 && |subtasks| > maxSubtasks {
      subtasks := subtasks[..maxSubtasks];
      PrefixDistinct(generated, maxSubtasks);
    }
    var graph := AnalyzeDependencies(subtasks);
    var priorities := AssignPriorities(Ids(subtasks), graph);
    ListRespectsDependencies(subtasks, graph);
    var order := ComputeExecutionOrder(Ids(subtasks), graph);
    forall i, d | 0 <= i < |subtasks|
      ensures d in Deps(graph, subtasks[i].id) <==> IsPrerequisite(subtasks, i, subtasks[i].kind, d)
    {
      DependencyMeans(subtasks, graph, i, d);
    }
    forall m | 0 <= m < |subtasks|
      ensures priorities[Ids(subtasks)[m]] == 9 <==> !FeedsLater(subtasks, m)
    {
      if FeedsLater(subtasks, m) {
        FeedsLaterDependedOn(subtasks, graph, m);
      } else if HasDependent(graph, subtasks[m].id) {
        DependedOnFeedsLater(subtasks, graph, m);
      }
    }
    r := Decomposition(subtasks, order, priorities, graph);
  }

  lemma PrefixDistinct(subtasks: seq<Subtask>, n: nat)
    requires Distinct(Ids(subtasks)) && n <= |subtasks|
    ensures Distinct(Ids(subtasks[..n]))
  {
    forall i, j | 0 <= i < j < n
      ensures Ids(subtasks[..n])[i] != Ids(subtasks[..n])[j]
    {
      assert Ids(subtasks)[i] != Ids(subtasks)[j];
    }
  }
}
