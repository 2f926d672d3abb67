/**
 What an execution order of a dependency graph is: topological orders, the greedy order that always
 takes the least ready node, and cycles. `graph[id]` lists what `id` depends on; an absent key lists
 nothing, and entries may repeat.
 */
module DependencyGraph {
  import opened Sequences
  import opened StringOrder

  type Graph = map<string, seq<string>>

  function Deps(graph: Graph, id: string): seq<string> {
    if id in graph then graph[id] else []
  }

  ghost predicate IsTopological(order: seq<string>, ids: seq<string>, graph: Graph) {
    && Distinct(order)
    && (forall x :: x in order <==> x in ids)
    && (forall i, d :: 0 <= i < |order| && d in Deps(graph, order[i]) ==> d in order[..i])
  }

  /** A topological order that no other topological order precedes lexicographically. */
  ghost predicate IsLeastTopological(order: seq<string>, ids: seq<string>, graph: Graph) {
    && IsTopological(order, ids, graph)
    && forall other :: IsTopological(other, ids, graph) ==> ListAtMost(order, other)
  }

  /** Every dependency is one of the listed ids. */
  ghost predicate Closed(ids: seq<string>, graph: Graph) {
    forall x, d :: x in ids && d in Deps(graph, x) ==> d in ids
  }

  /** Each element depends on the one after it. */
  ghost predicate IsWalk(walk: seq<string>, ids: seq<string>, graph: Graph) {
    && walk != []
    && (forall i :: 0 <= i < |walk| ==> walk[i] in ids)
    && (forall i :: 0 <= i < |walk| - 1 ==> walk[i + 1] in Deps(graph, walk[i]))
  }

  ghost predicate IsCycle(walk: seq<string>, ids: seq<string>, graph: Graph) {
    IsWalk(walk, ids, graph) && |walk| >= 2 && walk[0] == walk[|walk| - 1]
  }

  ghost predicate HasCycle(ids: seq<string>, graph: Graph) {
    exists walk :: IsCycle(walk, ids, graph)
  }

  // ----- the greedy order -----

  predicate IsReady(ids: seq<string>, graph: Graph, done: seq<string>, x: string) {
    x in ids && x !in done && forall d :: d in Deps(graph, x) ==> d in done
  }

  ghost predicate IsLeastReady(ids: seq<string>, graph: Graph, done: seq<string>, x: string) {
    IsReady(ids, graph, done, x) && forall y :: IsReady(ids, graph, done, y) ==> AtMost(x, y)
  }

  ghost predicate IsGreedy(order: seq<string>, ids: seq<string>, graph: Graph) {
    forall i :: 0 <= i < |order| ==> IsLeastReady(ids, graph, order[..i], order[i])
  }

  lemma GreedyExtends(order: seq<string>, x: string, ids: seq<string>, graph: Graph)
    requires IsGreedy(order, ids, graph)
    requires IsLeastReady(ids, graph, order, x)
    ensures IsGreedy(order + [x], ids, graph)
  {
    var longer := order + [x];
    forall i | 0 <= i < |longer|
      ensures IsLeastReady(ids, graph, longer[..i], longer[i])
    {
      assert longer[..i] == order[..i];
      if i == |order| { assert order[..i] == order; }
    }
  }

  lemma GreedyIsDistinct(order: seq<string>, ids: seq<string>, graph: Graph)
    requires IsGreedy(order, ids, graph)
    ensures Distinct(order)
    ensures forall x :: x in order ==> x in ids
    ensures forall i, d :: 0 <= i < |order| && d in Deps(graph, order[i]) ==> d in order[..i]
  {
    forall i, j | 0 <= i < j < |order|
      ensures order[i] != order[j]
    {
      assert IsReady(ids, graph, order[..j], order[j]);
      assert order[..j][i] == order[i];
    }
    forall i | 0 <= i < |order|
      ensures order[i] in ids && forall d :: d in Deps(graph, order[i]) ==> d in order[..i]
    {
      assert IsReady(ids, graph, order[..i], order[i]);
    }
  }

  /** No topological order comes before the greedy one. */
  lemma GreedyIsLeast(order: seq<string>, ids: seq<string>, graph: Graph, other: seq<string>)
    requires IsGreedy(order, ids, graph)
    requires IsTopological(order, ids, graph) && IsTopological(other, ids, graph)
    ensures ListAtMost(order, other)
  {
    DistinctPermutation(order, other);
    if order != other {
      var i := DifferingIndex(order, other);
      assert IsReady(ids, graph, order[..i], other[i]) by {
        assert other[i] !in other[..i];
      }
      assert IsLeastReady(ids, graph, order[..i], order[i]);
      assert FirstDifference(order, other, i);
    }
  }

  lemma {:induction false} DifferingIndex(a: seq<string>, b: seq<string>) returns (i: nat)
    requires |a| == |b| && a != b
    ensures FirstDifference(a, b, i)
  {
    i := 0;
    while a[i] == b[i]
      invariant i < |a| && a[..i] == b[..i]
      decreases |a| - i
    {
      if i + 1 == |a| { assert a == a[..i] + [a[i]] == b; }
      assert a[..i + 1] == a[..i] + [a[i]];
      i := i + 1;
    }
  }

  /** The least topological order depends on the sets of ids and dependencies alone. */
  lemma LeastTopologicalIsUnique(order1: seq<string>, ids1: seq<string>, graph1: Graph,
                                 order2: seq<string>, ids2: seq<string>, graph2: Graph)
    requires IsLeastTopological(order1, ids1, graph1) && IsLeastTopological(order2, ids2, graph2)
    requires forall x :: x in ids1 <==> x in ids2
    requires forall x, d :: x in ids1 ==> (d in Deps(graph1, x) <==> d in Deps(graph2, x))
    ensures order1 == order2
  {
    assert IsTopological(order2, ids1, graph1);
    assert IsTopological(order1, ids2, graph2);
    ListAtMostAntisymmetric(order1, order2);
  }

  // ----- cycles -----

  /** A topological order rules out cycles: along a walk the positions strictly fall. */
  lemma TopologicalHasNoCycle(order: seq<string>, ids: seq<string>, graph: Graph)
    requires IsTopological(order, ids, graph)
    ensures Closed(ids, graph) && !HasCycle(ids, graph)
  {
    forall x, d | x in ids && d in Deps(graph, x)
      ensures d in ids
    {
      var i :| 0 <= i < |order| && order[i] == x;
      assert d in order[..i];
    }
    if walk :| IsCycle(walk, ids, graph) {
      var i :| 0 <= i < |order| && order[i] == walk[0];
      var j := WalkFalls(order, ids, graph, walk, |walk| - 1, i);
      assert false;
    }
  }

  lemma {:induction false} WalkFalls(order: seq<string>, ids: seq<string>, graph: Graph, walk: seq<string>, n: nat, i: nat)
    returns (j: nat)
    requires IsTopological(order, ids, graph) && IsWalk(walk, ids, graph)
    requires 0 < n < |walk| && i < |order| && order[i] == walk[0]
    ensures j < i && order[j] == walk[n]
  {
    var k := i;
    if n > 1 { k := WalkFalls(order, ids, graph, walk, n - 1, i); }
    assert walk[n] in Deps(graph, walk[n - 1]);
    assert walk[n] in order[..k];
    j :| 0 <= j < k && order[j] == walk[n];
  }

  lemma PartOfWalk(walk: seq<string>, ids: seq<string>, graph: Graph, i: nat, j: nat)
    requires IsWalk(walk, ids, graph) && i <= j < |walk|
    ensures IsWalk(walk[i..j + 1], ids, graph)
  {
    var part := walk[i..j + 1];
    forall k | 0 <= k < |part| - 1
      ensures part[k + 1] in Deps(graph, part[k])
    {
      assert walk[i + k + 1] in Deps(graph, walk[i + k]);
    }
  }

  /** When nothing is ready and something is left, following unfinished dependencies runs into a cycle. */
  lemma StuckHasCycle(order: seq<string>, ids: seq<string>, graph: Graph, left: string)
    requires Closed(ids, graph)
    requires forall x :: !IsReady(ids, graph, order, x)
    requires left in ids && left !in order
    ensures HasCycle(ids, graph)
  {
    var walk := WalkThroughUnfinished(order, ids, graph, left, |Elements(ids)| + 1);
    if Distinct(walk) {
      DistinctIsShort(walk, Elements(ids));
      assert false;
    }
    var i, j :| 0 <= i < j < |walk| && walk[i] == walk[j];
    PartOfWalk(walk, ids, graph, i, j);
    assert IsCycle(walk[i..j + 1], ids, graph);
  }

  lemma {:induction false} WalkThroughUnfinished(order: seq<string>, ids: seq<string>, graph: Graph, left: string, n: nat)
    returns (walk: seq<string>)
    requires Closed(ids, graph)
    requires forall x :: !IsReady(ids, graph, order, x)
    requires left in ids && left !in order && n > 0
    ensures IsWalk(walk, ids, graph) && |walk| == n
    ensures walk[n - 1] !in order
  {
    if n == 1 { return [left]; }
    var front := WalkThroughUnfinished(order, ids, graph, left, n - 1);
    var last := front[n - 2];
    assert !IsReady(ids, graph, order, last);
    var next :| next in Deps(graph, last) && next !in order;
    walk := front + [next];
  }

  /** A list of ids in which every dependency comes earlier is itself a topological order. */
  lemma ListedOrderIsTopological(ids: seq<string>, graph: Graph)
    requires Distinct(ids)
    requires forall i, d :: 0 <= i < |ids| && d in Deps(graph, ids[i]) ==> d in ids[..i]
    ensures IsTopological(ids, ids, graph)
    ensures Closed(ids, graph) && !HasCycle(ids, graph)
  {
    TopologicalHasNoCycle(ids, ids, graph);
  }
}
