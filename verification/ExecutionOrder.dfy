/**
 Kahn's algorithm of internal/orchestrator/decompose.go. Ranging over a Go map visits the keys in an
 unknown order; here the next key is picked with `:|`, so what is proved holds for every order.
 */
module ExecutionOrder {
  import opened Sequences
  import opened StringOrder
  import opened DependencyGraph

  // ----- counting the dependencies that are still open -----

  /** How many entries of `deps` are not in `done`; repeated entries count each time. */
  function Outstanding(deps: seq<string>, done: seq<string>): nat {
    if deps == [] then 0
    else (if deps[0] in done then 0 else 1) + Outstanding(deps[1..], done)
  }

  lemma {:induction false} OutstandingZero(deps: seq<string>, done: seq<string>)
    ensures Outstanding(deps, done) == 0 <==> forall d :: d in deps ==> d in done
  {
    if deps != [] { OutstandingZero(deps[1..], done); }
  }

  lemma {:induction false} OutstandingNothingDone(deps: seq<string>)
    ensures Outstanding(deps, []) == |deps|
  {
    if deps != [] { OutstandingNothingDone(deps[1..]); }
  }

  lemma {:induction false} OutstandingDrops(deps: seq<string>, done: seq<string>, c: string)
    requires c !in done
    ensures Outstanding(deps, done) == Outstanding(deps, done + [c]) + multiset(deps)[c]
  {
    if deps != [] {
      OutstandingDrops(deps[1..], done, c);
      assert deps == [deps[0]] + deps[1..];
    }
  }

  // ----- building the adjacency list and the in-degrees -----

  function Neighbours(adjacency: map<string, seq<string>>, id: string): seq<string> {
    if id in adjacency then adjacency[id] else []
  }

  function Degree(inDegree: map<string, int>, id: string): int {
    if id in inDegree then inDegree[id] else 0
  }

  function WithNeighbours(adjacency: map<string, seq<string>>, id: string, ns: seq<string>): (r: map<string, seq<string>>)
    ensures forall d :: Neighbours(r, d) == if d == id then ns else Neighbours(adjacency, d)
  {
    adjacency[id := ns]
  }

  function WithDegree(inDegree: map<string, int>, id: string, n: int): (r: map<string, int>)
    ensures forall x :: Degree(r, x) == if x == id then n else Degree(inDegree, x)
  {
    inDegree[id := n]
  }

  /** How many edges lead from `from` to `to`. */
  function EdgeCount(adjacency: map<string, seq<string>>, from: string, to: string): nat {
    multiset(Neighbours(adjacency, from))[to]
  }

  function Multiplicity(deps: seq<string>, d: string): nat {
    multiset(deps)[d]
  }

  lemma MultiplicityOfPrefix(deps: seq<string>, j: nat)
    requires j < |deps|
    ensures forall d :: Multiplicity(deps[..j + 1], d) == Multiplicity(deps[..j], d) + if d == deps[j] then 1 else 0
  {
    assert deps[..j + 1] == deps[..j] + [deps[j]];
  }

  function WithEdge(adjacency: map<string, seq<string>>, from: string, to: string): (r: map<string, seq<string>>)
    ensures forall d, x :: EdgeCount(r, d, x) == EdgeCount(adjacency, d, x) + if d == from && x == to then 1 else 0
  {
    WithNeighbours(adjacency, from, Neighbours(adjacency, from) + [to])
  }

  method BuildAdjacency(ids: seq<string>, graph: Graph)
    returns (adjacency: map<string, seq<string>>, inDegree: map<string, int>)
    ensures forall d, x :: EdgeCount(adjacency, d, x) == Multiplicity(Deps(graph, x), d)
    ensures forall x :: Degree(inDegree, x) == |Deps(graph, x)|
  {
    adjacency, inDegree := map[], map[];
    for i := 0 to |ids|
      invariant forall d :: Neighbours(adjacency, d) == []
      invariant forall x :: Degree(inDegree, x) == 0
    {
      adjacency, inDegree := WithNeighbours(adjacency, ids[i], []), WithDegree(inDegree, ids[i], 0);
    }
    var keys := graph.Keys;
    while keys != {}
      invariant keys <= graph.Keys
      invariant forall d, x :: EdgeCount(adjacency, d, x) == if x in keys then 0 else Multiplicity(Deps(graph, x), d)
      invariant forall x :: Degree(inDegree, x) == if x in keys then 0 else |Deps(graph, x)|
      decreases keys
    {
      var id :| id in keys;
      adjacency, inDegree := AddEdges(id, graph[id], adjacency, inDegree);
      keys := keys - {id};
    }
  }

  method AddEdges(id: string, deps: seq<string>, adjacency0: map<string, seq<string>>, inDegree0: map<string, int>)
    returns (adjacency: map<string, seq<string>>, inDegree: map<string, int>)
    ensures forall d, x :: EdgeCount(adjacency, d, x) ==
                           EdgeCount(adjacency0, d, x) + if x == id then Multiplicity(deps, d) else 0
    ensures forall x :: Degree(inDegree, x) == Degree(inDegree0, x) + if x == id then |deps| else 0
  {
    adjacency, inDegree := adjacency0, inDegree0;
    assert forall d :: Multiplicity(deps[..0], d) == 0;
    for j := 0 to |deps|
      invariant forall d, x :: EdgeCount(adjacency, d, x) ==
                               EdgeCount(adjacency0, d, x) + if x == id then Multiplicity(deps[..j], d) else 0
      invariant forall x :: Degree(inDegree, x) == Degree(inDegree0, x) + if x == id then j else 0
    {
      MultiplicityOfPrefix(deps, j);
      adjacency := WithEdge(adjacency, deps[j], id);
      inDegree := WithDegree(inDegree, id, Degree(inDegree, id) + 1);
    }
    assert deps[..|deps|] == deps;
  }

  // ----- the main loop -----

  /** One run of the inner loop: every edge into a neighbour is consumed, and a neighbour whose last edge goes is queued. */
  method Relax(neighbours: seq<string>, inDegree0: map<string, int>, queue0: seq<string>)
    returns (inDegree: map<string, int>, queue: seq<string>)
    requires Distinct(queue0)
    requires forall x :: x in neighbours ==> x !in queue0
    requires forall x :: x in neighbours ==> Degree(inDegree0, x) >= multiset(neighbours)[x]
    ensures forall x :: Degree(inDegree, x) == Degree(inDegree0, x) - multiset(neighbours)[x]
    ensures Distinct(queue)
    ensures forall x :: x in queue <==> x in queue0 || (x in neighbours && Degree(inDegree, x) == 0)
  {
    inDegree, queue := inDegree0, queue0;
    for j := 0 to |neighbours|
      invariant forall x :: Degree(inDegree, x) == Degree(inDegree0, x) - multiset(neighbours[..j])[x]
      invariant Distinct(queue)
      invariant forall x :: x in queue <==> x in queue0 || (x in neighbours[..j] && Degree(inDegree, x) == 0)
    {
      var n := neighbours[j];
      assert neighbours[..j + 1] == neighbours[..j] + [n];
      RemainingEdges(neighbours, j);
      inDegree := WithDegree(inDegree, n, Degree(inDegree, n) - 1);
      if Degree(inDegree, n) == 0 {
        queue := queue + [n];
      }
    }
    assert neighbours[..|neighbours|] == neighbours;
  }

  lemma RemainingEdges(s: seq<string>, j: nat)
    requires j < |s|
    ensures multiset(s)[s[j]] >= multiset(s[..j])[s[j]] + 1
  {
    assert s == s[..j] + [s[j]] + s[j + 1..];
  }

  /** What the loop keeps: the order is greedy, the queue holds the ready ids, the in-degrees count open dependencies. */
  ghost predicate LoopState(ids: seq<string>, graph: Graph, order: seq<string>,
                            queue: seq<string>, inDegree: map<string, int>)
  {
    && IsGreedy(order, ids, graph)
    && Distinct(queue)
    && (forall x :: x in queue <==> IsReady(ids, graph, order, x))
    && (forall x :: Degree(inDegree, x) == Outstanding(Deps(graph, x), order))
  }

  lemma InitialState(ids: seq<string>, graph: Graph, queue: seq<string>, inDegree: map<string, int>)
    requires Distinct(queue)
    requires forall x :: x in queue <==> x in ids && Degree(inDegree, x) == 0
    requires forall x :: Degree(inDegree, x) == |Deps(graph, x)|
    ensures LoopState(ids, graph, [], queue, inDegree)
  {
    forall x
      ensures Degree(inDegree, x) == Outstanding(Deps(graph, x), [])
      ensures x in queue <==> IsReady(ids, graph, [], x)
    {
      OutstandingNothingDone(Deps(graph, x));
      OutstandingZero(Deps(graph, x), []);
    }
  }

  lemma QueueFrontIsLeast(ids: seq<string>, graph: Graph, order: seq<string>, queue: seq<string>)
    requires queue != [] && Sorted(queue)
    requires forall x :: x in queue <==> IsReady(ids, graph, order, x)
    ensures IsLeastReady(ids, graph, order, queue[0])
  {
    forall y | IsReady(ids, graph, order, y)
      ensures AtMost(queue[0], y)
    {
      var j :| 0 <= j < |queue| && queue[j] == y;
    }
  }

  /** Neighbours of the id being taken have open dependencies, so they are neither done nor queued. */
  lemma NeighbourIsBlocked(ids: seq<string>, graph: Graph, order: seq<string>, c: string, x: string)
    requires IsGreedy(order, ids, graph) && IsReady(ids, graph, order, c)
    requires c in Deps(graph, x)
    ensures x !in order && !IsReady(ids, graph, order, x) && x != c
    ensures Outstanding(Deps(graph, x), order) >= multiset(Deps(graph, x))[c]
  {
    GreedyIsDistinct(order, ids, graph);
    OutstandingDrops(Deps(graph, x), order, c);
  }

  lemma FrontIsElsewhereAbsent(c: string, rest: seq<string>)
    requires Distinct([c] + rest)
    ensures c !in rest && Distinct(rest)
  {
    var all := [c] + rest;
    forall j | 0 <= j < |rest|
      ensures rest[j] != c
    {
      assert all[0] != all[j + 1];
    }
    forall i, j | 0 <= i < j < |rest|
      ensures rest[i] != rest[j]
    {
      assert all[i + 1] != all[j + 1];
    }
  }

  lemma StepKeepsState(ids: seq<string>, graph: Graph, order: seq<string>, c: string,
                       rest: seq<string>, queue: seq<string>, inDegree0: map<string, int>, inDegree: map<string, int>,
                       neighbours: seq<string>)
    requires NoStrangers(ids, graph)
    requires LoopState(ids, graph, order, [c] + rest, inDegree0)
    requires IsLeastReady(ids, graph, order, c)
    requires forall x :: multiset(neighbours)[x] == multiset(Deps(graph, x))[c]
    requires forall x :: Degree(inDegree, x) == Degree(inDegree0, x) - multiset(neighbours)[x]
    requires Distinct(queue)
    requires forall x :: x in queue <==> x in rest || (x in neighbours && Degree(inDegree, x) == 0)
    ensures LoopState(ids, graph, order + [c], queue, inDegree)
  {
    GreedyExtends(order, c, ids, graph);
    forall x
      ensures Degree(inDegree, x) == Outstanding(Deps(graph, x), order + [c])
    {
      OutstandingDrops(Deps(graph, x), order, c);
    }
    forall x
      ensures x in queue <==> IsReady(ids, graph, order + [c], x)
    {
      var deps := Deps(graph, x);
      OutstandingZero(deps, order + [c]);
      assert x in neighbours <==> x in multiset(neighbours);
      assert c in deps <==> c in multiset(deps);
      if c in deps {
        NeighbourIsBlocked(ids, graph, order, c, x);
        assert x in [c] + rest <==> IsReady(ids, graph, order, x);
        assert x in ids;
      } else {
        assert IsReady(ids, graph, order + [c], x) <==> IsReady(ids, graph, order, x) && x != c;
        assert x in [c] + rest <==> x == c || x in rest;
        FrontIsElsewhereAbsent(c, rest);
      }
    }
  }

  /** The first queue: the listed ids nothing has to precede. */
  method InitialQueue(ids: seq<string>, inDegree: map<string, int>) returns (queue: seq<string>)
    requires Distinct(ids)
    ensures Distinct(queue)
    ensures forall x :: x in queue <==> x in ids && Degree(inDegree, x) == 0
  {
    queue := [];
    for i := 0 to |ids|
      invariant Distinct(queue)
      invariant forall x :: x in queue <==> x in ids[..i] && Degree(inDegree, x) == 0
    {
      assert ids[..i + 1] == ids[..i] + [ids[i]];
      if Degree(inDegree, ids[i]) == 0 {
        queue := queue + [ids[i]];
      }
    }
    assert ids[..|ids|] == ids;
  }

  /** One turn of the main loop: sort the queue, take its front, release its neighbours. */
  method TakeNext(ghost ids: seq<string>, ghost graph: Graph, ghost order: seq<string>,
                  adjacency: map<string, seq<string>>, inDegree0: map<string, int>, queue0: seq<string>)
    returns (current: string, inDegree: map<string, int>, queue: seq<string>)
    requires NoStrangers(ids, graph)
    requires LoopState(ids, graph, order, queue0, inDegree0)
    requires forall d, x :: EdgeCount(adjacency, d, x) == Multiplicity(Deps(graph, x), d)
    requires |queue0| > 0
    ensures IsLeastReady(ids, graph, order, current)
    ensures LoopState(ids, graph, order + [current], queue, inDegree)
  {
    var sorted := Sort(queue0);
    SortKeepsElements(queue0);
    current := sorted[0];
    var rest := sorted[1..];
    assert sorted == [current] + rest;
    QueueFrontIsLeast(ids, graph, order, sorted);
    var neighbours := Neighbours(adjacency, current);
    forall x
      ensures multiset(neighbours)[x] == multiset(Deps(graph, x))[current]
    {
      assert EdgeCount(adjacency, current, x) == Multiplicity(Deps(graph, x), current);
    }
    NeighboursFit(ids, graph, order, current, sorted, inDegree0, neighbours);
    inDegree, queue := Relax(neighbours, inDegree0, rest);
    StepKeepsState(ids, graph, order, current, rest, queue, inDegree0, inDegree, neighbours);
  }

  /** Only listed ids have dependencies. */
  ghost predicate NoStrangers(ids: seq<string>, graph: Graph) {
    forall x :: Deps(graph, x) != [] ==> x in ids
  }

  /** What takes part in the sort: the ids, and every other key of the graph that has dependencies. */
  ghost predicate IsParticipants(nodes: seq<string>, ids: seq<string>, graph: Graph) {
    Distinct(nodes) && forall x :: x in nodes <==> x in ids || Deps(graph, x) != []
  }

  /** `done` takes the least ready participant as long as there is one. */
  ghost predicate IsSorted(done: seq<string>, nodes: seq<string>, graph: Graph) {
    IsGreedy(done, nodes, graph) && forall x :: !IsReady(nodes, graph, done, x)
  }

  /** Each entry of `list` takes part and comes after its dependencies. */
  ghost predicate IsGrounding(list: seq<string>, ids: seq<string>, graph: Graph) {
    forall i :: 0 <= i < |list| ==>
      (list[i] in ids || Deps(graph, list[i]) != []) && forall d :: d in Deps(graph, list[i]) ==> d in list[..i]
  }

  ghost predicate IsGrounded(ids: seq<string>, graph: Graph, x: string) {
    exists list :: IsGrounding(list, ids, graph) && x in list
  }

  /** What can be brought into an order in which every dependency comes first. */
  ghost function Grounded(ids: seq<string>, graph: Graph): set<string> {
    set x | x in Elements(ids) + graph.Keys && IsGrounded(ids, graph, x)
  }

  /** The sort puts into the order exactly what is grounded. */
  lemma SortedIsGrounded(done: seq<string>, nodes: seq<string>, ids: seq<string>, graph: Graph)
    requires IsParticipants(nodes, ids, graph) && IsSorted(done, nodes, graph)
    ensures Elements(done) == Grounded(ids, graph) && Distinct(done) && |done| == |Grounded(ids, graph)|
  {
    GreedyIsDistinct(done, nodes, graph);
    forall x | x in done
      ensures x in Grounded(ids, graph)
    {
      DoneIsGrounding(done, nodes, ids, graph);
      assert IsGrounded(ids, graph, x);
      assert x in nodes;
    }
    forall x | x in Grounded(ids, graph)
      ensures x in done
    {
      var list :| IsGrounding(list, ids, graph) && x in list;
      GroundingIsDone(list, |list|, done, nodes, ids, graph);
    }
    assert Elements(done) == Grounded(ids, graph);
    ElementsSize(done);
  }

  lemma DoneIsGrounding(done: seq<string>, nodes: seq<string>, ids: seq<string>, graph: Graph)
    requires IsParticipants(nodes, ids, graph) && IsGreedy(done, nodes, graph)
    ensures IsGrounding(done, ids, graph) && forall x :: x in done ==> x in nodes
  {
    forall i | 0 <= i < |done|
      ensures done[i] in nodes && forall d :: d in Deps(graph, done[i]) ==> d in done[..i]
    {
      assert IsLeastReady(nodes, graph, done[..i], done[i]);
    }
  }

  lemma {:induction false} GroundingIsDone(list: seq<string>, n: nat, done: seq<string>, nodes: seq<string>, ids: seq<string>, graph: Graph)
    requires IsParticipants(nodes, ids, graph) && IsSorted(done, nodes, graph)
    requires IsGrounding(list, ids, graph) && n <= |list|
    ensures forall x :: x in list[..n] ==> x in done
  {
    if n > 0 {
      GroundingIsDone(list, n - 1, done, nodes, ids, graph);
      assert list[..n] == list[..n - 1] + [list[n - 1]];
      assert !IsReady(nodes, graph, done, list[n - 1]);
    }
  }

  /** Either list has the ids and nothing else exactly when nothing outside the list is in it, or the list itself is used. */
  lemma PermutationExactlyWhen(order: seq<string>, done: seq<string>, ids: seq<string>)
    requires Distinct(ids) && Distinct(done) && order == if |done| < |ids| then ids else done
    ensures multiset(order) == multiset(ids) <==> |done| < |ids| || Elements(done) <= Elements(ids)
  {
    if |done| >= |ids| {
      if Elements(done) <= Elements(ids) {
        assert forall x :: x in done ==> x in Elements(done);
        DistinctCovers(done, ids);
        DistinctPermutation(done, ids);
      } else {
        var x :| x in done && x !in ids;
        assert x in multiset(done) && x !in multiset(ids);
      }
    }
  }

  /** Without cycles and dangling dependencies among the participants all of them are grounded: only strangers spoil the permutation. */
  lemma AcyclicGroundsAll(nodes: seq<string>, ids: seq<string>, graph: Graph, done: seq<string>)
    requires Distinct(ids) && IsParticipants(nodes, ids, graph) && IsSorted(done, nodes, graph)
    requires Closed(nodes, graph) && !HasCycle(nodes, graph)
    ensures Grounded(ids, graph) == Elements(nodes)
    ensures |Grounded(ids, graph)| < |ids| || Grounded(ids, graph) <= Elements(ids) <==> NoStrangers(ids, graph)
  {
    SortedIsGrounded(done, nodes, ids, graph);
    if left :| left in nodes && left !in done {
      StuckHasCycle(done, nodes, graph, left);
      assert false;
    }
    forall x | x in done
      ensures x in nodes
    {
      DoneIsGrounding(done, nodes, ids, graph);
    }
    assert Grounded(ids, graph) == Elements(nodes);
    DistinctIsShort(ids, Elements(nodes));
    assert forall x :: Deps(graph, x) != [] ==> x in Elements(nodes);
    assert NoStrangers(ids, graph) ==> forall x :: x in nodes ==> x in ids;
    assert Elements(nodes) <= Elements(ids) ==> NoStrangers(ids, graph);
  }

  lemma Participants(ids: seq<string>, graph: Graph) returns (nodes: seq<string>)
    requires Distinct(ids)
    ensures IsParticipants(nodes, ids, graph) && NoStrangers(nodes, graph)
    ensures NoStrangers(ids, graph) ==> nodes == ids
  {
    var strangers := SomeOrder(set x | x in graph && graph[x] != [] && x !in ids);
    nodes := ids + strangers;
    assert forall i :: |ids| <= i < |nodes| ==> nodes[i] == strangers[i - |ids|] && nodes[i] in strangers;
    assert forall i :: 0 <= i < |ids| ==> nodes[i] in ids;
    assert forall x :: x in nodes <==> x in ids || x in strangers;
    assert strangers == [] || strangers[0] in strangers;
    assert NoStrangers(ids, graph) ==> nodes == ids;
  }

  /**
   The execution order of distinct subtask ids. When only listed ids have dependencies it is the least topological
   order if there is one, and the list order otherwise. In general the keys outside the list take part as well: the order
   holds what is grounded, or is the list when less is grounded than there are ids.
   */
  method ComputeExecutionOrder(ids: seq<string>, graph: Graph) returns (order: seq<string>)
    requires Distinct(ids)
    ensures NoStrangers(ids, graph) ==> multiset(order) == multiset(ids)
    ensures NoStrangers(ids, graph) && Closed(ids, graph) && !HasCycle(ids, graph) ==> IsLeastTopological(order, ids, graph)
    ensures NoStrangers(ids, graph) && (!Closed(ids, graph) || HasCycle(ids, graph)) ==> order == ids
    ensures exists nodes, done :: IsParticipants(nodes, ids, graph) && IsSorted(done, nodes, graph)
              && order == if |done| < |ids| then ids else done
    ensures Elements(order) == if |Grounded(ids, graph)| < |ids| then Elements(ids) else Grounded(ids, graph)
    ensures multiset(order) == multiset(ids) <==>
              |Grounded(ids, graph)| < |ids| || Grounded(ids, graph) <= Elements(ids)
  {
    hide Grounded;
    ghost var nodes := Participants(ids, graph);
    if |ids| == 0 {
      NothingToSort(nodes, ids, graph);
      SortedIsGrounded([], nodes, ids, graph);
      return [];
    }
    var adjacency, inDegree := BuildAdjacency(ids, graph);
    var queue := InitialQueue(ids, inDegree);
    InitialState(nodes, graph, queue, inDegree);
    order := [];
    while |queue| > 0
      invariant LoopState(nodes, graph, order, queue, inDegree)
      decreases Elements(nodes) - Elements(order)
    {
      var current;
      current, inDegree, queue := TakeNext(nodes, graph, order, adjacency, inDegree, queue);
      assert Elements(order + [current]) == Elements(order) + {current};
      order := order + [current];
    }
    ghost var done := order;
    assert IsSorted(done, nodes, graph);
    SortedIsGrounded(done, nodes, ids, graph);
    if NoStrangers(ids, graph) { Outcome(ids, graph, order); }
    if |order| < |ids| {
      order := ids;
    }
    PermutationExactlyWhen(order, done, ids);
  }

  lemma NothingToSort(nodes: seq<string>, ids: seq<string>, graph: Graph)
    requires ids == [] && IsParticipants(nodes, ids, graph)
    ensures IsSorted([], nodes, graph)
    ensures NoStrangers(ids, graph) ==> IsLeastTopological([], ids, graph) && Closed(ids, graph) && !HasCycle(ids, graph)
  {
    forall x
      ensures !IsReady(nodes, graph, [], x)
    {
      if Deps(graph, x) != [] { assert Deps(graph, x)[0] in Deps(graph, x); }
    }
    EmptyOrder(graph);
  }

  /** So the order is no permutation of the ids here: the key outside the list is grounded once what it depends on is. */
  lemma StrangerIsGrounded(id: string, stranger: string)
    requires id != stranger
    ensures Grounded([id], map[stranger := [id]]) == {id, stranger}
  {
    var graph := map[stranger := [id]];
    var list := [id, stranger];
    assert list[..1] == [id] && Deps(graph, stranger) == [id];
    assert IsGrounding(list, [id], graph);
    assert id in list && stranger in list;
  }

  lemma SortKeepsElements(s: seq<string>)
    requires Distinct(s)
    ensures Distinct(Sort(s)) && |Sort(s)| == |s|
    ensures forall x :: x in Sort(s) <==> x in s
  {
    var r := Sort(s);
    assert |multiset(r)| == |multiset(s)|;
    forall x
      ensures x in r <==> x in s
    {
      assert x in multiset(r) <==> x in multiset(s);
    }
    MultiplicityIsDistinct(s, r);
  }

  lemma MultiplicityIsDistinct(s: seq<string>, r: seq<string>)
    requires Distinct(s) && multiset(r) == multiset(s)
    ensures Distinct(r)
  {
    forall i, j | 0 <= i < j < |r|
      ensures r[i] != r[j]
    {
      RemainingEdges(r, j);
      DistinctMultiplicity(s, r[j]);
      assert r[i] in r[..j];
    }
  }

  lemma NeighboursFit(ids: seq<string>, graph: Graph, order: seq<string>, c: string, ready: seq<string>,
                      inDegree: map<string, int>, neighbours: seq<string>)
    requires LoopState(ids, graph, order, ready, inDegree)
    requires ready != [] && ready[0] == c
    requires forall x :: multiset(neighbours)[x] == multiset(Deps(graph, x))[c]
    ensures Distinct(ready[1..])
    ensures forall x :: x in neighbours ==> x !in ready[1..]
    ensures forall x :: x in neighbours ==> Degree(inDegree, x) >= multiset(neighbours)[x]
  {
    assert c in ready;
    forall x | x in neighbours
      ensures x !in ready[1..] && Degree(inDegree, x) >= multiset(neighbours)[x]
    {
      assert x in multiset(neighbours);
      assert c in multiset(Deps(graph, x));
      NeighbourIsBlocked(ids, graph, order, c, x);
      assert x !in ready;
    }
  }

  lemma HeadIsElement(s: seq<string>)
    ensures s != [] ==> s[0] in s
  {
  }

  lemma EmptyOrder(graph: Graph)
    ensures IsLeastTopological([], [], graph)
    ensures Closed([], graph) && !HasCycle([], graph)
  {
    ListedOrderIsTopological([], graph);
    forall other | IsTopological(other, [], graph)
      ensures ListAtMost([], other)
    {
      HeadIsElement(other);
    }
  }

  /** Once the queue is empty, a short result means a cycle or a dangling dependency, a full one means neither. */
  lemma Outcome(ids: seq<string>, graph: Graph, order: seq<string>)
    requires Distinct(ids)
    requires IsGreedy(order, ids, graph)
    requires forall x :: !IsReady(ids, graph, order, x)
    ensures |order| < |ids| <==> !Closed(ids, graph) || HasCycle(ids, graph)
    ensures |order| >= |ids| ==> IsLeastTopological(order, ids, graph) && multiset(order) == multiset(ids)
  {
    GreedyIsDistinct(order, ids, graph);
    if |order| >= |ids| {
      DistinctCovers(order, ids);
      DistinctPermutation(order, ids);
      forall other | IsTopological(other, ids, graph)
        ensures ListAtMost(order, other)
      {
        GreedyIsLeast(order, ids, graph, other);
      }
      TopologicalHasNoCycle(order, ids, graph);
    } else if Closed(ids, graph) {
      if forall x :: x in ids ==> x in order {
        DistinctIsShort(ids, Elements(order));
        ElementsSize(order);
        assert false;
      }
      var left :| left in ids && left !in order;
      StuckHasCycle(order, ids, graph, left);
    }
  }
}
