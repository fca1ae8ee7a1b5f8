/** Two small dependency graphs and the plans that the planner makes for them. */
module PlanExamples {
  import opened Graphs
  import opened WhereBlock

  /** Nodes 0 and 1 refer to themselves and to each other, the base to node 0. */
  const PAIR: Graph := [{0, 1}, {0, 1}, {0}]

  /** Node 0 refers to nothing, the base to node 0. */
  const CHAIN: Graph := [{}, {0}]

  lemma PathWithin(graph: Graph, p: seq<nat>, within: set<nat>)
    requires Path(graph, p) && forall i | 0 <= i < |p| :: p[i] in within
    ensures ReachesWithin(graph, p[0], p[|p| - 1], within)
    ensures |p| > 1 ==> Reaches(graph, p[0], p[|p| - 1])
  {
    assert PathFrom(graph, p, p[0], p[|p| - 1]);
  }

  lemma EdgeWithin(graph: Graph, x: nat, y: nat)
    requires x < |graph| && y < |graph| && y in graph[x]
    ensures Reaches(graph, x, y)
  {
    PathWithin(graph, [x, y], {x, y});
  }

  /** All visits began before anything was ordered, and every node reaches those ordered before it
      through nodes ordered before it. */
  ghost predicate OneVisit(graph: Graph, order: seq<nat>, index: seq<int>, started: map<nat, nat>) {
    && |order| == |index| == |graph|
    && (forall x | 0 <= x < |graph| :: x in started && started[x] == 0)
    && (forall x | 0 <= x < |graph| :: 0 <= index[x] < |graph| && order[index[x]] == x)
    && (forall k | 0 <= k < |order| :: order[k] < |graph| && index[order[k]] == k)
    && forall k, j | 0 <= j <= k < |order| :: ReachesWithin(graph, order[k], order[j], Elements(order[0..k + 1]))
  }

  lemma OneVisitOrders(graph: Graph, order: seq<nat>, index: seq<int>, started: map<nat, nat>)
    requires WellFormed(graph) && OneVisit(graph, order, index, started) && order != []
    ensures Ordered(graph, order, index, started)
    ensures Reached(graph, order, order[|order| - 1], 0)
  {
    forall k: nat, j: nat | During(order, started, k, j)
      ensures ReachesWithin(graph, order[k], order[j], Segment(order, started[order[k]], k)) {}
    forall k | 0 <= k < |order| ensures ReachesWithin(graph, order[|order| - 1], order[k], Elements(order[0..])) {
      assert order[0..(|order| - 1) + 1] == order[0..];
      assert ReachesWithin(graph, order[|order| - 1], order[k], Elements(order[0..(|order| - 1) + 1]));
    }
  }

  /** When nothing needs to be passed on, recursive variables are the references to later nodes. */
  lemma OneVisitPlans(graph: Graph, order: seq<nat>, index: seq<int>, started: map<nat, nat>, recursive: seq<seq<nat>>)
    requires WellFormed(graph) && OneVisit(graph, order, index, started) && order != [] && |recursive| == |graph|
    requires forall b | 0 <= b < |graph| :: Distinct(recursive[b])
    requires forall b, r: nat | 0 <= b < |graph| :: r in recursive[b] <==> r in graph[b] && index[b] <= index[r]
    requires forall p, b, r | 0 <= p < |graph| && b in graph[p] && r in recursive[b] :: r in graph[p]
    ensures Planned(graph, order[|order| - 1], order, index, started, graph, recursive)
  {
    OneVisitOrders(graph, order, index, started);
    forall b | 0 <= b < |graph| ensures BindingFacts(graph, order, index, started, b, graph[b], recursive[b]) {
      forall r | r in graph[b] ensures Reaches(graph, b, r) { EdgeWithin(graph, b, r); }
    }
  }

  lemma PairPlanned(graph: Graph, index: seq<int>, started: map<nat, nat>, recursive: seq<seq<nat>>)
    requires graph == PAIR && index == [1, 0, 2] && started == map[0 := 0, 1 := 0, 2 := 0] && recursive == [[0], [0, 1], []]
    ensures Planned(graph, 2, [1, 0, 2], index, started, graph, recursive)
  {
    PairVisited([1, 0, 2]);
    PairRecursion(graph, index, recursive);
    OneVisitPlans(graph, [1, 0, 2], index, started, recursive);
  }

  lemma PairRecursion(graph: Graph, index: seq<int>, recursive: seq<seq<nat>>)
    requires graph == PAIR && index == [1, 0, 2] && recursive == [[0], [0, 1], []]
    ensures WellFormed(graph) && |recursive| == |graph| == |index|
    ensures forall b | 0 <= b < |graph| :: Distinct(recursive[b])
    ensures forall b, r: nat | 0 <= b < |graph| :: r in recursive[b] <==> r in graph[b] && index[b] <= index[r]
    ensures forall p, b, r | 0 <= p < |graph| && b in graph[p] && r in recursive[b] :: r in graph[p]
  {
    assert graph[0] == {0, 1} && graph[1] == {0, 1} && graph[2] == {0};
    assert recursive[0] == [0] && recursive[1] == [0, 1] && recursive[2] == [];
    assert index[0] == 1 && index[1] == 0 && index[2] == 2;
  }

  lemma PairVisited(order: seq<nat>)
    requires order == [1, 0, 2]
    ensures OneVisit(PAIR, order, [1, 0, 2], map[0 := 0, 1 := 0, 2 := 0])
  {
    forall k, j | 0 <= j <= k < |order| ensures ReachesWithin(PAIR, order[k], order[j], Elements(order[0..k + 1])) {
      var within := Elements(order[0..k + 1]);
      assert order[0..k + 1][j] == order[j] && order[0..k + 1][k] == order[k];
      if k == 2 && j == 0 { assert order[0..3][1] == 0; }
      PathWithin(PAIR, if j == k then [order[k]] else if k == 2 && j == 0 then [2, 0, 1] else [order[k], order[j]], within);
    }
  }

  lemma ChainPlanned(graph: Graph, index: seq<int>, started: map<nat, nat>, recursive: seq<seq<nat>>)
    requires graph == CHAIN && index == [0, 1] && started == map[0 := 0, 1 := 0] && recursive == [[], []]
    ensures Planned(graph, 1, [0, 1], index, started, graph, recursive)
  {
    ChainVisited([0, 1]);
    ChainRecursion(graph, index, recursive);
    OneVisitPlans(graph, [0, 1], index, started, recursive);
  }

  lemma ChainRecursion(graph: Graph, index: seq<int>, recursive: seq<seq<nat>>)
    requires graph == CHAIN && index == [0, 1] && recursive == [[], []]
    ensures WellFormed(graph) && |recursive| == |graph| == |index|
    ensures forall b | 0 <= b < |graph| :: Distinct(recursive[b])
    ensures forall b, r: nat | 0 <= b < |graph| :: r in recursive[b] <==> r in graph[b] && index[b] <= index[r]
    ensures forall p, b, r | 0 <= p < |graph| && b in graph[p] && r in recursive[b] :: r in graph[p]
  {
    assert graph[0] == {} && graph[1] == {0} && recursive[0] == [] && recursive[1] == [];
  }

  lemma ChainVisited(order: seq<nat>)
    requires order == [0, 1]
    ensures OneVisit(CHAIN, order, [0, 1], map[0 := 0, 1 := 0])
  {
    forall k, j | 0 <= j <= k < |order| ensures ReachesWithin(CHAIN, order[k], order[j], Elements(order[0..k + 1])) {
      assert order[0..k + 1][j] == order[j] && order[0..k + 1][k] == order[k];
      PathWithin(CHAIN, if j == k then [order[k]] else [order[k], order[j]], Elements(order[0..k + 1]));
    }
  }
}
