/** Paths in finite directed graphs. */
module Graphs {

  /** `graph[x]` is the set of nodes that node `x` refers to. */
  type Graph = seq<set<nat>>

  ghost predicate WellFormed(graph: Graph) {
    forall x, d | 0 <= x < |graph| && d in graph[x] :: d < |graph|
  }

  ghost predicate Path(graph: Graph, p: seq<nat>) {
    && p != []
    && (forall i | 0 <= i < |p| :: p[i] < |graph|)
    && forall i | 0 <= i < |p| - 1 :: p[i + 1] in graph[p[i]]
  }

  ghost predicate PathFrom(graph: Graph, p: seq<nat>, x: nat, y: nat) {
    Path(graph, p) && p[0] == x && p[|p| - 1] == y
  }

  /** There is a path of at least one step. */
  ghost predicate Reaches(graph: Graph, x: nat, y: nat) {
    exists p :: PathFrom(graph, p, x, y) && |p| > 1
  }

  /** `x` refers to itself, perhaps through other nodes. */
  ghost predicate OnCycle(graph: Graph, x: nat) { Reaches(graph, x, x) }

  lemma JoinPaths(graph: Graph, p: seq<nat>, q: seq<nat>, x: nat, y: nat, z: nat) returns (r: seq<nat>)
    requires PathFrom(graph, p, x, y) && PathFrom(graph, q, y, z)
    ensures PathFrom(graph, r, x, z) && |r| == |p| + |q| - 1
    ensures forall i | 0 <= i < |r| :: r[i] in p || r[i] in q
  {
    r := p + q[1..];
    forall i | 0 <= i < |r| - 1 ensures r[i + 1] in graph[r[i]] {
      if i >= |p| - 1 {
        assert r[i + 1] == q[i - |p| + 2];
        assert r[i] == q[i - |p| + 1];
      }
    }
    assert r[|r| - 1] == z;
  }

  lemma ReachesStep(graph: Graph, p: nat, b: nat, r: nat)
    requires p < |graph| && b < |graph| && b in graph[p] && Reaches(graph, b, r)
    ensures Reaches(graph, p, r)
  {
    var path :| PathFrom(graph, path, b, r) && |path| > 1;
    assert PathFrom(graph, [p, b], p, b);
    var joined := JoinPaths(graph, [p, b], path, p, b, r);
  }

  lemma ReachesEdge(graph: Graph, p: nat, b: nat)
    requires p < |graph| && b < |graph| && b in graph[p]
    ensures Reaches(graph, p, b)
  {
    assert PathFrom(graph, [p, b], p, b);
  }

  /** A number that gets smaller along every edge. */
  ghost predicate Descending(graph: Graph, rank: seq<nat>) {
    |rank| == |graph| && WellFormed(graph) && forall x, d | 0 <= x < |graph| && d in graph[x] :: rank[d] < rank[x]
  }

  lemma {:induction false} RankDescends(graph: Graph, rank: seq<nat>, p: seq<nat>, i: nat)
    requires Descending(graph, rank) && Path(graph, p) && 0 < i < |p|
    ensures rank[p[i]] < rank[p[0]]
  {
    assert p[(i - 1) + 1] in graph[p[i - 1]];
    if i > 1 { RankDescends(graph, rank, p, i - 1); }
  }

  lemma DescendingIsAcyclic(graph: Graph, rank: seq<nat>)
    requires Descending(graph, rank)
    ensures forall x | 0 <= x < |graph| :: !OnCycle(graph, x)
  {
    forall x | 0 <= x < |graph| ensures !OnCycle(graph, x) {
      if OnCycle(graph, x) {
        var p :| PathFrom(graph, p, x, x) && |p| > 1;
        RankDescends(graph, rank, p, |p| - 1);
        assert false;
      }
    }
  }
}
