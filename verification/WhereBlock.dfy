/** Planning a where block: the order in which bindings are computed, and which bindings must
    be passed to which others because they refer to each other in a circle. */
module WhereBlock {
  import opened Graphs

  /** There is a path from `x` to `y` through nodes of `within` only. */
  ghost predicate ReachesWithin(graph: Graph, x: nat, y: nat, within: set<nat>) {
    exists p :: PathFrom(graph, p, x, y) && forall i | 0 <= i < |p| :: p[i] in within
  }

  lemma WidenReach(graph: Graph, x: nat, y: nat, within: set<nat>, wider: set<nat>)
    requires ReachesWithin(graph, x, y, within) && within <= wider
    ensures ReachesWithin(graph, x, y, wider)
  {
    var p :| PathFrom(graph, p, x, y) && forall i | 0 <= i < |p| :: p[i] in within;
    forall i | 0 <= i < |p| ensures p[i] in wider {}
  }

  lemma StepThenReach(graph: Graph, x: nat, d: nat, y: nat, within: set<nat>)
    requires x < |graph| && d in graph[x] && x in within && ReachesWithin(graph, d, y, within)
    ensures ReachesWithin(graph, x, y, within)
  {
    var p :| PathFrom(graph, p, d, y) && forall i | 0 <= i < |p| :: p[i] in within;
    var q := [x] + p;
    forall i | 0 <= i < |q| - 1 ensures q[i + 1] in graph[q[i]] {
      if i > 0 { assert q[i] == p[i - 1] && q[i + 1] == p[i]; }
    }
    assert PathFrom(graph, q, x, y);
  }

  lemma ReachSelf(graph: Graph, x: nat, within: set<nat>)
    requires x < |graph| && x in within
    ensures ReachesWithin(graph, x, x, within)
  {
    assert PathFrom(graph, [x], x, x);
  }

  function Elements(s: seq<nat>): set<nat> { set x | x in s }

  // ---------------------------------------------------------------------------
  // What a depth-first ordering guarantees.

  /** The nodes ordered while `x` was being visited, `x` included, when `x` started with
      `started` nodes already ordered. */
  function Segment(order: seq<nat>, started: nat, x: nat): set<nat>
    requires started <= x < |order|
  {
    Elements(order[started..x + 1])
  }

  /** `index` is -1 for a node not yet seen, -2 for a node being visited, and the node's
      position in `order` otherwise; `started[x]` is how many nodes were ordered when the visit
      of `x` began. */
  ghost predicate Indexed(graph: Graph, order: seq<nat>, index: seq<int>, started: map<nat, nat>) {
    && WellFormed(graph) && |index| == |graph|
    && (forall x | 0 <= x < |graph| :: -2 <= index[x] < |order|)
    && (forall x | 0 <= x < |graph| && index[x] >= 0 :: order[index[x]] == x)
    && (forall k | 0 <= k < |order| :: order[k] < |graph| && index[order[k]] == k)
    && (forall x | 0 <= x < |graph| && index[x] != -1 :: x in started && started[x] <= |order|)
  }

  /** The node at position `j` was ordered during the visit of the node at position `k`. */
  ghost predicate During(order: seq<nat>, started: map<nat, nat>, k: nat, j: nat) {
    k < |order| && order[k] in started && started[order[k]] <= j <= k
  }

  ghost predicate StartsOk(order: seq<nat>, started: map<nat, nat>) {
    forall k | 0 <= k < |order| :: order[k] in started && started[order[k]] <= k
  }

  /** A visit made during another began no earlier, and reached nodes can be reached through
      nodes ordered during the visit. */
  ghost predicate Nested(graph: Graph, order: seq<nat>, started: map<nat, nat>) {
    && StartsOk(order, started)
    && forall k: nat, j: nat {:trigger During(order, started, k, j)} | During(order, started, k, j) ::
         && started[order[k]] <= started[order[j]]
         && ReachesWithin(graph, order[k], order[j], Segment(order, started[order[k]], k))
  }

  /** By the time a node is ordered, all it depends on has been entered. */
  ghost predicate Scanned(graph: Graph, order: seq<nat>, index: seq<int>, started: map<nat, nat>)
    requires Indexed(graph, order, index, started)
  {
    forall k, d | 0 <= k < |order| && d in graph[order[k]] ::
      index[d] != -1 && (index[d] < 0 || index[d] > k ==> started[d] <= k)
  }

  ghost predicate OrderFacts(graph: Graph, order: seq<nat>, index: seq<int>, started: map<nat, nat>) {
    Indexed(graph, order, index, started) && Nested(graph, order, started) && Scanned(graph, order, index, started)
  }

  lemma StartVisit(graph: Graph, order: seq<nat>, index: seq<int>, started: map<nat, nat>, x: nat)
    requires OrderFacts(graph, order, index, started) && x < |graph| && index[x] == -1
    ensures OrderFacts(graph, order, index[x := -2], started[x := |order|])
  {
    var begun := started[x := |order|];
    assert forall k | 0 <= k < |order| :: begun[order[k]] == started[order[k]];
    assert StartsOk(order, begun);
    forall k: nat, j: nat | During(order, begun, k, j)
      ensures && begun[order[k]] <= begun[order[j]]
              && ReachesWithin(graph, order[k], order[j], Segment(order, begun[order[k]], k))
    {
      assert During(order, started, k, j);
    }
  }

  /** Everything ordered since `x` was entered can be reached from `x` through itself and nodes
      ordered since. */
  ghost predicate Explored(graph: Graph, order: seq<nat>, started: map<nat, nat>, x: nat, begin: nat)
    requires begin <= |order|
    requires StartsOk(order, started)
  {
    forall k | begin <= k < |order| ::
      && started[order[k]] >= begin
      && ReachesWithin(graph, x, order[k], Elements(order[begin..]) + {x})
  }

  /** A dependency has just been visited on behalf of `x`. */
  lemma ExploreMore(graph: Graph, before: seq<nat>, after: seq<nat>,
                    started: map<nat, nat>, startedAfter: map<nat, nat>, x: nat, begin: nat, d: nat)
    requires begin <= |before| && before <= after && x < |graph| && d in graph[x]
    requires StartsOk(before, started) && StartsOk(after, startedAfter)
    requires forall k | 0 <= k < |before| :: startedAfter[before[k]] == started[before[k]]
    requires Explored(graph, before, started, x, begin)
    requires Reached(graph, after, d, |before|)
    requires NewlyOrdered(after, startedAfter, |before|)
    ensures Explored(graph, after, startedAfter, x, begin)
  {
    var wide := Elements(after[begin..]) + {x};
    forall k | begin <= k < |after|
      ensures startedAfter[after[k]] >= begin && ReachesWithin(graph, x, after[k], wide)
    {
      if k < |before| {
        assert after[k] == before[k];
        forall y | y in Elements(before[begin..]) ensures y in Elements(after[begin..]) {
          var j :| begin <= j < |before| && before[j] == y;
          assert after[begin..][j - begin] == y;
        }
        WidenReach(graph, x, after[k], Elements(before[begin..]) + {x}, wide);
      } else {
        forall y | y in Elements(after[|before|..]) ensures y in Elements(after[begin..]) {
          var j :| |before| <= j < |after| && after[j] == y;
          assert after[begin..][j - begin] == y;
        }
        WidenReach(graph, d, after[k], Elements(after[|before|..]), wide);
        StepThenReach(graph, x, d, after[k], wide);
      }
    }
  }

  lemma FinishVisit(graph: Graph, order: seq<nat>, index: seq<int>, started: map<nat, nat>, x: nat)
    requires OrderFacts(graph, order, index, started) && x < |graph| && index[x] == -2
    requires Explored(graph, order, started, x, started[x])
    requires forall d | d in graph[x] :: index[d] != -1
    ensures OrderFacts(graph, order + [x], index[x := |order|], started)
    ensures Reached(graph, order + [x], x, started[x])
  {
    FinishReach(graph, order, started, x);
    FinishNested(graph, order, started, x);
    FinishScanned(graph, order, index, started, x);
  }

  /** Everything ordered from position `begin` on is reachable from `x` through such nodes. */
  ghost predicate Reached(graph: Graph, order: seq<nat>, x: nat, begin: nat)
    requires begin <= |order|
  {
    forall k | begin <= k < |order| :: ReachesWithin(graph, x, order[k], Elements(order[begin..]))
  }

  lemma FinishReach(graph: Graph, order: seq<nat>, started: map<nat, nat>, x: nat)
    requires StartsOk(order, started) && x in started && started[x] <= |order| && x < |graph|
    requires Explored(graph, order, started, x, started[x])
    ensures Reached(graph, order + [x], x, started[x])
    ensures Segment(order + [x], started[x], |order|) == Elements((order + [x])[started[x]..])
  {
    var after, begin := order + [x], started[x];
    assert after[begin..] == order[begin..] + [x];
    assert Elements(after[begin..]) == Elements(order[begin..]) + {x};
    assert after[begin..|order| + 1] == after[begin..];
    ReachSelf(graph, x, Elements(after[begin..]));
    forall k | begin <= k < |after| ensures ReachesWithin(graph, x, after[k], Elements(after[begin..])) {
      if k < |order| { assert after[k] == order[k]; }
    }
  }

  lemma FinishNested(graph: Graph, order: seq<nat>, started: map<nat, nat>, x: nat)
    requires Nested(graph, order, started) && x in started && started[x] <= |order|
    requires Explored(graph, order, started, x, started[x])
    requires Reached(graph, order + [x], x, started[x])
    requires Segment(order + [x], started[x], |order|) == Elements((order + [x])[started[x]..])
    ensures Nested(graph, order + [x], started)
  {
    forall k: nat, j: nat | During(order + [x], started, k, j)
      ensures && started[(order + [x])[k]] <= started[(order + [x])[j]]
              && ReachesWithin(graph, (order + [x])[k], (order + [x])[j], Segment(order + [x], started[(order + [x])[k]], k))
    {
      if k < |order| {
        StillNested(graph, order, started, x, k, j);
      } else if j < |order| {
        assert (order + [x])[j] == order[j];
      }
    }
  }

  lemma StillNested(graph: Graph, order: seq<nat>, started: map<nat, nat>, x: nat, k: nat, j: nat)
    requires Nested(graph, order, started) && During(order, started, k, j)
    ensures var after := order + [x];
      && started[after[k]] <= started[after[j]]
      && ReachesWithin(graph, after[k], after[j], Segment(after, started[after[k]], k))
  {
    var after := order + [x];
    assert after[k] == order[k] && after[j] == order[j];
    assert after[started[order[k]]..k + 1] == order[started[order[k]]..k + 1];
  }

  lemma FinishScanned(graph: Graph, order: seq<nat>, index: seq<int>, started: map<nat, nat>, x: nat)
    requires Indexed(graph, order, index, started) && Scanned(graph, order, index, started)
    requires x < |graph| && index[x] == -2
    requires forall d | d in graph[x] :: index[d] != -1
    ensures Indexed(graph, order + [x], index[x := |order|], started)
    ensures Scanned(graph, order + [x], index[x := |order|], started)
  {
    var after, numbered := order + [x], index[x := |order|];
    forall k, d | 0 <= k < |after| && d in graph[after[k]]
      ensures numbered[d] != -1 && (numbered[d] < 0 || numbered[d] > k ==> started[d] <= k)
    {
      if k < |order| { assert after[k] == order[k]; }
    }
  }

  /** The block being planned, with the records kept for each binding. */
  class Planner {
    const graph: Graph
    const index: array<int>
    var order: seq<nat>
    ghost var started: map<nat, nat>

    constructor (graph: Graph)
      requires WellFormed(graph)
      ensures this.graph == graph && Valid() && order == []
      ensures fresh(index) && forall x | 0 <= x < |graph| :: index[x] == -1
    {
      this.graph := graph;
      index := new int[|graph|](_ => -1);
      order, started := [], map[];
    }

    ghost predicate Valid()
      reads this, index
    {
      OrderFacts(graph, order, index[..], started)
    }

    ghost function Unseen(): set<nat>
      reads index
    {
      set x | 0 <= x < index.Length && index[x] == -1
    }

    method Enter(binding: nat)
      requires Valid() && binding < |graph| && index[binding] == -1
      modifies this, index
      ensures Valid()
      ensures order == old(order) && index[..] == old(index[..])[binding := -2]
      ensures started == old(started)[binding := |order|]
    {
      StartVisit(graph, order, index[..], started, binding);
      index[binding] := -2;
      started := started[binding := |order|];
      assert index[..] == old(index[..])[binding := -2];
    }

    method Leave(binding: nat)
      requires Valid() && binding < |graph| && index[binding] == -2
      requires Explored(graph, order, started, binding, started[binding])
      requires forall d | d in graph[binding] :: index[d] != -1
      modifies this, index
      ensures Valid()
      ensures order == old(order) + [binding] && index[..] == old(index[..])[binding := |old(order)|]
      ensures started == old(started)
      ensures Reached(graph, order, binding, started[binding])
    {
      FinishVisit(graph, order, index[..], started, binding);
      index[binding] := |order|;
      order := order + [binding];
      assert index[..] == old(index[..])[binding := |old(order)|];
    }

    /** Order everything `binding` depends on, then `binding` itself. */
    method Order(binding: nat)
      requires Valid() && binding < |graph| && index[binding] == -1
      modifies this, index
      ensures Valid()
      ensures old(order) < order && order[|order| - 1] == binding
      ensures Grew(old(index[..]), old(started), index[..], started)
      ensures NewlyOrdered(order, started, |old(order)|)
      ensures Reached(graph, order, binding, |old(order)|)
      decreases Unseen(), 1
    {
      assert binding in Unseen();
      Enter(binding);
      assert binding !in Unseen();
      ghost var entered, startedThen := index[..], started;
      VisitSiblings(binding, entered, startedThen);
      Leave(binding);
    }

    /** Order all the dependencies of `binding`, whose visit has just begun. */
    method VisitSiblings(binding: nat, ghost entered: seq<int>, ghost startedThen: map<nat, nat>)
      requires Valid() && binding < |graph| && Explored(graph, order, started, binding, |order|)
      requires Grew(entered, startedThen, index[..], started)
      modifies this, index
      ensures Valid() && old(order) <= order
      ensures forall d | d in graph[binding] :: index[d] != -1
      ensures Grew(entered, startedThen, index[..], started) && Explored(graph, order, started, binding, |old(order)|)
      decreases Unseen(), 3
    {
      ghost var begin := |order|;
      var remaining := graph[binding];
      while remaining != {}
        invariant Valid() && old(order) <= order
        invariant remaining <= graph[binding]
        invariant forall d | d in graph[binding] - remaining :: index[d] != -1
        invariant Unseen() <= old(Unseen())
        invariant Grew(entered, startedThen, index[..], started)
        invariant Explored(graph, order, started, binding, begin)
        decreases remaining
      {
        var sibling :| sibling in remaining;
        remaining := remaining - {sibling};
        VisitSibling(binding, begin, sibling, entered, startedThen);
      }
    }

    /** Order one of the dependencies of `binding`, whose visit began at `begin`, unless it has
        been seen already. */
    method VisitSibling(binding: nat, ghost begin: nat, sibling: nat, ghost entered: seq<int>, ghost startedThen: map<nat, nat>)
      requires Valid() && binding < |graph| && sibling in graph[binding] && begin <= |order|
      requires Grew(entered, startedThen, index[..], started) && Explored(graph, order, started, binding, begin)
      modifies this, index
      ensures Valid() && old(order) <= order && index[sibling] != -1
      ensures forall d | 0 <= d < |graph| && old(index[d]) != -1 :: index[d] != -1
      ensures Grew(entered, startedThen, index[..], started) && Explored(graph, order, started, binding, begin)
      ensures Unseen() <= old(Unseen())
      decreases Unseen(), 2
    {
      if index[sibling] == -1 {
        ghost var before, startedBefore := order, started;
        Order(sibling);
        ExploreMore(graph, before, order, startedBefore, started, binding, begin, sibling);
      }
    }
  }

  /** Nodes seen before are where they were, and no node has been left half visited. */
  ghost predicate Grew(index0: seq<int>, started0: map<nat, nat>, index: seq<int>, started: map<nat, nat>) {
    && |index0| == |index|
    && (forall x | 0 <= x < |index0| && index0[x] != -1 && x in started0 ::
          index[x] == index0[x] && x in started && started[x] == started0[x])
    && (forall x | 0 <= x < |index| && index[x] == -2 :: index0[x] == -2)
  }

  ghost predicate NewlyOrdered(order: seq<nat>, started: map<nat, nat>, begin: nat) {
    forall k | begin <= k < |order| :: order[k] in started && started[order[k]] >= begin
  }

  // ---------------------------------------------------------------------------
  // Recursive variables.

  /** The ordering is complete: everything an ordered node depends on is ordered. */
  ghost predicate Ordered(graph: Graph, order: seq<nat>, index: seq<int>, started: map<nat, nat>) {
    OrderFacts(graph, order, index, started) && forall x | 0 <= x < |graph| :: index[x] != -2
  }

  lemma DependencyOrdered(graph: Graph, order: seq<nat>, index: seq<int>, started: map<nat, nat>, x: nat, d: nat)
    requires Ordered(graph, order, index, started) && x < |graph| && index[x] >= 0 && d in graph[x]
    ensures d < |graph| && index[d] >= 0
  {
    assert order[index[x]] == x;
  }

  /** A reference to a binding that is computed no earlier goes to a binding whose visit was
      under way. */
  lemma BackEdge(graph: Graph, order: seq<nat>, index: seq<int>, started: map<nat, nat>, x: nat, d: nat)
    requires Ordered(graph, order, index, started) && x < |graph| && index[x] >= 0 && d in graph[x]
    requires index[x] <= index[d]
    ensures During(order, started, index[d], index[x])
  {
    assert order[index[x]] == x && order[index[d]] == d;
  }

  /** Whoever refers to a node visited during `r`, and comes no later than `r`, was itself
      visited during `r`. */
  lemma PredecessorJoins(graph: Graph, order: seq<nat>, index: seq<int>, started: map<nat, nat>, r: nat, x: nat, p: nat)
    requires Ordered(graph, order, index, started)
    requires r < |graph| && x < |graph| && p < |graph| && index[r] >= 0 && index[x] >= 0 && index[p] >= 0
    requires During(order, started, index[r], index[x]) && x in graph[p] && index[p] <= index[r]
    ensures During(order, started, index[r], index[p])
  {
    assert order[index[r]] == r && order[index[x]] == x && order[index[p]] == p;
    if index[p] < started[r] { assert false; }
  }

  /** What holds of one binding while recursive variables are passed on.  `needs` are the
      dependencies of `b` found so far, `recursive` those that are computed no earlier. */
  ghost predicate BindingFacts(
      graph: Graph, order: seq<nat>, index: seq<int>, started: map<nat, nat>, b: nat, needs: set<nat>, recursive: seq<nat>)
    requires Ordered(graph, order, index, started) && b < |graph|
  {
    if index[b] < 0 then recursive == []
    else
      && graph[b] <= needs
      && (forall r | r in needs :: r < |graph| && index[r] >= 0 && Reaches(graph, b, r))
      && (forall r: nat :: r in recursive <==> r in needs && index[b] <= index[r])
      && (forall r | r in recursive :: r in needs && During(order, started, index[r], index[b]))
      && Distinct(recursive)
  }

  ghost predicate RecursionFacts(
      graph: Graph, order: seq<nat>, index: seq<int>, started: map<nat, nat>,
      needs: seq<set<nat>>, recursive: seq<seq<nat>>)
    requires Ordered(graph, order, index, started)
  {
    && |needs| == |recursive| == |graph|
    && forall b | 0 <= b < |graph| :: BindingFacts(graph, order, index, started, b, needs[b], recursive[b])
  }

  ghost predicate Distinct(s: seq<nat>) { forall i, j | 0 <= i < j < |s| :: s[i] != s[j] }

  /** Everything that refers to `b` has been told about `b`'s recursive variable `r`. */
  ghost predicate Settled(graph: Graph, index: seq<int>, needs: seq<set<nat>>, b: nat, r: nat)
    requires |index| == |needs| == |graph|
  {
    forall p | 0 <= p < |graph| && index[p] >= 0 && b in graph[p] :: r in needs[p]
  }

  ghost predicate AllSettled(graph: Graph, index: seq<int>, needs: seq<set<nat>>, recursive: seq<seq<nat>>)
    requires |index| == |needs| == |recursive| == |graph|
  {
    forall b, r | 0 <= b < |graph| && r in recursive[b] :: Settled(graph, index, needs, b, r)
  }

  /** Recording that `p`, which refers to `b`, also depends on `b`'s recursive variable `r`. */
  lemma PassOn(graph: Graph, order: seq<nat>, index: seq<int>, started: map<nat, nat>,
               needs: seq<set<nat>>, recursive: seq<seq<nat>>, b: nat, r: nat, p: nat)
    requires Ordered(graph, order, index, started)
    requires RecursionFacts(graph, order, index, started, needs, recursive)
    requires b < |graph| && index[b] >= 0 && r in recursive[b]
    requires p < |graph| && index[p] >= 0 && b in graph[p] && r !in needs[p]
    ensures r < |graph|
    ensures BindingFacts(graph, order, index, started, p, needs[p] + {r},
              if index[p] <= index[r] then recursive[p] + [r] else recursive[p])
  {
    assert BindingFacts(graph, order, index, started, b, needs[b], recursive[b]);
    assert BindingFacts(graph, order, index, started, p, needs[p], recursive[p]);
    ReachesStep(graph, p, b, r);
    if index[p] <= index[r] {
      PredecessorJoins(graph, order, index, started, r, b, p);
    }
  }

  /** Dependencies and recursive variables have only been added, and every recursive variable
      that was added has been passed on. */
  ghost predicate Progress(graph: Graph, index: seq<int>, needs0: seq<set<nat>>, recursive0: seq<seq<nat>>,
                           needs: seq<set<nat>>, recursive: seq<seq<nat>>)
  {
    && |graph| == |index| == |needs0| == |needs| == |recursive0| == |recursive|
    && (forall x | 0 <= x < |needs| :: needs0[x] <= needs[x])
    && (forall x | 0 <= x < |recursive| :: recursive0[x] <= recursive[x])
    && (forall p, q | 0 <= p < |graph| && q in recursive[p] && q !in recursive0[p] :: Settled(graph, index, needs, p, q))
  }

  lemma InsertThenProgress(
      graph: Graph, index: seq<int>, needs1: seq<set<nat>>, recursive1: seq<seq<nat>>, p: nat, r: nat,
      needs2: seq<set<nat>>, recursive2: seq<seq<nat>>, needs3: seq<set<nat>>, recursive3: seq<seq<nat>>)
    requires |graph| == |index| == |needs1| == |recursive1| && p < |graph|
    requires needs2 == needs1[p := needs1[p] + {r}]
    requires recursive2 == recursive1 || recursive2 == recursive1[p := recursive1[p] + [r]]
    requires Progress(graph, index, needs2, recursive2, needs3, recursive3)
    requires recursive2 == recursive1 || Settled(graph, index, needs3, p, r)
    ensures Progress(graph, index, needs1, recursive1, needs3, recursive3)
  {
    forall x | 0 <= x < |graph| ensures recursive1[x] <= recursive3[x] {
      assert recursive1[x] <= recursive2[x];
    }
  }

  lemma ProgressComposes(
      graph: Graph, index: seq<int>, needs0: seq<set<nat>>, recursive0: seq<seq<nat>>,
      needs1: seq<set<nat>>, recursive1: seq<seq<nat>>, needs2: seq<set<nat>>, recursive2: seq<seq<nat>>)
    requires Progress(graph, index, needs0, recursive0, needs1, recursive1)
    requires Progress(graph, index, needs1, recursive1, needs2, recursive2)
    ensures Progress(graph, index, needs0, recursive0, needs2, recursive2)
  {
    forall x, q | 0 <= x < |graph| && q in recursive2[x] && q !in recursive0[x]
      ensures Settled(graph, index, needs2, x, q)
    {
      if q in recursive1[x] { assert Settled(graph, index, needs1, x, q); }
    }
  }

  ghost predicate Told(listeners: set<nat>, r: nat, needs: seq<set<nat>>) {
    forall p | p in listeners :: p < |needs| && r in needs[p]
  }

  lemma TellMore(listeners: set<nat>, r: nat, needs: seq<set<nat>>, after: seq<set<nat>>, p: nat)
    requires Told(listeners, r, needs) && |needs| == |after|
    requires forall x | 0 <= x < |needs| :: needs[x] <= after[x]
    requires p < |after| && r in after[p]
    ensures forall more | more <= listeners + {p} :: Told(more, r, after)
  {
  }

  ghost predicate RefersTo(graph: Graph, index: seq<int>, p: nat, z: nat)
    requires |index| == |graph|
  {
    p < |graph| && index[p] >= 0 && z in graph[p]
  }

  class RecursionFinder {
    const graph: Graph
    const order: seq<nat>
    const index: seq<int>
    ghost const started: map<nat, nat>
    const dependencies: array<set<nat>>
    const dependents: array<set<nat>>
    const recursiveVars: array<seq<nat>>

    ghost predicate Shape() {
      && Ordered(graph, order, index, started)
      && dependencies.Length == dependents.Length == recursiveVars.Length == |graph|
      && dependents != dependencies
    }

    ghost predicate DependentsKnown()
      requires Shape()
      reads dependents
    {
      forall z, p: nat | 0 <= z < dependents.Length :: p in dependents[z] <==> RefersTo(graph, index, p, z)
    }

    ghost predicate Valid()
      reads dependencies, dependents, recursiveVars
    {
      Shape() && DependentsKnown()
      && RecursionFacts(graph, order, index, started, dependencies[..], recursiveVars[..])
    }

    ghost function Missing(): set<(nat, nat)>
      reads dependencies
    {
      set p: nat, r: nat | p < dependencies.Length && r < |graph| && r !in dependencies[p] :: (p, r)
    }

    /** Every reader of `binding` must be able to hand it its recursive variable. */
    method AddDependencyToDependents(binding: nat, dependency: nat)
      requires Valid() && binding < |graph| && index[binding] >= 0 && dependency in recursiveVars[binding]
      modifies dependencies, recursiveVars
      ensures Valid()
      ensures Progress(graph, index, old(dependencies[..]), old(recursiveVars[..]), dependencies[..], recursiveVars[..])
      ensures Settled(graph, index, dependencies[..], binding, dependency)
      ensures Missing() <= old(Missing())
      decreases Missing(), 1
    {
      var remaining := dependents[binding];
      ghost var needs0, recursive0 := dependencies[..], recursiveVars[..];
      while remaining != {}
        invariant Valid() && remaining <= dependents[binding]
        invariant dependency in recursiveVars[binding]
        invariant Progress(graph, index, needs0, recursive0, dependencies[..], recursiveVars[..])
        invariant Told(dependents[binding] - remaining, dependency, dependencies[..])
        invariant Missing() <= old(Missing())
        decreases remaining
      {
        var dependent :| dependent in remaining;
        ghost var needs1, recursive1 := dependencies[..], recursiveVars[..];
        Tell(binding, dependency, dependent);
        ProgressComposes(graph, index, needs0, recursive0, needs1, recursive1, dependencies[..], recursiveVars[..]);
        TellMore(dependents[binding] - remaining, dependency, needs1, dependencies[..], dependent);
        remaining := remaining - {dependent};
      }
      SettledWhenTold(binding, dependency);
    }

    lemma DependentKnown(binding: nat, dependent: nat)
      requires Shape() && DependentsKnown() && binding < |graph| && dependent in dependents[binding]
      ensures dependent < |graph| && index[dependent] >= 0 && binding in graph[dependent]
    {
    }

    lemma SettledWhenTold(binding: nat, dependency: nat)
      requires Valid() && binding < |graph| && Told(dependents[binding], dependency, dependencies[..])
      ensures Settled(graph, index, dependencies[..], binding, dependency)
    {
      assert DependentsKnown();
    }

    /** Make `dependent`, which refers to `binding`, depend on `dependency` too. */
    method Tell(binding: nat, dependency: nat, dependent: nat)
      requires Valid() && binding < |graph| && index[binding] >= 0 && dependency in recursiveVars[binding]
      requires dependent in dependents[binding]
      modifies dependencies, recursiveVars
      ensures Valid() && dependent < |graph| && dependency in dependencies[dependent]
      ensures Progress(graph, index, old(dependencies[..]), old(recursiveVars[..]), dependencies[..], recursiveVars[..])
      ensures Missing() <= old(Missing())
      decreases Missing(), 0
    {
      DependentKnown(binding, dependent);
      if dependency !in dependencies[dependent] {
        ghost var needs1, recursive1 := dependencies[..], recursiveVars[..];
        Insert(binding, dependency, dependent);
        ghost var needs2, recursive2 := dependencies[..], recursiveVars[..];
        if index[dependent] <= index[dependency] {
          AddDependencyToDependents(dependent, dependency);
        }
        InsertThenProgress(graph, index, needs1, recursive1, dependent, dependency, needs2, recursive2,
                           dependencies[..], recursiveVars[..]);
      }
    }

    method Insert(binding: nat, dependency: nat, dependent: nat)
      requires Valid() && binding < |graph| && index[binding] >= 0 && dependency in recursiveVars[binding]
      requires dependent in dependents[binding]
      requires dependent < |graph| && dependency !in dependencies[dependent]
      modifies dependencies, recursiveVars
      ensures Valid() && dependency < |graph| && dependency in dependencies[dependent]
      ensures dependencies[..] == old(dependencies[..])[dependent := old(dependencies[dependent]) + {dependency}]
      ensures recursiveVars[..] == if index[dependent] <= index[dependency]
                                   then old(recursiveVars[..])[dependent := old(recursiveVars[dependent]) + [dependency]]
                                   else old(recursiveVars[..])
      ensures Missing() < old(Missing())
    {
      PassOn(graph, order, index, started, dependencies[..], recursiveVars[..], binding, dependency, dependent);
      assert (dependent, dependency) in Missing();
      dependencies[dependent] := dependencies[dependent] + {dependency};
      assert (dependent, dependency) !in Missing();
      assert dependencies[..] == old(dependencies[..])[dependent := old(dependencies[dependent]) + {dependency}];
      if index[dependent] <= index[dependency] {
        recursiveVars[dependent] := recursiveVars[dependent] + [dependency];
        assert recursiveVars[..] == old(recursiveVars[..])[dependent := old(recursiveVars[dependent]) + [dependency]];
      }
    }

    constructor (graph: Graph, order: seq<nat>, index: seq<int>, ghost started: map<nat, nat>)
      requires Ordered(graph, order, index, started)
      ensures this.graph == graph && this.order == order && this.index == index && this.started == started
      ensures Shape() && fresh(dependencies) && fresh(dependents) && fresh(recursiveVars)
      ensures dependencies[..] == graph
      ensures forall z | 0 <= z < |graph| :: dependents[z] == {} && recursiveVars[z] == []
    {
      this.graph, this.order, this.index, this.started := graph, order, index, started;
      var needs := new set<nat>[|graph|](i requires 0 <= i < |graph| => graph[i]);
      dependencies := needs;
      dependents := new set<nat>[|graph|](_ => {});
      recursiveVars := new seq<nat>[|graph|](_ => []);
      new;
      assert dependencies[..] == graph;
    }

    /** The first pass has handled the bindings before position `i` completely, and the binding
        at `i` except for the dependencies in `remaining`. */
    ghost predicate FirstPass(i: nat, remaining: set<nat>)
      reads dependencies, dependents, recursiveVars
    {
      && Shape() && i <= |order| && dependencies[..] == graph
      && DependentsSoFar(i, remaining) && RecordedSoFar(i, remaining)
    }

    ghost predicate DependentsSoFar(i: nat, remaining: set<nat>)
      requires |index| == |graph|
      reads dependents
    {
      forall z, p: nat | 0 <= z < dependents.Length ::
        p in dependents[z] <==> RefersTo(graph, index, p, z) && (index[p] < i || (index[p] == i && z !in remaining))
    }

    ghost predicate RecordedSoFar(i: nat, remaining: set<nat>)
      requires Ordered(graph, order, index, started) && recursiveVars.Length == |graph|
      reads recursiveVars
    {
      forall b | 0 <= b < |graph| ::
        if index[b] < i then BindingFacts(graph, order, index, started, b, graph[b], recursiveVars[b])
        else if index[b] == i then EdgesRecorded(graph, index, b, graph[b] - remaining, recursiveVars[b])
        else recursiveVars[b] == []
    }

    method NoteDependency(i: nat, remaining: set<nat>, dependency: nat)
      requires FirstPass(i, remaining) && i < |order| && remaining <= graph[order[i]] && dependency in remaining
      modifies dependents, recursiveVars
      ensures FirstPass(i, remaining - {dependency})
    {
      DependencyOrdered(graph, order, index, started, order[i], dependency);
      NoteDependent(i, remaining, dependency);
      NoteRecursive(i, remaining, dependency);
    }

    method NoteDependent(i: nat, ghost remaining: set<nat>, dependency: nat)
      requires Shape() && DependentsSoFar(i, remaining)
      requires i < |order| && remaining <= graph[order[i]] && dependency in remaining
      modifies dependents
      ensures DependentsSoFar(i, remaining - {dependency})
    {
      var binding := order[i];
      DependencyOrdered(graph, order, index, started, binding, dependency);
      dependents[dependency] := dependents[dependency] + {binding};
    }

    method NoteRecursive(i: nat, ghost remaining: set<nat>, dependency: nat)
      requires Shape() && RecordedSoFar(i, remaining)
      requires i < |order| && remaining <= graph[order[i]] && dependency in remaining
      modifies recursiveVars
      ensures RecordedSoFar(i, remaining - {dependency})
    {
      var binding := order[i];
      ghost var was := recursiveVars[binding];
      if index[binding] <= index[dependency] {
        recursiveVars[binding] := recursiveVars[binding] + [dependency];
      }
      OneMoreEdge(graph, index, binding, graph[binding] - remaining, was, dependency);
      assert graph[binding] - (remaining - {dependency}) == (graph[binding] - remaining) + {dependency};
    }

    /** Record who depends on whom, and every reference that is not to an earlier binding. */
    method BuildDependents()
      requires Shape() && dependencies[..] == graph
      requires forall z | 0 <= z < |graph| :: dependents[z] == {} && recursiveVars[z] == []
      modifies dependents, recursiveVars
      ensures Valid()
    {
      if order != [] { assert FirstPass(0, graph[order[0]]); }
      for i := 0 to |order|
        invariant if i < |order| then FirstPass(i, graph[order[i]]) else FirstPass(i, {})
      {
        var binding := order[i];
        var remaining := graph[binding];
        while remaining != {}
          invariant remaining <= graph[binding] && FirstPass(i, remaining)
          decreases remaining
        {
          var dependency :| dependency in remaining;
          NoteDependency(i, remaining, dependency);
          remaining := remaining - {dependency};
        }
        BindingDone(i);
      }
    }

    lemma BindingDone(i: nat)
      requires FirstPass(i, {}) && i < |order|
      ensures if i + 1 < |order| then FirstPass(i + 1, graph[order[i + 1]]) else FirstPass(i + 1, {})
    {
      var binding := order[i];
      assert index[binding] == i;
      assert graph[binding] - {} == graph[binding];
      EdgesAreFacts(graph, order, index, started, binding, recursiveVars[binding]);
    }

    ghost predicate SettledBefore(i: nat)
      requires dependencies.Length == recursiveVars.Length == |graph| == |index|
      reads dependencies, recursiveVars
    {
      forall p, q | 0 <= p < |graph| && index[p] < i && q in recursiveVars[p] ::
        Settled(graph, index, dependencies[..], p, q)
    }

    /** Pass every recursive variable on to the bindings that refer to its holder, until
        nothing changes any more. */
    method PassRecursiveVars()
      requires Valid()
      modifies dependencies, recursiveVars
      ensures Valid()
      ensures AllSettled(graph, index, dependencies[..], recursiveVars[..])
    {
      for i := 0 to |order|
        invariant Valid() && SettledBefore(i)
      {
        PassRecursiveVarsOf(i);
      }
    }

    /** The dependents of `binding` know its first `n` recursive variables. */
    ghost predicate SettledUpTo(binding: nat, n: nat)
      requires dependencies.Length == recursiveVars.Length == |graph| == |index|
      requires binding < |graph| && n <= |recursiveVars[binding]|
      reads dependencies, recursiveVars
    {
      forall m | 0 <= m < n :: Settled(graph, index, dependencies[..], binding, recursiveVars[binding][m])
    }

    method PassRecursiveVarsOf(i: nat)
      requires Valid() && SettledBefore(i) && i < |order|
      modifies dependencies, recursiveVars
      ensures Valid() && SettledBefore(i + 1)
    {
      var binding := order[i];
      var j := 0;
      while j < |recursiveVars[binding]|
        invariant Valid() && SettledBefore(i) && j <= |recursiveVars[binding]|
        invariant SettledUpTo(binding, j)
        decreases Unlisted(graph, recursiveVars[binding][..j])
      {
        PassRecursiveVar(i, j);
        j := j + 1;
      }
      OneMoreSettled(i);
    }

    lemma OneMoreSettled(i: nat)
      requires Valid() && SettledBefore(i) && i < |order| && SettledUpTo(order[i], |recursiveVars[order[i]]|)
      ensures SettledBefore(i + 1)
    {
      forall p, q | 0 <= p < |graph| && index[p] < i + 1 && q in recursiveVars[p]
        ensures Settled(graph, index, dependencies[..], p, q)
      {
        if index[p] == i {
          assert p == order[i];
          var m :| 0 <= m < |recursiveVars[p]| && recursiveVars[p][m] == q;
        }
      }
    }

    method PassRecursiveVar(i: nat, j: nat)
      requires Valid() && SettledBefore(i) && i < |order| && j < |recursiveVars[order[i]]|
      requires SettledUpTo(order[i], j)
      modifies dependencies, recursiveVars
      ensures Valid() && SettledBefore(i) && j < |recursiveVars[order[i]]|
      ensures SettledUpTo(order[i], j + 1)
      ensures Unlisted(graph, recursiveVars[order[i]][..j + 1]) < old(Unlisted(graph, recursiveVars[order[i]][..j]))
    {
      var binding := order[i];
      var dependency := recursiveVars[binding][j];
      ghost var done := recursiveVars[binding][..j];
      ghost var needs0, recursive0 := dependencies[..], recursiveVars[..];
      ListedOnce(graph, order, index, started, binding, needs0[binding], recursive0[binding], j);
      AddDependencyToDependents(binding, dependency);
      assert recursive0[binding] <= recursiveVars[..][binding];
      assert recursiveVars[binding][..j + 1] == done + [dependency];
      StillSettled(i, needs0, recursive0);
      forall m | 0 <= m < j + 1
        ensures Settled(graph, index, dependencies[..], binding, recursiveVars[binding][m])
      {
        if m < j { assert Settled(graph, index, needs0, binding, recursive0[binding][m]); }
      }
    }

    lemma StillSettled(i: nat, needs0: seq<set<nat>>, recursive0: seq<seq<nat>>)
      requires dependencies.Length == recursiveVars.Length == |graph| == |index|
      requires Progress(graph, index, needs0, recursive0, dependencies[..], recursiveVars[..])
      requires forall p, q | 0 <= p < |graph| && index[p] < i && q in recursive0[p] :: Settled(graph, index, needs0, p, q)
      ensures SettledBefore(i)
    {
      forall p, q | 0 <= p < |graph| && index[p] < i && q in recursiveVars[p]
        ensures Settled(graph, index, dependencies[..], p, q)
      {
        if q in recursive0[p] { assert Settled(graph, index, needs0, p, q); }
      }
    }
  }

  ghost function Unlisted(graph: Graph, listed: seq<nat>): set<nat> {
    set x: nat | x < |graph| && x !in listed
  }

  lemma ListedOnce(graph: Graph, order: seq<nat>, index: seq<int>, started: map<nat, nat>, b: nat,
                   needs: set<nat>, recursive: seq<nat>, j: nat)
    requires Ordered(graph, order, index, started) && b < |graph| && index[b] >= 0
    requires BindingFacts(graph, order, index, started, b, needs, recursive) && j < |recursive|
    ensures Unlisted(graph, recursive[..j] + [recursive[j]]) < Unlisted(graph, recursive[..j])
  {
    var r := recursive[j];
    assert r in recursive && r in needs;
    assert r in Unlisted(graph, recursive[..j]);
    assert r !in Unlisted(graph, recursive[..j] + [r]);
  }

  /** The dependencies in `seen` that are ordered no earlier than `b` are listed once each. */
  ghost predicate EdgesRecorded(graph: Graph, index: seq<int>, b: nat, seen: set<nat>, recursive: seq<nat>)
    requires |index| == |graph| && b < |graph|
  {
    && (forall r: nat :: r in recursive <==> r in seen && r < |graph| && index[b] <= index[r])
    && Distinct(recursive)
  }

  lemma OneMoreEdge(graph: Graph, index: seq<int>, b: nat, seen: set<nat>, recursive: seq<nat>, d: nat)
    requires |index| == |graph| && b < |graph| && d < |graph| && d !in seen
    requires EdgesRecorded(graph, index, b, seen, recursive)
    ensures EdgesRecorded(graph, index, b, seen + {d}, if index[b] <= index[d] then recursive + [d] else recursive)
  {
  }

  lemma EdgesAreFacts(graph: Graph, order: seq<nat>, index: seq<int>, started: map<nat, nat>, b: nat, recursive: seq<nat>)
    requires Ordered(graph, order, index, started) && b < |graph| && index[b] >= 0
    requires EdgesRecorded(graph, index, b, graph[b], recursive)
    ensures BindingFacts(graph, order, index, started, b, graph[b], recursive)
  {
    forall r | r in graph[b] ensures r < |graph| && index[r] >= 0 && Reaches(graph, b, r) {
      DependencyOrdered(graph, order, index, started, b, r);
      ReachesEdge(graph, b, r);
    }
    forall r | r in recursive ensures During(order, started, index[r], index[b]) {
      BackEdge(graph, order, index, started, b, r);
    }
  }

  // ---------------------------------------------------------------------------
  // What the plan guarantees.

  ghost predicate Planned(graph: Graph, base: nat, order: seq<nat>, index: seq<int>, started: map<nat, nat>,
                          needs: seq<set<nat>>, recursive: seq<seq<nat>>)
  {
    && Ordered(graph, order, index, started)
    && order != [] && base == order[|order| - 1]
    && Reached(graph, order, base, 0)
    && RecursionFacts(graph, order, index, started, needs, recursive)
    && AllSettled(graph, index, needs, recursive)
  }

  lemma {:induction false} PathStaysOrdered(graph: Graph, order: seq<nat>, index: seq<int>, started: map<nat, nat>, p: seq<nat>, i: nat)
    requires Ordered(graph, order, index, started) && Path(graph, p) && index[p[0]] >= 0 && i < |p|
    ensures index[p[i]] >= 0
  {
    if i > 0 {
      PathStaysOrdered(graph, order, index, started, p, i - 1);
      DependencyOrdered(graph, order, index, started, p[i - 1], p[i]);
    }
  }

  /** The bindings that get computed are exactly those the base expression refers to, directly
      or through other bindings; all others are dropped. */
  lemma OrderedIffReachable(graph: Graph, base: nat, order: seq<nat>, index: seq<int>, started: map<nat, nat>,
                            needs: seq<set<nat>>, recursive: seq<seq<nat>>, x: nat)
    requires Planned(graph, base, order, index, started, needs, recursive) && x < |graph|
    ensures x in order <==> x == base || Reaches(graph, base, x)
  {
    if x in order && x != base {
      var k :| 0 <= k < |order| && order[k] == x;
      var p :| PathFrom(graph, p, base, x) && forall i | 0 <= i < |p| :: p[i] in Elements(order[0..]);
      assert |p| > 1;
    }
    if Reaches(graph, base, x) {
      var p :| PathFrom(graph, p, base, x) && |p| > 1;
      PathStaysOrdered(graph, order, index, started, p, |p| - 1);
      assert order[index[x]] == x;
    }
  }

  /** A path that stays within the visit of `r`. */
  lemma PathDuring(graph: Graph, order: seq<nat>, index: seq<int>, started: map<nat, nat>, r: nat, b: nat)
      returns (p: seq<nat>)
    requires Ordered(graph, order, index, started) && r < |graph| && b < |graph| && index[r] >= 0 && index[b] >= 0
    requires During(order, started, index[r], index[b])
    ensures PathFrom(graph, p, r, b)
    ensures forall i | 0 <= i < |p| :: 0 <= index[p[i]] <= index[r]
  {
    assert order[index[r]] == r && order[index[b]] == b;
    var segment := Segment(order, started[r], index[r]);
    p :| PathFrom(graph, p, r, b) && forall i | 0 <= i < |p| :: p[i] in segment;
    forall i | 0 <= i < |p| ensures 0 <= index[p[i]] <= index[r] {
      assert p[i] in order[started[r]..index[r] + 1];
    }
  }

  /** A recursive variable of the end of a path is one of its start, if nothing on the path
      comes after it. */
  lemma {:induction false} WalkBack(graph: Graph, base: nat, order: seq<nat>, index: seq<int>, started: map<nat, nat>,
                                    needs: seq<set<nat>>, recursive: seq<seq<nat>>, p: seq<nat>, r: nat)
    requires Planned(graph, base, order, index, started, needs, recursive)
    requires Path(graph, p) && r in recursive[p[|p| - 1]] && r < |graph|
    requires forall i | 0 <= i < |p| :: 0 <= index[p[i]] <= index[r]
    ensures r in recursive[p[0]]
    decreases |p|
  {
    if |p| > 1 {
      var n := |p| - 1;
      var x, b := p[n - 1], p[n];
      assert b in graph[x] by { assert p[(n - 1) + 1] in graph[p[n - 1]]; }
      assert Settled(graph, index, needs, b, r);
      assert BindingFacts(graph, order, index, started, x, needs[x], recursive[x]);
      WalkBack(graph, base, order, index, started, needs, recursive, p[..n], r);
    }
  }

  /** A recursive variable is always among its own recursive variables, so the function it
      names can be applied to itself. */
  lemma RecursiveVariableTakesItself(
      graph: Graph, base: nat, order: seq<nat>, index: seq<int>, started: map<nat, nat>,
      needs: seq<set<nat>>, recursive: seq<seq<nat>>, b: nat, r: nat)
    requires Planned(graph, base, order, index, started, needs, recursive)
    requires b < |graph| && r in recursive[b]
    ensures r < |graph| && index[r] >= 0 && r in recursive[r]
  {
    assert BindingFacts(graph, order, index, started, b, needs[b], recursive[b]);
    var p := PathDuring(graph, order, index, started, r, b);
    WalkBack(graph, base, order, index, started, needs, recursive, p, r);
  }

  /** Code for binding `b` only ever looks for a binding among `b`'s parameters when it is
      there: for each binding `z` that `b` mentions and each recursive variable of `z`. */
  lemma RecursiveVariablesFound(
      graph: Graph, base: nat, order: seq<nat>, index: seq<int>, started: map<nat, nat>,
      needs: seq<set<nat>>, recursive: seq<seq<nat>>, b: nat, z: nat)
    requires Planned(graph, base, order, index, started, needs, recursive)
    requires b < |graph| && index[b] >= 0 && z in graph[b]
    ensures z < |graph| && index[z] >= 0
    ensures index[b] <= index[z] ==> z in recursive[b]
    ensures forall r | r in recursive[z] :: r < |graph| && index[r] >= 0 && (index[b] <= index[r] ==> r in recursive[b])
  {
    DependencyOrdered(graph, order, index, started, b, z);
    assert BindingFacts(graph, order, index, started, b, needs[b], recursive[b]);
    forall r | r in recursive[z]
      ensures r < |graph| && index[r] >= 0 && (index[b] <= index[r] ==> r in recursive[b])
    {
      assert Settled(graph, index, needs, z, r);
    }
  }

  lemma {:induction false} LatestOnPath(index: seq<int>, p: seq<nat>) returns (t: nat)
    requires p != [] && forall i | 0 <= i < |p| :: p[i] < |index|
    ensures t < |p| && forall i | 0 <= i < |p| :: index[p[i]] <= index[p[t]]
    decreases |p|
  {
    var n := |p| - 1;
    if n == 0 {
      t := 0;
    } else {
      t := LatestOnPath(index, p[..n]);
      forall i | 0 <= i < n ensures index[p[i]] <= index[p[t]] { assert p[..n][i] == p[i]; }
      if index[p[t]] < index[p[n]] { t := n; }
    }
  }

  lemma CycleIsRecursive(graph: Graph, base: nat, order: seq<nat>, index: seq<int>, started: map<nat, nat>,
                         needs: seq<set<nat>>, recursive: seq<seq<nat>>, p: seq<nat>, b: nat)
    requires Planned(graph, base, order, index, started, needs, recursive)
    requires PathFrom(graph, p, b, b) && |p| > 1 && index[b] >= 0
    ensures recursive[b] != []
  {
    forall i | 0 <= i < |p| ensures index[p[i]] >= 0 {
      PathStaysOrdered(graph, order, index, started, p, i);
    }
    var t := LatestOnPath(index, p);
    if t == 0 { t := |p| - 1; }
    StepBackRecorded(graph, base, order, index, started, needs, recursive, p, t);
    WalkBack(graph, base, order, index, started, needs, recursive, p[..t], p[t]);
  }

  /** The node before the latest one on a path takes it as a recursive variable. */
  lemma StepBackRecorded(graph: Graph, base: nat, order: seq<nat>, index: seq<int>, started: map<nat, nat>,
                         needs: seq<set<nat>>, recursive: seq<seq<nat>>, p: seq<nat>, t: nat)
    requires Planned(graph, base, order, index, started, needs, recursive) && Path(graph, p) && 0 < t < |p|
    requires index[p[t - 1]] >= 0 && index[p[t - 1]] <= index[p[t]]
    ensures p[t] in recursive[p[t - 1]] && p[..t][|p[..t]| - 1] == p[t - 1]
  {
    var x := p[t - 1];
    assert p[(t - 1) + 1] in graph[p[t - 1]];
    assert BindingFacts(graph, order, index, started, x, needs[x], recursive[x]);
  }

  /** A binding is turned into a self-applied function exactly when it refers to itself,
      directly or through other bindings. */
  lemma RecursiveIffOnCycle(graph: Graph, base: nat, order: seq<nat>, index: seq<int>, started: map<nat, nat>,
                            needs: seq<set<nat>>, recursive: seq<seq<nat>>, b: nat)
    requires Planned(graph, base, order, index, started, needs, recursive)
    requires b < |graph| && index[b] >= 0
    ensures recursive[b] != [] <==> OnCycle(graph, b)
  {
    if recursive[b] != [] {
      var r := recursive[b][0];
      assert BindingFacts(graph, order, index, started, b, needs[b], recursive[b]);
      assert r in recursive[b];
      var p := PathDuring(graph, order, index, started, r, b);
      var q :| PathFrom(graph, q, b, r) && |q| > 1;
      var cycle := JoinPaths(graph, q, p, b, r, b);
    }
    if OnCycle(graph, b) {
      var p :| PathFrom(graph, p, b, b) && |p| > 1;
      CycleIsRecursive(graph, base, order, index, started, needs, recursive, p, b);
    }
  }

  /** Plan a block whose base expression is the node `base`.  What gets computed is what the base
      refers to, and what takes parameters is what refers to itself. */
  method PlanBlock(graph: Graph, base: nat) returns (
      order: seq<nat>, index: seq<int>, recursive: seq<seq<nat>>, ghost started: map<nat, nat>, ghost needs: seq<set<nat>>)
    requires WellFormed(graph) && base < |graph|
    ensures Planned(graph, base, order, index, started, needs, recursive)
    ensures |index| == |recursive| == |graph|
    ensures forall x: nat | x < |graph| :: x in order <==> x == base || Reaches(graph, base, x)
    ensures forall b: nat | b < |graph| && index[b] >= 0 :: recursive[b] != [] <==> OnCycle(graph, b)
  {
    var planner := new Planner(graph);
    planner.Order(base);
    order, index, started := planner.order, planner.index[..], planner.started;
    var finder := new RecursionFinder(graph, order, index, started);
    finder.BuildDependents();
    finder.PassRecursiveVars();
    recursive, needs := finder.recursiveVars[..], finder.dependencies[..];
    PlanMeans(graph, base, order, index, started, needs, recursive);
  }

  lemma PlanMeans(graph: Graph, base: nat, order: seq<nat>, index: seq<int>, started: map<nat, nat>,
                  needs: seq<set<nat>>, recursive: seq<seq<nat>>)
    requires Planned(graph, base, order, index, started, needs, recursive)
    ensures |index| == |recursive| == |graph|
    ensures forall x: nat | x < |graph| :: x in order <==> x == base || Reaches(graph, base, x)
    ensures forall b: nat | b < |graph| && index[b] >= 0 :: recursive[b] != [] <==> OnCycle(graph, b)
  {
    forall x: nat | x < |graph| ensures x in order <==> x == base || Reaches(graph, base, x) {
      OrderedIffReachable(graph, base, order, index, started, needs, recursive, x);
    }
    forall b: nat | b < |graph| && index[b] >= 0 ensures recursive[b] != [] <==> OnCycle(graph, b) {
      RecursiveIffOnCycle(graph, base, order, index, started, needs, recursive, b);
    }
  }
}
