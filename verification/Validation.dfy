/** Checking a set of received values: every reference must be in range and nothing may depend
    on itself.  Checking produces the order in which the values will be rebuilt. */
module Validation {
  import opened Contents
  import opened Counting
  import opened Graphs
  import opened Values

  /** A received value, with its references to others.  References are relative to the message
      the value came in, except for references by ID. */
  datatype Item =
    | Number(value: int)
    | Plain(payload: string)
    | Function(parent: Option<int>, environment: seq<int>, code: seq<nat>)
    | Call(fn: Option<int>, arg: Option<int>)
    | Sequence(elements: seq<int>)
    | ById(id: Id)

  /** A value among all the values of a session: `base` and `limit` delimit its own message. */
  datatype Placed = Placed(item: Item, base: nat, limit: nat)

  function Present(index: Option<int>): seq<int> {
    match index
    case None => []
    case Some(i) => [i]
  }

  /** The relative references of a value, in the order in which they are followed. */
  function References(item: Item): seq<int> {
    match item
    case Function(parent, environment, _) => Present(parent) + environment
    case Call(fn, arg) => Present(fn) + Present(arg)
    case Sequence(elements) => elements
    case _ => []
  }

  predicate Trivial(item: Item) { item.Number? }

  predicate Simple(item: Item) { item.Number? || item.Plain? }

  /** The values of all messages, one after the other. */
  function Locations(sets: seq<seq<Item>>, base: nat): seq<Placed> {
    if sets == [] then [] else MessageLocations(sets[0], base) + Locations(sets[1..], base + |sets[0]|)
  }

  function MessageLocations(items: seq<Item>, base: nat): (locations: seq<Placed>)
    ensures |locations| == |items|
  {
    seq(|items|, i requires 0 <= i < |items| => Placed(items[i], base, base + |items|))
  }

  // ---------------------------------------------------------------------------
  // The dependency graph.

  /** All references that pass the upper bound check. */
  function Targets(p: Placed): set<int> {
    set i | 0 <= i < |References(p.item)| && p.base + References(p.item)[i] < p.limit :: p.base + References(p.item)[i]
  }

  ghost predicate InRange(p: Placed) {
    forall i | 0 <= i < |References(p.item)| :: p.base + References(p.item)[i] < p.limit
  }

  /** No reference reaches below the first value of the session.  Nothing checks this. */
  ghost predicate NonNegative(values: seq<Placed>) {
    forall x, i | 0 <= x < |values| && 0 <= i < |References(values[x].item)| ::
      values[x].base + References(values[x].item)[i] >= 0
  }

  ghost predicate Sound(values: seq<Placed>, ids: map<Id, nat>) {
    && NonNegative(values)
    && (forall x | 0 <= x < |values| :: values[x].limit <= |values|)
    && (forall id | id in ids :: ids[id] < |values|)
  }

  function Dependencies(p: Placed, ids: map<Id, nat>): set<int> {
    Targets(p) + if p.item.ById? && p.item.id in ids then {ids[p.item.id]} else {}
  }

  ghost function DependencyGraph(values: seq<Placed>, ids: map<Id, nat>): (graph: Graph)
    requires Sound(values, ids)
    ensures |graph| == |values| && Graphs.WellFormed(graph)
  {
    seq(|values|, x requires 0 <= x < |values| =>
      set d: nat | d < |values| && d in Dependencies(values[x], ids))
  }

  ghost predicate Acyclic(graph: Graph) { forall x | 0 <= x < |graph| :: !OnCycle(graph, x) }

  ghost predicate AllInRange(values: seq<Placed>) { forall x | 0 <= x < |values| :: InRange(values[x]) }

  // ---------------------------------------------------------------------------
  // Orderings.

  /** `position` is -1 for a value not yet seen, -2 for one whose dependencies are being
      ordered, and otherwise the value's place in `order`. */
  ghost predicate Numbering(order: seq<nat>, position: seq<int>) {
    && (forall x | 0 <= x < |position| :: -2 <= position[x] < |order|)
    && (forall x | 0 <= x < |position| && position[x] >= 0 :: order[position[x]] == x)
    && (forall k | 0 <= k < |order| :: order[k] < |position| && position[order[k]] == k)
  }

  ghost predicate DependenciesFirst(graph: Graph, order: seq<nat>, position: seq<int>)
    requires |position| == |graph| && Graphs.WellFormed(graph) && Numbering(order, position)
  {
    forall k, d | 0 <= k < |order| && d in graph[order[k]] :: 0 <= position[d] < k
  }

  /** Positions go down along every path, so no path comes back to its start. */
  lemma {:induction false} PathsDescend(graph: Graph, order: seq<nat>, position: seq<int>, p: seq<nat>, i: nat)
    requires |position| == |graph| && Graphs.WellFormed(graph) && Numbering(order, position)
    requires DependenciesFirst(graph, order, position) && forall x | 0 <= x < |graph| :: position[x] >= 0
    requires Path(graph, p) && i < |p|
    ensures position[p[i]] <= position[p[0]] - i
  {
    if i > 0 {
      PathsDescend(graph, order, position, p, i - 1);
      assert p[(i - 1) + 1] in graph[p[i - 1]];
      assert order[position[p[i - 1]]] == p[i - 1];
    }
  }

  lemma OrderedIsAcyclic(graph: Graph, order: seq<nat>, position: seq<int>)
    requires |position| == |graph| && Graphs.WellFormed(graph) && Numbering(order, position)
    requires DependenciesFirst(graph, order, position) && forall x | 0 <= x < |graph| :: position[x] >= 0
    ensures Acyclic(graph)
  {
    forall x | 0 <= x < |graph| ensures !OnCycle(graph, x) {
      if OnCycle(graph, x) {
        var p :| PathFrom(graph, p, x, x) && |p| > 1;
        PathsDescend(graph, order, position, p, |p| - 1);
        assert false;
      }
    }
  }

  /** Reference `i` of `p` is in range and leads to a value that has a place. */
  ghost predicate HasPlace(p: Placed, position: seq<int>, i: nat)
    requires i < |References(p.item)|
  {
    var target := p.base + References(p.item)[i];
    0 <= target < |position| && target < p.limit && position[target] >= 0
  }

  ghost predicate FirstOrdered(p: Placed, position: seq<int>, n: nat)
    requires n <= |References(p.item)|
  {
    forall i {:trigger HasPlace(p, position, i)} | 0 <= i < n :: HasPlace(p, position, i)
  }

  /** What has a place keeps it. */
  lemma StillFirst(p: Placed, before: seq<int>, after: seq<int>, n: nat)
    requires n <= |References(p.item)| && FirstOrdered(p, before, n) && |before| == |after|
    requires forall x | 0 <= x < |before| && before[x] != -1 :: after[x] == before[x]
    ensures FirstOrdered(p, after, n)
    ensures n < |References(p.item)| && HasPlace(p, after, n) ==> FirstOrdered(p, after, n + 1)
  {
    forall i | 0 <= i < n ensures HasPlace(p, after, i) { assert HasPlace(p, before, i); }
  }

  // ---------------------------------------------------------------------------
  // The session.

  predicate Ascending(order: seq<nat>) { forall j, k | 0 <= j < k < |order| :: order[j] < order[k] }

  datatype Fault = NoValues | Cyclic(value: nat) | OutOfRange(base: nat, index: int)

  class UnmarshallingSession {
    const sets: seq<seq<Item>>
    const ids: map<Id, nat>
    const locations: seq<Placed>
    ghost const graph: Graph

    const originalToTopological: array<int>
    var topologicalToOriginal: seq<nat>
    var trivialCount: nat
    var errors: seq<Fault>
    ghost var visiting: seq<nat>

    ghost predicate Shape()
      reads originalToTopological
    {
      && Sound(locations, ids) && graph == DependencyGraph(locations, ids)
      && originalToTopological.Length == |locations|
    }

    /** What the error reports is so. */
    ghost predicate Justified(e: Fault)
      requires Sound(locations, ids)
    {
      match e
      case NoValues => locations == []
      case Cyclic(x) => x < |locations| && OnCycle(DependencyGraph(locations, ids), x)
      case OutOfRange(base, index) => exists x :: Misses(x, base, index)
    }

    /** A value of the message that starts at `base` refers to `index`, beyond the message's end. */
    predicate Misses(x: nat, base: nat, index: int) {
      x < |locations| && locations[x].base == base && index in References(locations[x].item)
      && base + index >= locations[x].limit
    }

    lemma JustifiedIsFaulty(e: Fault)
      requires Sound(locations, ids) && Justified(e) && locations != []
      ensures !AllInRange(locations) || !Acyclic(DependencyGraph(locations, ids))
    {
      if e.OutOfRange? {
        var x: nat :| Misses(x, e.base, e.index);
        var i :| 0 <= i < |References(locations[x].item)| && References(locations[x].item)[i] == e.index;
        assert !InRange(locations[x]);
      }
    }

    ghost predicate Valid()
      reads this, originalToTopological
    {
      && Shape() && Numbering(topologicalToOriginal, originalToTopological[..])
      && (forall x | 0 <= x < |locations| :: originalToTopological[x] == -2 <==> x in visiting)
      && (visiting != [] ==> Path(graph, visiting))
      && (forall e | e in errors :: Justified(e))
      && (errors == [] ==>
            && DependenciesFirst(graph, topologicalToOriginal, originalToTopological[..])
            && forall k | 0 <= k < |topologicalToOriginal| :: InRange(locations[topologicalToOriginal[k]]))
    }

    /** Where the values of the messages are, one after the other. */
    static method SetupValueLocations(sets: seq<seq<Item>>) returns (locations: seq<Placed>)
      ensures locations == Locations(sets, 0)
    {
      locations := [];
      assert sets[0..] == sets;
      for i := 0 to |sets|
        invariant Locations(sets, 0) == locations + Locations(sets[i..], |locations|)
      {
        assert sets[i..][1..] == sets[i + 1..];
        locations := AddMessage(locations, sets[i]);
      }
      assert sets[|sets|..] == [];
    }

    static method AddMessage(before: seq<Placed>, items: seq<Item>) returns (locations: seq<Placed>)
      ensures locations == before + MessageLocations(items, |before|)
    {
      locations := before;
      for j := 0 to |items|
        invariant |locations| == |before| + j
        invariant locations == before + MessageLocations(items, |before|)[..j]
      {
        locations := locations + [Placed(items[j], |before|, |before| + |items|)];
      }
    }

    constructor (sets: seq<seq<Item>>, ids: map<Id, nat>)
      requires Sound(Locations(sets, 0), ids)
      ensures Valid() && fresh(originalToTopological)
      ensures this.sets == sets && this.ids == ids && locations == Locations(sets, 0)
      ensures topologicalToOriginal == [] && errors == [] && visiting == []
      ensures forall x | 0 <= x < |locations| :: originalToTopological[x] == -1
    {
      this.sets, this.ids := sets, ids;
      var all := SetupValueLocations(sets);
      locations := all;
      graph := DependencyGraph(all, ids);
      originalToTopological := new int[|all|](_ => -1);
      topologicalToOriginal, trivialCount, errors, visiting := [], 0, [], [];
    }

    ghost function Unseen(): set<nat>
      reads originalToTopological
    {
      set x | 0 <= x < originalToTopological.Length && originalToTopological[x] == -1
    }

    method AddToTopologicalOrder(x: nat)
      requires Shape() && x < |locations| && originalToTopological[x] < 0
      requires Numbering(topologicalToOriginal, originalToTopological[..])
      modifies this`topologicalToOriginal, originalToTopological
      ensures Numbering(topologicalToOriginal, originalToTopological[..])
      ensures topologicalToOriginal == old(topologicalToOriginal) + [x]
      ensures originalToTopological[..] == old(originalToTopological[..])[x := |old(topologicalToOriginal)|]
    {
      originalToTopological[x] := |topologicalToOriginal|;
      topologicalToOriginal := topologicalToOriginal + [x];
      assert originalToTopological[..] == old(originalToTopological[..])[x := |old(topologicalToOriginal)|];
    }

    /** Whether a relative reference is below the end of its message. */
    method ValidateIndex(p: Placed, index: int) returns (ok: bool)
      modifies this`errors
      ensures ok <==> p.base + index < p.limit
      ensures errors == if ok then old(errors) else old(errors) + [OutOfRange(p.base, index)]
    {
      ok := p.base + index < p.limit;
      if !ok { errors := errors + [OutOfRange(p.base, index)]; }
    }

    /** What a visit leaves as it was, and what it may add. */
    twostate predicate Progress()
      reads this, originalToTopological
    {
      && visiting == old(visiting)
      && old(topologicalToOriginal) <= topologicalToOriginal && old(errors) <= errors
      && (forall x | 0 <= x < originalToTopological.Length && old(originalToTopological[x]) != -1 ::
            originalToTopological[x] == old(originalToTopological[x]))
    }

    /** Values without references have all been ordered. */
    ghost predicate SimplesOrdered()
      requires originalToTopological.Length == |locations|
      reads originalToTopological
    {
      forall x | 0 <= x < |locations| && Simple(locations[x].item) :: originalToTopological[x] >= 0
    }

    lemma Enter(x: nat, position: seq<int>, stack: seq<nat>)
      requires Shape() && Numbering(topologicalToOriginal, position) && |position| == |locations| && x < |locations|
      requires forall y | 0 <= y < |position| :: position[y] == -2 <==> y in stack
      requires position[x] == -1 && (stack != [] ==> Path(graph, stack) && x in graph[stack[|stack| - 1]])
      ensures Numbering(topologicalToOriginal, position[x := -2]) && Path(graph, stack + [x])
      ensures forall y | 0 <= y < |position| :: position[x := -2][y] == -2 <==> y in stack + [x]
    {
    }

    /** Order everything the value at `x` depends on, then the value. */
    method OrderValue(x: nat)
      requires Valid() && SimplesOrdered() && x < |locations|
      requires visiting != [] ==> x in graph[visiting[|visiting| - 1]]
      modifies this`topologicalToOriginal, this`errors, this`visiting, originalToTopological
      ensures Valid() && SimplesOrdered() && Progress()
      ensures originalToTopological[x] != -1
      ensures errors == [] ==> originalToTopological[x] >= 0
      decreases Unseen(), 1
    {
      if originalToTopological[x] != -1 {
        if originalToTopological[x] == -2 {
          FoundCycle(x);
          errors := errors + [Cyclic(x)];
        }
        return;
      }
      StartVisiting(x);
      OrderDependencies(x);
      Leave(x);
    }

    method StartVisiting(x: nat)
      requires Valid() && SimplesOrdered() && x < |locations| && originalToTopological[x] == -1
      requires visiting != [] ==> x in graph[visiting[|visiting| - 1]]
      modifies this`visiting, originalToTopological
      ensures Valid() && SimplesOrdered() && visiting == old(visiting) + [x] && x !in old(visiting)
      ensures originalToTopological[..] == old(originalToTopological[..])[x := -2]
      ensures Unseen() < old(Unseen())
    {
      assert x in Unseen();
      Enter(x, originalToTopological[..], visiting);
      originalToTopological[x] := -2;
      visiting := visiting + [x];
      assert originalToTopological[..] == old(originalToTopological[..])[x := -2];
      assert x !in Unseen();
    }

    /** All dependencies of the value being visited have been ordered. */
    method Leave(x: nat)
      requires Valid() && SimplesOrdered() && x < |locations|
      requires visiting != [] && visiting[|visiting| - 1] == x && x !in visiting[..|visiting| - 1]
      requires errors == [] ==> InRange(locations[x]) && forall d | d in graph[x] :: originalToTopological[d] >= 0
      modifies this`topologicalToOriginal, this`visiting, originalToTopological
      ensures Valid() && SimplesOrdered() && visiting == old(visiting)[..|old(visiting)| - 1]
      ensures topologicalToOriginal == old(topologicalToOriginal) + [x]
      ensures originalToTopological[..] == old(originalToTopological[..])[x := |old(topologicalToOriginal)|]
    {
      AddToTopologicalOrder(x);
      visiting := visiting[..|visiting| - 1];
    }

    method OrderDependencies(x: nat)
      requires Valid() && SimplesOrdered() && x < |locations|
      requires visiting != [] && visiting[|visiting| - 1] == x
      modifies this`topologicalToOriginal, this`errors, this`visiting, originalToTopological
      ensures Valid() && SimplesOrdered() && Progress()
      ensures errors == [] ==> InRange(locations[x]) && forall d | d in graph[x] :: originalToTopological[d] >= 0
      decreases Unseen(), 2
    {
      OrderReferences(x);
      ghost var was := originalToTopological[..];
      OrderById(x);
      if errors == [] {
        StillFirst(locations[x], was, originalToTopological[..], |References(locations[x].item)|);
        AllOrdered(x, originalToTopological[..]);
      }
    }

    method OrderReferences(x: nat)
      requires Valid() && SimplesOrdered() && x < |locations|
      requires visiting != [] && visiting[|visiting| - 1] == x
      modifies this`topologicalToOriginal, this`errors, this`visiting, originalToTopological
      ensures Valid() && SimplesOrdered() && Progress()
      ensures errors == [] ==> FirstOrdered(locations[x], originalToTopological[..], |References(locations[x].item)|)
      decreases Unseen(), 2, 1
    {
      for i := 0 to |References(locations[x].item)|
        invariant Valid() && SimplesOrdered() && Progress()
        invariant errors == [] ==> FirstOrdered(locations[x], originalToTopological[..], i)
      {
        ghost var was := originalToTopological[..];
        OrderRelativeValue(x, i);
        if errors == [] { StillFirst(locations[x], was, originalToTopological[..], i); }
      }
    }

    lemma AllOrdered(x: nat, position: seq<int>)
      requires Shape() && x < |locations| && |position| == |locations|
      requires FirstOrdered(locations[x], position, |References(locations[x].item)|)
      requires var item := locations[x].item; item.ById? && item.id in ids ==> position[ids[item.id]] >= 0
      ensures InRange(locations[x]) && forall d | d in graph[x] :: position[d] >= 0
    {
      var p := locations[x];
      forall i | 0 <= i < |References(p.item)|
        ensures p.base + References(p.item)[i] < p.limit && position[p.base + References(p.item)[i]] >= 0
      {
        assert HasPlace(p, position, i);
      }
    }

    /** Order the value sent under the ID, if `x` is a mere ID and there is one. */
    method OrderById(x: nat)
      requires Valid() && SimplesOrdered() && x < |locations|
      requires visiting != [] && visiting[|visiting| - 1] == x
      modifies this`topologicalToOriginal, this`errors, this`visiting, originalToTopological
      ensures Valid() && SimplesOrdered() && Progress()
      ensures var item := locations[x].item;
        errors == [] && item.ById? && item.id in ids ==> originalToTopological[ids[item.id]] >= 0
      decreases Unseen(), 2, 0
    {
      var p := locations[x];
      if p.item.ById? && p.item.id in ids {
        assert ids[p.item.id] in graph[x];
        OrderValue(ids[p.item.id]);
      }
    }

    method OrderRelativeValue(x: nat, i: nat)
      requires Valid() && SimplesOrdered() && x < |locations| && i < |References(locations[x].item)|
      requires visiting != [] && visiting[|visiting| - 1] == x
      modifies this`topologicalToOriginal, this`errors, this`visiting, originalToTopological
      ensures Valid() && SimplesOrdered() && Progress()
      ensures errors == [] ==> HasPlace(locations[x], originalToTopological[..], i)
      decreases Unseen(), 2, 0
    {
      var index := References(locations[x].item)[i];
      var ok := ValidateIndex(locations[x], index);
      if ok {
        assert locations[x].base + index in graph[x];
        OrderValue(locations[x].base + index);
      } else {
        assert Misses(x, locations[x].base, index);
      }
    }

    /** A value met again while its dependencies are being ordered depends on itself. */
    lemma FoundCycle(x: nat)
      requires Valid() && x < |locations| && x in visiting
      requires x in graph[visiting[|visiting| - 1]]
      ensures OnCycle(DependencyGraph(locations, ids), x)
    {
      var i :| 0 <= i < |visiting| && visiting[i] == x;
      var p := visiting[i..] + [x];
      forall k | 0 <= k < |p| - 1 ensures p[k + 1] in graph[p[k]] {
        if k < |p| - 2 { assert visiting[(i + k) + 1] in graph[visiting[i + k]]; }
      }
      assert PathFrom(graph, p, x, x);
      assert OnCycle(graph, x);
    }

    /** Nothing has been ordered but values without references, and nothing is being visited. */
    ghost predicate OnlySimples()
      reads this, originalToTopological
    {
      && Valid() && visiting == [] && errors == []
      && forall k | 0 <= k < |topologicalToOriginal| :: Simple(locations[topologicalToOriginal[k]].item)
    }

    method AddSimple(x: nat)
      requires OnlySimples() && x < |locations| && Simple(locations[x].item) && originalToTopological[x] == -1
      modifies this`topologicalToOriginal, originalToTopological
      ensures OnlySimples() && topologicalToOriginal == old(topologicalToOriginal) + [x]
      ensures originalToTopological[..] == old(originalToTopological[..])[x := |old(topologicalToOriginal)|]
    {
      assert graph[x] == {};
      AddToTopologicalOrder(x);
    }

    /** The trivial values come first, in their original order; then the other values without
        references; then, after their dependencies, all the rest. */
    method CreateTopologicalOrdering()
      requires OnlySimples() && topologicalToOriginal == []
      requires forall x | 0 <= x < |locations| :: originalToTopological[x] == -1
      modifies this, originalToTopological
      ensures Valid() && visiting == [] && trivialCount <= |topologicalToOriginal|
      ensures errors == [] ==> forall x | 0 <= x < |locations| :: originalToTopological[x] >= 0
      ensures forall k | 0 <= k < |topologicalToOriginal| ::
        Trivial(locations[topologicalToOriginal[k]].item) <==> k < trivialCount
      ensures Ascending(topologicalToOriginal[..trivialCount])
    {
      AddTrivialValues();
      ghost var leading := topologicalToOriginal;
      AddOtherSimples();
      for x := 0 to |locations|
        invariant Valid() && SimplesOrdered() && visiting == [] && leading <= topologicalToOriginal && trivialCount == |leading|
        invariant errors == [] ==> forall y | 0 <= y < x :: originalToTopological[y] >= 0
        invariant TrivialsFirst()
      {
        OrderValue(x);
      }
      TrivialsAreAll();
      assert topologicalToOriginal[..trivialCount] == leading;
    }

    /** Every trivial value has a place below `trivialCount`, and every such place is taken by one. */
    ghost predicate TrivialsFirst()
      requires originalToTopological.Length == |locations|
      reads this, originalToTopological
    {
      && (forall x | 0 <= x < |locations| && Trivial(locations[x].item) :: 0 <= originalToTopological[x] < trivialCount)
      && (forall k | 0 <= k < trivialCount && k < |topologicalToOriginal| ::
            topologicalToOriginal[k] < |locations| && Trivial(locations[topologicalToOriginal[k]].item))
    }

    lemma TrivialsAreAll()
      requires Valid() && TrivialsFirst() && trivialCount <= |topologicalToOriginal|
      ensures forall k | 0 <= k < |topologicalToOriginal| ::
        Trivial(locations[topologicalToOriginal[k]].item) <==> k < trivialCount
    {
    }

    method AddTrivialValues()
      requires OnlySimples() && topologicalToOriginal == []
      requires forall x | 0 <= x < |locations| :: originalToTopological[x] == -1
      modifies this`topologicalToOriginal, this`trivialCount, originalToTopological
      ensures OnlySimples() && TrivialsFirst() && trivialCount == |topologicalToOriginal| && Ascending(topologicalToOriginal)
      ensures forall x | 0 <= x < |locations| && !Trivial(locations[x].item) :: originalToTopological[x] == -1
    {
      for x := 0 to |locations|
        invariant OnlySimples()
        invariant forall y | 0 <= y < |locations| ::
          if y < x && Trivial(locations[y].item) then originalToTopological[y] >= 0 else originalToTopological[y] == -1
        invariant forall k | 0 <= k < |topologicalToOriginal| :: Trivial(locations[topologicalToOriginal[k]].item)
        invariant Ascending(topologicalToOriginal) && forall k | 0 <= k < |topologicalToOriginal| :: topologicalToOriginal[k] < x
      {
        if Trivial(locations[x].item) { AddSimple(x); }
      }
      trivialCount := |topologicalToOriginal|;
    }

    method AddOtherSimples()
      requires OnlySimples() && TrivialsFirst() && trivialCount == |topologicalToOriginal|
      requires forall x | 0 <= x < |locations| && !Trivial(locations[x].item) :: originalToTopological[x] == -1
      modifies this`topologicalToOriginal, originalToTopological
      ensures OnlySimples() && TrivialsFirst() && SimplesOrdered() && trivialCount <= |topologicalToOriginal|
      ensures old(topologicalToOriginal) <= topologicalToOriginal
    {
      for x := 0 to |locations|
        invariant OnlySimples() && TrivialsFirst() && old(topologicalToOriginal) <= topologicalToOriginal
        invariant forall y | 0 <= y < |locations| && !Trivial(locations[y].item) ::
          if y < x && Simple(locations[y].item) then originalToTopological[y] >= 0 else originalToTopological[y] == -1
      {
        if Simple(locations[x].item) && !Trivial(locations[x].item) { AddSimple(x); }
      }
    }

    /** Accepts exactly when there are values, all references are in range, and nothing depends
        on itself.  Then the two index vectors are inverse permutations, dependencies come before
        what depends on them, and trivial values come first. */
    method Validate() returns (ok: bool)
      requires OnlySimples() && topologicalToOriginal == []
      requires forall x | 0 <= x < |locations| :: originalToTopological[x] == -1
      modifies this, originalToTopological
      ensures ok <==> locations != [] && AllInRange(locations) && Acyclic(DependencyGraph(locations, ids))
      ensures ok ==> errors == [] && Ordered(topologicalToOriginal, originalToTopological[..], trivialCount)
      ensures !ok ==> errors != [] && forall e | e in errors :: Justified(e)
    {
      if locations == [] {
        errors := errors + [NoValues];
        return false;
      }
      CreateTopologicalOrdering();
      ok := errors == [];
      if ok {
        OrderedIsAcyclic(graph, topologicalToOriginal, originalToTopological[..]);
        PermutationLength(topologicalToOriginal, originalToTopological[..]);
        forall x | 0 <= x < |locations| ensures InRange(locations[x]) {
          assert topologicalToOriginal[originalToTopological[x]] == x;
        }
      } else {
        JustifiedIsFaulty(errors[0]);
      }
    }

    ghost predicate Ordered(order: seq<nat>, position: seq<int>, trivials: nat)
      requires Sound(locations, ids)
    {
      && |order| == |position| == |locations|
      && Numbering(order, position)
      && (forall x | 0 <= x < |position| :: position[x] >= 0)
      && DependenciesFirst(DependencyGraph(locations, ids), order, position)
      && trivials <= |order|
      && (forall k | 0 <= k < |order| :: Trivial(locations[order[k]].item) <==> k < trivials)
      && Ascending(order[..trivials])
    }
  }

  /** When everything has a place, there are as many places as values. */
  lemma PermutationLength(order: seq<nat>, position: seq<int>)
    requires Numbering(order, position) && forall x | 0 <= x < |position| :: position[x] >= 0
    ensures |order| == |position|
  {
    var values, places := Below(|position|), Below(|order|);
    Injection(values, places, x requires x in values => position[x]);
    Injection(places, values, k requires k in places => order[k]);
  }

  // ---------------------------------------------------------------------------
  // What the check on references is worth.

  /** How many values the messages hold. */
  function Total(sets: seq<seq<Item>>): nat {
    if sets == [] then 0 else |sets[0]| + Total(sets[1..])
  }

  /** Where value `j` of message `m` ends up, among the values of all messages. */
  lemma {:induction false} LocationOf(sets: seq<seq<Item>>, base: nat, m: nat, j: nat)
    requires m < |sets| && j < |sets[m]|
    ensures Total(sets[..m]) + j < |Locations(sets, base)|
    ensures var start := base + Total(sets[..m]);
      Locations(sets, base)[Total(sets[..m]) + j] == Placed(sets[m][j], start, start + |sets[m]|)
  {
    if m > 0 {
      LocationOf(sets[1..], base + |sets[0]|, m - 1, j);
      assert sets[..m][1..] == sets[1..][..m - 1];
    }
  }

  lemma {:induction false} LocationFrom(sets: seq<seq<Item>>, base: nat, x: nat) returns (m: nat, j: nat)
    requires x < |Locations(sets, base)|
    ensures m < |sets| && j < |sets[m]| && x == Total(sets[..m]) + j
    ensures Total(sets[..m]) + |sets[m]| <= |Locations(sets, base)|
    ensures var start := base + Total(sets[..m]);
      Locations(sets, base)[x] == Placed(sets[m][j], start, start + |sets[m]|)
  {
    if x < |sets[0]| {
      m, j := 0, x;
    } else {
      m, j := LocationFrom(sets[1..], base + |sets[0]|, x - |sets[0]|);
      m := m + 1;
      assert sets[..m][1..] == sets[1..][..m - 1];
    }
  }

  ghost predicate NamesOwnMessage(p: Placed, index: int) { p.base <= p.base + index < p.limit }

  /** Every reference leads to a value of the message that contains it. */
  ghost predicate KeepToMessages(values: seq<Placed>) {
    forall x, i | 0 <= x < |values| && 0 <= i < |References(values[x].item)| ::
      NamesOwnMessage(values[x], References(values[x].item)[i])
  }

  ghost predicate NoneNegative(sets: seq<seq<Item>>) {
    forall m, j, i | 0 <= m < |sets| && 0 <= j < |sets[m]| && 0 <= i < |References(sets[m][j])| ::
      References(sets[m][j])[i] >= 0
  }

  /** No reference points back by more than the number of values received before its message. */
  ghost predicate NoneBeforeFirst(sets: seq<seq<Item>>) {
    forall m, j, i | 0 <= m < |sets| && 0 <= j < |sets[m]| && 0 <= i < |References(sets[m][j])| ::
      Total(sets[..m]) + References(sets[m][j])[i] >= 0
  }

  /** A reference that passes the check names a value of its own message exactly when it is not
      negative. */
  lemma AcceptedKeepToMessages(sets: seq<seq<Item>>)
    requires AllInRange(Locations(sets, 0))
    ensures KeepToMessages(Locations(sets, 0)) <==> NoneNegative(sets)
  {
    var values := Locations(sets, 0);
    forall m, j, i | 0 <= m < |sets| && 0 <= j < |sets[m]| && 0 <= i < |References(sets[m][j])| && KeepToMessages(values)
      ensures References(sets[m][j])[i] >= 0
    {
      LocationOf(sets, 0, m, j);
      assert NamesOwnMessage(values[Total(sets[..m]) + j], References(values[Total(sets[..m]) + j].item)[i]);
    }
    forall x, i | 0 <= x < |values| && 0 <= i < |References(values[x].item)| && NoneNegative(sets)
      ensures NamesOwnMessage(values[x], References(values[x].item)[i])
    {
      var m, j := LocationFrom(sets, 0, x);
      assert InRange(values[x]);
    }
  }

  /** References lead to slots of the session's vectors exactly when none points back by more than
      the number of values received before its message. */
  lemma SlotsExist(sets: seq<seq<Item>>, ids: map<Id, nat>)
    ensures Sound(Locations(sets, 0), ids) <==>
      NoneBeforeFirst(sets) && forall id | id in ids :: ids[id] < |Locations(sets, 0)|
  {
    var values := Locations(sets, 0);
    forall x | 0 <= x < |values| ensures values[x].limit <= |values| {
      var m, j := LocationFrom(sets, 0, x);
    }
    forall m, j, i | 0 <= m < |sets| && 0 <= j < |sets[m]| && 0 <= i < |References(sets[m][j])| && NonNegative(values)
      ensures Total(sets[..m]) + References(sets[m][j])[i] >= 0
    {
      LocationOf(sets, 0, m, j);
    }
    forall x, i | 0 <= x < |values| && 0 <= i < |References(values[x].item)| && NoneBeforeFirst(sets)
      ensures values[x].base + References(values[x].item)[i] >= 0
    {
      var m, j := LocationFrom(sets, 0, x);
    }
  }

  /** The upper bound check alone lets a reference through that points before its own message. */
  lemma NegativeReferencePasses()
    ensures var values := Locations([[Plain("a")], [Sequence([-1])]], 0);
      && Sound(values, map[]) && AllInRange(values) && Acyclic(DependencyGraph(values, map[]))
      && values[1].base + References(values[1].item)[0] < values[1].base
  {
    TwoMessages();
    TwoValuesOrdered([Placed(Plain("a"), 0, 1), Placed(Sequence([-1]), 1, 2)]);
  }

  /** The smallest input on which following an accepted reference leads outside: it points to the
      slot before the first. */
  lemma SlotBeforeFirst()
    ensures var values := Locations([[Sequence([-1])]], 0);
      && AllInRange(values) && !Sound(values, map[])
      && |values| == 1 && values[0].base + References(values[0].item)[0] == -1
  {
    OneMessage();
    OutsideAtOnce([Placed(Sequence([-1]), 0, 1)]);
  }

  lemma OutsideAtOnce(values: seq<Placed>)
    requires values == [Placed(Sequence([-1]), 0, 1)]
    ensures AllInRange(values) && !Sound(values, map[])
    ensures |values| == 1 && values[0].base + References(values[0].item)[0] == -1
  {
    assert References(values[0].item) == [-1];
    assert values[0].base + References(values[0].item)[0] == -1;
  }

  lemma OneMessage()
    ensures Locations([[Sequence([-1])]], 0) == [Placed(Sequence([-1]), 0, 1)]
  {
    var only := [Sequence([-1])];
    assert Locations([only], 0) == [Placed(only[0], 0, 1)];
  }

  lemma TwoValuesOrdered(values: seq<Placed>)
    requires values == [Placed(Plain("a"), 0, 1), Placed(Sequence([-1]), 1, 2)]
    ensures Sound(values, map[]) && AllInRange(values) && Acyclic(DependencyGraph(values, map[]))
  {
    var graph := DependencyGraph(values, map[]);
    assert References(values[0].item) == [] && References(values[1].item) == [-1];
    assert Targets(values[0]) == {};
    assert values[1].base + References(values[1].item)[0] in Targets(values[1]);
    assert Targets(values[1]) == {0};
    assert graph[0] == {} && graph[1] == {0};
    OrderedIsAcyclic(graph, [0, 1], [0, 1]);
  }

  lemma TwoMessages()
    ensures Locations([[Plain("a")], [Sequence([-1])]], 0) == [Placed(Plain("a"), 0, 1), Placed(Sequence([-1]), 1, 2)]
  {
    var first, second := [Plain("a")], [Sequence([-1])];
    assert [first, second][1..] == [second];
    assert Locations([second], 1) == [Placed(second[0], 1, 2)];
  }
}
