/** The receiver after an exchange: its checks accept what was delivered, and rebuilding gives the
    values that were sent. */
module Receiving {
  import opened Contents
  import opened Graphs
  import opened Values
  import P = PushPull
  import V = Validation
  import R = Rebuilding

  // ---------------------------------------------------------------------------
  // Entries of messages as the receiver's values.

  predicate Complete(e: P.Entry) { e.Full? ==> Fits(e.shape, |e.references|) }

  function AsItem(e: P.Entry): V.Item
    requires Complete(e)
  {
    match e
    case ByName(id) => V.ById(id)
    case Full(shape, _, references) =>
      match shape
      case NumberForm(value) => V.Number(value)
      case PlainForm(payload) => V.Plain(payload)
      case FunctionForm(hasParent, code) =>
        if hasParent then V.Function(Some(references[0]), references[1..], code) else V.Function(None, references, code)
      case CallForm => V.Call(Some(references[0]), Some(references[1]))
      case SequenceForm => V.Sequence(references)
  }

  /** Nothing is lost on the way. */
  lemma ItemKeepsEntry(e: P.Entry)
    requires Complete(e)
    ensures e.ByName? ==> AsItem(e) == V.ById(e.id0)
    ensures e.Full? ==> !AsItem(e).ById? && FormOf(AsItem(e)) == e.shape && V.References(AsItem(e)) == e.references
  {
  }

  function FormOf(item: V.Item): Form
    requires !item.ById?
  {
    match item
    case Number(value) => NumberForm(value)
    case Plain(payload) => PlainForm(payload)
    case Function(parent, _, code) => FunctionForm(parent.Some?, code)
    case Call(_, _) => CallForm
    case Sequence(_) => SequenceForm
  }

  function AsItems(message: P.Message): (items: seq<V.Item>)
    requires P.SelfContained(message)
    ensures |items| == |message| && forall k | 0 <= k < |message| :: items[k] == AsItem(message[k])
  {
    seq(|message|, k requires 0 <= k < |message| => AsItem(message[k]))
  }

  function Received(sets: seq<P.Message>): (items: seq<seq<V.Item>>)
    requires P.AllSelfContained(sets)
    ensures |items| == |sets| && forall m | 0 <= m < |sets| :: items[m] == AsItems(sets[m])
  {
    seq(|sets|, m requires 0 <= m < |sets| => AsItems(sets[m]))
  }

  // ---------------------------------------------------------------------------
  // The two ways of numbering values agree.

  /** `p` is the entry `e`, whose references are counted from the first message on. */
  ghost predicate Corresponds(e: P.Entry, p: V.Placed) {
    && Complete(e)
    && (e.ByName? ==> p.item == V.ById(e.id0))
    && (e.Full? ==>
          && !p.item.ById? && FormOf(p.item) == e.shape && |V.References(p.item)| == |e.references|
          && forall i | 0 <= i < |e.references| :: p.base + V.References(p.item)[i] == e.references[i])
  }

  lemma {:induction false} LocationsSnoc(sets: seq<seq<V.Item>>, items: seq<V.Item>, base: nat)
    ensures V.Locations(sets + [items], base)
         == V.Locations(sets, base) + V.MessageLocations(items, base + |V.Locations(sets, base)|)
  {
    if sets == [] {
      assert [items][1..] == [] && sets + [items] == [items];
    } else {
      LocationsSnoc(sets[1..], items, base + |sets[0]|);
      assert (sets + [items])[1..] == sets[1..] + [items];
    }
  }

  lemma ShiftedCorresponds(message: P.Message, base: nat, k: nat)
    requires k < |message| && P.SelfContained(message)
    ensures Corresponds(P.AllShifted(message, base)[k], V.MessageLocations(AsItems(message), base)[k])
  {
    ItemKeepsEntry(message[k]);
  }

  lemma {:induction false} SameNumbering(sets: seq<P.Message>)
    requires P.AllSelfContained(sets)
    ensures |P.Together(sets)| == |V.Locations(Received(sets), 0)|
    ensures forall x | 0 <= x < |P.Together(sets)| :: Corresponds(P.Together(sets)[x], V.Locations(Received(sets), 0)[x])
  {
    if sets != [] {
      var before, last := sets[..|sets| - 1], sets[|sets| - 1];
      SameNumbering(before);
      LocationsSnoc(Received(before), AsItems(last), 0);
      assert Received(sets) == Received(before) + [AsItems(last)];
      var base := |P.Together(before)|;
      forall k | 0 <= k < |last| ensures Corresponds(P.AllShifted(last, base)[k], V.MessageLocations(AsItems(last), base)[k]) {
        ShiftedCorresponds(last, base, k);
      }
    }
  }

  // ---------------------------------------------------------------------------
  // The checks succeed.

  function Height(c: Content): nat { 1 + Highest(c.parts) }

  function Highest(parts: seq<Content>): (h: nat)
    ensures forall i | 0 <= i < |parts| :: Height(parts[i]) <= h
  {
    if parts == [] then 0
    else
      var rest := Highest(parts[1..]);
      assert forall i | 1 <= i < |parts| :: parts[i] == parts[1..][i - 1];
      if Height(parts[0]) > rest then Height(parts[0]) else rest
  }

  /** What the receiver has after an exchange: messages whose entries stand for the sender's heap
      objects, and IDs that lead to values sent under them. */
  ghost predicate Delivered(heap: P.Heap, sets: seq<P.Message>, of: seq<nat>, ids: map<Id, nat>) {
    var values := P.Together(sets);
    && P.AllSelfContained(sets) && P.Understood(heap, values, of)
    && forall id | id in ids :: ids[id] < |values| && values[ids[id]].Full? && values[ids[id]].id == Some(id)
  }

  /** The sender's content for the value at `x`. */
  ghost function Sent(heap: P.Heap, of: seq<nat>, x: nat): Content
    requires x < |of| && of[x] < |heap|
  {
    P.ContentOf(heap, of[x])
  }

  /** Dependencies go to lower contents, or from an ID to the value sent under it. */
  ghost function Rank(heap: P.Heap, sets: seq<P.Message>, of: seq<nat>, x: nat): nat
    requires x < |of| == |P.Together(sets)| && of[x] < |heap|
  {
    2 * Height(Sent(heap, of, x)) + if P.Together(sets)[x].ByName? then 1 else 0
  }

  lemma ReferenceDescends(heap: P.Heap, sets: seq<P.Message>, of: seq<nat>, x: nat, i: nat)
    requires P.Understood(heap, P.Together(sets), of) && x < |of| && P.Together(sets)[x].Full?
    requires i < |P.Together(sets)[x].references|
    ensures var d := P.Together(sets)[x].references[i];
      d < |of| && of[d] < |heap| && Rank(heap, sets, of, d) < Rank(heap, sets, of, x)
  {
    var values := P.Together(sets);
    assert P.Stands(heap, values, of, x);
    var whole := Sent(heap, of, x);
    assert whole.parts[i] == P.ContentOf(heap, heap[of[x]].children[i]);
  }

  /** Where a dependency of the value at `x` comes from. */
  lemma DependencyIs(sets: seq<P.Message>, ids: map<Id, nat>, x: nat, d: nat)
    requires P.AllSelfContained(sets) && V.Sound(V.Locations(Received(sets), 0), ids)
    requires x < |V.Locations(Received(sets), 0)| && d in V.DependencyGraph(V.Locations(Received(sets), 0), ids)[x]
    ensures x < |P.Together(sets)|
    ensures var e := P.Together(sets)[x];
      if e.Full? then exists i :: 0 <= i < |e.references| && e.references[i] == d else e.id0 in ids && d == ids[e.id0]
  {
    var values := V.Locations(Received(sets), 0);
    SameNumbering(sets);
    assert Corresponds(P.Together(sets)[x], values[x]);
    assert d in V.Dependencies(values[x], ids);
    if P.Together(sets)[x].Full? {
      var i :| 0 <= i < |V.References(values[x].item)| && values[x].base + V.References(values[x].item)[i] == d;
      assert P.Together(sets)[x].references[i] == d;
    }
  }

  lemma DependencyDescends(heap: P.Heap, sets: seq<P.Message>, of: seq<nat>, ids: map<Id, nat>, x: nat, d: nat)
    requires Delivered(heap, sets, of, ids) && V.Sound(V.Locations(Received(sets), 0), ids)
    requires x < |V.Locations(Received(sets), 0)| && d in V.DependencyGraph(V.Locations(Received(sets), 0), ids)[x]
    ensures x < |of| && d < |of| && of[x] < |heap| && of[d] < |heap|
    ensures Rank(heap, sets, of, d) < Rank(heap, sets, of, x)
  {
    DependencyIs(sets, ids, x, d);
    var values := P.Together(sets);
    assert P.Stands(heap, values, of, x);
    if values[x].Full? {
      var i :| 0 <= i < |values[x].references| && values[x].references[i] == d;
      ReferenceDescends(heap, sets, of, x, i);
    } else {
      assert P.Stands(heap, values, of, d);
    }
  }

  lemma DeliveredIsSound(heap: P.Heap, sets: seq<P.Message>, of: seq<nat>, ids: map<Id, nat>)
    requires Delivered(heap, sets, of, ids)
    ensures V.Sound(V.Locations(Received(sets), 0), ids) && |V.Locations(Received(sets), 0)| == |of|
  {
    var items := Received(sets);
    SameNumbering(sets);
    forall m, j, i | 0 <= m < |items| && 0 <= j < |items[m]| && 0 <= i < |V.References(items[m][j])|
      ensures V.Total(items[..m]) + V.References(items[m][j])[i] >= 0
    {
      ItemKeepsEntry(sets[m][j]);
    }
    V.SlotsExist(items, ids);
  }

  lemma DeliveredInRange(sets: seq<P.Message>, x: nat)
    requires P.AllSelfContained(sets) && x < |V.Locations(Received(sets), 0)|
    ensures var p := V.Locations(Received(sets), 0)[x];
      V.InRange(p) && (p.item.Call? ==> p.item.fn.Some? && p.item.arg.Some?)
  {
    var m, j := V.LocationFrom(Received(sets), 0, x);
    ItemKeepsEntry(sets[m][j]);
  }

  /** The checks accept whatever an exchange delivers: all references are in range, and nothing
      depends on itself, through references or through IDs. */
  lemma DeliveredPassesChecks(heap: P.Heap, sets: seq<P.Message>, of: seq<nat>, ids: map<Id, nat>)
    requires Delivered(heap, sets, of, ids)
    ensures var locations := V.Locations(Received(sets), 0);
      && V.Sound(locations, ids) && V.AllInRange(locations) && R.CallsComplete(locations)
      && V.Acyclic(V.DependencyGraph(locations, ids))
  {
    DeliveredIsSound(heap, sets, of, ids);
    var locations := V.Locations(Received(sets), 0);
    forall x | 0 <= x < |locations|
      ensures V.InRange(locations[x])
      ensures locations[x].item.Call? ==> locations[x].item.fn.Some? && locations[x].item.arg.Some?
    {
      DeliveredInRange(sets, x);
    }
    var graph := V.DependencyGraph(locations, ids);
    var rank := seq(|of|, x requires 0 <= x < |of| => RankOf(heap, sets, of, x));
    forall x, d | 0 <= x < |graph| && d in graph[x] ensures rank[d] < rank[x] {
      DependencyDescends(heap, sets, of, ids, x, d);
    }
    DescendingIsAcyclic(graph, rank);
  }

  ghost function RankOf(heap: P.Heap, sets: seq<P.Message>, of: seq<nat>, x: nat): nat {
    if x < |of| == |P.Together(sets)| && of[x] < |heap| then Rank(heap, sets, of, x) else 0
  }

  // ---------------------------------------------------------------------------
  // Rebuilding gives what was sent.

  /** Put together a value from its form and the values it refers to, or ask the machine to: either
      way the result has that content. */
  function Assembled(item: V.Item, inputs: seq<Content>): Content {
    Content(if item.ById? then SequenceForm else FormOf(item), inputs)
  }

  ghost predicate Rebuilds(u: R.Unmarshaller<Content>, sets: seq<P.Message>, ids: map<Id, nat>) {
    && P.AllSelfContained(sets) && u.locations == V.Locations(Received(sets), 0) && u.ids == ids && u.Checked()
    && (forall item, inputs :: u.assemble(item, inputs) == Assembled(item, inputs) == u.answer(item, inputs))
    && forall id | id in u.registered :: u.registered[id] == id
  }

  lemma MeaningAsSent(u: R.Unmarshaller<Content>, heap: P.Heap, sets: seq<P.Message>, of: seq<nat>, ids: map<Id, nat>,
                      k: nat, known: seq<Content>)
    requires Rebuilds(u, sets, ids) && Delivered(heap, sets, of, ids) && k < |u.order| == |of| && |known| == k
    requires R.ReferencesReady(u.locations[u.order[k]], ids, u.position, |known|)
    requires AsSent(heap, of, u.order, known)
    ensures of[u.order[k]] < |heap| && u.Meaning(u.locations[u.order[k]], known) == Sent(heap, of, u.order[k])
  {
    var x, values := u.order[k], P.Together(sets);
    SameNumbering(sets);
    var p, e := u.locations[x], values[x];
    assert Corresponds(e, p) && P.Stands(heap, values, of, x);
    if e.ByName? {
      if e.id0 in ids { assert P.Stands(heap, values, of, ids[e.id0]); }
    } else {
      var whole, inputs := Sent(heap, of, x), u.Inputs(p, known);
      forall i | 0 <= i < |inputs| ensures inputs[i] == whole.parts[i] {
        assert e.references[i] == p.base + V.References(p.item)[i];
        assert u.order[u.position[e.references[i]]] == e.references[i];
      }
      assert whole.parts == inputs;
    }
  }

  /** The first values in topological order are what was sent. */
  ghost predicate AsSent(heap: P.Heap, of: seq<nat>, order: seq<nat>, known: seq<Content>) {
    |known| <= |order| && forall k | 0 <= k < |known| ::
      order[k] < |of| && of[order[k]] < |heap| && known[k] == Sent(heap, of, order[k])
  }

  lemma OneMoreAsSent(heap: P.Heap, of: seq<nat>, order: seq<nat>, known: seq<Content>, v: Content)
    requires AsSent(heap, of, order, known) && |known| < |order|
    requires order[|known|] < |of| && of[order[|known|]] < |heap| && v == Sent(heap, of, order[|known|])
    ensures AsSent(heap, of, order, known + [v])
  {
  }

  lemma DenotedNext(u: R.Unmarshaller<Content>, heap: P.Heap, sets: seq<P.Message>, of: seq<nat>, ids: map<Id, nat>,
                    n: nat, known: seq<Content>) returns (v: Content)
    requires Rebuilds(u, sets, ids) && Delivered(heap, sets, of, ids) && n < |u.order| == |of|
    requires known == u.Denoted(n) && AsSent(heap, of, u.order, known)
    ensures u.order[n] < |of| && of[u.order[n]] < |heap| && v == Sent(heap, of, u.order[n])
    ensures u.Denoted(n + 1) == known + [v]
  {
    u.ReadyAt(n);
    v := u.Meaning(u.locations[u.order[n]], known);
    MeaningAsSent(u, heap, sets, of, ids, n, known);
  }

  lemma {:induction false} DenotedAsSent(u: R.Unmarshaller<Content>, heap: P.Heap, sets: seq<P.Message>, of: seq<nat>,
                                         ids: map<Id, nat>, n: nat) returns (known: seq<Content>)
    requires Rebuilds(u, sets, ids) && Delivered(heap, sets, of, ids) && n <= |u.order| == |of|
    ensures known == u.Denoted(n) && AsSent(heap, of, u.order, known)
  {
    known := [];
    for k := 0 to n
      invariant |known| == k && known == u.Denoted(k) && AsSent(heap, of, u.order, known)
    {
      var v := DenotedNext(u, heap, sets, of, ids, k, known);
      OneMoreAsSent(heap, of, u.order, known, v);
      known := known + [v];
    }
  }

  /** Check and rebuild what an exchange delivered. */
  method Rebuild(ghost heap: P.Heap, sets: seq<P.Message>, ghost of: seq<nat>, ids: map<Id, nat>, registered: set<Id>, result: nat)
    returns (content: Content)
    requires Delivered(heap, sets, of, ids) && result < |of| == |P.Together(sets)|
    requires forall k | 0 <= k < |P.Together(sets)| && P.Together(sets)[k].ByName? ::
               P.Together(sets)[k].id0 in ids || P.Together(sets)[k].id0 in registered
    ensures of[result] < |heap| && content == Sent(heap, of, result)
  {
    DeliveredPassesChecks(heap, sets, of, ids);
    SameNumbering(sets);
    var session := new V.UnmarshallingSession(Received(sets), ids);
    var ok := session.Validate();
    assert ok;
    var u := new R.Unmarshaller<Content>(session.locations, ids, session.topologicalToOriginal,
                                         session.originalToTopological[..], session.trivialCount,
                                         map id | id in registered :: id, Assembled, Assembled);
    R.Unmarshal(u, Assembled);
    ghost var known := DenotedAsSent(u, heap, sets, of, ids, |u.order|);
    content := u.values[u.position[result]];
  }

  /** From one machine to the other: whatever the heap, wherever the value starts, and whatever
      the receiver had before, what it rebuilds in the end is the value that was sent. */
  method Transfer(heap: P.Heap, root: nat, receiverHas: set<Id>, registries: nat -> set<Id>) returns (content: Content)
    requires root < |heap|
    ensures content == P.ContentOf(heap, root)
  {
    var puller, result, pushes;
    ghost var of, asked;
    puller, result, pushes, of, asked := P.Exchange(heap, root, receiverHas, registries);
    content := Rebuild(heap, puller.sets, of, puller.valueIds, puller.registered, result);
  }
}
