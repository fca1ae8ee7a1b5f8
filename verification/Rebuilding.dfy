/** Rebuilding validated values one by one, in topological order.  Functions and calls need the
    virtual machine: rebuilding stops there and is resumed by a callback. */
module Rebuilding {
  import opened Contents
  import opened Graphs
  import opened Values
  import opened Validation

  /** The values known when a callback was made, cut into intervals: this one, and those before. */
  datatype Tracker = Tracker(start: nat, end: nat, next: Option<Tracker>)

  /** The intervals follow one another from `lo` to the end of the newest. */
  predicate Partitions(t: Tracker, lo: nat) {
    && t.start <= t.end
    && match t.next
       case None => t.start == lo
       case Some(next) => next.end == t.start && Partitions(next, lo)
  }

  /** How many of the intervals contain `i`. */
  function Visits(t: Tracker, i: nat): nat {
    (if t.start <= i < t.end then 1 else 0) + match t.next case None => 0 case Some(next) => Visits(next, i)
  }

  lemma {:induction false} PartitionVisitsOnce(t: Tracker, lo: nat, i: nat)
    requires Partitions(t, lo)
    ensures lo <= t.end && Visits(t, i) == if lo <= i < t.end then 1 else 0
  {
    match t.next
    case None =>
    case Some(next) => PartitionVisitsOnce(next, lo, i);
  }

  predicate NeedsMachine(item: Item) { item.Function? || item.Call? }

  ghost predicate CallsComplete(locations: seq<Placed>) {
    forall x | 0 <= x < |locations| && locations[x].item.Call? :: locations[x].item.fn.Some? && locations[x].item.arg.Some?
  }

  /** Every referenced value, in range and with a place before `k`. */
  ghost predicate ReferencesReady(p: Placed, ids: map<Id, nat>, position: seq<int>, k: nat) {
    && (forall i | 0 <= i < |References(p.item)| ::
          0 <= p.base + References(p.item)[i] < |position| && 0 <= position[p.base + References(p.item)[i]] < k)
    && (p.item.ById? && p.item.id in ids ==> ids[p.item.id] < |position| && 0 <= position[ids[p.item.id]] < k)
  }

  datatype Outcome<V> = Done | Waiting(item: Item, inputs: seq<V>, callback: Tracker)

  class Unmarshaller<V(!new)> {
    const locations: seq<Placed>
    const ids: map<Id, nat>
    const order: seq<nat>
    const position: seq<int>
    const trivialCount: nat
    const registered: map<Id, V>
    const assemble: (Item, seq<V>) -> V
    /** What the virtual machine answers when asked to rebuild a function or make a call. */
    ghost const answer: (Item, seq<V>) -> V

    var values: seq<V>
    var tracker: Option<Tracker>

    /** What the checks before rebuilding have established. */
    ghost predicate Checked() {
      && Sound(locations, ids) && CallsComplete(locations) && AllInRange(locations)
      && |order| == |position| == |locations| && Numbering(order, position)
      && (forall x | 0 <= x < |position| :: position[x] >= 0)
      && DependenciesFirst(DependencyGraph(locations, ids), order, position)
      && trivialCount <= |order|
      && (forall k | 0 <= k < |order| :: Trivial(locations[order[k]].item) <==> k < trivialCount)
      && (forall x | 0 <= x < |locations| && locations[x].item.ById? ::
            locations[x].item.id in ids || locations[x].item.id in registered)
    }

    lemma ReadyAt(k: nat)
      requires Checked() && k < |order|
      ensures ReferencesReady(locations[order[k]], ids, position, k)
    {
      var p, graph := locations[order[k]], DependencyGraph(locations, ids);
      forall i | 0 <= i < |References(p.item)|
        ensures 0 <= p.base + References(p.item)[i] < |position| && 0 <= position[p.base + References(p.item)[i]] < k
      {
        assert p.base + References(p.item)[i] in Targets(p);
        assert p.base + References(p.item)[i] in graph[order[k]];
      }
      if p.item.ById? && p.item.id in ids { assert ids[p.item.id] in graph[order[k]]; }
    }

    /** The values a value refers to, taken from `known`. */
    ghost function Inputs(p: Placed, known: seq<V>): (inputs: seq<V>)
      requires ReferencesReady(p, ids, position, |known|)
      ensures |inputs| == |References(p.item)|
    {
      seq(|References(p.item)|, i requires 0 <= i < |References(p.item)| => known[position[p.base + References(p.item)[i]]])
    }

    /** What a value should be, given those before it. */
    ghost function Meaning(p: Placed, known: seq<V>): V
      requires ReferencesReady(p, ids, position, |known|)
      requires p.item.ById? ==> p.item.id in ids || p.item.id in registered
    {
      if p.item.ById? then if p.item.id in ids then known[position[ids[p.item.id]]] else registered[p.item.id]
      else if NeedsMachine(p.item) then answer(p.item, Inputs(p, known))
      else assemble(p.item, Inputs(p, known))
    }

    /** All values up to place `n`, by the definition alone. */
    ghost function Denoted(n: nat): (known: seq<V>)
      requires Checked() && n <= |order|
      ensures |known| == n
    {
      if n == 0 then []
      else
        var known := Denoted(n - 1);
        ReadyAt(n - 1);
        known + [Meaning(locations[order[n - 1]], known)]
    }

    ghost predicate Valid()
      reads this
    {
      && Checked() && |values| <= |order| && values == Denoted(|values|)
      && (tracker.Some? ==> Partitions(tracker.value, trivialCount) && tracker.value.end <= |values|)
    }

    constructor (locations: seq<Placed>, ids: map<Id, nat>, order: seq<nat>, position: seq<int>, trivialCount: nat,
                 registered: map<Id, V>, assemble: (Item, seq<V>) -> V, ghost answer: (Item, seq<V>) -> V)
      requires Sound(locations, ids) && CallsComplete(locations) && AllInRange(locations)
      requires |order| == |position| == |locations| && Numbering(order, position)
      requires forall x | 0 <= x < |position| :: position[x] >= 0
      requires DependenciesFirst(DependencyGraph(locations, ids), order, position)
      requires trivialCount <= |order|
      requires forall k | 0 <= k < |order| :: Trivial(locations[order[k]].item) <==> k < trivialCount
      requires forall x | 0 <= x < |locations| && locations[x].item.ById? ::
            locations[x].item.id in ids || locations[x].item.id in registered
      ensures Valid() && values == [] && tracker == None
      ensures this.locations == locations && this.ids == ids && this.order == order && this.position == position
      ensures this.trivialCount == trivialCount && this.registered == registered
      ensures this.assemble == assemble && this.answer == answer
    {
      this.locations, this.ids, this.order, this.position := locations, ids, order, position;
      this.trivialCount, this.registered, this.assemble, this.answer := trivialCount, registered, assemble, answer;
      values, tracker := [], None;
    }

    /** Only slots that have been filled are ever read. */
    method GetByIndex(index: int) returns (v: V)
      requires 0 <= index < |position| && 0 <= position[index] < |values|
      ensures v == values[position[index]]
    {
      v := values[position[index]];
    }

    method ReadInputs(p: Placed) returns (inputs: seq<V>)
      requires ReferencesReady(p, ids, position, |values|)
      ensures inputs == Inputs(p, values)
    {
      inputs := [];
      var references := References(p.item);
      for i := 0 to |references|
        invariant |inputs| == i
        invariant forall j | 0 <= j < i :: inputs[j] == Inputs(p, values)[j]
      {
        var v := GetByIndex(p.base + references[i]);
        inputs := inputs + [v];
      }
    }

    method NewFinalValuesTracker() returns (t: Tracker)
      requires Valid() && trivialCount <= |values|
      ensures Partitions(t, trivialCount) && t.end == |values| && t.next == tracker
    {
      match tracker
      case None => t := Tracker(trivialCount, |values|, None);
      case Some(next) => t := Tracker(next.end, |values|, tracker);
    }

    /** Rebuild the value of the next slot, or say what the machine must be asked for it. */
    method UnmarshalValue() returns (request: Option<seq<V>>)
      requires Valid() && |values| < |order|
      modifies this`values
      ensures Valid() && old(values) <= values
      ensures request.None? ==> |values| == |old(values)| + 1
      ensures request.Some? ==> values == old(values) && NeedsMachine(locations[order[|values|]].item)
      ensures request.Some? ==> (ReadyAt(|values|); request.value == Inputs(locations[order[|values|]], values))
    {
      ReadyAt(|values|);
      var p := locations[order[|values|]];
      if p.item.ById? && p.item.id in ids {
        var v := GetByIndex(ids[p.item.id]);
        values := values + [v];
      } else if p.item.ById? {
        values := values + [registered[p.item.id]];
      } else {
        var inputs := ReadInputs(p);
        if NeedsMachine(p.item) { return Some(inputs); }
        values := values + [assemble(p.item, inputs)];
      }
      return None;
    }

    /** Rebuild values until all are there or the machine has to be asked; then the request asks
        for the value of the next slot, and the callback's intervals cover every value that is
        not trivial. */
    method DoSomeUnmarshalling() returns (outcome: Outcome<V>)
      requires Valid()
      modifies this
      ensures Valid() && old(values) <= values
      ensures outcome.Done? ==> |values| == |order|
      ensures outcome.Done? ==> tracker.Some? && tracker.value.end == |values| && tracker.value.next == old(tracker)
      ensures outcome.Waiting? ==> Asked(outcome) && outcome.callback.next == old(tracker)
    {
      while |values| < |order|
        invariant Valid() && old(values) <= values && tracker == old(tracker)
      {
        var request := UnmarshalValue();
        if request.Some? {
          var callback := NewFinalValuesTracker();
          return Waiting(locations[order[|values|]].item, request.value, callback);
        }
      }
      var all := NewFinalValuesTracker();
      tracker := Some(all);
      return Done;
    }

    /** The machine has been asked for the value of the next slot. */
    ghost predicate Asked(outcome: Outcome<V>)
      reads this
    {
      && Valid() && outcome.Waiting? && |values| < |order|
      && (ReadyAt(|values|); true)
      && NeedsMachine(outcome.item) && outcome.item == locations[order[|values|]].item
      && outcome.inputs == Inputs(locations[order[|values|]], values)
      && outcome.callback.end == |values| && Partitions(outcome.callback, trivialCount)
    }

    /** The machine's answer is the next value. */
    lemma NextDenoted(request: Outcome<V>, parameter: V)
      requires Asked(request) && parameter == answer(request.item, request.inputs)
      ensures values + [parameter] == Denoted(|values| + 1)
    {
      var all := Denoted(|values| + 1);
      assert all == values + [Meaning(locations[order[|values|]], values)];
    }

    /** Run as a callback: store the answer in the next slot and go on from there. */
    method Continue(request: Outcome<V>, parameter: V) returns (outcome: Outcome<V>)
      requires Asked(request) && parameter == answer(request.item, request.inputs)
      modifies this
      ensures Valid() && |old(values)| < |values| && old(values) + [parameter] <= values
      ensures outcome.Done? ==> |values| == |order| && tracker.Some? && tracker.value.end == |values|
      ensures outcome.Done? ==> tracker.value.next == Some(request.callback)
      ensures outcome.Waiting? ==> Asked(outcome) && outcome.callback.next == Some(request.callback)
    {
      NextDenoted(request, parameter);
      tracker := Some(request.callback);
      values := values + [parameter];
      outcome := DoSomeUnmarshalling();
    }

    /** While values are being rebuilt, the collector's roots visit each value that is not
        trivial exactly once: through the tracker, or directly.  All but numbers are visited. */
    lemma RootsVisitOnce(i: nat)
      requires Valid() && trivialCount <= |values|
      ensures var lastTracked := if tracker.Some? then tracker.value.end else trivialCount;
        (if tracker.Some? then Visits(tracker.value, i) else 0) + (if lastTracked <= i < |values| then 1 else 0)
          == if i < |values| && !locations[order[i]].item.Number? then 1 else 0
    {
      if tracker.Some? { PartitionVisitsOnce(tracker.value, trivialCount, i); }
    }
  }

  /** A whole run, with the machine answering every request: all values end up as defined. */
  method Unmarshal<V(!new)>(u: Unmarshaller<V>, answer: (Item, seq<V>) -> V)
    requires u.Valid() && u.values == [] && u.tracker == None && u.answer == answer
    modifies u
    ensures u.Valid() && u.values == u.Denoted(|u.order|)
    ensures u.tracker.Some? && u.tracker.value.end == |u.order| && Partitions(u.tracker.value, u.trivialCount)
  {
    var outcome := u.DoSomeUnmarshalling();
    while outcome.Waiting?
      invariant u.Valid() && (outcome.Waiting? ==> u.Asked(outcome))
      invariant outcome.Done? ==> |u.values| == |u.order| && u.tracker.Some? && u.tracker.value.end == |u.values|
      decreases |u.order| - |u.values|, outcome.Waiting?
    {
      outcome := u.Continue(outcome, answer(outcome.item, outcome.inputs));
    }
  }
}
