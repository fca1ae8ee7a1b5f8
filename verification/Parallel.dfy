/** The `parallel` function: call many functions at once, and give up on some of those that fail. */
module Parallel {
  import opened Counting
  import opened Values

  /** What a function returned. */
  datatype Outcome<V> = Outcome(value: V, isError: bool)

  /** How many results there are among the first `n`. */
  function Stored<V>(results: seq<Option<V>>, n: nat): nat
    requires n <= |results|
  {
    if n == 0 then 0 else Stored(results, n - 1) + if results[n - 1].Some? then 1 else 0
  }

  lemma {:induction false} StoreOneMore<V>(results: seq<Option<V>>, i: nat, v: V, n: nat)
    requires i < |results| && results[i].None? && n <= |results|
    ensures Stored(results[i := Some(v)], n) == Stored(results, n) + if i < n then 1 else 0
  {
    if n > 0 { StoreOneMore(results, i, v, n - 1); }
  }

  lemma {:induction false} NothingStored<V>(results: seq<Option<V>>, n: nat)
    requires n <= |results| && forall i | 0 <= i < n :: results[i].None?
    ensures Stored(results, n) == 0
  {
    if n > 0 { NothingStored(results, n - 1); }
  }

  /** Every result is what its own call returned. */
  ghost predicate FromOwnCalls<V>(results: seq<Option<V>>, outcomes: seq<Outcome<V>>) {
    |results| == |outcomes| && forall i | 0 <= i < |results| && results[i].Some? :: results[i].value == outcomes[i].value
  }

  /** Called once if 0 <= abandonCount < count, and never otherwise, with exactly
      count - abandonCount results, each from its own call, and the default for the others. */
  ghost predicate RightResult<V>(outcomes: seq<Outcome<V>>, abandonCount: int, default0: V,
                                 finals: seq<seq<V>>, delivered: seq<Option<V>>) {
    && |finals| == (if 0 <= abandonCount < |outcomes| then 1 else 0)
    && (finals != [] ==>
          && FromOwnCalls(delivered, outcomes) && |finals[0]| == |outcomes|
          && Stored(delivered, |outcomes|) == |outcomes| - abandonCount
          && forall i | 0 <= i < |outcomes| ::
               finals[0][i] == if delivered[i].Some? then delivered[i].value else default0)
  }

  /** The state shared by the calls. */
  class ParallelState<V(!new)> {
    const count: nat
    const abandonCount: int          // how many failures to put up with, as asked for
    const default0: V
    var numLeft: int
    var abandon: int                 // how many more failures to put up with
    var results: seq<Option<V>>
    var finals: seq<seq<V>>          // everything passed on to the final callback
    var freed: bool
    ghost var pending: set<int>      // the calls that have not returned yet
    ghost var delivered: seq<Option<V>>

    /** Whether the final callback is called at all. */
    ghost predicate Sensible() { 0 <= abandonCount < count }

    ghost predicate Valid()
      reads this
    {
      && |results| == count && numLeft == |pending| && pending <= Below(count)
      && (freed <==> numLeft == 0) && abandon <= abandonCount && (abandonCount >= 0 ==> abandon >= 0)
      && (abandonCount < 0 ==> abandon == abandonCount)
      && (forall i | i in pending :: results[i].None?)
      && (finals != [] <==> Sensible() && numLeft <= abandon) && |finals| <= 1
      && (!Sensible() && abandonCount >= 0 ==> numLeft <= abandon)
      && (Sensible() && finals == [] ==> Stored(results, count) == count - numLeft - (abandonCount - abandon))
      && (finals != [] ==> Delivered())
    }

    /** The final callback got all but the abandoned results, and the default in their places. */
    ghost predicate Delivered()
      requires finals != []
      reads this
    {
      && |delivered| == count == |finals[0]| && Stored(delivered, count) == count - abandonCount
      && forall i | 0 <= i < count :: finals[0][i] == if delivered[i].Some? then delivered[i].value else default0
    }

    constructor (count: nat, abandonCount: int, default0: V)
      requires count > 0
      ensures Valid() && pending == Below(count) && finals == []
      ensures this.count == count && this.abandonCount == abandonCount && this.default0 == default0
      ensures delivered == [] && abandon == abandonCount && forall i | 0 <= i < count :: results[i].None?
    {
      this.count, this.abandonCount, this.default0 := count, abandonCount, default0;
      numLeft, abandon, freed, finals := count, abandonCount, false, [];
      results := seq(count, _ => None);
      pending, delivered := Below(count), [];
      new;
      NothingStored(results, count);
    }

    /** All results kept, and all that were passed on, come from the right calls. */
    ghost predicate Honest(outcomes: seq<Outcome<V>>)
      reads this
    {
      FromOwnCalls(results, outcomes) && (finals != [] ==> FromOwnCalls(delivered, outcomes))
    }

    /** One of the calls has returned. */
    method Complete(index: nat, outcome: Outcome<V>, ghost outcomes: seq<Outcome<V>>)
      requires Valid() && index in pending && !freed
      requires Honest(outcomes) && index < |outcomes| && outcome == outcomes[index]
      modifies this
      ensures Honest(outcomes)
      ensures Valid() && pending == old(pending) - {index}
      ensures abandon == old(abandon) - if outcome.isError && old(abandon) > 0 then 1 else 0
      ensures Sensible() && old(finals) == [] ==>
        results == if outcome.isError && old(abandon) > 0 then old(results) else old(results)[index := Some(outcome.value)]
      ensures old(finals) == [] && finals != [] ==> delivered == results && results[index].Some?
      ensures old(finals) != [] ==> finals == old(finals) && delivered == old(delivered)
    {
      pending := pending - {index};
      numLeft := numLeft - 1;
      if outcome.isError && abandon > 0 {
        abandon := abandon - 1;
      } else if numLeft >= abandon {
        StoreOneMore(results, index, outcome.value, count);
        results := results[index := Some(outcome.value)];
        if numLeft == abandon {
          PassOn();
        }
      }
      if numLeft == 0 { freed := true; }
    }

    method PassOn()
      requires |results| == count && finals == [] && Stored(results, count) == count - abandonCount
      modifies this`finals, this`delivered
      ensures |finals| == 1 && delivered == results && Delivered()
    {
      var final := FinalResults();
      finals := finals + [final];
      delivered := results;
    }

    /** What holds once all calls have returned. */
    lemma AllDone(outcomes: seq<Outcome<V>>)
      requires Valid() && Honest(outcomes) && pending == {}
      ensures freed && RightResult(outcomes, abandonCount, default0, finals, delivered)
    {
    }

    method FinalResults() returns (final: seq<V>)
      requires |results| == count
      ensures |final| == count
      ensures forall i | 0 <= i < count :: final[i] == if results[i].Some? then results[i].value else default0
    {
      final := [];
      for i := 0 to count
        invariant |final| == i
        invariant forall j | 0 <= j < i :: final[j] == if results[j].Some? then results[j].value else default0
      {
        final := final + [if results[i].Some? then results[i].value else default0];
      }
    }
  }

  /** `order` is an order in which all calls return. */
  ghost predicate AllReturn(order: seq<nat>, count: nat) {
    OnceEach(order) && |order| == count && forall i | 0 <= i < |order| :: order[i] < count
  }

  /** How many of the first `n` calls to return have returned an error. */
  function Errors<V>(outcomes: seq<Outcome<V>>, order: seq<nat>, n: nat): nat
    requires n <= |order| && forall i | 0 <= i < |order| :: order[i] < |outcomes|
  {
    if n == 0 then 0 else Errors(outcomes, order, n - 1) + if outcomes[order[n - 1]].isError then 1 else 0
  }

  /** The `n`-th call to return is one of the first `abandonCount` that returned an error. */
  predicate Abandoned<V>(outcomes: seq<Outcome<V>>, order: seq<nat>, abandonCount: int, n: nat)
    requires n < |order| && forall i | 0 <= i < |order| :: order[i] < |outcomes|
  {
    outcomes[order[n]].isError && Errors(outcomes, order, n) < abandonCount
  }

  /** Of the first `n` calls to return, exactly those are missing that have been abandoned. */
  ghost predicate KeptAmong<V>(outcomes: seq<Outcome<V>>, order: seq<nat>, abandonCount: int, results: seq<Option<V>>, n: nat)
    requires n <= |order| && |results| == |outcomes| && forall i | 0 <= i < |order| :: order[i] < |outcomes|
  {
    forall m | 0 <= m < n :: RightlyKept(outcomes, order, abandonCount, results, m)
  }

  predicate RightlyKept<V>(outcomes: seq<Outcome<V>>, order: seq<nat>, abandonCount: int, results: seq<Option<V>>, m: nat)
    requires m < |order| && |results| == |outcomes| && forall i | 0 <= i < |order| :: order[i] < |outcomes|
  {
    results[order[m]].None? <==> Abandoned(outcomes, order, abandonCount, m)
  }

  /** The final callback ran when the `at`-th call returned: of the calls that had returned by then,
      those were missing that were among the first `abandonCount` errors, and all later ones were. */
  ghost predicate RightChoice<V>(outcomes: seq<Outcome<V>>, order: seq<nat>, abandonCount: int, delivered: seq<Option<V>>, at: nat)
    requires |delivered| == |outcomes| && forall i | 0 <= i < |order| :: order[i] < |outcomes|
  {
    && 0 < at <= |order| && delivered[order[at - 1]].Some?
    && KeptAmong(outcomes, order, abandonCount, delivered, at)
    && forall m | at <= m < |order| :: delivered[order[m]].None?
  }

  lemma {:induction false} MoreErrors<V>(outcomes: seq<Outcome<V>>, order: seq<nat>, m: nat, n: nat)
    requires m <= n <= |order| && forall i | 0 <= i < |order| :: order[i] < |outcomes|
    ensures Errors(outcomes, order, m) <= Errors(outcomes, order, n)
  {
    if m < n { MoreErrors(outcomes, order, m, n - 1); }
  }

  /** If no more calls fail than may be abandoned, no error is passed on. */
  lemma NoErrorPassedOn<V>(outcomes: seq<Outcome<V>>, abandonCount: int, order: seq<nat>, delivered: seq<Option<V>>, at: nat, i: nat)
    requires AllReturn(order, |outcomes|) && |delivered| == |outcomes| && i < |outcomes|
    requires RightChoice(outcomes, order, abandonCount, delivered, at)
    requires Errors(outcomes, order, |order|) <= abandonCount
    ensures delivered[i].Some? ==> !outcomes[i].isError
  {
    AllListed(order, i);
    var m :| 0 <= m < |order| && order[m] == i;
    if m < at && outcomes[i].isError {
      assert RightlyKept(outcomes, order, abandonCount, delivered, m);
      MoreErrors(outcomes, order, m + 1, |order|);
      assert Abandoned(outcomes, order, abandonCount, m);
    }
  }

  /** How far the calls have come: what has been kept and abandoned, and what has been passed on. */
  ghost predicate Underway<V(!new)>(state: ParallelState<V>, outcomes: seq<Outcome<V>>, order: seq<nat>, at: nat, n: nat)
    requires n <= |order| && forall i | 0 <= i < |order| :: order[i] < |outcomes|
    reads state
  {
    && |state.results| == |outcomes|
    && (state.Sensible() ==>
          var errors := Errors(outcomes, order, n);
          state.abandon == state.abandonCount - if errors < state.abandonCount then errors else state.abandonCount)
    && (state.Sensible() && state.finals == [] ==>
          && KeptAmong(outcomes, order, state.abandonCount, state.results, n)
          && forall m | n <= m < |order| :: state.results[order[m]].None?)
    && (state.finals != [] ==>
          |state.delivered| == |outcomes| && RightChoice(outcomes, order, state.abandonCount, state.delivered, at))
  }

  /** The state after the first `n` calls have returned. */
  ghost predicate AfterSome<V(!new)>(state: ParallelState<V>, outcomes: seq<Outcome<V>>, order: seq<nat>, at: nat, n: nat)
    requires n <= |order| && forall i | 0 <= i < |order| :: order[i] < |outcomes|
    reads state
  {
    && state.count == |outcomes| && state.Valid() && state.Honest(outcomes)
    && state.numLeft == |order| - n && (forall m | n <= m < |order| :: order[m] in state.pending)
    && Underway(state, outcomes, order, at, n)
  }

  /** The next call returns. */
  method NextReturn<V(!new)>(state: ParallelState<V>, outcomes: seq<Outcome<V>>, order: seq<nat>, ghost at: nat, n: nat)
    returns (ghost at': nat)
    requires AllReturn(order, |outcomes|) && n < |order| && AfterSome(state, outcomes, order, at, n)
    modifies state
    ensures AfterSome(state, outcomes, order, at', n + 1)
  {
    state.Complete(order[n], outcomes[order[n]], outcomes);
    at' := if old(state.finals) == [] then n + 1 else at;
    if state.Sensible() && old(state.finals) == [] {
      forall m | 0 <= m < n + 1 ensures RightlyKept(outcomes, order, state.abandonCount, state.results, m) {
        if m < n { assert RightlyKept(outcomes, order, state.abandonCount, old(state.results), m) && order[m] != order[n]; }
      }
    }
  }

  method StartAll<V(!new)>(outcomes: seq<Outcome<V>>, abandonCount: int, default0: V, ghost order: seq<nat>)
    returns (state: ParallelState<V>)
    requires |outcomes| > 0 && AllReturn(order, |outcomes|)
    ensures fresh(state) && state.abandonCount == abandonCount && state.default0 == default0
    ensures AfterSome(state, outcomes, order, 0, 0)
  {
    state := new ParallelState(|outcomes|, abandonCount, default0);
  }

  /** In every order of completion, with any mix of errors, the final callback gets the right
      result, and the state is freed at the end. */
  method RunAll<V(!new)>(outcomes: seq<Outcome<V>>, abandonCount: int, default0: V, order: seq<nat>)
    returns (finals: seq<seq<V>>, freed: bool, ghost delivered: seq<Option<V>>, ghost at: nat)
    requires |outcomes| > 0 && AllReturn(order, |outcomes|)
    ensures |finals| == if 0 <= abandonCount < |outcomes| then 1 else 0
    ensures RightResult(outcomes, abandonCount, default0, finals, delivered) && freed
    ensures finals != [] ==> RightChoice(outcomes, order, abandonCount, delivered, at)
  {
    var count := |outcomes|;
    var state := StartAll(outcomes, abandonCount, default0, order);
    at := 0;
    for n := 0 to count
      invariant fresh(state) && state.abandonCount == abandonCount && state.default0 == default0
      invariant AfterSome(state, outcomes, order, at, n)
    {
      at := NextReturn(state, outcomes, order, at, n);
    }
    state.AllDone(outcomes);
    finals, freed, delivered := state.finals, state.freed, state.delivered;
  }
}
