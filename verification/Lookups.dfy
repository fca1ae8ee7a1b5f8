/** The lookups that code generation makes: positions of literals in the constant table, and of
    recursive variables among the parameters of a binding.  A failed lookup ends the program. */
module Lookups {
  import opened Values
  import opened Source
  import opened Compiler
  import opened CompilerCorrect
  import opened Frontend
  import Graphs
  import PlanExamples
  import WhereBlock

  /** Positions are consistent; bindings may take any number of recursive variables. */
  ghost predicate SoundPlan(block: Expr) {
    && block.Where?
    && |block.plan.recursive| == |block.bindings|
    && (forall k | 0 <= k < |block.plan.order| :: block.plan.order[k] < |block.bindings|)
    && (forall k | 0 <= k < |block.plan.order| :: PositionOf(block.plan.order, block.plan.order[k]) == k)
  }

  /** The recursive variables of the binding at `at`; the base expression has none. */
  function PartParameters(block: Expr, at: nat): seq<nat>
    requires block.Where?
  {
    if at < |block.plan.order| && block.plan.order[at] < |block.plan.recursive|
    then block.plan.recursive[block.plan.order[at]] else []
  }

  /** What is looked up to tell one of several recursive variables from the others. */
  predicate PositionFound(block: Expr, at: nat, i: nat, table: set<Literal>)
    requires block.Where?
  {
    at <= PositionOf(block.plan.order, i) && |PartParameters(block, at)| != 1 ==>
      Integer(PositionOf(PartParameters(block, at), i)) in table
  }

  /** What is looked up to pass several recursive variables to binding `i`. */
  predicate BuilderFound(block: Expr, i: nat, table: set<Literal>)
    requires block.Where?
  {
    i < |block.plan.recursive| && |block.plan.recursive[i]| > 1 ==> BuilderLiterals(|block.plan.recursive[i]|) <= table
  }

  function BuilderLiterals(size: nat): set<Literal> {
    {Import("builtin"), Import("tuple"), Atom("builder"), Integer(size)}
  }

  /** Binding `i` is computed before the one at `at`, or is among its parameters. */
  ghost predicate Reachable(block: Expr, at: nat, i: nat)
    requires block.Where?
  {
    i in block.plan.order && (at <= PositionOf(block.plan.order, i) ==> i in PartParameters(block, at))
  }

  ghost predicate BindingFound(block: Expr, at: nat, i: nat, table: set<Literal>)
    requires block.Where?
  {
    Reachable(block, at, i) && PositionFound(block, at, i, table)
  }

  /** Every lookup made for a mention of binding `i` succeeds. */
  ghost predicate UseFound(block: Expr, at: nat, i: nat, table: set<Literal>) {
    && SoundPlan(block) && BindingFound(block, at, i, table) && BuilderFound(block, i, table)
    && i < |block.bindings| && forall r | r in block.plan.recursive[i] :: BindingFound(block, at, r, table)
  }

  ghost predicate ReferenceFound(name: string, escape: nat, scope: seq<Definition>, table: set<Literal>)
    decreases scope
  {
    scope == [] ||
    match scope[0]
    case Params(names, _) =>
      if name !in names then ReferenceFound(name, escape, scope[1..], table)
      else if escape > 0 then ReferenceFound(name, escape - 1, scope[1..], table)
      else |names| != 1 ==> Integer(IndexOf(names, name)) in table
    case BlockPart(block, _, at) =>
      block.Where? &&
      match Find(block.bindings, name)
      case None => ReferenceFound(name, escape, scope[1..], table)
      case Some(i) =>
        if escape > 0 then ReferenceFound(name, escape - 1, scope[1..], table)
        else UseFound(block, at, i, table)
  }

  /** Every lookup made while generating code for `e` succeeds. */
  ghost predicate AllFound(e: Expr, scope: seq<Definition>, level: nat, table: set<Literal>)
    decreases e
  {
    match e
    case Variable(name, escape) => ReferenceFound(name, escape, scope, table)
    case Lambda(params, body) => AllFound(body, [Params(params, level)] + scope, level + 1, table)
    case Call(fn, arg) => AllFound(fn, scope, level, table) && AllFound(arg, scope, level, table)
    case Lit(literal) => literal in table
    case Where(base, bindings, plan) =>
      && SoundPlan(e)
      && AllFound(base, [BlockPart(e, level, |plan.order|)] + scope, level + |plan.order|, table)
      && forall at | 0 <= at < |plan.order| ::
           AllFound(bindings[plan.order[at]].value, [BlockPart(e, level, at)] + scope, InsideLevel(e, level, at), table)
  }

  // ---------------------------------------------------------------------------
  // Exactly when all lookups succeed.

  /** The variables that generated code needs from outside: dropped bindings do not count. */
  function Generated(e: Expr): set<Need> {
    match e
    case Variable(name, escape) => {(name, escape)}
    case Lambda(params, body) => Outside(Generated(body), params)
    case Call(fn, arg) => Generated(fn) + Generated(arg)
    case Lit(_) => {}
    case Where(base, bindings, plan) =>
      Outside(Generated(base)
                + (set i, n | i in plan.order && i < |bindings| && n in Generated(bindings[i].value) :: n), Names(bindings))
  }

  /** A mention of `z` in the code at `at`: the tuple of several recursive variables can be built,
      and the members of the enclosing binding's own tuple can be told apart. */
  predicate TupleUseFound(block: Expr, at: nat, z: nat, table: set<Literal>)
    requires block.Where?
  {
    && BuilderFound(block, z, table) && PositionFound(block, at, z, table)
    && (z < |block.plan.recursive| ==> forall r | r in block.plan.recursive[z] :: PositionFound(block, at, r, table))
  }

  /** The expression generated at position `at` of the plan. */
  function Part(block: Expr, at: nat): (part: Expr)
    requires SoundPlan(block) && at <= |block.plan.order|
    ensures part < block
  {
    if at == |block.plan.order| then block.base else block.bindings[block.plan.order[at]].value
  }

  /** Everything that generated code looks up for tuples of recursive variables is in `table`. */
  ghost predicate TuplesFound(e: Expr, table: set<Literal>) {
    match e
    case Variable(_, _) => true
    case Lambda(_, body) => TuplesFound(body, table)
    case Call(fn, arg) => TuplesFound(fn, table) && TuplesFound(arg, table)
    case Lit(_) => true
    case Where(base, bindings, plan) =>
      SoundPlan(e) ==>
        && (forall at, z | 0 <= at <= |plan.order| && z in Mentioned(Generated(Part(e, at)), Names(bindings)) ::
              TupleUseFound(e, at, z, table))
        && forall at | 0 <= at <= |plan.order| :: TuplesFound(Part(e, at), table)
  }

  lemma OutsideGrows(a: set<Need>, b: set<Need>, names: seq<string>)
    requires a <= b
    ensures Outside(a, names) <= Outside(b, names)
  {
  }

  lemma {:induction false} GeneratedIsNeeded(e: Expr)
    ensures Generated(e) <= Needs(e)
    decreases e
  {
    match e
    case Variable(_, _) =>
    case Lambda(params, body) =>
      GeneratedIsNeeded(body);
      OutsideGrows(Generated(body), Needs(body), params);
    case Call(fn, arg) =>
      GeneratedIsNeeded(fn);
      GeneratedIsNeeded(arg);
    case Lit(_) =>
    case Where(base, bindings, plan) =>
      GeneratedIsNeeded(base);
      forall i | 0 <= i < |bindings| ensures Generated(bindings[i].value) <= Needs(bindings[i].value) {
        GeneratedIsNeeded(bindings[i].value);
      }
      OutsideGrows(GeneratedInside(e), Needs(base) + (set i, n | 0 <= i < |bindings| && n in Needs(bindings[i].value) :: n),
                   Names(bindings));
  }

  /** What the generated parts of a block need. */
  function GeneratedInside(block: Expr): set<Need>
    requires block.Where?
  {
    Generated(block.base) + (set i, n | i in block.plan.order && i < |block.bindings| && n in Generated(block.bindings[i].value) :: n)
  }

  lemma PlanIsSound(block: Expr)
    requires block.Where? && HasPlan(block)
    ensures SoundPlan(block)
  {
    var index, started, needs :| PlannedWith(block, index, started, needs);
    PlanShape(block, index, started, needs);
  }

  /** The planner sees to it that parameters are always found. */
  lemma MentionReachable(block: Expr, at: nat, z: nat)
    requires SoundPlan(block) && HasPlan(block) && at <= |block.plan.order|
    requires z in BlockGraph(block)[PartNode(block, at)]
    ensures z < |block.bindings| && Reachable(block, at, z)
    ensures forall r | r in block.plan.recursive[z] :: Reachable(block, at, r)
  {
    var index, started, needs :| PlannedWith(block, index, started, needs);
    PlanShape(block, index, started, needs);
    MentionRecorded(block, index, started, needs, PartNode(block, at), z);
    ReachableFrom(block, at, z, index);
    forall r | r in block.plan.recursive[z] ensures Reachable(block, at, r) { ReachableFrom(block, at, r, index); }
  }

  /** The node of the dependency graph for the part at `at`. */
  function PartNode(block: Expr, at: nat): (b: nat)
    requires SoundPlan(block) && at <= |block.plan.order|
    ensures b <= |block.bindings|
  {
    if at == |block.plan.order| then |block.bindings| else block.plan.order[at]
  }

  lemma ReachableFrom(block: Expr, at: nat, x: nat, index: seq<int>)
    requires SoundPlan(block) && at <= |block.plan.order|
    requires x in block.plan.order && x < |index| && PositionOf(block.plan.order, x) == index[x]
    requires at <= index[x] ==> at < |block.plan.order| && x in block.plan.recursive[block.plan.order[at]]
    ensures Reachable(block, at, x)
  {
  }

  /** So what decides is the constant table. */
  lemma MentionDecides(block: Expr, at: nat, z: nat, table: set<Literal>)
    requires SoundPlan(block) && HasPlan(block) && at <= |block.plan.order|
    requires z in BlockGraph(block)[PartNode(block, at)]
    ensures UseFound(block, at, z, table) <==> TupleUseFound(block, at, z, table)
  {
    MentionReachable(block, at, z);
  }

  ghost predicate NeedsFound(needs: set<Need>, scope: seq<Definition>, table: set<Literal>) {
    forall n | n in needs :: ReferenceFound(n.0, n.1, scope, table)
  }

  /** A need of one part of a block that the block meets. */
  lemma NeedMet(block: Expr, at: nat, scope: seq<Definition>, level: nat, table: set<Literal>, n: Need)
    requires SoundPlan(block) && HasPlan(block) && at <= |block.plan.order| && n in Generated(Part(block, at))
    requires n.0 in Names(block.bindings) && n.1 == 0
    ensures IndexOf(Names(block.bindings), n.0) in Mentioned(Generated(Part(block, at)), Names(block.bindings))
    ensures ReferenceFound(n.0, n.1, [BlockPart(block, level, at)] + scope, table)
       <==> TupleUseFound(block, at, IndexOf(Names(block.bindings), n.0), table)
  {
    var names, part := Names(block.bindings), Part(block, at);
    GeneratedIsNeeded(part);
    PartInGraph(block, at);
    assert IndexOf(names, n.0) in Mentioned(Needs(part), names);
    MentionDecides(block, at, IndexOf(names, n.0), table);
  }

  lemma PartInGraph(block: Expr, at: nat)
    requires SoundPlan(block) && at <= |block.plan.order|
    ensures BlockGraph(block)[PartNode(block, at)] == Mentioned(Needs(Part(block, at)), Names(block.bindings))
  {
  }

  /** A need that the block hands on. */
  lemma NeedHandedOn(block: Expr, at: nat, scope: seq<Definition>, level: nat, table: set<Literal>, n: Need)
    requires SoundPlan(block) && at <= |block.plan.order| && n in Generated(Part(block, at))
    requires n.0 in Names(block.bindings) ==> n.1 > 0
    ensures var outer := if n.0 in Names(block.bindings) then (n.0, n.1 - 1) else n;
      && outer in Generated(block)
      && (ReferenceFound(n.0, n.1, [BlockPart(block, level, at)] + scope, table) <==> ReferenceFound(outer.0, outer.1, scope, table))
  {
    assert ([BlockPart(block, level, at)] + scope)[1..] == scope;
    assert n in GeneratedInside(block);
    NeedOutside(GeneratedInside(block), Names(block.bindings), n);
  }

  /** Conversely, what a block needs outside is needed by one of its parts. */
  lemma NeedComesFrom(block: Expr, m: Need) returns (at: nat, n: Need)
    requires SoundPlan(block) && m in Generated(block)
    ensures at <= |block.plan.order| && n in Generated(Part(block, at))
    ensures var names := Names(block.bindings);
      (n.0 in names ==> n.1 > 0) && m == if n.0 in names then (n.0, n.1 - 1) else n
  {
    var names := Names(block.bindings);
    n :| n in GeneratedInside(block) && (n.0 in names ==> n.1 > 0) && m == if n.0 in names then (n.0, n.1 - 1) else n;
    if n in Generated(block.base) {
      at := |block.plan.order|;
    } else {
      var i :| i in block.plan.order && i < |block.bindings| && n in Generated(block.bindings[i].value);
      at := PositionOf(block.plan.order, i);
    }
  }

  ghost predicate PartsNeedsFound(block: Expr, scope: seq<Definition>, level: nat, table: set<Literal>)
    requires SoundPlan(block)
  {
    forall at | 0 <= at <= |block.plan.order| ::
      NeedsFound(Generated(Part(block, at)), [BlockPart(block, level, at)] + scope, table)
  }

  ghost predicate MentionsFound(block: Expr, table: set<Literal>)
    requires SoundPlan(block)
  {
    forall at, z | 0 <= at <= |block.plan.order| && z in Mentioned(Generated(Part(block, at)), Names(block.bindings)) ::
      TupleUseFound(block, at, z, table)
  }

  lemma PartsDecide(block: Expr, scope: seq<Definition>, level: nat, table: set<Literal>)
    requires SoundPlan(block) && HasPlan(block)
    ensures PartsNeedsFound(block, scope, level, table) <==> NeedsFound(Generated(block), scope, table) && MentionsFound(block, table)
  {
    var names := Names(block.bindings);
    if PartsNeedsFound(block, scope, level, table) {
      forall m | m in Generated(block) ensures ReferenceFound(m.0, m.1, scope, table) {
        var at, n := NeedComesFrom(block, m);
        NeedHandedOn(block, at, scope, level, table, n);
        assert NeedsFound(Generated(Part(block, at)), [BlockPart(block, level, at)] + scope, table);
      }
      forall at, z | 0 <= at <= |block.plan.order| && z in Mentioned(Generated(Part(block, at)), names)
        ensures TupleUseFound(block, at, z, table)
      {
        var n :| n in Generated(Part(block, at)) && n.0 in names && n.1 == 0 && z == IndexOf(names, n.0);
        NeedMet(block, at, scope, level, table, n);
        assert NeedsFound(Generated(Part(block, at)), [BlockPart(block, level, at)] + scope, table);
      }
    }
    if NeedsFound(Generated(block), scope, table) && MentionsFound(block, table) {
      forall at, n | 0 <= at <= |block.plan.order| && n in Generated(Part(block, at))
        ensures ReferenceFound(n.0, n.1, [BlockPart(block, level, at)] + scope, table)
      {
        if n.0 in names && n.1 == 0 {
          NeedMet(block, at, scope, level, table, n);
        } else {
          NeedHandedOn(block, at, scope, level, table, n);
        }
      }
    }
  }

  /** After planning, code generation succeeds exactly when the variables needed outside are found
      there, and all literals for tuples of recursive variables are in the table. */
  lemma {:induction false} FoundIff(e: Expr, scope: seq<Definition>, level: nat, table: set<Literal>)
    requires PlannedTree(e) && Literals(e) <= table
    ensures AllFound(e, scope, level, table) <==> NeedsFound(Generated(e), scope, table) && TuplesFound(e, table)
    decreases e, 1
  {
    match e
    case Variable(_, _) =>
    case Lambda(params, body) => LambdaFoundIff(params, body, scope, level, table);
    case Call(fn, arg) =>
      FoundIff(fn, scope, level, table);
      FoundIff(arg, scope, level, table);
    case Lit(_) =>
    case Where(_, _, _) => BlockFoundIff(e, scope, level, table);
  }

  lemma {:induction false} LambdaFoundIff(params: seq<string>, body: Expr, scope: seq<Definition>, level: nat, table: set<Literal>)
    requires PlannedTree(body) && Literals(Lambda(params, body)) <= table
    ensures var e := Lambda(params, body);
      AllFound(e, scope, level, table) <==> NeedsFound(Generated(e), scope, table) && TuplesFound(e, table)
    decreases body, 2
  {
    var inside := [Params(params, level)] + scope;
    assert inside[1..] == scope;
    FoundIff(body, inside, level + 1, table);
    ParametersDecide(params, body, scope, level, table);
  }

  lemma ParametersDecide(params: seq<string>, body: Expr, scope: seq<Definition>, level: nat, table: set<Literal>)
    requires Literals(Lambda(params, body)) <= table
    ensures NeedsFound(Generated(body), [Params(params, level)] + scope, table)
       <==> NeedsFound(Outside(Generated(body), params), scope, table)
  {
    var inside := [Params(params, level)] + scope;
    assert inside[1..] == scope;
    forall n | n in Generated(body) && n.0 in params && n.1 == 0 ensures ReferenceFound(n.0, n.1, inside, table) {
      ParameterFound(params, body, table, n);
    }
    forall n | n in Generated(body) && (n.0 in params ==> n.1 > 0)
      ensures var outer := if n.0 in params then (n.0, n.1 - 1) else n;
        outer in Outside(Generated(body), params)
        && (ReferenceFound(n.0, n.1, inside, table) <==> ReferenceFound(outer.0, outer.1, scope, table))
    {
      NeedOutside(Generated(body), params, n);
    }
  }

  lemma ParameterFound(params: seq<string>, body: Expr, table: set<Literal>, n: Need)
    requires Literals(Lambda(params, body)) <= table && n in Generated(body) && n.0 in params && n.1 == 0
    ensures |params| != 1 ==> Integer(IndexOf(params, n.0)) in table
  {
    GeneratedIsNeeded(body);
    if |params| != 1 { assert Integer(IndexOf(params, n.0)) in Literals(Lambda(params, body)); }
  }

  lemma {:induction false} BlockFoundIff(block: Expr, scope: seq<Definition>, level: nat, table: set<Literal>)
    requires block.Where? && PlannedTree(block) && Literals(block) <= table
    ensures AllFound(block, scope, level, table) <==> NeedsFound(Generated(block), scope, table) && TuplesFound(block, table)
    decreases block, 0
  {
    PlanIsSound(block);
    forall at | 0 <= at <= |block.plan.order|
      ensures AllFound(Part(block, at), [BlockPart(block, level, at)] + scope, InsideLevel(block, level, at), table)
         <==> NeedsFound(Generated(Part(block, at)), [BlockPart(block, level, at)] + scope, table) && TuplesFound(Part(block, at), table)
    {
      PartFoundIff(block, at, scope, level, table);
    }
    PartsDecide(block, scope, level, table);
    AllPartsFound(block, scope, level, table);
    AllTuplesFound(block, table);
  }

  lemma {:induction false} PartFoundIff(block: Expr, at: nat, scope: seq<Definition>, level: nat, table: set<Literal>)
    requires SoundPlan(block) && at <= |block.plan.order| && PlannedTree(block) && Literals(block) <= table
    ensures AllFound(Part(block, at), [BlockPart(block, level, at)] + scope, InsideLevel(block, level, at), table)
       <==> NeedsFound(Generated(Part(block, at)), [BlockPart(block, level, at)] + scope, table) && TuplesFound(Part(block, at), table)
    decreases block, 0, 0
  {
    PartPlanned(block, at, table);
    FoundIff(Part(block, at), [BlockPart(block, level, at)] + scope, InsideLevel(block, level, at), table);
  }

  lemma PartPlanned(block: Expr, at: nat, table: set<Literal>)
    requires SoundPlan(block) && at <= |block.plan.order| && PlannedTree(block) && Literals(block) <= table
    ensures PlannedTree(Part(block, at)) && Literals(Part(block, at)) <= table
  {
    forall l | l in Literals(Part(block, at)) ensures l in table { assert l in Literals(block); }
  }

  lemma AllTuplesFound(block: Expr, table: set<Literal>)
    requires SoundPlan(block)
    ensures TuplesFound(block, table) <==>
      MentionsFound(block, table) && forall at | 0 <= at <= |block.plan.order| :: TuplesFound(Part(block, at), table)
  {
  }

  lemma AllPartsFound(block: Expr, scope: seq<Definition>, level: nat, table: set<Literal>)
    requires SoundPlan(block)
    ensures AllFound(block, scope, level, table) <==>
      forall at | 0 <= at <= |block.plan.order| ::
        AllFound(Part(block, at), [BlockPart(block, level, at)] + scope, InsideLevel(block, level, at), table)
  {
    var n := |block.plan.order|;
    assert Part(block, n) == block.base && InsideLevel(block, level, n) == level + n;
  }

  /** Compiling a planned program makes no failing lookup exactly when everything looked up for
      tuples of recursive variables has been registered. */
  lemma CompilesExactlyWhen(program: Expr)
    requires PlannedTree(program)
    ensures AllFound(program, [], 0, Literals(program)) <==> TuplesFound(program, Literals(program))
  {
    FoundIff(program, [], 0, Literals(program));
  }

  /** Where no binding takes more than one recursive variable, nothing is looked up for tuples. */
  lemma {:induction false} SinglesFindAll(e: Expr, table: set<Literal>)
    requires PlannedTree(e) && SingleParameters(e)
    ensures TuplesFound(e, table)
    decreases e
  {
    match e
    case Variable(_, _) =>
    case Lambda(_, body) => SinglesFindAll(body, table);
    case Call(fn, arg) =>
      SinglesFindAll(fn, table);
      SinglesFindAll(arg, table);
    case Lit(_) =>
    case Where(base, bindings, plan) =>
      PlanIsSound(e);
      forall at | 0 <= at <= |plan.order| ensures TuplesFound(Part(e, at), table) { SinglesFindAll(Part(e, at), table); }
      forall at, z | 0 <= at <= |plan.order| && z in Mentioned(Generated(Part(e, at)), Names(bindings))
        ensures TupleUseFound(e, at, z, table)
      {
        SingleUseFound(e, at, z, table);
      }
  }

  lemma SingleUseFound(block: Expr, at: nat, z: nat, table: set<Literal>)
    requires SoundPlan(block) && HasPlan(block) && at <= |block.plan.order|
    requires z in Mentioned(Generated(Part(block, at)), Names(block.bindings))
    requires forall i | 0 <= i < |block.bindings| && i in block.plan.order && i < |block.plan.recursive| ::
               |block.plan.recursive[i]| <= 1
    ensures TupleUseFound(block, at, z, table)
  {
    GeneratedIsNeeded(Part(block, at));
    PartInGraph(block, at);
    assert z in Mentioned(Needs(Part(block, at)), Names(block.bindings));
    MentionReachable(block, at, z);
  }

  /** In every block, no tuple of recursive variables is larger than the first one. */
  ghost predicate LargestFirst(e: Expr) {
    match e
    case Variable(_, _) => true
    case Lambda(_, body) => LargestFirst(body)
    case Call(fn, arg) => LargestFirst(fn) && LargestFirst(arg)
    case Lit(_) => true
    case Where(base, bindings, plan) =>
      && (forall j, k: nat | IsFirstTuple(plan, 0, k) && TakesTuple(plan, j) :: TupleSize(plan, j) <= TupleSize(plan, k))
      && LargestFirst(base) && forall i | 0 <= i < |bindings| :: LargestFirst(bindings[i].value)
  }

  function TupleSize(plan: Plan, k: nat): nat
    requires TakesTuple(plan, k)
  {
    |plan.recursive[plan.order[k]]|
  }

  lemma FirstTupleExists(plan: Plan, j: nat) returns (k: nat)
    requires TakesTuple(plan, j)
    ensures IsFirstTuple(plan, 0, k)
  {
    k := 0;
    while !TakesTuple(plan, k)
      invariant k <= j && forall i | 0 <= i < k :: !TakesTuple(plan, i)
      decreases j - k
    {
      k := k + 1;
    }
  }

  lemma BuilderRegistered(plan: Plan, from: nat, k: nat)
    requires from <= k && TakesTuple(plan, k)
    ensures Import("builtin") in TupleLiterals(plan, from) && Atom("tuple") in TupleLiterals(plan, from)
    ensures Atom("builder") in TupleLiterals(plan, from)
    decreases |plan.order| - from
  {
    if !TakesTuple(plan, from) { BuilderRegistered(plan, from + 1, k); }
  }

  lemma TupleRegistered(block: Expr, j: nat, n: int)
    requires block.Where? && TakesTuple(block.plan, j) && 0 <= n <= TupleSize(block.plan, j)
    requires forall j, k: nat | IsFirstTuple(block.plan, 0, k) && TakesTuple(block.plan, j) ::
               TupleSize(block.plan, j) <= TupleSize(block.plan, k)
    ensures Integer(n) in Literals(block)
    ensures Import("builtin") in Literals(block) && Atom("builder") in Literals(block)
  {
    var k := FirstTupleExists(block.plan, j);
    TupleSizes(block.plan, 0, n);
    BuilderRegistered(block.plan, 0, j);
  }

  lemma TuplePositionFound(block: Expr, at: nat, i: nat, table: set<Literal>)
    requires SoundPlan(block) && at <= |block.plan.order| && Reachable(block, at, i) && Literals(block) <= table
    requires forall j, k: nat | IsFirstTuple(block.plan, 0, k) && TakesTuple(block.plan, j) ::
               TupleSize(block.plan, j) <= TupleSize(block.plan, k)
    ensures PositionFound(block, at, i, table)
  {
    if at <= PositionOf(block.plan.order, i) && |PartParameters(block, at)| != 1 {
      TupleRegistered(block, at, PositionOf(PartParameters(block, at), i));
    }
  }

  lemma TupleUseRegistered(block: Expr, at: nat, z: nat, table: set<Literal>)
    requires SoundPlan(block) && HasPlan(block) && at <= |block.plan.order| && Literals(block) <= table && Import("tuple") in table
    requires z in Mentioned(Generated(Part(block, at)), Names(block.bindings))
    requires forall j, k: nat | IsFirstTuple(block.plan, 0, k) && TakesTuple(block.plan, j) ::
               TupleSize(block.plan, j) <= TupleSize(block.plan, k)
    ensures TupleUseFound(block, at, z, table)
  {
    GeneratedIsNeeded(Part(block, at));
    PartInGraph(block, at);
    assert z in Mentioned(Needs(Part(block, at)), Names(block.bindings));
    MentionReachable(block, at, z);
    TuplePositionFound(block, at, z, table);
    forall r | r in block.plan.recursive[z] ensures PositionFound(block, at, r, table) { TuplePositionFound(block, at, r, table); }
    if |block.plan.recursive[z]| > 1 {
      TupleRegistered(block, PositionOf(block.plan.order, z), |block.plan.recursive[z]|);
    }
  }

  /** With "tuple" imported, and no tuple larger than the first of its block, everything is found. */
  lemma {:induction false} LargestFirstFindsAll(e: Expr, table: set<Literal>)
    requires PlannedTree(e) && LargestFirst(e) && Literals(e) <= table && Import("tuple") in table
    ensures TuplesFound(e, table)
    decreases e
  {
    match e
    case Variable(_, _) =>
    case Lambda(_, body) => LargestFirstFindsAll(body, table);
    case Call(fn, arg) =>
      LargestFirstFindsAll(fn, table);
      LargestFirstFindsAll(arg, table);
    case Lit(_) =>
    case Where(base, bindings, plan) =>
      PlanIsSound(e);
      forall at | 0 <= at <= |plan.order| ensures TuplesFound(Part(e, at), table) {
        PartPlanned(e, at, table);
        LargestFirstFindsAll(Part(e, at), table);
      }
      forall at, z | 0 <= at <= |plan.order| && z in Mentioned(Generated(Part(e, at)), Names(bindings))
        ensures TupleUseFound(e, at, z, table)
      {
        TupleUseRegistered(e, at, z, table);
      }
  }

  /** So a program that imports "tuple" itself compiles if its first tuples are its largest. */
  lemma ImportingTupleSuffices(program: Expr)
    requires PlannedTree(program) && LargestFirst(program) && Mentions(program, "tuple")
    ensures AllFound(program, [], 0, Literals(program))
  {
    ImportsRegistered(program, "tuple");
    LargestFirstFindsAll(program, Literals(program));
    CompilesExactlyWhen(program);
  }

  // ---------------------------------------------------------------------------
  // A program for which they do not.

  /** f, where f = f(g) and g = g(f), as the planner plans it: g takes both f and itself. */
  function MutualPair(): Expr {
    var f, g := Variable("f", 0), Variable("g", 0);
    Where(f, [Binding("f", Call(f, g)), Binding("g", Call(g, f))], Plan([1, 0], [[0], [0, 1]]))
  }

  lemma MutualPairGraph(block: Expr)
    requires block == MutualPair()
    ensures BlockGraph(block) == PlanExamples.PAIR
  {
    var names := Names(block.bindings);
    assert names == ["f", "g"];
    assert IndexOf(names, "f") == 0 && IndexOf(names, "g") == 1;
    MentionedPair(Needs(block.bindings[0].value), names);
    MentionedPair(Needs(block.bindings[1].value), names);
    assert ("f", 0) in Needs(block.base) && Mentioned(Needs(block.base), names) == {0};
  }

  lemma MentionedPair(needs: set<Need>, names: seq<string>)
    requires needs == {("f", 0), ("g", 0)} && names == ["f", "g"]
    ensures Mentioned(needs, names) == {0, 1}
  {
    assert IndexOf(names, "f") == 0 && IndexOf(names, "g") == 1;
    assert ("f", 0) in needs && ("g", 0) in needs;
  }

  lemma PlannedAs(block: Expr, graph: Graphs.Graph, order: seq<nat>, index: seq<int>, started: map<nat, nat>,
                  needs: seq<set<nat>>, recursive: seq<seq<nat>>)
    requires block.Where? && BlockGraph(block) == graph
    requires block.plan.order + [|block.bindings|] == order && block.plan.recursive + [[]] == recursive
    requires WhereBlock.Planned(graph, |block.bindings|, order, index, started, needs, recursive)
    ensures HasPlan(block)
  {
    assert PlannedWith(block, index, started, needs);
  }

  lemma MutualPairHasPlan(block: Expr, order: seq<nat>, index: seq<int>, started: map<nat, nat>, recursive: seq<seq<nat>>)
    requires block.Where? && BlockGraph(block) == PlanExamples.PAIR && |block.bindings| == 2
    requires block.plan.order + [2] == order && block.plan.recursive + [[]] == recursive
    requires order == [1, 0, 2] && index == [1, 0, 2] && started == map[0 := 0, 1 := 0, 2 := 0] && recursive == [[0], [0, 1], []]
    ensures HasPlan(block)
  {
    PlanExamples.PairPlanned(PlanExamples.PAIR, index, started, recursive);
    PlannedAs(block, PlanExamples.PAIR, order, index, started, PlanExamples.PAIR, recursive);
  }

  lemma MutualPairPlanned(block: Expr)
    requires block == MutualPair()
    ensures PlannedTree(block)
  {
    MutualPairGraph(block);
    MutualPairHasPlan(block, block.plan.order + [2], [1, 0, 2], map[0 := 0, 1 := 0, 2 := 0], block.plan.recursive + [[]]);
  }

  lemma MutualPairNeedsImport(block: Expr, table: set<Literal>)
    requires block == MutualPair()
    ensures AllFound(block, [], 0, table) ==> Import("tuple") in table
  {
    if AllFound(block, [], 0, table) {
      var inside := [BlockPart(block, 0, 1)] + [];
      assert block.plan.order[1] == 0;
      assert AllFound(block.bindings[0].value, inside, InsideLevel(block, 0, 1), table);
      assert ReferenceFound("g", 0, inside, table);
      assert Names(block.bindings) == ["f", "g"] && Find(block.bindings, "g") == Some(1);
      assert UseFound(block, 1, 1, table);
      assert block.plan.recursive[1] == [0, 1];
    }
  }

  lemma MutualPairLiterals(block: Expr)
    requires block == MutualPair()
    ensures Atom("tuple") in Literals(block) && Import("tuple") !in Literals(block)
  {
    ImportsRegistered(block, "tuple");
    assert TakesTuple(block.plan, 0);
    assert Atom("tuple") in TupleLiterals(block.plan, 0);
  }

  /** Its tuple literals are registered, the import that its code looks up is not, and compiling
      it fails. */
  lemma TupleImportMissing()
    ensures var block := MutualPair();
      && PlannedTree(block)
      && Atom("tuple") in Literals(block) && Import("tuple") !in Literals(block)
      && !AllFound(block, [], 0, Literals(block))
  {
    MutualPairPlanned(MutualPair());
    MutualPairLiterals(MutualPair());
    MutualPairNeedsImport(MutualPair(), Literals(MutualPair()));
  }
}
