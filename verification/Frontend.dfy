/** The pass before code generation: which variables an expression needs from outside, which
    literals it needs in the constant table, and a plan for every where block. */
module Frontend {
  import opened Values
  import opened Source
  import opened Compiler
  import opened CompilerCorrect
  import Graphs
  import WhereBlock

  /** A variable needed from an enclosing definition: its name, and how many definitions of
      that name to skip. */
  type Need = (string, nat)

  /** What is still needed outside a definition of `names`. */
  function Outside(needs: set<Need>, names: seq<string>): set<Need> {
    set n | n in needs && (n.0 in names ==> n.1 > 0) :: if n.0 in names then (n.0, n.1 - 1) else n
  }

  function Needs(e: Expr): set<Need> {
    match e
    case Variable(name, escape) => {(name, escape)}
    case Lambda(params, body) => Outside(Needs(body), params)
    case Call(fn, arg) => Needs(fn) + Needs(arg)
    case Lit(_) => {}
    case Where(base, bindings, _) =>
      Outside(Needs(base) + (set i, n | 0 <= i < |bindings| && n in Needs(bindings[i].value) :: n), Names(bindings))
  }

  /** The members of `names` that `needs` refers to. */
  function Mentioned(needs: set<Need>, names: seq<string>): set<nat> {
    set n | n in needs && n.0 in names && n.1 == 0 :: IndexOf(names, n.0)
  }

  /** Who refers to whom inside a block; the base expression is the last node. */
  function BlockGraph(block: Expr): (graph: Graphs.Graph)
    requires block.Where?
    ensures |graph| == |block.bindings| + 1
    ensures Graphs.WellFormed(graph)
  {
    var names := Names(block.bindings);
    seq(|block.bindings|, i requires 0 <= i < |block.bindings| => Mentioned(Needs(block.bindings[i].value), names))
      + [Mentioned(Needs(block.base), names)]
  }

  /** Literals registered for tuples of recursive variables: those of the first binding that
      takes more than one. */
  function TupleLiterals(plan: Plan, from: nat): set<Literal>
    decreases |plan.order| - from
  {
    if from >= |plan.order| then {}
    else if plan.order[from] < |plan.recursive| && |plan.recursive[plan.order[from]]| > 1 then
      var size := |plan.recursive[plan.order[from]]|;
      {Import("builtin"), Atom("tuple"), Atom("builder"), Integer(size)} + (set j | 0 <= j < size :: Integer(j))
    else TupleLiterals(plan, from + 1)
  }

  /** Literals that must be in the constant table. */
  function Literals(e: Expr): set<Literal> {
    match e
    case Variable(_, _) => {}
    case Lambda(params, body) =>
      Literals(body)
        + if |params| == 1 then {}
          else set n | n in Needs(body) && n.0 in params && n.1 == 0 :: Integer(IndexOf(params, n.0))
    case Call(fn, arg) => Literals(fn) + Literals(arg)
    case Lit(literal) => {literal}
    case Where(base, bindings, plan) =>
      Literals(base) + (set i, l | 0 <= i < |bindings| && l in Literals(bindings[i].value) :: l) + TupleLiterals(plan, 0)
  }

  /** The plan of `block` is one the planner can produce. */
  ghost predicate HasPlan(block: Expr)
    requires block.Where?
  {
    exists index, started, needs :: PlannedWith(block, index, started, needs)
  }

  ghost predicate PlannedTree(e: Expr) {
    match e
    case Variable(_, _) => true
    case Lambda(_, body) => PlannedTree(body)
    case Call(fn, arg) => PlannedTree(fn) && PlannedTree(arg)
    case Lit(_) => true
    case Where(base, bindings, _) =>
      HasPlan(e) && PlannedTree(base) && forall i | 0 <= i < |bindings| :: PlannedTree(bindings[i].value)
  }

  /** No computed binding of any block takes more than one recursive variable. */
  ghost predicate SingleParameters(e: Expr) {
    match e
    case Variable(_, _) => true
    case Lambda(_, body) => SingleParameters(body)
    case Call(fn, arg) => SingleParameters(fn) && SingleParameters(arg)
    case Lit(_) => true
    case Where(base, bindings, plan) =>
      && (forall i | 0 <= i < |bindings| && i in plan.order && i < |plan.recursive| :: |plan.recursive[i]| <= 1)
      && SingleParameters(base)
      && forall i | 0 <= i < |bindings| :: SingleParameters(bindings[i].value)
  }

  // ---------------------------------------------------------------------------
  // A planned tree is ready for code generation.

  /** The plan of `block` was made with these records. */
  ghost predicate PlannedWith(block: Expr, index: seq<int>, started: map<nat, nat>, needs: seq<set<nat>>)
    requires block.Where?
  {
    var n := |block.bindings|;
    WhereBlock.Planned(BlockGraph(block), n, block.plan.order + [n], index, started, needs, block.plan.recursive + [[]])
  }

  lemma PlanShape(block: Expr, index: seq<int>, started: map<nat, nat>, needs: seq<set<nat>>)
    requires block.Where? && PlannedWith(block, index, started, needs)
    ensures var n, order := |block.bindings|, block.plan.order;
      && |block.plan.recursive| == n && |index| == n + 1 && index[n] == |order|
      && (forall k | 0 <= k < |order| :: order[k] < n && index[order[k]] == k && PositionOf(order, order[k]) == k)
      && (forall x: nat | x < n && index[x] >= 0 :: x in order && PositionOf(order, x) == index[x])
  {
    var n, order := |block.bindings|, block.plan.order;
    var full := order + [n];
    assert full[|order|] == n;
    forall k | 0 <= k < |order| ensures order[k] < n && index[order[k]] == k && PositionOf(order, order[k]) == k {
      assert full[k] == order[k];
      var p := PositionOf(order, order[k]);
      assert full[p] == order[p];
    }
    forall x: nat | x < n && index[x] >= 0 ensures x in order && PositionOf(order, x) == index[x] {
      assert full[index[x]] == x;
      assert order[index[x]] == x;
    }
  }

  lemma ItsOwnParameter(block: Expr, index: seq<int>, started: map<nat, nat>, needs: seq<set<nat>>, i: nat, r: nat)
    requires block.Where? && PlannedWith(block, index, started, needs) && |block.plan.recursive| == |block.bindings|
    requires i < |block.bindings| && r in block.plan.recursive[i]
    ensures r < |block.bindings| && r < |index| && index[r] >= 0 && r in block.plan.recursive[r]
  {
    var n := |block.bindings|;
    var full, recursive := block.plan.order + [n], block.plan.recursive + [[]];
    assert recursive[i] == block.plan.recursive[i] && recursive[n] == [];
    WhereBlock.RecursiveVariableTakesItself(BlockGraph(block), n, full, index, started, needs, recursive, i, r);
    if r == n { assert false; }
    assert recursive[r] == block.plan.recursive[r];
  }

  lemma BlockIsWellPlanned(block: Expr)
    requires block.Where? && HasPlan(block)
    requires forall i | 0 <= i < |block.bindings| && i in block.plan.order && i < |block.plan.recursive| ::
               |block.plan.recursive[i]| <= 1
    ensures WellPlanned(block)
  {
    var index, started, needs :| PlannedWith(block, index, started, needs);
    PlanShape(block, index, started, needs);
    forall i | i in block.plan.order && block.plan.IsRecursive(i)
      ensures var r := block.plan.recursive[i];
              |r| == 1 && r[0] in block.plan.order && block.plan.recursive[r[0]] == r
    {
      SingleParameter(block, index, started, needs, i);
    }
  }

  lemma SingleParameter(block: Expr, index: seq<int>, started: map<nat, nat>, needs: seq<set<nat>>, i: nat)
    requires block.Where? && PlannedWith(block, index, started, needs) && i in block.plan.order
    requires |block.plan.recursive| == |block.bindings| && i < |block.bindings| && block.plan.IsRecursive(i)
    requires forall x: nat | x < |block.bindings| && x < |index| && index[x] >= 0 :: x in block.plan.order
    requires forall i | 0 <= i < |block.bindings| && i in block.plan.order && i < |block.plan.recursive| ::
               |block.plan.recursive[i]| <= 1
    ensures var r := block.plan.recursive[i];
            |r| == 1 && r[0] in block.plan.order && r[0] < |block.bindings| && block.plan.recursive[r[0]] == r
  {
    var r := block.plan.recursive[i][0];
    assert r in block.plan.recursive[i];
    ItsOwnParameter(block, index, started, needs, i, r);
    assert block.plan.recursive[r] == [r];
  }

  lemma MentionRecorded(block: Expr, index: seq<int>, started: map<nat, nat>, needs: seq<set<nat>>, b: nat, z: nat)
    requires block.Where? && PlannedWith(block, index, started, needs) && |block.plan.recursive| == |block.bindings|
    requires |index| == |block.bindings| + 1 && b <= |block.bindings| && index[b] >= 0 && z in BlockGraph(block)[b]
    ensures z < |block.bindings| && index[z] >= 0
    ensures index[b] <= index[z] ==> b < |block.bindings| && z in block.plan.recursive[b]
    ensures forall r | r in block.plan.recursive[z] ::
      r < |block.bindings| && index[r] >= 0
      && (index[b] <= index[r] ==> b < |block.bindings| && r in block.plan.recursive[b])
  {
    var n := |block.bindings|;
    var full, recursive := block.plan.order + [n], block.plan.recursive + [[]];
    WhereBlock.RecursiveVariablesFound(BlockGraph(block), n, full, index, started, needs, recursive, b, z);
    NeverTheBase(block, b, z);
    assert recursive[z] == block.plan.recursive[z];
    assert recursive[b] == if b < n then block.plan.recursive[b] else [];
    forall r | r in block.plan.recursive[z] ensures r < n {
      ItsOwnParameter(block, index, started, needs, z, r);
    }
  }

  /** Every mention of a sibling in the binding at `at` (or in the base) can be generated. */
  lemma MentionIsReady(block: Expr, at: nat, z: nat)
    requires block.Where? && HasPlan(block) && WellPlanned(block) && at <= |block.plan.order|
    requires z in BlockGraph(block)[if at == |block.plan.order| then |block.bindings| else block.plan.order[at]]
    ensures ReadyUse(block, at, z)
  {
    var index, started, needs :| PlannedWith(block, index, started, needs);
    PlanShape(block, index, started, needs);
    var b := if at == |block.plan.order| then |block.bindings| else block.plan.order[at];
    MentionRecorded(block, index, started, needs, b, z);
    MentionAvailable(block, at, z, index);
    if block.plan.IsRecursive(z) {
      var r := block.plan.recursive[z][0];
      assert r in block.plan.recursive[z];
      MentionAvailable(block, at, r, index);
    }
  }

  lemma MentionAvailable(block: Expr, at: nat, x: nat, index: seq<int>)
    requires WellPlanned(block) && at <= |block.plan.order|
    requires x in block.plan.order && x < |index| && PositionOf(block.plan.order, x) == index[x]
    requires at <= index[x] ==> at < |block.plan.order| && x in block.plan.recursive[block.plan.order[at]]
    ensures Available(block, at, x)
  {
    if at <= index[x] {
      assert block.plan.recursive[block.plan.order[at]][0] == x;
    }
  }

  lemma NeverTheBase(block: Expr, b: nat, z: nat)
    requires block.Where? && b <= |block.bindings| && z in BlockGraph(block)[b]
    ensures z < |block.bindings|
  {
  }

  lemma NeedOutside(needs: set<Need>, names: seq<string>, n: Need)
    requires n in needs && (n.0 in names ==> n.1 > 0)
    ensures (if n.0 in names then (n.0, n.1 - 1) else n) in Outside(needs, names)
  {
  }

  ghost predicate ReadyNeeds(needs: set<Need>, scope: seq<Definition>, table: seq<Literal>) {
    forall n | n in needs :: ReadyReference(n.0, n.1, scope, table)
  }

  ghost predicate Covers(table: seq<Literal>, literals: set<Literal>) {
    forall l | l in literals :: l in table
  }

  /** After planning, every lookup made while generating code succeeds, provided no binding
      takes more than one recursive variable. */
  lemma {:induction false} PlannedIsReady(e: Expr, scope: seq<Definition>, level: nat, table: seq<Literal>)
    requires PlannedTree(e) && SingleParameters(e) && Covers(table, Literals(e)) && ReadyNeeds(Needs(e), scope, table)
    ensures Ready(e, scope, level, table)
    decreases e, 2
  {
    match e
    case Variable(name, escape) => assert (name, escape) in Needs(e);
    case Lambda(params, body) => LambdaIsReady(params, body, scope, level, table);
    case Call(fn, arg) =>
      PlannedIsReady(fn, scope, level, table);
      PlannedIsReady(arg, scope, level, table);
    case Lit(_) =>
    case Where(_, _, _) => BlockIsReady(e, scope, level, table);
  }

  lemma {:induction false} BlockIsReady(block: Expr, scope: seq<Definition>, level: nat, table: seq<Literal>)
    requires block.Where? && PlannedTree(block) && SingleParameters(block)
    requires Covers(table, Literals(block)) && ReadyNeeds(Needs(block), scope, table)
    ensures Ready(block, scope, level, table)
    decreases block, 1
  {
    BlockIsWellPlanned(block);
    PartIsReady(block, |block.plan.order|, scope, level, table);
    forall at | 0 <= at < |block.plan.order|
      ensures Ready(block.bindings[block.plan.order[at]].value, [BlockPart(block, level, at)] + scope,
                    InsideLevel(block, level, at), table)
    {
      PartIsReady(block, at, scope, level, table);
    }
  }

  lemma {:induction false} LambdaIsReady(params: seq<string>, body: Expr, scope: seq<Definition>, level: nat, table: seq<Literal>)
    requires var e := Lambda(params, body);
      PlannedTree(e) && SingleParameters(e) && Covers(table, Literals(e)) && ReadyNeeds(Needs(e), scope, table)
    ensures Ready(body, [Params(params, level)] + scope, level + 1, table)
    decreases body, 3
  {
    var inside := [Params(params, level)] + scope;
    assert inside[1..] == scope;
    forall n | n in Needs(body) ensures ReadyReference(n.0, n.1, inside, table) {
      if n.0 in params && n.1 == 0 {
        if |params| != 1 { assert Integer(IndexOf(params, n.0)) in Literals(Lambda(params, body)); }
      } else {
        NeedOutside(Needs(body), params, n);
      }
    }
    PlannedIsReady(body, inside, level + 1, table);
  }

  function PartOf(block: Expr, at: nat): Expr
    requires WellPlanned(block) && at <= |block.plan.order|
  {
    if at == |block.plan.order| then block.base else block.bindings[block.plan.order[at]].value
  }

  lemma {:induction false} PartIsReady(block: Expr, at: nat, scope: seq<Definition>, level: nat, table: seq<Literal>)
    requires block.Where? && WellPlanned(block) && at <= |block.plan.order|
    requires PlannedTree(block) && SingleParameters(block) && Covers(table, Literals(block))
    requires ReadyNeeds(Needs(block), scope, table)
    ensures Ready(PartOf(block, at), [BlockPart(block, level, at)] + scope, InsideLevel(block, level, at), table)
    decreases block, 0
  {
    var inside, part := [BlockPart(block, level, at)] + scope, PartOf(block, at);
    forall n | n in Needs(part) ensures ReadyReference(n.0, n.1, inside, table) {
      NeedIsReady(block, at, scope, level, table, n);
    }
    forall l | l in Literals(part) ensures l in table { assert l in Literals(block); }
    PlannedIsReady(part, inside, InsideLevel(block, level, at), table);
  }

  lemma NeedIsReady(block: Expr, at: nat, scope: seq<Definition>, level: nat, table: seq<Literal>, n: Need)
    requires block.Where? && WellPlanned(block) && HasPlan(block) && at <= |block.plan.order|
    requires ReadyNeeds(Needs(block), scope, table) && n in Needs(PartOf(block, at))
    ensures ReadyReference(n.0, n.1, [BlockPart(block, level, at)] + scope, table)
  {
    var names, inside, part := Names(block.bindings), [BlockPart(block, level, at)] + scope, PartOf(block, at);
    assert inside[1..] == scope;
    if n.0 in names && n.1 == 0 {
      var b := if at == |block.plan.order| then |block.bindings| else block.plan.order[at];
      assert BlockGraph(block)[b] == Mentioned(Needs(part), names);
      assert IndexOf(names, n.0) in Mentioned(Needs(part), names);
      MentionIsReady(block, at, IndexOf(names, n.0));
    } else {
      var all := Needs(block.base) + (set i, n | 0 <= i < |block.bindings| && n in Needs(block.bindings[i].value) :: n);
      assert n in all;
      NeedOutside(all, names, n);
    }
  }

  // ---------------------------------------------------------------------------
  // Bindings with several recursive variables.

  /** The program text imports `path`. */
  predicate Mentions(e: Expr, path: string) {
    match e
    case Variable(_, _) => false
    case Lambda(_, body) => Mentions(body, path)
    case Call(fn, arg) => Mentions(fn, path) || Mentions(arg, path)
    case Lit(literal) => literal == Import(path)
    case Where(base, bindings, _) =>
      Mentions(base, path) || exists i | 0 <= i < |bindings| :: Mentions(bindings[i].value, path)
  }

  lemma TupleLiteralsImport(plan: Plan, from: nat, path: string)
    requires path != "builtin"
    ensures Import(path) !in TupleLiterals(plan, from)
    decreases |plan.order| - from
  {
  }

  /** Integers are registered up to the size of the first tuple only. */
  lemma {:induction false} TupleSizes(plan: Plan, from: nat, n: int)
    ensures Integer(n) in TupleLiterals(plan, from) <==>
      n >= 0 && exists k: nat :: IsFirstTuple(plan, from, k) && n <= |plan.recursive[plan.order[k]]|
    decreases |plan.order| - from
  {
    if from < |plan.order| {
      if TakesTuple(plan, from) {
        assert IsFirstTuple(plan, from, from);
      } else {
        TupleSizes(plan, from + 1, n);
        forall k: nat ensures IsFirstTuple(plan, from, k) <==> IsFirstTuple(plan, from + 1, k) {}
      }
    }
  }

  predicate TakesTuple(plan: Plan, k: nat) {
    k < |plan.order| && plan.order[k] < |plan.recursive| && |plan.recursive[plan.order[k]]| > 1
  }

  ghost predicate IsFirstTuple(plan: Plan, from: nat, k: nat) {
    from <= k && TakesTuple(plan, k) && forall j | from <= j < k :: !TakesTuple(plan, j)
  }

  /** Planning registers no import but "builtin".  A use of a binding with several recursive
      variables looks up the import "tuple": it is in the constant table exactly when the
      program text imports a module of that name itself. */
  lemma {:induction false} ImportsRegistered(e: Expr, path: string)
    requires path != "builtin"
    ensures Import(path) in Literals(e) <==> Mentions(e, path)
    decreases e
  {
    match e
    case Variable(_, _) =>
    case Lambda(_, body) => ImportsRegistered(body, path);
    case Call(fn, arg) =>
      ImportsRegistered(fn, path);
      ImportsRegistered(arg, path);
    case Lit(_) =>
    case Where(base, bindings, plan) =>
      ImportsRegistered(base, path);
      TupleLiteralsImport(plan, 0, path);
      forall i | 0 <= i < |bindings|
        ensures Import(path) in Literals(bindings[i].value) <==> Mentions(bindings[i].value, path)
      {
        ImportsRegistered(bindings[i].value, path);
      }
  }
}
