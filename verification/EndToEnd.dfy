/** What the machine delivers is what the program's recursive definitions mean. */
module EndToEnd {
  import opened Values
  import opened CodeTree
  import opened Interpreter
  import opened Loader
  import opened Folding
  import opened Source
  import opened Compiler
  import opened CompilerCorrect
  import opened Program
  import opened Letrec
  import opened LetrecCorrect
  import opened Delivery
  import opened Demand
  import opened Frontend
  import Lookups
  import PlanExamples

  ghost predicate ImportsMean(natives: Natives, eager: bool, source: map<string, SourceVal>, meaning: map<string, Meaning>) {
    ScopeMeans(natives, eager, [], Module(source), [], Top(meaning))
  }

  /** `w` is what the machine delivers for something that means `m`. */
  ghost predicate Delivered(natives: Natives, eager: bool, m: Meaning, w: Val) {
    exists v :: Means(natives, eager, v, m) && Denotes(natives, v, w)
  }

  /** The hypotheses of the theorems below: the program was planned, compiled and loaded, and the
      modules that it imports mean `meaning`. */
  ghost predicate Installed(natives: Natives, eager: bool, planned: Expr, table: seq<Literal>, source: map<string, SourceVal>,
                            target: map<string, Val>, meaning: map<string, Meaning>, loadFuel: nat, node: Node, env: Environment) {
    && PlannedTree(planned)
    && LoadedProgram(natives, planned, table, source, target, loadFuel, node, env)
    && ImportsMean(natives, eager, source, meaning)
  }

  /** Whatever the machine delivers for a program, however its blocks were planned, is what the
      unplanned program means. */
  lemma DeliveryHasMeaning(natives: Natives, eager: bool, planned: Expr, table: seq<Literal>, source: map<string, SourceVal>,
                           target: map<string, Val>, meaning: map<string, Meaning>, loadFuel: nat,
                           node: Node, env: Environment, n: nat, w: Val) returns (g: nat)
    requires Installed(natives, eager, planned, table, source, target, meaning, loadFuel, node, env)
    requires Delivers(natives, node, env, n, w)
    ensures var m := Denote(natives, eager, g, Erase(planned), Top(meaning));
            m.Some? && Delivered(natives, eager, m.value, w)
  {
    DeliveryIsMeant(natives, planned, table, source, target, loadFuel, node, env, n, w);
    var fuel: nat :| SourceYields(natives, fuel, planned, source, w);
    PlannedIsExact(planned);
    g := PlannedEvaluationMeans(natives, eager, fuel, planned, table, source, Top(meaning));
  }

  ghost predicate DeliversSomething(natives: Natives, node: Node, env: Environment) {
    exists n, w :: Delivers(natives, node, env, n, w)
  }

  /** The machine delivers a result exactly when the unplanned program, demanding what its base
      expressions depend on, has a meaning. */
  lemma DeliversIffMeant(natives: Natives, planned: Expr, table: seq<Literal>, source: map<string, SourceVal>,
                         target: map<string, Val>, meaning: map<string, Meaning>, loadFuel: nat, node: Node, env: Environment)
    requires Installed(natives, true, planned, table, source, target, meaning, loadFuel, node, env)
    ensures DeliversSomething(natives, node, env) <==> HasMeaning(natives, true, Erase(planned), Top(meaning))
  {
    if DeliversSomething(natives, node, env) {
      var n, w :| Delivers(natives, node, env, n, w);
      var g := DeliveryHasMeaning(natives, true, planned, table, source, target, meaning, loadFuel, node, env, n, w);
    }
    if HasMeaning(natives, true, Erase(planned), Top(meaning)) {
      PlannedIsExact(planned);
      EvaluatesIffDenoted(natives, planned, table, source, Top(meaning));
      ValueDelivered(natives, planned, table, source, target, loadFuel, node, env);
    }
  }

  lemma ValueDelivered(natives: Natives, planned: Expr, table: seq<Literal>, source: map<string, SourceVal>,
                       target: map<string, Val>, loadFuel: nat, node: Node, env: Environment)
    requires LoadedProgram(natives, planned, table, source, target, loadFuel, node, env) && HasValue(natives, planned, source)
    ensures DeliversSomething(natives, node, env)
  {
    var fuel: nat :| Eval(natives, fuel, planned, Module(source)).Some?;
    ProgramRuns(natives, planned, table, source, target, loadFuel, node, env, fuel);
  }

  /** And what it delivers is that meaning, whatever fuel that was found with. */
  lemma DeliversMeaning(natives: Natives, eager: bool, planned: Expr, table: seq<Literal>, source: map<string, SourceVal>,
                        target: map<string, Val>, meaning: map<string, Meaning>, loadFuel: nat,
                        node: Node, env: Environment, n: nat, w: Val, g: nat)
    requires Installed(natives, eager, planned, table, source, target, meaning, loadFuel, node, env)
    requires Delivers(natives, node, env, n, w) && Denote(natives, eager, g, Erase(planned), Top(meaning)).Some?
    ensures Delivered(natives, eager, Denote(natives, eager, g, Erase(planned), Top(meaning)).value, w)
  {
    var h := DeliveryHasMeaning(natives, eager, planned, table, source, target, meaning, loadFuel, node, env, n, w);
    DenoteMore(natives, eager, g, g + h, Erase(planned), Top(meaning));
    DenoteMore(natives, eager, h, g + h, Erase(planned), Top(meaning));
  }

  lemma EagernessImmaterial(natives: Natives, e: Expr, t: Definitions)
    requires Undemanding(e) && UndemandingScope(t)
    ensures HasMeaning(natives, true, e, t) <==> HasMeaning(natives, false, e, t)
  {
    if HasMeaning(natives, true, e, t) {
      var g: nat :| Denote(natives, true, g, e, t).Some?;
      EagernessIrrelevant(natives, g, e, t);
    }
    if HasMeaning(natives, false, e, t) {
      var g: nat :| Denote(natives, false, g, e, t).Some?;
      EagernessIrrelevant(natives, g, e, t);
    }
  }

  /** If all the bindings it demands are functions and literals, a program is delivered exactly
      when its mutually recursive definitions mean something. */
  lemma UndemandingDelivered(natives: Natives, planned: Expr, table: seq<Literal>, source: map<string, SourceVal>,
                             target: map<string, Val>, meaning: map<string, Meaning>, loadFuel: nat, node: Node, env: Environment)
    requires Installed(natives, true, planned, table, source, target, meaning, loadFuel, node, env)
    requires Undemanding(Erase(planned)) && UndemandingScope(Top(meaning))
    ensures DeliversSomething(natives, node, env) <==> HasMeaning(natives, false, Erase(planned), Top(meaning))
  {
    DeliversIffMeant(natives, planned, table, source, target, meaning, loadFuel, node, env);
    EagernessImmaterial(natives, Erase(planned), Top(meaning));
  }

  lemma {:induction false} MeansLiterally(natives: Natives, eager: bool, v: SourceVal, m: Meaning)
    requires Means(natives, eager, v, m) && FunctionFree(m)
    ensures FunctionFree(v) && Literally(v) == Literally(m)
    decreases m
  {
    forall i | 0 <= i < |m.parts| ensures FunctionFree(v.parts[i]) && Literally(v.parts[i]) == Literally(m.parts[i]) {
      MeansLiterally(natives, eager, v.parts[i], m.parts[i]);
    }
    assert Literally(v).parts == Literally(m).parts;
  }

  lemma DataDelivered(natives: Natives, eager: bool, m: Meaning, w: Val)
    requires Delivered(natives, eager, m, w) && FunctionFree(m)
    ensures w == Literally(m)
  {
    var v :| Means(natives, eager, v, m) && Denotes(natives, v, w);
    MeansLiterally(natives, eager, v, m);
    DataDeliveredLiterally(natives, v, w);
  }

  /** How a program is planned does not matter: two compilations that both deliver a result
      deliver the same data. */
  lemma PlansAgree(natives: Natives, eager: bool, planned: Expr, table: seq<Literal>, loadFuel: nat, node: Node, env: Environment, n: nat, w: Val,
                   planned': Expr, table': seq<Literal>, loadFuel': nat, node': Node, env': Environment, n': nat, w': Val,
                   source: map<string, SourceVal>, target: map<string, Val>, meaning: map<string, Meaning>)
    requires Erase(planned) == Erase(planned')
    requires Installed(natives, eager, planned, table, source, target, meaning, loadFuel, node, env)
    requires Installed(natives, eager, planned', table', source, target, meaning, loadFuel', node', env')
    requires Delivers(natives, node, env, n, w) && Delivers(natives, node', env', n', w')
    ensures exists m :: Delivered(natives, eager, m, w) && Delivered(natives, eager, m, w') && (FunctionFree(m) ==> w == w')
  {
    var g := DeliveryHasMeaning(natives, eager, planned, table, source, target, meaning, loadFuel, node, env, n, w);
    DeliversMeaning(natives, eager, planned', table', source, target, meaning, loadFuel', node', env', n', w', g);
    var m := Denote(natives, eager, g, Erase(planned), Top(meaning)).value;
    if FunctionFree(m) {
      DataDelivered(natives, eager, m, w);
      DataDelivered(natives, eager, m, w');
    }
  }

  // ---------------------------------------------------------------------------
  // Without those demands it is not so: a block computes the bindings its base expression refers
  // to, whether or not their values turn out to be needed.

  function SelfCall(): Expr { Call(Expr.Variable("x", 0), Expr.Variable("x", 0)) }

  function Twice(): Expr { Lambda(["x"], SelfCall()) }

  /** y, under a parameter x, where y = (x => x(x))(x => x(x)). */
  function NeedlesslyEager(): Expr {
    Where(Lambda(["x"], Expr.Variable("y", 0)), [Binding("y", Call(Twice(), Twice()))], Plan([0], [[]]))
  }

  lemma {:induction false} SelfCallDiverges(natives: Natives, fuel: nat, s: Scope)
    ensures var w: SourceVal := Closure(SourceClosure(["x"], SelfCall(), s));
            CallValue(natives, fuel, w, w) == None
  {
    if fuel > 0 {
      var w: SourceVal := Closure(SourceClosure(["x"], SelfCall(), s));
      assert Eval(natives, fuel - 1, Expr.Variable("x", 0), Parameters(["x"], w, s)) == Some(w);
      SelfCallDiverges(natives, fuel - 1, s);
    }
  }

  lemma EagerDiverges(natives: Natives, fuel: nat, imports: map<string, SourceVal>)
    ensures Eval(natives, fuel, NeedlesslyEager(), Module(imports)) == None
  {
    var s := Block(NeedlesslyEager(), map[], Module(imports));
    SelfCallDiverges(natives, fuel, s);
    assert Eval(natives, fuel, Twice(), s) == Some(Closure(SourceClosure(["x"], SelfCall(), s)));
    assert Eval(natives, fuel, Call(Twice(), Twice()), s) == None;
    assert EvalBlock(natives, fuel, NeedlesslyEager(), 0, map[], Module(imports)) == None;
  }

  lemma EagerNeeds(block: Expr)
    requires block == NeedlesslyEager()
    ensures Needs(block.bindings[0].value) == {} && Needs(block.base) == {("y", 0)}
  {
    assert Needs(SelfCall()) == {("x", 0)};
    assert Needs(Twice()) == {};
    assert Needs(Expr.Variable("y", 0)) == {("y", 0)};
    assert ("y", 0) in Outside({("y", 0)}, ["x"]);
  }

  lemma EagerNames(block: Expr)
    requires block == NeedlesslyEager()
    ensures Names(block.bindings) == ["y"]
    ensures forall needs :: Mentioned(needs, Names(block.bindings)) == if ("y", 0) in needs then {0} else {}
  {
    var names := Names(block.bindings);
    assert names == ["y"];
    forall needs ensures Mentioned(needs, names) == if ("y", 0) in needs then {0} else {} {
      assert IndexOf(names, "y") == 0;
    }
  }

  lemma EagerGraph(block: Expr)
    requires block == NeedlesslyEager()
    ensures BlockGraph(block) == PlanExamples.CHAIN
  {
    EagerNeeds(block);
    EagerNames(block);
    var graph := BlockGraph(block);
    assert graph[0] == Mentioned(Needs(block.bindings[0].value), Names(block.bindings)) == {};
    assert graph[1] == Mentioned(Needs(block.base), Names(block.bindings)) == {0};
  }

  lemma EagerNeedsNothing(block: Expr)
    requires block == NeedlesslyEager()
    ensures Needs(block) == {}
  {
    EagerNeeds(block);
    EagerNames(block);
    assert Needs(block) <= Outside({("y", 0)}, ["y"]);
  }

  lemma EagerLiterals(block: Expr)
    requires block == NeedlesslyEager()
    ensures Literals(block) == {}
  {
    assert Literals(Twice()) == {};
    assert Literals(block.bindings[0].value) == {} && Literals(block.base) == {};
    assert !TakesTuple(block.plan, 0);
  }

  lemma EagerPlanned(block: Expr, order: seq<nat>, index: seq<int>, started: map<nat, nat>, recursive: seq<seq<nat>>)
    requires block.Where? && BlockGraph(block) == PlanExamples.CHAIN && |block.bindings| == 1
    requires block.plan.order + [1] == order && block.plan.recursive + [[]] == recursive
    requires order == [0, 1] && recursive == [[], []] && index == [0, 1] && started == map[0 := 0, 1 := 0]
    ensures HasPlan(block)
  {
    PlanExamples.ChainPlanned(PlanExamples.CHAIN, index, started, recursive);
    Lookups.PlannedAs(block, PlanExamples.CHAIN, order, index, started, PlanExamples.CHAIN, recursive);
  }

  lemma EagerHasPlan(block: Expr)
    requires block == NeedlesslyEager()
    ensures PlannedTree(block)
  {
    EagerGraph(block);
    EagerPlanned(block, block.plan.order + [1], [0, 1], map[0 := 0, 1 := 0], block.plan.recursive + [[]]);
    assert PlannedTree(Twice());
  }

  /** Code without constants always loads, and there is nothing in it to fold. */
  lemma {:induction false} WithoutConstantsLoads(natives: Natives, t: Term, at: nat, depth: nat)
    requires InTable(t, depth, 0)
    ensures var loaded := Load(natives, 0, t, at, depth, []); loaded.Loaded? && !loaded.node.Constant?
  {
    match t
    case Var(_) =>
    case Abs(body) => WithoutConstantsLoads(natives, body, at + 1, depth + 1);
    case App(fn, arg) =>
      WithoutConstantsLoads(natives, fn, at + 1, depth);
      WithoutConstantsLoads(natives, arg, at + 1 + Size(fn), depth);
  }

  lemma EagerReady(block: Expr)
    requires block == NeedlesslyEager() && PlannedTree(block)
    ensures Ready(block, [], 0, [])
  {
    EagerNeedsNothing(block);
    EagerLiterals(block);
    EagerTakesNothing(block);
    PlannedIsReady(block, [], 0, []);
  }

  lemma EagerTakesNothing(block: Expr)
    requires block == NeedlesslyEager()
    ensures SingleParameters(block)
  {
    assert SingleParameters(Twice());
    assert block.plan.recursive[0] == [];
  }

  lemma EagerInstalled(natives: Natives, block: Expr, env: Environment) returns (node: Node)
    requires block == NeedlesslyEager() && env.Root? && env.constants == []
    ensures Installed(natives, true, block, [], map[], map[], map[], 0, node, env)
  {
    EagerHasPlan(block);
    EagerReady(block);
    node := ReadyLoads(natives, block, env);
  }

  lemma ReadyLoads(natives: Natives, e: Expr, env: Environment) returns (node: Node)
    requires Ready(e, [], 0, []) && env.Root? && env.constants == []
    ensures LoadedProgram(natives, e, [], map[], map[], 0, node, env)
  {
    var t := Compile(e, [], 0, []);
    CompiledInTable(e, [], 0, []);
    WithoutConstantsLoads(natives, t, 0, 0);
    assert ConstantTable(map[], []) == [];
    node := Load(natives, 0, t, 0, 0, []).node;
  }

  /** A program that means something at once but is never delivered: its base expression is a
      function that would use a diverging binding if it were called. */
  lemma MeaningWithoutDelivery(natives: Natives, env: Environment) returns (node: Node)
    requires env.Root? && env.constants == []
    ensures Installed(natives, true, NeedlesslyEager(), [], map[], map[], map[], 0, node, env)
    ensures HasMeaning(natives, false, Erase(NeedlesslyEager()), Top(map[]))
    ensures !DeliversSomething(natives, node, env)
  {
    node := EagerInstalled(natives, NeedlesslyEager(), env);
    assert Denote(natives, false, 0, Erase(NeedlesslyEager()), Top(map[])).Some?;
    if DeliversSomething(natives, node, env) {
      var n, w :| Delivers(natives, node, env, n, w);
      DeliveryIsMeant(natives, NeedlesslyEager(), [], map[], map[], 0, node, env, n, w);
      var fuel: nat :| SourceYields(natives, fuel, NeedlesslyEager(), map[], w);
      EagerDiverges(natives, fuel, map[]);
      assert false;
    }
  }
}
