/** From a source program to the result the virtual machine delivers. */
module Program {
  import opened Values
  import opened CodeTree
  import opened Interpreter
  import opened Loader
  import opened Folding
  import opened Source
  import opened Compiler
  import opened CompilerCorrect

  // ---------------------------------------------------------------------------
  // Compiled code is always accepted by the loader.

  /** Every definition in scope belongs to one of the `level` functions around the code. */
  ghost predicate Fits(scope: seq<Definition>, level: nat) {
    forall k | 0 <= k < |scope| ::
      match scope[k]
      case Params(_, at) => at < level
      case BlockPart(block, blockLevel, at) => block.Where? && InsideLevel(block, blockLevel, at) <= level
  }

  lemma {:induction false} ReferenceInTable(name: string, escape: nat, scope: seq<Definition>, level: nat, table: seq<Literal>)
    requires ReadyReference(name, escape, scope, table) && Fits(scope, level)
    ensures InTable(CompileReference(name, escape, scope, level, table), level, |table|)
    decreases scope
  {
    if scope != [] {
      assert Fits(scope[1..], level) by {
        forall k | 0 <= k < |scope[1..]| ensures scope[1..][k] == scope[k + 1] {}
      }
      match scope[0]
      case Params(names, _) =>
        if name !in names {
          ReferenceInTable(name, escape, scope[1..], level, table);
        } else if escape > 0 {
          ReferenceInTable(name, escape - 1, scope[1..], level, table);
        }
      case BlockPart(block, blockLevel, at) =>
        match Find(block.bindings, name)
        case None => ReferenceInTable(name, escape, scope[1..], level, table);
        case Some(i) =>
          if escape > 0 {
            ReferenceInTable(name, escape - 1, scope[1..], level, table);
          } else {
            VariableInTable(block, blockLevel, at, i, level, table);
            if block.plan.IsRecursive(i) {
              VariableInTable(block, blockLevel, at, block.plan.recursive[i][0], level, table);
            }
          }
    }
  }

  lemma VariableInTable(block: Expr, blockLevel: nat, at: nat, i: nat, level: nat, table: seq<Literal>)
    requires WellPlanned(block) && Available(block, at, i) && InsideLevel(block, blockLevel, at) <= level
    ensures InTable(BindingVariable(block, blockLevel, at, i, level, table), level, |table|)
  {
  }

  lemma FitsInside(d: Definition, scope: seq<Definition>, level: nat, deeper: nat)
    requires Fits(scope, level) && level <= deeper
    requires match d
             case Params(_, at) => at < deeper
             case BlockPart(block, blockLevel, at) => block.Where? && InsideLevel(block, blockLevel, at) <= deeper
    ensures Fits([d] + scope, deeper)
  {
    forall k | 1 <= k < |[d] + scope| ensures ([d] + scope)[k] == scope[k - 1] {}
  }

  /** All the constants compiled code mentions are in its table. */
  lemma {:induction false} CompiledInTable(e: Expr, scope: seq<Definition>, level: nat, table: seq<Literal>)
    requires Ready(e, scope, level, table) && Fits(scope, level)
    ensures InTable(Compile(e, scope, level, table), level, |table|)
    decreases e
  {
    match e
    case Variable(name, escape) => ReferenceInTable(name, escape, scope, level, table);
    case Lambda(params, body) =>
      FitsInside(Params(params, level), scope, level, level + 1);
      CompiledInTable(body, [Params(params, level)] + scope, level + 1, table);
    case Call(fn, arg) =>
      CompiledInTable(fn, scope, level, table);
      CompiledInTable(arg, scope, level, table);
    case Lit(_) =>
    case Where(_, _, _) => BlockInTable(e, 0, scope, level, table);
  }

  lemma {:induction false} BlockInTable(block: Expr, at: nat, scope: seq<Definition>, level: nat, table: seq<Literal>)
    requires block.Where? && at <= |block.plan.order|
    requires Ready(block, scope, level, table) && Fits(scope, level)
    ensures InTable(CompileBlock(block, at, scope, level, table), level + at, |table|)
    decreases block, |block.plan.order| - at
  {
    var inside := InsideLevel(block, level, at);
    FitsInside(BlockPart(block, level, at), scope, level, inside);
    if at == |block.plan.order| {
      CompiledInTable(block.base, [BlockPart(block, level, at)] + scope, inside, table);
    } else {
      BlockInTable(block, at + 1, scope, level, table);
      CompiledInTable(block.bindings[block.plan.order[at]].value, [BlockPart(block, level, at)] + scope, inside, table);
      assert InTable(CompileBinding(block, at, scope, level, table), level + at, |table|);
    }
  }

  lemma {:induction false} UnfoldedDecodes(t: Term, at: nat, depth: nat, constants: seq<Val>)
    requires InTable(t, depth, |constants|)
    ensures Decodes(Unfolded(t, at, depth, constants), t, depth, constants)
  {
    match t
    case Var(_) =>
    case Abs(body) => UnfoldedDecodes(body, at + 1, depth + 1, constants);
    case App(fn, arg) =>
      UnfoldedDecodes(fn, at + 1, depth, constants);
      UnfoldedDecodes(arg, at + 1 + Size(fn), depth, constants);
  }

  // ---------------------------------------------------------------------------
  // The constant table.

  function ConstantValue(imports: map<string, Val>, l: Literal): Val {
    match l
    case Import(path) => if path in imports then imports[path] else Error("Unknown module: " + path)
    case Integer(i) => Int(i)
    case Atom(name) => Data(AtomTag(name), [])
    case Bytes(bytes) => Data(BytesTag(bytes), [])
  }

  function ConstantTable(imports: map<string, Val>, table: seq<Literal>): seq<Val> {
    seq(|table|, i requires 0 <= i < |table| => ConstantValue(imports, table[i]))
  }

  ghost predicate ImportsRepresented(source: map<string, SourceVal>, target: map<string, Val>) {
    source.Keys == target.Keys && forall path | path in source :: Represents(source[path], target[path])
  }

  ghost predicate ImportsWellScoped(imports: map<string, Val>) {
    forall path | path in imports :: WellScopedVal(imports[path])
  }

  // ---------------------------------------------------------------------------
  // The main theorem.

  /** `w` is what the machine delivers for the source value `v`. */
  ghost predicate Denotes(natives: Natives, v: SourceVal, w: Val) {
    exists u :: Represents(v, u) && EquivalentVal(natives, u, w)
  }

  ghost predicate Delivers(natives: Natives, node: Node, env: Environment, n: nat, w: Val) {
    Steps(natives, n, Start(node, env, FinalCallback)) == Deliver(FinalCallback, w)
  }

  ghost predicate ProgramDelivers(natives: Natives, node: Node, env: Environment, v: SourceVal) {
    exists n, w :: Delivers(natives, node, env, n, w) && Denotes(natives, v, w)
  }

  ghost predicate ProgramDenotes(natives: Natives, e: Expr, imports: map<string, SourceVal>, w: Val) {
    exists fuel: nat :: SourceYields(natives, fuel, e, imports, w)
  }

  ghost predicate SourceYields(natives: Natives, fuel: nat, e: Expr, imports: map<string, SourceVal>, w: Val) {
    var v := Eval(natives, fuel, e, Module(imports));
    v.Some? && Denotes(natives, v.value, w)
  }

  /** The hypotheses under which a program is compiled and loaded into `node` and `env`. */
  ghost predicate LoadedProgram(natives: Natives, e: Expr, table: seq<Literal>, source: map<string, SourceVal>,
                                target: map<string, Val>, loadFuel: nat, node: Node, env: Environment) {
    var constants := ConstantTable(target, table);
    var t := Compile(e, [], 0, table);
    && Ready(e, [], 0, table)
    && ImportsRepresented(source, target) && ImportsWellScoped(target)
    && env.Root? && env.constants == constants
    && Load(natives, loadFuel, t, 0, 0, constants) == Loaded(node)
  }

  /** Compiling a ready program produces code the loader cannot reject, and which keeps inside the
      constant table. */
  lemma CompiledCodeIsAccepted(natives: Natives, e: Expr, table: seq<Literal>, target: map<string, Val>, loadFuel: nat)
    requires Ready(e, [], 0, table)
    ensures var t, constants := Compile(e, [], 0, table), ConstantTable(target, table);
      && InTable(t, 0, |constants|)
      && (Load(natives, loadFuel, t, 0, 0, constants).Loaded? || Load(natives, loadFuel, t, 0, 0, constants) == OutOfFuel)
  {
    CompiledInTable(e, [], 0, table);
    LoadingOutcomes(natives, loadFuel, Compile(e, [], 0, table), 0, 0, ConstantTable(target, table));
  }

  /** The loaded code, before folding, run in the root environment, matches the source program
      fuel for fuel. */
  lemma UnfoldedProgramMatches(natives: Natives, e: Expr, table: seq<Literal>, source: map<string, SourceVal>,
                               target: map<string, Val>, loadFuel: nat, node: Node, env: Environment, fuel: nat)
    requires LoadedProgram(natives, e, table, source, target, loadFuel, node, env)
    ensures InTable(Compile(e, [], 0, table), 0, |env.constants|)
    ensures Matches(Eval(natives, fuel, e, Module(source)),
                    Evaluate(natives, fuel, Unfolded(Compile(e, [], 0, table), 0, 0, env.constants), env))
  {
    var t := Compile(e, [], 0, table);
    CompiledInTable(e, [], 0, table);
    UnfoldedDecodes(t, 0, 0, env.constants);
    FlattenLength(env);
    Simulated(natives, fuel, e, table, Module(source), [], 0, env, Unfolded(t, 0, 0, env.constants));
  }

  lemma LoadedEquivalent(natives: Natives, e: Expr, table: seq<Literal>, source: map<string, SourceVal>,
                         target: map<string, Val>, loadFuel: nat, node: Node, env: Environment)
    requires LoadedProgram(natives, e, table, source, target, loadFuel, node, env)
    ensures InTable(Compile(e, [], 0, table), 0, |env.constants|)
    ensures SameBehaviour(natives, Unfolded(Compile(e, [], 0, table), 0, 0, env.constants), env, node, env)
  {
    var t := Compile(e, [], 0, table);
    forall i | 0 <= i < |env.constants| ensures EquivalentVal(natives, env.constants[i], env.constants[i]) {
      EquivalentToSelf(natives, env.constants[i]);
    }
    UnfoldedBehavesTheSame(natives, loadFuel, t, 0, 0, env.constants, env.constants, env, env);
  }

  lemma DenotesThrough(natives: Natives, v: Option<SourceVal>, u: Option<Val>, w: Val)
    requires Matches(v, u) && u.Some? && EquivalentVal(natives, u.value, w)
    ensures v.Some? && Denotes(natives, v.value, w)
  {
  }

  /** Whatever the source program evaluates to, the machine delivers. */
  lemma ProgramRuns(natives: Natives, e: Expr, table: seq<Literal>, source: map<string, SourceVal>,
                    target: map<string, Val>, loadFuel: nat, node: Node, env: Environment, fuel: nat)
    requires LoadedProgram(natives, e, table, source, target, loadFuel, node, env)
    requires Eval(natives, fuel, e, Module(source)).Some?
    ensures ProgramDelivers(natives, node, env, Eval(natives, fuel, e, Module(source)).value)
  {
    UnfoldedProgramMatches(natives, e, table, source, target, loadFuel, node, env, fuel);
    LoadedEquivalent(natives, e, table, source, target, loadFuel, node, env);
    var plain := Unfolded(Compile(e, [], 0, table), 0, 0, env.constants);
    var g: nat :| Agree(natives, fuel, plain, env, g, node, env);
    var w := Evaluate(natives, g, node, env).value;
    var n := MachineComputes(natives, g, node, env, FinalCallback);
    assert Delivers(natives, node, env, n, w);
    DenotesThrough(natives, Eval(natives, fuel, e, Module(source)), Evaluate(natives, fuel, plain, env), w);
  }

  /** Whatever the machine delivers, the source program evaluates to. */
  lemma DeliveryIsMeant(natives: Natives, e: Expr, table: seq<Literal>, source: map<string, SourceVal>,
                        target: map<string, Val>, loadFuel: nat, node: Node, env: Environment, n: nat, w: Val)
    requires LoadedProgram(natives, e, table, source, target, loadFuel, node, env)
    requires Delivers(natives, node, env, n, w)
    ensures ProgramDenotes(natives, e, source, w)
  {
    LoadedEquivalent(natives, e, table, source, target, loadFuel, node, env);
    var plain := Unfolded(Compile(e, [], 0, table), 0, 0, env.constants);
    DeliveredEvaluates(natives, n, node, env, w);
    var f := AgreeingFuel(natives, plain, env, node, n);
    UnfoldedProgramMatches(natives, e, table, source, target, loadFuel, node, env, f);
    DenotesThrough(natives, Eval(natives, f, e, Module(source)), Evaluate(natives, f, plain, env), w);
    assert SourceYields(natives, f, e, source, w);
  }

  lemma AgreeingFuel(natives: Natives, plain: Node, env: Environment, node: Node, g: nat) returns (f: nat)
    requires SameBehaviour(natives, plain, env, node, env) && Evaluate(natives, g, node, env).Some?
    ensures Agree(natives, f, plain, env, g, node, env)
  {
    f :| Agree(natives, f, plain, env, g, node, env);
  }

  // ---------------------------------------------------------------------------
  // Results without functions in them are delivered literally.

  function Literally<C>(v: V<C>): Val
    requires FunctionFree(v)
  {
    Data(v.tag, seq(|v.parts|, i requires 0 <= i < |v.parts| => Literally(v.parts[i])))
  }

  lemma {:induction false} RepresentedLiterally(v: SourceVal, u: Val)
    requires FunctionFree(v) && Represents(v, u)
    ensures u == Literally(v)
    decreases v
  {
    forall i | 0 <= i < |v.parts| ensures u.parts[i] == Literally(v.parts[i]) {
      RepresentedLiterally(v.parts[i], u.parts[i]);
    }
    assert u.parts == Literally(v).parts;
  }

  lemma {:induction false} LiteralEquivalence(natives: Natives, v: SourceVal, w: Val)
    requires FunctionFree(v) && EquivalentVal(natives, Literally(v), w)
    ensures w == Literally(v)
    decreases v
  {
    var u := Literally(v);
    forall i | 0 <= i < |v.parts| ensures w.parts[i] == u.parts[i] {
      LiteralEquivalence(natives, v.parts[i], w.parts[i]);
    }
    assert w.parts == u.parts;
  }

  /** A program that evaluates to data makes the machine deliver exactly that data. */
  lemma DataDeliveredLiterally(natives: Natives, v: SourceVal, w: Val)
    requires FunctionFree(v) && Denotes(natives, v, w)
    ensures w == Literally(v)
  {
    var u :| Represents(v, u) && EquivalentVal(natives, u, w);
    RepresentedLiterally(v, u);
    LiteralEquivalence(natives, v, w);
  }
}
