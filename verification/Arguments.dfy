/** How arguments reach parameters: several are built into a tuple, one after another, and every
    parameter reads the tuple at its own position. */
module Arguments {
  import opened Values
  import opened Source
  import opened CompilerCorrect
  import opened Program
  import CodeTree
  import C = Compiler
  import G = Grammar
  import I = Interpreter
  import L = Letrec
  import P = Printing

  // ---------------------------------------------------------------------------
  // Reading tuples.

  /** What calling a tuple gives: the member at that position, or an error. */
  function Member<D>(parts: seq<V<D>>, a: V<D>): V<D> {
    if a.Data? && a.tag.ErrorTag? then a
    else if !a.Data? || !a.tag.IntTag? then Error("Tuple index must be integer.")
    else if 0 <= a.tag.i < |parts| then parts[a.tag.i]
    else Error("Tuple index out of bounds.")
  }

  lemma TupleCalled(natives: Natives, fuel: nat, parts: seq<I.Val>, a: I.Val, k: I.Word)
    ensures I.Apply(natives, fuel, Data(TupleTag, parts), a) == Some(Member(parts, a))
    ensures forall i | 0 <= i < |parts| && a == Int(i) :: I.Apply(natives, fuel, Data(TupleTag, parts), a) == Some(parts[i])
    ensures I.Step(natives, I.Registers(I.Plain(Data(TupleTag, parts)), I.Plain(a), k)) == I.Deliver(k, Member(parts, a))
  {
    TupleActs(natives, parts, a);
  }

  lemma TupleActs<D>(natives: Natives, parts: seq<V<D>>, a: V<D>)
    ensures var tuple := Data(TupleTag, parts);
      var action := NativeAction(natives, ShapeOf(tuple), ShapeOf(a));
      action.Return? && Cook(action.result, tuple, a) == Member(parts, a)
  {
    Shaped(Data(TupleTag, parts));
    Shaped(a);
  }

  lemma Shaped<D>(v: V<D>)
    ensures if v.Data? then ShapeOf(v).DataShape? && ShapeOf(v).tag == v.tag && |ShapeOf(v).parts| == |v.parts|
            else ShapeOf(v).Opaque?
  {
  }

  lemma ErrorCalled(natives: Natives, fuel: nat, text: string, a: I.Val)
    ensures I.Apply(natives, fuel, Error(text), a) == Some(Error(text))
  {
  }

  // ---------------------------------------------------------------------------
  // Parameters.

  predicate Distinct(params: seq<string>) { forall i, j | 0 <= i < j < |params| :: params[i] != params[j] }

  /** A function of these parameters that returns the `i`-th. */
  function Projection(params: seq<string>, i: nat): Expr
    requires i < |params|
  {
    Lambda(params, Variable(params[i], 0))
  }

  lemma OwnPosition(params: seq<string>, i: nat)
    requires Distinct(params) && i < |params|
    ensures IndexOf(params, params[i]) == i
  {
    assert params[IndexOf(params, params[i])] == params[i];
  }

  /** Source programs: each of several parameters stands for the argument at its position. */
  lemma ParameterEvaluated(natives: Natives, fuel: nat, params: seq<string>, i: nat, parts: seq<SourceVal>, s: Scope)
    requires fuel > 0 && Distinct(params) && 1 < |params| <= |parts| && i < |params|
    ensures Eval(natives, fuel, Projection(params, i), s).Some?
    ensures CallValue(natives, fuel, Eval(natives, fuel, Projection(params, i), s).value, Data(TupleTag, parts)) == Some(parts[i])
  {
    OwnPosition(params, i);
    var tuple: SourceVal := Data(TupleTag, parts);
    TupleActs(natives, parts, Int(i));
    var inside := Parameters(params, tuple, s);
    assert Reference(natives, fuel - 1, params[i], 0, inside) == CallValue(natives, fuel - 1, tuple, Int(i));
  }

  /** Meanings: the same. */
  lemma ParameterDenoted(natives: Natives, eager: bool, fuel: nat, params: seq<string>, i: nat, parts: seq<L.Meaning>, s: L.Definitions)
    requires fuel > 0 && Distinct(params) && 1 < |params| <= |parts| && i < |params|
    ensures L.Denote(natives, eager, fuel, Projection(params, i), s).Some?
    ensures L.Invoke(natives, eager, fuel, L.Denote(natives, eager, fuel, Projection(params, i), s).value, Data(TupleTag, parts))
         == Some(parts[i])
  {
    OwnPosition(params, i);
    var tuple: L.Meaning := Data(TupleTag, parts);
    TupleActs(natives, parts, Int(i));
    var inside := L.Bound(params, tuple, s);
    assert L.Mention(natives, eager, fuel - 1, params[i], 0, inside) == L.Invoke(natives, eager, fuel - 1, tuple, Int(i));
  }

  /** The machine, running compiled code: the same. */
  lemma ParameterDelivered(natives: Natives, fuel: nat, params: seq<string>, i: nat, parts: seq<I.Val>,
                           table: seq<Literal>, imports: map<string, I.Val>, scope: seq<C.Definition>,
                           env: I.Environment, node: I.Node, k: I.Word) returns (f: I.Val, n: nat)
    requires fuel > 0 && Distinct(params) && 1 < |params| <= |parts| && i < |params| && Integer(i) in table
    requires I.Bottom(env).constants == ConstantTable(imports, table)
    requires Decodes(node, C.Compile(Projection(params, i), scope, I.Depth(env), table), I.Depth(env), I.Bottom(env).constants)
    ensures I.Evaluate(natives, fuel, node, env) == Some(f)
    ensures I.Apply(natives, fuel, f, Data(TupleTag, parts)) == Some(parts[i])
    ensures I.Steps(natives, n, I.Registers(I.Plain(f), I.Plain(Data(TupleTag, parts)), k)) == I.Deliver(k, parts[i])
  {
    OwnPosition(params, i);
    f := Closure(I.FunctionData(env, node.body, node.codeIndex));
    var tuple: I.Val := Data(TupleTag, parts);
    var inside := I.Frame([tuple], f.c);
    ParameterRead(natives, fuel - 1, params, i, parts, table, imports, scope, inside, node.body);
    var start := I.Registers(I.Plain(f), I.Plain(tuple), k);
    assert I.Step(natives, start) == I.Start(node.body, inside, k);
    var m := I.MachineComputes(natives, fuel - 1, node.body, inside, k);
    n := 1 + m;
    I.StepsAdd(natives, 1, m, start);
    assert I.Steps(natives, 1, start) == I.Steps(natives, 0, I.Step(natives, start));
  }

  /** Inside the function, the parameter is the innermost value. */
  lemma ParameterRead(natives: Natives, fuel: nat, params: seq<string>, i: nat, parts: seq<I.Val>, table: seq<Literal>,
                      imports: map<string, I.Val>, scope: seq<C.Definition>, env: I.Environment, node: I.Node)
    requires Distinct(params) && 1 < |params| <= |parts| && i < |params| && Integer(i) in table
    requires env.Frame? && env.values == [Data(TupleTag, parts)] && I.Bottom(env).constants == ConstantTable(imports, table)
    requires var level := I.Depth(env.parent.environment);
      Decodes(node, C.Compile(Variable(params[i], 0), [C.Params(params, level)] + scope, level + 1, table), level + 1,
              I.Bottom(env).constants)
    ensures I.Evaluate(natives, fuel, node, env) == Some(parts[i])
  {
    OwnPosition(params, i);
    var level := I.Depth(env.parent.environment);
    var inside := [C.Params(params, level)] + scope;
    assert inside[0] == C.Params(params, level);
    assert C.CompileReference(params[i], 0, inside, level + 1, table)
        == CodeTree.App(C.Local(level + 1, level), C.Global(level + 1, table, Integer(i)));
    assert node.Application? && node.fn == I.Node.Variable(0) && node.arg == I.Constant(Int(i));
    TupleCalled(natives, fuel, parts, Int(i), I.Nothing);
  }

  // ---------------------------------------------------------------------------
  // Building tuples.

  /** What the next member does to a builder that waits for `k` members: it is kept behind the others
      by a builder that waits for one less, or completes the tuple. */
  function AddMember(builder: nat -> Tag, k: nat, count: nat): Action
    requires k > 0
  {
    Return(Make(if k == 1 then TupleTag else builder(k - 1),
                seq(count, i requires 0 <= i < count => Part(TheFunction, i)) + [TheArgument]))
  }

  /** The native functions include tuple builders; `builder(k)` is the tag of one that waits for `k` members. */
  ghost predicate BuildsTuples(natives: Natives, builder: nat -> Tag) {
    && (forall k :: builder(k) != TupleTag && !builder(k).ErrorTag?)
    && forall k, members, a | k > 0 :: natives(DataShape(builder(k), members), a) == AddMember(builder, k, |members|)
  }

  /** A builder of `size` members, the first of which are there. */
  function Building<D>(builder: nat -> Tag, size: nat, members: seq<V<D>>): V<D>
    requires |members| <= size
  {
    Data(if |members| == size then TupleTag else builder(size - |members|), members)
  }

  lemma MemberAdded<D>(natives: Natives, builder: nat -> Tag, size: nat, members: seq<V<D>>, a: V<D>)
    requires BuildsTuples(natives, builder) && |members| < size
    ensures var b := Building(builder, size, members);
      var action := NativeAction(natives, ShapeOf(b), ShapeOf(a));
      action.Return? && Cook(action.result, b, a) == Building(builder, size, members + [a])
  {
    var b := Building(builder, size, members);
    Shaped(b);
    var recipe := AddMember(builder, size - |members|, |members|).result;
    var cooked := Cook(recipe, b, a);
    assert |cooked.parts| == |members| + 1;
    forall i | 0 <= i < |members| + 1 ensures cooked.parts[i] == (members + [a])[i] {
      var ingredient := if i < |members| then Part(TheFunction, i) else TheArgument;
      assert recipe.ingredients[i] == ingredient && cooked.parts[i] == Cook(ingredient, b, a);
    }
    assert cooked.parts == members + [a];
  }

  /** The arguments evaluate to these values. */
  ghost predicate AllEvaluate(natives: Natives, fuel: nat, args: seq<Expr>, values: seq<SourceVal>, s: Scope) {
    |args| == |values| && forall i | 0 <= i < |args| :: Eval(natives, fuel, args[i], s) == Some(values[i])
  }

  lemma {:induction false} ApplyAllBuilds(natives: Natives, fuel: nat, builder: nat -> Tag, size: nat, e: Expr, args: seq<Expr>,
                                          values: seq<SourceVal>, s: Scope)
    requires BuildsTuples(natives, builder) && |args| <= size && AllEvaluate(natives, fuel, args, values, s)
    requires Eval(natives, fuel, e, s) == Some(Building(builder, size, []))
    ensures Eval(natives, fuel, G.ApplyAll(e, args), s) == Some(Building(builder, size, values))
    decreases |args|
  {
    if args == [] {
      assert values == [];
    } else {
      var n := |args| - 1;
      ApplyAllBuilds(natives, fuel, builder, size, e, args[..n], values[..n], s);
      MemberAdded(natives, builder, size, values[..n], values[n]);
      assert values[..n] + [values[n]] == values;
    }
  }

  /** What the parser makes of several arguments evaluates to the tuple of their values, in order;
      a single argument to its own value. */
  lemma ArgumentsBuilt(natives: Natives, fuel: nat, builder: nat -> Tag, args: seq<Expr>, values: seq<SourceVal>, s: Scope)
    requires BuildsTuples(natives, builder) && AllEvaluate(natives, fuel, args, values, s)
    requires Eval(natives, fuel, BuilderOf(|args|), s) == Some(Building(builder, |args|, []))
    ensures Eval(natives, fuel, G.Tuple(args), s) == Some(if |args| == 1 then values[0] else Data(TupleTag, values))
  {
    if |args| != 1 {
      assert G.MakeTuple(args) == G.ApplyAll(BuilderOf(|args|), args);
      ApplyAllBuilds(natives, fuel, builder, |args|, BuilderOf(|args|), args, values, s);
    }
  }

  /** The tuple builder that the standard library provides for tuples of some size. */
  function BuilderOf(size: nat): Expr {
    Call(Call(Call(Lit(Import("builtin")), Lit(Atom("array"))), Lit(Atom("tupleBuilder"))), Lit(Integer(size)))
  }

  // ---------------------------------------------------------------------------
  // Calls with several arguments.

  /** A function that is called with as many arguments as it has parameters, and returns one of them,
      returns the argument that stands where the parameter does. */
  lemma ArgumentReturned(natives: Natives, fuel: nat, builder: nat -> Tag, params: seq<string>, i: nat, args: seq<Expr>,
                         values: seq<SourceVal>, s: Scope)
    requires fuel > 0 && Distinct(params) && 1 < |params| == |args| && i < |params|
    requires BuildsTuples(natives, builder) && AllEvaluate(natives, fuel, args, values, s)
    requires Eval(natives, fuel, BuilderOf(|args|), s) == Some(Building(builder, |args|, []))
    ensures Eval(natives, fuel, Call(Projection(params, i), G.Tuple(args)), s) == Some(values[i])
  {
    ArgumentsBuilt(natives, fuel, builder, args, values, s);
    ParameterEvaluated(natives, fuel, params, i, values, s);
  }

  /** From the text to the machine: the call, as it is printed, is read as such a call, and when it
      has been compiled and loaded the machine delivers that argument's value. */
  lemma ArgumentDelivered(natives: Natives, fuel: nat, builder: nat -> Tag, params: seq<string>, i: nat, args: seq<P.Tree>,
                          values: seq<SourceVal>, table: seq<Literal>, source: map<string, SourceVal>,
                          target: map<string, I.Val>, loadFuel: nat, node: I.Node, env: I.Environment)
    requires fuel > 0 && Distinct(params) && 1 < |params| == |args| && i < |params|
    requires (forall a | a in args :: a.WellFormed()) && BuildsTuples(natives, builder)
    requires AllEvaluate(natives, fuel, P.Meanings(args), values, Module(source))
    requires Eval(natives, fuel, BuilderOf(|args|), Module(source)) == Some(Building(builder, |args|, []))
    requires LoadedProgram(natives, Call(Projection(params, i), G.Tuple(P.Meanings(args))), table, source, target, loadFuel, node, env)
    ensures var text := P.Show(P.Apply(P.Function(params, P.Name(params[i], 0)), args), G.LOWEST, []);
      G.ParseExpression(text) == G.Parsed(Call(Projection(params, i), G.Tuple(P.Meanings(args))), [], true)
    ensures ProgramDelivers(natives, node, env, values[i])
  {
    var tree := P.Apply(P.Function(params, P.Name(params[i], 0)), args);
    P.PrintedParses(tree);
    var fn := P.Function(params, P.Name(params[i], 0));
    assert P.Meaning(fn) == Lambda(params, P.Meaning(P.Name(params[i], 0))) == Projection(params, i);
    assert P.Meaning(tree) == Call(P.Meaning(fn), G.Tuple(P.Meanings(args)));
    ArgumentReturned(natives, fuel, builder, params, i, P.Meanings(args), values, Module(source));
    ProgramRuns(natives, P.Meaning(tree), table, source, target, loadFuel, node, env, fuel);
  }

  // ---------------------------------------------------------------------------
  // Tuples of recursive variables.

  /** Code for the term, run in this environment, gives the value. */
  ghost predicate Yields(natives: Natives, fuel: nat, t: CodeTree.Term, env: I.Environment, x: I.Val) {
    forall node | Decodes(node, t, I.Depth(env), I.Bottom(env).constants) :: I.Evaluate(natives, fuel, node, env) == Some(x)
  }

  /** The code that passes several recursive variables on builds the tuple of their values, in order. */
  lemma {:induction false} RecursiveTupleBuilt(natives: Natives, fuel: nat, builder: nat -> Tag, size: nat, start: CodeTree.Term,
                                               block: Expr, blockLevel: nat, at: nat, members: seq<nat>, table: seq<Literal>,
                                               env: I.Environment, xs: seq<I.Val>)
    requires BuildsTuples(natives, builder) && block.Where? && |members| == |xs| <= size
    requires Yields(natives, fuel, start, env, Building(builder, size, []))
    requires forall j | 0 <= j < |members| ::
      Yields(natives, fuel, C.BindingVariable(block, blockLevel, at, members[j], I.Depth(env), table), env, xs[j])
    ensures Yields(natives, fuel, C.Tuple(start, block, blockLevel, at, members, I.Depth(env), table), env, Building(builder, size, xs))
    decreases |members|
  {
    if members == [] {
      assert xs == [];
    } else {
      var n := |members| - 1;
      RecursiveTupleBuilt(natives, fuel, builder, size, start, block, blockLevel, at, members[..n], table, env, xs[..n]);
      MemberAdded(natives, builder, size, xs[..n], xs[n]);
      assert xs[..n] + [xs[n]] == xs;
    }
  }

  /** Inside a binding with several recursive variables, each is read from the tuple at its own position. */
  lemma RecursiveMemberRead(natives: Natives, fuel: nat, block: Expr, blockLevel: nat, at: nat, j: nat, table: seq<Literal>,
                            imports: map<string, I.Val>, env: I.Environment, xs: seq<I.Val>)
    requires block.Where? && at < |block.plan.order| && block.plan.order[at] < |block.plan.recursive|
    requires var members := block.plan.recursive[block.plan.order[at]];
      && 1 < |members| == |xs| && j < |members| && (forall k, l | 0 <= k < l < |members| :: members[k] != members[l])
      && at <= C.PositionOf(block.plan.order, members[j]) && Integer(j) in table
    requires blockLevel + at < I.Depth(env) && I.Bottom(env).constants == ConstantTable(imports, table)
    requires I.Lookup(env, I.Depth(env) - (blockLevel + at) - 1) == Data(TupleTag, xs)
    ensures Yields(natives, fuel, C.BindingVariable(block, blockLevel, at, block.plan.recursive[block.plan.order[at]][j], I.Depth(env), table),
                   env, xs[j])
  {
    var members := block.plan.recursive[block.plan.order[at]];
    assert members[C.PositionOf(members, members[j])] == members[j];
    assert C.PositionOf(members, members[j]) == j;
    var t := C.BindingVariable(block, blockLevel, at, members[j], I.Depth(env), table);
    var p := C.PositionOf(table, Integer(j));
    assert ConstantTable(imports, table)[p] == Int(j);
    assert t == CodeTree.App(C.Local(I.Depth(env), blockLevel + at), C.Global(I.Depth(env), table, Integer(j)));
    forall node | Decodes(node, t, I.Depth(env), I.Bottom(env).constants)
      ensures I.Evaluate(natives, fuel, node, env) == Some(xs[j])
    {
      assert Decodes(node.arg, CodeTree.Var(I.Depth(env) + p), I.Depth(env), I.Bottom(env).constants);
      var slot: nat := I.Depth(env) - (blockLevel + at) - 1;
      assert Decodes(node.fn, CodeTree.Var(slot), I.Depth(env), I.Bottom(env).constants);
      assert node.fn == I.Node.Variable(slot) && node.arg == I.Constant(Int(j));
      TupleCalled(natives, fuel, xs, Int(j), I.Nothing);
    }
  }
}
