/** The compiled program computes what the source program denotes. */
module CompilerCorrect {
  import opened Values
  import opened CodeTree
  import opened Interpreter
  import opened Source
  import opened Compiler

  // ---------------------------------------------------------------------------
  // When code generation is meaningful.

  /** Positions and parameters are consistent, and no binding takes more than one parameter. */
  ghost predicate WellPlanned(block: Expr) {
    && block.Where?
    && |block.plan.recursive| == |block.bindings|
    && (forall k | 0 <= k < |block.plan.order| :: block.plan.order[k] < |block.bindings|)
    && (forall k | 0 <= k < |block.plan.order| :: PositionOf(block.plan.order, block.plan.order[k]) == k)
    && (forall i | i in block.plan.order && block.plan.IsRecursive(i) ::
          var r := block.plan.recursive[i];
          |r| == 1 && r[0] in block.plan.order && block.plan.recursive[r[0]] == r)
  }

  /** Code for the binding at `at` can mention binding `i`: it is computed earlier, or it is
      the parameter. */
  ghost predicate Available(block: Expr, at: nat, i: nat)
    requires WellPlanned(block)
  {
    && i in block.plan.order
    && (PositionOf(block.plan.order, i) < at
        || (at < |block.plan.order| && block.plan.recursive[block.plan.order[at]] == [i]))
  }

  ghost predicate ReadyUse(block: Expr, at: nat, i: nat) {
    && WellPlanned(block)
    && Available(block, at, i)
    && (block.plan.IsRecursive(i) ==> Available(block, at, block.plan.recursive[i][0]))
  }

  /** Every lookup made while generating code for a variable succeeds. */
  ghost predicate ReadyReference(name: string, escape: nat, scope: seq<Definition>, table: seq<Literal>)
    decreases scope
  {
    scope == [] ||
    match scope[0]
    case Params(names, _) =>
      if name !in names then ReadyReference(name, escape, scope[1..], table)
      else if escape > 0 then ReadyReference(name, escape - 1, scope[1..], table)
      else |names| != 1 ==> Integer(IndexOf(names, name)) in table
    case BlockPart(block, _, at) =>
      block.Where? &&
      match Find(block.bindings, name)
      case None => ReadyReference(name, escape, scope[1..], table)
      case Some(i) =>
        if escape > 0 then ReadyReference(name, escape - 1, scope[1..], table)
        else ReadyUse(block, at, i)
  }

  function InsideLevel(block: Expr, level: nat, at: nat): nat
    requires block.Where?
  {
    if AtRecursive(block, at) then level + at + 1 else level + at
  }

  /** Every lookup made while generating code for `e` succeeds. */
  ghost predicate Ready(e: Expr, scope: seq<Definition>, level: nat, table: seq<Literal>)
    decreases e
  {
    match e
    case Variable(name, escape) => ReadyReference(name, escape, scope, table)
    case Lambda(params, body) => Ready(body, [Params(params, level)] + scope, level + 1, table)
    case Call(fn, arg) => Ready(fn, scope, level, table) && Ready(arg, scope, level, table)
    case Lit(literal) => literal in table
    case Where(base, bindings, plan) =>
      && WellPlanned(e)
      && Ready(base, [BlockPart(e, level, |plan.order|)] + scope, level + |plan.order|, table)
      && forall at | 0 <= at < |plan.order| ::
           Ready(bindings[plan.order[at]].value, [BlockPart(e, level, at)] + scope, InsideLevel(e, level, at), table)
  }

  // ---------------------------------------------------------------------------
  // How run-time values represent source values.

  /** `node` is the decoded form of `t`, apart from recorded code positions. */
  ghost predicate Decodes(node: Node, t: Term, depth: nat, constants: seq<Val>)
    decreases t
  {
    match t
    case Var(i) =>
      if i < depth then node == Node.Variable(i)
      else i - depth < |constants| && node == Constant(constants[i - depth])
    case Abs(body) => node.Abstraction? && Decodes(node.body, body, depth + 1, constants)
    case App(fn, arg) =>
      node.Application? && Decodes(node.fn, fn, depth, constants) && Decodes(node.arg, arg, depth, constants)
  }

  ghost predicate Represents(v: SourceVal, w: Val)
    decreases w, 0
  {
    match w
    case Data(tag, parts) =>
      v.Data? && v.tag == tag && |v.parts| == |parts|
      && forall i | 0 <= i < |parts| :: Represents(v.parts[i], parts[i])
    case Closure(fd) =>
      v.Closure? && exists table, scope :: RepresentsFunction(table, scope, v.c, fd)
  }

  ghost predicate RepresentsFunction(table: seq<Literal>, scope: seq<Definition>, c: SourceClosure, fd: FunctionData)
    decreases fd
  {
    var level := Depth(fd.environment);
    var inside := [Params(c.params, level)] + scope;
    && RepresentsScope(table, c.scope, scope, level, fd.environment, 0)
    && Ready(c.body, inside, level + 1, table)
    && Decodes(fd.body, Compile(c.body, inside, level + 1, table), level + 1, Bottom(fd.environment).constants)
  }

  /** The values of `env` from position `off` on represent the definitions of `s`. */
  ghost predicate RepresentsScope(
      table: seq<Literal>, s: Scope, scope: seq<Definition>, level: nat, env: Environment, off: nat)
    requires off + level == Depth(env)
    decreases env, 1, s
  {
    FlattenLength(env);
    match s
    case Module(imports) =>
      && scope == []
      && |table| == |Bottom(env).constants|
      && forall i | 0 <= i < |table| ::
           LookupSmaller(env, Depth(env) + i);
           Represents(LiteralValue(imports, table[i]), Flatten(env)[Depth(env) + i])
    case Parameters(names, argument, outer) =>
      && scope != [] && level > 0 && scope[0] == Params(names, level - 1)
      && (LookupSmaller(env, off); Represents(argument, Flatten(env)[off]))
      && RepresentsScope(table, outer, scope[1..], level - 1, env, off + 1)
    case Block(block, values, outer) =>
      && WellPlanned(block)
      && scope != [] && scope[0].BlockPart? && scope[0].block == block
      && var blockLevel, at := scope[0].level, scope[0].at;
      && at <= |block.plan.order|
      && level == InsideLevel(block, blockLevel, at)
      && RepresentsScope(table, outer, scope[1..], blockLevel, env, off + level - blockLevel)
      && RepresentsPrefix(table, block, values, outer, scope[1..], blockLevel, at, env, off + level - blockLevel - at)
      && (AtRecursive(block, at) ==>
            (LookupSmaller(env, off);
             RepresentsBinding(table, block, values, outer, scope[1..], blockLevel,
                               PositionOf(block.plan.order, block.plan.recursive[block.plan.order[at]][0]),
                               Flatten(env)[off])))
  }

  /** `x` is the run-time value of the binding at position `at`: the binding's value, or the
      function that computes it when given the binding's recursive variable. */
  ghost predicate RepresentsBinding(
      table: seq<Literal>, block: Expr, values: map<nat, SourceVal>, outer: Scope,
      scope: seq<Definition>, level: nat, at: nat, x: Val)
    requires WellPlanned(block) && at < |block.plan.order|
    decreases x, 1
  {
    var i := block.plan.order[at];
    if !block.plan.IsRecursive(i) then i in values && Represents(values[i], x)
    else
      && x.Closure?
      && var env, inside := x.c.environment, [BlockPart(block, level, at)] + scope;
      FlattenLength(env);
      && Depth(env) == level + at
      && Ready(block.bindings[i].value, inside, level + at + 1, table)
      && Decodes(x.c.body, Compile(block.bindings[i].value, inside, level + at + 1, table), level + at + 1,
                 Bottom(env).constants)
      && RepresentsScope(table, outer, scope, level, env, at)
      && RepresentsPrefix(table, block, values, outer, scope, level, at, env, 0)
  }

  /** From position `from` on, `env` holds the values of the block's first `n` bindings, the
      latest first. */
  ghost predicate RepresentsPrefix(
      table: seq<Literal>, block: Expr, values: map<nat, SourceVal>, outer: Scope,
      scope: seq<Definition>, level: nat, n: nat, env: Environment, from: nat)
    requires WellPlanned(block) && n <= |block.plan.order| && from + n <= |Flatten(env)|
    decreases env, 0
  {
    forall j | from <= j < from + n ::
      LookupSmaller(env, j);
      RepresentsBinding(table, block, values, outer, scope, level, from + n - 1 - j, Flatten(env)[j])
  }

  lemma RepresentationIsStructural()
    ensures Structural((v: SourceVal, w: Val) => Represents(v, w))
  {
  }

  lemma NativesRespectRepresentation(natives: Natives, f: SourceVal, a: SourceVal, g: Val, b: Val)
    requires Represents(f, g) && Represents(a, b)
    ensures NativeAction(natives, ShapeOf(f), ShapeOf(a)) == NativeAction(natives, ShapeOf(g), ShapeOf(b))
    ensures var action := NativeAction(natives, ShapeOf(g), ShapeOf(b));
            if action.Return? then
              Represents(Cook(action.result, f, a), Cook(action.result, g, b))
            else
              && Represents(Cook(action.callee, f, a), Cook(action.callee, g, b))
              && Represents(Cook(action.argument, f, a), Cook(action.argument, g, b))
  {
    var rel := (v: SourceVal, w: Val) => Represents(v, w);
    RepresentationIsStructural();
    SameShape(rel, f, g);
    SameShape(rel, a, b);
    var action := NativeAction(natives, ShapeOf(g), ShapeOf(b));
    if action.Return? {
      CookRelated(rel, action.result, f, a, g, b);
    } else {
      CookRelated(rel, action.callee, f, a, g, b);
      CookRelated(rel, action.argument, f, a, g, b);
    }
  }

  // ---------------------------------------------------------------------------
  // How the relation moves between environments.

  /** `after` is `before` with one more value in front. */
  ghost predicate Pushed(before: Environment, after: Environment) {
    && Depth(after) == Depth(before) + 1
    && Bottom(after) == Bottom(before)
    && |Flatten(after)| == |Flatten(before)| + 1
    && Flatten(after)[1..] == Flatten(before)
  }

  lemma FramePushed(x: Val, fd: FunctionData)
    ensures Pushed(fd.environment, Frame([x], fd)) && Flatten(Frame([x], fd))[0] == x
  {
  }

  lemma Shifted(env: Environment, after: Environment, j: nat)
    requires Pushed(env, after) && j < |Flatten(env)|
    ensures |Flatten(after)| == |Flatten(env)| + 1 && Flatten(after)[j + 1] == Flatten(env)[j]
  {
    assert Flatten(after)[1..][j] == Flatten(after)[j + 1];
  }

  lemma PushModule(table: seq<Literal>, imports: map<string, SourceVal>, scope: seq<Definition>, level: nat,
                   env: Environment, off: nat, after: Environment)
    requires off + level == Depth(env) && RepresentsScope(table, Module(imports), scope, level, env, off)
    requires Pushed(env, after)
    ensures RepresentsScope(table, Module(imports), scope, level, after, off + 1)
  {
    FlattenLength(env);
    FlattenLength(after);
    forall i | 0 <= i < |table| ensures Represents(LiteralValue(imports, table[i]), Flatten(after)[Depth(after) + i]) {
      Shifted(env, after, Depth(env) + i);
      assert Represents(LiteralValue(imports, table[i]), Flatten(env)[Depth(env) + i]);
    }
  }

  lemma {:induction false} PushScope(
      table: seq<Literal>, s: Scope, scope: seq<Definition>, level: nat, env: Environment, off: nat, after: Environment)
    requires off + level == Depth(env) && RepresentsScope(table, s, scope, level, env, off)
    requires Pushed(env, after)
    ensures RepresentsScope(table, s, scope, level, after, off + 1)
    decreases s
  {
    match s
    case Module(imports) => PushModule(table, imports, scope, level, env, off, after);
    case Parameters(_, _, _) => PushParametersScope(table, s, scope, level, env, off, after);
    case Block(_, _, _) => PushBlockScope(table, s, scope, level, env, off, after);
  }

  lemma {:induction false} PushParametersScope(
      table: seq<Literal>, s: Scope, scope: seq<Definition>, level: nat, env: Environment, off: nat, after: Environment)
    requires off + level == Depth(env) && RepresentsScope(table, s, scope, level, env, off)
    requires s.Parameters? && Pushed(env, after)
    ensures RepresentsScope(table, s, scope, level, after, off + 1)
    decreases s, 0
  {
    FlattenLength(env);
    PushScope(table, s.outer, scope[1..], level - 1, env, off + 1, after);
    PushParameters(table, s, scope, level, env, off, after);
  }

  lemma {:induction false} PushBlockScope(
      table: seq<Literal>, s: Scope, scope: seq<Definition>, level: nat, env: Environment, off: nat, after: Environment)
    requires off + level == Depth(env) && RepresentsScope(table, s, scope, level, env, off)
    requires s.Block? && Pushed(env, after)
    ensures RepresentsScope(table, s, scope, level, after, off + 1)
    decreases s, 0
  {
    FlattenLength(env);
    PushScope(table, s.outer, scope[1..], scope[0].level, env, off + level - scope[0].level, after);
    PushBlock(table, s, scope, level, env, off, after);
  }

  lemma PushParameters(
      table: seq<Literal>, s: Scope, scope: seq<Definition>, level: nat, env: Environment, off: nat, after: Environment)
    requires off + level == Depth(env) && s.Parameters? && RepresentsScope(table, s, scope, level, env, off)
    requires Pushed(env, after) && RepresentsScope(table, s.outer, scope[1..], level - 1, after, off + 2)
    ensures RepresentsScope(table, s, scope, level, after, off + 1)
  {
    FlattenLength(env);
    FlattenLength(after);
    Shifted(env, after, off);
  }

  lemma PushBlock(
      table: seq<Literal>, s: Scope, scope: seq<Definition>, level: nat, env: Environment, off: nat, after: Environment)
    requires off + level == Depth(env) && s.Block? && RepresentsScope(table, s, scope, level, env, off)
    requires Pushed(env, after)
    requires RepresentsScope(table, s.outer, scope[1..], scope[0].level, after, off + level - scope[0].level + 1)
    ensures RepresentsScope(table, s, scope, level, after, off + 1)
  {
    FlattenLength(env);
    FlattenLength(after);
    var blockLevel, at := scope[0].level, scope[0].at;
    PushPrefix(table, s.block, s.values, s.outer, scope[1..], blockLevel, at, env, off + level - blockLevel - at, after);
    if AtRecursive(s.block, at) { Shifted(env, after, off); }
  }

  lemma PushPrefix(
      table: seq<Literal>, block: Expr, values: map<nat, SourceVal>, outer: Scope,
      scope: seq<Definition>, level: nat, n: nat, env: Environment, from: nat, after: Environment)
    requires WellPlanned(block) && n <= |block.plan.order| && from + n <= |Flatten(env)|
    requires RepresentsPrefix(table, block, values, outer, scope, level, n, env, from)
    requires Pushed(env, after)
    ensures RepresentsPrefix(table, block, values, outer, scope, level, n, after, from + 1)
  {
    forall j | from + 1 <= j < from + 1 + n
      ensures RepresentsBinding(table, block, values, outer, scope, level, from + 1 + n - 1 - j, Flatten(after)[j])
    {
      assert Flatten(after)[1..][j - 1] == Flatten(after)[j];
      assert RepresentsBinding(table, block, values, outer, scope, level, from + n - 1 - (j - 1), Flatten(env)[j - 1]);
    }
  }

  /** Computing a later binding does not disturb the earlier ones. */
  lemma {:induction false} LaterValue(
      table: seq<Literal>, block: Expr, values: map<nat, SourceVal>, outer: Scope,
      scope: seq<Definition>, level: nat, at: nat, x: Val, more: map<nat, SourceVal>)
    requires WellPlanned(block) && at < |block.plan.order|
    requires RepresentsBinding(table, block, values, outer, scope, level, at, x)
    requires forall k | 0 <= k <= at && block.plan.order[k] in values ::
               block.plan.order[k] in more && more[block.plan.order[k]] == values[block.plan.order[k]]
    ensures RepresentsBinding(table, block, more, outer, scope, level, at, x)
    decreases x
  {
    if block.plan.IsRecursive(block.plan.order[at]) {
      var env := x.c.environment;
      FlattenLength(env);
      forall j | 0 <= j < 0 + at
        ensures RepresentsBinding(table, block, more, outer, scope, level, 0 + at - 1 - j, Flatten(env)[j])
      {
        LookupSmaller(env, j);
        LaterValue(table, block, values, outer, scope, level, 0 + at - 1 - j, Flatten(env)[j], more);
      }
    }
  }

  /** The constant a literal compiles to represents the literal. */
  lemma {:induction false} GlobalRepresents(
      table: seq<Literal>, s: Scope, scope: seq<Definition>, level: nat, env: Environment, off: nat, l: Literal)
    requires off + level == Depth(env) && RepresentsScope(table, s, scope, level, env, off)
    requires l in table
    ensures PositionOf(table, l) < |Bottom(env).constants|
    ensures Represents(LiteralValue(Imports(s), l), Bottom(env).constants[PositionOf(table, l)])
    decreases s
  {
    FlattenLength(env);
    match s
    case Module(_) => ConstantsLast(env, PositionOf(table, l));
    case Parameters(_, _, outer) => GlobalRepresents(table, outer, scope[1..], level - 1, env, off + 1, l);
    case Block(_, _, outer) =>
      GlobalRepresents(table, outer, scope[1..], scope[0].level, env, off + level - scope[0].level, l);
  }

  // ---------------------------------------------------------------------------
  // Simulation.

  ghost predicate Matches(v: Option<SourceVal>, w: Option<Val>) {
    v.Some? == w.Some? && (v.Some? ==> Represents(v.value, w.value))
  }

  /** The value found where the code generator expects a binding. */
  lemma BindingVariableValue(
      table: seq<Literal>, s: Scope, scope: seq<Definition>, level: nat, env: Environment, off: nat, i: nat)
    requires off + level == Depth(env) && RepresentsScope(table, s, scope, level, env, off)
    requires s.Block? && Available(s.block, scope[0].at, i)
    ensures var t := BindingVariable(s.block, scope[0].level, scope[0].at, i, Depth(env), table);
      && t.Var? && t.index < Depth(env) <= |Flatten(env)|
      && RepresentsBinding(table, s.block, s.values, s.outer, scope[1..], scope[0].level,
                           PositionOf(s.block.plan.order, i), Flatten(env)[t.index])
  {
    FlattenLength(env);
    var block, blockLevel, at := s.block, scope[0].level, scope[0].at;
    var position := PositionOf(block.plan.order, i);
    if position < at {
      var from := off + level - blockLevel - at;
      var j := from + at - 1 - position;
      assert RepresentsBinding(table, block, s.values, s.outer, scope[1..], blockLevel, from + at - 1 - j, Flatten(env)[j]);
    }
  }

  /** Applying a recursive binding to its recursive variable re-creates the block's scope. */
  lemma EnterRecursive(
      table: seq<Literal>, block: Expr, values: map<nat, SourceVal>, outer: Scope,
      scope: seq<Definition>, level: nat, at: nat, x: Val, y: Val)
    requires WellPlanned(block) && at < |block.plan.order| && AtRecursive(block, at)
    requires RepresentsBinding(table, block, values, outer, scope, level, at, x)
    requires RepresentsBinding(table, block, values, outer, scope, level,
               PositionOf(block.plan.order, block.plan.recursive[block.plan.order[at]][0]), y)
    ensures Depth(Frame([y], x.c)) == level + at + 1
    ensures RepresentsScope(table, Block(block, values, outer), [BlockPart(block, level, at)] + scope,
                            level + at + 1, Frame([y], x.c), 0)
  {
    var env, after := x.c.environment, Frame([y], x.c);
    FramePushed(y, x.c);
    FlattenLength(env);
    PushScope(table, outer, scope, level, env, at, after);
    PushPrefix(table, block, values, outer, scope, level, at, env, 0, after);
    InsideRecursive(table, block, values, outer, scope, level, at, after);
  }

  /** The scope inside a recursive binding, once its parameter is in the environment. */
  lemma InsideRecursive(table: seq<Literal>, block: Expr, values: map<nat, SourceVal>, outer: Scope,
                        scope: seq<Definition>, level: nat, at: nat, env: Environment)
    requires WellPlanned(block) && at < |block.plan.order| && AtRecursive(block, at)
    requires level + at + 1 == Depth(env) <= |Flatten(env)| && RepresentsScope(table, outer, scope, level, env, at + 1)
    requires RepresentsPrefix(table, block, values, outer, scope, level, at, env, 1)
    requires RepresentsBinding(table, block, values, outer, scope, level,
               PositionOf(block.plan.order, block.plan.recursive[block.plan.order[at]][0]), Flatten(env)[0])
    ensures RepresentsScope(table, Block(block, values, outer), [BlockPart(block, level, at)] + scope, level + at + 1, env, 0)
  {
    assert ([BlockPart(block, level, at)] + scope)[1..] == scope;
  }

  lemma {:induction false} ReferenceSimulated(
      natives: Natives, fuel: nat, name: string, escape: nat, table: seq<Literal>,
      s: Scope, scope: seq<Definition>, level: nat, env: Environment, off: nat, node: Node)
    requires off + level == Depth(env) && RepresentsScope(table, s, scope, level, env, off)
    requires ReadyReference(name, escape, scope, table)
    requires Decodes(node, CompileReference(name, escape, scope, Depth(env), table), Depth(env), Bottom(env).constants)
    ensures Matches(Reference(natives, fuel, name, escape, s), Evaluate(natives, fuel, node, env))
    decreases fuel, 1, s
  {
    FlattenLength(env);
    match s
    case Module(imports) => UndefinedSimulated(natives, fuel, name, escape, table, imports, env, node);
    case Parameters(names, argument, outer) =>
      if name !in names {
        ReferenceSimulated(natives, fuel, name, escape, table, outer, scope[1..], level - 1, env, off + 1, node);
      } else if escape > 0 {
        ReferenceSimulated(natives, fuel, name, escape - 1, table, outer, scope[1..], level - 1, env, off + 1, node);
      } else {
        ParameterSimulated(natives, fuel, name, table, s, scope, level, env, off, node);
      }
    case Block(_, _, _) =>
      BlockReferenceSimulated(natives, fuel, name, escape, table, s, scope, level, env, off, node);
  }

  lemma UndefinedSimulated(
      natives: Natives, fuel: nat, name: string, escape: nat, table: seq<Literal>, imports: map<string, SourceVal>,
      env: Environment, node: Node)
    requires RepresentsScope(table, Module(imports), [], Depth(env), env, 0)
    requires Decodes(node, Abs(Var(0)), Depth(env), Bottom(env).constants)
    ensures Matches(Reference(natives, fuel, name, escape, Module(imports)), Evaluate(natives, fuel, node, env))
  {
    IdentityRepresented(table, imports, env, node.codeIndex);
    FunctionRepresented(table, [], Identity(imports).c, FunctionData(env, node.body, node.codeIndex));
  }

  lemma {:induction false} BlockReferenceSimulated(
      natives: Natives, fuel: nat, name: string, escape: nat, table: seq<Literal>,
      s: Scope, scope: seq<Definition>, level: nat, env: Environment, off: nat, node: Node)
    requires off + level == Depth(env) && RepresentsScope(table, s, scope, level, env, off) && s.Block?
    requires ReadyReference(name, escape, scope, table)
    requires Decodes(node, CompileReference(name, escape, scope, Depth(env), table), Depth(env), Bottom(env).constants)
    ensures Matches(Reference(natives, fuel, name, escape, s), Evaluate(natives, fuel, node, env))
    decreases fuel, 1, s, 0
  {
    var blockLevel, outer, from := scope[0].level, s.outer, off + level - scope[0].level;
    match Find(s.block.bindings, name)
    case None =>
      ReferenceSimulated(natives, fuel, name, escape, table, outer, scope[1..], blockLevel, env, from, node);
    case Some(i) =>
      if escape > 0 {
        ReferenceSimulated(natives, fuel, name, escape - 1, table, outer, scope[1..], blockLevel, env, from, node);
      } else {
        UseSimulated(natives, fuel, table, s, scope, level, env, off, i, node);
      }
  }

  lemma {:induction false} ParameterSimulated(
      natives: Natives, fuel: nat, name: string, table: seq<Literal>,
      s: Scope, scope: seq<Definition>, level: nat, env: Environment, off: nat, node: Node)
    requires off + level == Depth(env) && RepresentsScope(table, s, scope, level, env, off)
    requires s.Parameters? && name in s.names
    requires ReadyReference(name, 0, scope, table)
    requires Decodes(node, CompileReference(name, 0, scope, Depth(env), table), Depth(env), Bottom(env).constants)
    ensures Matches(Reference(natives, fuel, name, 0, s), Evaluate(natives, fuel, node, env))
    decreases fuel, 0, 1
  {
    FlattenLength(env);
    var t := Local(Depth(env), level - 1);
    if |s.names| == 1 {
      LocalNode(natives, fuel, t, env, node);
    } else {
      var l := Integer(IndexOf(s.names, name));
      LocalNode(natives, fuel, t, env, node.fn);
      GlobalRepresents(table, s, scope, level, env, off, l);
      CallSimulated(natives, fuel, s.argument, Int(IndexOf(s.names, name)), Flatten(env)[off],
                    Bottom(env).constants[PositionOf(table, l)]);
    }
  }

  /** A decoded local variable evaluates to its slot. */
  lemma LocalNode(natives: Natives, fuel: nat, t: Term, env: Environment, node: Node)
    requires t.Var? && t.index < Depth(env) <= |Flatten(env)|
    requires Decodes(node, t, Depth(env), Bottom(env).constants)
    ensures Evaluate(natives, fuel, node, env) == Some(Flatten(env)[t.index])
  {
  }

  lemma {:induction false} UseSimulated(
      natives: Natives, fuel: nat, table: seq<Literal>,
      s: Scope, scope: seq<Definition>, level: nat, env: Environment, off: nat, i: nat, node: Node)
    requires off + level == Depth(env) && RepresentsScope(table, s, scope, level, env, off)
    requires s.Block? && ReadyUse(s.block, scope[0].at, i)
    requires Decodes(node, CompileUse(s.block, scope[0].level, scope[0].at, i, Depth(env), table),
                     Depth(env), Bottom(env).constants)
    ensures Matches(
              if s.block.plan.IsRecursive(i) then
                if fuel == 0 then None else Eval(natives, fuel - 1, s.block.bindings[i].value, s)
              else if i in s.values then Some(s.values[i]) else None,
              Evaluate(natives, fuel, node, env))
    decreases fuel, 0, 1
  {
    var block, blockLevel, at := s.block, scope[0].level, scope[0].at;
    BindingVariableValue(table, s, scope, level, env, off, i);
    var t := BindingVariable(block, blockLevel, at, i, Depth(env), table);
    if !block.plan.IsRecursive(i) {
      LocalNode(natives, fuel, t, env, node);
    } else {
      var r := block.plan.recursive[i][0];
      BindingVariableValue(table, s, scope, level, env, off, r);
      var u := BindingVariable(block, blockLevel, at, r, Depth(env), table);
      LocalNode(natives, fuel, t, env, node.fn);
      LocalNode(natives, fuel, u, env, node.arg);
      UnfoldSimulated(natives, fuel, table, s, scope[1..], blockLevel, i, Flatten(env)[t.index], Flatten(env)[u.index]);
    }
  }

  /** Calling a recursive binding's function on its recursive variable is unfolding it. */
  lemma {:induction false} UnfoldSimulated(
      natives: Natives, fuel: nat, table: seq<Literal>, s: Scope, scope: seq<Definition>, level: nat,
      i: nat, x: Val, y: Val)
    requires s.Block? && WellPlanned(s.block) && i in s.block.plan.order && s.block.plan.IsRecursive(i)
    requires RepresentsBinding(table, s.block, s.values, s.outer, scope, level, PositionOf(s.block.plan.order, i), x)
    requires RepresentsBinding(table, s.block, s.values, s.outer, scope, level,
                               PositionOf(s.block.plan.order, s.block.plan.recursive[i][0]), y)
    ensures Matches(if fuel == 0 then None else Eval(natives, fuel - 1, s.block.bindings[i].value, s),
                    Apply(natives, fuel, x, y))
    decreases fuel, 0, 0
  {
    if fuel > 0 {
      var position := PositionOf(s.block.plan.order, i);
      EnterRecursive(table, s.block, s.values, s.outer, scope, level, position, x, y);
      Simulated(natives, fuel - 1, s.block.bindings[i].value, table, s,
                [BlockPart(s.block, level, position)] + scope, level + position + 1, Frame([y], x.c), x.c.body);
    }
  }

  lemma FunctionRepresented(table: seq<Literal>, scope: seq<Definition>, c: SourceClosure, fd: FunctionData)
    requires RepresentsFunction(table, scope, c, fd)
    ensures Represents(Closure(c), Closure(fd))
  {
  }

  /** The dummy emitted for an undefined variable represents the identity function. */
  lemma IdentityRepresented(table: seq<Literal>, imports: map<string, SourceVal>, env: Environment, codeIndex: nat)
    requires RepresentsScope(table, Module(imports), [], Depth(env), env, 0)
    ensures RepresentsFunction(table, [], Identity(imports).c, FunctionData(env, Node.Variable(0), codeIndex))
  {
    var inside := [Params(["x"], Depth(env))] + [];
    assert inside[0] == Params(["x"], Depth(env));
  }

  /** Compiled code, run where its scope is represented, gives what the source expression
      gives, with exactly the same fuel; in particular one terminates when the other does. */
  lemma {:induction false} Simulated(
      natives: Natives, fuel: nat, e: Expr, table: seq<Literal>,
      s: Scope, scope: seq<Definition>, level: nat, env: Environment, node: Node)
    requires level == Depth(env) && RepresentsScope(table, s, scope, level, env, 0)
    requires Ready(e, scope, level, table)
    requires Decodes(node, Compile(e, scope, level, table), level, Bottom(env).constants)
    ensures Matches(Eval(natives, fuel, e, s), Evaluate(natives, fuel, node, env))
    decreases fuel, 2, e
  {
    match e
    case Variable(name, escape) =>
      ReferenceSimulated(natives, fuel, name, escape, table, s, scope, level, env, 0, node);
    case Lambda(params, body) =>
      var c := SourceClosure(params, body, s);
      FunctionRepresented(table, scope, c, FunctionData(env, node.body, node.codeIndex));
    case Call(_, _) => ApplicationSimulated(natives, fuel, e, table, s, scope, level, env, node);
    case Lit(literal) =>
      GlobalRepresents(table, s, scope, level, env, 0, literal);
    case Where(_, _, _) =>
      FlattenLength(env);
      BlockSimulated(natives, fuel, e, 0, map[], table, s, scope, level, env, node);
  }

  lemma {:induction false} ApplicationSimulated(
      natives: Natives, fuel: nat, e: Expr, table: seq<Literal>,
      s: Scope, scope: seq<Definition>, level: nat, env: Environment, node: Node)
    requires e.Call? && level == Depth(env) && RepresentsScope(table, s, scope, level, env, 0)
    requires Ready(e.fn, scope, level, table) && Ready(e.arg, scope, level, table) && node.Application?
    requires Decodes(node.fn, Compile(e.fn, scope, level, table), level, Bottom(env).constants)
    requires Decodes(node.arg, Compile(e.arg, scope, level, table), level, Bottom(env).constants)
    ensures Matches(Eval(natives, fuel, e, s), Evaluate(natives, fuel, node, env))
    decreases fuel, 2, e, 0
  {
    Simulated(natives, fuel, e.arg, table, s, scope, level, env, node.arg);
    Simulated(natives, fuel, e.fn, table, s, scope, level, env, node.fn);
    var a, f := Eval(natives, fuel, e.arg, s), Eval(natives, fuel, e.fn, s);
    if a.Some? && f.Some? {
      CallSimulated(natives, fuel, f.value, a.value,
        Evaluate(natives, fuel, node.fn, env).value, Evaluate(natives, fuel, node.arg, env).value);
    }
  }

  lemma {:induction false} BlockSimulated(
      natives: Natives, fuel: nat, block: Expr, at: nat, values: map<nat, SourceVal>, table: seq<Literal>,
      outer: Scope, scope: seq<Definition>, level: nat, env: Environment, node: Node)
    requires block.Where? && Ready(block, scope, level, table) && at <= |block.plan.order|
    requires level + at == Depth(env) <= |Flatten(env)| && RepresentsScope(table, outer, scope, level, env, at)
    requires RepresentsPrefix(table, block, values, outer, scope, level, at, env, 0)
    requires Decodes(node, CompileBlock(block, at, scope, level, table), level + at, Bottom(env).constants)
    ensures Matches(EvalBlock(natives, fuel, block, at, values, outer), Evaluate(natives, fuel, node, env))
    decreases fuel, 2, block, |block.plan.order| - at
  {
    if at == |block.plan.order| {
      BaseSimulated(natives, fuel, block, at, values, table, outer, scope, level, env, node);
    } else {
      BindingSimulated(natives, fuel, block, at, at + 1, values, table, outer, scope, level, env, node);
    }
  }

  lemma {:induction false} BindingSimulated(
      natives: Natives, fuel: nat, block: Expr, at: nat, next: nat, values: map<nat, SourceVal>, table: seq<Literal>,
      outer: Scope, scope: seq<Definition>, level: nat, env: Environment, node: Node)
    requires next == at + 1 && block.Where? && Ready(block, scope, level, table) && at < |block.plan.order|
    requires level + at == Depth(env) <= |Flatten(env)| && RepresentsScope(table, outer, scope, level, env, at)
    requires RepresentsPrefix(table, block, values, outer, scope, level, at, env, 0)
    requires Decodes(node, CompileBlock(block, at, scope, level, table), level + at, Bottom(env).constants)
    ensures Matches(EvalBlock(natives, fuel, block, at, values, outer), Evaluate(natives, fuel, node, env))
    decreases fuel, 2, block, |block.plan.order| - at, 1
  {
    BlockNode(block, at, next, table, scope, level, node, Bottom(env).constants);
    if !AtRecursive(block, at) {
      PlainBindingSimulated(natives, fuel, block, at, next, values, table, outer, scope, level, env, node);
    } else {
      RecursiveBindingSimulated(natives, fuel, block, at, next, values, table, outer, scope, level, env, node);
    }
  }

  lemma {:induction false} RecursiveBindingSimulated(
      natives: Natives, fuel: nat, block: Expr, at: nat, next: nat, values: map<nat, SourceVal>, table: seq<Literal>,
      outer: Scope, scope: seq<Definition>, level: nat, env: Environment, node: Node)
    requires next == at + 1 && block.Where? && Ready(block, scope, level, table) && at < |block.plan.order| && AtRecursive(block, at)
    requires level + at == Depth(env) <= |Flatten(env)| && RepresentsScope(table, outer, scope, level, env, at)
    requires RepresentsPrefix(table, block, values, outer, scope, level, at, env, 0)
    requires node.Application? && node.fn.Abstraction? && node.arg.Abstraction?
    requires Decodes(node.fn.body, CompileBlock(block, next, scope, level, table), level + next, Bottom(env).constants)
    requires Decodes(node.arg.body, Compile(block.bindings[block.plan.order[at]].value, [BlockPart(block, level, at)] + scope,
                                            level + at + 1, table), level + at + 1, Bottom(env).constants)
    ensures Matches(EvalBlock(natives, fuel, block, at, values, outer), Evaluate(natives, fuel, node, env))
    decreases fuel, 2, block, |block.plan.order| - at, 0
  {
    if fuel > 0 {
      var fd := FunctionData(env, node.arg.body, node.arg.codeIndex);
      RecursiveRepresented(table, block, values, outer, scope, level, at, fd);
      RestSimulated(natives, fuel, block, at, values, values, table, outer, scope, level, env, Closure(fd),
                    FunctionData(env, node.fn.body, node.fn.codeIndex), next);
    }
  }

  lemma BaseSimulated(
      natives: Natives, fuel: nat, block: Expr, at: nat, values: map<nat, SourceVal>, table: seq<Literal>,
      outer: Scope, scope: seq<Definition>, level: nat, env: Environment, node: Node)
    requires block.Where? && Ready(block, scope, level, table) && at == |block.plan.order|
    requires level + at == Depth(env) <= |Flatten(env)| && RepresentsScope(table, outer, scope, level, env, at)
    requires RepresentsPrefix(table, block, values, outer, scope, level, at, env, 0)
    requires Decodes(node, Compile(block.base, [BlockPart(block, level, at)] + scope, level + at, table), level + at,
                     Bottom(env).constants)
    ensures Matches(Eval(natives, fuel, block.base, Block(block, values, outer)), Evaluate(natives, fuel, node, env))
    decreases fuel, 2, block, 0, 0
  {
    PlainScope(table, block, at, values, outer, scope, level, env);
    Simulated(natives, fuel, block.base, table, Block(block, values, outer), [BlockPart(block, level, at)] + scope,
              level + at, env, node);
  }

  lemma PlainScope(table: seq<Literal>, block: Expr, at: nat, values: map<nat, SourceVal>, outer: Scope,
                   scope: seq<Definition>, level: nat, env: Environment)
    requires WellPlanned(block) && at <= |block.plan.order| && !AtRecursive(block, at)
    requires level + at == Depth(env) <= |Flatten(env)| && RepresentsScope(table, outer, scope, level, env, at)
    requires RepresentsPrefix(table, block, values, outer, scope, level, at, env, 0)
    ensures RepresentsScope(table, Block(block, values, outer), [BlockPart(block, level, at)] + scope, level + at, env, 0)
  {
    assert ([BlockPart(block, level, at)] + scope)[1..] == scope;
  }

  lemma {:induction false} PlainBindingSimulated(
      natives: Natives, fuel: nat, block: Expr, at: nat, next: nat, values: map<nat, SourceVal>, table: seq<Literal>,
      outer: Scope, scope: seq<Definition>, level: nat, env: Environment, node: Node)
    requires next == at + 1 && block.Where? && Ready(block, scope, level, table) && at < |block.plan.order| && !AtRecursive(block, at)
    requires level + at == Depth(env) <= |Flatten(env)| && RepresentsScope(table, outer, scope, level, env, at)
    requires RepresentsPrefix(table, block, values, outer, scope, level, at, env, 0)
    requires node.Application? && node.fn.Abstraction?
    requires Decodes(node.fn.body, CompileBlock(block, next, scope, level, table), level + next, Bottom(env).constants)
    requires Decodes(node.arg, Compile(block.bindings[block.plan.order[at]].value, [BlockPart(block, level, at)] + scope,
                                       level + at, table), level + at, Bottom(env).constants)
    ensures Matches(EvalBlock(natives, fuel, block, at, values, outer), Evaluate(natives, fuel, node, env))
    decreases fuel, 2, block, |block.plan.order| - at, 0
  {
    var i := block.plan.order[at];
    PlainValueSimulated(natives, fuel, block, at, values, table, outer, scope, level, env, node.arg);
    PlainStepEvaluates(natives, fuel, block, at, values, outer, env, node);
    var v := Eval(natives, fuel, block.bindings[i].value, Block(block, values, outer));
    if v.Some? && fuel > 0 {
      var x := Evaluate(natives, fuel, node.arg, env).value;
      PlainRestSimulated(natives, fuel, block, at, values, v.value, table, outer, scope, level, env, x,
                         FunctionData(env, node.fn.body, node.fn.codeIndex), next);
    }
  }

  lemma {:induction false} PlainRestSimulated(
      natives: Natives, fuel: nat, block: Expr, at: nat, values: map<nat, SourceVal>, v: SourceVal,
      table: seq<Literal>, outer: Scope, scope: seq<Definition>, level: nat, env: Environment, x: Val, fd: FunctionData,
      next: nat)
    requires fuel > 0 && block.Where? && Ready(block, scope, level, table) && at < |block.plan.order|
    requires !AtRecursive(block, at) && Represents(v, x) && fd.environment == env && next == at + 1
    requires level + at == Depth(env) <= |Flatten(env)| && RepresentsScope(table, outer, scope, level, env, at)
    requires RepresentsPrefix(table, block, values, outer, scope, level, at, env, 0)
    requires Decodes(fd.body, CompileBlock(block, next, scope, level, table), level + next, Bottom(env).constants)
    ensures Matches(EvalBlock(natives, fuel - 1, block, next, values[block.plan.order[at] := v], outer),
                    Apply(natives, fuel, Closure(fd), x))
    decreases fuel, 1, 0
  {
    var more := values[block.plan.order[at] := v];
    PlainRepresented(table, block, more, outer, scope, level, at, x);
    RestSimulated(natives, fuel, block, at, values, more, table, outer, scope, level, env, x, fd, next);
  }

  lemma PlainRepresented(
      table: seq<Literal>, block: Expr, values: map<nat, SourceVal>, outer: Scope,
      scope: seq<Definition>, level: nat, at: nat, x: Val)
    requires WellPlanned(block) && at < |block.plan.order| && !AtRecursive(block, at)
    requires block.plan.order[at] in values && Represents(values[block.plan.order[at]], x)
    ensures RepresentsBinding(table, block, values, outer, scope, level, at, x)
  {
  }

  lemma {:induction false} PlainValueSimulated(
      natives: Natives, fuel: nat, block: Expr, at: nat, values: map<nat, SourceVal>, table: seq<Literal>,
      outer: Scope, scope: seq<Definition>, level: nat, env: Environment, node: Node)
    requires block.Where? && Ready(block, scope, level, table) && at < |block.plan.order| && !AtRecursive(block, at)
    requires level + at == Depth(env) <= |Flatten(env)| && RepresentsScope(table, outer, scope, level, env, at)
    requires RepresentsPrefix(table, block, values, outer, scope, level, at, env, 0)
    requires Decodes(node, Compile(block.bindings[block.plan.order[at]].value, [BlockPart(block, level, at)] + scope,
                                   level + at, table), level + at, Bottom(env).constants)
    ensures Matches(Eval(natives, fuel, block.bindings[block.plan.order[at]].value, Block(block, values, outer)),
                    Evaluate(natives, fuel, node, env))
    decreases fuel, 2, block, 0, 0
  {
    PlainScope(table, block, at, values, outer, scope, level, env);
    Simulated(natives, fuel, block.bindings[block.plan.order[at]].value, table, Block(block, values, outer),
              [BlockPart(block, level, at)] + scope, level + at, env, node);
  }

  /** What computing the value of a binding that is not recursive, and going on with it, means on
      both sides. */
  lemma PlainStepEvaluates(natives: Natives, fuel: nat, block: Expr, at: nat, values: map<nat, SourceVal>, outer: Scope,
                           env: Environment, node: Node)
    requires WellPlanned(block) && at < |block.plan.order| && !AtRecursive(block, at)
    requires node.Application? && node.fn.Abstraction?
    ensures var i := block.plan.order[at];
      var v := Eval(natives, fuel, block.bindings[i].value, Block(block, values, outer));
      EvalBlock(natives, fuel, block, at, values, outer)
        == if v.None? || fuel == 0 then None else EvalBlock(natives, fuel - 1, block, at + 1, values[i := v.value], outer)
    ensures var w := Evaluate(natives, fuel, node.arg, env);
      Evaluate(natives, fuel, node, env)
        == if w.None? || fuel == 0 then None
           else Apply(natives, fuel, Closure(FunctionData(env, node.fn.body, node.fn.codeIndex)), w.value)
  {
  }

  /** Entering the function that binds the value `x` of the binding at `at`. */
  lemma {:induction false} RestSimulated(
      natives: Natives, fuel: nat, block: Expr, at: nat, values: map<nat, SourceVal>, more: map<nat, SourceVal>,
      table: seq<Literal>, outer: Scope, scope: seq<Definition>, level: nat, env: Environment, x: Val, fd: FunctionData,
      next: nat)
    requires fuel > 0 && block.Where? && Ready(block, scope, level, table) && at < |block.plan.order|
    requires level + at == Depth(env) <= |Flatten(env)| && RepresentsScope(table, outer, scope, level, env, at)
    requires RepresentsPrefix(table, block, values, outer, scope, level, at, env, 0)
    requires RepresentsBinding(table, block, more, outer, scope, level, at, x)
    requires forall i | i in values && i != block.plan.order[at] :: i in more && more[i] == values[i]
    requires fd.environment == env && next == at + 1
    requires Decodes(fd.body, CompileBlock(block, next, scope, level, table), level + next, Bottom(env).constants)
    ensures Matches(EvalBlock(natives, fuel - 1, block, next, more, outer),
                    Apply(natives, fuel, Closure(fd), x))
    decreases fuel, 1, 0, 0
  {
    var after := Frame([x], fd);
    NextBinding(table, block, values, more, outer, scope, level, at, env, x, fd, after, next);
    BodyEntered(natives, fuel, fd, x);
    NextSimulated(natives, fuel - 1, block, next, more, table, outer, scope, level, env, after, fd.body);
  }

  lemma {:induction false} NextSimulated(
      natives: Natives, fuel: nat, block: Expr, at: nat, values: map<nat, SourceVal>, table: seq<Literal>,
      outer: Scope, scope: seq<Definition>, level: nat, env: Environment, after: Environment, node: Node)
    requires block.Where? && Ready(block, scope, level, table) && at <= |block.plan.order|
    requires level + at == Depth(after) <= |Flatten(after)| && Bottom(after) == Bottom(env)
    requires RepresentsScope(table, outer, scope, level, after, at)
    requires RepresentsPrefix(table, block, values, outer, scope, level, at, after, 0)
    requires Decodes(node, CompileBlock(block, at, scope, level, table), level + at, Bottom(env).constants)
    ensures Matches(EvalBlock(natives, fuel, block, at, values, outer), Evaluate(natives, fuel, node, after))
    decreases fuel, 3
  {
    BlockSimulated(natives, fuel, block, at, values, table, outer, scope, level, after, node);
  }

  lemma BodyEntered(natives: Natives, fuel: nat, fd: FunctionData, x: Val)
    requires fuel > 0
    ensures Apply(natives, fuel, Closure(fd), x) == Evaluate(natives, fuel - 1, fd.body, Frame([x], fd))
  {
  }

  lemma RecursiveRepresented(
      table: seq<Literal>, block: Expr, values: map<nat, SourceVal>, outer: Scope,
      scope: seq<Definition>, level: nat, at: nat, fd: FunctionData)
    requires block.Where? && Ready(block, scope, level, table) && at < |block.plan.order| && AtRecursive(block, at)
    requires level + at == Depth(fd.environment) <= |Flatten(fd.environment)|
    requires RepresentsScope(table, outer, scope, level, fd.environment, at)
    requires RepresentsPrefix(table, block, values, outer, scope, level, at, fd.environment, 0)
    requires Decodes(fd.body, Compile(block.bindings[block.plan.order[at]].value, [BlockPart(block, level, at)] + scope,
                                      level + at + 1, table), level + at + 1, Bottom(fd.environment).constants)
    ensures RepresentsBinding(table, block, values, outer, scope, level, at, Closure(fd))
  {
  }

  /** The shape of the code for a block that still has bindings to compute. */
  lemma BlockNode(
      block: Expr, at: nat, next: nat, table: seq<Literal>, scope: seq<Definition>, level: nat, node: Node, constants: seq<Val>)
    requires next == at + 1 && WellPlanned(block) && at < |block.plan.order|
    requires Decodes(node, CompileBlock(block, at, scope, level, table), level + at, constants)
    ensures node.Application? && node.fn.Abstraction?
    ensures Decodes(node.fn.body, CompileBlock(block, next, scope, level, table), level + next, constants)
    ensures var i := block.plan.order[at];
            var inside := [BlockPart(block, level, at)] + scope;
            if block.plan.IsRecursive(i) then
              node.arg.Abstraction?
              && Decodes(node.arg.body, Compile(block.bindings[i].value, inside, level + at + 1, table),
                         level + at + 1, constants)
            else
              Decodes(node.arg, Compile(block.bindings[i].value, inside, level + at, table), level + at, constants)
  {
    assert Decodes(node.fn, Abs(CompileBlock(block, at + 1, scope, level, table)), level + at, constants);
    assert Decodes(node.arg, CompileBinding(block, at, scope, level, table), level + at, constants);
  }

  /** Bringing the binding at `at` into scope extends the represented prefix. */
  lemma NextBinding(
      table: seq<Literal>, block: Expr, values: map<nat, SourceVal>, more: map<nat, SourceVal>, outer: Scope,
      scope: seq<Definition>, level: nat, at: nat, env: Environment, x: Val, fd: FunctionData, after: Environment,
      next: nat)
    requires WellPlanned(block) && at < |block.plan.order| && fd.environment == env && after == Frame([x], fd) && next == at + 1
    requires level + at == Depth(env) <= |Flatten(env)| && RepresentsScope(table, outer, scope, level, env, at)
    requires RepresentsPrefix(table, block, values, outer, scope, level, at, env, 0)
    requires RepresentsBinding(table, block, more, outer, scope, level, at, x)
    requires forall i | i in values && i != block.plan.order[at] :: i in more && more[i] == values[i]
    ensures level + next == Depth(after) <= |Flatten(after)| && Bottom(after) == Bottom(env)
    ensures RepresentsScope(table, outer, scope, level, after, next)
    ensures RepresentsPrefix(table, block, more, outer, scope, level, next, after, 0)
  {
    FramePushed(x, fd);
    FlattenLength(after);
    PushScope(table, outer, scope, level, env, at, after);
    PushPrefix(table, block, values, outer, scope, level, at, env, 0, after);
    ExtendPrefix(table, block, values, more, outer, scope, level, at, after);
  }

  lemma ExtendPrefix(
      table: seq<Literal>, block: Expr, values: map<nat, SourceVal>, more: map<nat, SourceVal>, outer: Scope,
      scope: seq<Definition>, level: nat, at: nat, after: Environment)
    requires WellPlanned(block) && at < |block.plan.order| && at + 1 <= |Flatten(after)|
    requires RepresentsPrefix(table, block, values, outer, scope, level, at, after, 1)
    requires RepresentsBinding(table, block, more, outer, scope, level, at, Flatten(after)[0])
    requires forall i | i in values && i != block.plan.order[at] :: i in more && more[i] == values[i]
    ensures RepresentsPrefix(table, block, more, outer, scope, level, at + 1, after, 0)
  {
    forall j | 0 <= j < 0 + (at + 1)
      ensures RepresentsBinding(table, block, more, outer, scope, level, 0 + (at + 1) - 1 - j, Flatten(after)[j])
    {
      if j > 0 { EarlierBinding(table, block, values, more, outer, scope, level, at, after, j); }
    }
  }

  lemma EarlierBinding(
      table: seq<Literal>, block: Expr, values: map<nat, SourceVal>, more: map<nat, SourceVal>, outer: Scope,
      scope: seq<Definition>, level: nat, at: nat, after: Environment, j: nat)
    requires WellPlanned(block) && at < |block.plan.order| && at + 1 <= |Flatten(after)| && 0 < j <= at
    requires RepresentsPrefix(table, block, values, outer, scope, level, at, after, 1)
    requires forall i | i in values && i != block.plan.order[at] :: i in more && more[i] == values[i]
    ensures RepresentsBinding(table, block, more, outer, scope, level, at - j, Flatten(after)[j])
  {
    assert RepresentsBinding(table, block, values, outer, scope, level, 1 + at - 1 - j, Flatten(after)[j]);
    LaterValue(table, block, values, outer, scope, level, at - j, Flatten(after)[j], more);
  }

  lemma {:induction false} CallSimulated(natives: Natives, fuel: nat, f: SourceVal, a: SourceVal, g: Val, b: Val)
    requires Represents(f, g) && Represents(a, b)
    ensures Matches(CallValue(natives, fuel, f, a), Apply(natives, fuel, g, b))
    decreases fuel, 0, 0
  {
    match g
    case Closure(fd) =>
      if fuel > 0 {
        var table, scope :| RepresentsFunction(table, scope, f.c, fd);
        var level := Depth(fd.environment);
        var inside := [Params(f.c.params, level)] + scope;
        assert inside[1..] == scope;
        FramePushed(b, fd);
        FlattenLength(Frame([b], fd));
        PushScope(table, f.c.scope, scope, level, fd.environment, 0, Frame([b], fd));
        Simulated(natives, fuel - 1, f.c.body, table, Parameters(f.c.params, a, f.c.scope), inside, level + 1,
                  Frame([b], fd), fd.body);
      }
    case Data(_, _) =>
      NativesRespectRepresentation(natives, f, a, g, b);
      match NativeAction(natives, ShapeOf(g), ShapeOf(b)) {
        case Return(_) =>
        case TailCall(c, x) =>
          if fuel > 0 {
            CallSimulated(natives, fuel - 1, Cook(c, f, a), Cook(x, f, a), Cook(c, g, b), Cook(x, g, b));
          }
      }
  }
}
