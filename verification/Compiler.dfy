/** Code generation: named variables become positions, where blocks become nested function
    calls, and recursive bindings become functions applied to themselves. */
module Compiler {
  import opened Values
  import opened CodeTree
  import opened Source

  /** The enclosing definitions at a point of the program, innermost first, as the code
      generator sees them.  `level` counts the functions around the definition; `at` is the
      position in the plan of the binding being generated, or the plan's length for the base
      expression. */
  datatype Definition =
    | Params(names: seq<string>, level: nat)
    | BlockPart(block: Expr, level: nat, at: nat)

  function PositionOf<T(==)>(items: seq<T>, x: T): (p: nat)
    ensures p <= |items|
    ensures p < |items| <==> x in items
    ensures p < |items| ==> items[p] == x
  {
    if items == [] then 0 else if items[0] == x then 0 else 1 + PositionOf(items[1..], x)
  }

  /** The variable bound by the function at nesting depth `at`, seen from depth `level`. */
  function Local(level: nat, at: nat): Term { Var(if at < level then level - at - 1 else 0) }

  function Global(level: nat, table: seq<Literal>, l: Literal): Term { Var(level + PositionOf(table, l)) }

  predicate AtRecursive(block: Expr, at: nat)
    requires block.Where?
  {
    at < |block.plan.order| && block.plan.IsRecursive(block.plan.order[at])
  }

  function Compile(e: Expr, scope: seq<Definition>, level: nat, table: seq<Literal>): Term
    decreases e
  {
    match e
    case Variable(name, escape) => CompileReference(name, escape, scope, level, table)
    case Lambda(params, body) => Abs(Compile(body, [Params(params, level)] + scope, level + 1, table))
    case Call(fn, arg) => App(Compile(fn, scope, level, table), Compile(arg, scope, level, table))
    case Lit(literal) => Global(level, table, literal)
    case Where(_, _, _) => CompileBlock(e, 0, scope, level, table)
  }

  /** The part of a block from position `at` of its plan on; `level` is the block's own. */
  function CompileBlock(block: Expr, at: nat, scope: seq<Definition>, level: nat, table: seq<Literal>): Term
    requires block.Where? && at <= |block.plan.order|
    decreases block, |block.plan.order| - at
  {
    if at == |block.plan.order| then
      Compile(block.base, [BlockPart(block, level, at)] + scope, level + at, table)
    else
      App(Abs(CompileBlock(block, at + 1, scope, level, table)), CompileBinding(block, at, scope, level, table))
  }

  function CompileBinding(block: Expr, at: nat, scope: seq<Definition>, level: nat, table: seq<Literal>): Term
    requires block.Where? && at < |block.plan.order|
    decreases block, |block.plan.order| - at, 0
  {
    var i := block.plan.order[at];
    if i >= |block.bindings| then Var(0)
    else if block.plan.IsRecursive(i) then
      Abs(Compile(block.bindings[i].value, [BlockPart(block, level, at)] + scope, level + at + 1, table))
    else
      Compile(block.bindings[i].value, [BlockPart(block, level, at)] + scope, level + at, table)
  }

  function CompileReference(name: string, escape: nat, scope: seq<Definition>, level: nat, table: seq<Literal>): Term
    decreases scope
  {
    if scope == [] then Abs(Var(0))
    else match scope[0]
      case Params(names, at) =>
        if name !in names then CompileReference(name, escape, scope[1..], level, table)
        else if escape > 0 then CompileReference(name, escape - 1, scope[1..], level, table)
        else if |names| == 1 then Local(level, at)
        else App(Local(level, at), Global(level, table, Integer(IndexOf(names, name))))
      case BlockPart(block, blockLevel, at) =>
        if !block.Where? then CompileReference(name, escape, scope[1..], level, table)
        else match Find(block.bindings, name)
          case None => CompileReference(name, escape, scope[1..], level, table)
          case Some(i) =>
            if escape > 0 then CompileReference(name, escape - 1, scope[1..], level, table)
            else CompileUse(block, blockLevel, at, i, level, table)
  }

  /** A mention of binding `i` itself: a parameter when `i` is not computed before the binding
      being generated, an ordinary variable otherwise. */
  function BindingVariable(block: Expr, blockLevel: nat, at: nat, i: nat, level: nat, table: seq<Literal>): Term
    requires block.Where?
  {
    var position := PositionOf(block.plan.order, i);
    if at <= position then
      var recursive := if at < |block.plan.order| && block.plan.order[at] < |block.plan.recursive|
                       then block.plan.recursive[block.plan.order[at]] else [];
      var parameter := Local(level, blockLevel + at);
      if |recursive| == 1 then parameter
      else App(parameter, Global(level, table, Integer(PositionOf(recursive, i))))
    else Local(level, blockLevel + position)
  }

  /** A mention of binding `i`, applied to its recursive variables if it has any. */
  function CompileUse(block: Expr, blockLevel: nat, at: nat, i: nat, level: nat, table: seq<Literal>): Term
    requires block.Where?
  {
    var self := BindingVariable(block, blockLevel, at, i, level, table);
    if !block.plan.IsRecursive(i) then self
    else App(self, CompileParameters(block, blockLevel, at, block.plan.recursive[i], level, table))
  }

  /** Recursive variables, as they are passed on: a single one as it is, several in a tuple. */
  function CompileParameters(block: Expr, blockLevel: nat, at: nat, recursive: seq<nat>, level: nat, table: seq<Literal>): Term
    requires block.Where?
  {
    if |recursive| == 1 then BindingVariable(block, blockLevel, at, recursive[0], level, table)
    else Tuple(TupleBuilder(|recursive|, level, table), block, blockLevel, at, recursive, level, table)
  }

  function TupleBuilder(size: nat, level: nat, table: seq<Literal>): Term {
    App(App(App(Global(level, table, Import("builtin")), Global(level, table, Import("tuple"))),
            Global(level, table, Atom("builder"))),
        Global(level, table, Integer(size)))
  }

  function Tuple(builder: Term, block: Expr, blockLevel: nat, at: nat, members: seq<nat>, level: nat, table: seq<Literal>): Term
    requires block.Where?
  {
    if members == [] then builder
    else
      var n := |members| - 1;
      App(Tuple(builder, block, blockLevel, at, members[..n], level, table),
          BindingVariable(block, blockLevel, at, members[n], level, table))
  }
}
