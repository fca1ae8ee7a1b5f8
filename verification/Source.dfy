/** Expressions of the source language, and their direct evaluation in environments of
    named variables. */
module Source {
  import opened Values

  datatype Literal = Import(path: string) | Integer(value: int) | Atom(name: string) | Bytes(bytes: string)

  /** `escape` is the number of backslashes before a variable's name.  A where block carries
      the plan worked out for it before code generation. */
  datatype Expr =
    | Variable(name: string, escape: nat)
    | Lambda(params: seq<string>, body: Expr)
    | Call(fn: Expr, arg: Expr)
    | Lit(literal: Literal)
    | Where(base: Expr, bindings: seq<Binding>, plan: Plan)

  datatype Binding = Binding(name: string, value: Expr)

  /** `order` lists the bindings to compute, earliest first; bindings not listed are dropped.
      `recursive[i]` lists the bindings that binding `i` must receive as parameters because it
      is computed no later than they are. */
  datatype Plan = Plan(order: seq<nat>, recursive: seq<seq<nat>>) {
    predicate IsRecursive(i: nat) { i < |recursive| && recursive[i] != [] }
  }

  type SourceVal = V<SourceClosure>

  datatype SourceClosure = SourceClosure(params: seq<string>, body: Expr, scope: Scope)

  /** Scopes, innermost first.  The values of a block's non-recursive bindings are stored;
      recursive bindings are re-evaluated wherever they are mentioned. */
  datatype Scope =
    | Module(imports: map<string, SourceVal>)
    | Parameters(names: seq<string>, argument: SourceVal, outer: Scope)
    | Block(block: Expr, values: map<nat, SourceVal>, outer: Scope)

  function IndexOf(names: seq<string>, name: string): (i: nat)
    ensures i < |names| <==> name in names
    ensures i < |names| ==> names[i] == name && name !in names[..i]
    ensures i <= |names|
  {
    if names == [] then 0 else if names[0] == name then 0 else 1 + IndexOf(names[1..], name)
  }

  function Names(bindings: seq<Binding>): (names: seq<string>)
    ensures |names| == |bindings|
    ensures forall i | 0 <= i < |bindings| :: names[i] == bindings[i].name
  {
    seq(|bindings|, i requires 0 <= i < |bindings| => bindings[i].name)
  }

  /** The first binding of that name. */
  function Find(bindings: seq<Binding>, name: string): (found: Option<nat>)
    ensures found.None? <==> forall i | 0 <= i < |bindings| :: bindings[i].name != name
    ensures found.Some? ==> found.value < |bindings| && bindings[found.value].name == name
    ensures found.Some? ==> forall i | 0 <= i < found.value :: bindings[i].name != name
  {
    var i := IndexOf(Names(bindings), name);
    if i < |bindings| then Some(i) else None
  }

  function Imports(s: Scope): map<string, SourceVal> {
    match s
    case Module(imports) => imports
    case Parameters(_, _, outer) => Imports(outer)
    case Block(_, _, outer) => Imports(outer)
  }

  function LiteralValue(imports: map<string, SourceVal>, l: Literal): SourceVal {
    match l
    case Import(path) => if path in imports then imports[path] else Error("Unknown module: " + path)
    case Integer(i) => Int(i)
    case Atom(name) => Data(AtomTag(name), [])
    case Bytes(bytes) => Data(BytesTag(bytes), [])
  }

  /** What an undefined variable stands for, once the error has been logged. */
  function Identity(imports: map<string, SourceVal>): SourceVal {
    Closure(SourceClosure(["x"], Variable("x", 0), Module(imports)))
  }

  /** Evaluate `e`.  Fuel bounds the nesting of calls, of recursive bindings being unfolded, and
      of bindings coming into scope; None means it ran out. */
  function Eval(natives: Natives, fuel: nat, e: Expr, s: Scope): Option<SourceVal>
    decreases fuel, 2, e
  {
    match e
    case Variable(name, escape) => Reference(natives, fuel, name, escape, s)
    case Lambda(params, body) => Some(Closure(SourceClosure(params, body, s)))
    case Call(fn, arg) =>
      (match Eval(natives, fuel, arg, s)
       case None => None
       case Some(a) =>
         match Eval(natives, fuel, fn, s)
         case None => None
         case Some(f) => CallValue(natives, fuel, f, a))
    case Lit(literal) => Some(LiteralValue(Imports(s), literal))
    case Where(_, _, _) => EvalBlock(natives, fuel, e, 0, map[], s)
  }

  /** The variable called `name`, skipping `escape` enclosing definitions of that name.  A
      member of a parameter list is the argument applied to the member's position. */
  function Reference(natives: Natives, fuel: nat, name: string, escape: nat, s: Scope): Option<SourceVal>
    decreases fuel, 1, s
  {
    match s
    case Module(imports) => Some(Identity(imports))
    case Parameters(names, argument, outer) =>
      if name !in names then Reference(natives, fuel, name, escape, outer)
      else if escape > 0 then Reference(natives, fuel, name, escape - 1, outer)
      else if |names| == 1 then Some(argument)
      else CallValue(natives, fuel, argument, Int(IndexOf(names, name)))
    case Block(block, values, outer) =>
      if !block.Where? then Reference(natives, fuel, name, escape, outer)
      else match Find(block.bindings, name)
        case None => Reference(natives, fuel, name, escape, outer)
        case Some(i) =>
          if escape > 0 then Reference(natives, fuel, name, escape - 1, outer)
          else if block.plan.IsRecursive(i) then
            if fuel == 0 then None else Eval(natives, fuel - 1, block.bindings[i].value, s)
          else if i in values then Some(values[i])
          else Some(Error("Binding was not planned: " + name))
  }

  /** Compute the bindings from position `at` of the plan on, then the base expression. */
  function EvalBlock(natives: Natives, fuel: nat, block: Expr, at: nat, values: map<nat, SourceVal>, outer: Scope)
      : Option<SourceVal>
    requires block.Where? && at <= |block.plan.order|
    decreases fuel, 2, block, |block.plan.order| - at
  {
    var s := Block(block, values, outer);
    if at == |block.plan.order| then Eval(natives, fuel, block.base, s)
    else
      var i := block.plan.order[at];
      if block.plan.IsRecursive(i) || i >= |block.bindings| then
        if fuel == 0 then None else EvalBlock(natives, fuel - 1, block, at + 1, values, outer)
      else
        match Eval(natives, fuel, block.bindings[i].value, s)
        case None => None
        case Some(v) =>
          if fuel == 0 then None else EvalBlock(natives, fuel - 1, block, at + 1, values[i := v], outer)
  }

  function CallValue(natives: Natives, fuel: nat, f: SourceVal, a: SourceVal): Option<SourceVal>
    decreases fuel, 0
  {
    match f
    case Closure(c) =>
      if fuel == 0 then None else Eval(natives, fuel - 1, c.body, Parameters(c.params, a, c.scope))
    case Data(_, _) =>
      match NativeAction(natives, ShapeOf(f), ShapeOf(a))
      case Return(r) => Some(Cook(r, f, a))
      case TailCall(g, b) =>
        if fuel == 0 then None else CallValue(natives, fuel - 1, Cook(g, f, a), Cook(b, f, a))
  }
}
