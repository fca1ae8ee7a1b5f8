/** Planned evaluation computes what the mutually recursive definitions mean. */
module LetrecCorrect {
  import opened Values
  import opened Source
  import opened Compiler
  import opened CompilerCorrect
  import opened Letrec
  import Frontend
  import Graphs
  import WhereBlock

  /** The bindings computed once, before the base expression, are those it depends on that do not
      depend on themselves. */
  ghost predicate ExactPlan(block: Expr)
    requires block.Where?
  {
    forall i: nat {:trigger Demanded(Erase(block.base), EraseBindings(block.bindings), i)} | i < |block.bindings| ::
      i in block.plan.order && !block.plan.IsRecursive(i) <==> Demanded(Erase(block.base), EraseBindings(block.bindings), i)
  }

  ghost predicate Exact(e: Expr) {
    match e
    case Variable(_, _) => true
    case Lambda(_, body) => Exact(body)
    case Call(fn, arg) => Exact(fn) && Exact(arg)
    case Lit(_) => true
    case Where(base, bindings, _) =>
      ExactPlan(e) && Exact(base) && forall i | 0 <= i < |bindings| :: Exact(bindings[i].value)
  }

  /** Positions below this one hold values when the binding at `at` runs: its own position, or
      that of its recursive variable. */
  function Limit(block: Expr, at: nat): nat
    requires block.Where? && at <= |block.plan.order|
  {
    if AtRecursive(block, at) then
      var r := PositionOf(block.plan.order, block.plan.recursive[block.plan.order[at]][0]);
      if r < at then at else r
    else at
  }

  ghost predicate Means(natives: Natives, eager: bool, v: SourceVal, w: Meaning)
    decreases v, 0
  {
    match v
    case Data(tag, parts) =>
      w.Data? && w.tag == tag && |w.parts| == |parts|
      && forall i | 0 <= i < |parts| :: Means(natives, eager, parts[i], w.parts[i])
    case Closure(c) =>
      w.Closure? && exists table, scope, level: nat :: FunctionMeans(natives, eager, table, scope, level, c, w.c)
  }

  ghost predicate FunctionMeans(natives: Natives, eager: bool, table: seq<Literal>, scope: seq<Definition>, level: nat,
                                c: SourceClosure, f: Function)
    decreases c
  {
    && c.params == f.params && f.body == Erase(c.body) && Exact(c.body)
    && Ready(c.body, [Params(c.params, level)] + scope, level + 1, table)
    && ScopeMeans(natives, eager, table, c.scope, scope, f.scope)
  }

  ghost predicate ScopeMeans(natives: Natives, eager: bool, table: seq<Literal>, s: Scope, scope: seq<Definition>, t: Definitions)
    decreases s
  {
    match s
    case Module(imports) =>
      && scope == [] && t.Top? && imports.Keys == t.imports.Keys
      && forall path | path in imports :: Means(natives, eager, imports[path], t.imports[path])
    case Parameters(names, argument, outer) =>
      && scope != [] && scope[0].Params? && scope[0].names == names
      && t.Bound? && t.names == names && Means(natives, eager, argument, t.argument)
      && ScopeMeans(natives, eager, table, outer, scope[1..], t.outer)
    case Block(block, values, outer) =>
      && scope != [] && scope[0].BlockPart? && scope[0].block == block && BlockReady(block, scope[1..], scope[0].level, table)
      && Exact(block)
      && scope[0].at <= |block.plan.order| && Computed(block, Limit(block, scope[0].at), values)
      && t.Recursive? && t.bindings == EraseBindings(block.bindings)
      && (forall i | i in values :: i < |block.bindings| && exists g: nat :: ValueMeans(natives, eager, values[i], g, block, i, t))
      && ScopeMeans(natives, eager, table, outer, scope[1..], t.outer)
  }

  /** The value of binding `i` is what its definition means, evaluated with `g` fuel. */
  ghost predicate ValueMeans(natives: Natives, eager: bool, v: SourceVal, g: nat, block: Expr, i: nat, t: Definitions)
    requires block.Where? && i < |block.bindings|
    decreases v, 1
  {
    var w := Denote(natives, eager, g, Erase(block.bindings[i].value), t);
    w.Some? && Means(natives, eager, v, w.value)
  }

  ghost predicate BlockReady(block: Expr, scope: seq<Definition>, level: nat, table: seq<Literal>) {
    && WellPlanned(block)
    && forall at | 0 <= at < |block.plan.order| ::
         Ready(block.bindings[block.plan.order[at]].value, [BlockPart(block, level, at)] + scope, InsideLevel(block, level, at), table)
  }

  /** All non-recursive bindings before position `n` have values. */
  ghost predicate Computed(block: Expr, n: nat, values: map<nat, SourceVal>)
    requires WellPlanned(block)
  {
    forall k | 0 <= k < n && k < |block.plan.order| && !block.plan.IsRecursive(block.plan.order[k]) ::
      block.plan.order[k] in values
  }

  lemma MeaningIsStructural(natives: Natives, eager: bool)
    ensures Structural((v: SourceVal, w: Meaning) => Means(natives, eager, v, w))
  {
  }

  lemma NativesRespectMeaning(natives: Natives, eager: bool, f: SourceVal, a: SourceVal, g: Meaning, b: Meaning)
    requires Means(natives, eager, f, g) && Means(natives, eager, a, b)
    ensures NativeAction(natives, ShapeOf(f), ShapeOf(a)) == NativeAction(natives, ShapeOf(g), ShapeOf(b))
    ensures var action := NativeAction(natives, ShapeOf(g), ShapeOf(b));
            if action.Return? then
              Means(natives, eager, Cook(action.result, f, a), Cook(action.result, g, b))
            else
              && Means(natives, eager, Cook(action.callee, f, a), Cook(action.callee, g, b))
              && Means(natives, eager, Cook(action.argument, f, a), Cook(action.argument, g, b))
  {
    var rel := (v: SourceVal, w: Meaning) => Means(natives, eager, v, w);
    MeaningIsStructural(natives, eager);
    SameShape(rel, f, g);
    SameShape(rel, a, b);
    var action := NativeAction(natives, ShapeOf(g), ShapeOf(b));
    if action.Return? {
      CookRelated(rel, action.result, f, a, g, b);
    } else {
      CookRelated(rel, action.callee, f, a, g, b);
      CookRelated(rel, action.argument, f, a, g, b);
    }
  }

  // ---------------------------------------------------------------------------
  // The simulation: each lemma returns enough fuel for the meaning.

  ghost predicate Agrees(natives: Natives, eager: bool, v: Option<SourceVal>, w: Option<Meaning>) {
    v.Some? && w.Some? && Means(natives, eager, v.value, w.value)
  }

  lemma LiteralMeans(natives: Natives, eager: bool, table: seq<Literal>, s: Scope, scope: seq<Definition>, t: Definitions, l: Literal)
    requires ScopeMeans(natives, eager, table, s, scope, t)
    ensures Means(natives, eager, LiteralValue(Imports(s), l), LiteralMeaning(ImportsOf(t), l))
    decreases s
  {
    match s
    case Module(_) =>
    case Parameters(_, _, outer) => LiteralMeans(natives, eager, table, outer, scope[1..], t.outer, l);
    case Block(_, _, outer) => LiteralMeans(natives, eager, table, outer, scope[1..], t.outer, l);
  }

  lemma FunctionHasMeaning(natives: Natives, eager: bool, table: seq<Literal>, scope: seq<Definition>, level: nat, c: SourceClosure, f: Function)
    requires FunctionMeans(natives, eager, table, scope, level, c, f)
    ensures Means(natives, eager, Closure(c), Closure(f))
  {
  }

  lemma {:induction false} EvalMeans(natives: Natives, eager: bool, fuel: nat, e: Expr, table: seq<Literal>, s: Scope,
                                     scope: seq<Definition>, level: nat, t: Definitions) returns (g: nat)
    requires Eval(natives, fuel, e, s).Some?
    requires ScopeMeans(natives, eager, table, s, scope, t) && Ready(e, scope, level, table) && Exact(e)
    ensures Agrees(natives, eager, Eval(natives, fuel, e, s), Denote(natives, eager, g, Erase(e), t))
    decreases fuel, 2, e
  {
    g := 0;
    match e
    case Variable(name, escape) => g := ReferenceMeans(natives, eager, fuel, name, escape, table, s, scope, t);
    case Lambda(params, body) =>
      FunctionHasMeaning(natives, eager, table, scope, level, SourceClosure(params, body, s), Function(params, Erase(body), t));
    case Call(fn, arg) =>
      var a := EvalMeans(natives, eager, fuel, arg, table, s, scope, level, t);
      var f := EvalMeans(natives, eager, fuel, fn, table, s, scope, level, t);
      var x, y := Denote(natives, eager, a, Erase(arg), t).value, Denote(natives, eager, f, Erase(fn), t).value;
      var c := CallMeans(natives, eager, fuel, Eval(natives, fuel, fn, s).value, Eval(natives, fuel, arg, s).value, y, x);
      g := a + f + c;
      DenoteMore(natives, eager, a, g, Erase(arg), t);
      DenoteMore(natives, eager, f, g, Erase(fn), t);
      InvokeMore(natives, eager, c, g, y, x);
    case Lit(literal) => LiteralMeans(natives, eager, table, s, scope, t, literal);
    case Where(_, bindings, _) => g := BlockMeans(natives, eager, fuel, e, 0, map[], table, s, scope, level, t);
  }

  lemma {:induction false} CallMeans(natives: Natives, eager: bool, fuel: nat, f: SourceVal, a: SourceVal, y: Meaning, x: Meaning) returns (g: nat)
    requires Means(natives, eager, f, y) && Means(natives, eager, a, x) && CallValue(natives, fuel, f, a).Some?
    ensures Agrees(natives, eager, CallValue(natives, fuel, f, a), Invoke(natives, eager, g, y, x))
    decreases fuel, 0
  {
    g := 0;
    match f
    case Closure(c) =>
      var table, scope, level: nat :| FunctionMeans(natives, eager, table, scope, level, c, y.c);
      var inside := [Params(c.params, level)] + scope;
      assert inside[1..] == scope;
      g := EvalMeans(natives, eager, fuel - 1, c.body, table, Parameters(c.params, a, c.scope), inside, level + 1,
                     Bound(y.c.params, x, y.c.scope));
      g := g + 1;
    case Data(_, _) =>
      NativesRespectMeaning(natives, eager, f, a, y, x);
      match NativeAction(natives, ShapeOf(f), ShapeOf(a)) {
        case Return(_) =>
        case TailCall(h, b) =>
          g := CallMeans(natives, eager, fuel - 1, Cook(h, f, a), Cook(b, f, a), Cook(h, y, x), Cook(b, y, x));
          g := g + 1;
      }
  }

  lemma {:induction false} ReferenceMeans(natives: Natives, eager: bool, fuel: nat, name: string, escape: nat, table: seq<Literal>,
                                          s: Scope, scope: seq<Definition>, t: Definitions) returns (g: nat)
    requires Reference(natives, fuel, name, escape, s).Some?
    requires ScopeMeans(natives, eager, table, s, scope, t) && ReadyReference(name, escape, scope, table)
    ensures Agrees(natives, eager, Reference(natives, fuel, name, escape, s), Mention(natives, eager, g, name, escape, t))
    decreases fuel, 1, s
  {
    g := 0;
    match s
    case Module(imports) =>
      FunctionHasMeaning(natives, eager, table, [], 0, Identity(imports).c, Function(["x"], Variable("x", 0), t));
    case Parameters(names, argument, outer) =>
      if name !in names {
        g := ReferenceMeans(natives, eager, fuel, name, escape, table, outer, scope[1..], t.outer);
      } else if escape > 0 {
        g := ReferenceMeans(natives, eager, fuel, name, escape - 1, table, outer, scope[1..], t.outer);
      } else if |names| != 1 {
        g := CallMeans(natives, eager, fuel, argument, Int(IndexOf(names, name)), t.argument, Int(IndexOf(names, name)));
      }
    case Block(_, _, _) => g := BlockReferenceMeans(natives, eager, fuel, name, escape, table, s, scope, t);
  }

  lemma {:induction false} BlockReferenceMeans(natives: Natives, eager: bool, fuel: nat, name: string, escape: nat, table: seq<Literal>,
                                               s: Scope, scope: seq<Definition>, t: Definitions) returns (g: nat)
    requires s.Block? && Reference(natives, fuel, name, escape, s).Some?
    requires ScopeMeans(natives, eager, table, s, scope, t) && ReadyReference(name, escape, scope, table)
    ensures Agrees(natives, eager, Reference(natives, fuel, name, escape, s), Mention(natives, eager, g, name, escape, t))
    decreases fuel, 1, s, 0
  {
    assert Names(EraseBindings(s.block.bindings)) == Names(s.block.bindings);
    match Find(s.block.bindings, name)
    case None => g := ReferenceMeans(natives, eager, fuel, name, escape, table, s.outer, scope[1..], t.outer);
    case Some(i) =>
      if escape > 0 {
        g := ReferenceMeans(natives, eager, fuel, name, escape - 1, table, s.outer, scope[1..], t.outer);
      } else {
        g := UseMeans(natives, eager, fuel, i, table, s, scope, t);
      }
  }

  /** A mention of a binding: its stored value if it has one, otherwise its definition. */
  lemma {:induction false} UseMeans(natives: Natives, eager: bool, fuel: nat, i: nat, table: seq<Literal>, s: Scope,
                                    scope: seq<Definition>, t: Definitions) returns (g: nat)
    requires s.Block? && ScopeMeans(natives, eager, table, s, scope, t) && ReadyUse(s.block, scope[0].at, i)
    requires s.block.plan.IsRecursive(i) ==> fuel > 0 && Eval(natives, fuel - 1, s.block.bindings[i].value, s).Some?
    ensures g > 0 && i < |s.block.bindings| && (!s.block.plan.IsRecursive(i) ==> i in s.values)
    ensures Agrees(natives, eager,
              if s.block.plan.IsRecursive(i) then Eval(natives, fuel - 1, s.block.bindings[i].value, s) else Some(s.values[i]),
              Denote(natives, eager, g - 1, Erase(s.block.bindings[i].value), t))
    decreases fuel, 0
  {
    var block, at := s.block, scope[0].at;
    var position := PositionOf(block.plan.order, i);
    if block.plan.IsRecursive(i) {
      var there := [BlockPart(block, scope[0].level, position)] + scope[1..];
      MoveTo(natives, eager, table, s, scope, i, t);
      g := EvalMeans(natives, eager, fuel - 1, block.bindings[i].value, table, s, there, InsideLevel(block, scope[0].level, position), t);
      g := g + 1;
    } else {
      assert block.plan.order[position] in s.values;
      var h: nat :| ValueMeans(natives, eager, s.values[i], h, block, i, t);
      g := h + 1;
    }
  }

  /** The scope seen by one binding serves any recursive binding that it can mention. */
  lemma MoveTo(natives: Natives, eager: bool, table: seq<Literal>, s: Scope, scope: seq<Definition>, i: nat, t: Definitions)
    requires s.Block? && ScopeMeans(natives, eager, table, s, scope, t)
    requires ReadyUse(s.block, scope[0].at, i) && s.block.plan.IsRecursive(i)
    ensures var position := PositionOf(s.block.plan.order, i);
      && position < |s.block.plan.order|
      && ScopeMeans(natives, eager, table, s, [BlockPart(s.block, scope[0].level, position)] + scope[1..], t)
  {
    var block, at := s.block, scope[0].at;
    var position := PositionOf(block.plan.order, i);
    assert ([BlockPart(block, scope[0].level, position)] + scope[1..])[1..] == scope[1..];
    assert Limit(block, position) <= Limit(block, at);
  }

  /** The bindings before position `at` have been computed, and mean what they should. */
  ghost predicate BlockUnderWay(natives: Natives, eager: bool, block: Expr, at: nat, values: map<nat, SourceVal>, table: seq<Literal>,
                                outer: Scope, scope: seq<Definition>, level: nat, t: Definitions)
  {
    && block.Where? && at <= |block.plan.order| && Ready(block, scope, level, table) && Exact(block)
    && ScopeMeans(natives, eager, table, outer, scope, t)
    && Computed(block, at, values)
    && ValuesMean(natives, eager, block, values, Recursive(EraseBindings(block.bindings), t))
  }

  lemma {:induction false} BlockMeans(natives: Natives, eager: bool, fuel: nat, block: Expr, at: nat, values: map<nat, SourceVal>,
                                      table: seq<Literal>, outer: Scope, scope: seq<Definition>, level: nat, t: Definitions)
    returns (g: nat)
    requires BlockUnderWay(natives, eager, block, at, values, table, outer, scope, level, t)
    requires EvalBlock(natives, fuel, block, at, values, outer).Some?
    ensures Agrees(natives, eager, EvalBlock(natives, fuel, block, at, values, outer),
                   Denote(natives, eager, g, Erase(block), t))
    decreases fuel, 2, block, |block.plan.order| - at
  {
    if at == |block.plan.order| {
      g := BaseMeans(natives, eager, fuel, block, values, table, outer, scope, level, t);
    } else if AtRecursive(block, at) {
      g := RecursiveBindingMeans(natives, eager, fuel, block, at, values, table, outer, scope, level, t);
    } else {
      g := PlainBindingMeans(natives, eager, fuel, block, at, values, table, outer, scope, level, t);
    }
  }

  lemma {:induction false} BaseMeans(natives: Natives, eager: bool, fuel: nat, block: Expr, values: map<nat, SourceVal>,
                                     table: seq<Literal>, outer: Scope, scope: seq<Definition>, level: nat, t: Definitions)
    returns (g: nat)
    requires block.Where? && BlockUnderWay(natives, eager, block, |block.plan.order|, values, table, outer, scope, level, t)
    requires Eval(natives, fuel, block.base, Block(block, values, outer)).Some?
    ensures Agrees(natives, eager, Eval(natives, fuel, block.base, Block(block, values, outer)),
                   Denote(natives, eager, g, Erase(block), t))
    decreases fuel, 2, block, 0, 0
  {
    var n, d := |block.plan.order|, Recursive(EraseBindings(block.bindings), t);
    BlockScopeMeans(natives, eager, block, n, values, table, outer, scope, level, t);
    var base := EvalMeans(natives, eager, fuel, block.base, table, Block(block, values, outer), [BlockPart(block, level, n)] + scope,
                          level + n, d);
    var bindings := EnoughFuel(natives, eager, block, values, d, |block.bindings|);
    g := base + bindings;
    DenoteMore(natives, eager, base, g, Erase(block.base), d);
    forall i | 0 <= i < |block.bindings| && Demanded(Erase(block.base), EraseBindings(block.bindings), i)
      ensures Denote(natives, eager, g, Erase(block.bindings[i].value), d).Some?
    {
      DemandedComputed(block, values, i);
      DenoteMore(natives, eager, bindings, g, Erase(block.bindings[i].value), d);
    }
  }

  lemma DemandedComputed(block: Expr, values: map<nat, SourceVal>, i: nat)
    requires block.Where? && WellPlanned(block) && ExactPlan(block) && Computed(block, |block.plan.order|, values)
    requires i < |block.bindings| && Demanded(Erase(block.base), EraseBindings(block.bindings), i)
    ensures i in values
  {
    assert block.plan.order[PositionOf(block.plan.order, i)] == i;
  }

  /** Some fuel suffices for all the bindings that have values. */
  lemma {:induction false} EnoughFuel(natives: Natives, eager: bool, block: Expr, values: map<nat, SourceVal>, t: Definitions, n: nat)
    returns (g: nat)
    requires block.Where? && n <= |block.bindings| && ValuesMean(natives, eager, block, values, t)
    ensures forall i | 0 <= i < n && i in values :: Denote(natives, eager, g, Erase(block.bindings[i].value), t).Some?
  {
    g := 0;
    for k := 0 to n
      invariant forall i | 0 <= i < k && i in values :: Denote(natives, eager, g, Erase(block.bindings[i].value), t).Some?
    {
      if k in values {
        var h: nat :| ValueMeans(natives, eager, values[k], h, block, k, t);
        forall i | 0 <= i < k && i in values ensures Denote(natives, eager, g + h, Erase(block.bindings[i].value), t).Some? {
          DenoteMore(natives, eager, g, g + h, Erase(block.bindings[i].value), t);
        }
        DenoteMore(natives, eager, h, g + h, Erase(block.bindings[k].value), t);
        g := g + h;
      }
    }
  }

  lemma {:induction false} RecursiveBindingMeans(natives: Natives, eager: bool, fuel: nat, block: Expr, at: nat,
                                                 values: map<nat, SourceVal>, table: seq<Literal>, outer: Scope,
                                                 scope: seq<Definition>, level: nat, t: Definitions)
    returns (g: nat)
    requires BlockUnderWay(natives, eager, block, at, values, table, outer, scope, level, t)
    requires AtRecursive(block, at) && EvalBlock(natives, fuel, block, at, values, outer).Some?
    ensures Agrees(natives, eager, EvalBlock(natives, fuel, block, at, values, outer),
                   Denote(natives, eager, g, Erase(block), t))
    decreases fuel, 2, block, |block.plan.order| - at, 0
  {
    SkipRecursive(natives, eager, fuel, block, at, values, table, outer, scope, level, t);
    g := BlockMeans(natives, eager, fuel - 1, block, at + 1, values, table, outer, scope, level, t);
  }

  lemma SkipRecursive(natives: Natives, eager: bool, fuel: nat, block: Expr, at: nat, values: map<nat, SourceVal>, table: seq<Literal>,
                      outer: Scope, scope: seq<Definition>, level: nat, t: Definitions)
    requires BlockUnderWay(natives, eager, block, at, values, table, outer, scope, level, t)
    requires AtRecursive(block, at) && EvalBlock(natives, fuel, block, at, values, outer).Some?
    ensures BlockUnderWay(natives, eager, block, at + 1, values, table, outer, scope, level, t)
    ensures fuel > 0
    ensures EvalBlock(natives, fuel, block, at, values, outer) == EvalBlock(natives, fuel - 1, block, at + 1, values, outer)
  {
  }

  lemma PlainStep(natives: Natives, fuel: nat, block: Expr, at: nat, values: map<nat, SourceVal>, outer: Scope)
    requires WellPlanned(block) && at < |block.plan.order| && !AtRecursive(block, at)
    requires EvalBlock(natives, fuel, block, at, values, outer).Some?
    ensures var i := block.plan.order[at];
      var v := Eval(natives, fuel, block.bindings[i].value, Block(block, values, outer));
      && v.Some? && fuel > 0
      && EvalBlock(natives, fuel, block, at, values, outer)
         == EvalBlock(natives, fuel - 1, block, at + 1, values[i := v.value], outer)
  {
  }

  lemma {:induction false} PlainBindingMeans(natives: Natives, eager: bool, fuel: nat, block: Expr, at: nat, values: map<nat, SourceVal>,
                                             table: seq<Literal>, outer: Scope, scope: seq<Definition>, level: nat, t: Definitions)
    returns (g: nat)
    requires BlockUnderWay(natives, eager, block, at, values, table, outer, scope, level, t)
    requires at < |block.plan.order| && !AtRecursive(block, at)
    requires EvalBlock(natives, fuel, block, at, values, outer).Some?
    ensures Agrees(natives, eager, EvalBlock(natives, fuel, block, at, values, outer),
                   Denote(natives, eager, g, Erase(block), t))
    decreases fuel, 2, block, |block.plan.order| - at, 0
  {
    PlainStep(natives, fuel, block, at, values, outer);
    var i, s := block.plan.order[at], Block(block, values, outer);
    var h := BindingMeans(natives, eager, fuel, block, at, values, table, outer, scope, level, t);
    var v := Eval(natives, fuel, block.bindings[i].value, s).value;
    OneMoreValue(natives, eager, block, at, values, v, h, Recursive(EraseBindings(block.bindings), t));
    g := BlockMeans(natives, eager, fuel - 1, block, at + 1, values[i := v], table, outer, scope, level, t);
  }

  lemma {:induction false} BindingMeans(natives: Natives, eager: bool, fuel: nat, block: Expr, at: nat, values: map<nat, SourceVal>,
                                        table: seq<Literal>, outer: Scope, scope: seq<Definition>, level: nat, t: Definitions)
    returns (h: nat)
    requires BlockUnderWay(natives, eager, block, at, values, table, outer, scope, level, t)
    requires at < |block.plan.order| && !AtRecursive(block, at)
    requires Eval(natives, fuel, block.bindings[block.plan.order[at]].value, Block(block, values, outer)).Some?
    ensures ValueMeans(natives, eager, Eval(natives, fuel, block.bindings[block.plan.order[at]].value, Block(block, values, outer)).value,
                       h, block, block.plan.order[at], Recursive(EraseBindings(block.bindings), t))
    decreases fuel, 2, block, 0, 1
  {
    BlockScopeMeans(natives, eager, block, at, values, table, outer, scope, level, t);
    BindingReady(natives, eager, block, at, values, table, outer, scope, level, t);
    h := ValueHasMeaning(natives, eager, fuel, block, block.plan.order[at], table, Block(block, values, outer),
                         [BlockPart(block, level, at)] + scope, level + at, Recursive(EraseBindings(block.bindings), t));
  }

  lemma {:induction false} ValueHasMeaning(natives: Natives, eager: bool, fuel: nat, block: Expr, i: nat, table: seq<Literal>,
                                           s: Scope, scope: seq<Definition>, level: nat, t: Definitions) returns (h: nat)
    requires block.Where? && i < |block.bindings| && Eval(natives, fuel, block.bindings[i].value, s).Some?
    requires ScopeMeans(natives, eager, table, s, scope, t)
    requires Ready(block.bindings[i].value, scope, level, table) && Exact(block.bindings[i].value)
    ensures ValueMeans(natives, eager, Eval(natives, fuel, block.bindings[i].value, s).value, h, block, i, t)
    decreases fuel, 2, block, 0, 0
  {
    h := EvalMeans(natives, eager, fuel, block.bindings[i].value, table, s, scope, level, t);
  }

  lemma BindingReady(natives: Natives, eager: bool, block: Expr, at: nat, values: map<nat, SourceVal>, table: seq<Literal>,
                     outer: Scope, scope: seq<Definition>, level: nat, t: Definitions)
    requires BlockUnderWay(natives, eager, block, at, values, table, outer, scope, level, t)
    requires at < |block.plan.order| && !AtRecursive(block, at)
    ensures WellPlanned(block) && Exact(block.bindings[block.plan.order[at]].value)
    ensures Ready(block.bindings[block.plan.order[at]].value, [BlockPart(block, level, at)] + scope, level + at, table)
  {
  }

  lemma BlockScopeMeans(natives: Natives, eager: bool, block: Expr, at: nat, values: map<nat, SourceVal>, table: seq<Literal>,
                        outer: Scope, scope: seq<Definition>, level: nat, t: Definitions)
    requires BlockUnderWay(natives, eager, block, at, values, table, outer, scope, level, t) && !AtRecursive(block, at)
    ensures ScopeMeans(natives, eager, table, Block(block, values, outer), [BlockPart(block, level, at)] + scope,
                       Recursive(EraseBindings(block.bindings), t))
  {
    assert ([BlockPart(block, level, at)] + scope)[1..] == scope;
  }

  lemma OneMoreValue(natives: Natives, eager: bool, block: Expr, at: nat, values: map<nat, SourceVal>, v: SourceVal, h: nat, t: Definitions)
    requires WellPlanned(block) && at < |block.plan.order| && Computed(block, at, values)
    requires ValuesMean(natives, eager, block, values, t) && ValueMeans(natives, eager, v, h, block, block.plan.order[at], t)
    ensures Computed(block, at + 1, values[block.plan.order[at] := v])
    ensures ValuesMean(natives, eager, block, values[block.plan.order[at] := v], t)
  {
  }

  ghost predicate ValuesMean(natives: Natives, eager: bool, block: Expr, values: map<nat, SourceVal>, t: Definitions)
    requires block.Where?
  {
    forall i | i in values :: i < |block.bindings| && exists g: nat :: ValueMeans(natives, eager, values[i], g, block, i, t)
  }

  // ---------------------------------------------------------------------------
  // The planner's plans are exact.

  lemma ErasedGraph(block: Expr)
    requires block.Where?
    ensures Frontend.BlockGraph(Where(Erase(block.base), EraseBindings(block.bindings), Plan([], []))) == Frontend.BlockGraph(block)
  {
    var erased := EraseBindings(block.bindings);
    assert Names(erased) == Names(block.bindings);
    NeedsIgnorePlans(block.base);
    forall i | 0 <= i < |block.bindings| ensures Frontend.Needs(erased[i].value) == Frontend.Needs(block.bindings[i].value) {
      NeedsIgnorePlans(block.bindings[i].value);
    }
  }

  lemma PlanIsExact(block: Expr)
    requires block.Where? && Frontend.HasPlan(block)
    ensures ExactPlan(block)
  {
    var n, graph := |block.bindings|, Frontend.BlockGraph(block);
    var index, started, needs :| Frontend.PlannedWith(block, index, started, needs);
    var order, recursive := block.plan.order + [n], block.plan.recursive + [[]];
    ErasedGraph(block);
    forall i: nat | i < n
      ensures i in block.plan.order && !block.plan.IsRecursive(i) <==> Graphs.Reaches(graph, n, i) && !Graphs.OnCycle(graph, i)
    {
      WhereBlock.OrderedIffReachable(graph, n, order, index, started, needs, recursive, i);
      OrderedInPlan(block, order, index, i);
      if i in order { WhereBlock.RecursiveIffOnCycle(graph, n, order, index, started, needs, recursive, i); }
    }
  }

  lemma OrderedInPlan(block: Expr, order: seq<nat>, index: seq<int>, i: nat)
    requires block.Where? && order == block.plan.order + [|block.bindings|] && i < |block.bindings| <= |index|
    requires forall k | 0 <= k < |order| :: order[k] < |index| && index[order[k]] == k
    ensures i in block.plan.order <==> i in order
    ensures i in order ==> index[i] >= 0
  {
  }

  lemma {:induction false} PlannedIsExact(e: Expr)
    requires Frontend.PlannedTree(e)
    ensures Exact(e)
    decreases e
  {
    match e
    case Variable(_, _) =>
    case Lambda(_, body) => PlannedIsExact(body);
    case Call(fn, arg) =>
      PlannedIsExact(fn);
      PlannedIsExact(arg);
    case Lit(_) =>
    case Where(base, bindings, _) =>
      PlanIsExact(e);
      PlannedIsExact(base);
      forall i | 0 <= i < |bindings| ensures Exact(bindings[i].value) { PlannedIsExact(bindings[i].value); }
  }

  // ---------------------------------------------------------------------------
  // Whole programs.

  /** The program, planned and evaluated, gives what its mutually recursive definitions mean. */
  lemma PlannedEvaluationMeans(natives: Natives, eager: bool, fuel: nat, e: Expr, table: seq<Literal>, imports: map<string, SourceVal>,
                               t: Definitions) returns (g: nat)
    requires Ready(e, [], 0, table) && Exact(e) && ScopeMeans(natives, eager, table, Module(imports), [], t)
    requires Eval(natives, fuel, e, Module(imports)).Some?
    ensures Agrees(natives, eager, Eval(natives, fuel, e, Module(imports)), Denote(natives, eager, g, Erase(e), t))
  {
    g := EvalMeans(natives, eager, fuel, e, table, Module(imports), [], 0, t);
  }
}
