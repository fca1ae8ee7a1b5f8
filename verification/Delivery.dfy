/** What has an eager meaning is found by planned evaluation. */
module Delivery {
  import opened Values
  import opened Source
  import opened Compiler
  import opened CompilerCorrect
  import opened Letrec
  import opened LetrecCorrect

  // ---------------------------------------------------------------------------
  // More fuel gives the same value.

  lemma {:induction false} EvalMore(natives: Natives, fuel: nat, more: nat, e: Expr, s: Scope)
    requires fuel <= more && Eval(natives, fuel, e, s).Some?
    ensures Eval(natives, more, e, s) == Eval(natives, fuel, e, s)
    decreases fuel, 2, e
  {
    match e
    case Variable(name, escape) => ReferenceMore(natives, fuel, more, name, escape, s);
    case Lambda(_, _) =>
    case Call(fn, arg) =>
      EvalMore(natives, fuel, more, arg, s);
      EvalMore(natives, fuel, more, fn, s);
      CallValueMore(natives, fuel, more, Eval(natives, fuel, fn, s).value, Eval(natives, fuel, arg, s).value);
    case Lit(_) =>
    case Where(_, _, _) => EvalBlockMore(natives, fuel, more, e, 0, map[], s);
  }

  lemma {:induction false} ReferenceMore(natives: Natives, fuel: nat, more: nat, name: string, escape: nat, s: Scope)
    requires fuel <= more && Reference(natives, fuel, name, escape, s).Some?
    ensures Reference(natives, more, name, escape, s) == Reference(natives, fuel, name, escape, s)
    decreases fuel, 1, s
  {
    match s
    case Module(_) =>
    case Parameters(names, argument, outer) =>
      if name !in names {
        ReferenceMore(natives, fuel, more, name, escape, outer);
      } else if escape > 0 {
        ReferenceMore(natives, fuel, more, name, escape - 1, outer);
      } else if |names| != 1 {
        CallValueMore(natives, fuel, more, argument, Int(IndexOf(names, name)));
      }
    case Block(block, values, outer) =>
      if !block.Where? || Find(block.bindings, name).None? {
        ReferenceMore(natives, fuel, more, name, escape, outer);
      } else if escape > 0 {
        ReferenceMore(natives, fuel, more, name, escape - 1, outer);
      } else {
        var i := Find(block.bindings, name).value;
        if block.plan.IsRecursive(i) { EvalMore(natives, fuel - 1, more - 1, block.bindings[i].value, s); }
      }
  }

  lemma {:induction false} EvalBlockMore(natives: Natives, fuel: nat, more: nat, block: Expr, at: nat,
                                         values: map<nat, SourceVal>, outer: Scope)
    requires block.Where? && at <= |block.plan.order|
    requires fuel <= more && EvalBlock(natives, fuel, block, at, values, outer).Some?
    ensures EvalBlock(natives, more, block, at, values, outer) == EvalBlock(natives, fuel, block, at, values, outer)
    decreases fuel, 2, block, |block.plan.order| - at
  {
    var s := Block(block, values, outer);
    if at == |block.plan.order| {
      EvalMore(natives, fuel, more, block.base, s);
    } else {
      var i := block.plan.order[at];
      if block.plan.IsRecursive(i) || i >= |block.bindings| {
        EvalBlockMore(natives, fuel - 1, more - 1, block, at + 1, values, outer);
      } else {
        EvalMore(natives, fuel, more, block.bindings[i].value, s);
        var v := Eval(natives, fuel, block.bindings[i].value, s).value;
        EvalBlockMore(natives, fuel - 1, more - 1, block, at + 1, values[i := v], outer);
      }
    }
  }

  lemma {:induction false} CallValueMore(natives: Natives, fuel: nat, more: nat, f: SourceVal, a: SourceVal)
    requires fuel <= more && CallValue(natives, fuel, f, a).Some?
    ensures CallValue(natives, more, f, a) == CallValue(natives, fuel, f, a)
    decreases fuel, 0
  {
    match f
    case Closure(c) => EvalMore(natives, fuel - 1, more - 1, c.body, Parameters(c.params, a, c.scope));
    case Data(_, _) =>
      match NativeAction(natives, ShapeOf(f), ShapeOf(a)) {
        case Return(_) =>
        case TailCall(g, b) => CallValueMore(natives, fuel - 1, more - 1, Cook(g, f, a), Cook(b, f, a));
      }
  }

  // ---------------------------------------------------------------------------
  // The simulation in the other direction: each lemma returns enough fuel for the value.

  /** The value found means what the expression means, however much fuel each was given. */
  lemma ValueMeansMeaning(natives: Natives, fuel: nat, g: nat, e: Expr, table: seq<Literal>, s: Scope,
                          scope: seq<Definition>, level: nat, t: Definitions)
    requires ScopeMeans(natives, true, table, s, scope, t) && Ready(e, scope, level, table) && Exact(e)
    requires Eval(natives, fuel, e, s).Some? && Denote(natives, true, g, Erase(e), t).Some?
    ensures Means(natives, true, Eval(natives, fuel, e, s).value, Denote(natives, true, g, Erase(e), t).value)
  {
    var h := EvalMeans(natives, true, fuel, e, table, s, scope, level, t);
    DenoteMore(natives, true, g, g + h, Erase(e), t);
    DenoteMore(natives, true, h, g + h, Erase(e), t);
  }

  lemma {:induction false} EvalYields(natives: Natives, g: nat, e: Expr, table: seq<Literal>, s: Scope,
                                      scope: seq<Definition>, level: nat, t: Definitions) returns (fuel: nat)
    requires Denote(natives, true, g, Erase(e), t).Some?
    requires ScopeMeans(natives, true, table, s, scope, t) && Ready(e, scope, level, table) && Exact(e)
    ensures Eval(natives, fuel, e, s).Some?
    decreases g, 2, e
  {
    fuel := 0;
    match e
    case Variable(name, escape) => fuel := ReferenceYields(natives, g, name, escape, table, s, scope, t);
    case Lambda(_, _) =>
    case Call(fn, arg) =>
      var a := EvalYields(natives, g, arg, table, s, scope, level, t);
      var f := EvalYields(natives, g, fn, table, s, scope, level, t);
      ValueMeansMeaning(natives, a, g, arg, table, s, scope, level, t);
      ValueMeansMeaning(natives, f, g, fn, table, s, scope, level, t);
      var x, y := Eval(natives, a, arg, s).value, Eval(natives, f, fn, s).value;
      var c := CallYields(natives, g, y, x, Denote(natives, true, g, Erase(fn), t).value, Denote(natives, true, g, Erase(arg), t).value);
      fuel := a + f + c;
      EvalMore(natives, a, fuel, arg, s);
      EvalMore(natives, f, fuel, fn, s);
      CallValueMore(natives, c, fuel, y, x);
    case Lit(_) =>
    case Where(_, _, _) => fuel := BlockYields(natives, g, e, 0, map[], table, s, scope, level, t);
  }

  lemma {:induction false} CallYields(natives: Natives, g: nat, f: SourceVal, a: SourceVal, y: Meaning, x: Meaning)
    returns (fuel: nat)
    requires Means(natives, true, f, y) && Means(natives, true, a, x) && Invoke(natives, true, g, y, x).Some?
    ensures CallValue(natives, fuel, f, a).Some?
    decreases g, 0
  {
    fuel := 0;
    match f
    case Closure(c) =>
      var table, scope, level: nat :| FunctionMeans(natives, true, table, scope, level, c, y.c);
      var inside := [Params(c.params, level)] + scope;
      assert inside[1..] == scope;
      fuel := EvalYields(natives, g - 1, c.body, table, Parameters(c.params, a, c.scope), inside, level + 1,
                         Bound(y.c.params, x, y.c.scope));
      fuel := fuel + 1;
    case Data(_, _) =>
      NativesRespectMeaning(natives, true, f, a, y, x);
      match NativeAction(natives, ShapeOf(f), ShapeOf(a)) {
        case Return(_) =>
        case TailCall(h, b) =>
          fuel := CallYields(natives, g - 1, Cook(h, f, a), Cook(b, f, a), Cook(h, y, x), Cook(b, y, x));
          fuel := fuel + 1;
      }
  }

  lemma {:induction false} ReferenceYields(natives: Natives, g: nat, name: string, escape: nat, table: seq<Literal>,
                                           s: Scope, scope: seq<Definition>, t: Definitions) returns (fuel: nat)
    requires Mention(natives, true, g, name, escape, t).Some?
    requires ScopeMeans(natives, true, table, s, scope, t) && ReadyReference(name, escape, scope, table)
    ensures Reference(natives, fuel, name, escape, s).Some?
    decreases g, 1, s
  {
    fuel := 0;
    match s
    case Module(_) =>
    case Parameters(names, argument, outer) =>
      if name !in names {
        fuel := ReferenceYields(natives, g, name, escape, table, outer, scope[1..], t.outer);
      } else if escape > 0 {
        fuel := ReferenceYields(natives, g, name, escape - 1, table, outer, scope[1..], t.outer);
      } else if |names| != 1 {
        fuel := CallYields(natives, g, argument, Int(IndexOf(names, name)), t.argument, Int(IndexOf(names, name)));
      }
    case Block(_, _, _) => fuel := BlockReferenceYields(natives, g, name, escape, table, s, scope, t);
  }

  lemma {:induction false} BlockReferenceYields(natives: Natives, g: nat, name: string, escape: nat, table: seq<Literal>,
                                                s: Scope, scope: seq<Definition>, t: Definitions) returns (fuel: nat)
    requires s.Block? && Mention(natives, true, g, name, escape, t).Some?
    requires ScopeMeans(natives, true, table, s, scope, t) && ReadyReference(name, escape, scope, table)
    ensures Reference(natives, fuel, name, escape, s).Some?
    decreases g, 1, s, 0
  {
    assert Names(EraseBindings(s.block.bindings)) == Names(s.block.bindings);
    match Find(s.block.bindings, name)
    case None => fuel := ReferenceYields(natives, g, name, escape, table, s.outer, scope[1..], t.outer);
    case Some(i) =>
      if escape > 0 {
        fuel := ReferenceYields(natives, g, name, escape - 1, table, s.outer, scope[1..], t.outer);
      } else {
        fuel := UseYields(natives, g, i, table, s, scope, t);
      }
  }

  lemma {:induction false} UseYields(natives: Natives, g: nat, i: nat, table: seq<Literal>, s: Scope,
                                     scope: seq<Definition>, t: Definitions) returns (fuel: nat)
    requires s.Block? && ScopeMeans(natives, true, table, s, scope, t) && ReadyUse(s.block, scope[0].at, i)
    requires i < |s.block.bindings| && g > 0 && Denote(natives, true, g - 1, Erase(s.block.bindings[i].value), t).Some?
    ensures if s.block.plan.IsRecursive(i) then fuel > 0 && Eval(natives, fuel - 1, s.block.bindings[i].value, s).Some?
            else i in s.values
    decreases g, 0
  {
    var block := s.block;
    var position := PositionOf(block.plan.order, i);
    fuel := 1;
    if block.plan.IsRecursive(i) {
      var there := [BlockPart(block, scope[0].level, position)] + scope[1..];
      MoveTo(natives, true, table, s, scope, i, t);
      fuel := EvalYields(natives, g - 1, block.bindings[i].value, table, s, there, InsideLevel(block, scope[0].level, position), t);
      fuel := fuel + 1;
    } else {
      assert block.plan.order[position] in s.values;
    }
  }

  lemma {:induction false} BlockYields(natives: Natives, g: nat, block: Expr, at: nat, values: map<nat, SourceVal>,
                                       table: seq<Literal>, outer: Scope, scope: seq<Definition>, level: nat, t: Definitions)
    returns (fuel: nat)
    requires BlockUnderWay(natives, true, block, at, values, table, outer, scope, level, t)
    requires Denote(natives, true, g, Erase(block), t).Some?
    ensures EvalBlock(natives, fuel, block, at, values, outer).Some?
    decreases g, 2, block, |block.plan.order| - at
  {
    if at == |block.plan.order| {
      fuel := BaseYields(natives, g, block, values, table, outer, scope, level, t);
    } else if AtRecursive(block, at) {
      fuel := RecursiveYields(natives, g, block, at, values, table, outer, scope, level, t);
    } else {
      fuel := BindingYields(natives, g, block, at, values, table, outer, scope, level, t);
    }
  }

  lemma {:induction false} RecursiveYields(natives: Natives, g: nat, block: Expr, at: nat, values: map<nat, SourceVal>,
                                           table: seq<Literal>, outer: Scope, scope: seq<Definition>, level: nat, t: Definitions)
    returns (fuel: nat)
    requires BlockUnderWay(natives, true, block, at, values, table, outer, scope, level, t) && AtRecursive(block, at)
    requires Denote(natives, true, g, Erase(block), t).Some?
    ensures EvalBlock(natives, fuel, block, at, values, outer).Some?
    decreases g, 2, block, |block.plan.order| - at, 0
  {
    NextUnderWay(natives, block, at, values, table, outer, scope, level, t);
    fuel := BlockYields(natives, g, block, at + 1, values, table, outer, scope, level, t);
    SkipOne(natives, fuel, block, at, values, outer);
    fuel := fuel + 1;
  }

  lemma SkipOne(natives: Natives, fuel: nat, block: Expr, at: nat, values: map<nat, SourceVal>, outer: Scope)
    requires block.Where? && AtRecursive(block, at)
    ensures EvalBlock(natives, fuel + 1, block, at, values, outer) == EvalBlock(natives, fuel, block, at + 1, values, outer)
  {
  }

  lemma NextUnderWay(natives: Natives, block: Expr, at: nat, values: map<nat, SourceVal>, table: seq<Literal>,
                     outer: Scope, scope: seq<Definition>, level: nat, t: Definitions)
    requires BlockUnderWay(natives, true, block, at, values, table, outer, scope, level, t) && AtRecursive(block, at)
    ensures BlockUnderWay(natives, true, block, at + 1, values, table, outer, scope, level, t)
  {
  }

  lemma {:induction false} BaseYields(natives: Natives, g: nat, block: Expr, values: map<nat, SourceVal>, table: seq<Literal>,
                                      outer: Scope, scope: seq<Definition>, level: nat, t: Definitions) returns (fuel: nat)
    requires block.Where? && BlockUnderWay(natives, true, block, |block.plan.order|, values, table, outer, scope, level, t)
    requires Denote(natives, true, g, Erase(block), t).Some?
    ensures EvalBlock(natives, fuel, block, |block.plan.order|, values, outer).Some?
    decreases g, 2, block, 0, 0
  {
    var n := |block.plan.order|;
    BlockScopeMeans(natives, true, block, n, values, table, outer, scope, level, t);
    fuel := EvalYields(natives, g, block.base, table, Block(block, values, outer), [BlockPart(block, level, n)] + scope, level + n,
                       Recursive(EraseBindings(block.bindings), t));
  }

  lemma DemandedDenotes(natives: Natives, g: nat, block: Expr, at: nat, t: Definitions)
    requires block.Where? && WellPlanned(block) && ExactPlan(block) && at < |block.plan.order| && !AtRecursive(block, at)
    requires Denote(natives, true, g, Erase(block), t).Some?
    ensures Denote(natives, true, g, Erase(block.bindings[block.plan.order[at]].value), Recursive(EraseBindings(block.bindings), t)).Some?
  {
    var i := block.plan.order[at];
    assert Demanded(Erase(block.base), EraseBindings(block.bindings), i);
    assert EraseBindings(block.bindings)[i].value == Erase(block.bindings[i].value);
  }

  lemma {:induction false} BindingYields(natives: Natives, g: nat, block: Expr, at: nat, values: map<nat, SourceVal>,
                                         table: seq<Literal>, outer: Scope, scope: seq<Definition>, level: nat, t: Definitions)
    returns (fuel: nat)
    requires BlockUnderWay(natives, true, block, at, values, table, outer, scope, level, t)
    requires at < |block.plan.order| && !AtRecursive(block, at) && Denote(natives, true, g, Erase(block), t).Some?
    ensures EvalBlock(natives, fuel, block, at, values, outer).Some?
    decreases g, 2, block, |block.plan.order| - at, 0
  {
    var i, s := block.plan.order[at], Block(block, values, outer);
    var f := ValueYields(natives, g, block, at, values, table, outer, scope, level, t);
    var v := Eval(natives, f, block.bindings[i].value, s).value;
    var h := BindingMeans(natives, true, f, block, at, values, table, outer, scope, level, t);
    PlainUnderWay(natives, block, at, values, v, h, table, outer, scope, level, t);
    fuel := BlockYields(natives, g, block, at + 1, values[i := v], table, outer, scope, level, t);
    JoinFuel(natives, f, fuel, block, at, values, outer);
    fuel := f + fuel + 1;
  }

  lemma JoinFuel(natives: Natives, f: nat, fuel: nat, block: Expr, at: nat, values: map<nat, SourceVal>, outer: Scope)
    requires WellPlanned(block) && at < |block.plan.order| && !AtRecursive(block, at)
    requires Eval(natives, f, block.bindings[block.plan.order[at]].value, Block(block, values, outer)).Some?
    requires var i := block.plan.order[at];
      EvalBlock(natives, fuel, block, at + 1,
                values[i := Eval(natives, f, block.bindings[i].value, Block(block, values, outer)).value], outer).Some?
    ensures EvalBlock(natives, f + fuel + 1, block, at, values, outer).Some?
  {
    var i, s := block.plan.order[at], Block(block, values, outer);
    EvalMore(natives, f, f + fuel + 1, block.bindings[i].value, s);
    var v := Eval(natives, f, block.bindings[i].value, s).value;
    EvalBlockMore(natives, fuel, f + fuel, block, at + 1, values[i := v], outer);
  }

  lemma {:induction false} ValueYields(natives: Natives, g: nat, block: Expr, at: nat, values: map<nat, SourceVal>,
                                       table: seq<Literal>, outer: Scope, scope: seq<Definition>, level: nat, t: Definitions)
    returns (f: nat)
    requires BlockUnderWay(natives, true, block, at, values, table, outer, scope, level, t)
    requires at < |block.plan.order| && !AtRecursive(block, at) && Denote(natives, true, g, Erase(block), t).Some?
    ensures Eval(natives, f, block.bindings[block.plan.order[at]].value, Block(block, values, outer)).Some?
    decreases g, 2, block, 0, 0
  {
    BlockScopeMeans(natives, true, block, at, values, table, outer, scope, level, t);
    BindingReady(natives, true, block, at, values, table, outer, scope, level, t);
    DemandedDenotes(natives, g, block, at, t);
    f := EvalYields(natives, g, block.bindings[block.plan.order[at]].value, table, Block(block, values, outer),
                    [BlockPart(block, level, at)] + scope, level + at, Recursive(EraseBindings(block.bindings), t));
  }

  lemma PlainUnderWay(natives: Natives, block: Expr, at: nat, values: map<nat, SourceVal>, v: SourceVal, h: nat, table: seq<Literal>,
                      outer: Scope, scope: seq<Definition>, level: nat, t: Definitions)
    requires BlockUnderWay(natives, true, block, at, values, table, outer, scope, level, t)
    requires at < |block.plan.order| && !AtRecursive(block, at)
    requires ValueMeans(natives, true, v, h, block, block.plan.order[at], Recursive(EraseBindings(block.bindings), t))
    ensures BlockUnderWay(natives, true, block, at + 1, values[block.plan.order[at] := v], table, outer, scope, level, t)
  {
    OneMoreValue(natives, true, block, at, values, v, h, Recursive(EraseBindings(block.bindings), t));
  }

  // ---------------------------------------------------------------------------
  // Whole programs.

  ghost predicate HasValue(natives: Natives, e: Expr, imports: map<string, SourceVal>) {
    exists fuel: nat :: Eval(natives, fuel, e, Module(imports)).Some?
  }

  ghost predicate HasMeaning(natives: Natives, eager: bool, e: Expr, t: Definitions) {
    exists g: nat :: Denote(natives, eager, g, e, t).Some?
  }

  /** Planned evaluation finds a value exactly when the program has an eager meaning. */
  lemma EvaluatesIffDenoted(natives: Natives, e: Expr, table: seq<Literal>, imports: map<string, SourceVal>, t: Definitions)
    requires Ready(e, [], 0, table) && Exact(e) && ScopeMeans(natives, true, table, Module(imports), [], t)
    ensures HasValue(natives, e, imports) <==> HasMeaning(natives, true, Erase(e), t)
  {
    if HasValue(natives, e, imports) {
      var fuel: nat :| Eval(natives, fuel, e, Module(imports)).Some?;
      var g := PlannedEvaluationMeans(natives, true, fuel, e, table, imports, t);
    }
    if HasMeaning(natives, true, Erase(e), t) {
      var g: nat :| Denote(natives, true, g, Erase(e), t).Some?;
      var fuel := EvalYields(natives, g, e, table, Module(imports), [], 0, t);
    }
  }
}
