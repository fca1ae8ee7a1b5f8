/** Putting constants in place of their positions, and folding, against running the code tree as
    it is written: there every variable is looked up, and those beyond the code's depth find the
    constant table at the bottom of the environment. */
module Resolving {
  import opened Values
  import opened CodeTree
  import opened Interpreter
  import opened Loader
  import opened Folding

  /** The code tree as it is written. */
  function Raw(t: Term, at: nat): Node {
    match t
    case Var(index) => Variable(index)
    case Abs(body) => Abstraction(Raw(body, at + 1), at)
    case App(fn, arg) => Application(Raw(fn, at + 1), Raw(arg, at + 1 + Size(fn)))
  }

  // ---------------------------------------------------------------------------
  // Values that differ in how their code refers to its constants.

  ghost predicate ResolvesVal(v: Val, w: Val)
    decreases w
  {
    match w
    case Data(tag, parts) =>
      v.Data? && v.tag == tag && |v.parts| == |parts| && forall i | 0 <= i < |parts| :: ResolvesVal(v.parts[i], parts[i])
    case Closure(g) => v.Closure? && ResolvesFunction(v.c, g)
  }

  ghost predicate ResolvesFunction(f: FunctionData, g: FunctionData)
    decreases g
  {
    && f.codeIndex == g.codeIndex && ResolvesEnv(f.environment, g.environment)
    && ResolvesCode(f.body, g.body, Depth(g.environment) + 1, Bottom(g.environment).constants)
  }

  /** The same frames with resolved values above the same root frame. */
  ghost predicate ResolvesEnv(e1: Environment, e2: Environment)
    decreases e2
  {
    match e2
    case Root(_, _, _) => e1 == e2
    case Frame(values, parent) =>
      && e1.Frame? && |e1.values| == |values| && (forall i | 0 <= i < |values| :: ResolvesVal(e1.values[i], values[i]))
      && ResolvesEnv(e1.parent.environment, parent.environment)
  }

  /** `m` is `n` with some variables beyond `depth` replaced by the constants they find. */
  ghost predicate ResolvesCode(n: Node, m: Node, depth: nat, constants: seq<Val>)
    decreases m
  {
    match m
    case Constant(w) =>
      n == m || (n.Variable? && depth <= n.index < depth + |constants| && w == constants[n.index - depth])
    case Variable(_) => n == m
    case Abstraction(body, codeIndex) =>
      n.Abstraction? && n.codeIndex == codeIndex && ResolvesCode(n.body, body, depth + 1, constants)
    case Application(fn, arg) =>
      n.Application? && ResolvesCode(n.fn, fn, depth, constants) && ResolvesCode(n.arg, arg, depth, constants)
  }

  lemma {:induction false} ResolvedToSelf(v: Val)
    ensures ResolvesVal(v, v)
    decreases v
  {
    match v
    case Data(_, parts) =>
      forall i | 0 <= i < |parts| ensures ResolvesVal(parts[i], parts[i]) { ResolvedToSelf(parts[i]); }
    case Closure(f) =>
      EnvironmentResolvedToSelf(f.environment);
      CodeResolvedToSelf(f.body, Depth(f.environment) + 1, Bottom(f.environment).constants);
  }

  lemma {:induction false} EnvironmentResolvedToSelf(e: Environment)
    ensures ResolvesEnv(e, e)
    decreases e
  {
    if e.Frame? {
      forall i | 0 <= i < |e.values| ensures ResolvesVal(e.values[i], e.values[i]) { ResolvedToSelf(e.values[i]); }
      EnvironmentResolvedToSelf(e.parent.environment);
    }
  }

  lemma {:induction false} CodeResolvedToSelf(n: Node, depth: nat, constants: seq<Val>)
    ensures ResolvesCode(n, n, depth, constants)
    decreases n
  {
    match n
    case Constant(_) =>
    case Variable(_) =>
    case Abstraction(body, _) => CodeResolvedToSelf(body, depth + 1, constants);
    case Application(fn, arg) =>
      CodeResolvedToSelf(fn, depth, constants);
      CodeResolvedToSelf(arg, depth, constants);
  }

  lemma {:induction false} SameFrames(e1: Environment, e2: Environment)
    requires ResolvesEnv(e1, e2)
    ensures Depth(e1) == Depth(e2) && Bottom(e1) == Bottom(e2)
  {
    if e2.Frame? { SameFrames(e1.parent.environment, e2.parent.environment); }
  }

  lemma {:induction false} LookupResolved(e1: Environment, e2: Environment, i: nat)
    requires ResolvesEnv(e1, e2)
    ensures ResolvesVal(Lookup(e1, i), Lookup(e2, i))
  {
    match e2
    case Root(_, _, _) => ResolvedToSelf(Lookup(e2, i));
    case Frame(values, parent) =>
      if i >= |values| {
        LookupResolved(e1.parent.environment, parent.environment, i - |values|);
        assert Lookup(e1, i) == Lookup(e1.parent.environment, i - |values|);
        assert Lookup(e2, i) == Lookup(parent.environment, i - |values|);
      }
  }

  lemma ResolutionIsStructural()
    ensures Structural((v: Val, w: Val) => ResolvesVal(v, w))
  {
  }

  lemma NativesRespectResolution(natives: Natives, f: Val, a: Val, g: Val, b: Val)
    requires ResolvesVal(f, g) && ResolvesVal(a, b)
    ensures NativeAction(natives, ShapeOf(f), ShapeOf(a)) == NativeAction(natives, ShapeOf(g), ShapeOf(b))
    ensures var action := NativeAction(natives, ShapeOf(g), ShapeOf(b));
            if action.Return? then
              ResolvesVal(Cook(action.result, f, a), Cook(action.result, g, b))
            else
              && ResolvesVal(Cook(action.callee, f, a), Cook(action.callee, g, b))
              && ResolvesVal(Cook(action.argument, f, a), Cook(action.argument, g, b))
  {
    var rel := (v: Val, w: Val) => ResolvesVal(v, w);
    ResolutionIsStructural();
    SameShape(rel, f, g);
    SameShape(rel, a, b);
    var action := NativeAction(natives, ShapeOf(g), ShapeOf(b));
    if action.Return? {
      CookRelated(rel, action.result, f, a, g, b);
    } else {
      CookRelated(rel, action.callee, f, a, g, b);
      CookRelated(rel, action.argument, f, a, g, b);
    }
  }

  ghost predicate ResolvedResult(v: Option<Val>, w: Option<Val>) {
    v.Some? == w.Some? && (v.Some? ==> ResolvesVal(v.value, w.value))
  }

  /** A reference to the constant table finds the same constant wherever the code runs, because
      the code's depth is the number of values above the table. */
  lemma {:induction false} EvaluateResolved(natives: Natives, fuel: nat, n: Node, e1: Environment, m: Node, e2: Environment)
    requires ResolvesEnv(e1, e2) && ResolvesCode(n, m, Depth(e2), Bottom(e2).constants)
    ensures ResolvedResult(Evaluate(natives, fuel, n, e1), Evaluate(natives, fuel, m, e2))
    decreases fuel, 1, m
  {
    match m
    case Constant(w) =>
      if n.Variable? {
        SameFrames(e1, e2);
        ConstantsLast(e1, n.index - Depth(e1));
      }
      ResolvedToSelf(w);
    case Variable(i) => LookupResolved(e1, e2, i);
    case Abstraction(_, _) =>
    case Application(fn, arg) =>
      EvaluateResolved(natives, fuel, n.arg, e1, arg, e2);
      EvaluateResolved(natives, fuel, n.fn, e1, fn, e2);
      var a, f := Evaluate(natives, fuel, n.arg, e1), Evaluate(natives, fuel, n.fn, e1);
      if a.Some? && f.Some? {
        ApplyResolved(natives, fuel, f.value, a.value, Evaluate(natives, fuel, fn, e2).value, Evaluate(natives, fuel, arg, e2).value);
      }
  }

  lemma {:induction false} ApplyResolved(natives: Natives, fuel: nat, f: Val, a: Val, g: Val, b: Val)
    requires ResolvesVal(f, g) && ResolvesVal(a, b)
    ensures ResolvedResult(Apply(natives, fuel, f, a), Apply(natives, fuel, g, b))
    decreases fuel, 0
  {
    match g
    case Closure(gd) =>
      if fuel > 0 { EvaluateResolved(natives, fuel - 1, f.c.body, Frame([a], f.c), gd.body, Frame([b], gd)); }
    case Data(_, _) =>
      NativesRespectResolution(natives, f, a, g, b);
      match NativeAction(natives, ShapeOf(g), ShapeOf(b))
      case Return(_) =>
      case TailCall(c, x) =>
        if fuel > 0 { ApplyResolved(natives, fuel - 1, Cook(c, f, a), Cook(x, f, a), Cook(c, g, b), Cook(x, g, b)); }
  }

  lemma {:induction false} RawResolves(t: Term, at: nat, depth: nat, constants: seq<Val>)
    requires InTable(t, depth, |constants|)
    ensures ResolvesCode(Raw(t, at), Unfolded(t, at, depth, constants), depth, constants)
  {
    match t
    case Var(_) =>
    case Abs(body) => RawResolves(body, at + 1, depth + 1, constants);
    case App(fn, arg) =>
      RawResolves(fn, at + 1, depth, constants);
      RawResolves(arg, at + 1 + Size(fn), depth, constants);
  }

  // ---------------------------------------------------------------------------
  // Loaded code against the tree as written.

  /** `w` is `v` with constants put in place, and closed applications folded, in the code of its
      functions. */
  ghost predicate FoldedVal(natives: Natives, v: Val, w: Val) {
    exists u :: ResolvesVal(v, u) && EquivalentVal(natives, u, w)
  }

  ghost predicate FoldedResult(natives: Natives, f: nat, n: Node, e1: Environment, g: nat, m: Node, e2: Environment) {
    && Evaluate(natives, f, n, e1).Some? && Evaluate(natives, g, m, e2).Some?
    && FoldedVal(natives, Evaluate(natives, f, n, e1).value, Evaluate(natives, g, m, e2).value)
  }

  /** Whenever one of the two code trees yields a value, so does the other, and the second value
      is the first one folded. */
  ghost predicate FoldedBehaviour(natives: Natives, n: Node, e1: Environment, m: Node, e2: Environment) {
    && (forall f: nat | Evaluate(natives, f, n, e1).Some? :: exists g: nat :: FoldedResult(natives, f, n, e1, g, m, e2))
    && (forall g: nat | Evaluate(natives, g, m, e2).Some? :: exists f: nat :: FoldedResult(natives, f, n, e1, g, m, e2))
  }

  lemma FoldedThrough(natives: Natives, f: nat, raw: Node, n: Node, e1: Environment, g: nat, m: Node, e2: Environment)
    requires ResolvedResult(Evaluate(natives, f, raw, e1), Evaluate(natives, f, n, e1)) && Agree(natives, f, n, e1, g, m, e2)
    ensures FoldedResult(natives, f, raw, e1, g, m, e2)
  {
    var v, u, w := Evaluate(natives, f, raw, e1).value, Evaluate(natives, f, n, e1).value, Evaluate(natives, g, m, e2).value;
    assert ResolvesVal(v, u) && EquivalentVal(natives, u, w);
  }

  lemma FoldedYields(natives: Natives, f: nat, raw: Node, n: Node, e1: Environment, m: Node, e2: Environment) returns (g: nat)
    requires ResolvesCode(raw, n, Depth(e1), Bottom(e1).constants) && SameBehaviour(natives, n, e1, m, e2)
    requires Evaluate(natives, f, raw, e1).Some?
    ensures FoldedResult(natives, f, raw, e1, g, m, e2)
  {
    EnvironmentResolvedToSelf(e1);
    EvaluateResolved(natives, f, raw, e1, n, e1);
    g :| Agree(natives, f, n, e1, g, m, e2);
    FoldedThrough(natives, f, raw, n, e1, g, m, e2);
  }

  lemma RawYields(natives: Natives, g: nat, raw: Node, n: Node, e1: Environment, m: Node, e2: Environment) returns (f: nat)
    requires ResolvesCode(raw, n, Depth(e1), Bottom(e1).constants) && SameBehaviour(natives, n, e1, m, e2)
    requires Evaluate(natives, g, m, e2).Some?
    ensures FoldedResult(natives, f, raw, e1, g, m, e2)
  {
    f :| Agree(natives, f, n, e1, g, m, e2);
    EnvironmentResolvedToSelf(e1);
    EvaluateResolved(natives, f, raw, e1, n, e1);
    FoldedThrough(natives, f, raw, n, e1, g, m, e2);
  }

  lemma ResolveThenFold(natives: Natives, raw: Node, n: Node, e1: Environment, m: Node, e2: Environment)
    requires ResolvesCode(raw, n, Depth(e1), Bottom(e1).constants) && SameBehaviour(natives, n, e1, m, e2)
    ensures FoldedBehaviour(natives, raw, e1, m, e2)
  {
    forall f: nat | Evaluate(natives, f, raw, e1).Some?
      ensures exists g: nat :: FoldedResult(natives, f, raw, e1, g, m, e2)
    {
      var g := FoldedYields(natives, f, raw, n, e1, m, e2);
    }
    forall g: nat | Evaluate(natives, g, m, e2).Some?
      ensures exists f: nat :: FoldedResult(natives, f, raw, e1, g, m, e2)
    {
      var f := RawYields(natives, g, raw, n, e1, m, e2);
    }
  }

  /** If loading completes, then wherever the code can run - as many values in the environment as
      the depth computed for it, and the constant table below them - what was loaded yields a
      result exactly when the tree as written does, and the same one up to folding.  The
      environment of the loaded code may itself be a folded one. */
  lemma FoldingPreservesMeaning(
      natives: Natives, fuel: nat, t: Term, at: nat, depth: nat, k1: seq<Val>, k2: seq<Val>,
      e1: Environment, e2: Environment)
    requires Load(natives, fuel, t, at, depth, k2).Loaded?
    requires Depth(e1) == depth && Bottom(e1).constants == k1
    requires EquivalentTables(natives, k1, k2) && EquivalentEnv(natives, e1, e2)
    ensures FoldedBehaviour(natives, Raw(t, at), e1, Load(natives, fuel, t, at, depth, k2).node, e2)
  {
    UnfoldedBehavesTheSame(natives, fuel, t, at, depth, k1, k2, e1, e2);
    RawResolves(t, at, depth, k1);
    ResolveThenFold(natives, Raw(t, at), Unfolded(t, at, depth, k1), e1, Load(natives, fuel, t, at, depth, k2).node, e2);
  }

  /** In one and the same environment. */
  lemma LoadedRunsAsWritten(natives: Natives, fuel: nat, t: Term, at: nat, env: Environment)
    requires var k := Bottom(env).constants;
      && Load(natives, fuel, t, at, Depth(env), k).Loaded?
      && WellScopedEnv(env) && forall i | 0 <= i < |k| :: WellScopedVal(k[i])
    ensures FoldedBehaviour(natives, Raw(t, at), env, Load(natives, fuel, t, at, Depth(env), Bottom(env).constants).node, env)
  {
    var k := Bottom(env).constants;
    forall i | 0 <= i < |k| ensures EquivalentVal(natives, k[i], k[i]) { EquivalentToSelf(natives, k[i]); }
    EnvironmentEquivalentToSelf(natives, env);
    FoldingPreservesMeaning(natives, fuel, t, at, Depth(env), k, k, env, env);
  }

  /** Results without functions in them are the same. */
  lemma DataUnaffected(natives: Natives, v: Val, w: Val)
    requires FunctionFree(v) && FoldedVal(natives, v, w)
    ensures v == w
  {
    var u :| ResolvesVal(v, u) && EquivalentVal(natives, u, w);
    DataResolved(v, u);
    DataEquivalent(natives, v, w);
  }

  lemma {:induction false} DataResolved(v: Val, u: Val)
    requires FunctionFree(v) && ResolvesVal(v, u)
    ensures v == u
    decreases v
  {
    forall i | 0 <= i < |v.parts| ensures v.parts[i] == u.parts[i] { DataResolved(v.parts[i], u.parts[i]); }
    assert v.parts == u.parts;
  }

  lemma {:induction false} DataEquivalent(natives: Natives, v: Val, w: Val)
    requires FunctionFree(v) && EquivalentVal(natives, v, w)
    ensures v == w
    decreases v
  {
    forall i | 0 <= i < |v.parts| ensures v.parts[i] == w.parts[i] { DataEquivalent(natives, v.parts[i], w.parts[i]); }
    assert v.parts == w.parts;
  }
}
