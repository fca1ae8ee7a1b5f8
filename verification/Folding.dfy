/** Load-time constant folding preserves meaning.

    Two code trees are equivalent when the second is the first with some closed subtrees
    replaced by the constants they evaluate to.  The relation extends to values and
    environments, and equivalent code run in equivalent environments gives equivalent values. */
module Folding {
  import opened Values
  import opened CodeTree
  import opened Interpreter
  import opened Loader

  /** Nothing but constants and applications: no variable can influence the result. */
  predicate Closed(n: Node) {
    match n
    case Constant(_) => true
    case Variable(_) => false
    case Abstraction(_, _) => false
    case Application(fn, arg) => Closed(fn) && Closed(arg)
  }

  const NOWHERE := Root([], [], [])

  lemma {:induction false} ClosedIgnoresEnvironment(natives: Natives, fuel: nat, n: Node, e1: Environment, e2: Environment)
    requires Closed(n)
    ensures Evaluate(natives, fuel, n, e1) == Evaluate(natives, fuel, n, e2)
  {
    if n.Application? {
      ClosedIgnoresEnvironment(natives, fuel, n.fn, e1, e2);
      ClosedIgnoresEnvironment(natives, fuel, n.arg, e1, e2);
    }
  }

  ghost predicate Yields(natives: Natives, n: Node, fuel: nat, v: Val) {
    Evaluate(natives, fuel, n, NOWHERE) == Some(v)
  }

  // ---------------------------------------------------------------------------
  // Equivalence.

  ghost predicate EquivalentVal(natives: Natives, v: Val, w: Val)
    decreases w
  {
    match w
    case Data(tag, parts) =>
      v.Data? && v.tag == tag && |v.parts| == |parts|
      && forall i | 0 <= i < |parts| :: EquivalentVal(natives, v.parts[i], parts[i])
    case Closure(g) =>
      v.Closure? && EquivalentEnv(natives, v.c.environment, g.environment)
      && EquivalentCode(natives, v.c.body, g.body, Depth(g.environment) + 1)
  }

  ghost predicate EquivalentEnv(natives: Natives, e1: Environment, e2: Environment)
    decreases e2
  {
    FlattenLength(e1);
    FlattenLength(e2);
    Depth(e1) == Depth(e2) &&
    forall i | 0 <= i < Depth(e2) ::
      LookupSmaller(e2, i);
      EquivalentVal(natives, Flatten(e1)[i], Flatten(e2)[i])
  }

  /** `m` is `n` with closed subtrees folded; variables stay below `depth`. */
  ghost predicate EquivalentCode(natives: Natives, n: Node, m: Node, depth: nat)
    decreases m
  {
    match m
    case Constant(w) =>
      if n.Constant? then EquivalentVal(natives, n.value, w)
      else Closed(n) && exists fuel, v :: Yields(natives, n, fuel, v) && EquivalentVal(natives, v, w)
    case Variable(i) => n == m && i < depth
    case Abstraction(body, _) => n.Abstraction? && EquivalentCode(natives, n.body, body, depth + 1)
    case Application(fn, arg) =>
      n.Application? && EquivalentCode(natives, n.fn, fn, depth) && EquivalentCode(natives, n.arg, arg, depth)
  }

  lemma EquivalenceIsStructural(natives: Natives)
    ensures Structural((v: Val, w: Val) => EquivalentVal(natives, v, w))
  {
  }

  /** Natives cannot tell equivalent operands apart, and answer with equivalent results. */
  lemma NativesRespectEquivalence(natives: Natives, f: Val, a: Val, g: Val, b: Val)
    requires EquivalentVal(natives, f, g) && EquivalentVal(natives, a, b)
    ensures NativeAction(natives, ShapeOf(f), ShapeOf(a)) == NativeAction(natives, ShapeOf(g), ShapeOf(b))
    ensures var action := NativeAction(natives, ShapeOf(g), ShapeOf(b));
            if action.Return? then
              EquivalentVal(natives, Cook(action.result, f, a), Cook(action.result, g, b))
            else
              && EquivalentVal(natives, Cook(action.callee, f, a), Cook(action.callee, g, b))
              && EquivalentVal(natives, Cook(action.argument, f, a), Cook(action.argument, g, b))
  {
    var rel := (v: Val, w: Val) => EquivalentVal(natives, v, w);
    EquivalenceIsStructural(natives);
    SameShape(rel, f, g);
    SameShape(rel, a, b);
    var action := NativeAction(natives, ShapeOf(g), ShapeOf(b));
    if action.Return? {
      CookRelated(rel, action.result, f, a, g, b);
    } else {
      CookRelated(rel, action.callee, f, a, g, b);
      CookRelated(rel, action.argument, f, a, g, b);
    }
  }

  lemma {:induction false} EnterFunction(natives: Natives, f: FunctionData, g: FunctionData, a: Val, b: Val)
    requires EquivalentEnv(natives, f.environment, g.environment) && EquivalentVal(natives, a, b)
    ensures EquivalentEnv(natives, Frame([a], f), Frame([b], g))
  {
    var e1, e2 := Frame([a], f), Frame([b], g);
    FlattenLength(e1); FlattenLength(e2);
    FlattenLength(f.environment); FlattenLength(g.environment);
    forall i | 0 <= i < Depth(e2) ensures EquivalentVal(natives, Flatten(e1)[i], Flatten(e2)[i]) {
      if i > 0 {
        assert Flatten(e1)[i] == Flatten(f.environment)[i - 1];
        assert Flatten(e2)[i] == Flatten(g.environment)[i - 1];
      }
    }
  }

  /** Two evaluations of one closed tree agree, whatever their fuel and environment. */
  lemma ClosedResultUnique(natives: Natives, n: Node, f1: nat, e1: Environment, f2: nat, e2: Environment)
    requires Closed(n)
    requires Evaluate(natives, f1, n, e1).Some? && Evaluate(natives, f2, n, e2).Some?
    ensures Evaluate(natives, f1, n, e1) == Evaluate(natives, f2, n, e2)
  {
    var f := if f1 < f2 then f2 else f1;
    MoreFuel(natives, f1, f, n, e1);
    MoreFuel(natives, f2, f, n, e2);
    ClosedIgnoresEnvironment(natives, f, n, e1, e2);
  }

  // ---------------------------------------------------------------------------
  // Folded code needs no more fuel than the original.

  lemma {:induction false} FoldedTerminates(
      natives: Natives, fuel: nat, n: Node, e1: Environment, m: Node, e2: Environment)
    requires EquivalentEnv(natives, e1, e2) && EquivalentCode(natives, n, m, Depth(e2))
    requires Evaluate(natives, fuel, n, e1).Some?
    ensures Evaluate(natives, fuel, m, e2).Some?
    ensures EquivalentVal(natives, Evaluate(natives, fuel, n, e1).value, Evaluate(natives, fuel, m, e2).value)
    decreases fuel, 1, m
  {
    match m
    case Constant(w) =>
      if !n.Constant? {
        var f, v :| Yields(natives, n, f, v) && EquivalentVal(natives, v, w);
        ClosedResultUnique(natives, n, f, NOWHERE, fuel, e1);
      }
    case Variable(i) =>
      FlattenLength(e1); FlattenLength(e2);
    case Abstraction(_, _) =>
    case Application(fn, arg) =>
      FoldedTerminates(natives, fuel, n.arg, e1, arg, e2);
      FoldedTerminates(natives, fuel, n.fn, e1, fn, e2);
      FoldedCallTerminates(natives, fuel,
        Evaluate(natives, fuel, n.fn, e1).value, Evaluate(natives, fuel, n.arg, e1).value,
        Evaluate(natives, fuel, fn, e2).value, Evaluate(natives, fuel, arg, e2).value);
  }

  lemma {:induction false} FoldedCallTerminates(natives: Natives, fuel: nat, f: Val, a: Val, g: Val, b: Val)
    requires EquivalentVal(natives, f, g) && EquivalentVal(natives, a, b)
    requires Apply(natives, fuel, f, a).Some?
    ensures Apply(natives, fuel, g, b).Some?
    ensures EquivalentVal(natives, Apply(natives, fuel, f, a).value, Apply(natives, fuel, g, b).value)
    decreases fuel, 0
  {
    match g
    case Closure(gd) =>
      EnterFunction(natives, f.c, gd, a, b);
      FoldedTerminates(natives, fuel - 1, f.c.body, Frame([a], f.c), gd.body, Frame([b], gd));
    case Data(_, _) =>
      NativesRespectEquivalence(natives, f, a, g, b);
      match NativeAction(natives, ShapeOf(g), ShapeOf(b)) {
        case Return(_) =>
        case TailCall(c, x) =>
          FoldedCallTerminates(natives, fuel - 1, Cook(c, f, a), Cook(x, f, a), Cook(c, g, b), Cook(x, g, b));
      }
  }

  // ---------------------------------------------------------------------------
  // Whatever folded code computes, the original computes too, given enough fuel.

  lemma {:induction false} OriginalTerminates(
      natives: Natives, fuel: nat, n: Node, e1: Environment, m: Node, e2: Environment) returns (more: nat)
    requires EquivalentEnv(natives, e1, e2) && EquivalentCode(natives, n, m, Depth(e2))
    requires Evaluate(natives, fuel, m, e2).Some?
    ensures Evaluate(natives, more, n, e1).Some?
    ensures EquivalentVal(natives, Evaluate(natives, more, n, e1).value, Evaluate(natives, fuel, m, e2).value)
    decreases fuel, 1, m
  {
    match m
    case Constant(w) =>
      more := 0;
      if !n.Constant? {
        var f, v :| Yields(natives, n, f, v) && EquivalentVal(natives, v, w);
        ClosedIgnoresEnvironment(natives, f, n, e1, NOWHERE);
        more := f;
      }
    case Variable(i) =>
      FlattenLength(e1); FlattenLength(e2);
      more := 0;
    case Abstraction(_, _) =>
      more := 0;
    case Application(fn, arg) =>
      var f1 := OriginalTerminates(natives, fuel, n.arg, e1, arg, e2);
      var f2 := OriginalTerminates(natives, fuel, n.fn, e1, fn, e2);
      var a, f := Evaluate(natives, f1, n.arg, e1).value, Evaluate(natives, f2, n.fn, e1).value;
      var f3 := OriginalCallTerminates(natives, fuel, f, a,
        Evaluate(natives, fuel, fn, e2).value, Evaluate(natives, fuel, arg, e2).value);
      more := f1 + f2 + f3;
      MoreFuel(natives, f1, more, n.arg, e1);
      MoreFuel(natives, f2, more, n.fn, e1);
      MoreFuelApply(natives, f3, more, f, a);
  }

  lemma {:induction false} OriginalCallTerminates(natives: Natives, fuel: nat, f: Val, a: Val, g: Val, b: Val)
      returns (more: nat)
    requires EquivalentVal(natives, f, g) && EquivalentVal(natives, a, b)
    requires Apply(natives, fuel, g, b).Some?
    ensures Apply(natives, more, f, a).Some?
    ensures EquivalentVal(natives, Apply(natives, more, f, a).value, Apply(natives, fuel, g, b).value)
    decreases fuel, 0
  {
    match g
    case Closure(gd) =>
      EnterFunction(natives, f.c, gd, a, b);
      more := OriginalTerminates(natives, fuel - 1, f.c.body, Frame([a], f.c), gd.body, Frame([b], gd));
      more := more + 1;
    case Data(_, _) =>
      NativesRespectEquivalence(natives, f, a, g, b);
      match NativeAction(natives, ShapeOf(g), ShapeOf(b)) {
        case Return(_) =>
          more := 0;
        case TailCall(c, x) =>
          more := OriginalCallTerminates(natives, fuel - 1, Cook(c, f, a), Cook(x, f, a), Cook(c, g, b), Cook(x, g, b));
          more := more + 1;
      }
  }

  // ---------------------------------------------------------------------------
  // What the loader builds is equivalent to the tree it would build without folding.

  /** Every reference of `t` to the constant table is inside a table of `n` constants. */
  predicate InTable(t: Term, depth: nat, n: nat) {
    match t
    case Var(index) => index < depth + n
    case Abs(body) => InTable(body, depth + 1, n)
    case App(fn, arg) => InTable(fn, depth, n) && InTable(arg, depth, n)
  }

  /** The tree with its constants in place of their positions, and all applications kept. */
  function Unfolded(t: Term, at: nat, depth: nat, constants: seq<Val>): Node
    requires InTable(t, depth, |constants|)
  {
    match t
    case Var(index) => if index < depth then Variable(index) else Constant(constants[index - depth])
    case Abs(body) => Abstraction(Unfolded(body, at + 1, depth + 1, constants), at)
    case App(fn, arg) =>
      Application(Unfolded(fn, at + 1, depth, constants), Unfolded(arg, at + 1 + Size(fn), depth, constants))
  }

  ghost predicate EquivalentTables(natives: Natives, k1: seq<Val>, k2: seq<Val>) {
    |k1| == |k2| && forall i | 0 <= i < |k1| :: EquivalentVal(natives, k1[i], k2[i])
  }

  /** What the loader's bound check asks of every constant reference. */
  predicate PassesBoundCheck(t: Term, depth: nat, n: nat) {
    match t
    case Var(index) => index < depth || !(index - depth > n)
    case Abs(body) => PassesBoundCheck(body, depth + 1, n)
    case App(fn, arg) => PassesBoundCheck(fn, depth, n) && PassesBoundCheck(arg, depth, n)
  }

  /** Code that passes the check keeps inside the constant table exactly when it does not name
      the constant just past the table's end. */
  lemma {:induction false} CheckMissesOnlyTheEnd(t: Term, depth: nat, n: nat)
    ensures PassesBoundCheck(t, depth, n) ==> (InTable(t, depth, n) <==> !ReadsPastEnd(t, depth, n))
    ensures InTable(t, depth, n) ==> PassesBoundCheck(t, depth, n)
  {
    match t
    case Var(_) =>
    case Abs(body) => CheckMissesOnlyTheEnd(body, depth + 1, n);
    case App(fn, arg) =>
      CheckMissesOnlyTheEnd(fn, depth, n);
      CheckMissesOnlyTheEnd(arg, depth, n);
  }

  /** The smallest code that slips through, and what loading it does. */
  lemma PastTheEnd(natives: Natives, fuel: nat)
    ensures PassesBoundCheck(Var(0), 0, 0) && !InTable(Var(0), 0, 0)
    ensures Load(natives, fuel, Var(0), 0, 0, []) == Overrun
  {}

  /** Code that keeps inside the table is refused for no reason but the fuel of its folding calls;
      other code is never loaded.  It is refused as invalid only if it fails the bound check, and
      the loader reads from outside the table only if the code names the constant just past its
      end. */
  lemma {:induction false} LoadingOutcomes(natives: Natives, fuel: nat, t: Term, at: nat, depth: nat, constants: seq<Val>)
    ensures var r := Load(natives, fuel, t, at, depth, constants);
      && (r.Loaded? ==> InTable(t, depth, |constants|))
      && (r == OutOfFuel || r.Loaded? <== InTable(t, depth, |constants|))
      && (r == InvalidTree ==> !PassesBoundCheck(t, depth, |constants|))
      && (r == Overrun ==> ReadsPastEnd(t, depth, |constants|))
  {
    match t
    case Var(_) =>
    case Abs(body) => LoadingOutcomes(natives, fuel, body, at + 1, depth + 1, constants);
    case App(fn, arg) =>
      LoadingOutcomes(natives, fuel, arg, at + 1 + Size(fn), depth, constants);
      LoadingOutcomes(natives, fuel, fn, at + 1, depth, constants);
  }

  /** No application of two constants is left. */
  predicate FullyFolded(n: Node) {
    match n
    case Constant(_) => true
    case Variable(_) => true
    case Abstraction(body, _) => FullyFolded(body)
    case Application(fn, arg) => FullyFolded(fn) && FullyFolded(arg) && !(fn.Constant? && arg.Constant?)
  }

  /** Nothing but constants of the table, applied to one another. */
  predicate OfConstants(t: Term, depth: nat) {
    match t
    case Var(index) => index >= depth
    case Abs(_) => false
    case App(fn, arg) => OfConstants(fn, depth) && OfConstants(arg, depth)
  }

  /** Loading folds every application of constants, also of those it has just folded, and nothing
      else. */
  lemma {:induction false} LoadFoldsEverything(natives: Natives, fuel: nat, t: Term, at: nat, depth: nat, constants: seq<Val>)
    requires Load(natives, fuel, t, at, depth, constants).Loaded?
    ensures FullyFolded(Load(natives, fuel, t, at, depth, constants).node)
    ensures Load(natives, fuel, t, at, depth, constants).node.Constant? <==> OfConstants(t, depth)
  {
    match t
    case Var(_) =>
    case Abs(body) => LoadFoldsEverything(natives, fuel, body, at + 1, depth + 1, constants);
    case App(fn, arg) =>
      LoadFoldsEverything(natives, fuel, arg, at + 1 + Size(fn), depth, constants);
      LoadFoldsEverything(natives, fuel, fn, at + 1, depth, constants);
  }

  lemma {:induction false} LoadFoldsApplications(
      natives: Natives, fuel: nat, t: Term, at: nat, at2: nat, depth: nat, k1: seq<Val>, k2: seq<Val>)
    requires EquivalentTables(natives, k1, k2)
    requires InTable(t, depth, |k1|)
    requires Load(natives, fuel, t, at2, depth, k2).Loaded?
    ensures EquivalentCode(natives, Unfolded(t, at, depth, k1), Load(natives, fuel, t, at2, depth, k2).node, depth)
    decreases t
  {
    match t
    case Var(_) =>
    case Abs(body) => LoadFoldsApplications(natives, fuel, body, at + 1, at2 + 1, depth + 1, k1, k2);
    case App(fn, arg) =>
      LoadFoldsApplications(natives, fuel, arg, at + 1 + Size(fn), at2 + 1 + Size(fn), depth, k1, k2);
      LoadFoldsApplications(natives, fuel, fn, at + 1, at2 + 1, depth, k1, k2);
      CombineIsFolding(natives, fuel, Unfolded(fn, at + 1, depth, k1), Unfolded(arg, at + 1 + Size(fn), depth, k1),
        Load(natives, fuel, fn, at2 + 1, depth, k2).node, Load(natives, fuel, arg, at2 + 1 + Size(fn), depth, k2).node,
        depth);
  }

  lemma {:induction false} CombineIsFolding(natives: Natives, fuel: nat, f1: Node, a1: Node, f2: Node, a2: Node, depth: nat)
    requires EquivalentCode(natives, f1, f2, depth) && EquivalentCode(natives, a1, a2, depth)
    requires Combine(natives, fuel, f2, a2).Loaded?
    ensures EquivalentCode(natives, Application(f1, a1), Combine(natives, fuel, f2, a2).node, depth)
  {
    if f2.Constant? && a2.Constant? {
      var n := Application(f1, a1);
      var w := Combine(natives, fuel, f2, a2).node.value;
      var m1, f := ConstantYields(natives, f1, f2.value, depth);
      var m2, a := ConstantYields(natives, a1, a2.value, depth);
      var m3 := OriginalCallTerminates(natives, fuel, f, a, f2.value, a2.value);
      var m := m1 + m2 + m3;
      MoreFuel(natives, m1, m, f1, NOWHERE);
      MoreFuel(natives, m2, m, a1, NOWHERE);
      MoreFuelApply(natives, m3, m, f, a);
      assert Yields(natives, n, m, Apply(natives, m3, f, a).value);
    }
  }

  lemma ConstantYields(natives: Natives, n: Node, w: Val, depth: nat) returns (fuel: nat, v: Val)
    requires EquivalentCode(natives, n, Constant(w), depth)
    ensures Closed(n) && Yields(natives, n, fuel, v) && EquivalentVal(natives, v, w)
  {
    if n.Constant? {
      fuel, v := 0, n.value;
    } else {
      fuel, v :| Yields(natives, n, fuel, v) && EquivalentVal(natives, v, w);
    }
  }

  /** With fuel `f` the first code tree yields a value, with fuel `g` the second one does, and
      the two values are equivalent. */
  ghost predicate Agree(natives: Natives, f: nat, n: Node, e1: Environment, g: nat, m: Node, e2: Environment) {
    && Evaluate(natives, f, n, e1).Some? && Evaluate(natives, g, m, e2).Some?
    && EquivalentVal(natives, Evaluate(natives, f, n, e1).value, Evaluate(natives, g, m, e2).value)
  }

  /** Whenever one of the two code trees yields a value, so does the other, and the two values
      are equivalent. */
  ghost predicate SameBehaviour(natives: Natives, n: Node, e1: Environment, m: Node, e2: Environment) {
    && (forall f: nat | Evaluate(natives, f, n, e1).Some? :: exists g: nat :: Agree(natives, f, n, e1, g, m, e2))
    && (forall g: nat | Evaluate(natives, g, m, e2).Some? :: exists f: nat :: Agree(natives, f, n, e1, g, m, e2))
  }

  /** Equivalent code in equivalent environments: either both yield equivalent values or
      neither yields any. */
  lemma EquivalentCodeBehavesTheSame(natives: Natives, n: Node, e1: Environment, m: Node, e2: Environment)
    requires EquivalentEnv(natives, e1, e2) && EquivalentCode(natives, n, m, Depth(e2))
    ensures SameBehaviour(natives, n, e1, m, e2)
  {
    forall f: nat | Evaluate(natives, f, n, e1).Some?
      ensures exists g: nat :: Agree(natives, f, n, e1, g, m, e2)
    {
      FoldedTerminates(natives, f, n, e1, m, e2);
      assert Agree(natives, f, n, e1, f, m, e2);
    }
    forall g: nat | Evaluate(natives, g, m, e2).Some?
      ensures exists f: nat :: Agree(natives, f, n, e1, g, m, e2)
    {
      var f := OriginalTerminates(natives, g, n, e1, m, e2);
      assert Agree(natives, f, n, e1, g, m, e2);
    }
  }

  /** If loading completes, the folded tree behaves like the one whose applications of constants
      were kept. */
  lemma UnfoldedBehavesTheSame(
      natives: Natives, fuel: nat, t: Term, at: nat, depth: nat, k1: seq<Val>, k2: seq<Val>,
      e1: Environment, e2: Environment)
    requires EquivalentTables(natives, k1, k2)
    requires Load(natives, fuel, t, at, depth, k2).Loaded?
    requires EquivalentEnv(natives, e1, e2) && Depth(e2) == depth
    ensures InTable(t, depth, |k1|)
    ensures SameBehaviour(natives, Unfolded(t, at, depth, k1), e1, Load(natives, fuel, t, at, depth, k2).node, e2)
  {
    LoadingOutcomes(natives, fuel, t, at, depth, k2);
    LoadFoldsApplications(natives, fuel, t, at, at, depth, k1, k2);
    EquivalentCodeBehavesTheSame(natives, Unfolded(t, at, depth, k1), e1, Load(natives, fuel, t, at, depth, k2).node, e2);
  }

  // ---------------------------------------------------------------------------
  // Every value whose code stays inside its environment is equivalent to itself.

  ghost predicate WellScopedVal(v: Val) {
    match v
    case Data(_, parts) => forall i | 0 <= i < |parts| :: WellScopedVal(parts[i])
    case Closure(f) => WellScopedEnv(f.environment) && WellScopedCode(f.body, Depth(f.environment) + 1)
  }

  ghost predicate WellScopedEnv(e: Environment) {
    FlattenLength(e);
    forall i | 0 <= i < Depth(e) ::
      LookupSmaller(e, i);
      WellScopedVal(Flatten(e)[i])
  }

  ghost predicate WellScopedCode(n: Node, depth: nat) {
    match n
    case Constant(v) => WellScopedVal(v)
    case Variable(i) => i < depth
    case Abstraction(body, _) => WellScopedCode(body, depth + 1)
    case Application(fn, arg) => WellScopedCode(fn, depth) && WellScopedCode(arg, depth)
  }

  lemma {:induction false} EquivalentToSelf(natives: Natives, v: Val)
    requires WellScopedVal(v)
    ensures EquivalentVal(natives, v, v)
    decreases v
  {
    match v
    case Data(_, parts) =>
      forall i | 0 <= i < |parts| ensures EquivalentVal(natives, parts[i], parts[i]) {
        EquivalentToSelf(natives, parts[i]);
      }
    case Closure(f) =>
      EnvironmentEquivalentToSelf(natives, f.environment);
      CodeEquivalentToSelf(natives, f.body, Depth(f.environment) + 1);
  }

  lemma {:induction false} EnvironmentEquivalentToSelf(natives: Natives, e: Environment)
    requires WellScopedEnv(e)
    ensures EquivalentEnv(natives, e, e)
    decreases e
  {
    FlattenLength(e);
    forall i | 0 <= i < Depth(e) ensures EquivalentVal(natives, Flatten(e)[i], Flatten(e)[i]) {
      LookupSmaller(e, i);
      EquivalentToSelf(natives, Flatten(e)[i]);
    }
  }

  lemma {:induction false} CodeEquivalentToSelf(natives: Natives, n: Node, depth: nat)
    requires WellScopedCode(n, depth)
    ensures EquivalentCode(natives, n, n, depth)
    decreases n
  {
    match n
    case Constant(v) => EquivalentToSelf(natives, v);
    case Variable(_) =>
    case Abstraction(body, _) => CodeEquivalentToSelf(natives, body, depth + 1);
    case Application(fn, arg) =>
      CodeEquivalentToSelf(natives, fn, depth);
      CodeEquivalentToSelf(natives, arg, depth);
  }
}
