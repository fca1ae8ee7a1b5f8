/** Programs for which demanding bindings early makes no difference. */
module Demand {
  import opened Values
  import opened Source
  import opened Letrec

  /** Every binding that a block demands is a function or a literal. */
  ghost predicate Undemanding(e: Expr) {
    match e
    case Variable(_, _) => true
    case Lambda(_, body) => Undemanding(body)
    case Call(fn, arg) => Undemanding(fn) && Undemanding(arg)
    case Lit(_) => true
    case Where(base, bindings, _) =>
      && Undemanding(base)
      && (forall i | 0 <= i < |bindings| :: Undemanding(bindings[i].value))
      && forall i | 0 <= i < |bindings| && Demanded(base, bindings, i) ::
           bindings[i].value.Lambda? || bindings[i].value.Lit?
  }

  ghost predicate UndemandingMeaning(m: Meaning) {
    match m
    case Data(_, parts) => forall i | 0 <= i < |parts| :: UndemandingMeaning(parts[i])
    case Closure(f) => Undemanding(f.body) && UndemandingScope(f.scope)
  }

  ghost predicate UndemandingScope(s: Definitions) {
    match s
    case Top(imports) => forall path | path in imports :: UndemandingMeaning(imports[path])
    case Bound(_, argument, outer) => UndemandingMeaning(argument) && UndemandingScope(outer)
    case Recursive(bindings, outer) =>
      (forall i | 0 <= i < |bindings| :: Undemanding(bindings[i].value)) && UndemandingScope(outer)
  }

  ghost predicate UndemandingResult(m: Option<Meaning>) { m.Some? ==> UndemandingMeaning(m.value) }

  lemma CookUndemanding(r: Recipe, f: Meaning, a: Meaning)
    requires UndemandingMeaning(f) && UndemandingMeaning(a)
    ensures UndemandingMeaning(Cook(r, f, a))
  {
    CookRelated((v: Meaning, w: Meaning) => v == w && UndemandingMeaning(v), r, f, a, f, a);
  }

  lemma {:induction false} LiteralUndemanding(s: Definitions, l: Literal)
    requires UndemandingScope(s)
    ensures UndemandingMeaning(LiteralMeaning(ImportsOf(s), l))
  {
    match s
    case Top(_) =>
    case Bound(_, _, outer) => LiteralUndemanding(outer, l);
    case Recursive(_, outer) => LiteralUndemanding(outer, l);
  }

  /** Such programs mean the same either way. */
  lemma {:induction false} EagernessIrrelevant(natives: Natives, fuel: nat, e: Expr, s: Definitions)
    requires Undemanding(e) && UndemandingScope(s)
    ensures Denote(natives, true, fuel, e, s) == Denote(natives, false, fuel, e, s)
    ensures UndemandingResult(Denote(natives, false, fuel, e, s))
    decreases fuel, 2, e
  {
    match e
    case Variable(name, escape) => MentionIrrelevant(natives, fuel, name, escape, s);
    case Lambda(_, _) =>
    case Call(fn, arg) =>
      EagernessIrrelevant(natives, fuel, arg, s);
      EagernessIrrelevant(natives, fuel, fn, s);
      var a, f := Denote(natives, false, fuel, arg, s), Denote(natives, false, fuel, fn, s);
      if a.Some? && f.Some? { InvokeIrrelevant(natives, fuel, f.value, a.value); }
    case Lit(literal) => LiteralUndemanding(s, literal);
    case Where(base, bindings, _) => EagernessIrrelevant(natives, fuel, base, Recursive(bindings, s));
  }

  lemma {:induction false} MentionIrrelevant(natives: Natives, fuel: nat, name: string, escape: nat, s: Definitions)
    requires UndemandingScope(s)
    ensures Mention(natives, true, fuel, name, escape, s) == Mention(natives, false, fuel, name, escape, s)
    ensures UndemandingResult(Mention(natives, false, fuel, name, escape, s))
    decreases fuel, 1, s
  {
    match s
    case Top(_) =>
    case Bound(names, argument, outer) =>
      if name !in names {
        MentionIrrelevant(natives, fuel, name, escape, outer);
      } else if escape > 0 {
        MentionIrrelevant(natives, fuel, name, escape - 1, outer);
      } else if |names| != 1 {
        InvokeIrrelevant(natives, fuel, argument, Int(IndexOf(names, name)));
      }
    case Recursive(bindings, outer) =>
      match Find(bindings, name)
      case None => MentionIrrelevant(natives, fuel, name, escape, outer);
      case Some(i) =>
        if escape > 0 {
          MentionIrrelevant(natives, fuel, name, escape - 1, outer);
        } else if fuel > 0 {
          EagernessIrrelevant(natives, fuel - 1, bindings[i].value, s);
        }
  }

  lemma {:induction false} InvokeIrrelevant(natives: Natives, fuel: nat, f: Meaning, a: Meaning)
    requires UndemandingMeaning(f) && UndemandingMeaning(a)
    ensures Invoke(natives, true, fuel, f, a) == Invoke(natives, false, fuel, f, a)
    ensures UndemandingResult(Invoke(natives, false, fuel, f, a))
    decreases fuel, 0
  {
    match f
    case Closure(c) =>
      if fuel > 0 { EagernessIrrelevant(natives, fuel - 1, c.body, Bound(c.params, a, c.scope)); }
    case Data(_, _) =>
      match NativeAction(natives, ShapeOf(f), ShapeOf(a))
      case Return(r) => CookUndemanding(r, f, a);
      case TailCall(g, b) =>
        CookUndemanding(g, f, a);
        CookUndemanding(b, f, a);
        if fuel > 0 { InvokeIrrelevant(natives, fuel - 1, Cook(g, f, a), Cook(b, f, a)); }
  }
}
