/** What programs mean before any planning: the bindings of a where block are mutually
    recursive definitions, each one re-evaluated wherever it is mentioned.  In the eager variant a
    block also demands a value of every binding that the base expression depends on and that does
    not depend on itself. */
module Letrec {
  import opened Values
  import opened Source
  import Frontend
  import Graphs

  /** The program without its plans. */
  function Erase(e: Expr): Expr {
    match e
    case Variable(_, _) => e
    case Lambda(params, body) => Lambda(params, Erase(body))
    case Call(fn, arg) => Call(Erase(fn), Erase(arg))
    case Lit(_) => e
    case Where(base, bindings, _) => Where(Erase(base), EraseBindings(bindings), Plan([], []))
  }

  function EraseBindings(bindings: seq<Binding>): seq<Binding> {
    seq(|bindings|, i requires 0 <= i < |bindings| => Binding(bindings[i].name, Erase(bindings[i].value)))
  }

  lemma {:induction false} NeedsIgnorePlans(e: Expr)
    ensures Frontend.Needs(Erase(e)) == Frontend.Needs(e)
  {
    match e
    case Variable(_, _) =>
    case Lambda(_, body) => NeedsIgnorePlans(body);
    case Call(fn, arg) => NeedsIgnorePlans(fn); NeedsIgnorePlans(arg);
    case Lit(_) =>
    case Where(base, bindings, _) =>
      NeedsIgnorePlans(base);
      forall i | 0 <= i < |bindings| ensures Frontend.Needs(EraseBindings(bindings)[i].value) == Frontend.Needs(bindings[i].value) {
        NeedsIgnorePlans(bindings[i].value);
      }
      assert Names(EraseBindings(bindings)) == Names(bindings);
  }

  /** The base expression depends on binding `i`, which does not depend on itself. */
  ghost predicate Demanded(base: Expr, bindings: seq<Binding>, i: nat) {
    var graph := Frontend.BlockGraph(Where(base, bindings, Plan([], [])));
    i < |bindings| && Graphs.Reaches(graph, |bindings|, i) && !Graphs.OnCycle(graph, i)
  }

  type Meaning = V<Function>

  datatype Function = Function(params: seq<string>, body: Expr, scope: Definitions)

  /** Enclosing definitions, innermost first. */
  datatype Definitions =
    | Top(imports: map<string, Meaning>)
    | Bound(names: seq<string>, argument: Meaning, outer: Definitions)
    | Recursive(bindings: seq<Binding>, outer: Definitions)

  function ImportsOf(s: Definitions): map<string, Meaning> {
    match s
    case Top(imports) => imports
    case Bound(_, _, outer) => ImportsOf(outer)
    case Recursive(_, outer) => ImportsOf(outer)
  }

  function LiteralMeaning(imports: map<string, Meaning>, l: Literal): Meaning {
    match l
    case Import(path) => if path in imports then imports[path] else Error("Unknown module: " + path)
    case Integer(i) => Int(i)
    case Atom(name) => Data(AtomTag(name), [])
    case Bytes(bytes) => Data(BytesTag(bytes), [])
  }

  ghost function Denote(natives: Natives, eager: bool, fuel: nat, e: Expr, s: Definitions): Option<Meaning>
    decreases fuel, 2, e
  {
    match e
    case Variable(name, escape) => Mention(natives, eager, fuel, name, escape, s)
    case Lambda(params, body) => Some(Closure(Function(params, body, s)))
    case Call(fn, arg) =>
      (match Denote(natives, eager, fuel, arg, s)
       case None => None
       case Some(a) =>
         match Denote(natives, eager, fuel, fn, s)
         case None => None
         case Some(f) => Invoke(natives, eager, fuel, f, a))
    case Lit(literal) => Some(LiteralMeaning(ImportsOf(s), literal))
    case Where(base, bindings, _) =>
      if eager && exists i | 0 <= i < |bindings| ::
                    Demanded(base, bindings, i) && Denote(natives, eager, fuel, bindings[i].value, Recursive(bindings, s)).None?
      then None
      else Denote(natives, eager, fuel, base, Recursive(bindings, s))
  }

  ghost function Mention(natives: Natives, eager: bool, fuel: nat, name: string, escape: nat, s: Definitions): Option<Meaning>
    decreases fuel, 1, s
  {
    match s
    case Top(imports) => Some(Closure(Function(["x"], Variable("x", 0), s)))
    case Bound(names, argument, outer) =>
      if name !in names then Mention(natives, eager, fuel, name, escape, outer)
      else if escape > 0 then Mention(natives, eager, fuel, name, escape - 1, outer)
      else if |names| == 1 then Some(argument)
      else Invoke(natives, eager, fuel, argument, Int(IndexOf(names, name)))
    case Recursive(bindings, outer) =>
      match Find(bindings, name)
      case None => Mention(natives, eager, fuel, name, escape, outer)
      case Some(i) =>
        if escape > 0 then Mention(natives, eager, fuel, name, escape - 1, outer)
        else if fuel == 0 then None
        else Denote(natives, eager, fuel - 1, bindings[i].value, s)
  }

  ghost function Invoke(natives: Natives, eager: bool, fuel: nat, f: Meaning, a: Meaning): Option<Meaning>
    decreases fuel, 0
  {
    match f
    case Closure(c) =>
      if fuel == 0 then None else Denote(natives, eager, fuel - 1, c.body, Bound(c.params, a, c.scope))
    case Data(_, _) =>
      match NativeAction(natives, ShapeOf(f), ShapeOf(a))
      case Return(r) => Some(Cook(r, f, a))
      case TailCall(g, b) =>
        if fuel == 0 then None else Invoke(natives, eager, fuel - 1, Cook(g, f, a), Cook(b, f, a))
  }

  // ---------------------------------------------------------------------------
  // More fuel gives the same meaning.

  lemma {:induction false} DenoteMore(natives: Natives, eager: bool, fuel: nat, more: nat, e: Expr, s: Definitions)
    requires fuel <= more && Denote(natives, eager, fuel, e, s).Some?
    ensures Denote(natives, eager, more, e, s) == Denote(natives, eager, fuel, e, s)
    decreases fuel, 2, e
  {
    match e
    case Variable(name, escape) => MentionMore(natives, eager, fuel, more, name, escape, s);
    case Lambda(_, _) =>
    case Call(fn, arg) =>
      DenoteMore(natives, eager, fuel, more, arg, s);
      DenoteMore(natives, eager, fuel, more, fn, s);
      InvokeMore(natives, eager, fuel, more, Denote(natives, eager, fuel, fn, s).value, Denote(natives, eager, fuel, arg, s).value);
    case Lit(_) =>
    case Where(base, bindings, _) =>
      DenoteMore(natives, eager, fuel, more, base, Recursive(bindings, s));
      if eager {
        forall i | 0 <= i < |bindings| && Demanded(base, bindings, i)
          ensures Denote(natives, eager, more, bindings[i].value, Recursive(bindings, s)).Some?
        {
          DenoteMore(natives, eager, fuel, more, bindings[i].value, Recursive(bindings, s));
        }
      }
  }

  lemma {:induction false} MentionMore(natives: Natives, eager: bool, fuel: nat, more: nat, name: string, escape: nat, s: Definitions)
    requires fuel <= more && Mention(natives, eager, fuel, name, escape, s).Some?
    ensures Mention(natives, eager, more, name, escape, s) == Mention(natives, eager, fuel, name, escape, s)
    decreases fuel, 1, s
  {
    match s
    case Top(_) =>
    case Bound(names, argument, outer) =>
      if name !in names {
        MentionMore(natives, eager, fuel, more, name, escape, outer);
      } else if escape > 0 {
        MentionMore(natives, eager, fuel, more, name, escape - 1, outer);
      } else if |names| != 1 {
        InvokeMore(natives, eager, fuel, more, argument, Int(IndexOf(names, name)));
      }
    case Recursive(bindings, outer) =>
      match Find(bindings, name) {
        case None => MentionMore(natives, eager, fuel, more, name, escape, outer);
        case Some(i) =>
          if escape > 0 {
            MentionMore(natives, eager, fuel, more, name, escape - 1, outer);
          } else {
            DenoteMore(natives, eager, fuel - 1, more - 1, bindings[i].value, s);
          }
      }
  }

  lemma {:induction false} InvokeMore(natives: Natives, eager: bool, fuel: nat, more: nat, f: Meaning, a: Meaning)
    requires fuel <= more && Invoke(natives, eager, fuel, f, a).Some?
    ensures Invoke(natives, eager, more, f, a) == Invoke(natives, eager, fuel, f, a)
    decreases fuel, 0
  {
    match f
    case Closure(c) => DenoteMore(natives, eager, fuel - 1, more - 1, c.body, Bound(c.params, a, c.scope));
    case Data(_, _) =>
      match NativeAction(natives, ShapeOf(f), ShapeOf(a)) {
        case Return(_) =>
        case TailCall(g, b) => InvokeMore(natives, eager, fuel - 1, more - 1, Cook(g, f, a), Cook(b, f, a));
      }
  }
}
