/** The compiler's two passes over a program: planning, then emitting instructions. */
module Generator {
  import opened Values
  import opened CodeTree
  import opened Source
  import opened Letrec
  import opened Compiler
  import opened CompilerCorrect
  import opened Frontend
  import opened InputTables
  import opened Lookups
  import Graphs
  import WhereBlock

  /** A definition around the expression being visited: a function's parameters, or the part of
      a where block being visited, with the siblings it has mentioned so far. */
  datatype Parent =
    | OfFunction(names: seq<string>)
    | OfBlock(names: seq<string>, mentioned: set<nat>)

  function Tell(parent: Parent, needs: set<Need>): (r: Parent)
    ensures r.names == parent.names
  {
    match parent
    case OfFunction(_) => parent
    case OfBlock(names, mentioned) => OfBlock(names, mentioned + Mentioned(needs, names))
  }

  /** The parents after everything in `needs` has been looked up through them. */
  function Record(parents: seq<Parent>, needs: set<Need>): (r: seq<Parent>)
    ensures |r| == |parents|
  {
    if parents == [] then []
    else [Tell(parents[0], needs)] + Record(parents[1..], Outside(needs, parents[0].names))
  }

  /** The tuple positions that a function's own parameters take when `needs` is looked up. */
  function PositionsIn(parent: Parent, needs: set<Need>): set<Literal> {
    if parent.OfFunction? && |parent.names| != 1
    then set n | n in needs && n.0 in parent.names && n.1 == 0 :: Integer(IndexOf(parent.names, n.0))
    else {}
  }

  /** The tuple positions registered by looking up `needs` through `parents`. */
  function Positions(parents: seq<Parent>, needs: set<Need>): set<Literal> {
    if parents == [] then {}
    else PositionsIn(parents[0], needs) + Positions(parents[1..], Outside(needs, parents[0].names))
  }

  lemma OutsideOfUnion(a: set<Need>, b: set<Need>, names: seq<string>)
    ensures Outside(a + b, names) == Outside(a, names) + Outside(b, names)
    ensures Mentioned(a + b, names) == Mentioned(a, names) + Mentioned(b, names)
  {
  }

  lemma TellTwice(parent: Parent, a: set<Need>, b: set<Need>)
    ensures Tell(Tell(parent, a), b) == Tell(parent, a + b)
    ensures PositionsIn(Tell(parent, a), b) == PositionsIn(parent, b)
    ensures PositionsIn(parent, a + b) == PositionsIn(parent, a) + PositionsIn(parent, b)
  {
    OutsideOfUnion(a, b, parent.names);
  }

  lemma {:induction false} RecordTwice(parents: seq<Parent>, a: set<Need>, b: set<Need>)
    ensures Record(Record(parents, a), b) == Record(parents, a + b)
    ensures Positions(Record(parents, a), b) == Positions(parents, b)
    ensures Positions(parents, a + b) == Positions(parents, a) + Positions(parents, b)
  {
    if parents != [] {
      var names := parents[0].names;
      TellTwice(parents[0], a, b);
      OutsideOfUnion(a, b, names);
      RecordTwice(parents[1..], Outside(a, names), Outside(b, names));
      assert Record(parents, a)[1..] == Record(parents[1..], Outside(a, names));
    }
  }

  lemma {:induction false} RecordNothing(parents: seq<Parent>)
    ensures Record(parents, {}) == parents && Positions(parents, {}) == {}
  {
    if parents != [] {
      RecordNothing(parents[1..]);
      assert Outside({}, parents[0].names) == {} && Mentioned({}, parents[0].names) == {};
      assert Tell(parents[0], {}) == parents[0];
      assert parents == [parents[0]] + parents[1..];
    }
  }

  /** A need that the first parent does not meet goes on to the next one. */
  lemma PassedOn(parent: Parent, n: Need)
    requires n.0 in parent.names ==> n.1 > 0
    ensures Outside({n}, parent.names) == {if n.0 in parent.names then (n.0, n.1 - 1) else n}
    ensures Tell(parent, {n}) == parent && PositionsIn(parent, {n}) == {}
  {
    var next := if n.0 in parent.names then (n.0, n.1 - 1) else n;
    assert next in Outside({n}, parent.names);
    assert Mentioned({n}, parent.names) == {};
  }

  lemma MetHere(parent: Parent, n: Need)
    requires n.0 in parent.names && n.1 == 0
    ensures Outside({n}, parent.names) == {}
    ensures Mentioned({n}, parent.names) == {IndexOf(parent.names, n.0)}
    ensures PositionsIn(parent, {n})
         == if parent.OfFunction? && |parent.names| != 1 then {Integer(IndexOf(parent.names, n.0))} else {}
  {
    assert n in {n};
  }

  /** Everything needed by the first `n` bindings. */
  function NeedsOfBindings(bindings: seq<Binding>, n: nat): set<Need>
    requires n <= |bindings|
  {
    set i, x | 0 <= i < n && x in Needs(bindings[i].value) :: x
  }

  function LiteralsOfBindings(bindings: seq<Binding>): set<Literal> {
    set i, l | 0 <= i < |bindings| && l in Literals(bindings[i].value) :: l
  }

  lemma NextBindingNeeds(bindings: seq<Binding>, n: nat)
    requires n < |bindings|
    ensures NeedsOfBindings(bindings, n + 1) == NeedsOfBindings(bindings, n) + Needs(bindings[n].value)
  {
  }

  lemma NextBindingLiterals(bindings: seq<Binding>, b: Binding)
    ensures LiteralsOfBindings(bindings + [b]) == LiteralsOfBindings(bindings) + Literals(b.value)
  {
    var all := bindings + [b];
    assert all[|bindings|] == b;
    forall i | 0 <= i < |bindings| ensures all[i] == bindings[i] {}
    forall l | l in LiteralsOfBindings(bindings) ensures l in LiteralsOfBindings(all) {
      var i :| 0 <= i < |bindings| && l in Literals(bindings[i].value);
      assert l in Literals(all[i].value);
    }
  }

  /** Looking up a need at parent `k` that does not meet it. */
  lemma SearchContinues(parents: seq<Parent>, k: nat, n: Need)
    requires k < |parents| && (n.0 in parents[k].names ==> n.1 > 0)
    ensures var next := if n.0 in parents[k].names then (n.0, n.1 - 1) else n;
      && parents[..k] + Record(parents[k..], {n}) == parents[..k + 1] + Record(parents[k + 1..], {next})
      && Positions(parents[k..], {n}) == Positions(parents[k + 1..], {next})
  {
    PassedOn(parents[k], n);
    assert parents[k..][1..] == parents[k + 1..];
    assert parents[..k + 1] == parents[..k] + [parents[k]];
  }

  /** Looking up a need at parent `k` that meets it. */
  lemma SearchEnds(parents: seq<Parent>, k: nat, n: Need)
    requires k < |parents| && n.0 in parents[k].names && n.1 == 0
    ensures parents[..k] + Record(parents[k..], {n}) == parents[k := Tell(parents[k], {n})]
    ensures Positions(parents[k..], {n}) == PositionsIn(parents[k], {n})
  {
    MetHere(parents[k], n);
    RecordNothing(parents[k + 1..]);
    var first, rest := Tell(parents[k], {n}), parents[k + 1..];
    assert parents[k..][1..] == rest && Record(parents[k..], {n}) == [first] + rest;
    ReplaceAt(parents, k, first);
  }

  lemma ReplaceAt<T>(s: seq<T>, k: nat, x: T)
    requires k < |s|
    ensures s[..k] + ([x] + s[k + 1..]) == s[k := x]
  {
  }

  /** What the first `i` bindings of a block need outside it. */
  function NeedsSoFar(bindings: seq<Binding>, i: nat): set<Need>
    requires i <= |bindings|
  {
    Outside(NeedsOfBindings(bindings, i), Names(bindings))
  }

  lemma BindingVisited(parents: seq<Parent>, bindings: seq<Binding>, i: nat)
    requires i < |bindings|
    ensures var rest, here := Record(parents, NeedsSoFar(bindings, i)), Outside(Needs(bindings[i].value), Names(bindings));
      && Record(rest, here) == Record(parents, NeedsSoFar(bindings, i + 1))
      && Positions(parents, NeedsSoFar(bindings, i)) + Positions(rest, here) == Positions(parents, NeedsSoFar(bindings, i + 1))
  {
    var names := Names(bindings);
    NextBindingNeeds(bindings, i);
    OutsideOfUnion(NeedsOfBindings(bindings, i), Needs(bindings[i].value), names);
    RecordTwice(parents, NeedsSoFar(bindings, i), Outside(Needs(bindings[i].value), names));
  }

  lemma BlockVisited(parents: seq<Parent>, block: Expr)
    requires block.Where?
    ensures var names := Names(block.bindings);
      var a, b := Outside(Needs(block.base), names), Outside(NeedsOfBindings(block.bindings, |block.bindings|), names);
      && Record(Record(parents, a), b) == Record(parents, Needs(block))
      && Positions(parents, a) + Positions(Record(parents, a), b) == Positions(parents, Needs(block))
  {
    var names, all := Names(block.bindings), NeedsOfBindings(block.bindings, |block.bindings|);
    OutsideOfUnion(Needs(block.base), all, names);
    RecordTwice(parents, Outside(Needs(block.base), names), Outside(all, names));
  }

  lemma LiteralsOfBlock(block: Expr)
    requires block.Where?
    ensures Literals(block) == Literals(block.base) + LiteralsOfBindings(block.bindings) + TupleLiterals(block.plan, 0)
  {
  }

  lemma GrowBoth<T>(a: set<T>, l: set<T>, p: set<T>, l': set<T>, p': set<T>, ls: set<T>, ps: set<T>)
    requires l + l' == ls && p + p' == ps
    ensures (a + (l + p)) + (l' + p') == a + (ls + ps)
  {
    assert (a + (l + p)) + (l' + p') == a + ((l + l') + (p + p'));
  }

  /** The first bindings of a block, visited: planned, and with the siblings each one mentions. */
  ghost predicate VisitedBindings(bindings: seq<Binding>, planned: seq<Binding>, graph: seq<set<nat>>) {
    && |planned| == |graph| <= |bindings|
    && forall j | 0 <= j < |planned| ::
         && graph[j] == Mentioned(Needs(bindings[j].value), Names(bindings))
         && planned[j].name == bindings[j].name
         && Erase(planned[j].value) == Erase(bindings[j].value) && PlannedTree(planned[j].value)
  }

  lemma OneMoreVisited(bindings: seq<Binding>, planned: seq<Binding>, graph: seq<set<nat>>, value: Expr, mentioned: set<nat>)
    requires VisitedBindings(bindings, planned, graph) && |planned| < |bindings|
    requires mentioned == Mentioned(Needs(bindings[|planned|].value), Names(bindings))
    requires Erase(value) == Erase(bindings[|planned|].value) && PlannedTree(value)
    ensures VisitedBindings(bindings, planned + [Binding(bindings[|planned|].name, value)], graph + [mentioned])
  {
  }

  lemma TableGrows(table: set<Literal>, planned: seq<Binding>, b: Binding, p: set<Literal>, p': set<Literal>, ps: set<Literal>)
    requires p + p' == ps
    ensures (table + (LiteralsOfBindings(planned) + p)) + (Literals(b.value) + p')
         == table + (LiteralsOfBindings(planned + [b]) + ps)
  {
    NextBindingLiterals(planned, b);
    GrowBoth(table, LiteralsOfBindings(planned), p, Literals(b.value), p', LiteralsOfBindings(planned + [b]), ps);
  }

  /** What visiting the first bindings of a block has told the enclosing definitions and the
      table, starting from `was` and `tableWas`. */
  ghost predicate Told(bindings: seq<Binding>, planned: seq<Binding>, was: seq<Parent>, tableWas: set<Literal>,
                       parents: seq<Parent>, table: set<Literal>)
    requires |planned| <= |bindings|
  {
    var needs := NeedsSoFar(bindings, |planned|);
    parents == Record(was, needs) && table == tableWas + (LiteralsOfBindings(planned) + Positions(was, needs))
  }

  lemma OneMoreTold(bindings: seq<Binding>, planned: seq<Binding>, was: seq<Parent>, tableWas: set<Literal>,
                    parents: seq<Parent>, table: set<Literal>, value: Expr, parents': seq<Parent>, table': set<Literal>)
    requires |planned| < |bindings| && Told(bindings, planned, was, tableWas, parents, table)
    requires var here := Outside(Needs(bindings[|planned|].value), Names(bindings));
      parents' == Record(parents, here) && table' == table + (Literals(value) + Positions(parents, here))
    ensures Told(bindings, planned + [Binding(bindings[|planned|].name, value)], was, tableWas, parents', table')
  {
    var i := |planned|;
    BindingVisited(was, bindings, i);
    TableGrows(tableWas, planned, Binding(bindings[i].name, value), Positions(was, NeedsSoFar(bindings, i)),
               Positions(parents, Outside(Needs(bindings[i].value), Names(bindings))),
               Positions(was, NeedsSoFar(bindings, i + 1)));
  }

  lemma VisitedAll(bindings: seq<Binding>, planned: seq<Binding>, graph: seq<set<nat>>)
    requires VisitedBindings(bindings, planned, graph) && |planned| == |bindings|
    ensures EraseBindings(planned) == EraseBindings(bindings)
  {
  }

  /** The pass that plans where blocks and fills the input table. */
  class Visitor {
    var parents: seq<Parent>
    const table: InputTable

    constructor (table: InputTable)
      ensures parents == [] && this.table == table
    {
      parents := [];
      this.table := table;
    }

    /** Tell the definition that a variable refers to that it is needed, starting the search at
        parent `k`; an undefined variable has no effect. */
    method ChildNeedsVariable(name: string, escape: nat, k: nat)
      requires k <= |parents|
      requires table.Valid()
      modifies this, table
      ensures table.Valid()
      ensures parents == old(parents)[..k] + Record(old(parents)[k..], {(name, escape)})
      ensures table.contents == old(table.contents) + Positions(old(parents)[k..], {(name, escape)})
      decreases |parents| - k
    {
      if k == |parents| { return; }
      ghost var was, need := parents, (name, escape);
      var parent := parents[k];
      if name !in parent.names {
        SearchContinues(was, k, need);
        ChildNeedsVariable(name, escape, k + 1);
      } else if escape > 0 {
        SearchContinues(was, k, need);
        ChildNeedsVariable(name, escape - 1, k + 1);
      } else {
        SearchEnds(was, k, need);
        MetHere(parent, need);
        var i := IndexOf(parent.names, name);
        match parent
        case OfFunction(names) =>
          if |names| != 1 { table.Add(Integer(i)); }
        case OfBlock(names, mentioned) =>
          parents := parents[k := OfBlock(names, mentioned + {i})];
      }
    }

    /** Plan every where block of `e`, tell the enclosing definitions what it needs of them, and
        register every literal its code will need. */
    method VisitDependencies(e: Expr) returns (planned: Expr)
      requires table.Valid()
      modifies this, table
      ensures table.Valid()
      ensures Erase(planned) == Erase(e) && PlannedTree(planned)
      ensures parents == Record(old(parents), Needs(e))
      ensures table.contents == old(table.contents) + (Literals(planned) + Positions(old(parents), Needs(e)))
      decreases e, 1
    {
      match e
      case Variable(name, escape) =>
        ChildNeedsVariable(name, escape, 0);
        planned := e;
      case Lit(literal) =>
        RecordNothing(parents);
        table.Add(literal);
        planned := e;
      case Lambda(params, body) =>
        ghost var was := parents;
        parents := [OfFunction(params)] + parents;
        assert parents[1..] == was;
        var body' := VisitDependencies(body);
        parents := parents[1..];
        planned := Lambda(params, body');
        SameNeeds(body, body');
      case Call(fn, arg) =>
        ghost var was := parents;
        var fn' := VisitDependencies(fn);
        var arg' := VisitDependencies(arg);
        planned := Call(fn', arg');
        RecordTwice(was, Needs(fn), Needs(arg));
      case Where(base, bindings, _) =>
        planned := VisitBlock(e);
    }

    method VisitBlock(e: Expr) returns (planned: Expr)
      requires e.Where?
      requires table.Valid()
      modifies this, table
      ensures table.Valid()
      ensures Erase(planned) == Erase(e) && PlannedTree(planned)
      ensures parents == Record(old(parents), Needs(e))
      ensures table.contents == old(table.contents) + (Literals(planned) + Positions(old(parents), Needs(e)))
      decreases e, 0
    {
      ghost var was, tableWas := parents, table.contents;
      var names := Names(e.bindings);
      var base, ofBase := VisitPart(e.base, names);
      var bindings, graph := VisitBindings(e.bindings);
      BlockVisited(was, e);
      GrowBoth(tableWas, Literals(base), Positions(was, Outside(Needs(e.base), names)), LiteralsOfBindings(bindings),
               Positions(Record(was, Outside(Needs(e.base), names)),
                         Outside(NeedsOfBindings(e.bindings, |e.bindings|), names)),
               Literals(base) + LiteralsOfBindings(bindings), Positions(was, Needs(e)));
      planned := FinishBlock(e, base, bindings, graph + [ofBase]);
    }

    method FinishBlock(ghost e: Expr, base: Expr, bindings: seq<Binding>, graph: seq<set<nat>>) returns (planned: Expr)
      requires e.Where? && Erase(base) == Erase(e.base) && PlannedTree(base)
      requires |graph| == |bindings| + 1 == |e.bindings| + 1
      requires VisitedBindings(e.bindings, bindings, graph[..|bindings|])
      requires graph[|bindings|] == Mentioned(Needs(e.base), Names(e.bindings))
      requires table.Valid()
      modifies table
      ensures Erase(planned) == Erase(e) && PlannedTree(planned)
      ensures planned.Where?
      ensures table.Valid()
      ensures table.contents == old(table.contents) + TupleLiterals(planned.plan, 0)
      ensures Literals(planned) == Literals(base) + LiteralsOfBindings(bindings) + TupleLiterals(planned.plan, 0)
    {
      VisitedAll(e.bindings, bindings, graph[..|bindings|]);
      SameBlockGraph(e.base, e.bindings, base, bindings);
      planned := PlanWhere(base, bindings, graph);
      LiteralsOfBlock(planned);
      AddTupleLiterals(planned.plan, table);
    }

    method VisitBindings(bindings: seq<Binding>) returns (planned: seq<Binding>, graph: seq<set<nat>>)
      requires table.Valid()
      modifies this, table
      ensures table.Valid()
      ensures VisitedBindings(bindings, planned, graph) && |planned| == |bindings|
      ensures parents == Record(old(parents), Outside(NeedsOfBindings(bindings, |bindings|), Names(bindings)))
      ensures table.contents == old(table.contents) + (LiteralsOfBindings(planned)
                           + Positions(old(parents), Outside(NeedsOfBindings(bindings, |bindings|), Names(bindings))))
      decreases bindings
    {
      ghost var was, tableWas := parents, table.contents;
      planned, graph := [], [];
      RecordNothing(was);
      assert NeedsOfBindings(bindings, 0) == {} && Outside({}, Names(bindings)) == {} && LiteralsOfBindings(planned) == {};
      for i := 0 to |bindings|
        invariant VisitedBindings(bindings, planned, graph) && |planned| == i
        invariant table.Valid() && Told(bindings, planned, was, tableWas, parents, table.contents)
      {
        planned, graph := VisitBinding(bindings, planned, graph, was, tableWas);
      }
    }

    method VisitBinding(bindings: seq<Binding>, done: seq<Binding>, doneGraph: seq<set<nat>>,
                        ghost was: seq<Parent>, ghost tableWas: set<Literal>)
      returns (planned: seq<Binding>, graph: seq<set<nat>>)
      requires VisitedBindings(bindings, done, doneGraph) && |done| < |bindings|
      requires table.Valid() && Told(bindings, done, was, tableWas, parents, table.contents)
      modifies this, table
      ensures |planned| == |done| + 1 && VisitedBindings(bindings, planned, graph)
      ensures table.Valid() && Told(bindings, planned, was, tableWas, parents, table.contents)
      decreases bindings, 0
    {
      var b := bindings[|done|];
      ghost var parentsWas, contentsWas := parents, table.contents;
      var value, mentioned := VisitPart(b.value, Names(bindings));
      OneMoreVisited(bindings, done, doneGraph, value, mentioned);
      OneMoreTold(bindings, done, was, tableWas, parentsWas, contentsWas, value, parents, table.contents);
      planned, graph := done + [Binding(b.name, value)], doneGraph + [mentioned];
    }

    /** Visit the base or the value of a binding of a block with bindings called `names`, and
        report which of the bindings it mentions. */
    method VisitPart(part: Expr, names: seq<string>) returns (planned: Expr, mentioned: set<nat>)
      requires table.Valid()
      modifies this, table
      ensures table.Valid()
      ensures Erase(planned) == Erase(part) && PlannedTree(planned)
      ensures mentioned == Mentioned(Needs(part), names)
      ensures parents == Record(old(parents), Outside(Needs(part), names))
      ensures table.contents == old(table.contents) + (Literals(planned) + Positions(old(parents), Outside(Needs(part), names)))
      decreases part, 2
    {
      ghost var was := parents;
      parents := [OfBlock(names, {})] + parents;
      assert parents[1..] == was;
      planned := VisitDependencies(part);
      mentioned := parents[0].mentioned;
      parents := parents[1..];
    }
  }

  lemma SameNeeds(e: Expr, f: Expr)
    requires Erase(e) == Erase(f)
    ensures Needs(e) == Needs(f)
  {
    NeedsIgnorePlans(e);
    NeedsIgnorePlans(f);
  }

  lemma SameBlockGraph(base: Expr, bindings: seq<Binding>, base': Expr, bindings': seq<Binding>)
    requires Erase(base) == Erase(base') && EraseBindings(bindings) == EraseBindings(bindings')
    ensures |bindings| == |bindings'|
    ensures BlockGraph(Where(base, bindings, Plan([], []))) == BlockGraph(Where(base', bindings', Plan([], [])))
  {
    var erased := EraseBindings(bindings);
    assert |erased| == |bindings| == |bindings'|;
    SameNeeds(base, base');
    forall i | 0 <= i < |bindings|
      ensures Needs(bindings[i].value) == Needs(bindings'[i].value) && bindings[i].name == bindings'[i].name
    {
      assert erased[i] == EraseBindings(bindings')[i];
      SameNeeds(bindings[i].value, bindings'[i].value);
    }
    assert Names(bindings) == Names(bindings');
  }

  /** Register what is needed to pass several recursive variables: only the first binding that
      takes more than one is looked at. */
  method AddTupleLiterals(plan: Plan, table: InputTable)
    requires table.Valid()
    modifies table
    ensures table.Valid()
    ensures table.contents == old(table.contents) + TupleLiterals(plan, 0)
  {
    for i := 0 to |plan.order|
      invariant TupleLiterals(plan, 0) == TupleLiterals(plan, i)
      invariant table.Valid()
      invariant table.contents == old(table.contents)
    {
      if plan.order[i] < |plan.recursive| && |plan.recursive[plan.order[i]]| > 1 {
        AddLiteralsFor(|plan.recursive[plan.order[i]]|, table);
        return;
      }
    }
  }

  method AddLiteralsFor(size: nat, table: InputTable)
    requires table.Valid()
    modifies table
    ensures table.Valid()
    ensures table.contents == old(table.contents)
      + ({Import("builtin"), Atom("tuple"), Atom("builder"), Integer(size)} + (set j | 0 <= j < size :: Integer(j)))
  {
    table.Add(Import("builtin"));
    table.Add(Atom("tuple"));
    table.Add(Atom("builder"));
    for j := 0 to size
      invariant table.Valid()
      invariant table.contents == old(table.contents)
        + {Import("builtin"), Atom("tuple"), Atom("builder")} + (set k | 0 <= k < j :: Integer(k))
    {
      table.Add(Integer(j));
    }
    table.Add(Integer(size));
  }

  method PlanWhere(base: Expr, bindings: seq<Binding>, graph: Graphs.Graph) returns (planned: Expr)
    requires PlannedTree(base) && forall i | 0 <= i < |bindings| :: PlannedTree(bindings[i].value)
    requires graph == BlockGraph(Where(base, bindings, Plan([], [])))
    ensures planned.Where? && planned.base == base && planned.bindings == bindings
    ensures PlannedTree(planned)
  {
    var n := |bindings|;
    var order, index, recursive;
    ghost var started, needs;
    order, index, recursive, started, needs := WhereBlock.PlanBlock(graph, n);
    planned := Where(base, bindings, Plan(order[..|order| - 1], recursive[..n]));
    WhereIsPlanned(planned, graph, order, index, started, needs, recursive);
  }

  lemma WhereIsPlanned(planned: Expr, graph: Graphs.Graph, order: seq<nat>, index: seq<int>, started: map<nat, nat>,
                       needs: seq<set<nat>>, recursive: seq<seq<nat>>)
    requires planned.Where? && graph == BlockGraph(Where(planned.base, planned.bindings, Plan([], [])))
    requires WhereBlock.Planned(graph, |planned.bindings|, order, index, started, needs, recursive)
    requires planned.plan == Plan(order[..|order| - 1], recursive[..|planned.bindings|])
    requires PlannedTree(planned.base) && forall i | 0 <= i < |planned.bindings| :: PlannedTree(planned.bindings[i].value)
    ensures PlannedTree(planned)
  {
    PlanRestored(planned, graph, order, index, started, needs, recursive);
    assert PlannedWith(planned, index, started, needs);
  }

  /** Nothing is lost when the base expression is taken off the plan. */
  lemma PlanRestored(planned: Expr, graph: Graphs.Graph, order: seq<nat>, index: seq<int>, started: map<nat, nat>,
                     needs: seq<set<nat>>, recursive: seq<seq<nat>>)
    requires planned.Where? && graph == BlockGraph(Where(planned.base, planned.bindings, Plan([], [])))
    requires WhereBlock.Planned(graph, |planned.bindings|, order, index, started, needs, recursive)
    requires planned.plan == Plan(order[..|order| - 1], recursive[..|planned.bindings|])
    ensures BlockGraph(planned) == graph
    ensures planned.plan.order + [|planned.bindings|] == order && planned.plan.recursive + [[]] == recursive
  {
    BaseTakesNoParameter(graph, |planned.bindings|, order, index, started, needs, recursive);
    GraphIgnoresPlan(planned);
    PartsRejoined(order, |planned.bindings|);
    PartsRejoined(recursive, []);
  }

  lemma GraphIgnoresPlan(planned: Expr)
    requires planned.Where?
    ensures BlockGraph(planned) == BlockGraph(Where(planned.base, planned.bindings, Plan([], [])))
  {
  }

  lemma PartsRejoined<T>(s: seq<T>, last: T)
    ensures s != [] && s[|s| - 1] == last ==> s[..|s| - 1] + [last] == s
  {
  }

  lemma BaseTakesNoParameter(graph: Graphs.Graph, n: nat, order: seq<nat>, index: seq<int>, started: map<nat, nat>,
                             needs: seq<set<nat>>, recursive: seq<seq<nat>>)
    requires WhereBlock.Planned(graph, n, order, index, started, needs, recursive) && |graph| == n + 1
    requires forall x, d | 0 <= x < |graph| && d in graph[x] :: d < n
    ensures |recursive| == n + 1 && recursive[n] == []
  {
    assert index[order[|order| - 1]] >= 0;
    WhereBlock.RecursiveIffOnCycle(graph, n, order, index, started, needs, recursive, n);
    if Graphs.OnCycle(graph, n) {
      var p :| Graphs.PathFrom(graph, p, n, n) && |p| > 1;
      LastStep(graph, p);
      assert false;
    }
  }

  lemma LastStep(graph: Graphs.Graph, p: seq<nat>)
    requires Graphs.Path(graph, p) && |p| > 1
    ensures p[|p| - 1] in graph[p[|p| - 2]]
  {
    var i := |p| - 2;
    assert p[i + 1] in graph[p[i]];
  }

  // ---------------------------------------------------------------------------
  // Emitting instructions.

  lemma ApplicationEncoded(code: seq<nat>, fn: Term, arg: Term)
    ensures code + [APPLICATION] + Encode(fn) + Encode(arg) == code + Encode(App(fn, arg))
  {
  }

  class CodeBuffer {
    var codeTree: seq<nat>

    constructor ()
      ensures codeTree == []
    {
      codeTree := [];
    }

    method Emit(instruction: nat)
      modifies this
      ensures codeTree == old(codeTree) + [instruction]
    {
      codeTree := codeTree + [instruction];
    }

    method EmitVariable(index: nat)
      modifies this
      ensures codeTree == old(codeTree) + Encode(Var(index))
    {
      Emit(FIRST_VARIABLE + index);
    }

    method EmitGlobal(level: nat, l: Literal, inputs: InputTable, ghost table: seq<Literal>)
      requires inputs.Numbers(table) && l in table
      modifies this
      ensures codeTree == old(codeTree) + Encode(Global(level, table, l))
    {
      var index := inputs.Lookup(l, table);
      EmitVariable(level + index);
    }

    /** Append the code of `e`. */
    method BuildCodeTree(e: Expr, scope: seq<Definition>, level: nat, inputs: InputTable, ghost table: seq<Literal>)
      requires inputs.Numbers(table) && AllFound(e, scope, level, Contents(table))
      modifies this
      ensures codeTree == old(codeTree) + Encode(Compile(e, scope, level, table))
      decreases e, 2
    {
      match e
      case Variable(name, escape) => AddVariableReference(name, escape, scope, level, inputs, table);
      case Lambda(params, body) =>
        Emit(ABSTRACTION);
        BuildCodeTree(body, [Params(params, level)] + scope, level + 1, inputs, table);
      case Call(_, _) => BuildApplication(e, scope, level, inputs, table);
      case Lit(literal) => EmitGlobal(level, literal, inputs, table);
      case Where(_, _, _) => BuildBlock(e, scope, level, inputs, table);
    }

    method BuildApplication(e: Expr, scope: seq<Definition>, level: nat, inputs: InputTable, ghost table: seq<Literal>)
      requires e.Call? && inputs.Numbers(table) && AllFound(e, scope, level, Contents(table))
      modifies this
      ensures codeTree == old(codeTree) + Encode(Compile(e, scope, level, table))
      decreases e, 1
    {
      Emit(APPLICATION);
      BuildCodeTree(e.fn, scope, level, inputs, table);
      BuildCodeTree(e.arg, scope, level, inputs, table);
    }

    method AddVariableReference(name: string, escape: nat, scope: seq<Definition>, level: nat,
                                inputs: InputTable, ghost table: seq<Literal>)
      requires inputs.Numbers(table) && ReferenceFound(name, escape, scope, Contents(table))
      modifies this
      ensures codeTree == old(codeTree) + Encode(CompileReference(name, escape, scope, level, table))
    {
      var rest, skip := scope, escape;
      while rest != []
        invariant ReferenceFound(name, skip, rest, Contents(table))
        invariant CompileReference(name, skip, rest, level, table) == CompileReference(name, escape, scope, level, table)
        invariant codeTree == old(codeTree)
        decreases rest
      {
        var found := Defines(rest[0], name);
        if found && skip == 0 {
          AddReferenceTo(rest[0], name, rest, level, inputs, table);
          return;
        }
        if found { skip := skip - 1; }
        rest := rest[1..];
      }
      Emit(ABSTRACTION);
      EmitVariable(0);
    }

    method AddReferenceTo(d: Definition, name: string, ghost scope: seq<Definition>, level: nat,
                          inputs: InputTable, ghost table: seq<Literal>)
      requires scope != [] && scope[0] == d && Defines(d, name)
      requires inputs.Numbers(table) && ReferenceFound(name, 0, scope, Contents(table))
      modifies this
      ensures codeTree == old(codeTree) + Encode(CompileReference(name, 0, scope, level, table))
    {
      match d
      case Params(names, at) =>
        if |names| == 1 {
          EmitLocal(level, at);
        } else {
          Emit(APPLICATION);
          EmitLocal(level, at);
          EmitGlobal(level, Integer(IndexOf(names, name)), inputs, table);
        }
      case BlockPart(block, blockLevel, at) =>
        var i := IndexOf(Names(block.bindings), name);
        assert UseFound(block, at, i, Contents(table));
        AddUse(block, blockLevel, at, i, level, inputs, table);
    }

    method EmitLocal(level: nat, at: nat)
      modifies this
      ensures codeTree == old(codeTree) + Encode(Local(level, at))
    {
      EmitVariable(Local(level, at).index);
    }

    method AddUse(block: Expr, blockLevel: nat, at: nat, i: nat, level: nat, inputs: InputTable, ghost table: seq<Literal>)
      requires SoundPlan(block) && inputs.Numbers(table) && i < |block.bindings|
      requires BindingFound(block, at, i, Contents(table)) && BuilderFound(block, i, Contents(table))
      requires forall r | r in block.plan.recursive[i] :: BindingFound(block, at, r, Contents(table))
      modifies this
      ensures codeTree == old(codeTree) + Encode(CompileUse(block, blockLevel, at, i, level, table))
    {
      var recursive := block.plan.recursive[i];
      if recursive == [] {
        AddBindingReference(block, blockLevel, at, i, level, inputs, table);
      } else {
        AddSelfApplication(block, blockLevel, at, i, level, inputs, table);
      }
    }

    method AddSelfApplication(block: Expr, blockLevel: nat, at: nat, i: nat, level: nat, inputs: InputTable, ghost table: seq<Literal>)
      requires SoundPlan(block) && inputs.Numbers(table) && i < |block.bindings| && block.plan.recursive[i] != []
      requires BindingFound(block, at, i, Contents(table)) && BuilderFound(block, i, Contents(table))
      requires forall r | r in block.plan.recursive[i] :: BindingFound(block, at, r, Contents(table))
      modifies this
      ensures codeTree == old(codeTree) + Encode(CompileUse(block, blockLevel, at, i, level, table))
    {
      ghost var self := BindingVariable(block, blockLevel, at, i, level, table);
      ghost var parameters := CompileParameters(block, blockLevel, at, block.plan.recursive[i], level, table);
      assert CompileUse(block, blockLevel, at, i, level, table) == App(self, parameters);
      ApplicationEncoded(codeTree, self, parameters);
      Emit(APPLICATION);
      AddBindingReference(block, blockLevel, at, i, level, inputs, table);
      AddParameters(block, blockLevel, at, block.plan.recursive[i], level, inputs, table);
    }

    method AddParameters(block: Expr, blockLevel: nat, at: nat, recursive: seq<nat>, level: nat,
                         inputs: InputTable, ghost table: seq<Literal>)
      requires SoundPlan(block) && inputs.Numbers(table) && recursive != []
      requires |recursive| > 1 ==> BuilderLiterals(|recursive|) <= Contents(table)
      requires forall r | r in recursive :: BindingFound(block, at, r, Contents(table))
      modifies this
      ensures codeTree == old(codeTree) + Encode(CompileParameters(block, blockLevel, at, recursive, level, table))
    {
      if |recursive| == 1 {
        assert recursive[0] in recursive;
        AddBindingReference(block, blockLevel, at, recursive[0], level, inputs, table);
      } else {
        AddTuple(block, blockLevel, at, recursive, level, inputs, table);
      }
    }

    /** The tuple builder applied to each of several recursive variables. */
    method AddTuple(block: Expr, blockLevel: nat, at: nat, members: seq<nat>, level: nat,
                    inputs: InputTable, ghost table: seq<Literal>)
      requires SoundPlan(block) && inputs.Numbers(table) && BuilderLiterals(|members|) <= Contents(table)
      requires forall r | r in members :: BindingFound(block, at, r, Contents(table))
      modifies this
      ensures codeTree == old(codeTree)
        + Encode(Tuple(TupleBuilder(|members|, level, table), block, blockLevel, at, members, level, table))
    {
      ghost var front, n := codeTree, |members|;
      for i := 0 to |members|
        invariant codeTree == front + Applications(i)
      {
        Emit(APPLICATION);
        AppendAfter(front, Applications(i), [APPLICATION]);
      }
      AddBuilder(|members|, level, inputs, table);
      ghost var started := codeTree;
      for i := 0 to |members|
        invariant codeTree == started + MemberCode(block, blockLevel, at, members[..i], level, table)
      {
        AddBindingReference(block, blockLevel, at, members[i], level, inputs, table);
        assert members[..i + 1][..i] == members[..i];
        AppendAfter(started, MemberCode(block, blockLevel, at, members[..i], level, table),
                    Encode(BindingVariable(block, blockLevel, at, members[i], level, table)));
      }
      assert members[..n] == members;
      TupleLayout(TupleBuilder(n, level, table), block, blockLevel, at, members, level, table);
      RegroupTuple(front, Applications(n), Encode(TupleBuilder(n, level, table)),
                   MemberCode(block, blockLevel, at, members, level, table));
    }

    method AddBuilder(size: nat, level: nat, inputs: InputTable, ghost table: seq<Literal>)
      requires inputs.Numbers(table) && BuilderLiterals(size) <= Contents(table)
      modifies this
      ensures codeTree == old(codeTree) + Encode(TupleBuilder(size, level, table))
    {
      ghost var front := codeTree;
      assert Import("builtin") in BuilderLiterals(size) && Import("tuple") in BuilderLiterals(size);
      assert Atom("builder") in BuilderLiterals(size) && Integer(size) in BuilderLiterals(size);
      Emit(APPLICATION);
      Emit(APPLICATION);
      Emit(APPLICATION);
      EmitGlobal(level, Import("builtin"), inputs, table);
      EmitGlobal(level, Import("tuple"), inputs, table);
      EmitGlobal(level, Atom("builder"), inputs, table);
      EmitGlobal(level, Integer(size), inputs, table);
      BuilderCode(size, level, table);
      RegroupBuilder(front, Encode(Global(level, table, Import("builtin"))), Encode(Global(level, table, Import("tuple"))),
                     Encode(Global(level, table, Atom("builder"))), Encode(Global(level, table, Integer(size))));
    }

    method AddBindingReference(block: Expr, blockLevel: nat, at: nat, i: nat, level: nat,
                               inputs: InputTable, ghost table: seq<Literal>)
      requires SoundPlan(block) && inputs.Numbers(table) && BindingFound(block, at, i, Contents(table))
      modifies this
      ensures codeTree == old(codeTree) + Encode(BindingVariable(block, blockLevel, at, i, level, table))
    {
      var position := PositionOf(block.plan.order, i);
      if at <= position {
        var recursive := PartParameters(block, at);
        assert i in recursive;   // the recursive variable is always found
        if |recursive| == 1 {
          EmitLocal(level, blockLevel + at);
        } else {
          Emit(APPLICATION);
          EmitLocal(level, blockLevel + at);
          EmitGlobal(level, Integer(PositionOf(recursive, i)), inputs, table);
        }
      } else {
        EmitLocal(level, blockLevel + position);
      }
    }

    /** The functions that bind the block's values, then the base expression, then the values
        themselves from the last to the first. */
    method BuildBlock(block: Expr, scope: seq<Definition>, level: nat, inputs: InputTable, ghost table: seq<Literal>)
      requires block.Where? && inputs.Numbers(table) && AllFound(block, scope, level, Contents(table))
      modifies this
      ensures codeTree == old(codeTree) + Encode(Compile(block, scope, level, table))
      decreases block, 1
    {
      var n := |block.plan.order|;
      OpenBindings(n);
      BuildCodeTree(block.base, [BlockPart(block, level, n)] + scope, level + n, inputs, table);
      BuildBindings(block, scope, level, inputs, table);
      BlockLayout(block, scope, level, table, n);
    }

    method OpenBindings(n: nat)
      modifies this
      ensures codeTree == old(codeTree) + Heads(n)
    {
      for i := 0 to n
        invariant codeTree == old(codeTree) + Heads(i)
      {
        Emit(APPLICATION);
        Emit(ABSTRACTION);
        HeadsStep(i);
      }
    }

    method BuildBindings(block: Expr, scope: seq<Definition>, level: nat, inputs: InputTable, ghost table: seq<Literal>)
      requires block.Where? && inputs.Numbers(table) && AllFound(block, scope, level, Contents(table))
      modifies this
      ensures codeTree == old(codeTree) + BindingCode(block, scope, level, table, 0, |block.plan.order|)
      decreases block, 0, 1
    {
      ghost var front, n := codeTree, |block.plan.order|;
      var i := |block.plan.order|;
      while i > 0
        invariant 0 <= i <= n
        invariant codeTree == front + BindingCode(block, scope, level, table, i, n)
      {
        i := i - 1;
        BuildBinding(block, i, scope, level, inputs, table);
        BindingCodeStep(block, scope, level, table, i, n);
        AppendAfter(front, BindingCode(block, scope, level, table, i + 1, n), Encode(CompileBinding(block, i, scope, level, table)));
      }
    }

    method BuildBinding(block: Expr, at: nat, scope: seq<Definition>, level: nat, inputs: InputTable, ghost table: seq<Literal>)
      requires block.Where? && inputs.Numbers(table) && AllFound(block, scope, level, Contents(table)) && at < |block.plan.order|
      modifies this
      ensures codeTree == old(codeTree) + Encode(CompileBinding(block, at, scope, level, table))
      decreases block, 0, 0
    {
      var i := block.plan.order[at];
      if block.plan.IsRecursive(i) {
        Emit(ABSTRACTION);
        BuildCodeTree(block.bindings[i].value, [BlockPart(block, level, at)] + scope, level + at + 1, inputs, table);
      } else {
        BuildCodeTree(block.bindings[i].value, [BlockPart(block, level, at)] + scope, level + at, inputs, table);
      }
    }
  }

  function Contents(table: seq<Literal>): set<Literal> { set l | l in table }

  function Applications(n: nat): seq<nat> {
    if n == 0 then [] else Applications(n - 1) + [APPLICATION]
  }

  /** Code of the recursive variables in a tuple, in order. */
  function MemberCode(block: Expr, blockLevel: nat, at: nat, members: seq<nat>, level: nat, table: seq<Literal>): seq<nat>
    requires block.Where?
  {
    if members == [] then []
    else
      var n := |members| - 1;
      MemberCode(block, blockLevel, at, members[..n], level, table)
        + Encode(BindingVariable(block, blockLevel, at, members[n], level, table))
  }

  /** All applications first, then the builder, then the members. */
  lemma {:induction false} TupleLayout(builder: Term, block: Expr, blockLevel: nat, at: nat, members: seq<nat>, level: nat,
                                       table: seq<Literal>)
    requires block.Where?
    ensures Encode(Tuple(builder, block, blockLevel, at, members, level, table))
         == Applications(|members|) + Encode(builder) + MemberCode(block, blockLevel, at, members, level, table)
    decreases |members|
  {
    if members != [] {
      var n := |members| - 1;
      TupleLayout(builder, block, blockLevel, at, members[..n], level, table);
      OneMoreApplication(n);
      RegroupMember(Applications(n), Encode(builder), MemberCode(block, blockLevel, at, members[..n], level, table),
                    Encode(BindingVariable(block, blockLevel, at, members[n], level, table)));
    }
  }

  lemma {:induction false} OneMoreApplication(n: nat)
    ensures [APPLICATION] + Applications(n) == Applications(n + 1)
  {
    if n > 0 {
      OneMoreApplication(n - 1);
      AppendAfter([APPLICATION], Applications(n - 1), [APPLICATION]);
    }
  }

  lemma RegroupMember(apps: seq<nat>, builder: seq<nat>, members: seq<nat>, last: seq<nat>)
    ensures [APPLICATION] + (apps + builder + members) + last == [APPLICATION] + apps + builder + (members + last)
  {
  }

  lemma RegroupTuple(front: seq<nat>, apps: seq<nat>, builder: seq<nat>, members: seq<nat>)
    ensures front + apps + builder + members == front + (apps + builder + members)
  {
  }

  lemma BuilderCode(size: nat, level: nat, table: seq<Literal>)
    ensures Encode(TupleBuilder(size, level, table))
         == [APPLICATION] + ([APPLICATION] + ([APPLICATION] + Encode(Global(level, table, Import("builtin")))
                                                + Encode(Global(level, table, Import("tuple"))))
                               + Encode(Global(level, table, Atom("builder"))))
              + Encode(Global(level, table, Integer(size)))
  {
    var inner := App(Global(level, table, Import("builtin")), Global(level, table, Import("tuple")));
    var outer := App(inner, Global(level, table, Atom("builder")));
    assert Encode(outer) == [APPLICATION] + Encode(inner) + Encode(Global(level, table, Atom("builder")));
  }

  lemma RegroupBuilder(front: seq<nat>, a: seq<nat>, b: seq<nat>, c: seq<nat>, d: seq<nat>)
    ensures front + [APPLICATION] + [APPLICATION] + [APPLICATION] + a + b + c + d
         == front + ([APPLICATION] + ([APPLICATION] + ([APPLICATION] + a + b) + c) + d)
  {
  }

  predicate Defines(d: Definition, name: string) {
    match d
    case Params(names, _) => name in names
    case BlockPart(block, _, _) => block.Where? && Find(block.bindings, name).Some?
  }

  /** `n` times the two instructions that open a binding. */
  function Heads(n: nat): seq<nat> {
    if n == 0 then [] else Heads(n - 1) + [APPLICATION, ABSTRACTION]
  }

  lemma HeadsStep(i: nat)
    ensures Heads(i + 1) == Heads(i) + [APPLICATION] + [ABSTRACTION]
  {
  }

  /** Code of the bindings from position `hi - 1` down to position `lo`. */
  function BindingCode(block: Expr, scope: seq<Definition>, level: nat, table: seq<Literal>, lo: nat, hi: nat): seq<nat>
    requires block.Where? && lo <= hi <= |block.plan.order|
  {
    if lo == hi then []
    else Encode(CompileBinding(block, hi - 1, scope, level, table)) + BindingCode(block, scope, level, table, lo, hi - 1)
  }

  lemma {:induction false} BindingCodeStep(block: Expr, scope: seq<Definition>, level: nat, table: seq<Literal>, lo: nat, hi: nat)
    requires block.Where? && lo < hi <= |block.plan.order|
    ensures BindingCode(block, scope, level, table, lo, hi)
         == BindingCode(block, scope, level, table, lo + 1, hi) + Encode(CompileBinding(block, lo, scope, level, table))
    decreases hi
  {
    if lo + 1 < hi {
      BindingCodeStep(block, scope, level, table, lo, hi - 1);
    }
  }

  /** Opening instructions, base and values together encode the nested calls. */
  lemma {:induction false} BlockLayoutAt(block: Expr, scope: seq<Definition>, level: nat, table: seq<Literal>, at: nat)
    requires block.Where? && at <= |block.plan.order|
    ensures Heads(at) + Encode(CompileBlock(block, at, scope, level, table)) + BindingCode(block, scope, level, table, 0, at)
         == Encode(CompileBlock(block, 0, scope, level, table))
    decreases at
  {
    if at > 0 {
      BlockLayoutAt(block, scope, level, table, at - 1);
      Regroup(Heads(at - 1), Encode(CompileBlock(block, at, scope, level, table)),
              Encode(CompileBinding(block, at - 1, scope, level, table)), BindingCode(block, scope, level, table, 0, at - 1));
    }
  }

  lemma AppendAfter(a: seq<nat>, b: seq<nat>, c: seq<nat>)
    ensures (a + b) + c == a + (b + c)
  {
  }

  lemma Regroup(heads: seq<nat>, body: seq<nat>, value: seq<nat>, values: seq<nat>)
    ensures heads + ([APPLICATION] + ([ABSTRACTION] + body) + value) + values
         == heads + [APPLICATION, ABSTRACTION] + body + (value + values)
  {
  }

  lemma BlockLayout(block: Expr, scope: seq<Definition>, level: nat, table: seq<Literal>, n: nat)
    requires block.Where? && n == |block.plan.order|
    ensures Heads(n) + Encode(Compile(block.base, [BlockPart(block, level, n)] + scope, level + n, table))
              + BindingCode(block, scope, level, table, 0, n)
         == Encode(Compile(block, scope, level, table))
  {
    BlockLayoutAt(block, scope, level, table, n);
  }

  // ---------------------------------------------------------------------------
  // The whole compilation of a program.

  /** However its where blocks are planned, everything that its code looks up for tuples of
      recursive variables is registered. */
  ghost predicate TuplesAlwaysFound(program: Expr) {
    forall planned | PlannedTree(planned) && Erase(planned) == Erase(program) :: TuplesFound(planned, Literals(planned))
  }

  function ModuleTable(m: CompiledModule): seq<Literal> {
    TableOf(m.imports, m.integers, m.atoms, m.blobs)
  }

  lemma NothingNeededOutside(needs: set<Need>, table: seq<Literal>)
    ensures ReadyNeeds(needs, [], table)
  {
  }

  /** Plan, collect and number the constants, then emit code.  The table holds each literal the
      code needs, once, and no other; the code is the compiled form of the planned program. */
  method CompileProgram(program: Expr) returns (m: CompiledModule, ghost planned: Expr)
    requires TuplesAlwaysFound(program)
    ensures Erase(planned) == Erase(program) && PlannedTree(planned)
    ensures forall l :: l in ModuleTable(m) <==> l in Literals(planned)
    ensures forall i, j | 0 <= i < j < |ModuleTable(m)| :: ModuleTable(m)[i] != ModuleTable(m)[j]
    ensures SingleParameters(planned) ==> Ready(planned, [], 0, ModuleTable(m))
    ensures m.codeTree == Encode(Compile(planned, [], 0, ModuleTable(m)))
  {
    var table := new InputTable();
    var visitor := new Visitor(table);
    var tree := visitor.VisitDependencies(program);
    planned := tree;
    var constants := table.Finalize();
    ghost var literals := ModuleTable(constants);
    TableHoldsContents(table, literals);
    assert Contents(literals) == Literals(planned);
    CompilesExactlyWhen(planned);
    NothingNeededOutside(Needs(planned), literals);
    if SingleParameters(planned) { PlannedIsReady(planned, [], 0, literals); }
    var buffer := new CodeBuffer();
    buffer.BuildCodeTree(tree, [], 0, table, literals);
    m := constants.(codeTree := buffer.codeTree);
  }

  lemma TableHoldsContents(inputs: InputTable, table: seq<Literal>)
    requires inputs.Valid() && inputs.Numbers(table)
    ensures forall l :: l in table <==> l in inputs.contents
    ensures forall i, j | 0 <= i < j < |table| :: table[i] != table[j]
  {
    forall i, j | 0 <= i < j < |table| ensures table[i] != table[j] {
      assert inputs.Index(table[i]) == i && inputs.Index(table[j]) == j;
    }
  }
}
