/** Printing expressions with the fewest parentheses that the operator priorities and left
    association allow, and the proof that parsing undoes it. */
module Printing {
  import opened Values
  import opened Source
  import opened Grammar

  datatype Tree =
    | Name(name: string, escape: nat)
    | Constant(value: int)
    | Text(contents: string)
    | Symbol(name: string)
    | Module(path: string)
    | Function(params: seq<string>, body: Tree)
    | Group(inner: Tree)
    | Member(base: Tree, name: string)
    | Apply(fn: Tree, args: seq<Tree>)
    | Subscript(base: Tree, index: Tree)
    | Negation(op: Keyword, operand: Tree)
    | Operation(op: Keyword, left: Tree, right: Tree)
  {
    /** Negations use prefix operators and operations infix ones. */
    ghost predicate WellFormed()
    {
      match this
      case Function(_, body) => body.WellFormed()
      case Group(inner) => inner.WellFormed()
      case Member(base, _) => base.WellFormed()
      case Apply(fn, args) => fn.WellFormed() && forall a | a in args :: a.WellFormed()
      case Subscript(base, index) => base.WellFormed() && index.WellFormed()
      case Negation(op, operand) => PrefixOperator(op).Some? && operand.WellFormed()
      case Operation(op, left, right) => InfixOperator(op).Some? && left.WellFormed() && right.WellFormed()
      case _ => true
    }

    predicate IsItem() { !Negation? && !Operation? }
  }

  /** Binds tighter than every operator. */
  const TIGHT: int := 7

  /** The lowest priority an operator may have to take `t`, unparenthesised, as its left operand. */
  function Top(t: Tree): (p: int)
    ensures p <= TIGHT
  {
    match t
    case Negation(op, _) => if PrefixOperator(op).Some? then PrefixOperator(op).value.priority else TIGHT
    case Operation(op, _, _) => if InfixOperator(op).Some? then InfixOperator(op).value.priority else TIGHT
    case _ => TIGHT
  }

  /** The expression a tree stands for. */
  function Meaning(t: Tree): Expr {
    match t
    case Name(name, escape) => Variable(name, escape)
    case Constant(i) => Lit(Integer(i))
    case Text(text) => Lit(Bytes(text))
    case Symbol(name) => Lit(Atom(name))
    case Module(path) => Lit(Import(path))
    case Function(params, body) => Lambda(params, Meaning(body))
    case Group(inner) => Meaning(inner)
    case Member(base, name) => Call(Meaning(base), Lit(Atom(name)))
    case Apply(fn, args) => Call(Meaning(fn), Tuple(Meanings(args)))
    case Subscript(base, index) => Subscripted(Meaning(base), Meaning(index))
    case Negation(op, operand) =>
      if PrefixOperator(op).Some? then Unary(Meaning(operand), PrefixOperator(op).value) else Meaning(operand)
    case Operation(op, left, right) =>
      if InfixOperator(op).Some? then Binary(Meaning(left), InfixOperator(op).value, Meaning(right)) else Meaning(left)
  }

  function Meanings(ts: seq<Tree>): (es: seq<Expr>)
    ensures |es| == |ts|
  {
    if ts == [] then [] else [Meaning(ts[0])] + Meanings(ts[1..])
  }

  /** `t` printed in front of `rest`, where operators of priority at least `min` are read. */
  function Show(t: Tree, min: int, rest: seq<Token>): seq<Token>
    decreases t, 3
  {
    if t.Operation? && Top(t) < min then Parenthesised(t, rest) else Open(t, min, rest)
  }

  /** As the left operand of an operator of priority `p`. */
  function ShowLeft(t: Tree, p: int, rest: seq<Token>): seq<Token>
    decreases t, 3
  {
    if Top(t) < p then Parenthesised(t, rest) else Open(t, p, rest)
  }

  /** As what a postfix applies to. */
  function ShowBase(t: Tree, rest: seq<Token>): seq<Token>
    decreases t, 3
  {
    if t.IsItem() then ShowItem(t, rest) else Parenthesised(t, rest)
  }

  function Parenthesised(t: Tree, rest: seq<Token>): seq<Token>
    decreases t, 2
  {
    [Word(OpenParen)] + Open(t, LOWEST, [Word(CloseParen)] + rest)
  }

  function Open(t: Tree, min: int, rest: seq<Token>): seq<Token>
    decreases t, 1
  {
    match t
    case Negation(op, operand) => [Word(op)] + Show(operand, Max(min, Top(t) + 1), rest)
    case Operation(op, left, right) => ShowLeft(left, Top(t), [Word(op)] + Show(right, Top(t) + 1, rest))
    case _ => ShowItem(t, rest)
  }

  function ShowItem(t: Tree, rest: seq<Token>): seq<Token>
    decreases t, 0
  {
    match t
    case Name(name, escape) => Backslashes(escape, [Identifier(name)] + rest)
    case Constant(i) => [Number(i)] + rest
    case Text(text) => [Quoted(text)] + rest
    case Symbol(name) => [Word(AtSign)] + ([Identifier(name)] + rest)
    case Module(path) => [Word(ImportWord)] + ([Quoted(path)] + rest)
    case Function(params, body) =>
      [Word(OpenParen)] + ([Word(OpenParen)] +
        ShowParameters(params, [Word(Arrow)] + Show(body, LOWEST, [Word(CloseParen)] + rest)))
    case Group(inner) => Parenthesised(inner, rest)
    case Member(base, name) => ShowBase(base, [Word(Dot)] + ([Identifier(name)] + rest))
    case Apply(fn, args) => ShowBase(fn, [Word(OpenParen)] + ShowArguments(args, rest))
    case Subscript(base, index) =>
      ShowBase(base, [Word(OpenBracket)] + Show(index, LOWEST, [Word(CloseBracket)] + rest))
    case _ => rest
  }

  function Backslashes(n: nat, rest: seq<Token>): seq<Token> {
    if n == 0 then rest else [Word(Backslash)] + Backslashes(n - 1, rest)
  }

  /** Parameters and the parenthesis that closes them. */
  function ShowParameters(params: seq<string>, rest: seq<Token>): seq<Token> {
    if params == [] then [Word(CloseParen)] + rest else [Identifier(params[0])] + MoreNames(params[1..], rest)
  }

  function MoreNames(params: seq<string>, rest: seq<Token>): seq<Token> {
    if params == [] then [Word(CloseParen)] + rest
    else [Word(Comma)] + ([Identifier(params[0])] + MoreNames(params[1..], rest))
  }

  /** Arguments and the parenthesis that closes them. */
  function ShowArguments(args: seq<Tree>, rest: seq<Token>): seq<Token>
    decreases args
  {
    if args == [] then [Word(CloseParen)] + rest else Show(args[0], LOWEST, MoreArguments(args[1..], rest))
  }

  function MoreArguments(args: seq<Tree>, rest: seq<Token>): seq<Token>
    decreases args
  {
    if args == [] then [Word(CloseParen)] + rest
    else [Word(Comma)] + Show(args[0], LOWEST, MoreArguments(args[1..], rest))
  }

  /** `rest` does not extend an expression of lowest priority `top` read at priority `min`. */
  predicate Stops(rest: seq<Token>, min: int, top: int) {
    && !At(rest, Arrow)
    && Separate(rest)
    && (Infix(rest, min).Some? ==> Infix(rest, min).value.priority <= top)
  }

  predicate Separate(rest: seq<Token>) { !At(rest, OpenParen) && !At(rest, Dot) && !At(rest, OpenBracket) }

  /** What follows an item is not read as part of a function's parameter list. */
  predicate NotParameters(ts: seq<Token>) {
    && !At(ts, CloseParen)
    && (ts != [] && ts[0].Identifier? ==> !At(ts[1..], Comma) && (At(ts[1..], CloseParen) ==> !At(ts[2..], Arrow)))
  }

  /** What may come right after an identifier that starts an expression. */
  predicate NoList(rest: seq<Token>) {
    !At(rest, Comma) && (At(rest, CloseParen) ==> !At(rest[1..], Arrow))
  }

  lemma OpenIsNoParameterList(t: Tree, min: int, rest: seq<Token>)
    requires t.WellFormed()
    ensures !At(Open(t, min, rest), CloseParen)
    ensures NoList(rest) ==> NotParameters(Open(t, min, rest))
    decreases t, 1
  {
    match t
    case Negation(op, operand) =>
    case Operation(op, left, right) =>
      var after := [Word(op)] + Show(right, Top(t) + 1, rest);
      assert Open(t, min, rest) == ShowLeft(left, Top(t), after);
      if Top(left) >= Top(t) {
        OpenIsNoParameterList(left, Top(t), after);
      } else {
        assert ShowLeft(left, Top(t), after)[0] == Word(OpenParen);
      }
    case _ => ItemIsNoParameterList(t, rest);
  }

  lemma BaseIsNoParameterList(t: Tree, rest: seq<Token>)
    requires t.WellFormed()
    ensures !At(ShowBase(t, rest), CloseParen)
    ensures NoList(rest) ==> NotParameters(ShowBase(t, rest))
    decreases t, 1
  {
    if t.IsItem() { ItemIsNoParameterList(t, rest); }
  }

  lemma ItemIsNoParameterList(t: Tree, rest: seq<Token>)
    requires t.WellFormed() && t.IsItem()
    ensures !At(ShowItem(t, rest), CloseParen)
    ensures NoList(rest) ==> NotParameters(ShowItem(t, rest))
    decreases t, 0
  {
    match t
    case Member(base, name) =>
      BaseIsNoParameterList(base, [Word(Dot)] + ([Identifier(name)] + rest));
    case Apply(fn, args) =>
      BaseIsNoParameterList(fn, [Word(OpenParen)] + ShowArguments(args, rest));
    case Subscript(base, index) =>
      BaseIsNoParameterList(base, [Word(OpenBracket)] + Show(index, LOWEST, [Word(CloseBracket)] + rest));
    case _ =>
  }

  /** The function reader gives up on a parenthesised expression. */
  lemma NoFunctionHere(t: Tree, rest: seq<Token>)
    requires t.WellFormed() && !At(rest, Arrow)
    ensures TryParseFunction(Open(t, LOWEST, [Word(CloseParen)] + rest)).None?
  {
    var after := [Word(CloseParen)] + rest;
    assert after[1..] == rest;
    OpenIsNoParameterList(t, LOWEST, after);
    NoParametersNoFunction(Open(t, LOWEST, after));
  }

  lemma NoParametersNoFunction(ts: seq<Token>)
    requires NotParameters(ts)
    ensures TryParseFunction(ts).None?
  {}

  lemma EscapesCounted(n: nat, name: string, rest: seq<Token>)
    ensures var ts := Backslashes(n, [Identifier(name)] + rest);
            Escapes(ts) == n && ts[n..] == [Identifier(name)] + rest
  {}

  lemma ParametersRead(names: seq<string>, params: seq<string>, rest: seq<Token>)
    requires params != []
    ensures MoreParameters(names, [Identifier(params[0])] + MoreNames(params[1..], rest))
         == Some(ParsedNames(names + params, rest))
    decreases |params|
  {
    var others := MoreNames(params[1..], rest);
    var ts := [Identifier(params[0])] + others;
    assert ts[1..] == others && ts[2..] == others[1..];
    if |params| == 1 {
      assert names + [params[0]] == names + params;
    } else {
      assert params[1..][0] == params[1] && params[1..][1..] == params[2..];
      assert others[1..] == [Identifier(params[1])] + MoreNames(params[2..], rest);
      ParametersRead(names + [params[0]], params[1..], rest);
      assert names + [params[0]] + params[1..] == names + params;
    }
  }

  lemma ParameterListRead(params: seq<string>, rest: seq<Token>)
    ensures ParseParameters(ShowParameters(params, rest)) == Some(ParsedNames(params, rest))
  {
    if params != [] {
      ParametersRead([], params, rest);
      assert [] + params == params;
    }
  }

  /** No item begins with a prefix operator. */
  lemma ItemIsNoPrefix(t: Tree, rest: seq<Token>)
    requires t.IsItem()
    ensures Prefix(ShowItem(t, rest)).None?
    decreases t, 0
  {
    match t
    case Member(base, name) =>
      BaseIsNoPrefix(base, [Word(Dot)] + ([Identifier(name)] + rest));
    case Apply(fn, args) =>
      BaseIsNoPrefix(fn, [Word(OpenParen)] + ShowArguments(args, rest));
    case Subscript(base, index) =>
      BaseIsNoPrefix(base, [Word(OpenBracket)] + Show(index, LOWEST, [Word(CloseBracket)] + rest));
    case _ =>
  }

  lemma BaseIsNoPrefix(t: Tree, rest: seq<Token>)
    ensures Prefix(ShowBase(t, rest)).None?
    decreases t, 1
  {
    if t.IsItem() { ItemIsNoPrefix(t, rest); }
  }

  lemma NoPostfix(base: Expr, rest: seq<Token>)
    requires Separate(rest)
    ensures PostfixLoop(base, rest) == Parsed(base, rest, true)
  {}

  lemma NoInfix(left: Expr, rest: seq<Token>, min: int)
    requires Infix(rest, min).None?
    ensures InfixLoop(left, rest, min) == Parsed(left, rest, true)
  {}

  lemma OperandRead(ts: seq<Token>, min: int, e: Expr, rest: seq<Token>)
    requires Prefix(ts).None? && Separate(rest)
    requires ParseItemWithPostfix(ts) == PostfixLoop(e, rest)
    ensures ParseOperators(ts, min) == InfixLoop(e, rest, min)
  {
    NoPostfix(e, rest);
  }

  /** Reading the printed tree at `min` is the same as having read it and going on. */
  lemma {:induction false} OpenParsed(t: Tree, min: int, rest: seq<Token>)
    requires t.WellFormed() && (t.Operation? ==> min <= Top(t)) && Stops(rest, min, Top(t))
    ensures ParseOperators(Open(t, min, rest), min) == InfixLoop(Meaning(t), rest, min)
    decreases t, 2
  {
    match t
    case Negation(op, operand) =>
      ShowParsed(operand, Max(min, Top(t) + 1), rest);
      NegationRead(op, Meaning(operand), Show(operand, Max(min, Top(t) + 1), rest), rest, min);
    case Operation(op, left, right) =>
      var others := Show(right, Top(t) + 1, rest);
      LeftParsed(left, Top(t), min, [Word(op)] + others);
      ShowParsed(right, Top(t) + 1, rest);
      OperationRead(op, Meaning(left), Meaning(right), others, rest, min);
    case _ =>
      ItemParsed(t, rest);
      ItemIsNoPrefix(t, rest);
      OperandRead(ShowItem(t, rest), min, Meaning(t), rest);
  }

  lemma NegationRead(op: Keyword, operand: Expr, ts: seq<Token>, rest: seq<Token>, min: int)
    requires PrefixOperator(op).Some?
    requires ParseOperators(ts, Max(min, PrefixOperator(op).value.priority + 1)) == Parsed(operand, rest, true)
    ensures ParseOperators([Word(op)] + ts, min)
         == InfixLoop(Unary(operand, PrefixOperator(op).value), rest, min)
  {
    assert ([Word(op)] + ts)[1..] == ts;
  }

  lemma OperationRead(op: Keyword, left: Expr, right: Expr, ts: seq<Token>, rest: seq<Token>, min: int)
    requires InfixOperator(op).Some? && min <= InfixOperator(op).value.priority
    requires ParseOperators(ts, InfixOperator(op).value.priority + 1) == Parsed(right, rest, true)
    ensures InfixLoop(left, [Word(op)] + ts, min)
         == InfixLoop(Binary(left, InfixOperator(op).value, right), rest, min)
  {
    assert ([Word(op)] + ts)[1..] == ts;
  }

  lemma ShowParsed(t: Tree, min: int, rest: seq<Token>)
    requires t.WellFormed() && !At(rest, Arrow) && Separate(rest) && Infix(rest, min).None?
    ensures ParseOperators(Show(t, min, rest), min) == Parsed(Meaning(t), rest, true)
    decreases t, 4
  {
    if t.Operation? && Top(t) < min {
      ParenthesisedParsed(t, rest);
      OperandRead(Parenthesised(t, rest), min, Meaning(t), rest);
    } else {
      OpenParsed(t, min, rest);
    }
    NoInfix(Meaning(t), rest, min);
  }

  lemma LeftParsed(t: Tree, p: int, min: int, rest: seq<Token>)
    requires t.WellFormed() && min <= p && Separate(rest) && !At(rest, Arrow)
    requires Infix(rest, min).Some? && Infix(rest, min).value.priority == p
    ensures ParseOperators(ShowLeft(t, p, rest), min) == InfixLoop(Meaning(t), rest, min)
    decreases t, 4
  {
    if Top(t) < p {
      ParenthesisedParsed(t, rest);
      OperandRead(Parenthesised(t, rest), min, Meaning(t), rest);
    } else {
      assert Open(t, p, rest) == Open(t, min, rest);
      OpenParsed(t, min, rest);
    }
  }

  lemma ParenthesisedParsed(t: Tree, rest: seq<Token>)
    requires t.WellFormed() && !At(rest, Arrow)
    ensures ParseItem(Parenthesised(t, rest)) == Parsed(Meaning(t), rest, true)
    ensures ParseItemWithPostfix(Parenthesised(t, rest)) == PostfixLoop(Meaning(t), rest)
    decreases t, 3
  {
    var after := [Word(CloseParen)] + rest;
    var inside := Open(t, LOWEST, after);
    NoFunctionHere(t, rest);
    OpenParsed(t, LOWEST, after);
    NoInfix(Meaning(t), after, LOWEST);
    GroupRead(inside, Meaning(t), rest);
  }

  lemma GroupRead(inside: seq<Token>, e: Expr, rest: seq<Token>)
    requires TryParseFunction(inside).None?
    requires ParseExpression(inside) == Parsed(e, [Word(CloseParen)] + rest, true)
    ensures ParseItem([Word(OpenParen)] + inside) == Parsed(e, rest, true)
  {
    var ts := [Word(OpenParen)] + inside;
    assert ts[1..] == inside && ([Word(CloseParen)] + rest)[1..] == rest;
  }

  lemma BaseParsed(t: Tree, rest: seq<Token>)
    requires t.WellFormed() && !At(rest, Arrow)
    ensures ParseItemWithPostfix(ShowBase(t, rest)) == PostfixLoop(Meaning(t), rest)
    decreases t, 4
  {
    if t.IsItem() {
      ItemParsed(t, rest);
    } else {
      ParenthesisedParsed(t, rest);
    }
  }

  lemma {:induction false} ItemParsed(t: Tree, rest: seq<Token>)
    requires t.WellFormed() && t.IsItem() && !At(rest, Arrow)
    ensures ParseItemWithPostfix(ShowItem(t, rest)) == PostfixLoop(Meaning(t), rest)
    decreases t, 1
  {
    match t
    case Name(name, escape) => NameRead(name, escape, rest);
    case Symbol(name) => SymbolRead(name, rest);
    case Module(path) => ImportRead(path, rest);
    case Function(params, body) =>
      ShowParsed(body, LOWEST, [Word(CloseParen)] + rest);
      FunctionRead(params, Meaning(body), Show(body, LOWEST, [Word(CloseParen)] + rest), rest);
    case Group(inner) => ParenthesisedParsed(inner, rest);
    case Member(_, _) => PostfixParsed(t, rest);
    case Apply(_, _) => PostfixParsed(t, rest);
    case Subscript(_, _) => PostfixParsed(t, rest);
    case _ =>
  }

  lemma PostfixParsed(t: Tree, rest: seq<Token>)
    requires t.WellFormed() && (t.Member? || t.Apply? || t.Subscript?) && !At(rest, Arrow)
    ensures ParseItemWithPostfix(ShowItem(t, rest)) == PostfixLoop(Meaning(t), rest)
    decreases t, 0
  {
    match t
    case Member(base, name) =>
      BaseParsed(base, [Word(Dot)] + ([Identifier(name)] + rest));
      MemberRead(Meaning(base), name, rest);
    case Apply(fn, args) =>
      BaseParsed(fn, [Word(OpenParen)] + ShowArguments(args, rest));
      ArgumentsParsed(args, rest);
      ArgumentsRead(Meaning(fn), Tuple(Meanings(args)), ShowArguments(args, rest), rest);
    case Subscript(base, index) =>
      var inside := Show(index, LOWEST, [Word(CloseBracket)] + rest);
      BaseParsed(base, [Word(OpenBracket)] + inside);
      ShowParsed(index, LOWEST, [Word(CloseBracket)] + rest);
      SubscriptRead(Meaning(base), Meaning(index), inside, rest);
    case _ =>
  }

  lemma NameRead(name: string, escape: nat, rest: seq<Token>)
    requires !At(rest, Arrow)
    ensures ParseItem(Backslashes(escape, [Identifier(name)] + rest)) == Parsed(Variable(name, escape), rest, true)
  {
    EscapesCounted(escape, name, rest);
  }

  lemma SymbolRead(name: string, rest: seq<Token>)
    ensures ParseItem([Word(AtSign)] + ([Identifier(name)] + rest)) == Parsed(Lit(Atom(name)), rest, true)
  {
    var ts := [Word(AtSign)] + ([Identifier(name)] + rest);
    assert ts[1..] == [Identifier(name)] + rest;
    assert ([Identifier(name)] + rest)[1..] == rest;
  }

  lemma ImportRead(path: string, rest: seq<Token>)
    ensures ParseItem([Word(ImportWord)] + ([Quoted(path)] + rest)) == Parsed(Lit(Import(path)), rest, true)
  {
    var ts := [Word(ImportWord)] + ([Quoted(path)] + rest);
    assert ts[1] == Quoted(path) && ts[2..] == rest;
  }

  lemma FunctionRead(params: seq<string>, body: Expr, inside: seq<Token>, rest: seq<Token>)
    requires ParseOperators(inside, LOWEST) == Parsed(body, [Word(CloseParen)] + rest, true)
    ensures ParseItem([Word(OpenParen)] + ([Word(OpenParen)] + ShowParameters(params, [Word(Arrow)] + inside)))
         == Parsed(Lambda(params, body), rest, true)
  {
    var list := ShowParameters(params, [Word(Arrow)] + inside);
    var lambda := [Word(OpenParen)] + list;
    var after := [Word(CloseParen)] + rest;
    LambdaRead(params, body, inside, after);
    NoPostfix(Lambda(params, body), after);
    OperandRead(lambda, LOWEST, Lambda(params, body), after);
    NoInfix(Lambda(params, body), after, LOWEST);
    NoParametersNoFunction(lambda);
    GroupRead(lambda, Lambda(params, body), rest);
  }

  lemma LambdaRead(params: seq<string>, body: Expr, inside: seq<Token>, after: seq<Token>)
    requires ParseOperators(inside, LOWEST) == Parsed(body, after, true)
    ensures ParseItem([Word(OpenParen)] + ShowParameters(params, [Word(Arrow)] + inside))
         == Parsed(Lambda(params, body), after, true)
  {
    var list := ShowParameters(params, [Word(Arrow)] + inside);
    ParameterListRead(params, [Word(Arrow)] + inside);
    assert ([Word(Arrow)] + inside)[1..] == inside;
    assert TryParseFunction(list) == Some(Parsed(Lambda(params, body), after, true));
    assert ([Word(OpenParen)] + list)[1..] == list;
  }

  lemma MemberRead(base: Expr, name: string, rest: seq<Token>)
    ensures PostfixLoop(base, [Word(Dot)] + ([Identifier(name)] + rest))
         == PostfixLoop(Call(base, Lit(Atom(name))), rest)
  {
    var ts := [Word(Dot)] + ([Identifier(name)] + rest);
    var named := [Identifier(name)] + rest;
    assert ts[1..] == named && named[1..] == rest;
    assert ParsePostfix(base, ts) == Some(Parsed(Call(base, Lit(Atom(name))), rest, true));
  }

  lemma ArgumentsRead(base: Expr, tuple: Expr, ts: seq<Token>, rest: seq<Token>)
    requires ParseTuple(ts) == Parsed(tuple, rest, true)
    ensures PostfixLoop(base, [Word(OpenParen)] + ts) == PostfixLoop(Call(base, tuple), rest)
  {
    assert ([Word(OpenParen)] + ts)[1..] == ts;
  }

  lemma SubscriptRead(base: Expr, index: Expr, ts: seq<Token>, rest: seq<Token>)
    requires ParseOperators(ts, LOWEST) == Parsed(index, [Word(CloseBracket)] + rest, true)
    ensures PostfixLoop(base, [Word(OpenBracket)] + ts) == PostfixLoop(Subscripted(base, index), rest)
  {
    var all := [Word(OpenBracket)] + ts;
    assert all[1..] == ts && ([Word(CloseBracket)] + rest)[1..] == rest;
    assert ParsePostfix(base, all) == Some(Parsed(Subscripted(base, index), rest, true));
  }

  lemma ArgumentsParsed(args: seq<Tree>, rest: seq<Token>)
    requires forall a | a in args :: a.WellFormed()
    ensures ParseTuple(ShowArguments(args, rest)) == Parsed(Tuple(Meanings(args)), rest, true)
    decreases args, 5
  {
    if args == [] {
      NoPartsRead(rest);
    } else {
      var others := MoreArguments(args[1..], rest);
      MoreArgumentsStop(args[1..], rest);
      ShowParsed(args[0], LOWEST, others);
      MoreArgumentsParsed([Meaning(args[0])], args[1..], rest);
      OpenIsNoParameterList(args[0], LOWEST, others);
      assert ShowArguments(args, rest) == Show(args[0], LOWEST, others);
      PartsRead(ShowArguments(args, rest), Meaning(args[0]), others, Meanings(args), rest);
    }
  }

  lemma NoPartsRead(rest: seq<Token>)
    ensures ParseTuple([Word(CloseParen)] + rest) == Parsed(Tuple([]), rest, true)
  {
    assert ([Word(CloseParen)] + rest)[1..] == rest;
  }

  lemma PartsRead(ts: seq<Token>, first: Expr, others: seq<Token>, parts: seq<Expr>, rest: seq<Token>)
    requires !At(ts, CloseParen) && ParseOperators(ts, LOWEST) == Parsed(first, others, true)
    requires MoreParts([first], others) == ParsedParts(parts, [Word(CloseParen)] + rest, true)
    ensures ParseTuple(ts) == Parsed(Tuple(parts), rest, true)
  {
    assert ([Word(CloseParen)] + rest)[1..] == rest;
  }

  lemma PartRead(parts: seq<Expr>, ts: seq<Token>, part: Expr, others: seq<Token>)
    requires ParseOperators(ts, LOWEST) == Parsed(part, others, true)
    ensures MoreParts(parts, [Word(Comma)] + ts) == MoreParts(parts + [part], others)
  {
    assert ([Word(Comma)] + ts)[1..] == ts;
  }

  lemma MoreArgumentsStop(args: seq<Tree>, rest: seq<Token>)
    ensures var ts := MoreArguments(args, rest);
            !At(ts, Arrow) && Separate(ts) && Infix(ts, LOWEST).None?
  {}

  lemma MoreArgumentsParsed(parts: seq<Expr>, args: seq<Tree>, rest: seq<Token>)
    requires forall a | a in args :: a.WellFormed()
    ensures MoreParts(parts, MoreArguments(args, rest))
         == ParsedParts(parts + Meanings(args), [Word(CloseParen)] + rest, true)
    decreases args, 5
  {
    if args == [] {
      assert parts + [] == parts;
    } else {
      var others := MoreArguments(args[1..], rest);
      MoreArgumentsStop(args[1..], rest);
      ShowParsed(args[0], LOWEST, others);
      ArgumentRead(parts, args, rest);
      MoreArgumentsParsed(parts + [Meaning(args[0])], args[1..], rest);
      MeaningsJoin(parts, args);
    }
  }

  lemma ArgumentRead(parts: seq<Expr>, args: seq<Tree>, rest: seq<Token>)
    requires args != []
    requires var others := MoreArguments(args[1..], rest);
      ParseOperators(Show(args[0], LOWEST, others), LOWEST) == Parsed(Meaning(args[0]), others, true)
    ensures MoreParts(parts, MoreArguments(args, rest)) == MoreParts(parts + [Meaning(args[0])], MoreArguments(args[1..], rest))
  {
    var others := MoreArguments(args[1..], rest);
    PartRead(parts, Show(args[0], LOWEST, others), Meaning(args[0]), others);
  }

  lemma {:induction false} MeaningsJoin(parts: seq<Expr>, args: seq<Tree>)
    requires args != []
    ensures parts + [Meaning(args[0])] + Meanings(args[1..]) == parts + Meanings(args)
  {
  }

  /** Parsing undoes printing: the expression meant, no error, no token left. */
  lemma PrintedParses(t: Tree)
    requires t.WellFormed()
    ensures ParseExpression(Show(t, LOWEST, [])) == Parsed(Meaning(t), [], true)
  {
    ShowParsed(t, LOWEST, []);
  }

  /** Two infix operators in a row group to the left exactly when the first binds at least as
      tightly as the second. */
  lemma Grouping(a: Tree, op1: Keyword, b: Tree, op2: Keyword, c: Tree)
    requires a.WellFormed() && b.WellFormed() && c.WellFormed() && a.IsItem() && b.IsItem() && c.IsItem()
    requires InfixOperator(op1).Some? && InfixOperator(op2).Some?
    ensures var left := InfixOperator(op1).value.priority >= InfixOperator(op2).value.priority;
            ParseExpression(ShowItem(a, [Word(op1)] + ShowItem(b, [Word(op2)] + ShowItem(c, []))))
            == Parsed(if left then Meaning(Operation(op2, Operation(op1, a, b), c))
                      else Meaning(Operation(op1, a, Operation(op2, b, c))), [], true)
  {
    if InfixOperator(op1).value.priority >= InfixOperator(op2).value.priority {
      LeftGroup(a, op1, b, op2, c);
      PrintedParses(Operation(op2, Operation(op1, a, b), c));
    } else {
      RightGroup(a, op1, b, op2, c);
      PrintedParses(Operation(op1, a, Operation(op2, b, c)));
    }
  }

  lemma OperationShown(op: Keyword, left: Tree, right: Tree, min: int, rest: seq<Token>)
    requires InfixOperator(op).Some? && min <= InfixOperator(op).value.priority
    ensures var p := InfixOperator(op).value.priority;
            Show(Operation(op, left, right), min, rest) == ShowLeft(left, p, [Word(op)] + Show(right, p + 1, rest))
  {}

  lemma ItemShown(t: Tree, min: int, rest: seq<Token>)
    requires t.IsItem()
    ensures Show(t, min, rest) == ShowItem(t, rest)
    ensures min <= TIGHT ==> ShowLeft(t, min, rest) == ShowItem(t, rest)
  {}

  lemma LeftGroup(a: Tree, op1: Keyword, b: Tree, op2: Keyword, c: Tree)
    requires a.IsItem() && b.IsItem() && c.IsItem() && InfixOperator(op1).Some? && InfixOperator(op2).Some?
    requires InfixOperator(op1).value.priority >= InfixOperator(op2).value.priority
    ensures Show(Operation(op2, Operation(op1, a, b), c), LOWEST, [])
         == ShowItem(a, [Word(op1)] + ShowItem(b, [Word(op2)] + ShowItem(c, [])))
  {
    var p1, p2 := InfixOperator(op1).value.priority, InfixOperator(op2).value.priority;
    var after := [Word(op2)] + ShowItem(c, []);
    OperationShown(op2, Operation(op1, a, b), c, LOWEST, []);
    ItemShown(c, p2 + 1, []);
    assert ShowLeft(Operation(op1, a, b), p2, after) == Show(Operation(op1, a, b), p2, after);
    OperationShown(op1, a, b, p2, after);
    ItemShown(b, p1 + 1, after);
    ItemShown(a, p1, [Word(op1)] + ShowItem(b, after));
  }

  lemma RightGroup(a: Tree, op1: Keyword, b: Tree, op2: Keyword, c: Tree)
    requires a.IsItem() && b.IsItem() && c.IsItem() && InfixOperator(op1).Some? && InfixOperator(op2).Some?
    requires InfixOperator(op1).value.priority < InfixOperator(op2).value.priority
    ensures Show(Operation(op1, a, Operation(op2, b, c)), LOWEST, [])
         == ShowItem(a, [Word(op1)] + ShowItem(b, [Word(op2)] + ShowItem(c, [])))
  {
    var p1, p2 := InfixOperator(op1).value.priority, InfixOperator(op2).value.priority;
    var after := [Word(op2)] + ShowItem(c, []);
    OperationShown(op1, a, Operation(op2, b, c), LOWEST, []);
    OperationShown(op2, b, c, p1 + 1, []);
    ItemShown(c, p2 + 1, []);
    ItemShown(b, p2, after);
    ItemShown(a, p1, [Word(op1)] + ShowItem(b, after));
  }
}
