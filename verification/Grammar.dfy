/** The operator tables, and the expression grammar as functions on the tokens still unread. */
module Grammar {
  import opened Values
  import opened Source

  datatype Keyword =
    | Plus | Minus | Star | Slash
    | Equal | NotEqual | Less | Greater | NotGreater | NotLess
    | And | Or | Not
    | OpenParen | CloseParen | OpenBracket | CloseBracket
    | Comma | Dot | AtSign | Arrow | Backslash | ImportWord
    | OtherWord(text: string)

  datatype Token = Identifier(name: string) | Number(value: int) | Quoted(contents: string) | Word(keyword: Keyword)

  datatype Operator = Operator(priority: int, fn: string)

  const LOWEST: int := -0x8000_0000

  function InfixOperator(k: Keyword): Option<Operator> {
    match k
    case Plus => Some(Operator(5, "add"))
    case Minus => Some(Operator(5, "subtract"))
    case Star => Some(Operator(6, "multiply"))
    case Slash => Some(Operator(6, "divide"))
    case Equal => Some(Operator(4, "equal"))
    case NotEqual => Some(Operator(4, "notEqual"))
    case Less => Some(Operator(4, "less"))
    case Greater => Some(Operator(4, "greater"))
    case NotGreater => Some(Operator(4, "notGreater"))
    case NotLess => Some(Operator(4, "notLess"))
    case And => Some(Operator(2, "and"))
    case Or => Some(Operator(2, "or"))
    case _ => None
  }

  function PrefixOperator(k: Keyword): Option<Operator> {
    match k
    case Minus => Some(Operator(6, "negate"))
    case Not => Some(Operator(3, "not"))
    case _ => None
  }

  /** An expression, the tokens after it, and whether no error was logged on the way. */
  datatype Parsed = Parsed(expr: Expr, rest: seq<Token>, ok: bool)

  datatype ParsedName = ParsedName(name: string, rest: seq<Token>, ok: bool)

  datatype ParsedParts = ParsedParts(parts: seq<Expr>, rest: seq<Token>, ok: bool)

  datatype ParsedNames = ParsedNames(names: seq<string>, rest: seq<Token>)

  predicate At(ts: seq<Token>, k: Keyword) { ts != [] && ts[0] == Word(k) }

  function Infix(ts: seq<Token>, min: int): Option<Operator> {
    if ts == [] || !ts[0].Word? then None
    else match InfixOperator(ts[0].keyword)
      case Some(op) => if op.priority < min then None else Some(op)
      case None => None
  }

  function Prefix(ts: seq<Token>): Option<Operator> {
    if ts == [] || !ts[0].Word? then None else PrefixOperator(ts[0].keyword)
  }

  function Max(a: int, b: int): int { if a < b then b else a }

  function Unary(operand: Expr, op: Operator): Expr { Call(operand, Lit(Atom(op.fn))) }

  function Binary(left: Expr, op: Operator, right: Expr): Expr { Call(Call(left, Lit(Atom(op.fn))), right) }

  /** A tuple of any number of parts: the builder, applied to one part after another. */
  function MakeTuple(parts: seq<Expr>): Expr {
    ApplyAll(Call(Call(Call(Lit(Import("builtin")), Lit(Atom("array"))), Lit(Atom("tupleBuilder"))),
                  Lit(Integer(|parts|))),
             parts)
  }

  function ApplyAll(e: Expr, args: seq<Expr>): Expr
    decreases |args|
  {
    if args == [] then e else Call(ApplyAll(e, args[..|args| - 1]), args[|args| - 1])
  }

  /** A single part stands for itself. */
  function Tuple(parts: seq<Expr>): Expr { if |parts| == 1 then parts[0] else MakeTuple(parts) }

  function Subscripted(base: Expr, index: Expr): Expr { Call(Call(base, Lit(Atom("element"))), index) }

  /** The name expected here, or the empty name and an error. */
  function NameHere(ts: seq<Token>): (r: ParsedName)
    ensures |r.rest| <= |ts|
  {
    if ts != [] && ts[0].Identifier? then ParsedName(ts[0].name, ts[1..], true) else ParsedName("", ts, false)
  }

  /** Consume an expected keyword, or log an error. */
  function Close(r: Parsed, k: Keyword): (closed: Parsed)
    ensures |closed.rest| <= |r.rest|
  {
    if At(r.rest, k) then r.(rest := r.rest[1..]) else r.(ok := false)
  }

  function Escapes(ts: seq<Token>): (n: nat)
    ensures n <= |ts|
  {
    if At(ts, Backslash) then 1 + Escapes(ts[1..]) else 0
  }

  function ParseExpression(ts: seq<Token>): (r: Parsed)
    ensures |r.rest| <= |ts|
    decreases |ts|, 5
  {
    ParseOperators(ts, LOWEST)
  }

  function ParseOperators(ts: seq<Token>, min: int): (r: Parsed)
    ensures |r.rest| <= |ts|
    decreases |ts|, 4
  {
    var left := ParseOperand(ts, min);
    var all := InfixLoop(left.expr, left.rest, min);
    all.(ok := left.ok && all.ok)
  }

  /** A prefix operator and what it applies to, or an item. */
  function ParseOperand(ts: seq<Token>, min: int): (r: Parsed)
    ensures |r.rest| <= |ts|
    decreases |ts|, 3
  {
    match Prefix(ts)
    case Some(op) =>
      var operand := ParseOperators(ts[1..], Max(min, op.priority + 1));
      operand.(expr := Unary(operand.expr, op))
    case None => ParseItemWithPostfix(ts)
  }

  function InfixLoop(left: Expr, ts: seq<Token>, min: int): (r: Parsed)
    ensures |r.rest| <= |ts|
    decreases |ts|, 2
  {
    match Infix(ts, min)
    case None => Parsed(left, ts, true)
    case Some(op) =>
      var right := ParseOperators(ts[1..], op.priority + 1);
      var all := InfixLoop(Binary(left, op, right.expr), right.rest, min);
      all.(ok := right.ok && all.ok)
  }

  function ParseItemWithPostfix(ts: seq<Token>): (r: Parsed)
    ensures |r.rest| <= |ts|
    decreases |ts|, 2
  {
    var item := ParseItem(ts);
    var all := PostfixLoop(item.expr, item.rest);
    all.(ok := item.ok && all.ok)
  }

  function PostfixLoop(base: Expr, ts: seq<Token>): (r: Parsed)
    ensures |r.rest| <= |ts|
    decreases |ts|, 1
  {
    match ParsePostfix(base, ts)
    case None => Parsed(base, ts, true)
    case Some(longer) =>
      var all := PostfixLoop(longer.expr, longer.rest);
      all.(ok := longer.ok && all.ok)
  }

  function ParsePostfix(base: Expr, ts: seq<Token>): (r: Option<Parsed>)
    ensures r.Some? ==> |r.value.rest| < |ts|
    decreases |ts|, 0
  {
    if At(ts, OpenParen) then
      var arguments := ParseTuple(ts[1..]);
      Some(arguments.(expr := Call(base, arguments.expr)))
    else if At(ts, Dot) then
      var member := NameHere(ts[1..]);
      Some(Parsed(Call(base, Lit(Atom(member.name))), member.rest, member.ok))
    else if At(ts, OpenBracket) then
      var index := Close(ParseExpression(ts[1..]), CloseBracket);
      Some(index.(expr := Subscripted(base, index.expr)))
    else None
  }

  function ParseItem(ts: seq<Token>): (r: Parsed)
    ensures |r.rest| <= |ts|
    decreases |ts|, 1
  {
    if ts == [] then Parsed(Lit(Integer(0)), ts, false)
    else match ts[0]
      case Identifier(name) =>
        if At(ts[1..], Arrow) then
          var body := ParseExpression(ts[2..]);
          body.(expr := Lambda([name], body.expr))
        else Parsed(Variable(name, 0), ts[1..], true)
      case Number(i) => Parsed(Lit(Integer(i)), ts[1..], true)
      case Quoted(text) => Parsed(Lit(Bytes(text)), ts[1..], true)
      case Word(k) => ParseWord(k, ts)
  }

  function ParseWord(k: Keyword, ts: seq<Token>): (r: Parsed)
    requires At(ts, k)
    ensures |r.rest| <= |ts|
    decreases |ts|, 0
  {
    match k
    case AtSign =>
      var atom := NameHere(ts[1..]);
      Parsed(Lit(Atom(atom.name)), atom.rest, atom.ok)
    case OpenParen =>
      (match TryParseFunction(ts[1..])
       case Some(lambda) => lambda
       case None => Close(ParseExpression(ts[1..]), CloseParen))
    case ImportWord =>
      if |ts| > 1 && ts[1].Quoted? then Parsed(Lit(Import(ts[1].contents)), ts[2..], true)
      else Parsed(Lit(Import("")), ts[1..], false)
    case Backslash =>
      var name := NameHere(ts[Escapes(ts)..]);
      Parsed(Variable(name.name, Escapes(ts)), name.rest, name.ok)
    case _ => Parsed(Lit(Integer(0)), ts[1..], false)
  }

  /** The parts of a tuple up to its closing parenthesis; the opening one has been read. */
  function ParseTuple(ts: seq<Token>): (r: Parsed)
    ensures |r.rest| <= |ts|
    decreases |ts|, 7
  {
    if At(ts, CloseParen) then Parsed(MakeTuple([]), ts[1..], true)
    else
      var first := ParseExpression(ts);
      var all := MoreParts([first.expr], first.rest);
      Close(Parsed(Tuple(all.parts), all.rest, first.ok && all.ok), CloseParen)
  }

  function MoreParts(parts: seq<Expr>, ts: seq<Token>): (r: ParsedParts)
    ensures |r.rest| <= |ts|
    decreases |ts|, 6
  {
    if At(ts, Comma) then
      var part := ParseExpression(ts[1..]);
      var all := MoreParts(parts + [part.expr], part.rest);
      all.(ok := part.ok && all.ok)
    else ParsedParts(parts, ts, true)
  }

  /** A function whose parameter list has been opened; None, and nothing read, if this is not
      one after all. */
  function TryParseFunction(ts: seq<Token>): (r: Option<Parsed>)
    ensures r.Some? ==> |r.value.rest| <= |ts|
    decreases |ts|, 6
  {
    match ParseParameters(ts)
    case None => None
    case Some(params) =>
      if !At(params.rest, Arrow) then None
      else
        var body := ParseExpression(params.rest[1..]);
        Some(body.(expr := Lambda(params.names, body.expr)))
  }

  function ParseParameters(ts: seq<Token>): (r: Option<ParsedNames>)
    ensures r.Some? ==> |r.value.rest| <= |ts|
  {
    if At(ts, CloseParen) then Some(ParsedNames([], ts[1..])) else MoreParameters([], ts)
  }

  function MoreParameters(names: seq<string>, ts: seq<Token>): (r: Option<ParsedNames>)
    ensures r.Some? ==> |r.value.rest| <= |ts|
    decreases |ts|
  {
    if ts == [] || !ts[0].Identifier? then None
    else
      var longer := names + [ts[0].name];
      if At(ts[1..], CloseParen) then Some(ParsedNames(longer, ts[2..]))
      else if At(ts[1..], Comma) then MoreParameters(longer, ts[2..])
      else None
  }
}
