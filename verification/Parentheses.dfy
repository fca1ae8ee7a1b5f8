/** The parentheses that printing puts around operands are needed: without them the text means
    something else. */
module Parentheses {
  import opened Source
  import opened Grammar
  import opened Printing

  /** What follows ends the expression: a closing token, a comma, or nothing. */
  predicate Ends(rest: seq<Token>) { Infix(rest, LOWEST).None? && Separate(rest) && !At(rest, Arrow) }

  /** The lowest priority at which an operator after `t`, printed at `q`, would be read as part of it. */
  function Bound(t: Tree, q: int): int {
    match t
    case Negation(_, _) => Max(q, Top(t) + 1)
    case Operation(_, _, _) => Top(t) + 1
    case _ => TIGHT
  }

  // ---------------------------------------------------------------------------
  // Reading a printed tree at a priority too high for it: only its first part is read.

  /** What the rest of `t` makes of an expression read in place of the part of `t` that is read at
      `m`. */
  function Carry(t: Tree, q: int, m: int, e: Expr): Expr
    requires t.WellFormed()
  {
    match t
    case Negation(op, operand) =>
      if operand.Operation? && Top(operand) < Max(q, Top(t) + 1) then e
      else Carry(operand, Max(q, Top(t) + 1), Max(m, Top(t) + 1), e)
    case Operation(op, left, right) =>
      if Top(t) >= m then e
      else Binary(if Top(left) < Top(t) then e else Carry(left, Top(t), m, e), InfixOperator(op).value, Meaning(right))
    case _ => e
  }

  /** Reading at `m` stops in front of `r.rest`, and reading on from there with `e` carries over the
      rest of `t`. */
  ghost predicate HeadRead(t: Tree, q: int, m: int, min: int, rest: seq<Token>, e: Expr, r: Parsed)
    requires t.WellFormed()
  {
    && r.ok && Infix(r.rest, m).None? && (q >= m ==> r == Parsed(Meaning(t), rest, true))
    && InfixLoop(e, r.rest, min) == InfixLoop(Carry(t, q, m, e), rest, min)
  }

  lemma {:induction false} OpenHeadRead(t: Tree, q: int, m: int, min: int, rest: seq<Token>, e: Expr)
    requires t.WellFormed() && (t.Operation? ==> q <= Top(t)) && min <= q
    requires Infix(rest, m).None? && Separate(rest) && !At(rest, Arrow) && Infix(rest, Bound(t, q)).None?
    ensures HeadRead(t, q, m, min, rest, e, ParseOperators(Open(t, q, rest), m))
    decreases t, 1
  {
    match t
    case Negation(_, _) => NegationHeadRead(t, q, m, min, rest, e);
    case Operation(_, _, _) => OperationHeadRead(t, q, m, min, rest, e);
    case _ =>
      OpenParsed(t, m, rest);
      NoInfix(Meaning(t), rest, m);
  }

  lemma {:induction false} OperationHeadRead(t: Tree, q: int, m: int, min: int, rest: seq<Token>, e: Expr)
    requires t.WellFormed() && t.Operation? && min <= q <= Top(t)
    requires Infix(rest, m).None? && Separate(rest) && !At(rest, Arrow) && Infix(rest, Top(t) + 1).None?
    ensures HeadRead(t, q, m, min, rest, e, ParseOperators(Open(t, q, rest), m))
    decreases t, 0
  {
    if Top(t) >= m {
      OpenParsed(t, m, rest);
      NoInfix(Meaning(t), rest, m);
    } else {
      var p, others := Top(t), Show(t.right, Top(t) + 1, rest);
      var after := [Word(t.op)] + others;
      ShowParsed(t.right, p + 1, rest);
      if Top(t.left) < p {
        ClosedHeadRead(t.left, m, after);
        OperationRead(t.op, e, Meaning(t.right), others, rest, min);
      } else {
        OpenHeadRead(t.left, p, m, min, after, e);
        OperationRead(t.op, Carry(t.left, p, m, e), Meaning(t.right), others, rest, min);
      }
    }
  }

  lemma ClosedHeadRead(t: Tree, m: int, rest: seq<Token>)
    requires t.WellFormed() && Infix(rest, m).None? && Separate(rest) && !At(rest, Arrow)
    ensures ParseOperators(Parenthesised(t, rest), m) == Parsed(Meaning(t), rest, true)
  {
    ParenthesisedParsed(t, rest);
    OperandRead(Parenthesised(t, rest), m, Meaning(t), rest);
    NoInfix(Meaning(t), rest, m);
  }

  lemma {:induction false} NegationHeadRead(t: Tree, q: int, m: int, min: int, rest: seq<Token>, e: Expr)
    requires t.WellFormed() && t.Negation? && min <= q
    requires Infix(rest, m).None? && Separate(rest) && !At(rest, Arrow) && Infix(rest, Max(q, Top(t) + 1)).None?
    ensures HeadRead(t, q, m, min, rest, e, ParseOperators(Open(t, q, rest), m))
    decreases t, 0
  {
    var q', m' := Max(q, Top(t) + 1), Max(m, Top(t) + 1);
    var ts := Show(t.operand, q', rest);
    if t.operand.Operation? && Top(t.operand) < q' {
      ClosedHeadRead(t.operand, m', rest);
    } else {
      OpenHeadRead(t.operand, q', m', min, rest, e);
    }
    var operand := ParseOperators(ts, m');
    PrefixRead(t.op, ts, m, operand);
  }

  lemma PrefixRead(op: Keyword, ts: seq<Token>, m: int, operand: Parsed)
    requires PrefixOperator(op).Some? && operand.ok && Infix(operand.rest, m).None?
    requires operand == ParseOperators(ts, Max(m, PrefixOperator(op).value.priority + 1))
    ensures ParseOperators([Word(op)] + ts, m) == Parsed(Unary(operand.expr, PrefixOperator(op).value), operand.rest, true)
  {
    assert ([Word(op)] + ts)[1..] == ts;
  }

  // ---------------------------------------------------------------------------
  // Reading an operand together with an operator that binds at least as tightly.

  /** An infix or a prefix operator was read last. */
  ghost predicate Operated(e: Expr) {
    e.Call? && (exists k :: ByInfix(e, k) || ByPrefix(e, k))
  }

  predicate ByInfix(e: Expr, k: Keyword) {
    e.Call? && InfixOperator(k).Some? && e.fn.Call? && e.fn.arg == Lit(Atom(InfixOperator(k).value.fn))
  }

  predicate ByPrefix(e: Expr, k: Keyword) {
    e.Call? && PrefixOperator(k).Some? && e.arg == Lit(Atom(PrefixOperator(k).value.fn))
  }

  lemma NamesDiffer(infix: Keyword, prefix: Keyword)
    requires InfixOperator(infix).Some? && PrefixOperator(prefix).Some?
    ensures InfixOperator(infix).value.fn != PrefixOperator(prefix).value.fn
  {
    var a, b := InfixOperator(infix).value.fn, PrefixOperator(prefix).value.fn;
    assert b[0] == 'n' && (|b| == 6 || |b| == 3);
    assert a[0] == 'n' ==> a[2] == 't' && |a| > 6;
  }

  lemma LastOperation(op: Keyword, left: Expr, right: Expr, ts: seq<Token>, rest: seq<Token>, min: int) returns (e: Expr)
    requires InfixOperator(op).Some? && min <= InfixOperator(op).value.priority && Infix(rest, min).None?
    requires ParseOperators(ts, InfixOperator(op).value.priority + 1) == Parsed(right, rest, true)
    ensures e == Binary(left, InfixOperator(op).value, right) && Operated(e)
    ensures InfixLoop(left, [Word(op)] + ts, min) == Parsed(e, rest, true)
  {
    e := Binary(left, InfixOperator(op).value, right);
    OperationRead(op, left, right, ts, rest, min);
    NoInfix(e, rest, min);
    assert ByInfix(e, op);
  }

  /** An operation whose right operand, with what follows it, is read as `right`. */
  lemma OpenWith(l: Tree, q: int, after: seq<Token>, right: Expr, rest: seq<Token>) returns (e: Expr)
    requires l.WellFormed() && l.Operation? && q <= Top(l) && Infix(rest, q).None?
    requires ParseOperators(Show(l.right, Top(l) + 1, after), Top(l) + 1) == Parsed(right, rest, true)
    ensures e == Binary(Meaning(l.left), InfixOperator(l.op).value, right) && Operated(e)
    ensures ParseOperators(Open(l, q, after), q) == Parsed(e, rest, true)
  {
    var others := Show(l.right, Top(l) + 1, after);
    LeftParsed(l.left, Top(l), q, [Word(l.op)] + others);
    e := LastOperation(l.op, Meaning(l.left), right, others, rest, q);
  }

  /** An operator that follows an operand printed for reading at `q`, and is itself read at `q`,
      takes the operand or a part of it; everything up to `rest` is read. */
  lemma {:induction false} TailRead(y: Tree, q: int, op: Keyword, b: Tree, rest: seq<Token>) returns (e: Expr)
    requires y.WellFormed() && b.WellFormed() && InfixOperator(op).Some? && q <= InfixOperator(op).value.priority
    requires Infix(rest, q).None? && Separate(rest) && !At(rest, Arrow)
    ensures ParseOperators(Show(y, q, [Word(op)] + Show(b, InfixOperator(op).value.priority + 1, rest)), q) == Parsed(e, rest, true)
    ensures Operated(e)
    decreases y, 1
  {
    if (y.Operation? && Top(y) < q) || InfixOperator(op).value.priority <= Top(y) {
      e := WholeTailRead(y, q, op, b, rest);
    } else if y.Operation? {
      e := OperationTailRead(y, q, op, b, rest);
    } else {
      e := NegationTailRead(y, q, op, b, rest);
    }
  }

  /** An operand in parentheses, or one that binds tightly enough, is taken whole. */
  lemma WholeTailRead(y: Tree, q: int, op: Keyword, b: Tree, rest: seq<Token>) returns (e: Expr)
    requires y.WellFormed() && b.WellFormed() && InfixOperator(op).Some? && q <= InfixOperator(op).value.priority
    requires Infix(rest, q).None? && Separate(rest) && !At(rest, Arrow)
    requires (y.Operation? && Top(y) < q) || InfixOperator(op).value.priority <= Top(y)
    ensures ParseOperators(Show(y, q, [Word(op)] + Show(b, InfixOperator(op).value.priority + 1, rest)), q) == Parsed(e, rest, true)
    ensures Operated(e)
  {
    var p := InfixOperator(op).value.priority;
    var others := Show(b, p + 1, rest);
    WholeRead(y, q, op, others);
    ShowParsed(b, p + 1, rest);
    e := LastOperation(op, Meaning(y), Meaning(b), others, rest, q);
  }

  lemma WholeRead(y: Tree, q: int, op: Keyword, others: seq<Token>)
    requires y.WellFormed() && InfixOperator(op).Some? && q <= InfixOperator(op).value.priority
    requires (y.Operation? && Top(y) < q) || InfixOperator(op).value.priority <= Top(y)
    ensures ParseOperators(Show(y, q, [Word(op)] + others), q) == InfixLoop(Meaning(y), [Word(op)] + others, q)
  {
    var after := [Word(op)] + others;
    if y.Operation? && Top(y) < q {
      ParenthesisedParsed(y, after);
      OperandRead(Parenthesised(y, after), q, Meaning(y), after);
    } else {
      OpenParsed(y, q, after);
    }
  }

  lemma {:induction false} OperationTailRead(y: Tree, q: int, op: Keyword, b: Tree, rest: seq<Token>) returns (e: Expr)
    requires y.WellFormed() && b.WellFormed() && InfixOperator(op).Some? && y.Operation?
    requires q <= Top(y) < InfixOperator(op).value.priority
    requires Infix(rest, q).None? && Separate(rest) && !At(rest, Arrow)
    ensures ParseOperators(Show(y, q, [Word(op)] + Show(b, InfixOperator(op).value.priority + 1, rest)), q) == Parsed(e, rest, true)
    ensures Operated(e)
    decreases y, 0
  {
    var after := [Word(op)] + Show(b, InfixOperator(op).value.priority + 1, rest);
    var right := TailRead(y.right, Top(y) + 1, op, b, rest);
    e := OpenWith(y, q, after, right, rest);
  }

  lemma {:induction false} NegationTailRead(y: Tree, q: int, op: Keyword, b: Tree, rest: seq<Token>) returns (e: Expr)
    requires y.WellFormed() && b.WellFormed() && InfixOperator(op).Some? && y.Negation?
    requires q <= InfixOperator(op).value.priority && Top(y) < InfixOperator(op).value.priority
    requires Infix(rest, q).None? && Separate(rest) && !At(rest, Arrow)
    ensures ParseOperators(Show(y, q, [Word(op)] + Show(b, InfixOperator(op).value.priority + 1, rest)), q) == Parsed(e, rest, true)
    ensures Operated(e)
    decreases y, 0
  {
    var after := [Word(op)] + Show(b, InfixOperator(op).value.priority + 1, rest);
    var operand := TailRead(y.operand, Max(q, Top(y) + 1), op, b, rest);
    e := NegationWith(y, q, after, operand, rest);
  }

  /** A prefix operator whose operand, with what follows it, is read as `operand`. */
  lemma NegationWith(y: Tree, q: int, after: seq<Token>, operand: Expr, rest: seq<Token>) returns (e: Expr)
    requires y.WellFormed() && y.Negation? && Infix(rest, q).None?
    requires ParseOperators(Show(y.operand, Max(q, Top(y) + 1), after), Max(q, Top(y) + 1)) == Parsed(operand, rest, true)
    ensures e == Unary(operand, PrefixOperator(y.op).value) && Operated(e)
    ensures ParseOperators(Open(y, q, after), q) == Parsed(e, rest, true)
  {
    PrefixRead(y.op, Show(y.operand, Max(q, Top(y) + 1), after), q, Parsed(operand, rest, true));
    e := Unary(operand, PrefixOperator(y.op).value);
    assert ByPrefix(e, y.op);
  }

  // ---------------------------------------------------------------------------
  // Parentheses are printed only where they are needed.

  lemma LoopStep(op: Keyword, left: Expr, ts: seq<Token>, right: Parsed, min: int)
    requires InfixOperator(op).Some? && min <= InfixOperator(op).value.priority
    requires right == ParseOperators(ts, InfixOperator(op).value.priority + 1)
    ensures InfixLoop(left, [Word(op)] + ts, min).expr
         == InfixLoop(Binary(left, InfixOperator(op).value, right.expr), right.rest, min).expr
  {
    assert ([Word(op)] + ts)[1..] == ts;
  }

  lemma PrefixStep(op: Keyword, ts: seq<Token>, operand: Parsed, min: int)
    requires PrefixOperator(op).Some? && min <= PrefixOperator(op).value.priority
    requires operand == ParseOperators(ts, PrefixOperator(op).value.priority + 1)
    ensures ParseOperators([Word(op)] + ts, min).expr
         == InfixLoop(Unary(operand.expr, PrefixOperator(op).value), operand.rest, min).expr
  {
    assert ([Word(op)] + ts)[1..] == ts;
  }

  /** What `r` makes of an expression ends with the last operator of `r` and its right operand. */
  lemma OperationHead(r: Tree, m: int, rest: seq<Token>, e: Expr) returns (left: Expr)
    requires r.WellFormed() && r.Operation? && Top(r) < m && Ends(rest)
    ensures InfixLoop(e, ParseOperators(Open(r, LOWEST, rest), m).rest, LOWEST).expr
         == Binary(left, InfixOperator(r.op).value, Meaning(r.right))
  {
    OpenHeadRead(r, LOWEST, m, LOWEST, rest, e);
    left := Carry(r, LOWEST, m, e).fn.fn;
    NoInfix(Carry(r, LOWEST, m, e), rest, LOWEST);
  }

  /** A right operand is printed in parentheses when it is an operation that does not bind tighter;
      without them the text parses as something else. */
  lemma RightParenthesesNeeded(op: Keyword, a: Tree, r: Tree, rest: seq<Token>)
    requires Operation(op, a, r).WellFormed() && r.Operation? && Top(r) <= InfixOperator(op).value.priority && Ends(rest)
    ensures var t, p := Operation(op, a, r), InfixOperator(op).value.priority;
      && Show(t, LOWEST, rest) == ShowLeft(a, p, [Word(op)] + Parenthesised(r, rest))
      && ParseExpression(Show(t, LOWEST, rest)) == Parsed(Meaning(t), rest, true)
      && ParseExpression(ShowLeft(a, p, [Word(op)] + Open(r, LOWEST, rest))).expr != Meaning(t)
  {
    ShowParsed(Operation(op, a, r), LOWEST, rest);
    OperationShown(op, a, r, LOWEST, rest);
    RightOperandNeeds(op, a, r, rest);
  }

  lemma RightOperandNeeds(op: Keyword, a: Tree, r: Tree, rest: seq<Token>)
    requires Operation(op, a, r).WellFormed() && r.Operation? && Top(r) <= InfixOperator(op).value.priority && Ends(rest)
    ensures var p := InfixOperator(op).value.priority;
      ParseExpression(ShowLeft(a, p, [Word(op)] + Open(r, LOWEST, rest))).expr
        != Binary(Meaning(a), InfixOperator(op).value, Meaning(r))
  {
    var p, others := InfixOperator(op).value.priority, Open(r, LOWEST, rest);
    LeftParsed(a, p, LOWEST, [Word(op)] + others);
    var right := ParseOperators(others, p + 1);
    LoopStep(op, Meaning(a), others, right, LOWEST);
    var left := OperationHead(r, p + 1, rest, Binary(Meaning(a), InfixOperator(op).value, right.expr));
    LastOperandDiffers(r, left, Call(Meaning(a), Lit(Atom(InfixOperator(op).value.fn))));
  }

  /** An operation is not its own right operand. */
  lemma LastOperandDiffers(r: Tree, left: Expr, fn: Expr)
    requires r.WellFormed() && r.Operation?
    ensures Binary(left, InfixOperator(r.op).value, Meaning(r.right)) != Call(fn, Meaning(r))
  {
    assert Meaning(r.right) < Meaning(r);
  }

  /** A left operand is printed in parentheses when its operator binds less tightly; without them
      the text parses as something else. */
  lemma LeftParenthesesNeeded(op: Keyword, l: Tree, b: Tree, rest: seq<Token>)
    requires Operation(op, l, b).WellFormed() && Top(l) < InfixOperator(op).value.priority && Ends(rest)
    ensures var t, after := Operation(op, l, b), [Word(op)] + Show(b, InfixOperator(op).value.priority + 1, rest);
      && Show(t, LOWEST, rest) == Parenthesised(l, after)
      && ParseExpression(Show(t, LOWEST, rest)) == Parsed(Meaning(t), rest, true)
      && ParseExpression(Open(l, LOWEST, after)).expr != Meaning(t)
  {
    ShowParsed(Operation(op, l, b), LOWEST, rest);
    OperationShown(op, l, b, LOWEST, rest);
    if l.Operation? { LeftOperationNeeds(op, l, b, rest); } else { LeftNegationNeeds(op, l, b, rest); }
  }

  lemma LeftOperationNeeds(op: Keyword, l: Tree, b: Tree, rest: seq<Token>)
    requires Operation(op, l, b).WellFormed() && l.Operation? && Top(l) < InfixOperator(op).value.priority && Ends(rest)
    ensures var after := [Word(op)] + Show(b, InfixOperator(op).value.priority + 1, rest);
      ParseExpression(Open(l, LOWEST, after)).expr != Binary(Meaning(l), InfixOperator(op).value, Meaning(b))
  {
    var after := [Word(op)] + Show(b, InfixOperator(op).value.priority + 1, rest);
    var right := TailRead(l.right, Top(l) + 1, op, b, rest);
    var e := OpenWith(l, LOWEST, after, right, rest);
    FirstOperandDiffers(l, right, Lit(Atom(InfixOperator(op).value.fn)), Meaning(b));
  }

  /** An operation is not its own left operand. */
  lemma FirstOperandDiffers(l: Tree, right: Expr, fn: Expr, b: Expr)
    requires l.WellFormed() && l.Operation?
    ensures Binary(Meaning(l.left), InfixOperator(l.op).value, right) != Call(Call(Meaning(l), fn), b)
  {
    assert Meaning(l.left) < Meaning(l);
  }

  lemma LeftNegationNeeds(op: Keyword, l: Tree, b: Tree, rest: seq<Token>)
    requires Operation(op, l, b).WellFormed() && l.Negation? && Top(l) < InfixOperator(op).value.priority && Ends(rest)
    ensures var after := [Word(op)] + Show(b, InfixOperator(op).value.priority + 1, rest);
      ParseExpression(Open(l, LOWEST, after)).expr != Binary(Meaning(l), InfixOperator(op).value, Meaning(b))
  {
    var after := [Word(op)] + Show(b, InfixOperator(op).value.priority + 1, rest);
    var operand := TailRead(l.operand, Top(l) + 1, op, b, rest);
    PrefixStep(l.op, Show(l.operand, Top(l) + 1, after), Parsed(operand, rest, true), LOWEST);
    NoInfix(Unary(operand, PrefixOperator(l.op).value), rest, LOWEST);
    UnaryIsNoOperation(operand, l, op, b);
  }

  lemma UnaryIsNoOperation(operand: Expr, l: Tree, op: Keyword, b: Tree)
    requires Operated(operand) && l.Negation? && l.WellFormed() && InfixOperator(op).Some?
    ensures Unary(operand, PrefixOperator(l.op).value) != Binary(Meaning(l), InfixOperator(op).value, Meaning(b))
  {
    var k :| ByInfix(operand, k) || ByPrefix(operand, k);
    if ByInfix(operand, k) { NamesDiffer(k, l.op); } else { NamesDiffer(op, k); }
  }

  /** What a prefix operator applies to is printed in parentheses when it is an operation that does
      not bind tighter; without them the text parses as something else. */
  lemma PrefixParenthesesNeeded(op: Keyword, r: Tree, rest: seq<Token>)
    requires Negation(op, r).WellFormed() && r.Operation? && Top(r) <= PrefixOperator(op).value.priority && Ends(rest)
    ensures var t := Negation(op, r);
      && Show(t, LOWEST, rest) == [Word(op)] + Parenthesised(r, rest)
      && ParseExpression(Show(t, LOWEST, rest)) == Parsed(Meaning(t), rest, true)
      && ParseExpression([Word(op)] + Open(r, LOWEST, rest)).expr != Meaning(t)
  {
    ShowParsed(Negation(op, r), LOWEST, rest);
    NegationShown(op, r, rest);
    PrefixOperandNeeds(op, r, rest);
  }

  lemma NegationShown(op: Keyword, r: Tree, rest: seq<Token>)
    requires PrefixOperator(op).Some?
    ensures Show(Negation(op, r), LOWEST, rest) == [Word(op)] + Show(r, PrefixOperator(op).value.priority + 1, rest)
  {
  }

  lemma PrefixOperandNeeds(op: Keyword, r: Tree, rest: seq<Token>)
    requires Negation(op, r).WellFormed() && r.Operation? && Top(r) <= PrefixOperator(op).value.priority && Ends(rest)
    ensures ParseExpression([Word(op)] + Open(r, LOWEST, rest)).expr != Unary(Meaning(r), PrefixOperator(op).value)
  {
    var p, others := PrefixOperator(op).value.priority, Open(r, LOWEST, rest);
    var operand := ParseOperators(others, p + 1);
    PrefixStep(op, others, operand, LOWEST);
    var left := OperationHead(r, p + 1, rest, Unary(operand.expr, PrefixOperator(op).value));
    OperationIsNoUnary(left, r, op);
  }

  lemma OperationIsNoUnary(left: Expr, r: Tree, op: Keyword)
    requires r.WellFormed() && r.Operation? && PrefixOperator(op).Some?
    ensures Binary(left, InfixOperator(r.op).value, Meaning(r.right)) != Unary(Meaning(r), PrefixOperator(op).value)
  {
    NamesDiffer(r.op, op);
  }

  // ---------------------------------------------------------------------------
  // What a postfix applies to.

  /** A postfix, followed by `rest`, whatever it is applied to. */
  ghost predicate IsPostfix(postfix: seq<Token>, rest: seq<Token>) {
    && !At(postfix, Arrow)
    && forall e {:trigger PostfixLoop(e, postfix)} :: PostfixLoop(e, postfix).rest == rest && PostfixLoop(e, postfix).ok
  }

  /** A postfix after an operand applies to the operand's last item; everything up to `rest` is read. */
  lemma {:induction false} PostfixTailRead(y: Tree, q: int, postfix: seq<Token>, rest: seq<Token>) returns (e: Expr)
    requires y.WellFormed() && IsPostfix(postfix, rest) && Infix(rest, q).None? && Separate(rest) && !At(rest, Arrow)
    ensures ParseOperators(Show(y, q, postfix), q) == Parsed(e, rest, true)
    decreases y
  {
    if y.Operation? && Top(y) >= q {
      e := PostfixTailRead(y.right, Top(y) + 1, postfix, rest);
      e := OpenWith(y, q, postfix, e, rest);
    } else if y.Negation? {
      e := PostfixTailRead(y.operand, Max(q, Top(y) + 1), postfix, rest);
      e := NegationWith(y, q, postfix, e, rest);
    } else {
      e := ItemTailRead(y, q, postfix, rest);
    }
  }

  lemma ItemTailRead(y: Tree, q: int, postfix: seq<Token>, rest: seq<Token>) returns (e: Expr)
    requires y.WellFormed() && IsPostfix(postfix, rest) && Infix(rest, q).None?
    requires (y.Operation? && Top(y) < q) || y.IsItem()
    ensures ParseOperators(Show(y, q, postfix), q) == Parsed(e, rest, true)
  {
    if y.IsItem() {
      ItemParsed(y, postfix);
      ItemIsNoPrefix(y, postfix);
    } else {
      ParenthesisedParsed(y, postfix);
    }
    e := PostfixLoop(Meaning(y), postfix).expr;
    NoInfix(e, rest, q);
  }

  /** The tokens of the postfix of `t`. */
  function PostfixTokens(t: Tree, rest: seq<Token>): seq<Token>
    requires t.Member? || t.Apply? || t.Subscript?
  {
    match t
    case Member(_, name) => [Word(Dot)] + ([Identifier(name)] + rest)
    case Apply(_, args) => [Word(OpenParen)] + ShowArguments(args, rest)
    case Subscript(_, index) => [Word(OpenBracket)] + Show(index, LOWEST, [Word(CloseBracket)] + rest)
  }

  function PostfixBase(t: Tree): Tree
    requires t.Member? || t.Apply? || t.Subscript?
  {
    match t
    case Member(base, _) => base
    case Apply(fn, _) => fn
    case Subscript(base, _) => base
  }

  lemma PostfixTokensRead(t: Tree, rest: seq<Token>)
    requires t.WellFormed() && (t.Member? || t.Apply? || t.Subscript?) && Ends(rest)
    ensures IsPostfix(PostfixTokens(t, rest), rest)
  {
    forall e {:trigger PostfixLoop(e, PostfixTokens(t, rest))}
      ensures PostfixLoop(e, PostfixTokens(t, rest)).rest == rest && PostfixLoop(e, PostfixTokens(t, rest)).ok
    {
      match t
      case Member(_, name) =>
        MemberRead(e, name, rest);
        NoPostfix(Call(e, Lit(Atom(name))), rest);
      case Apply(_, args) =>
        ArgumentsParsed(args, rest);
        ArgumentsRead(e, Tuple(Meanings(args)), ShowArguments(args, rest), rest);
        NoPostfix(Call(e, Tuple(Meanings(args))), rest);
      case Subscript(_, index) =>
        ShowParsed(index, LOWEST, [Word(CloseBracket)] + rest);
        SubscriptRead(e, Meaning(index), Show(index, LOWEST, [Word(CloseBracket)] + rest), rest);
        NoPostfix(Subscripted(e, Meaning(index)), rest);
    }
  }

  /** What a postfix applies to is printed in parentheses when it is an operation; without them the
      text parses as something else. */
  lemma BaseParenthesesNeeded(t: Tree, rest: seq<Token>)
    requires t.WellFormed() && (t.Member? || t.Apply? || t.Subscript?) && PostfixBase(t).Operation? && Ends(rest)
    ensures Show(t, LOWEST, rest) == Parenthesised(PostfixBase(t), PostfixTokens(t, rest))
    ensures ParseExpression(Show(t, LOWEST, rest)) == Parsed(Meaning(t), rest, true)
    ensures ParseExpression(Open(PostfixBase(t), LOWEST, PostfixTokens(t, rest))).expr != Meaning(t)
  {
    ShowParsed(t, LOWEST, rest);
    assert Show(t, LOWEST, rest) == ShowItem(t, rest) == ShowBase(PostfixBase(t), PostfixTokens(t, rest));
    BaseNeeds(t, rest);
  }

  lemma BaseNeeds(t: Tree, rest: seq<Token>)
    requires t.WellFormed() && (t.Member? || t.Apply? || t.Subscript?) && PostfixBase(t).Operation? && Ends(rest)
    ensures ParseExpression(Open(PostfixBase(t), LOWEST, PostfixTokens(t, rest))).expr != Meaning(t)
  {
    var base, postfix := PostfixBase(t), PostfixTokens(t, rest);
    PostfixTokensRead(t, rest);
    var right := PostfixTailRead(base.right, Top(base) + 1, postfix, rest);
    var e := OpenWith(base, LOWEST, postfix, right, rest);
    PostfixIsNoOperation(t, base, right);
  }

  lemma PostfixIsNoOperation(t: Tree, base: Tree, right: Expr)
    requires t.WellFormed() && (t.Member? || t.Apply? || t.Subscript?)
    requires base == PostfixBase(t) && base.Operation? && base.WellFormed()
    ensures Binary(Meaning(base.left), InfixOperator(base.op).value, right) != Meaning(t)
  {
    assert Meaning(base.left) < Meaning(base);
    assert Meaning(base) == Binary(Meaning(base.left), InfixOperator(base.op).value, Meaning(base.right));
    NoOwnOperand(Meaning(base.left), Lit(Atom(InfixOperator(base.op).value.fn)), Meaning(base.right));
  }

  lemma NoOwnOperand(a: Expr, f: Expr, b: Expr)
    ensures Call(a, f) != Call(Call(a, f), b)
  {
    var c := Call(a, f);
    assert c < Call(c, b);
  }

  /** It is different for what a prefix operator makes: where the postfix names the operator's own
      function, the text means the same without the parentheses. */
  lemma PrefixedBaseMayDoWithout(x: Tree)
    requires x.WellFormed() && x.IsItem()
    ensures var t, u := Member(Negation(Minus, x), "negate"), Negation(Minus, Member(x, "negate"));
      var postfix := [Word(Dot)] + ([Identifier("negate")] + []);
      && Show(t, LOWEST, []) == Parenthesised(Negation(Minus, x), postfix)
      && Show(u, LOWEST, []) == Open(Negation(Minus, x), LOWEST, postfix)
      && Meaning(t) == Meaning(u)
  {
    var t, u := Member(Negation(Minus, x), "negate"), Negation(Minus, Member(x, "negate"));
    var postfix := [Word(Dot)] + ([Identifier("negate")] + []);
    NegationShown(Minus, Member(x, "negate"), []);
    assert Show(Member(x, "negate"), 7, []) == ShowItem(Member(x, "negate"), []) == ShowBase(x, postfix) == ShowItem(x, postfix);
    assert Open(Negation(Minus, x), LOWEST, postfix) == [Word(Minus)] + Show(x, 7, postfix);
    assert Show(t, LOWEST, []) == ShowItem(t, []);
  }
}
