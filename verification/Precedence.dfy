/** What operators mean, without reference to the parser's tables: which method of which operand
    they call, and how they group. */
module Precedence {
  import opened Source
  import opened Grammar
  import opened Printing

  const MULTIPLYING := {Star, Slash}
  const ADDING := {Plus, Minus}
  const COMPARING := {Equal, NotEqual, Less, Greater, NotGreater, NotLess}
  const JOINING := {And, Or}

  predicate IsInfix(k: Keyword) { k in MULTIPLYING + ADDING + COMPARING + JOINING }

  predicate Looser(k: Keyword, l: Keyword) {
    || (k in JOINING && l in COMPARING + ADDING + MULTIPLYING)
    || (k in COMPARING && l in ADDING + MULTIPLYING)
    || (k in ADDING && l in MULTIPLYING)
  }

  const METHODS := map[
    Plus := "add", Minus := "subtract", Star := "multiply", Slash := "divide",
    Equal := "equal", NotEqual := "notEqual", Less := "less", Greater := "greater",
    NotGreater := "notGreater", NotLess := "notLess", And := "and", Or := "or"]

  /** The method of `receiver`, called with `arg`. */
  function Invoked(receiver: Expr, name: string, arg: Expr): Expr { Call(Call(receiver, Lit(Atom(name))), arg) }

  /** `a k b` */
  function Infixed(a: Expr, k: Keyword, b: Expr): Expr
    requires k in METHODS
  {
    Invoked(a, METHODS[k], b)
  }

  lemma InfixTable(k: Keyword)
    ensures IsInfix(k) <==> InfixOperator(k).Some?
    ensures IsInfix(k) <==> k in METHODS
    ensures IsInfix(k) ==> InfixOperator(k).value.fn == METHODS[k]
  {
  }

  lemma LooserIsLower(k: Keyword, l: Keyword)
    requires IsInfix(k) && IsInfix(l)
    ensures Looser(k, l) <==> InfixOperator(k).value.priority < InfixOperator(l).value.priority
  {
  }

  lemma OperationMeans(k: Keyword, a: Tree, b: Tree)
    requires IsInfix(k)
    ensures Meaning(Operation(k, a, b)) == Infixed(Meaning(a), k, Meaning(b))
  {
    InfixTable(k);
  }

  /** Multiplying binds tighter than adding, adding than comparing, comparing than `and` and `or`;
      operators that bind alike group to the left.  An operator calls the method of its left operand
      that has its name. */
  lemma InfixGroups(a: Tree, k: Keyword, b: Tree, l: Keyword, c: Tree)
    requires a.WellFormed() && b.WellFormed() && c.WellFormed() && a.IsItem() && b.IsItem() && c.IsItem()
    requires IsInfix(k) && IsInfix(l)
    ensures ParseExpression(ShowItem(a, [Word(k)] + ShowItem(b, [Word(l)] + ShowItem(c, []))))
         == Parsed(if Looser(k, l) then Infixed(Meaning(a), k, Infixed(Meaning(b), l, Meaning(c)))
                   else Infixed(Infixed(Meaning(a), k, Meaning(b)), l, Meaning(c)), [], true)
  {
    InfixTable(k);
    InfixTable(l);
    LooserIsLower(k, l);
    Grouping(a, k, b, l, c);
    if Looser(k, l) {
      OperationMeans(l, b, c);
      OperationMeans(k, a, Operation(l, b, c));
    } else {
      OperationMeans(k, a, b);
      OperationMeans(l, Operation(k, a, b), c);
    }
  }

  /** A minus sign in front takes the item after it; `not` takes everything up to an `and` or `or`. */
  lemma PrefixGroups(a: Tree, l: Keyword, b: Tree)
    requires a.WellFormed() && b.WellFormed() && a.IsItem() && b.IsItem() && IsInfix(l)
    ensures var rest := [Word(l)] + ShowItem(b, []);
      && ParseExpression([Word(Minus)] + ShowItem(a, rest))
           == Parsed(Infixed(Call(Meaning(a), Lit(Atom("negate"))), l, Meaning(b)), [], true)
      && ParseExpression([Word(Not)] + ShowItem(a, rest))
           == Parsed(if l in JOINING then Infixed(Call(Meaning(a), Lit(Atom("not"))), l, Meaning(b))
                     else Call(Infixed(Meaning(a), l, Meaning(b)), Lit(Atom("not"))), [], true)
  {
    PrefixTakes(Minus, a, l, b);
    if l in JOINING { PrefixTakes(Not, a, l, b); } else { NotTakesAll(a, l, b); }
  }

  lemma PrefixTakes(op: Keyword, a: Tree, l: Keyword, b: Tree)
    requires a.WellFormed() && b.WellFormed() && a.IsItem() && b.IsItem() && IsInfix(l)
    requires op == Minus || (op == Not && l in JOINING)
    ensures ParseExpression([Word(op)] + ShowItem(a, [Word(l)] + ShowItem(b, [])))
         == Parsed(Infixed(Call(Meaning(a), Lit(Atom(if op == Minus then "negate" else "not"))), l, Meaning(b)), [], true)
  {
    InfixTable(l);
    var left := Negation(op, a);
    var t := Operation(l, left, b);
    var p := InfixOperator(l).value.priority;
    ItemShown(b, p + 1, []);
    ItemShown(a, Max(p, Top(left) + 1), [Word(l)] + ShowItem(b, []));
    OperationShown(l, left, b, LOWEST, []);
    assert ShowLeft(left, p, [Word(l)] + ShowItem(b, [])) == Open(left, p, [Word(l)] + ShowItem(b, []));
    PrintedParses(t);
    OperationMeans(l, left, b);
  }

  lemma NotTakesAll(a: Tree, l: Keyword, b: Tree)
    requires a.WellFormed() && b.WellFormed() && a.IsItem() && b.IsItem() && IsInfix(l) && l !in JOINING
    ensures ParseExpression([Word(Not)] + ShowItem(a, [Word(l)] + ShowItem(b, [])))
         == Parsed(Call(Infixed(Meaning(a), l, Meaning(b)), Lit(Atom("not"))), [], true)
  {
    InfixTable(l);
    var operand := Operation(l, a, b);
    var t := Negation(Not, operand);
    var p := InfixOperator(l).value.priority;
    ItemShown(b, p + 1, []);
    ItemShown(a, p, [Word(l)] + ShowItem(b, []));
    OperationShown(l, a, b, 4, []);
    assert Max(LOWEST, Top(t) + 1) == 4;
    PrintedParses(t);
    OperationMeans(l, a, b);
  }

  /** A member access applies the item to the member's name; a subscript calls its method `element`;
      an argument standing alone is passed as it is. */
  lemma PostfixesMean(a: Tree, name: string, index: Tree)
    requires a.WellFormed() && index.WellFormed() && a.IsItem()
    ensures ParseExpression(ShowItem(a, [Word(Dot)] + ([Identifier(name)] + [])))
         == Parsed(Call(Meaning(a), Lit(Atom(name))), [], true)
    ensures ParseExpression(ShowItem(a, [Word(OpenBracket)] + Show(index, LOWEST, [Word(CloseBracket)] + [])))
         == Parsed(Invoked(Meaning(a), "element", Meaning(index)), [], true)
    ensures ParseExpression(ShowItem(a, [Word(OpenParen)] + Show(index, LOWEST, [Word(CloseParen)] + [])))
         == Parsed(Call(Meaning(a), Meaning(index)), [], true)
  {
    ItemShown(Member(a, name), LOWEST, []);
    PrintedParses(Member(a, name));
    ItemShown(Subscript(a, index), LOWEST, []);
    PrintedParses(Subscript(a, index));
    ArgumentMeans(a, index);
  }

  lemma ArgumentMeans(a: Tree, arg: Tree)
    requires a.WellFormed() && arg.WellFormed() && a.IsItem()
    ensures ParseExpression(ShowItem(a, [Word(OpenParen)] + Show(arg, LOWEST, [Word(CloseParen)] + [])))
         == Parsed(Call(Meaning(a), Meaning(arg)), [], true)
  {
    var args := [arg];
    var t := Apply(a, args);
    assert args[1..] == [];
    assert Meanings(args) == [Meaning(arg)] + Meanings(args[1..]) == [Meaning(arg)];
    assert ShowArguments(args, []) == Show(arg, LOWEST, MoreArguments(args[1..], [])) == Show(arg, LOWEST, [Word(CloseParen)] + []);
    assert ShowItem(t, []) == ShowBase(a, [Word(OpenParen)] + ShowArguments(args, []));
    ItemShown(t, LOWEST, []);
    PrintedParses(t);
  }
}
