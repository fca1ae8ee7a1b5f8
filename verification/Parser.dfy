/** The recursive-descent parser: a cursor that moves over the tokens of one statement. */
module Parser {
  import opened Values
  import opened Source
  import opened Grammar

  class TokenIterator {
    const statement: seq<Token>
    var index: nat
    /** No error has been logged so far. */
    var ok: bool

    ghost predicate Valid()
      reads this`index
    {
      index <= |statement|
    }

    /** The tokens not consumed yet. */
    ghost function Rest(): seq<Token>
      requires Valid()
      reads this`index
    {
      statement[index..]
    }

    ghost predicate Read(was: bool, r: Parsed, e: Expr)
      requires Valid()
      reads this
    {
      e == r.expr && Rest() == r.rest && ok == (was && r.ok)
    }

    /** Reading on as `ahead` says ends where `goal` says, errors so far included. */
    ghost predicate Heading(was: bool, goal: Parsed, ahead: Parsed)
      reads this`ok
    {
      ahead.expr == goal.expr && ahead.rest == goal.rest && (ok && ahead.ok) == (was && goal.ok)
    }

    constructor (statement: seq<Token>)
      ensures Valid() && index == 0 && ok && this.statement == statement && Rest() == statement
    {
      this.statement := statement;
      index := 0;
      ok := true;
    }

    method Next()
      requires Valid() && index < |statement|
      modifies this`index
      ensures Valid() && index == old(index) + 1 && Rest() == old(Rest())[1..]
    {
      index := index + 1;
    }

    predicate AtEnd()
      reads this`index
    {
      index >= |statement|
    }

    predicate LookingAtKeyword(k: Keyword)
      requires Valid()
      reads this`index
      ensures LookingAtKeyword(k) <==> At(Rest(), k)
    {
      index < |statement| && statement[index] == Word(k)
    }

    method TryConsumeKeyword(k: Keyword) returns (found: bool)
      requires Valid()
      modifies this`index
      ensures Valid() && found == At(old(Rest()), k)
      ensures Rest() == if found then old(Rest())[1..] else old(Rest())
    {
      found := LookingAtKeyword(k);
      if found {
        Next();
      }
    }

    method ConsumeKeyword(k: Keyword)
      requires Valid()
      modifies this
      ensures Valid() && ok == (old(ok) && At(old(Rest()), k))
      ensures Rest() == if At(old(Rest()), k) then old(Rest())[1..] else old(Rest())
    {
      var found := TryConsumeKeyword(k);
      if !found {
        ok := false;
      }
    }

    method TryConsumeIdentifier() returns (name: Option<string>)
      requires Valid()
      modifies this`index
      ensures Valid() && (name.Some? <==> old(Rest()) != [] && old(Rest())[0].Identifier?)
      ensures name.Some? ==> old(Rest())[0] == Identifier(name.value)
      ensures Rest() == if name.Some? then old(Rest())[1..] else old(Rest())
    {
      name := None;
      if index < |statement| && statement[index].Identifier? {
        name := Some(statement[index].name);
        Next();
      }
    }

    method ConsumeIdentifier() returns (name: string)
      requires Valid()
      modifies this
      ensures Valid()
      ensures var r := NameHere(old(Rest())); name == r.name && Rest() == r.rest && ok == (old(ok) && r.ok)
    {
      var found := TryConsumeIdentifier();
      match found {
        case Some(text) => name := text;
        case None => name := ""; ok := false;
      }
    }

    method TryConsumePrefixOperator() returns (op: Option<Operator>)
      requires Valid()
      modifies this`index
      ensures Valid() && op == Prefix(old(Rest()))
      ensures Rest() == if op.Some? then old(Rest())[1..] else old(Rest())
    {
      op := None;
      if index < |statement| && statement[index].Word? {
        op := PrefixOperator(statement[index].keyword);
        if op.Some? {
          Next();
        }
      }
    }

    method TryConsumeInfixOperator(min: int) returns (op: Option<Operator>)
      requires Valid()
      modifies this`index
      ensures Valid() && op == Infix(old(Rest()), min)
      ensures Rest() == if op.Some? then old(Rest())[1..] else old(Rest())
    {
      op := None;
      if index < |statement| && statement[index].Word? {
        op := InfixOperator(statement[index].keyword);
        if op.None? || op.value.priority < min {
          op := None;
        } else {
          Next();
        }
      }
    }

    method ParseExpression() returns (e: Expr)
      requires Valid()
      modifies this
      ensures Valid() && Read(old(ok), Grammar.ParseExpression(old(Rest())), e)
      decreases |statement| - index, 5
    {
      e := ParseOperators(LOWEST);
    }

    method ParseOperators(min: int) returns (left: Expr)
      requires Valid()
      modifies this
      ensures Valid() && Read(old(ok), Grammar.ParseOperators(old(Rest()), min), left)
      decreases |statement| - index, 4
    {
      ghost var goal := Grammar.ParseOperators(Rest(), min);
      left := ParseOperand(min);
      while true
        invariant Valid() && index >= old(index)
        invariant Heading(old(ok), goal, InfixLoop(left, Rest(), min))
        decreases |statement| - index
      {
        var op := TryConsumeInfixOperator(min);
        if op.None? {
          return;
        }
        var right := ParseOperators(op.value.priority + 1);
        left := Binary(left, op.value, right);
      }
    }

    method ParseOperand(min: int) returns (left: Expr)
      requires Valid()
      modifies this
      ensures Valid() && Read(old(ok), Grammar.ParseOperand(old(Rest()), min), left)
      decreases |statement| - index, 3
    {
      var prefix := TryConsumePrefixOperator();
      if prefix.Some? {
        left := ParseOperators(Max(min, prefix.value.priority + 1));
        left := Unary(left, prefix.value);
      } else {
        left := ParseItemWithPostfix();
      }
    }

    method ParseItemWithPostfix() returns (e: Expr)
      requires Valid()
      modifies this
      ensures Valid() && Read(old(ok), Grammar.ParseItemWithPostfix(old(Rest())), e)
      decreases |statement| - index, 2
    {
      ghost var goal := Grammar.ParseItemWithPostfix(Rest());
      e := ParseItem();
      while true
        invariant Valid() && index >= old(index)
        invariant Heading(old(ok), goal, PostfixLoop(e, Rest()))
        decreases |statement| - index
      {
        var longer := ParsePostfix(e);
        if longer.None? {
          return;
        }
        e := longer.value;
      }
    }

    method ParsePostfix(base: Expr) returns (e: Option<Expr>)
      requires Valid()
      modifies this
      ensures Valid()
      ensures e.Some? == Grammar.ParsePostfix(base, old(Rest())).Some?
      ensures e.Some? ==> Read(old(ok), Grammar.ParsePostfix(base, old(Rest())).value, e.value)
      ensures e.None? ==> index == old(index) && ok == old(ok)
      decreases |statement| - index, 0
    {
      var found := TryConsumeKeyword(OpenParen);
      if found {
        var arguments := ParseTuple();
        return Some(Call(base, arguments));
      }
      found := TryConsumeKeyword(Dot);
      if found {
        var name := ConsumeIdentifier();
        return Some(Call(base, Lit(Atom(name))));
      }
      found := TryConsumeKeyword(OpenBracket);
      if found {
        var subscript := ParseExpression();
        ConsumeKeyword(CloseBracket);
        return Some(Subscripted(base, subscript));
      }
      e := None;
    }

    method ParseItem() returns (e: Expr)
      requires Valid()
      modifies this
      ensures Valid() && Read(old(ok), Grammar.ParseItem(old(Rest())), e)
      decreases |statement| - index, 1
    {
      if AtEnd() {
        ok := false;
        return Lit(Integer(0));
      }
      match statement[index] {
        case Identifier(name) =>
          Next();
          var lambda := TryConsumeKeyword(Arrow);
          if lambda {
            e := ParseExpression();
            e := Lambda([name], e);
          } else {
            e := Variable(name, 0);
          }
        case Number(i) =>
          Next();
          e := Lit(Integer(i));
        case Quoted(text) =>
          Next();
          e := Lit(Bytes(text));
        case Word(k) =>
          e := ParseWord(k);
      }
    }

    /** An item that begins with a keyword. */
    method ParseWord(k: Keyword) returns (e: Expr)
      requires Valid() && At(Rest(), k)
      modifies this
      ensures Valid() && Read(old(ok), Grammar.ParseWord(k, old(Rest())), e)
      decreases |statement| - index, 0
    {
      match k {
        case AtSign =>
          Next();
          var name := ConsumeIdentifier();
          e := Lit(Atom(name));
        case OpenParen =>
          Next();
          var backup := index;
          var lambda := TryParseFunction();
          match lambda {
            case Some(found) => e := found;
            case None =>
              index := backup;
              e := ParseExpression();
              ConsumeKeyword(CloseParen);
          }
        case ImportWord =>
          Next();
          e := ParseImport();
        case Backslash =>
          var escape := ConsumeEscapes();
          var name := ConsumeIdentifier();
          e := Variable(name, escape);
        case _ =>
          Next();
          ok := false;
          e := Lit(Integer(0));
      }
    }

    /** The path after the word import; without one, the empty path and an error. */
    method ParseImport() returns (e: Expr)
      requires Valid()
      modifies this
      ensures Valid()
      ensures var ts := old(Rest()); if ts != [] && ts[0].Quoted? then
                e == Lit(Import(ts[0].contents)) && Rest() == ts[1..] && ok == old(ok)
              else e == Lit(Import("")) && Rest() == ts && !ok
    {
      if index < |statement| && statement[index].Quoted? {
        e := Lit(Import(statement[index].contents));
        Next();
      } else {
        e := Lit(Import(""));
        ok := false;
      }
    }

    method ConsumeEscapes() returns (escape: nat)
      requires Valid()
      modifies this`index
      ensures Valid() && escape == Escapes(old(Rest())) && Rest() == old(Rest())[escape..]
    {
      escape := 0;
      while LookingAtKeyword(Backslash)
        invariant Valid() && index == old(index) + escape
        invariant escape + Escapes(Rest()) == Escapes(old(Rest()))
        decreases |statement| - index
      {
        Next();
        escape := escape + 1;
      }
    }

    method ParseTuple() returns (e: Expr)
      requires Valid()
      modifies this
      ensures Valid() && Read(old(ok), Grammar.ParseTuple(old(Rest())), e)
      decreases |statement| - index, 7
    {
      var parts: seq<Expr> := [];
      var done := TryConsumeKeyword(CloseParen);
      if !done {
        var part := ParseExpression();
        ghost var before, all := ok, MoreParts([part], Rest());
        parts := [part];
        var more := TryConsumeKeyword(Comma);
        while more
          invariant Valid() && index >= old(index) && |parts| > 0
          invariant ReadingParts(before, all, more, parts)
          decreases |statement| - index, more
        {
          part := ParseExpression();
          parts := parts + [part];
          more := TryConsumeKeyword(Comma);
        }
        ConsumeKeyword(CloseParen);
      }
      e := Tuple(parts);
    }

    /** The parts still to come complete the list `all`; after a comma, `more`, one is due. */
    ghost predicate ReadingParts(was: bool, all: ParsedParts, more: bool, parts: seq<Expr>)
      requires Valid()
      reads this
    {
      if more then
        var part := Grammar.ParseExpression(Rest());
        var ahead := MoreParts(parts + [part.expr], part.rest);
        ahead.parts == all.parts && ahead.rest == all.rest && (ok && part.ok && ahead.ok) == (was && all.ok)
      else parts == all.parts && Rest() == all.rest && ok == (was && all.ok)
    }

    method TryParseFunction() returns (e: Option<Expr>)
      requires Valid()
      modifies this
      ensures Valid() && e.Some? == Grammar.TryParseFunction(old(Rest())).Some?
      ensures e.Some? ==> Read(old(ok), Grammar.TryParseFunction(old(Rest())).value, e.value)
      ensures e.None? ==> ok == old(ok)
      decreases |statement| - index, 6
    {
      var names := ParseParameters();
      if names.None? {
        return None;
      }
      var lambda := TryConsumeKeyword(Arrow);
      if !lambda {
        return None;
      }
      var body := ParseExpression();
      return Some(Lambda(names.value, body));
    }

    method ParseParameters() returns (names: Option<seq<string>>)
      requires Valid()
      modifies this`index
      ensures Valid() && index >= old(index)
      ensures names.Some? == Grammar.ParseParameters(old(Rest())).Some?
      ensures names.Some? ==> Grammar.ParseParameters(old(Rest())).value == ParsedNames(names.value, Rest())
    {
      var list: seq<string> := [];
      var done := TryConsumeKeyword(CloseParen);
      while !done
        invariant Valid() && index >= old(index)
        invariant if done then Grammar.ParseParameters(old(Rest())) == Some(ParsedNames(list, Rest()))
                  else Grammar.ParseParameters(old(Rest())) == MoreParameters(list, Rest())
        decreases |statement| - index, !done
      {
        var name := TryConsumeIdentifier();
        if name.None? {
          return None;
        }
        list := list + [name.value];
        done := TryConsumeKeyword(CloseParen);
        if !done {
          var comma := TryConsumeKeyword(Comma);
          if !comma {
            return None;
          }
        }
      }
      names := Some(list);
    }
  }

  /** Parse a whole statement; `ok` is whether no error was logged, the check for leftover tokens
      included. */
  method ParseStatement(code: seq<Token>) returns (e: Expr, ok: bool)
    ensures var r := Grammar.ParseExpression(code); e == r.expr && ok == (r.ok && r.rest == [])
  {
    var input := new TokenIterator(code);
    e := input.ParseExpression();
    ok := input.ok && input.AtEnd();
  }
}
