/** Code trees as arrays of instructions in preorder, and the terms they stand for. */
module CodeTree {
  import opened Values

  const APPLICATION: nat := 0
  const ABSTRACTION: nat := 1
  const FIRST_VARIABLE: nat := 2

  datatype Term = Var(index: nat) | Abs(body: Term) | App(fn: Term, arg: Term)

  /** Number of instructions in the encoding. */
  function Size(t: Term): nat {
    match t
    case Var(_) => 1
    case Abs(body) => 1 + Size(body)
    case App(fn, arg) => 1 + Size(fn) + Size(arg)
  }

  function Encode(t: Term): (code: seq<nat>)
    ensures |code| == Size(t) > 0
  {
    match t
    case Var(index) => [FIRST_VARIABLE + index]
    case Abs(body) => [ABSTRACTION] + Encode(body)
    case App(fn, arg) => [APPLICATION] + Encode(fn) + Encode(arg)
  }

  function EncodeAll(ts: seq<Term>): seq<nat> {
    if ts == [] then [] else Encode(ts[0]) + EncodeAll(ts[1..])
  }

  /** Abstraction depth of every instruction of `t`, when `t` itself sits at depth `d`. */
  function Depths(t: Term, d: nat): (ds: seq<nat>)
    ensures |ds| == Size(t)
  {
    match t
    case Var(_) => [d]
    case Abs(body) => [d] + Depths(body, d + 1)
    case App(fn, arg) => [d] + Depths(fn, d) + Depths(arg, d)
  }

  function DepthsAll(ts: seq<Term>, ds: seq<nat>): seq<nat>
    requires |ts| == |ds|
  {
    if ts == [] then [] else Depths(ts[0], ds[0]) + DepthsAll(ts[1..], ds[1..])
  }

  // ---------------------------------------------------------------------------
  // Reading code from the left.

  /** The `n` terms that `code` encodes one after the other, if there are exactly `n`. */
  function Parse(code: seq<nat>, n: nat): (r: Option<seq<Term>>)
    ensures r.Some? ==> |r.value| == n
  {
    if code == [] then (if n == 0 then Some([]) else None)
    else if n == 0 then None
    else if code[0] == APPLICATION then
      match Parse(code[1..], n + 1)
      case None => None
      case Some(ts) => Some([App(ts[0], ts[1])] + ts[2..])
    else if code[0] == ABSTRACTION then
      match Parse(code[1..], n)
      case None => None
      case Some(ts) => Some([Abs(ts[0])] + ts[1..])
    else
      match Parse(code[1..], n - 1)
      case None => None
      case Some(ts) => Some([Var(code[0] - FIRST_VARIABLE)] + ts)
  }

  lemma {:induction false} ParseSound(code: seq<nat>, n: nat)
    requires Parse(code, n).Some?
    ensures EncodeAll(Parse(code, n).value) == code
  {
    if code != [] {
      if code[0] == APPLICATION {
        ParseSound(code[1..], n + 1);
        EncodeApplication(Parse(code[1..], n + 1).value);
      } else if code[0] == ABSTRACTION {
        ParseSound(code[1..], n);
        EncodeAbstraction(Parse(code[1..], n).value);
      } else {
        ParseSound(code[1..], n - 1);
        EncodeVariable(code[0], Parse(code[1..], n - 1).value);
      }
    }
  }

  lemma EncodeAllCons(t: Term, ts: seq<Term>)
    ensures EncodeAll([t] + ts) == Encode(t) + EncodeAll(ts)
  {
    assert ([t] + ts)[1..] == ts;
  }

  lemma Glue<T>(a: seq<T>, b: seq<T>, c: seq<T>)
    ensures a + (b + c) == a + b + c
  {
  }

  lemma EncodeApplication(us: seq<Term>)
    requires |us| >= 2
    ensures EncodeAll([App(us[0], us[1])] + us[2..]) == [APPLICATION] + EncodeAll(us)
  {
    EncodeAllCons(App(us[0], us[1]), us[2..]);
    assert us[1..][1..] == us[2..];
    Glue(Encode(us[0]), Encode(us[1]), EncodeAll(us[2..]));
    Glue([APPLICATION], Encode(us[0]) + Encode(us[1]), EncodeAll(us[2..]));
    Glue([APPLICATION], Encode(us[0]), Encode(us[1]));
  }

  lemma EncodeAbstraction(us: seq<Term>)
    requires |us| >= 1
    ensures EncodeAll([Abs(us[0])] + us[1..]) == [ABSTRACTION] + EncodeAll(us)
  {
    EncodeAllCons(Abs(us[0]), us[1..]);
    Glue([ABSTRACTION], Encode(us[0]), EncodeAll(us[1..]));
  }

  lemma EncodeVariable(instruction: nat, us: seq<Term>)
    requires instruction >= FIRST_VARIABLE
    ensures EncodeAll([Var(instruction - FIRST_VARIABLE)] + us) == [instruction] + EncodeAll(us)
  {
    EncodeAllCons(Var(instruction - FIRST_VARIABLE), us);
  }

  lemma {:induction false} ParseComplete(ts: seq<Term>)
    ensures Parse(EncodeAll(ts), |ts|) == Some(ts)
    decreases |EncodeAll(ts)|
  {
    if ts != [] {
      var code, rest := EncodeAll(ts), ts[1..];
      match ts[0]
      case App(fn, arg) =>
        var us := [fn, arg] + rest;
        EncodePair(ts, fn, arg, us);
        ParseComplete(us);
      case Abs(body) =>
        var us := [body] + rest;
        assert us[1..] == rest;
        assert code[1..] == EncodeAll(us);
        ParseComplete(us);
        assert [Abs(us[0])] + us[1..] == ts;
      case Var(index) =>
        assert code[1..] == EncodeAll(rest);
        ParseComplete(rest);
        assert [Var(index)] + rest == ts;
    }
  }

  /** The code of an application goes on with that of its two parts. */
  lemma EncodePair(ts: seq<Term>, fn: Term, arg: Term, us: seq<Term>)
    requires ts != [] && ts[0] == App(fn, arg) && us == [fn, arg] + ts[1..]
    ensures EncodeAll(ts) == [APPLICATION] + EncodeAll(us) && [App(us[0], us[1])] + us[2..] == ts
  {
    assert us[2..] == ts[1..];
    assert [App(us[0], us[1])] + us[2..] == ts;
    EncodeApplication(us);
  }

  lemma {:induction false} EncodeAllOne(t: Term)
    ensures EncodeAll([t]) == Encode(t)
  {
    assert [t][1..] == [];
    assert Encode(t) + [] == Encode(t);
  }

  /** `code` is the encoding of a complete term exactly when it parses as one term, and that
      term is then the only one it encodes. */
  lemma {:induction false} EncodesOneTerm(code: seq<nat>)
    ensures (exists t :: Encode(t) == code) <==> Parse(code, 1).Some?
    ensures forall t :: Encode(t) == code <==> Parse(code, 1) == Some([t])
  {
    forall t ensures Encode(t) == code <==> Parse(code, 1) == Some([t]) {
      EncodeAllOne(t);
      ParseComplete([t]);
      if Parse(code, 1) == Some([t]) { ParseSound(code, 1); }
    }
    if Parse(code, 1).Some? {
      var ts := Parse(code, 1).value;
      assert ts == [ts[0]];
      assert Encode(ts[0]) == code;
    }
  }

  // ---------------------------------------------------------------------------
  // Counting the branches still expected.

  /** Branches still to come after reading `code` where `n` were expected; None when
      instructions follow a complete reading. */
  function Pending(code: seq<nat>, n: nat): Option<nat> {
    if code == [] then Some(n)
    else if n == 0 then None
    else Pending(code[1..], if code[0] == APPLICATION then n + 1 else if code[0] == ABSTRACTION then n else n - 1)
  }

  lemma {:induction false} PendingAppend(a: seq<nat>, b: seq<nat>, n: nat)
    ensures Pending(a + b, n) == (match Pending(a, n)
                                  case None => if b == [] then None else Pending(a + b, n)
                                  case Some(m) => Pending(b, m))
    ensures Pending(a, n).None? ==> Pending(a + b, n).None?
    decreases a
  {
    if a == [] {
      assert a + b == b;
    } else {
      assert (a + b)[1..] == a[1..] + b;
      if n > 0 {
        PendingAppend(a[1..], b, if a[0] == APPLICATION then n + 1 else if a[0] == ABSTRACTION then n else n - 1);
      }
      if b == [] { assert a + b == a; }
    }
  }

  lemma {:induction false} PendingIsParse(code: seq<nat>, n: nat)
    ensures Pending(code, n) == Some(0) <==> Parse(code, n).Some?
    decreases code
  {
    if code != [] && n > 0 {
      PendingIsParse(code[1..], if code[0] == APPLICATION then n + 1 else if code[0] == ABSTRACTION then n else n - 1);
    }
  }

  ghost predicate IsTerm(code: seq<nat>) { exists t :: Encode(t) == code }

  lemma {:induction false} TermIffNothingPending(code: seq<nat>)
    ensures IsTerm(code) <==> Pending(code, 1) == Some(0)
  {
    EncodesOneTerm(code);
    PendingIsParse(code, 1);
  }

  /** Find the end of the branch that starts at `start`: the only end position at which the
      slice is a complete term, or the end of the code if the branch never completes. */
  method FindEndOfBranch(code: seq<nat>, start: nat) returns (end: nat)
    requires start <= |code|
    ensures start <= end <= |code|
    ensures IsTerm(code[start..end]) ||
            (end == |code| && forall e | start <= e <= |code| :: !IsTerm(code[start..e]))
    ensures forall e | start <= e <= |code| && IsTerm(code[start..e]) :: e == end
  {
    var expected: nat := 1;
    var pos := start;
    while pos < |code| && expected > 0
      invariant start <= pos <= |code|
      invariant Pending(code[start..pos], 1) == Some(expected)
    {
      PendingAppend(code[start..pos], [code[pos]], 1);
      assert code[start..pos] + [code[pos]] == code[start..pos + 1];
      if code[pos] == APPLICATION {
        expected := expected + 1;
      } else if code[pos] == ABSTRACTION {
      } else {
        expected := expected - 1;
      }
      pos := pos + 1;
    }
    end := pos;
    TermIffNothingPending(code[start..end]);
    forall e | start <= e <= |code| && IsTerm(code[start..e]) ensures e == end {
      TermIffNothingPending(code[start..e]);
      if e < end { NothingFollows(code, start, e, end); }
      if end < e { NothingFollows(code, start, end, e); }
    }
  }

  lemma NothingFollows(code: seq<nat>, start: nat, mid: nat, end: nat)
    requires start <= mid < end <= |code|
    requires Pending(code[start..mid], 1) == Some(0)
    ensures Pending(code[start..end], 1).None?
  {
    PendingAppend(code[start..mid], code[mid..end], 1);
    assert code[start..mid] + code[mid..end] == code[start..end];
  }

  /** Compute the abstraction depth of every instruction; succeeds exactly on the encodings
      of one complete term. */
  method BuildCodeTreeDepths(code: seq<nat>) returns (ok: bool, depths: array<nat>)
    ensures fresh(depths) && depths.Length == |code|
    ensures ok <==> IsTerm(code)
    ensures forall t | Encode(t) == code :: depths[..] == Depths(t, 0)
  {
    depths := new nat[|code|];
    var depthStack: seq<nat> := [0];   // top first
    ghost var all := DepthsFrom(code, [0]);
    assert code[0..] == code;
    for i := 0 to |code|
      invariant DepthsFrom(code, [0]) == all
      invariant all.Some? <==> DepthsFrom(code[i..], depthStack).Some?
      invariant all.Some? ==> all.value == depths[..i] + DepthsFrom(code[i..], depthStack).value
    {
      if depthStack == [] {
        TermDepths(code);
        return false, depths;
      }
      ghost var before := depths[..i];
      var d, ds := depthStack[0], depthStack[1..];
      assert depthStack == [d] + ds;
      depths[i] := d;
      if code[i] == APPLICATION {
        depthStack := [d] + ([d] + ds);
      } else if code[i] == ABSTRACTION {
        depthStack := [d + 1] + ds;
      } else {
        depthStack := ds;
      }
      DepthStep(code, i, before, d, ds);
      assert depths[..i + 1] == before + [d];
    }
    TermDepths(code);
    assert code[|code|..] == [];
    assert depths[..|code|] == depths[..];
    ok := depthStack == [];
  }

  /** The depths of the instructions in `code`, which starts branches at the depths in `stack`;
      None if `code` is not exactly those branches. */
  ghost function DepthsFrom(code: seq<nat>, stack: seq<nat>): Option<seq<nat>> {
    match Parse(code, |stack|)
    case None => None
    case Some(ts) => Some(DepthsAll(ts, stack))
  }

  lemma TermDepths(code: seq<nat>)
    ensures IsTerm(code) <==> DepthsFrom(code, [0]).Some?
    ensures forall t | Encode(t) == code :: DepthsFrom(code, [0]) == Some(Depths(t, 0))
  {
    EncodesOneTerm(code);
    var root := Parse(code, 1);
    if root.Some? {
      assert root.value == [root.value[0]] + [] && [0 as nat] == [0] + [];
      DepthsAllCons(root.value[0], 0, [], []);
      assert Depths(root.value[0], 0) + [] == Depths(root.value[0], 0);
    }
  }

  function After(instruction: nat, d: nat, ds: seq<nat>): seq<nat> {
    if instruction == APPLICATION then [d] + ([d] + ds)
    else if instruction == ABSTRACTION then [d + 1] + ds
    else ds
  }

  /** One turn of the loop: reading an instruction emits the depth on top of the stack and
      leaves a stack that describes the rest of the code. */
  lemma DepthStep(code: seq<nat>, i: nat, before: seq<nat>, d: nat, ds: seq<nat>)
    requires i < |code|
    ensures var now, next := DepthsFrom(code[i..], [d] + ds), DepthsFrom(code[i + 1..], After(code[i], d, ds));
      && now.Some? == next.Some?
      && (now.Some? ==> before + now.value == before + [d] + next.value)
  {
    assert code[i..][1..] == code[i + 1..];
    FirstDepth(code[i..], d, ds);
    var next := DepthsFrom(code[i + 1..], After(code[i], d, ds));
    if next.Some? { Glue(before, [d], next.value); }
  }

  lemma FirstDepth(code: seq<nat>, d: nat, ds: seq<nat>)
    requires code != []
    ensures var now, next := DepthsFrom(code, [d] + ds), DepthsFrom(code[1..], After(code[0], d, ds));
      && now.Some? == next.Some?
      && (now.Some? ==> now.value == [d] + next.value)
  {
    var parsed := Parse(code[1..], |After(code[0], d, ds)|);
    if parsed.Some? {
      if code[0] == APPLICATION {
        StepApplication(parsed.value, d, ds);
      } else if code[0] == ABSTRACTION {
        StepAbstraction(parsed.value, d, ds);
      } else {
        DepthsAllCons(Var(code[0] - FIRST_VARIABLE), d, parsed.value, ds);
      }
    }
  }

  lemma DepthsAllCons(t: Term, d: nat, ts: seq<Term>, ds: seq<nat>)
    requires |ts| == |ds|
    ensures DepthsAll([t] + ts, [d] + ds) == Depths(t, d) + DepthsAll(ts, ds)
  {
    assert ([t] + ts)[1..] == ts && ([d] + ds)[1..] == ds;
  }

  lemma Associate<T>(head: seq<T>, a: seq<T>, b: seq<T>, c: seq<T>)
    ensures head + a + b + c == head + (a + (b + c))
  {
  }

  lemma StepApplication(us: seq<Term>, d: nat, ds: seq<nat>)
    requires |us| == |ds| + 2
    ensures DepthsAll([App(us[0], us[1])] + us[2..], [d] + ds) == [d] + DepthsAll(us, [d] + ([d] + ds))
  {
    var fn, arg, rest := us[0], us[1], us[2..];
    assert us == [fn] + ([arg] + rest);
    DepthsAllCons(App(fn, arg), d, rest, ds);
    DepthsAllCons(arg, d, rest, ds);
    DepthsAllCons(fn, d, [arg] + rest, [d] + ds);
    Associate([d], Depths(fn, d), Depths(arg, d), DepthsAll(rest, ds));
  }

  lemma StepAbstraction(us: seq<Term>, d: nat, ds: seq<nat>)
    requires |us| == |ds| + 1
    ensures DepthsAll([Abs(us[0])] + us[1..], [d] + ds) == [d] + DepthsAll(us, [d + 1] + ds)
  {
    assert us == [us[0]] + us[1..];
    DepthsAllCons(Abs(us[0]), d, us[1..], ds);
    DepthsAllCons(us[0], d + 1, us[1..], ds);
  }

  // ---------------------------------------------------------------------------
  // The subterm that starts at an instruction.

  function SubtermAt(t: Term, i: nat): Term
    requires i < Size(t)
  {
    if i == 0 then t
    else match t
      case Abs(body) => SubtermAt(body, i - 1)
      case App(fn, arg) =>
        if i - 1 < Size(fn) then SubtermAt(fn, i - 1) else SubtermAt(arg, i - 1 - Size(fn))
  }

  function DepthAt(t: Term, d: nat, i: nat): nat
    requires i < Size(t)
  {
    if i == 0 then d
    else match t
      case Abs(body) => DepthAt(body, d + 1, i - 1)
      case App(fn, arg) =>
        if i - 1 < Size(fn) then DepthAt(fn, d, i - 1) else DepthAt(arg, d, i - 1 - Size(fn))
  }

  lemma {:induction false} DepthsIndex(t: Term, d: nat, i: nat)
    requires i < Size(t)
    ensures Depths(t, d)[i] == DepthAt(t, d, i)
  {
    if i > 0 {
      match t
      case Abs(body) => DepthsIndex(body, d + 1, i - 1);
      case App(fn, arg) =>
        if i - 1 < Size(fn) { DepthsIndex(fn, d, i - 1); } else { DepthsIndex(arg, d, i - 1 - Size(fn)); }
    }
  }

  lemma {:induction false} SubtermFits(t: Term, i: nat)
    requires i < Size(t)
    ensures i + Size(SubtermAt(t, i)) <= Size(t)
  {
    if i > 0 {
      match t
      case Abs(body) => SubtermFits(body, i - 1);
      case App(fn, arg) =>
        if i - 1 < Size(fn) { SubtermFits(fn, i - 1); } else { SubtermFits(arg, i - 1 - Size(fn)); }
    }
  }

  lemma {:induction false} SubtermInstruction(t: Term, i: nat, k: nat)
    requires i < Size(t) && k < Size(SubtermAt(t, i))
    ensures i + k < Size(t)
    ensures Encode(t)[i + k] == Encode(SubtermAt(t, i))[k]
  {
    SubtermFits(t, i);
    if i > 0 {
      match t
      case Abs(body) => SubtermInstruction(body, i - 1, k);
      case App(fn, arg) =>
        if i - 1 < Size(fn) {
          SubtermInstruction(fn, i - 1, k);
        } else {
          SubtermInstruction(arg, i - 1 - Size(fn), k);
        }
    }
  }

  /** The subterm at `i` is the branch that starts at instruction `i`. */
  lemma SubtermIsBranch(t: Term, i: nat)
    requires i < Size(t)
    ensures i + Size(SubtermAt(t, i)) <= Size(t)
    ensures Encode(t)[i..i + Size(SubtermAt(t, i))] == Encode(SubtermAt(t, i))
  {
    SubtermFits(t, i);
    forall k | 0 <= k < Size(SubtermAt(t, i))
      ensures Encode(t)[i + k] == Encode(SubtermAt(t, i))[k]
    {
      SubtermInstruction(t, i, k);
    }
  }

  /** The children of the subterm at `i` are the subterms at the expected later positions,
      at the expected depths. */
  lemma SubtermChildren(t: Term, d: nat, i: nat)
    requires i < Size(t)
    ensures i + Size(SubtermAt(t, i)) <= Size(t)
    ensures match SubtermAt(t, i)
            case Var(_) => true
            case Abs(body) =>
              i + 1 < Size(t) && SubtermAt(t, i + 1) == body && DepthAt(t, d, i + 1) == DepthAt(t, d, i) + 1
            case App(fn, arg) =>
              var j := i + 1 + Size(fn);
              && j < Size(t) && SubtermAt(t, i + 1) == fn && SubtermAt(t, j) == arg
              && DepthAt(t, d, i + 1) == DepthAt(t, d, j) == DepthAt(t, d, i)
  {
    SubtermFits(t, i);
    match SubtermAt(t, i)
    case Var(_) =>
    case Abs(_) => AbstractionChild(t, d, i);
    case App(fn, _) => ApplicationChildren(t, d, i, i + 1 + Size(fn));
  }

  lemma {:induction false} AbstractionChild(t: Term, d: nat, i: nat)
    requires i < Size(t) && i + Size(SubtermAt(t, i)) <= Size(t) && SubtermAt(t, i).Abs?
    ensures i + 1 < Size(t) && SubtermAt(t, i + 1) == SubtermAt(t, i).body && DepthAt(t, d, i + 1) == DepthAt(t, d, i) + 1
  {
    if i > 0 {
      match t
      case Abs(body) =>
        SubtermFits(body, i - 1);
        AbstractionChild(body, d + 1, i - 1);
      case App(fn, arg) =>
        if i - 1 < Size(fn) {
          SubtermFits(fn, i - 1);
          AbstractionChild(fn, d, i - 1);
        } else {
          SubtermFits(arg, i - 1 - Size(fn));
          AbstractionChild(arg, d, i - 1 - Size(fn));
        }
    }
  }

  lemma {:induction false} ApplicationChildren(t: Term, d: nat, i: nat, j: nat)
    requires i < Size(t) && SubtermAt(t, i).App? && j == i + 1 + Size(SubtermAt(t, i).fn) < Size(t)
    ensures SubtermAt(t, i + 1) == SubtermAt(t, i).fn && SubtermAt(t, j) == SubtermAt(t, i).arg
    ensures DepthAt(t, d, i + 1) == DepthAt(t, d, j) == DepthAt(t, d, i)
  {
    if i > 0 {
      match t
      case Abs(body) =>
        SubtermFits(body, i - 1);
        ApplicationChildren(body, d + 1, i - 1, j - 1);
      case App(fn, arg) =>
        if i - 1 < Size(fn) {
          SubtermFits(fn, i - 1);
          ApplicationChildren(fn, d, i - 1, j - 1);
        } else {
          SubtermFits(arg, i - 1 - Size(fn));
          ApplicationChildren(arg, d, i - 1 - Size(fn), j - 1 - Size(fn));
        }
    }
  }
}
