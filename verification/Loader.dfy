/** Loading a code tree: the backward pass that turns instructions into nodes and folds
    applications of constants while it goes. */
module Loader {
  import opened Values
  import opened CodeTree
  import opened Interpreter

  /** Overrun: the loader would read the memory just past the constant table. */
  datatype LoadResult = Loaded(node: Node) | InvalidTree | OutOfFuel | Overrun

  /** A variable of `t` refers to the constant just past the end of a table of `n` constants.
      The loader's bound check lets exactly this one index slip through. */
  predicate ReadsPastEnd(t: Term, depth: nat, n: nat) {
    match t
    case Var(index) => index == depth + n
    case Abs(body) => ReadsPastEnd(body, depth + 1, n)
    case App(fn, arg) => ReadsPastEnd(fn, depth, n) || ReadsPastEnd(arg, depth, n)
  }

  /** The node for the subterm `t` that starts at instruction `at`.  Operands are loaded right
      to left.  `fuel` bounds the calls made while folding. */
  function Load(natives: Natives, fuel: nat, t: Term, at: nat, depth: nat, constants: seq<Val>): LoadResult
  {
    match t
    case Var(index) =>
      if index < depth then Loaded(Variable(index))
      else if index - depth > |constants| then InvalidTree
      else if index - depth == |constants| then Overrun
      else Loaded(Constant(constants[index - depth]))
    case Abs(body) =>
      (match Load(natives, fuel, body, at + 1, depth + 1, constants)
       case Loaded(node) => Loaded(Abstraction(node, at))
       case failed => failed)
    case App(fn, arg) =>
      match Load(natives, fuel, arg, at + 1 + Size(fn), depth, constants)
      case Loaded(a) =>
        (match Load(natives, fuel, fn, at + 1, depth, constants)
         case Loaded(f) => Combine(natives, fuel, f, a)
         case failed => failed)
      case failed => failed
  }

  function Combine(natives: Natives, fuel: nat, f: Node, a: Node): LoadResult {
    if f.Constant? && a.Constant? then
      match Apply(natives, fuel, f.value, a.value)
      case None => OutOfFuel
      case Some(v) => Loaded(Constant(v))
    else Loaded(Application(f, a))
  }

  /** Loading the subterm of `t` at instruction `i`. */
  function LoadAt(natives: Natives, fuel: nat, t: Term, at: nat, d: nat, constants: seq<Val>, i: nat): LoadResult
    requires i < Size(t)
  {
    Load(natives, fuel, SubtermAt(t, i), at + i, DepthAt(t, d, i), constants)
  }

  /** The first failure met from the right decides the outcome of the whole load. */
  lemma {:induction false} RightmostFailureWins(
      natives: Natives, fuel: nat, t: Term, at: nat, d: nat, constants: seq<Val>, i: nat)
    requires i < Size(t)
    requires forall j | i < j < Size(t) :: LoadAt(natives, fuel, t, at, d, constants, j).Loaded?
    requires !LoadAt(natives, fuel, t, at, d, constants, i).Loaded?
    ensures Load(natives, fuel, t, at, d, constants) == LoadAt(natives, fuel, t, at, d, constants, i)
  {
    if i > 0 {
      var below, deeper := at + 1, d + 1;
      match t
      case Abs(body) =>
        forall j | i - 1 < j < Size(body)
          ensures LoadAt(natives, fuel, body, below, deeper, constants, j).Loaded?
        {
          assert LoadAt(natives, fuel, t, at, d, constants, j + 1).Loaded?;
        }
        RightmostFailureWins(natives, fuel, body, below, deeper, constants, i - 1);
      case App(fn, arg) =>
        var m := 1 + Size(fn);
        var beyond := at + m;
        if i < m {
          assert SubtermAt(t, m) == SubtermAt(arg, 0) && DepthAt(t, d, m) == DepthAt(arg, d, 0);
          assert LoadAt(natives, fuel, t, at, d, constants, m)
              == Load(natives, fuel, arg, at + 1 + Size(fn), d, constants);
          forall j | i - 1 < j < Size(fn)
            ensures LoadAt(natives, fuel, fn, below, d, constants, j).Loaded?
          {
            assert LoadAt(natives, fuel, t, at, d, constants, j + 1).Loaded?;
          }
          RightmostFailureWins(natives, fuel, fn, below, d, constants, i - 1);
        } else {
          forall j | i - m < j < Size(arg)
            ensures LoadAt(natives, fuel, arg, beyond, d, constants, j).Loaded?
          {
            assert LoadAt(natives, fuel, t, at, d, constants, m + j).Loaded?;
          }
          RightmostFailureWins(natives, fuel, arg, beyond, d, constants, i - m);
        }
    }
  }

  datatype Progress = Finished(root: Node) | Failed(failure: LoadResult) | NeedsCall(f: Val, a: Val)

  /** The loader's state, kept while the virtual machine evaluates a constant application. */
  class InterpretCodeTreeState {
    const natives: Natives
    const code: seq<nat>
    const constants: seq<Val>
    const depths: array<nat>
    ghost const term: Term
    ghost const fuel: nat

    var currentIndex: int
    var nodeStack: seq<Node>        // top first
    var codeTreeValues: seq<Node>   // nodes for the instructions after currentIndex

    ghost predicate Slot(i: nat, node: Node)
      requires i < Size(term)
    {
      LoadAt(natives, fuel, term, 0, 0, constants, i) == Loaded(node)
    }

    /** `stack` holds the nodes of the branches that tile the code from position `p` on. */
    ghost predicate Tiles(stack: seq<Node>, p: nat)
      requires p <= Size(term)
      decreases Size(term) - p
    {
      if p == Size(term) then stack == []
      else
        SubtermFits(term, p);
        stack != [] && Slot(p, stack[0]) && Tiles(stack[1..], p + Size(SubtermAt(term, p)))
    }

    ghost predicate Consistent()
      reads this, depths
    {
      && Encode(term) == code && depths[..] == Depths(term, 0)
      && -1 <= currentIndex < |code|
      && |codeTreeValues| == |code| - 1 - currentIndex
      && forall k | 0 <= k < |codeTreeValues| :: Slot(currentIndex + 1 + k, codeTreeValues[k])
    }

    ghost predicate Valid()
      reads this, depths
    {
      Consistent() && Tiles(nodeStack, currentIndex + 1)
    }

    /** Both operands of the application at the current instruction have been popped, and the
        application folds to whatever calling `f` on `a` returns. */
    ghost predicate Suspended(f: Val, a: Val)
      reads this, depths
    {
      && Consistent() && currentIndex >= 0
      && LoadAt(natives, fuel, term, 0, 0, constants, currentIndex)
           == Combine(natives, fuel, Constant(f), Constant(a))
      && currentIndex + Size(SubtermAt(term, currentIndex)) <= Size(term)
      && Tiles(nodeStack, currentIndex + Size(SubtermAt(term, currentIndex)))
    }

    constructor (natives: Natives, code: seq<nat>, constants: seq<Val>, depths: array<nat>,
                 ghost term: Term, ghost fuel: nat)
      requires Encode(term) == code && depths[..] == Depths(term, 0)
      ensures Valid()
      ensures this.natives == natives && this.code == code && this.constants == constants
      ensures this.depths == depths && this.term == term && this.fuel == fuel
    {
      this.natives, this.code, this.constants, this.depths := natives, code, constants, depths;
      this.term, this.fuel := term, fuel;
      currentIndex := |code| - 1;
      nodeStack, codeTreeValues := [], [];
    }

    method PushNodeAndAdvance(node: Node)
      requires Consistent() && currentIndex >= 0
      requires Slot(currentIndex, node)
      requires currentIndex + Size(SubtermAt(term, currentIndex)) <= Size(term)
      requires Tiles(nodeStack, currentIndex + Size(SubtermAt(term, currentIndex)))
      modifies this
      ensures Valid() && currentIndex == old(currentIndex) - 1
    {
      ghost var p, rest := currentIndex, nodeStack;
      nodeStack := [node] + nodeStack;
      ghost var later := codeTreeValues;
      codeTreeValues := [node] + codeTreeValues;
      currentIndex := currentIndex - 1;
      assert nodeStack[1..] == rest;
      forall k | 0 <= k < |codeTreeValues| ensures Slot(currentIndex + 1 + k, codeTreeValues[k]) {
        if k > 0 { assert Slot(p + 1 + (k - 1), later[k - 1]); }
      }
      assert Tiles(rest, p + Size(SubtermAt(term, p)));
    }

    /** Load an application whose operands are on the stack, unless it must be folded. */
    method LoadApplication() returns (progress: Option<Progress>)
      requires Valid() && currentIndex >= 0 && SubtermAt(term, currentIndex).App?
      modifies this
      ensures progress.None? ==> Valid() && currentIndex == old(currentIndex) - 1
      ensures progress.Some? ==> progress.value.NeedsCall? && Suspended(progress.value.f, progress.value.a)
      ensures progress.Some? ==> currentIndex == old(currentIndex)
    {
      PopTwo();
      var f, a := nodeStack[0], nodeStack[1];
      nodeStack := nodeStack[2..];
      if f.Constant? && a.Constant? {
        return Some(NeedsCall(f.value, a.value));
      }
      PushNodeAndAdvance(Application(f, a));
      return None;
    }

    method LoadAbstraction()
      requires Valid() && currentIndex >= 0 && SubtermAt(term, currentIndex).Abs?
      modifies this
      ensures Valid() && currentIndex == old(currentIndex) - 1
    {
      PopOne();
      var body := nodeStack[0];
      nodeStack := nodeStack[1..];
      PushNodeAndAdvance(Abstraction(body, currentIndex));
    }

    /** Load a variable; `index` and `depth` are what the code and the depth table say. */
    method LoadVariable(index: nat, depth: nat) returns (failure: Option<LoadResult>)
      requires Valid() && currentIndex >= 0
      requires SubtermAt(term, currentIndex) == Var(index) && DepthAt(term, 0, currentIndex) == depth
      modifies this
      ensures failure.None? ==> Valid() && currentIndex == old(currentIndex) - 1
      ensures failure.Some? ==> !failure.value.Loaded? && Load(natives, fuel, term, 0, 0, constants) == failure.value
    {
      SubtermFits(term, currentIndex);
      if index >= depth {
        if index - depth >= |constants| {
          LaterSlotsLoaded();
          RightmostFailureWins(natives, fuel, term, 0, 0, constants, currentIndex);
          return Some(if index - depth > |constants| then InvalidTree else Overrun);
        }
        PushNodeAndAdvance(Constant(constants[index - depth]));
      } else {
        PushNodeAndAdvance(Variable(index));
      }
      return None;
    }

    /** Work backwards until the tree is complete, a variable is found to be out of range or read from
        outside the table, or a constant application has to be evaluated. */
    method Continue() returns (progress: Progress)
      requires Valid()
      modifies this
      ensures progress.Finished? ==> Valid() && currentIndex == -1 && Slot(0, progress.root)
      ensures progress.Failed? ==> !progress.failure.Loaded? && Load(natives, fuel, term, 0, 0, constants) == progress.failure
      ensures progress.NeedsCall? ==> Suspended(progress.f, progress.a)
      ensures progress.NeedsCall? ==> currentIndex <= old(currentIndex)
    {
      while currentIndex >= 0
        invariant Valid() && currentIndex <= old(currentIndex)
      {
        InstructionAndDepth();
        if code[currentIndex] == APPLICATION {
          var call := LoadApplication();
          if call.Some? { return call.value; }
        } else if code[currentIndex] == ABSTRACTION {
          LoadAbstraction();
        } else {
          var failure := LoadVariable(code[currentIndex] - FIRST_VARIABLE, depths[currentIndex]);
          if failure.Some? { return Failed(failure.value); }
        }
      }
      SubtermFits(term, 0);
      return Finished(nodeStack[0]);
    }

    lemma InstructionAndDepth()
      requires Valid() && currentIndex >= 0
      ensures match SubtermAt(term, currentIndex)
              case Var(index) => code[currentIndex] == FIRST_VARIABLE + index
              case Abs(_) => code[currentIndex] == ABSTRACTION
              case App(_, _) => code[currentIndex] == APPLICATION
      ensures depths.Length == |code| && depths[currentIndex] == DepthAt(term, 0, currentIndex)
    {
      SubtermInstruction(term, currentIndex, 0);
      DepthsIndex(term, 0, currentIndex);
      assert depths[currentIndex] == depths[..][currentIndex];
    }

    lemma LaterSlotsLoaded()
      requires Consistent()
      ensures forall j | currentIndex < j < Size(term) :: LoadAt(natives, fuel, term, 0, 0, constants, j).Loaded?
    {
      forall j | currentIndex < j < Size(term)
        ensures LoadAt(natives, fuel, term, 0, 0, constants, j).Loaded?
      {
        assert Slot(currentIndex + 1 + (j - currentIndex - 1), codeTreeValues[j - currentIndex - 1]);
      }
    }

    /** The two operands of an application are on top of the stack. */
    lemma PopTwo()
      requires Valid() && currentIndex >= 0 && SubtermAt(term, currentIndex).App?
      ensures |nodeStack| >= 2
      ensures LoadAt(natives, fuel, term, 0, 0, constants, currentIndex)
           == Combine(natives, fuel, nodeStack[0], nodeStack[1])
      ensures currentIndex + Size(SubtermAt(term, currentIndex)) <= Size(term)
      ensures Tiles(nodeStack[2..], currentIndex + Size(SubtermAt(term, currentIndex)))
    {
      var i := currentIndex;
      var s := SubtermAt(term, i);
      SubtermChildren(term, 0, i);
      var j := i + 1 + Size(s.fn);
      assert Tiles(nodeStack[1..], j);
      assert nodeStack[1..][1..] == nodeStack[2..];
      assert Slot(i + 1, nodeStack[0]) && Slot(j, nodeStack[1]);
    }

    lemma PopOne()
      requires Valid() && currentIndex >= 0 && SubtermAt(term, currentIndex).Abs?
      ensures nodeStack != []
      ensures LoadAt(natives, fuel, term, 0, 0, constants, currentIndex)
           == Loaded(Abstraction(nodeStack[0], currentIndex))
      ensures currentIndex + Size(SubtermAt(term, currentIndex)) <= Size(term)
      ensures Tiles(nodeStack[1..], currentIndex + Size(SubtermAt(term, currentIndex)))
    {
      SubtermChildren(term, 0, currentIndex);
      assert Slot(currentIndex + 1, nodeStack[0]);
    }
  }

  /** Validate and load a code tree, evaluating constant applications with a call depth of at
      most `fuel`.  Succeeds with the loaded root and a root environment whose last slot holds,
      for every instruction, the node of the branch that starts there. */
  method InterpretCodeTree(natives: Natives, fuel: nat, code: seq<nat>, constants: seq<Val>)
      returns (r: LoadResult, env: Environment)
    ensures !IsTerm(code) ==> r == InvalidTree
    ensures forall t | Encode(t) == code :: r == Load(natives, fuel, t, 0, 0, constants)
    ensures r.Loaded? ==> env.Root? && env.constants == constants && env.code == code && |env.nodes| == |code|
    ensures r.Loaded? ==> forall t, i | Encode(t) == code && 0 <= i < Size(t) ::
              LoadAt(natives, fuel, t, 0, 0, constants, i) == Loaded(env.nodes[i])
  {
    env := Root(constants, code, []);
    var ok, depths := BuildCodeTreeDepths(code);
    if !ok { return InvalidTree, env; }
    ghost var t :| Encode(t) == code;
    EncodesOneTerm(code);
    assert forall u | Encode(u) == code :: u == t;
    r, env := InterpretTerm(natives, fuel, t, code, depths, constants);
  }

  /** Load a code tree known to be the term `t`. */
  method InterpretTerm(natives: Natives, fuel: nat, ghost t: Term, code: seq<nat>, depths: array<nat>, constants: seq<Val>)
      returns (r: LoadResult, env: Environment)
    requires Encode(t) == code && depths[..] == Depths(t, 0)
    ensures r == Load(natives, fuel, t, 0, 0, constants)
    ensures r.Loaded? ==> env.Root? && env.constants == constants && env.code == code && |env.nodes| == |code| == Size(t)
    ensures r.Loaded? ==> forall i | 0 <= i < Size(t) ::
              LoadAt(natives, fuel, t, 0, 0, constants, i) == Loaded(env.nodes[i])
  {
    env := Root(constants, code, []);
    var state := new InterpretCodeTreeState(natives, code, constants, depths, t, fuel);
    var progress := state.Continue();
    while progress.NeedsCall?
      invariant state.term == t && state.fuel == fuel && state.natives == natives
      invariant state.constants == constants && state.code == code && fresh(state)
      invariant progress.Finished? ==> state.Valid() && state.currentIndex == -1 && state.Slot(0, progress.root)
      invariant progress.Failed? ==> !progress.failure.Loaded? && Load(natives, fuel, t, 0, 0, constants) == progress.failure
      invariant progress.NeedsCall? ==> state.Suspended(progress.f, progress.a)
      decreases progress.NeedsCall?, state.currentIndex
    {
      var result := Apply(natives, fuel, progress.f, progress.a);
      if result.None? {
        state.LaterSlotsLoaded();
        RightmostFailureWins(natives, fuel, t, 0, 0, constants, state.currentIndex);
        return OutOfFuel, env;
      }
      state.PushNodeAndAdvance(Constant(result.value));
      progress := state.Continue();
    }
    if progress.Failed? { return progress.failure, env; }
    r := Loaded(progress.root);
    forall i | 0 <= i < Size(t)
      ensures LoadAt(natives, fuel, t, 0, 0, constants, i) == Loaded(state.codeTreeValues[i])
    {
      assert state.Slot(state.currentIndex + 1 + i, state.codeTreeValues[i]);
    }
    env := Root(constants, code, state.codeTreeValues);
  }
}
