/** Sending a function to another machine: its outermost ancestor travels as a slice of code
    with a constant table, the function itself as the values around it and a code offset. */
module Closures {
  import opened Values
  import opened CodeTree
  import opened Interpreter
  import opened Loader
  import opened Folding

  // ---------------------------------------------------------------------------
  // Well-formed run-time values.

  ghost function TermOf(code: seq<nat>): (t: Term)
    requires IsTerm(code)
    ensures Encode(t) == code
    ensures forall u | Encode(u) == code :: u == t
  {
    EncodesOneTerm(code);
    Parse(code, 1).value[0]
  }

  /** The root's node array holds, for every instruction, what loading with `fuel` gives. */
  ghost predicate LoadedRoot(natives: Natives, fuel: nat, constants: seq<Val>, code: seq<nat>, nodes: seq<Node>) {
    && IsTerm(code)
    && |nodes| == Size(TermOf(code))
    && forall i | 0 <= i < |nodes| :: LoadAt(natives, fuel, TermOf(code), 0, 0, constants, i) == Loaded(nodes[i])
  }

  ghost predicate EverLoaded(natives: Natives, constants: seq<Val>, code: seq<nat>, nodes: seq<Node>) {
    exists fuel: nat :: LoadedRoot(natives, fuel, constants, code, nodes)
  }

  /** Instruction `i` of the module runs in an environment of the right depth, made by the
      function whose body contains it. */
  ghost predicate Belongs(env: Environment, i: nat) {
    var code := Bottom(env).code;
    && IsTerm(code) && i < Size(TermOf(code))
    && Depth(env) == DepthAt(TermOf(code), 0, i)
    && (env.Frame? ==> Inside(TermOf(code), env.parent.codeIndex, i))
  }

  predicate Inside(t: Term, outer: nat, i: nat) {
    outer < Size(t) && outer < i < outer + Size(SubtermAt(t, outer))
  }

  ghost predicate WellFormed(natives: Natives, v: Val) {
    match v
    case Data(_, parts) => forall i | 0 <= i < |parts| :: WellFormed(natives, parts[i])
    case Closure(fd) => WellFormedFunction(natives, fd)
  }

  ghost predicate WellFormedFunction(natives: Natives, fd: FunctionData) {
    && WellFormedEnv(natives, fd.environment) && Belongs(fd.environment, fd.codeIndex)
    && var nodes := Bottom(fd.environment).nodes;
    && fd.codeIndex < |nodes| && nodes[fd.codeIndex] == Abstraction(fd.body, fd.codeIndex)
  }

  ghost predicate WellFormedEnv(natives: Natives, env: Environment) {
    match env
    case Root(constants, code, nodes) =>
      && EverLoaded(natives, constants, code, nodes)
      && (forall i | 0 <= i < |constants| :: WellFormed(natives, constants[i]))
      && (forall i | 0 <= i < |nodes| :: WellFormedNode(natives, nodes[i]))
    case Frame(values, parent) =>
      && (forall i | 0 <= i < |values| :: WellFormed(natives, values[i]))
      && WellFormedFunction(natives, parent)
  }

  ghost predicate WellFormedNode(natives: Natives, node: Node) {
    node.Constant? ==> WellFormed(natives, node.value)
  }

  lemma {:induction false} RootOfEnvironment(natives: Natives, env: Environment)
    requires WellFormedEnv(natives, env)
    ensures WellFormedEnv(natives, Bottom(env))
  {
    if env.Frame? { RootOfEnvironment(natives, env.parent.environment); }
  }

  lemma {:induction false} ValuesWellFormed(natives: Natives, env: Environment, i: nat)
    requires WellFormedEnv(natives, env) && i < |Flatten(env)|
    ensures WellFormed(natives, Flatten(env)[i])
  {
    if env.Frame? && i >= |env.values| {
      ValuesWellFormed(natives, env.parent.environment, i - |env.values|);
    }
  }

  // ---------------------------------------------------------------------------
  // Running code keeps values well-formed.

  lemma {:induction false} SubtermOfSubterm(t: Term, d: nat, i: nat, k: nat)
    requires i < Size(t) && k < Size(SubtermAt(t, i))
    ensures i + k < Size(t)
    ensures SubtermAt(t, i + k) == SubtermAt(SubtermAt(t, i), k)
    ensures DepthAt(t, d, i + k) == DepthAt(SubtermAt(t, i), DepthAt(t, d, i), k)
  {
    SubtermFits(t, i);
    if i > 0 {
      match t
      case Abs(body) => SubtermOfSubterm(body, d + 1, i - 1, k);
      case App(fn, arg) =>
        if i - 1 < Size(fn) {
          SubtermFits(fn, i - 1);
          SubtermOfSubterm(fn, d, i - 1, k);
        } else {
          SubtermOfSubterm(arg, d, i - 1 - Size(fn), k);
        }
    }
  }

  /** What a node array says about the operands of an instruction. */
  lemma NodeChildren(natives: Natives, env: Environment, i: nat)
    requires WellFormedEnv(natives, env) && env.Root? && IsTerm(env.code) && i < |env.nodes|
    ensures var t, node := TermOf(env.code), env.nodes[i];
      && |env.nodes| == Size(t)
      && match SubtermAt(t, i)
         case Var(index) => node.Variable? ==> node.index == index
         case Abs(_) => i + 1 < Size(t) && node == Abstraction(env.nodes[i + 1], i)
         case App(fn, _) =>
           i + 1 + Size(fn) < Size(t)
           && (node.Constant? || node == Application(env.nodes[i + 1], env.nodes[i + 1 + Size(fn)]))
    ensures env.nodes[i].Abstraction? ==> SubtermAt(TermOf(env.code), i).Abs?
    ensures env.nodes[i].Application? ==> SubtermAt(TermOf(env.code), i).App?
    ensures env.nodes[i].Variable? ==> SubtermAt(TermOf(env.code), i).Var?
  {
    var fuel: nat :| LoadedRoot(natives, fuel, env.constants, env.code, env.nodes);
    var t := TermOf(env.code);
    SubtermChildren(t, 0, i);
    assert LoadAt(natives, fuel, t, 0, 0, env.constants, i) == Loaded(env.nodes[i]);
  }

  lemma {:induction false} CookWellFormed(natives: Natives, r: Recipe, f: Val, a: Val)
    requires WellFormed(natives, f) && WellFormed(natives, a)
    ensures WellFormed(natives, Cook(r, f, a))
    decreases r
  {
    match r
    case TheFunction =>
    case TheArgument =>
    case Part(whole, _) => CookWellFormed(natives, whole, f, a);
    case Make(tag, ingredients) =>
      forall i | 0 <= i < |ingredients| ensures WellFormed(natives, Cook(ingredients[i], f, a)) {
        CookWellFormed(natives, ingredients[i], f, a);
      }
  }

  /** Entering a well-formed function runs the instruction after its own. */
  lemma EnterWellFormed(natives: Natives, fd: FunctionData, a: Val)
    requires WellFormedFunction(natives, fd) && WellFormed(natives, a)
    ensures var env := Frame([a], fd);
      && WellFormedEnv(natives, env) && Belongs(env, fd.codeIndex + 1)
      && fd.codeIndex + 1 < |Bottom(env).nodes| && fd.body == Bottom(env).nodes[fd.codeIndex + 1]
  {
    var root, t := Bottom(fd.environment), TermOf(Bottom(fd.environment).code);
    RootOfEnvironment(natives, fd.environment);
    NodeChildren(natives, root, fd.codeIndex);
    SubtermOfSubterm(t, 0, fd.codeIndex, 1);
  }

  /** Running any instruction of a loaded module, in any environment it can meet, gives a
      well-formed value. */
  lemma {:induction false} EvaluateWellFormed(natives: Natives, fuel: nat, env: Environment, i: nat)
    requires WellFormedEnv(natives, env) && Belongs(env, i) && i < |Bottom(env).nodes|
    requires Evaluate(natives, fuel, Bottom(env).nodes[i], env).Some?
    ensures WellFormed(natives, Evaluate(natives, fuel, Bottom(env).nodes[i], env).value)
    decreases fuel, 1, Bottom(env).nodes[i]
  {
    var root := Bottom(env);
    RootOfEnvironment(natives, env);
    NodeChildren(natives, root, i);
    match root.nodes[i]
    case Constant(_) => assert WellFormedNode(natives, root.nodes[i]);
    case Variable(index) =>
      if index < |Flatten(env)| { ValuesWellFormed(natives, env, index); }
    case Abstraction(_, _) =>
    case Application(fn, arg) => ApplicationWellFormed(natives, fuel, env, i);
  }

  lemma {:induction false} ApplicationWellFormed(natives: Natives, fuel: nat, env: Environment, i: nat)
    requires WellFormedEnv(natives, env) && Belongs(env, i) && i < |Bottom(env).nodes|
    requires Bottom(env).nodes[i].Application?
    requires Evaluate(natives, fuel, Bottom(env).nodes[i], env).Some?
    ensures WellFormed(natives, Evaluate(natives, fuel, Bottom(env).nodes[i], env).value)
    decreases fuel, 1, Bottom(env).nodes[i], 0
  {
    var root := Bottom(env);
    RootOfEnvironment(natives, env);
    NodeChildren(natives, root, i);
    var node, j := root.nodes[i], i + 1 + Size(SubtermAt(TermOf(root.code), i).fn);
    OperandBelongs(env, i, 1);
    OperandBelongs(env, i, j - i);
    EvaluateWellFormed(natives, fuel, env, j);
    EvaluateWellFormed(natives, fuel, env, i + 1);
    ApplyWellFormed(natives, fuel, Evaluate(natives, fuel, node.fn, env).value, Evaluate(natives, fuel, node.arg, env).value);
  }

  /** The operands of an application run in the same environment as the application. */
  lemma OperandBelongs(env: Environment, i: nat, k: nat)
    requires Belongs(env, i) && SubtermAt(TermOf(Bottom(env).code), i).App?
    requires k == 1 || k == 1 + Size(SubtermAt(TermOf(Bottom(env).code), i).fn)
    ensures Belongs(env, i + k)
  {
    var t := TermOf(Bottom(env).code);
    SubtermOfSubterm(t, 0, i, k);
    if env.Frame? {
      var p := env.parent.codeIndex;
      SubtermOfSubterm(t, 0, p, i - p);
      SubtermFits(SubtermAt(t, p), i - p);
    }
  }

  lemma {:induction false} ApplyWellFormed(natives: Natives, fuel: nat, f: Val, a: Val)
    requires WellFormed(natives, f) && WellFormed(natives, a)
    requires Apply(natives, fuel, f, a).Some?
    ensures WellFormed(natives, Apply(natives, fuel, f, a).value)
    decreases fuel, 0
  {
    match f
    case Closure(fd) =>
      EnterWellFormed(natives, fd, a);
      EvaluateWellFormed(natives, fuel - 1, Frame([a], fd), fd.codeIndex + 1);
    case Data(_, _) =>
      match NativeAction(natives, ShapeOf(f), ShapeOf(a)) {
        case Return(r) => CookWellFormed(natives, r, f, a);
        case TailCall(g, b) =>
          CookWellFormed(natives, g, f, a);
          CookWellFormed(natives, b, f, a);
          ApplyWellFormed(natives, fuel - 1, Cook(g, f, a), Cook(b, f, a));
      }
  }

  // ---------------------------------------------------------------------------
  // Loading a module.

  lemma {:induction false} LoadMore(natives: Natives, fuel: nat, more: nat, t: Term, at: nat, depth: nat, constants: seq<Val>)
    requires fuel <= more
    requires Load(natives, fuel, t, at, depth, constants) != OutOfFuel
    ensures Load(natives, more, t, at, depth, constants) == Load(natives, fuel, t, at, depth, constants)
    decreases t
  {
    match t
    case Var(_) =>
    case Abs(body) => LoadMore(natives, fuel, more, body, at + 1, depth + 1, constants);
    case App(fn, arg) =>
      LoadMore(natives, fuel, more, arg, at + 1 + Size(fn), depth, constants);
      if Load(natives, fuel, arg, at + 1 + Size(fn), depth, constants).Loaded? {
        LoadMore(natives, fuel, more, fn, at + 1, depth, constants);
        if Load(natives, fuel, fn, at + 1, depth, constants).Loaded? {
          var f, a := Load(natives, fuel, fn, at + 1, depth, constants).node, Load(natives, fuel, arg, at + 1 + Size(fn), depth, constants).node;
          if f.Constant? && a.Constant? { MoreFuelApply(natives, fuel, more, f.value, a.value); }
        }
      }
  }

  /** If the whole tree loads, so does every branch of it. */
  lemma {:induction false} BranchesLoad(natives: Natives, fuel: nat, t: Term, at: nat, depth: nat, constants: seq<Val>, i: nat)
    requires i < Size(t)
    requires Load(natives, fuel, t, at, depth, constants).Loaded?
    ensures LoadAt(natives, fuel, t, at, depth, constants, i).Loaded?
    decreases t
  {
    if i > 0 {
      match t
      case Abs(body) => BranchesLoad(natives, fuel, body, at + 1, depth + 1, constants, i - 1);
      case App(fn, arg) =>
        if i - 1 < Size(fn) {
          BranchesLoad(natives, fuel, fn, at + 1, depth, constants, i - 1);
        } else {
          BranchesLoad(natives, fuel, arg, at + 1 + Size(fn), depth, constants, i - 1 - Size(fn));
        }
    }
  }

  ghost function NodesOf(natives: Natives, fuel: nat, t: Term, constants: seq<Val>): (nodes: seq<Node>)
    requires Load(natives, fuel, t, 0, 0, constants).Loaded?
    ensures |nodes| == Size(t)
    ensures forall i | 0 <= i < Size(t) :: LoadAt(natives, fuel, t, 0, 0, constants, i) == Loaded(nodes[i])
  {
    assert forall i | 0 <= i < Size(t) :: LoadAt(natives, fuel, t, 0, 0, constants, i).Loaded? by {
      forall i | 0 <= i < Size(t) ensures LoadAt(natives, fuel, t, 0, 0, constants, i).Loaded? {
        BranchesLoad(natives, fuel, t, 0, 0, constants, i);
      }
    }
    seq(Size(t), i requires 0 <= i < Size(t) => LoadAt(natives, fuel, t, 0, 0, constants, i).node)
  }

  const INVALID_TREE: Val := Error("Module's code tree is invalid.")

  /** The value of a module: load its code, then run the first instruction in a root environment
      that holds the constants and the loaded nodes.  None if evaluation runs out of fuel, or if
      the loader reads the place just past the end of the constants. */
  ghost function ModuleValue(natives: Natives, fuel: nat, code: seq<nat>, constants: seq<Val>): Option<Val> {
    if !IsTerm(code) then Some(INVALID_TREE)
    else match Load(natives, fuel, TermOf(code), 0, 0, constants)
      case InvalidTree => Some(INVALID_TREE)
      case OutOfFuel => None
      case Overrun => None
      case Loaded(node) =>
        Evaluate(natives, fuel, node, Root(constants, code, NodesOf(natives, fuel, TermOf(code), constants)))
  }

  /** Constants that folding produces are well-formed. */
  lemma {:induction false} LoadWellFormed(natives: Natives, fuel: nat, t: Term, at: nat, depth: nat, constants: seq<Val>)
    requires Load(natives, fuel, t, at, depth, constants).Loaded?
    requires forall i | 0 <= i < |constants| :: WellFormed(natives, constants[i])
    ensures WellFormedNode(natives, Load(natives, fuel, t, at, depth, constants).node)
    decreases t
  {
    match t
    case Var(_) =>
    case Abs(_) =>
    case App(fn, arg) =>
      LoadWellFormed(natives, fuel, arg, at + 1 + Size(fn), depth, constants);
      LoadWellFormed(natives, fuel, fn, at + 1, depth, constants);
      var f, a := Load(natives, fuel, fn, at + 1, depth, constants).node, Load(natives, fuel, arg, at + 1 + Size(fn), depth, constants).node;
      if f.Constant? && a.Constant? { ApplyWellFormed(natives, fuel, f.value, a.value); }
  }

  lemma RootWellFormed(natives: Natives, fuel: nat, code: seq<nat>, constants: seq<Val>)
    requires IsTerm(code)
    requires Load(natives, fuel, TermOf(code), 0, 0, constants).Loaded?
    requires forall i | 0 <= i < |constants| :: WellFormed(natives, constants[i])
    ensures WellFormedEnv(natives, Root(constants, code, NodesOf(natives, fuel, TermOf(code), constants)))
  {
    var t := TermOf(code);
    var nodes := NodesOf(natives, fuel, t, constants);
    assert LoadedRoot(natives, fuel, constants, code, nodes);
    forall i | 0 <= i < |nodes| ensures WellFormedNode(natives, nodes[i]) {
      assert LoadAt(natives, fuel, t, 0, 0, constants, i) == Loaded(nodes[i]);
      LoadWellFormed(natives, fuel, SubtermAt(t, i), 0 + i, DepthAt(t, 0, i), constants);
    }
  }

  /** Modules with well-formed constants have well-formed values. */
  lemma ModuleWellFormed(natives: Natives, fuel: nat, code: seq<nat>, constants: seq<Val>)
    requires forall i | 0 <= i < |constants| :: WellFormed(natives, constants[i])
    requires ModuleValue(natives, fuel, code, constants).Some?
    ensures WellFormed(natives, ModuleValue(natives, fuel, code, constants).value)
  {
    if IsTerm(code) && Load(natives, fuel, TermOf(code), 0, 0, constants).Loaded? {
      var t := TermOf(code);
      var root := Root(constants, code, NodesOf(natives, fuel, t, constants));
      RootWellFormed(natives, fuel, code, constants);
      assert LoadAt(natives, fuel, t, 0, 0, constants, 0) == Loaded(root.nodes[0]);
      EvaluateWellFormed(natives, fuel, root, 0);
    }
  }

  // ---------------------------------------------------------------------------
  // The message.

  datatype Wire =
    | WireData(tag: Tag, parts: seq<Wire>)
    | WireFunction(environment: seq<Wire>, code: seq<nat>)
    | WireChild(environment: seq<Wire>, parent: Wire, offset: int)

  /** The oldest function around an environment: the one that runs in the root. */
  function Outermost(env: Environment): (fd: FunctionData)
    requires env.Frame?
    ensures env decreases to fd
    ensures fd.environment == Bottom(env)
  {
    if env.parent.environment.Root? then env.parent else Outermost(env.parent.environment)
  }

  /** The instructions of the branch that starts at `start`. */
  ghost function Branch(code: seq<nat>, start: nat): (branch: seq<nat>)
    ensures forall end | start <= end <= |code| && IsTerm(code[start..end]) :: branch == code[start..end]
  {
    if exists end :: start <= end <= |code| && IsTerm(code[start..end]) then
      var end :| start <= end <= |code| && IsTerm(code[start..end]);
      assert forall e | start <= e <= |code| && IsTerm(code[start..e]) :: e == end by {
        forall e | start <= e <= |code| && IsTerm(code[start..e]) ensures e == end {
          TermIffNothingPending(code[start..e]);
          TermIffNothingPending(code[start..end]);
          if e < end { NothingFollows(code, start, e, end); }
          if end < e { NothingFollows(code, start, end, e); }
        }
      }
      code[start..end]
    else if start <= |code| then code[start..] else []
  }

  ghost function Marshal(v: Val): Wire
    decreases v
  {
    match v
    case Data(tag, parts) => WireData(tag, seq(|parts|, i requires 0 <= i < |parts| => Marshal(parts[i])))
    case Closure(fd) => MarshalFunction(fd)
  }

  ghost function MarshalFunction(fd: FunctionData): Wire
    decreases fd
  {
    match fd.environment
    case Root(constants, code, _) =>
      WireFunction(seq(|constants|, i requires 0 <= i < |constants| => Marshal(constants[i])), Branch(code, fd.codeIndex))
    case Frame(_, _) =>
      var env := fd.environment;
      FlattenLength(env);
      WireChild(seq(Depth(env), i requires 0 <= i < Depth(env) => LookupSmaller(env, i); Marshal(Flatten(env)[i])),
                MarshalFunction(Outermost(env)), fd.codeIndex - Outermost(env).codeIndex)
  }

  /** What to run to get the function at `offset` instructions after its ancestor `parent`, or
      the error to deliver instead. */
  datatype SubFunction = Enter(node: Node, environment: Environment) | Refuse(error: Val)

  function FindSubFunction(parent: Val, offset: int, values: seq<Val>): SubFunction {
    if parent.Data? && parent.tag.ErrorTag? then Refuse(parent)
    else if !parent.Closure? then Refuse(Error("GetSubFunction() called on non-function."))
    else
      var nodes, index := Bottom(parent.c.environment).nodes, parent.c.codeIndex + offset;
      if index < 0 || index >= |nodes| then Refuse(Error("code_tree_index out-of-bounds when calling GetSubFunction()."))
      else Enter(nodes[index], Frame(values, parent.c))
  }

  ghost function Rebuild(natives: Natives, fuel: nat, w: Wire): Option<Val>
    decreases w
  {
    match w
    case WireData(tag, parts) =>
      if forall i | 0 <= i < |parts| :: Rebuild(natives, fuel, parts[i]).Some? then
        Some(Data(tag, seq(|parts|, i requires 0 <= i < |parts| => Rebuild(natives, fuel, parts[i]).value)))
      else None
    case WireFunction(environment, code) =>
      if forall i | 0 <= i < |environment| :: Rebuild(natives, fuel, environment[i]).Some? then
        ModuleValue(natives, fuel, code,
                    seq(|environment|, i requires 0 <= i < |environment| => Rebuild(natives, fuel, environment[i]).value))
      else None
    case WireChild(environment, parent, offset) =>
      if Rebuild(natives, fuel, parent).Some?
         && forall i | 0 <= i < |environment| :: Rebuild(natives, fuel, environment[i]).Some?
      then
        var values := seq(|environment|, i requires 0 <= i < |environment| => Rebuild(natives, fuel, environment[i]).value);
        match FindSubFunction(Rebuild(natives, fuel, parent).value, offset, values)
        case Enter(node, env) => Evaluate(natives, fuel, node, env)
        case Refuse(error) => Some(error)
      else None
  }

  // ---------------------------------------------------------------------------
  // The imperative forms.

  /** Flatten an environment: everything above the constants and the oldest function around
      them, or, when there is no function around it, the constants. */
  method ToVector(env: Environment) returns (values: seq<Val>, outer: Option<FunctionData>)
    ensures env.Root? ==> values == env.constants && outer.None?
    ensures env.Frame? ==> |Flatten(env)| >= Depth(env) && values == Flatten(env)[..Depth(env)]
    ensures env.Frame? ==> outer == Some(Outermost(env))
  {
    values, outer := [], None;
    var frame := env;
    FlattenLength(env);
    while frame.Frame?
      invariant |values| <= Depth(env) && Depth(frame) == Depth(env) - |values|
      invariant Flatten(env) == values + Flatten(frame) && Bottom(frame) == Bottom(env)
      invariant outer.None? ==> frame == env
      invariant outer.Some? ==> env.Frame? && frame == outer.value.environment
      invariant outer.Some? && frame.Root? ==> outer.value == Outermost(env)
      invariant outer.Some? && frame.Frame? ==> Outermost(frame) == Outermost(env)
      decreases frame
    {
      Glue(values, frame.values, Flatten(frame.parent.environment));
      values := values + frame.values;
      outer := Some(frame.parent);
      frame := frame.parent.environment;
    }
    FlattenLength(frame);
    if env.Root? { values := frame.constants; }
  }

  /** What a function's message holds, before its values are marshalled in turn. */
  datatype Message =
    | OuterFunction(constants: seq<Val>, code: seq<nat>)
    | ChildFunction(values: seq<Val>, parent: FunctionData, offset: int)

  method DescribeFunction(fd: FunctionData) returns (m: Message)
    requires fd.codeIndex <= |Bottom(fd.environment).code|
    ensures fd.environment.Root? ==> m == OuterFunction(fd.environment.constants, Branch(fd.environment.code, fd.codeIndex))
    ensures fd.environment.Frame? ==> |Flatten(fd.environment)| >= Depth(fd.environment)
    ensures fd.environment.Frame? ==>
      m == ChildFunction(Flatten(fd.environment)[..Depth(fd.environment)], Outermost(fd.environment),
                         fd.codeIndex - Outermost(fd.environment).codeIndex)
  {
    var values, outer := ToVector(fd.environment);
    if outer.None? {
      var code := fd.environment.code;
      var end := FindEndOfBranch(code, fd.codeIndex);
      BranchEnds(code, fd.codeIndex, end);
      m := OuterFunction(values, code[fd.codeIndex..end]);
    } else {
      m := ChildFunction(values, outer.value, fd.codeIndex - outer.value.codeIndex);
    }
  }

  lemma BranchEnds(code: seq<nat>, start: nat, end: nat)
    requires start <= end <= |code|
    requires IsTerm(code[start..end]) || (end == |code| && forall e | start <= e <= |code| :: !IsTerm(code[start..e]))
    ensures code[start..end] == Branch(code, start)
  {
    if !IsTerm(code[start..end]) { assert code[start..] == code[start..end]; }
  }

  method GetSubFunction(parent: Val, offset: int, values: seq<Val>, callback: Word) returns (next: Registers)
    ensures next == match FindSubFunction(parent, offset, values)
                    case Enter(node, env) => Start(node, env, callback)
                    case Refuse(error) => Interpreter.Deliver(callback, error)
  {
    if parent.Data? {
      if parent.tag.ErrorTag? { return Interpreter.Deliver(callback, parent); }
      return Interpreter.Deliver(callback, Error("GetSubFunction() called on non-function."));
    }
    var index := parent.c.codeIndex + offset;
    var environment := parent.c.environment;
    while environment.Frame?
      invariant Bottom(environment) == Bottom(parent.c.environment)
      decreases environment
    {
      environment := environment.parent.environment;
    }
    if index < 0 || index >= |environment.nodes| {
      return Interpreter.Deliver(callback, Error("code_tree_index out-of-bounds when calling GetSubFunction()."));
    }
    return Start(environment.nodes[index], Frame(values, parent.c), callback);
  }

  // ---------------------------------------------------------------------------
  // Loading a slice of the code on equivalent constants.

  /** Loading succeeds again on equivalent constants, and gives equivalent code in which the
      same applications have been folded. */
  lemma {:induction false} LoadEquivalent(natives: Natives, fuel: nat, t: Term, at: nat, at': nat, depth: nat,
                                          k: seq<Val>, k': seq<Val>)
    requires EquivalentTables(natives, k, k')
    requires Load(natives, fuel, t, at, depth, k).Loaded?
    ensures Load(natives, fuel, t, at', depth, k').Loaded?
    ensures var n, n' := Load(natives, fuel, t, at, depth, k).node, Load(natives, fuel, t, at', depth, k').node;
      EquivalentCode(natives, n, n', depth) && n.Constant? == n'.Constant?
    decreases t
  {
    match t
    case Var(_) =>
    case Abs(body) => LoadEquivalent(natives, fuel, body, at + 1, at' + 1, depth + 1, k, k');
    case App(fn, arg) =>
      LoadEquivalent(natives, fuel, arg, at + 1 + Size(fn), at' + 1 + Size(fn), depth, k, k');
      LoadEquivalent(natives, fuel, fn, at + 1, at' + 1, depth, k, k');
      var f, f' := Load(natives, fuel, fn, at + 1, depth, k).node, Load(natives, fuel, fn, at' + 1, depth, k').node;
      var a := Load(natives, fuel, arg, at + 1 + Size(fn), depth, k).node;
      var a' := Load(natives, fuel, arg, at' + 1 + Size(fn), depth, k').node;
      if f.Constant? && a.Constant? { FoldedCallTerminates(natives, fuel, f.value, a.value, f'.value, a'.value); }
  }

  /** A function found in a loaded module, seen as the module's own branch. */
  lemma OuterSlice(natives: Natives, fd: FunctionData)
    requires WellFormedFunction(natives, fd) && fd.environment.Root?
    ensures var code := fd.environment.code;
      var u := SubtermAt(TermOf(code), fd.codeIndex);
      && u.Abs? && DepthAt(TermOf(code), 0, fd.codeIndex) == 0
      && Branch(code, fd.codeIndex) == Encode(u) && IsTerm(Encode(u)) && TermOf(Encode(u)) == u
  {
    var env := fd.environment;
    var t := TermOf(env.code);
    NodeChildren(natives, env, fd.codeIndex);
    SubtermIsBranch(t, fd.codeIndex);
    var u := SubtermAt(t, fd.codeIndex);
    assert IsTerm(Encode(u));
    var fuel: nat :| LoadedRoot(natives, fuel, env.constants, env.code, env.nodes);
  }

  /** The function that a module consisting of the abstraction `u` evaluates to. */
  ghost function RebuiltOuter(natives: Natives, fuel: nat, u: Term, k: seq<Val>): FunctionData
    requires Load(natives, fuel, u, 0, 0, k).Loaded?
    requires Load(natives, fuel, u, 0, 0, k).node.Abstraction?
  {
    FunctionData(Root(k, Encode(u), NodesOf(natives, fuel, u, k)), Load(natives, fuel, u, 0, 0, k).node.body, 0)
  }

  /** The slice of an outermost function, as it loads again on the constants `k`. */
  ghost predicate Reloads(natives: Natives, fuel: nat, fd: FunctionData, u: Term, k: seq<Val>) {
    && fd.environment.Root? && u.Abs? && IsTerm(Encode(u)) && TermOf(Encode(u)) == u
    && Branch(fd.environment.code, fd.codeIndex) == Encode(u)
    && EquivalentTables(natives, fd.environment.constants, k)
    && Load(natives, fuel, u, 0, 0, k).Loaded? && Load(natives, fuel, u, 0, 0, k).node.Abstraction?
    && EquivalentVal(natives, Closure(fd), Closure(RebuiltOuter(natives, fuel, u, k)))
    && ModuleValue(natives, fuel, Encode(u), k) == Some(Closure(RebuiltOuter(natives, fuel, u, k)))
  }

  lemma OuterRebuilt(natives: Natives, fuel: nat, fd: FunctionData, k: seq<Val>)
    requires WellFormedFunction(natives, fd) && fd.environment.Root?
    requires LoadedRoot(natives, fuel, fd.environment.constants, fd.environment.code, fd.environment.nodes)
    requires EquivalentTables(natives, fd.environment.constants, k)
    ensures Reloads(natives, fuel, fd, SubtermAt(TermOf(fd.environment.code), fd.codeIndex), k)
  {
    var env := fd.environment;
    var t := TermOf(env.code);
    var u := SubtermAt(t, fd.codeIndex);
    OuterSlice(natives, fd);
    assert LoadAt(natives, fuel, t, 0, 0, env.constants, fd.codeIndex) == Loaded(env.nodes[fd.codeIndex]);
    LoadEquivalent(natives, fuel, u, 0 + fd.codeIndex, 0, 0, env.constants, k);
    var nodes := NodesOf(natives, fuel, u, k);
    assert LoadAt(natives, fuel, u, 0, 0, k, 0) == Loaded(nodes[0]);
  }

  lemma InsideInside(t: Term, a: nat, b: nat, c: nat)
    requires Inside(t, a, b) && Inside(t, b, c)
    ensures Inside(t, a, c)
  {
    SubtermOfSubterm(t, 0, a, b - a);
    SubtermFits(SubtermAt(t, a), b - a);
  }

  /** The oldest function around an instruction has that instruction in its branch. */
  lemma {:induction false} OutermostContains(natives: Natives, env: Environment, i: nat)
    requires WellFormedEnv(natives, env) && Belongs(env, i) && env.Frame?
    ensures WellFormedFunction(natives, Outermost(env))
    ensures Inside(TermOf(Bottom(env).code), Outermost(env).codeIndex, i)
  {
    var parent := env.parent;
    if parent.environment.Frame? {
      OutermostContains(natives, parent.environment, parent.codeIndex);
      InsideInside(TermOf(Bottom(env).code), Outermost(env).codeIndex, parent.codeIndex, i);
    }
  }

  /** An abstraction loaded from inside a branch is loaded again from the branch alone. */
  lemma SliceNode(natives: Natives, fuel: nat, t: Term, a: nat, b: nat, constants: seq<Val>, k: seq<Val>, body: Node)
    requires Inside(t, a, b) && DepthAt(t, 0, a) == 0
    requires b < Size(t) && LoadAt(natives, fuel, t, 0, 0, constants, b) == Loaded(Abstraction(body, b))
    requires EquivalentTables(natives, constants, k)
    requires var u := SubtermAt(t, a); Load(natives, fuel, u, 0, 0, k).Loaded?
    ensures var u, offset := SubtermAt(t, a), b - a;
      && offset < Size(u) && DepthAt(u, 0, offset) == DepthAt(t, 0, b)
      && var node := NodesOf(natives, fuel, u, k)[offset];
         node.Abstraction? && node.codeIndex == offset
         && EquivalentCode(natives, body, node.body, DepthAt(t, 0, b) + 1)
  {
    var u, offset := SubtermAt(t, a), b - a;
    SubtermOfSubterm(t, 0, a, offset);
    LoadEquivalent(natives, fuel, SubtermAt(u, offset), 0 + b, 0 + offset, DepthAt(t, 0, b), constants, k);
    assert LoadAt(natives, fuel, u, 0, 0, k, offset) == Loaded(NodesOf(natives, fuel, u, k)[offset]);
  }

  /** The node that made a child function is the one loaded at its instruction. */
  lemma ChildLoaded(natives: Natives, fuel: nat, fd: FunctionData, p: FunctionData)
    requires WellFormedFunction(natives, fd) && fd.environment.Frame? && p == Outermost(fd.environment) && p.environment.Root?
    requires LoadedRoot(natives, fuel, p.environment.constants, p.environment.code, p.environment.nodes)
    ensures var t := TermOf(p.environment.code);
      && fd.codeIndex < Size(t) && DepthAt(t, 0, fd.codeIndex) == Depth(fd.environment)
      && LoadAt(natives, fuel, t, 0, 0, p.environment.constants, fd.codeIndex) == Loaded(Abstraction(fd.body, fd.codeIndex))
  {
    assert Bottom(fd.environment) == p.environment && Belongs(fd.environment, fd.codeIndex);
    assert p.environment.nodes[fd.codeIndex] == Abstraction(fd.body, fd.codeIndex);
  }

  lemma OneFrameEquivalent(natives: Natives, env: Environment, values: seq<Val>, fd: FunctionData)
    requires fd.environment.Root? && |values| == Depth(env) <= |Flatten(env)|
    requires forall i | 0 <= i < |values| :: EquivalentVal(natives, Flatten(env)[i], values[i])
    ensures EquivalentEnv(natives, env, Frame(values, fd)) && Bottom(Frame(values, fd)) == fd.environment
  {
    var after := Frame(values, fd);
    FlattenLength(env);
    FlattenLength(after);
    forall i | 0 <= i < Depth(after) ensures EquivalentVal(natives, Flatten(env)[i], Flatten(after)[i]) {
      assert Flatten(after)[i] == values[i];
    }
  }

  /** Entering a node of the rebuilt parent that is equivalent to the function's own. */
  lemma ChildEntered(natives: Natives, fuel: nat, fd: FunctionData, rebuilt: FunctionData, u: Term, offset: int, values: seq<Val>)
    requires rebuilt.environment.Root? && rebuilt.codeIndex == 0 && IsTerm(rebuilt.environment.code)
    requires TermOf(rebuilt.environment.code) == u && |rebuilt.environment.nodes| == Size(u)
    requires 0 < offset < Size(u) && DepthAt(u, 0, offset) == Depth(fd.environment)
    requires var node := rebuilt.environment.nodes[offset];
      node.Abstraction? && node.codeIndex == offset && EquivalentCode(natives, fd.body, node.body, Depth(fd.environment) + 1)
    requires |values| == Depth(fd.environment) <= |Flatten(fd.environment)|
    requires forall i | 0 <= i < |values| :: EquivalentVal(natives, Flatten(fd.environment)[i], values[i])
    ensures var found := FindSubFunction(Closure(rebuilt), offset, values);
      && found == Enter(rebuilt.environment.nodes[offset], Frame(values, rebuilt))
      && Belongs(found.environment, offset)
      && Evaluate(natives, fuel, found.node, found.environment).Some?
      && EquivalentVal(natives, Closure(fd), Evaluate(natives, fuel, found.node, found.environment).value)
  {
    OneFrameEquivalent(natives, fd.environment, values, rebuilt);
  }

  /** A child function is rebuilt in a single frame that holds all the values around it. */
  lemma ChildRebuilt(natives: Natives, fuel: nat, fd: FunctionData, p: FunctionData, u: Term, k: seq<Val>, values: seq<Val>)
    requires WellFormedFunction(natives, fd) && fd.environment.Frame? && p == Outermost(fd.environment)
    requires WellFormedFunction(natives, p) && p.codeIndex < Size(TermOf(p.environment.code))
    requires u == SubtermAt(TermOf(p.environment.code), p.codeIndex) && Reloads(natives, fuel, p, u, k)
    requires LoadedRoot(natives, fuel, p.environment.constants, p.environment.code, p.environment.nodes)
    requires |values| == Depth(fd.environment) <= |Flatten(fd.environment)|
    requires forall i | 0 <= i < |values| :: EquivalentVal(natives, Flatten(fd.environment)[i], values[i])
    ensures var rebuilt, offset := RebuiltOuter(natives, fuel, u, k), fd.codeIndex - p.codeIndex;
      var found := FindSubFunction(Closure(rebuilt), offset, values);
      && 0 <= offset < |rebuilt.environment.nodes|
      && found == Enter(rebuilt.environment.nodes[offset], Frame(values, rebuilt))
      && Belongs(found.environment, offset)
      && Evaluate(natives, fuel, found.node, found.environment).Some?
      && EquivalentVal(natives, Closure(fd), Evaluate(natives, fuel, found.node, found.environment).value)
  {
    OutermostContains(natives, fd.environment, fd.codeIndex);
    OuterSlice(natives, p);
    ChildLoaded(natives, fuel, fd, p);
    SliceNode(natives, fuel, TermOf(p.environment.code), p.codeIndex, fd.codeIndex, p.environment.constants, k, fd.body);
    ChildEntered(natives, fuel, fd, RebuiltOuter(natives, fuel, u, k), u, fd.codeIndex - p.codeIndex, values);
  }

  // ---------------------------------------------------------------------------
  // The round trip.

  lemma ModuleMore(natives: Natives, fuel: nat, more: nat, code: seq<nat>, constants: seq<Val>)
    requires fuel <= more && ModuleValue(natives, fuel, code, constants).Some?
    ensures ModuleValue(natives, more, code, constants) == ModuleValue(natives, fuel, code, constants)
  {
    if IsTerm(code) {
      var t := TermOf(code);
      LoadMore(natives, fuel, more, t, 0, 0, constants);
      if Load(natives, fuel, t, 0, 0, constants).Loaded? {
        var nodes, nodes' := NodesOf(natives, fuel, t, constants), NodesOf(natives, more, t, constants);
        forall i | 0 <= i < Size(t) ensures nodes[i] == nodes'[i] {
          BranchLoadsMore(natives, fuel, more, t, constants, i);
        }
        assert nodes == nodes';
        MoreFuel(natives, fuel, more, Load(natives, fuel, t, 0, 0, constants).node, Root(constants, code, nodes));
      }
    }
  }

  lemma BranchLoadsMore(natives: Natives, fuel: nat, more: nat, t: Term, constants: seq<Val>, i: nat)
    requires fuel <= more && i < Size(t)
    requires LoadAt(natives, fuel, t, 0, 0, constants, i).Loaded?
    ensures LoadAt(natives, more, t, 0, 0, constants, i) == LoadAt(natives, fuel, t, 0, 0, constants, i)
  {
    LoadMore(natives, fuel, more, SubtermAt(t, i), 0 + i, DepthAt(t, 0, i), constants);
  }

  lemma LoadedRootMore(natives: Natives, fuel: nat, more: nat, constants: seq<Val>, code: seq<nat>, nodes: seq<Node>)
    requires fuel <= more && LoadedRoot(natives, fuel, constants, code, nodes)
    ensures LoadedRoot(natives, more, constants, code, nodes)
  {
    forall i | 0 <= i < |nodes| ensures LoadAt(natives, more, TermOf(code), 0, 0, constants, i) == Loaded(nodes[i]) {
      BranchLoadsMore(natives, fuel, more, TermOf(code), constants, i);
    }
  }

  ghost predicate AllRebuilt(natives: Natives, fuel: nat, ws: seq<Wire>) {
    forall i | 0 <= i < |ws| :: Rebuild(natives, fuel, ws[i]).Some?
  }

  ghost function RebuiltValues(natives: Natives, fuel: nat, ws: seq<Wire>): (vs: seq<Val>)
    requires AllRebuilt(natives, fuel, ws)
    ensures |vs| == |ws|
  {
    seq(|ws|, i requires 0 <= i < |ws| => Rebuild(natives, fuel, ws[i]).value)
  }

  lemma {:induction false} RebuildMore(natives: Natives, fuel: nat, more: nat, w: Wire)
    requires fuel <= more && Rebuild(natives, fuel, w).Some?
    ensures Rebuild(natives, more, w) == Rebuild(natives, fuel, w)
    decreases w
  {
    match w
    case WireData(_, parts) =>
      forall i | 0 <= i < |parts| ensures Rebuild(natives, more, parts[i]) == Rebuild(natives, fuel, parts[i]) {
        RebuildMore(natives, fuel, more, parts[i]);
      }
      assert RebuiltValues(natives, more, parts) == RebuiltValues(natives, fuel, parts);
    case WireFunction(environment, code) =>
      forall i | 0 <= i < |environment| ensures Rebuild(natives, more, environment[i]) == Rebuild(natives, fuel, environment[i]) {
        RebuildMore(natives, fuel, more, environment[i]);
      }
      assert RebuiltValues(natives, more, environment) == RebuiltValues(natives, fuel, environment);
      ModuleMore(natives, fuel, more, code, RebuiltValues(natives, fuel, environment));
    case WireChild(environment, parent, offset) =>
      RebuildMore(natives, fuel, more, parent);
      forall i | 0 <= i < |environment| ensures Rebuild(natives, more, environment[i]) == Rebuild(natives, fuel, environment[i]) {
        RebuildMore(natives, fuel, more, environment[i]);
      }
      assert RebuiltValues(natives, more, environment) == RebuiltValues(natives, fuel, environment);
      var found := FindSubFunction(Rebuild(natives, fuel, parent).value, offset, RebuiltValues(natives, fuel, environment));
      if found.Enter? { MoreFuel(natives, fuel, more, found.node, found.environment); }
  }

  /** With `fuel`, `v` is rebuilt as a well-formed value equivalent to it. */
  ghost predicate Arrives(natives: Natives, fuel: nat, v: Val) {
    var w := Rebuild(natives, fuel, Marshal(v));
    w.Some? && EquivalentVal(natives, v, w.value) && WellFormed(natives, w.value)
  }

  lemma ArrivesMore(natives: Natives, fuel: nat, more: nat, v: Val)
    requires fuel <= more && Arrives(natives, fuel, v)
    ensures Arrives(natives, more, v)
  {
    RebuildMore(natives, fuel, more, Marshal(v));
  }

  /** Every well-formed value arrives. */
  lemma {:induction false} RoundTrip(natives: Natives, v: Val) returns (fuel: nat)
    requires WellFormed(natives, v)
    ensures Arrives(natives, fuel, v)
    decreases v, 3
  {
    match v
    case Data(tag, parts) =>
      fuel := 0;
      for n := 0 to |parts|
        invariant EachArrives(natives, fuel, parts, n)
      {
        var f := RoundTrip(natives, parts[n]);
        OneMoreArrives(natives, fuel, f, parts, n);
        fuel := fuel + f;
      }
      forall i | 0 <= i < |parts| ensures Arrives(natives, fuel, parts[i]) {}
      assert forall i | 0 <= i < |parts| :: Marshal(v).parts[i] == Marshal(parts[i]);
    case Closure(fd) =>
      if fd.environment.Root? {
        var k;
        fuel, k := OuterArrives(natives, fd);
      } else {
        fuel := ChildArrives(natives, fd);
      }
  }

  /** The values are parts of the function. */
  ghost predicate PartsOf(fd: FunctionData, vs: seq<Val>) {
    forall i | 0 <= i < |vs| :: fd decreases to vs[i]
  }

  /** Some fuel suffices for several values at once, all of them parts of a function. */
  lemma {:induction false} AllArrive(natives: Natives, vs: seq<Val>, fd: FunctionData) returns (fuel: nat)
    requires PartsOf(fd, vs) && forall i | 0 <= i < |vs| :: WellFormed(natives, vs[i])
    ensures EachArrives(natives, fuel, vs, |vs|)
    decreases fd, 0
  {
    fuel := 0;
    for n := 0 to |vs|
      invariant EachArrives(natives, fuel, vs, n)
    {
      var f := RoundTrip(natives, vs[n]);
      OneMoreArrives(natives, fuel, f, vs, n);
      fuel := fuel + f;
    }
  }

  /** The first `n` values arrive with the same fuel. */
  ghost predicate EachArrives(natives: Natives, fuel: nat, vs: seq<Val>, n: nat) {
    n <= |vs| && forall i {:trigger Arrives(natives, fuel, vs[i])} | 0 <= i < n :: Arrives(natives, fuel, vs[i])
  }

  lemma OneMoreArrives(natives: Natives, fuel: nat, f: nat, vs: seq<Val>, n: nat)
    requires n < |vs| && EachArrives(natives, fuel, vs, n) && Arrives(natives, f, vs[n])
    ensures EachArrives(natives, fuel + f, vs, n + 1)
  {
    EachArrivesMore(natives, fuel, fuel + f, vs, n);
    ArrivesMore(natives, f, fuel + f, vs[n]);
  }

  lemma EachArrivesMore(natives: Natives, fuel: nat, more: nat, vs: seq<Val>, n: nat)
    requires n <= |vs| && fuel <= more && EachArrives(natives, fuel, vs, n)
    ensures EachArrives(natives, more, vs, n)
  {
    forall i | 0 <= i < n ensures Arrives(natives, more, vs[i]) { ArrivesMore(natives, fuel, more, vs[i]); }
  }

  lemma {:induction false} OuterArrives(natives: Natives, fd: FunctionData) returns (fuel: nat, k: seq<Val>)
    requires WellFormedFunction(natives, fd) && fd.environment.Root?
    ensures fd.codeIndex < Size(TermOf(fd.environment.code))
    ensures var u := SubtermAt(TermOf(fd.environment.code), fd.codeIndex);
      && Reloads(natives, fuel, fd, u, k)
      && LoadedRoot(natives, fuel, fd.environment.constants, fd.environment.code, fd.environment.nodes)
      && Rebuild(natives, fuel, MarshalFunction(fd)) == Some(Closure(RebuiltOuter(natives, fuel, u, k)))
    ensures forall i | 0 <= i < |k| :: WellFormed(natives, k[i])
    ensures Arrives(natives, fuel, Closure(fd))
    decreases fd, 1
  {
    var env := fd.environment;
    var loaded: nat :| LoadedRoot(natives, loaded, env.constants, env.code, env.nodes);
    var f := AllArrive(natives, env.constants, fd);
    fuel := loaded + f;
    EachArrivesMore(natives, f, fuel, env.constants, |env.constants|);
    LoadedRootMore(natives, loaded, fuel, env.constants, env.code, env.nodes);
    k := OuterMessage(natives, fuel, fd);
  }

  lemma OuterMessage(natives: Natives, fuel: nat, fd: FunctionData) returns (k: seq<Val>)
    requires WellFormedFunction(natives, fd) && fd.environment.Root?
    requires LoadedRoot(natives, fuel, fd.environment.constants, fd.environment.code, fd.environment.nodes)
    requires EachArrives(natives, fuel, fd.environment.constants, |fd.environment.constants|)
    ensures var u := SubtermAt(TermOf(fd.environment.code), fd.codeIndex);
      && Reloads(natives, fuel, fd, u, k)
      && Rebuild(natives, fuel, MarshalFunction(fd)) == Some(Closure(RebuiltOuter(natives, fuel, u, k)))
    ensures forall i | 0 <= i < |k| :: WellFormed(natives, k[i])
    ensures Arrives(natives, fuel, Closure(fd))
  {
    var constants := fd.environment.constants;
    var w := MarshalFunction(fd);
    forall i | 0 <= i < |constants| ensures w.environment[i] == Marshal(constants[i]) && Arrives(natives, fuel, constants[i]) {}
    k := RebuiltValues(natives, fuel, w.environment);
    OuterRebuilt(natives, fuel, fd, k);
    ModuleWellFormed(natives, fuel, w.code, k);
  }

  lemma {:induction false} ChildArrives(natives: Natives, fd: FunctionData) returns (fuel: nat)
    requires WellFormedFunction(natives, fd) && fd.environment.Frame?
    ensures Arrives(natives, fuel, Closure(fd))
    decreases fd, 2
  {
    var env, p := fd.environment, Outermost(fd.environment);
    OutermostContains(natives, env, fd.codeIndex);
    FlattenLength(env);
    var values := Flatten(env)[..Depth(env)];
    forall i | 0 <= i < |values| ensures WellFormed(natives, values[i]) && (fd decreases to values[i]) {
      LookupSmaller(env, i);
      ValuesWellFormed(natives, env, i);
    }
    var f0, k0 := OuterArrives(natives, p);
    var f1 := AllArrive(natives, values, fd);
    fuel := f0 + f1;
    EachArrivesMore(natives, f1, fuel, values, |values|);
    forall i | 0 <= i < Depth(env) ensures Arrives(natives, fuel, Flatten(env)[i]) { assert Arrives(natives, fuel, values[i]); }
    ParentReloadsMore(natives, f0, fuel, p, k0);
    ChildMessage(natives, fuel, fd, p, SubtermAt(TermOf(p.environment.code), p.codeIndex), k0);
  }

  lemma ParentReloadsMore(natives: Natives, fuel: nat, more: nat, p: FunctionData, k: seq<Val>)
    requires fuel <= more && WellFormedFunction(natives, p) && p.environment.Root?
    requires p.codeIndex < Size(TermOf(p.environment.code))
    requires LoadedRoot(natives, fuel, p.environment.constants, p.environment.code, p.environment.nodes)
    requires var u := SubtermAt(TermOf(p.environment.code), p.codeIndex);
      && Reloads(natives, fuel, p, u, k)
      && Rebuild(natives, fuel, MarshalFunction(p)) == Some(Closure(RebuiltOuter(natives, fuel, u, k)))
    ensures var u := SubtermAt(TermOf(p.environment.code), p.codeIndex);
      && LoadedRoot(natives, more, p.environment.constants, p.environment.code, p.environment.nodes)
      && Reloads(natives, more, p, u, k)
      && Rebuild(natives, more, MarshalFunction(p)) == Some(Closure(RebuiltOuter(natives, more, u, k)))
  {
    var env := p.environment;
    var u := SubtermAt(TermOf(env.code), p.codeIndex);
    LoadedRootMore(natives, fuel, more, env.constants, env.code, env.nodes);
    OuterRebuilt(natives, more, p, k);
    ModuleMore(natives, fuel, more, Encode(u), k);
    RebuildMore(natives, fuel, more, MarshalFunction(p));
  }

  lemma ChildMessage(natives: Natives, fuel: nat, fd: FunctionData, p: FunctionData, u: Term, k: seq<Val>)
    requires WellFormedFunction(natives, fd) && fd.environment.Frame? && p == Outermost(fd.environment)
    requires WellFormedFunction(natives, p) && p.codeIndex < Size(TermOf(p.environment.code))
    requires LoadedRoot(natives, fuel, p.environment.constants, p.environment.code, p.environment.nodes)
    requires u == SubtermAt(TermOf(p.environment.code), p.codeIndex) && Reloads(natives, fuel, p, u, k)
    requires Rebuild(natives, fuel, MarshalFunction(p)) == Some(Closure(RebuiltOuter(natives, fuel, u, k)))
    requires forall i | 0 <= i < |k| :: WellFormed(natives, k[i])
    requires Depth(fd.environment) <= |Flatten(fd.environment)|
    requires forall i | 0 <= i < Depth(fd.environment) :: Arrives(natives, fuel, Flatten(fd.environment)[i])
    ensures Arrives(natives, fuel, Closure(fd))
  {
    var w, rebuilt := MarshalFunction(fd), RebuiltOuter(natives, fuel, u, k);
    var values := ChildValues(natives, fuel, fd);
    ChildRebuilt(natives, fuel, fd, p, u, k, values);
    EnteringRebuilds(natives, fuel, w, rebuilt, values);
    ModuleWellFormed(natives, fuel, Encode(u), k);
    EvaluateWellFormed(natives, fuel, Frame(values, rebuilt), w.offset);
  }

  /** The message for a child function is rebuilt by entering the rebuilt parent. */
  lemma EnteringRebuilds(natives: Natives, fuel: nat, w: Wire, rebuilt: FunctionData, values: seq<Val>)
    requires w.WireChild? && AllRebuilt(natives, fuel, w.environment) && values == RebuiltValues(natives, fuel, w.environment)
    requires Rebuild(natives, fuel, w.parent) == Some(Closure(rebuilt))
    requires FindSubFunction(Closure(rebuilt), w.offset, values).Enter?
    ensures var found := FindSubFunction(Closure(rebuilt), w.offset, values);
      Rebuild(natives, fuel, w) == Evaluate(natives, fuel, found.node, found.environment)
  {
  }

  /** The values around a child function, rebuilt. */
  lemma ChildValues(natives: Natives, fuel: nat, fd: FunctionData) returns (values: seq<Val>)
    requires fd.environment.Frame? && Depth(fd.environment) <= |Flatten(fd.environment)|
    requires forall i | 0 <= i < Depth(fd.environment) :: Arrives(natives, fuel, Flatten(fd.environment)[i])
    ensures var w := MarshalFunction(fd);
      w.WireChild? && AllRebuilt(natives, fuel, w.environment) && values == RebuiltValues(natives, fuel, w.environment)
    ensures |values| == Depth(fd.environment)
    ensures forall i | 0 <= i < |values| ::
      EquivalentVal(natives, Flatten(fd.environment)[i], values[i]) && WellFormed(natives, values[i])
  {
    var env, w := fd.environment, MarshalFunction(fd);
    forall i | 0 <= i < Depth(env) ensures w.environment[i] == Marshal(Flatten(env)[i]) {}
    forall i | 0 <= i < |w.environment| ensures Rebuild(natives, fuel, w.environment[i]).Some? {
      assert Arrives(natives, fuel, Flatten(env)[i]);
    }
    values := RebuiltValues(natives, fuel, w.environment);
    forall i | 0 <= i < |values|
      ensures EquivalentVal(natives, Flatten(env)[i], values[i]) && WellFormed(natives, values[i])
    {
      assert Arrives(natives, fuel, Flatten(env)[i]);
    }
  }

  // ---------------------------------------------------------------------------
  // What arriving means for a function.

  /** The rebuilt function behaves as the original on every argument: with equivalent arguments,
      one call returns exactly when the other does, and the results are equivalent. */
  lemma RebuiltBehavesTheSame(natives: Natives, v: Val, a: Val, fuel: nat, b: Val)
    requires Arrives(natives, fuel, v) && EquivalentVal(natives, a, b)
    ensures var w := Rebuild(natives, fuel, Marshal(v)).value;
      && (forall n: nat | Apply(natives, n, v, a).Some? ::
            Apply(natives, n, w, b).Some? && EquivalentVal(natives, Apply(natives, n, v, a).value, Apply(natives, n, w, b).value))
      && (forall n: nat | Apply(natives, n, w, b).Some? :: exists m: nat :: CallsAgree(natives, m, v, a, n, w, b))
  {
    var w := Rebuild(natives, fuel, Marshal(v)).value;
    forall n: nat | Apply(natives, n, v, a).Some?
      ensures Apply(natives, n, w, b).Some? && EquivalentVal(natives, Apply(natives, n, v, a).value, Apply(natives, n, w, b).value)
    {
      FoldedCallTerminates(natives, n, v, a, w, b);
    }
    forall n: nat | Apply(natives, n, w, b).Some? ensures exists m: nat :: CallsAgree(natives, m, v, a, n, w, b) {
      var m := OriginalCallTerminates(natives, n, v, a, w, b);
      assert CallsAgree(natives, m, v, a, n, w, b);
    }
  }

  ghost predicate CallsAgree(natives: Natives, m: nat, f: Val, a: Val, n: nat, g: Val, b: Val) {
    && Apply(natives, m, f, a).Some? && Apply(natives, n, g, b).Some?
    && EquivalentVal(natives, Apply(natives, m, f, a).value, Apply(natives, n, g, b).value)
  }

  /** Whatever a module with well-formed constants evaluates to, however deeply nested a function
      it is, can be sent. */
  lemma ModuleResultArrives(natives: Natives, fuel: nat, code: seq<nat>, constants: seq<Val>) returns (enough: nat)
    requires forall i | 0 <= i < |constants| :: WellFormed(natives, constants[i])
    requires ModuleValue(natives, fuel, code, constants).Some?
    ensures Arrives(natives, enough, ModuleValue(natives, fuel, code, constants).value)
  {
    ModuleWellFormed(natives, fuel, code, constants);
    enough := RoundTrip(natives, ModuleValue(natives, fuel, code, constants).value);
  }
}
