/** The virtual machine: code nodes, environments, the register machine that runs them,
    and the proof that it computes what a direct recursive evaluator computes. */
module Interpreter {
  import opened Values

  type Val = V<FunctionData>

  /** A decoded code tree.  `codeIndex` is the position of the ABSTRACTION instruction. */
  datatype Node =
    | Constant(value: Val)
    | Variable(index: nat)
    | Abstraction(body: Node, codeIndex: nat)
    | Application(fn: Node, arg: Node)

  /** An environment is a chain of frames.  The frame below `Frame(values, parent)` is
      `parent.environment`, and the last frame holds the module's constant table together
      with the module's code and the node decoded at each of its instructions. */
  datatype Environment =
    | Root(constants: seq<Val>, code: seq<nat>, nodes: seq<Node>)
    | Frame(values: seq<Val>, parent: FunctionData)

  datatype FunctionData = FunctionData(environment: Environment, body: Node, codeIndex: nat)

  /** How many values lie above the constant table. */
  function Depth(env: Environment): nat {
    match env
    case Root(_, _, _) => 0
    case Frame(values, parent) => |values| + Depth(parent.environment)
  }

  /** All values of an environment, innermost first, the constant table last. */
  function Flatten(env: Environment): seq<Val> {
    match env
    case Root(constants, _, _) => constants
    case Frame(values, parent) => values + Flatten(parent.environment)
  }

  function Bottom(env: Environment): (bottom: Environment)
    ensures bottom.Root?
  {
    match env
    case Root(_, _, _) => env
    case Frame(_, parent) => Bottom(parent.environment)
  }

  function Lookup(env: Environment, index: nat): Val {
    var all := Flatten(env);
    if index < |all| then all[index] else Error("Variable index past end of environment list.")
  }

  lemma {:induction false} FlattenLength(env: Environment)
    ensures |Flatten(env)| == Depth(env) + |Bottom(env).constants|
  {
    if env.Frame? { FlattenLength(env.parent.environment); }
  }

  /** The value at a position is a component of the environment, so recursion may descend to it. */
  lemma {:induction false} LookupSmaller(env: Environment, index: nat)
    requires index < |Flatten(env)|
    ensures env decreases to Flatten(env)[index]
  {
    match env
    case Root(constants, _, _) =>
      assert constants[index] in constants;
    case Frame(values, parent) =>
      if index < |values| {
        assert values[index] in values;
      } else {
        LookupSmaller(parent.environment, index - |values|);
      }
  }

  /** The constant table lies behind all the values. */
  lemma {:induction false} ConstantsLast(env: Environment, i: nat)
    requires i < |Bottom(env).constants|
    ensures |Flatten(env)| == Depth(env) + |Bottom(env).constants|
    ensures Flatten(env)[Depth(env) + i] == Bottom(env).constants[i]
  {
    FlattenLength(env);
    if env.Frame? { ConstantsLast(env.parent.environment, i); }
  }

  /** Running a variable node walks the frames instead of flattening them. */
  method RunVariable(env: Environment, index: nat) returns (v: Val)
    ensures v == Lookup(env, index)
  {
    var frame, i := env, index;
    while frame.Frame?
      invariant 0 <= i
      invariant Lookup(frame, i) == Lookup(env, index)
      decreases frame
    {
      if i < |frame.values| { return frame.values[i]; }
      i := i - |frame.values|;
      frame := frame.parent.environment;
    }
    if i < |frame.constants| { return frame.constants[i]; }
    return Error("Variable index past end of environment list.");
  }

  // ---------------------------------------------------------------------------
  // Direct evaluation.  Fuel bounds the nesting of calls; None means it ran out.

  function Evaluate(natives: Natives, fuel: nat, node: Node, env: Environment): Option<Val>
    decreases fuel, 1, node
  {
    match node
    case Constant(v) => Some(v)
    case Variable(i) => Some(Lookup(env, i))
    case Abstraction(body, codeIndex) => Some(Closure(FunctionData(env, body, codeIndex)))
    case Application(fn, arg) =>
      match Evaluate(natives, fuel, arg, env)
      case None => None
      case Some(a) =>
        match Evaluate(natives, fuel, fn, env)
        case None => None
        case Some(f) => Apply(natives, fuel, f, a)
  }

  function Apply(natives: Natives, fuel: nat, f: Val, a: Val): Option<Val>
    decreases fuel, 0
  {
    match f
    case Closure(fd) =>
      if fuel == 0 then None else Evaluate(natives, fuel - 1, fd.body, Frame([a], fd))
    case Data(_, _) =>
      match NativeAction(natives, ShapeOf(f), ShapeOf(a))
      case Return(r) => Some(Cook(r, f, a))
      case TailCall(g, b) =>
        if fuel == 0 then None else Apply(natives, fuel - 1, Cook(g, f, a), Cook(b, f, a))
  }

  lemma {:induction false} MoreFuel(natives: Natives, fuel: nat, more: nat, node: Node, env: Environment)
    requires fuel <= more && Evaluate(natives, fuel, node, env).Some?
    ensures Evaluate(natives, more, node, env) == Evaluate(natives, fuel, node, env)
    decreases fuel, 1, node
  {
    if node.Application? {
      MoreFuel(natives, fuel, more, node.arg, env);
      MoreFuel(natives, fuel, more, node.fn, env);
      MoreFuelApply(natives, fuel, more, Evaluate(natives, fuel, node.fn, env).value,
                    Evaluate(natives, fuel, node.arg, env).value);
    }
  }

  lemma {:induction false} MoreFuelApply(natives: Natives, fuel: nat, more: nat, f: Val, a: Val)
    requires fuel <= more && Apply(natives, fuel, f, a).Some?
    ensures Apply(natives, more, f, a) == Apply(natives, fuel, f, a)
    decreases fuel, 0
  {
    match f
    case Closure(fd) =>
      MoreFuel(natives, fuel - 1, more - 1, fd.body, Frame([a], fd));
    case Data(_, _) =>
      var action := NativeAction(natives, ShapeOf(f), ShapeOf(a));
      if action.TailCall? {
        MoreFuelApply(natives, fuel - 1, more - 1, Cook(action.callee, f, a), Cook(action.argument, f, a));
      }
  }

  // ---------------------------------------------------------------------------
  // The register machine.

  /** What a register can hold: a code node, an environment, an ordinary value, one of the
      two callbacks of an application, the callback of whoever started the machine, or
      nothing. */
  datatype Word =
    | Code(node: Node)
    | EnvironmentWord(environment: Environment)
    | Plain(value: Val)
    | ParameterDone(environment: Environment, fnCode: Node, next: Word)
    | FunctionDone(parameter: Val, next: Word)
    | FinalCallback
    | Nothing

  datatype Registers = Registers(fn: Word, parameter: Word, callback: Word)

  function Deliver(callback: Word, v: Val): Registers {
    Registers(callback, Plain(v), Nothing)
  }

  function Halted(r: Registers): bool { r.fn == FinalCallback }

  /** One call of the current function's Run method. */
  function Step(natives: Natives, r: Registers): Registers {
    match r.fn
    case Code(node) =>
      if !r.parameter.EnvironmentWord? then
        Deliver(r.callback, Error("Parameter to code tree node must be environment."))
      else
        var env := r.parameter.environment;
        (match node
         case Constant(v) => Deliver(r.callback, v)
         case Variable(i) => Deliver(r.callback, Lookup(env, i))
         case Abstraction(body, codeIndex) =>
           Deliver(r.callback, Closure(FunctionData(env, body, codeIndex)))
         case Application(fn, arg) =>
           Registers(Code(arg), r.parameter, ParameterDone(env, fn, r.callback)))
    case ParameterDone(env, fnCode, next) =>
      if !r.parameter.Plain? then r
      else if fnCode.Abstraction? then
        // The function is written in place: enter its body without building a closure value.
        Registers(Code(fnCode.body),
                  EnvironmentWord(Frame([r.parameter.value], FunctionData(env, fnCode.body, fnCode.codeIndex))),
                  next)
      else
        Registers(Code(fnCode), EnvironmentWord(env), FunctionDone(r.parameter.value, next))
    case FunctionDone(parameter, next) =>
      Registers(r.parameter, Plain(parameter), next)
    case Plain(f) =>
      if !r.parameter.Plain? then r
      else
        var a := r.parameter.value;
        (match f
         case Closure(fd) => Registers(Code(fd.body), EnvironmentWord(Frame([a], fd)), r.callback)
         case Data(_, _) =>
           match NativeAction(natives, ShapeOf(f), ShapeOf(a))
           case Return(recipe) => Deliver(r.callback, Cook(recipe, f, a))
           case TailCall(g, b) => Registers(Plain(Cook(g, f, a)), Plain(Cook(b, f, a)), r.callback))
    case EnvironmentWord(_) => Deliver(r.callback, Error("Environment cannot be called as a function."))
    case FinalCallback => r
    case Nothing => r
  }

  function Steps(natives: Natives, n: nat, r: Registers): Registers {
    if n == 0 then r else Steps(natives, n - 1, Step(natives, r))
  }

  lemma {:induction false} StepsAdd(natives: Natives, m: nat, n: nat, r: Registers)
    ensures Steps(natives, m + n, r) == Steps(natives, n, Steps(natives, m, r))
    decreases m
  {
    if m > 0 { StepsAdd(natives, m - 1, n, Step(natives, r)); }
  }

  lemma {:induction false} HaltedStays(natives: Natives, n: nat, r: Registers)
    requires Halted(r)
    ensures Steps(natives, n, r) == r
  {
    if n > 0 { HaltedStays(natives, n - 1, r); }
  }

  function Start(node: Node, env: Environment, callback: Word): Registers {
    Registers(Code(node), EnvironmentWord(env), callback)
  }

  /** The machine reaches the result of direct evaluation and hands it to the callback. */
  lemma {:induction false} MachineComputes(natives: Natives, fuel: nat, node: Node, env: Environment, k: Word)
      returns (n: nat)
    requires Evaluate(natives, fuel, node, env).Some?
    ensures Steps(natives, n, Start(node, env, k)) == Deliver(k, Evaluate(natives, fuel, node, env).value)
    decreases fuel, 1, node
  {
    var start := Start(node, env, k);
    if !node.Application? {
      n := 1;
      assert Steps(natives, 1, start) == Steps(natives, 0, Step(natives, start));
    } else {
      var a := Evaluate(natives, fuel, node.arg, env).value;
      var f := Evaluate(natives, fuel, node.fn, env).value;
      var k1 := ParameterDone(env, node.fn, k);
      var n1 := MachineComputes(natives, fuel, node.arg, env, k1);
      StepsAdd(natives, 1 + n1, 1, start);
      assert Steps(natives, 1 + n1, start) == Deliver(k1, a);
      var afterArg := Steps(natives, 1 + n1 + 1, start);
      assert afterArg == Step(natives, Deliver(k1, a)) by {
        assert Steps(natives, 1, Deliver(k1, a)) == Steps(natives, 0, Step(natives, Deliver(k1, a)));
      }
      if node.fn.Abstraction? {
        var n2 := MachineComputes(natives, fuel - 1, node.fn.body, Frame([a], f.c), k);
        StepsAdd(natives, 1 + n1 + 1, n2, start);
        n := 1 + n1 + 1 + n2;
      } else {
        var k2 := FunctionDone(a, k);
        var n2 := MachineComputes(natives, fuel, node.fn, env, k2);
        StepsAdd(natives, 1 + n1 + 1, n2, start);
        StepsAdd(natives, 1 + n1 + 1 + n2, 1, start);
        assert Steps(natives, 1, Deliver(k2, f)) == Steps(natives, 0, Step(natives, Deliver(k2, f)));
        var n3 := MachineCalls(natives, fuel, f, a, k);
        StepsAdd(natives, 1 + n1 + 1 + n2 + 1, n3, start);
        n := 1 + n1 + 1 + n2 + 1 + n3;
      }
    }
  }

  lemma {:induction false} MachineCalls(natives: Natives, fuel: nat, f: Val, a: Val, k: Word) returns (n: nat)
    requires Apply(natives, fuel, f, a).Some?
    ensures Steps(natives, n, Registers(Plain(f), Plain(a), k)) == Deliver(k, Apply(natives, fuel, f, a).value)
    decreases fuel, 0
  {
    var start := Registers(Plain(f), Plain(a), k);
    match f
    case Closure(fd) =>
      var n1 := MachineComputes(natives, fuel - 1, fd.body, Frame([a], fd), k);
      n := 1 + n1;
    case Data(_, _) =>
      var action := NativeAction(natives, ShapeOf(f), ShapeOf(a));
      if action.TailCall? {
        var n1 := MachineCalls(natives, fuel - 1, Cook(action.callee, f, a), Cook(action.argument, f, a), k);
        n := 1 + n1;
      } else {
        n := 1;
        assert Steps(natives, 1, start) == Steps(natives, 0, Step(natives, start));
      }
  }

  /** Conversely, a run that halts went through the evaluation of the node it started from,
      and `n` steps leave no more than `n` nested calls. */
  lemma {:induction false} HaltingEvaluates(natives: Natives, n: nat, node: Node, env: Environment, k: Word)
      returns (m: nat)
    requires Halted(Steps(natives, n, Start(node, env, k)))
    ensures m <= n && Evaluate(natives, n, node, env).Some?
    ensures Steps(natives, m, Start(node, env, k)) == Deliver(k, Evaluate(natives, n, node, env).value)
    decreases n
  {
    var start := Start(node, env, k);
    assert n > 0;
    if !node.Application? {
      m := 1;
      assert Steps(natives, 1, start) == Steps(natives, 0, Step(natives, start));
    } else {
      var k1 := ParameterDone(env, node.fn, k);
      var m1 := HaltingEvaluates(natives, n - 1, node.arg, env, k1);
      var a := Evaluate(natives, n - 1, node.arg, env).value;
      MoreFuel(natives, n - 1, n, node.arg, env);
      StepsAdd(natives, m1, n - 1 - m1, Start(node.arg, env, k1));
      assert n - 1 - m1 > 0;
      var rest := n - 1 - m1 - 1;
      assert Halted(Steps(natives, rest, Step(natives, Deliver(k1, a))));
      assert Steps(natives, 1 + m1, start) == Deliver(k1, a);
      StepsAdd(natives, 1 + m1, 1, start);
      assert Steps(natives, 1, Deliver(k1, a)) == Steps(natives, 0, Step(natives, Deliver(k1, a)));
      if node.fn.Abstraction? {
        var fd := FunctionData(env, node.fn.body, node.fn.codeIndex);
        var m2 := HaltingEvaluates(natives, rest, fd.body, Frame([a], fd), k);
        MoreFuel(natives, rest, n - 1, fd.body, Frame([a], fd));
        StepsAdd(natives, 1 + m1 + 1, m2, start);
        m := 1 + m1 + 1 + m2;
      } else {
        var k2 := FunctionDone(a, k);
        var m2 := HaltingEvaluates(natives, rest, node.fn, env, k2);
        var f := Evaluate(natives, rest, node.fn, env).value;
        MoreFuel(natives, rest, n, node.fn, env);
        StepsAdd(natives, m2, rest - m2, Start(node.fn, env, k2));
        assert rest - m2 > 0;
        var rest' := rest - m2 - 1;
        assert Halted(Steps(natives, rest', Step(natives, Deliver(k2, f))));
        var m3 := HaltingCalls(natives, rest', f, a, k);
        MoreFuelApply(natives, rest', n, f, a);
        StepsAdd(natives, 1 + m1 + 1, m2, start);
        StepsAdd(natives, 1 + m1 + 1 + m2, 1, start);
        assert Steps(natives, 1, Deliver(k2, f)) == Steps(natives, 0, Step(natives, Deliver(k2, f)));
        StepsAdd(natives, 1 + m1 + 1 + m2 + 1, m3, start);
        m := 1 + m1 + 1 + m2 + 1 + m3;
      }
    }
  }

  lemma {:induction false} HaltingCalls(natives: Natives, n: nat, f: Val, a: Val, k: Word) returns (m: nat)
    requires Halted(Steps(natives, n, Registers(Plain(f), Plain(a), k)))
    ensures m <= n && Apply(natives, n, f, a).Some?
    ensures Steps(natives, m, Registers(Plain(f), Plain(a), k)) == Deliver(k, Apply(natives, n, f, a).value)
    decreases n
  {
    var start := Registers(Plain(f), Plain(a), k);
    assert n > 0;
    match f
    case Closure(fd) =>
      var m1 := HaltingEvaluates(natives, n - 1, fd.body, Frame([a], fd), k);
      m := 1 + m1;
    case Data(_, _) =>
      var action := NativeAction(natives, ShapeOf(f), ShapeOf(a));
      if action.TailCall? {
        var m1 := HaltingCalls(natives, n - 1, Cook(action.callee, f, a), Cook(action.argument, f, a), k);
        m := 1 + m1;
      } else {
        m := 1;
        assert Steps(natives, 1, start) == Steps(natives, 0, Step(natives, start));
      }
  }

  lemma DeliveredEvaluates(natives: Natives, n: nat, node: Node, env: Environment, v: Val)
    requires Steps(natives, n, Start(node, env, FinalCallback)) == Deliver(FinalCallback, v)
    ensures Evaluate(natives, n, node, env) == Some(v)
  {
    var m := HaltingEvaluates(natives, n, node, env, FinalCallback);
    StepsAdd(natives, m, n - m, Start(node, env, FinalCallback));
    HaltedStays(natives, n - m, Steps(natives, m, Start(node, env, FinalCallback)));
  }

  /** A code tree evaluates to `v` exactly when the machine started on it halts with `v`. */
  lemma {:induction false} MachineRefinesEvaluation(natives: Natives, node: Node, env: Environment, v: Val)
    ensures (exists fuel: nat :: Evaluate(natives, fuel, node, env) == Some(v))
       <==> (exists n: nat :: Steps(natives, n, Start(node, env, FinalCallback)) == Deliver(FinalCallback, v))
  {
    if fuel: nat :| Evaluate(natives, fuel, node, env) == Some(v) {
      var n := MachineComputes(natives, fuel, node, env, FinalCallback);
    }
    if n: nat :| Steps(natives, n, Start(node, env, FinalCallback)) == Deliver(FinalCallback, v) {
      DeliveredEvaluates(natives, n, node, env, v);
    }
  }

  /** The machine's registers, overwritten by every call of Run. */
  class Context {
    const natives: Natives
    var fn: Word
    var parameter: Word
    var callback: Word

    function State(): Registers reads this { Registers(fn, parameter, callback) }

    constructor (natives: Natives, node: Node, env: Environment)
      ensures State() == Start(node, env, FinalCallback) && this.natives == natives
    {
      this.natives := natives;
      fn, parameter, callback := Code(node), EnvironmentWord(env), FinalCallback;
    }

    method SetNext(f: Word, p: Word, k: Word)
      modifies this
      ensures State() == Registers(f, p, k)
    {
      fn, parameter, callback := f, p, k;
    }

    method ReturnValue(v: Val)
      modifies this
      ensures State() == Deliver(old(callback), v)
    {
      SetNext(callback, Plain(v), Nothing);
    }

    method RunNode(node: Node, env: Environment)
      requires State() == Start(node, env, callback)
      modifies this
      ensures State() == Step(natives, old(State()))
    {
      match node
      case Constant(v) => ReturnValue(v);
      case Variable(i) =>
        var v := RunVariable(env, i);
        ReturnValue(v);
      case Abstraction(body, codeIndex) => ReturnValue(Closure(FunctionData(env, body, codeIndex)));
      case Application(f, a) => SetNext(Code(a), parameter, ParameterDone(env, f, callback));
    }

    method RunValue(f: Val, a: Val)
      requires State() == Registers(Plain(f), Plain(a), callback)
      modifies this
      ensures State() == Step(natives, old(State()))
    {
      match f
      case Closure(fd) => SetNext(Code(fd.body), EnvironmentWord(Frame([a], fd)), callback);
      case Data(_, _) =>
        match NativeAction(natives, ShapeOf(f), ShapeOf(a)) {
          case Return(recipe) => ReturnValue(Cook(recipe, f, a));
          case TailCall(g, b) => SetNext(Plain(Cook(g, f, a)), Plain(Cook(b, f, a)), callback);
        }
    }

    method RunStep()
      modifies this
      ensures State() == Step(natives, old(State()))
    {
      match fn
      case Code(node) =>
        if parameter.EnvironmentWord? {
          RunNode(node, parameter.environment);
        } else {
          ReturnValue(Error("Parameter to code tree node must be environment."));
        }
      case ParameterDone(env, fnCode, next) =>
        if parameter.Plain? {
          if fnCode.Abstraction? {
            SetNext(Code(fnCode.body),
                    EnvironmentWord(Frame([parameter.value], FunctionData(env, fnCode.body, fnCode.codeIndex))),
                    next);
          } else {
            SetNext(Code(fnCode), EnvironmentWord(env), FunctionDone(parameter.value, next));
          }
        }
      case FunctionDone(p, next) => SetNext(parameter, Plain(p), next);
      case Plain(f) =>
        if parameter.Plain? { RunValue(f, parameter.value); }
      case EnvironmentWord(_) => ReturnValue(Error("Environment cannot be called as a function."));
      case FinalCallback =>
      case Nothing =>
    }

    /** The driver loop, cut off after `budget` steps. */
    method Run(budget: nat)
      modifies this
      ensures State() == Steps(natives, budget, old(State()))
    {
      var n := 0;
      while n < budget && fn != FinalCallback
        invariant n <= budget
        invariant Steps(natives, budget, old(State())) == Steps(natives, budget - n, State())
      {
        RunStep();
        n := n + 1;
      }
      if fn == FinalCallback { HaltedStays(natives, budget - n, State()); }
    }
  }
}
