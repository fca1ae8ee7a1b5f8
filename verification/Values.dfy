/** Run-time values, shared by the source-level evaluator and the virtual machine.

    A value is either built-in data (an integer, an atom, a tuple, a partially applied
    native function, ...) or a closure.  The two evaluators represent closures
    differently, so the closure representation is a type parameter.

    Native functions are parametric: a native sees only the shape of its operands, with
    every closure hidden, and answers with a recipe that reassembles parts of the
    operands, or with a tail call between two such recipes. */
module Values {

  datatype Option<+T> = None | Some(value: T)

  datatype Tag =
    | IntTag(i: int)
    | AtomTag(name: string)
    | BytesTag(bytes: string)
    | TupleTag
    | ErrorTag(text: string)
    | OtherTag(id: int)

  datatype V<+C> = Data(tag: Tag, parts: seq<V<C>>) | Closure(c: C)

  datatype Shape = DataShape(tag: Tag, parts: seq<Shape>) | Opaque

  datatype Recipe =
    | TheFunction
    | TheArgument
    | Part(whole: Recipe, index: nat)
    | Make(tag: Tag, ingredients: seq<Recipe>)

  datatype Action = Return(result: Recipe) | TailCall(callee: Recipe, argument: Recipe)

  type Natives = (Shape, Shape) -> Action

  function Int<C>(i: int): V<C> { Data(IntTag(i), []) }

  function Error<C>(text: string): V<C> { Data(ErrorTag(text), []) }

  function ShapeOf<C>(v: V<C>): Shape {
    match v
    case Closure(_) => Opaque
    case Data(tag, parts) =>
      DataShape(tag, seq(|parts|, i requires 0 <= i < |parts| => ShapeOf(parts[i])))
  }

  predicate FunctionFree<C>(v: V<C>) {
    v.Data? && forall i | 0 <= i < |v.parts| :: FunctionFree(v.parts[i])
  }

  /** Carry out a recipe on a function value and its argument. */
  function Cook<C>(r: Recipe, f: V<C>, a: V<C>): V<C> {
    match r
    case TheFunction => f
    case TheArgument => a
    case Part(whole, index) =>
      var w := Cook(whole, f, a);
      if w.Data? && index < |w.parts| then w.parts[index] else Error("No such part.")
    case Make(tag, ingredients) =>
      Data(tag, seq(|ingredients|, i requires 0 <= i < |ingredients| => Cook(ingredients[i], f, a)))
  }

  /** What calling a non-closure does.  Tuples and errors are fixed by the virtual machine;
      every other native is given by `natives`. */
  function NativeAction(natives: Natives, f: Shape, a: Shape): Action {
    if f.DataShape? && f.tag.ErrorTag? then Return(TheFunction)
    else if f.DataShape? && f.tag == TupleTag then
      if a.DataShape? && a.tag.ErrorTag? then Return(TheArgument)
      else if !(a.DataShape? && a.tag.IntTag?) then Return(Make(ErrorTag("Tuple index must be integer."), []))
      else if 0 <= a.tag.i < |f.parts| then Return(Part(TheFunction, a.tag.i))
      else Return(Make(ErrorTag("Tuple index out of bounds."), []))
    else natives(f, a)
  }

  // ---------------------------------------------------------------------------
  // Parametricity: natives cannot tell related values apart.

  /** `rel` relates data exactly when tags agree and parts are related, and never relates
      data with a closure. */
  ghost predicate Structural<A(!new), B(!new)>(rel: (V<A>, V<B>) -> bool) {
    && (forall v: V<A>, w: V<B> :: rel(v, w) ==> v.Data? == w.Data?)
    && (forall v: V<A>, w: V<B> | v.Data? && w.Data? ::
          rel(v, w) <==>
          v.tag == w.tag && |v.parts| == |w.parts|
          && forall i | 0 <= i < |v.parts| :: rel(v.parts[i], w.parts[i]))
  }

  lemma {:induction false} SameShape<A(!new), B(!new)>(rel: (V<A>, V<B>) -> bool, v: V<A>, w: V<B>)
    requires Structural(rel) && rel(v, w)
    ensures ShapeOf(v) == ShapeOf(w)
    decreases v
  {
    if v.Data? {
      forall i | 0 <= i < |v.parts| ensures ShapeOf(v.parts[i]) == ShapeOf(w.parts[i]) {
        SameShape(rel, v.parts[i], w.parts[i]);
      }
    }
  }

  lemma {:induction false} CookRelated<A(!new), B(!new)>(
      rel: (V<A>, V<B>) -> bool, r: Recipe, f: V<A>, a: V<A>, g: V<B>, b: V<B>)
    requires Structural(rel) && rel(f, g) && rel(a, b)
    ensures rel(Cook(r, f, a), Cook(r, g, b))
    decreases r
  {
    match r
    case TheFunction =>
    case TheArgument =>
    case Part(whole, index) =>
      CookRelated(rel, whole, f, a, g, b);
    case Make(tag, ingredients) =>
      forall i | 0 <= i < |ingredients|
        ensures rel(Cook(ingredients[i], f, a), Cook(ingredients[i], g, b))
      {
        CookRelated(rel, ingredients[i], f, a, g, b);
      }
  }
}
