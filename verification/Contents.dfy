/** What a value is, apart from where it is stored. */
module Contents {

  /** How a value is marshalled, apart from what it refers to. */
  datatype Form =
    | NumberForm(value: int)
    | PlainForm(payload: string)
    | FunctionForm(hasParent: bool, code: seq<nat>)
    | CallForm
    | SequenceForm

  datatype Content = Content(shape: Form, parts: seq<Content>)

  /** IDs are secure hashes of contents, so a content also serves as its own ID. */
  type Id = Content

  /** How many values something of this shape can refer to. */
  predicate Fits(shape: Form, count: nat) {
    match shape
    case NumberForm(_) => count == 0
    case PlainForm(_) => count == 0
    case FunctionForm(hasParent, _) => hasParent ==> count > 0
    case CallForm => count == 2
    case SequenceForm => true
  }
}
