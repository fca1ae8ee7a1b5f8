# Evlan: a verified model of the compiler, the virtual machine and the distributed runtime

Evlan is a small functional language. This project models, in Dafny, the parts of its implementation
whose correctness does not show in any one function, and proves what they are for.

| files | what they model |
|---|---|
| `Grammar`, `Parser`, `Printing`, `Parentheses`, `Precedence` | the recursive-descent parser with operator priorities, and what operators mean |
| `Source`, `Letrec` | the language: planned evaluation, and the meaning of mutually recursive definitions |
| `Graphs`, `WhereBlock`, `Frontend`, `Lookups`, `PlanExamples`, `InputTable`, `Generator`, `Compiler` | the compiler: planning of `where` blocks, the constant table, code generation |
| `CodeTree`, `Loader`, `Folding`, `Resolving` | code trees, their validation and loading, folding of constants |
| `Values`, `Interpreter` | values, native functions, the callback machine |
| `Arguments` | how arguments reach parameters, from the text to the machine |
| `CompilerCorrect`, `Program`, `LetrecCorrect`, `Delivery`, `Demand`, `EndToEnd` | compiled programs deliver what the source means, exactly when it means something |
| `Closures` | sending functions to another machine and rebuilding them there |
| `Validation`, `Rebuilding` | checking received values and rebuilding them, with interruptions |
| `Contents`, `PushPull`, `Receiving`, `Renumbering`, `Sessions` | moving values by push and pull from one machine to another, indices in messages, the call protocol |
| `Collector`, `Sweep`, `Collection` | the moving garbage collector |
| `AtomTable`, `Parallel`, `Pool`, `ImportResolver`, `Counting` | smaller components, and counting lemmas |

How the model is built:

- Code that updates state is modelled by classes and methods with loops. Their contracts tie the new
  state to a specification, and lemmas say what the specification is worth.
- Values are generic in what a function is (`Values.V<C>`), so one definition serves the source
  language, the machine and the denotational meaning. Native functions are an arbitrary deterministic
  table that looks at the outermost structure of function and argument and either returns a value
  built from them or makes a tail call (`Values.Natives`). Every theorem holds for all such tables.
- Evaluation is bounded by fuel. Fuel is spent only on calls, so source and machine evaluation agree
  fuel for fuel (`CompilerCorrect.Simulated`), and statements about the machine quantify over the
  number of steps. No bound appears in the results.
- The outside world is a parameter or an event: which messages arrive, in which order callbacks run,
  what the other side has been sent before, where the inner allocator finds memory.

Dafny checks the whole project with `dafny verify dfyconfig.toml`.

## Where the code differs from its intent

The model follows the code. Each difference is stated as a lemma with a witness, next to the exact
condition under which the code does what it is meant to do.

- The loader's bound check lets a reference to the constant just past the table's end through
  (`Folding.CheckMissesOnlyTheEnd`, `Folding.PastTheEnd`), so that loading then reads memory that is
  not part of the table; the model ends there, with the outcome `Overrun`. Compiled programs never
  contain such a reference (`Program.CompiledCodeIsAccepted`).
- Uses of a binding with several recursive variables look up an import called `tuple`, which planning
  never registers, and integers up to the tuple's size, which planning registers only for the first
  tuple of a block (`Frontend.ImportsRegistered`, `Frontend.TupleSizes`, `Lookups.TupleImportMissing`).
  Compiling succeeds exactly when what is looked up for tuples is registered
  (`Lookups.CompilesExactlyWhen`); it does without any such tuple, and where the program imports
  `tuple` and no tuple is larger than the first of its block (`Lookups.SinglesFindAll`,
  `Lookups.ImportingTupleSuffices`). The semantic theorems are about programs in which no binding
  takes more than one recursive variable; planning and code generation are proved for all.
- A `where` block computes every binding that its base expression depends on and that does not depend
  on itself, whether its value is needed or not. So a program is delivered exactly when it has a
  meaning that demands those (`EndToEnd.DeliversIffMeant`). If they are functions and literals that is
  its plain meaning (`EndToEnd.UndemandingDelivered`); otherwise a program may mean something and not
  be delivered (`EndToEnd.MeaningWithoutDelivery`).
- The collector moves a pointer cell once for each way in which the root, or something reachable from
  it, shows it. It ends up right exactly when that is one way (`Collection.PointersCorrespond`,
  `Sweep.ShiftCountsListings`, `Collection.CountsMayDiffer`).
- `ValidateIndex` has no lower bound. A reference it accepts names a value of its own message exactly
  when it is not negative (`Validation.AcceptedKeepToMessages`), and a slot that exists exactly when it
  points back by no more than the number of values received before its message
  (`Validation.SlotsExist`, `Validation.SlotBeforeFirst`, `Validation.NegativeReferencePasses`).
- An index for a value the receiver owns is right exactly when there are as many remote values as
  values sent by ID, as there are before anything else has been added
  (`Renumbering.MarshallingSession.AddReceiverOwnedValue`).
- A server session whose argument cannot be unmarshalled is never deleted
  (`Sessions.InvalidArgumentLeaksSession`); all others are, when nothing is outstanding any more
  (`Sessions.AnyInterleaving`).
- A session that waits for a further push after one that settled nothing new waits for ever, because
  either side only sends in answer to the other (`Sessions.RemoteCall.StuckForever`); otherwise a call
  always goes on to its end (`Sessions.AnyInterleaving`). Between sides that do as modelled nobody is
  made to wait (`PushPull.Exchange`).
- Marshalling a remote value looks for an earlier copy in the message and then does not use it
  (`src/evlan/vm/distribute/remote_value.cc:90-97`); such values are of the kind that is always sent.
- A value mapped under a name hides shorter prefixes from longer imports, which the header's comments
  do not say (`ImportResolvers.ValueHidesPrefix`, `ImportResolvers.ReachesResolver`).
- Advancing in an atom table stays within 32 bits exactly for tables of at most 2^30 + 1 buckets
  (`AtomTables.AdvancingFits`); the largest listed size is above that.
- The comments of `marshal.proto` number a function's environment from one, with zero for none; the
  code counts from zero. The model follows the code.

## Model

| member | source | states |
|---|---|---|
| Printing.PrintedParses | src/evlan/parser/parser.cc:244-430 | every expression tree of prefix, infix, postfix, function and parenthesised items, printed with only the parentheses that priorities and left association require, parses back to itself, without error and with all tokens consumed |
| Printing.Grouping | src/evlan/parser/parser.cc:42-72 | without parentheses, two infix operators in a row group to the left exactly when the first binds at least as tightly as the second |
| Precedence.InfixGroups | src/evlan/parser/parser.cc:42-72 | whatever the items, multiplying binds tighter than adding, adding than comparing, comparing than `and` and `or`, and operators that bind alike group to the left; an operator calls the method of its left operand that has its name |
| Precedence.PrefixGroups | src/evlan/parser/parser.cc:64-71 | a minus sign takes the item after it, `not` everything up to an `and` or `or` |
| Precedence.PostfixesMean | src/evlan/parser/parser.cc:340-388 | a member access applies to the member's name, a subscript calls the method `element`, a single argument is passed as it is |
| Parentheses.RightParenthesesNeeded | src/evlan/parser/parser.cc:403-430 | an operation printed in parentheses as a right operand needs them: without them the text parses as something else, whatever the operands |
| Parentheses.LeftParenthesesNeeded | src/evlan/parser/parser.cc:403-430 | the same for a left operand, an operation or what a prefix operator makes |
| Parentheses.PrefixParenthesesNeeded | src/evlan/parser/parser.cc:403-430 | the same for what a prefix operator applies to |
| Parentheses.BaseParenthesesNeeded | src/evlan/parser/parser.cc:390-400 | the same for what a member access, a call or a subscript applies to |
| Parentheses.PrefixedBaseMayDoWithout | src/evlan/parser/parser.cc:390-430 | not so for what a prefix operator makes: `(-x).negate` and `-x.negate` mean the same |
| Printing.OpenParsed | src/evlan/parser/parser.cc:403-430 | reading a printed tree at any priority it may appear at, in front of any tokens that cannot extend it, is the same as having read it and going on with those tokens |
| Printing.ParameterListRead | src/evlan/parser/parser.cc:614-631 | a printed parameter list is read as exactly those names, in order, also when it is empty |
| Printing.NoFunctionHere | src/evlan/parser/parser.cc:274-284 | the attempt to read a parenthesised expression as a function always fails, so it is read again as an expression |
| Parser.ParseStatement | src/evlan/parser/parser.cc:635-640 | the imperative parser computes the grammar's expression, and reports an error exactly when the grammar has one or tokens are left over |
| Parser.TokenIterator.ParseOperators | src/evlan/parser/parser.cc:403-430 | the loop over a moving cursor reads the same expression and the same tokens as the recursive grammar, with the same errors |
| Parser.TokenIterator.ParseItemWithPostfix | src/evlan/parser/parser.cc:390-400 | the same for items and any number of postfixes |
| Parser.TokenIterator.ParseTuple | src/evlan/parser/parser.cc:569-588 | the same for argument lists, with a single argument standing for itself |
| Parser.TokenIterator.TryParseFunction | src/evlan/parser/parser.cc:614-631 | succeeds exactly when the grammar sees a function, and logs nothing when it gives up |
| CodeTree.EncodesOneTerm | src/evlan/vm/interpreter/interpreter.cc:1133-1157 | a code tree encodes a complete term exactly when it parses as one, and then no other term |
| CodeTree.BuildCodeTreeDepths | src/evlan/vm/interpreter/interpreter.cc:1133-1157 | accepts exactly the encodings of one complete term, and computes the number of abstractions around every instruction |
| CodeTree.FindEndOfBranch | src/evlan/vm/interpreter/interpreter.cc:93-113 | finds the only end at which the slice from the start is a complete term, or the end of the code if there is none |
| CodeTree.TermIffNothingPending | src/evlan/vm/interpreter/interpreter.cc:93-113 | counting pending operands recognises exactly the complete terms |
| CodeTree.SubtermIsBranch | src/evlan/vm/interpreter/interpreter.cc:93-113 | the branch starting at instruction i is the encoding of the i-th subterm |
| Loader.InterpretCodeTree | src/evlan/vm/interpreter/interpreter.cc:1502-1638 | the backward pass with a stack, resumed after each folding call, rejects what is not a term and otherwise gives what recursive loading gives, for every code and table, with a read past the table as an outcome of its own; slot i of the node array is the loaded subtree that starts at instruction i |
| Loader.InterpretCodeTreeState.Continue | src/evlan/vm/interpreter/interpreter.cc:1502-1598 | runs until the tree is complete, a reference is found to be invalid or reads past the table, or a folding call is needed, and is then suspended so that the call's result can be pushed |
| Loader.RightmostFailureWins | src/evlan/vm/interpreter/interpreter.cc:1508-1598 | the first failure met going backwards decides the outcome of loading the whole term |
| Resolving.FoldingPreservesMeaning | src/evlan/vm/interpreter/interpreter.cc:1221-1233 | if loading completes, then in every environment with as many values as the computed depth above the constant table, what was loaded yields a result exactly when the tree as written does, where every variable is looked up; results are the same up to folding inside functions |
| Resolving.LoadedRunsAsWritten | src/evlan/vm/interpreter/interpreter.cc:1221-1233 | the same with both in one environment of well-scoped values |
| Resolving.EvaluateResolved | src/evlan/vm/interpreter/interpreter.cc:1560-1584 | a variable beyond the code's depth finds, wherever the code runs and in whatever closures, the constant that loading put in its place, fuel for fuel |
| Resolving.DataUnaffected | src/evlan/vm/interpreter/interpreter.cc:1221-1233 | results without functions in them are the same, folded or not |
| Folding.EquivalentCodeBehavesTheSame | src/evlan/vm/interpreter/interpreter.cc:1333-1346 | code that differs by folding, in environments that differ by folding: one terminates when the other does, with equivalent results |
| Folding.LoadFoldsApplications | src/evlan/vm/interpreter/interpreter.cc:1511-1536 | beside resolving constants, what loading makes of a term differs from it only by constants that stand for closed applications with that value |
| Folding.LoadFoldsEverything | src/evlan/vm/interpreter/interpreter.cc:1511-1536 | no application of two constants is left unfolded, also where folding has made them, and a term becomes a constant exactly when it consists of constants applied to one another |
| Folding.ClosedResultUnique | src/evlan/vm/interpreter/interpreter.cc:1523-1529 | a folded application has the same result in every environment |
| Folding.CheckMissesOnlyTheEnd | src/evlan/vm/interpreter/interpreter.cc:1563-1566 | code that passes the bound check stays inside the constant table exactly when it does not name the constant just past its end |
| Folding.PastTheEnd | src/evlan/vm/interpreter/interpreter.cc:1563-1566 | a one-instruction code tree that passes the check, and whose loading reads past the end |
| Folding.LoadingOutcomes | src/evlan/vm/interpreter/interpreter.cc:1508-1598 | code is loaded only if it keeps inside the table, and then only the fuel of its folding calls can be missing; code is found invalid only if it fails the check, and reads past the table only if it names the constant just past its end |
| Interpreter.MachineRefinesEvaluation | src/evlan/vm/interpreter/interpreter.cc:756-780 | the callback machine halts with a value exactly when direct evaluation gives that value |
| Interpreter.MachineComputes | src/evlan/vm/interpreter/interpreter.cc:905-974 | the machine, with both callbacks and the fast path for closures, hands the result of evaluation to whatever callback is waiting |
| Interpreter.HaltingEvaluates | src/evlan/vm/interpreter/interpreter.cc:905-974 | a run that halts passed through the delivery of the starting node's value |
| Interpreter.RunVariable | src/evlan/vm/interpreter/interpreter.cc:538-578 | walking the frames finds the value at that index of the flattened environment |
| Interpreter.Context.RunStep | src/evlan/vm/interpreter/interpreter.cc:756-974 | one call of Run overwrites the function, parameter and callback registers as the step function says |
| Interpreter.Context.Run | src/evlan/vm/runtime.cc:203-213 | the driver loop computes iterated steps |
| CompilerCorrect.Simulated | src/evlan/parser/expression.cc:239-287 | compiled code, run where its scope is represented, gives what the named-variable evaluator gives with exactly the same fuel, across shadowing, escapes, tuple parameters and literals |
| CompilerCorrect.BlockSimulated | src/evlan/parser/expression.cc:617-657 | the same for `where` blocks compiled to nested function calls |
| CompilerCorrect.EnterRecursive | src/evlan/parser/expression.cc:659-767 | applying a recursive binding to its recursive variable re-creates the scope of the block at that binding |
| CompilerCorrect.ReferenceSimulated | src/evlan/parser/expression.cc:249-287 | the position computed for a variable holds the variable that its name and escape depth select |
| CompilerCorrect.ParameterSimulated | src/evlan/parser/expression.cc:270-287 | a member of a parameter tuple is the parameter applied to the member's position |
| CompilerCorrect.UndefinedSimulated | src/evlan/parser/expression.cc:144-152 | an undefined variable stands for the identity function |
| Arguments.TupleCalled | src/evlan/vm/builtin/array.cc:183-203 | calling a tuple gives the member at that position, comes back with an error it is called with, and reports an index that is out of bounds or no integer; the machine does so in one step |
| Arguments.ErrorCalled | src/evlan/vm/builtin/type_error.cc:40-46 | calling an error gives the error |
| Arguments.ParameterEvaluated | src/evlan/parser/expression.cc:270-287 | of several distinct parameters, each stands for the member of the argument tuple at its own position |
| Arguments.ParameterDenoted | src/evlan/parser/expression.cc:270-287 | the same for meanings |
| Arguments.ParameterDelivered | src/evlan/parser/expression.cc:270-287 | the same for the machine running the compiled function |
| Arguments.ArgumentsBuilt | src/evlan/parser/expression.cc:771-786 | with a tuple builder that adds one member after another, what the parser makes of several arguments evaluates to the tuple of their values in order, and of one argument to its value |
| Arguments.ArgumentDelivered | src/evlan/parser/expression.cc:771-786 | from the text to the machine: for `((p1, ..., pn) => pi)(a1, ..., an)`, printed, read, compiled and loaded, the machine delivers the value of ai |
| Arguments.RecursiveTupleBuilt | src/evlan/parser/expression.cc:708-733 | the code for several recursive variables, run, gives the tuple of what the code for each gives, in order |
| Arguments.RecursiveMemberRead | src/evlan/parser/expression.cc:740-757 | and in the binding that takes the tuple, the code for each recursive variable reads it at that variable's position |
| Program.ProgramRuns | src/evlan/parser/expression.cc:116-123 | whatever the source program evaluates to, the machine delivers, up to folding inside functions |
| Program.DeliveryIsMeant | src/evlan/parser/expression.cc:116-123 | whatever the machine delivers, the source program evaluates to |
| Program.CompiledCodeIsAccepted | src/evlan/vm/interpreter/interpreter.cc:1560-1584 | the loader never rejects compiled code, and compiled code never leaves the constant table |
| Program.DataDeliveredLiterally | src/evlan/parser/expression.cc:116-123 | a result without functions in it is delivered exactly |
| EndToEnd.DeliversIffMeant | src/evlan/parser/expression.cc:501-767 | the machine delivers a result for a planned, compiled and loaded program exactly when its mutually recursive definitions, demanding at each block what its base depends on acyclically, have a meaning |
| EndToEnd.DeliveryHasMeaning | src/evlan/parser/expression.cc:501-613 | whatever the machine delivers for a planned program is what its mutually recursive definitions denote, with those demands or without; unreachable bindings play no part |
| EndToEnd.DeliversMeaning | src/evlan/parser/expression.cc:501-613 | and it is that meaning whatever fuel the meaning was found with |
| EndToEnd.UndemandingDelivered | src/evlan/parser/expression.cc:617-657 | if every demanded binding is a function or a literal, a program is delivered exactly when it has a plain meaning |
| EndToEnd.PlansAgree | src/evlan/parser/expression.cc:582-613 | two compilations of one program, planned differently, that both deliver data deliver the same data |
| EndToEnd.MeaningWithoutDelivery | src/evlan/parser/expression.cc:617-657 | otherwise not: a program, planned and loaded as shown, that means something at once but is never delivered, because blocks compute every binding that is referred to |
| Demand.EagernessIrrelevant | src/evlan/parser/expression.cc:617-657 | demanding functions and literals early changes no meaning |
| Delivery.EvaluatesIffDenoted | src/evlan/parser/expression.cc:501-767 | planned evaluation finds a value exactly when the program has a meaning with demands |
| LetrecCorrect.PlannedEvaluationMeans | src/evlan/parser/expression.h:346-388 | what evaluating the planned program gives, with recursion removed by self-application, is what call-by-name recursion gives, with demands or without |
| Delivery.EvalYields | src/evlan/parser/expression.h:346-388 | conversely, where call-by-name recursion with demands gives a meaning, planned evaluation gives a value, in every scope |
| LetrecCorrect.PlanIsExact | src/evlan/parser/expression.cc:501-545 | the bindings a plan computes are those the base expression depends on that do not depend on themselves, so demands do not depend on the plan |
| LetrecCorrect.BlockMeans | src/evlan/parser/expression.cc:659-767 | the first direction for one block from any position of its plan on |
| Delivery.BlockYields | src/evlan/parser/expression.cc:659-767 | the second direction for one block from any position of its plan on |
| Letrec.DenoteMore | src/evlan/parser/expression.h:346-388 | the meaning of an expression does not depend on how much fuel it is given |
| Generator.CompileProgram | src/evlan/parser/expression.cc:116-123 | the three passes together, for any number of recursive variables: the constant table holds each literal the code needs once and no other, every lookup during code generation succeeds, and the emitted code is the compiled form of the planned program |
| Generator.Visitor.VisitDependencies | src/evlan/parser/expression.cc:501-564 | plans every block, tells the enclosing definitions exactly what is needed of them, and registers exactly the literals needed |
| Generator.Visitor.ChildNeedsVariable | src/evlan/parser/expression.cc:566-580 | the search through the enclosing definitions informs exactly the one that the name and escape depth select, and a tuple parameter registers its position |
| Generator.PlanWhere | src/evlan/parser/expression.cc:517-545 | a block gets a plan that the ordering and closure of recursive variables justify |
| Generator.AddTupleLiterals | src/evlan/parser/expression.cc:549-562 | tuple literals are registered for the first binding that takes several recursive variables, and for no other |
| Generator.CodeBuffer.BuildCodeTree | src/evlan/parser/expression.cc:239-247 | appends exactly the encoding of the compiled expression |
| Generator.CodeBuffer.BuildBlock | src/evlan/parser/expression.cc:617-657 | a block's functions first, then its base, then the values in reverse, is the encoding of the nested calls |
| Generator.CodeBuffer.AddVariableReference | src/evlan/parser/expression.cc:249-287 | the walk outwards appends the code of the variable that is meant |
| Generator.CodeBuffer.AddUse | src/evlan/parser/expression.cc:660-735 | a recursive binding is applied to its recursive variable, or to the tuple of several |
| Generator.CodeBuffer.AddBindingReference | src/evlan/parser/expression.cc:737-767 | a binding computed no earlier is taken from the parameters, where it always is; from a tuple by its position |
| Generator.CodeBuffer.AddTuple | src/evlan/parser/expression.cc:708-733 | the tuple builder, applied to one recursive variable after another |
| InputTables.InputTable.Finalize | src/evlan/parser/expression.cc:53-81 | the registered literals get the positions 0..n-1, one each, group by group |
| InputTables.InputTable.Lookup | src/evlan/parser/expression.cc:83-108 | a registered literal is found at its only place in the table |
| Frontend.PlannedIsReady | src/evlan/parser/expression.cc:740-746 | after planning, every lookup made by code generation succeeds, if no binding takes more than one recursive variable |
| Frontend.ImportsRegistered | src/evlan/parser/expression.cc:549-562 | an import other than "builtin" is registered exactly when the program text contains it |
| Frontend.TupleSizes | src/evlan/parser/expression.cc:547-562 | an integer is registered for tuples exactly when it is at most the size of the first tuple |
| Lookups.FoundIff | src/evlan/parser/expression.cc:708-757 | after planning, every lookup that code generation makes, for any number of recursive variables, succeeds exactly when the variables needed outside are found there and all literals for tuples are in the table |
| Lookups.CompilesExactlyWhen | src/evlan/parser/expression.cc:708-757 | for a whole program, exactly when the literals registered include those for its tuples |
| Lookups.SinglesFindAll | src/evlan/parser/expression.cc:694-706 | which they do where no binding takes several recursive variables |
| Lookups.ImportingTupleSuffices | src/evlan/parser/expression.cc:547-562 | and where the program imports `tuple` itself and the first tuple of each block is its largest |
| Lookups.TupleImportMissing | src/evlan/parser/expression.cc:713-718 | a program, as the planner plans it, whose tuple literals are registered but not the import that its code looks up: compiling it fails |
| WhereBlock.PlanBlock | src/evlan/parser/expression.cc:517-545 | ordering and passing on recursive variables terminate for every dependency graph, with all the facts that the lemmas below draw on |
| WhereBlock.Planner.Order | src/evlan/parser/expression.cc:582-598 | depth-first ordering: everything reachable and not ordered yet is ordered once, nested inside the visit of what referred to it |
| WhereBlock.BackEdge | src/evlan/parser/expression.cc:521-536 | a reference to an equal or higher position goes to the binding itself or to one whose visit was under way |
| WhereBlock.RecursionFinder.AddDependencyToDependents | src/evlan/parser/expression.cc:600-613 | terminates, and afterwards every binding that refers to this one knows the recursive variable |
| WhereBlock.RecursionFinder.PassRecursiveVars | src/evlan/parser/expression.cc:538-545 | a fixpoint: every dependent of every binding can reach that binding's recursive variables |
| WhereBlock.RecursiveVariablesFound | src/evlan/parser/expression.cc:740-746 | FindRecursiveVar never returns -1: whatever a binding mentions, and the recursive variables of that, are earlier or among its parameters |
| WhereBlock.RecursiveVariableTakesItself | src/evlan/parser/expression.cc:694-706 | a recursive variable is one of its own recursive variables, so it can be applied to itself |
| WhereBlock.RecursiveIffOnCycle | src/evlan/parser/expression.h:346-388 | a binding is turned into a function of itself exactly when it refers to itself, directly or through others |
| WhereBlock.OrderedIffReachable | src/evlan/parser/expression.cc:517-521 | the bindings computed are exactly those the base expression refers to, directly or through others |
| Closures.RoundTrip | src/evlan/vm/interpreter/interpreter.cc:445-509 | every well-formed value, with closures at any nesting depth, sent and rebuilt, arrives as an equivalent well-formed value |
| Closures.RebuiltBehavesTheSame | src/evlan/vm/distribute/unmarshaller.cc:508-541 | the rebuilt function returns on equivalent arguments exactly when the original does, with equivalent results |
| Closures.ModuleResultArrives | src/evlan/vm/interpreter/interpreter.cc:1632-1637 | whatever a module evaluates to can be sent |
| Closures.EvaluateWellFormed | src/evlan/vm/interpreter/interpreter.cc:756-974 | running any instruction of a loaded module keeps every closure inside the function that encloses it in the code, which sending relies on |
| Closures.ChildRebuilt | src/evlan/vm/interpreter/interpreter.cc:1683-1783 | an inner function is found by its offset in the outer one and entered in a single frame holding all values around it |
| Closures.LoadEquivalent | src/evlan/vm/interpreter/interpreter.cc:1502-1604 | reloading a slice of the code with equivalent constants succeeds, folds the same applications and gives equivalent code |
| Closures.ToVector | src/evlan/vm/interpreter/interpreter.cc:163-184 | flattening collects everything above the constants, and the outermost function |
| Closures.DescribeFunction | src/evlan/vm/interpreter/interpreter.cc:445-509 | an outer function is sent as constants and its slice of code, an inner one as flat environment, outermost function and code offset |
| Closures.GetSubFunction | src/evlan/vm/interpreter/interpreter.cc:1683-1783 | enters the node at the offset or reports the error, for every parent and offset |
| Validation.UnmarshallingSession.Validate | src/evlan/vm/distribute/unmarshaller.cc:160-185 | accepts exactly when there are values, all references are in range and the dependency graph is acyclic; then the two index vectors are inverse permutations, dependencies come first and trivial values lead in their original order; otherwise every error reported is so |
| Validation.UnmarshallingSession.OrderValue | src/evlan/vm/distribute/unmarshaller.cc:271-344 | the depth-first search terminates on every graph, orders a value after its dependencies, and reports as cyclic only what depends on itself, and as out of range only what is |
| Validation.UnmarshallingSession.CreateTopologicalOrdering | src/evlan/vm/distribute/unmarshaller.cc:216-269 | trivial values first, then the other values without references, then the rest |
| Validation.UnmarshallingSession.SetupValueLocations | src/evlan/vm/distribute/unmarshaller.cc:187-214 | the values of several messages lie one after the other |
| Validation.OrderedIsAcyclic | src/evlan/vm/distribute/unmarshaller.cc:160-185 | if everything could be ordered, nothing depends on itself |
| Validation.PermutationLength | src/evlan/vm/distribute/unmarshaller.cc:160-185 | when everything has a place there are as many places as values |
| Validation.AcceptedKeepToMessages | src/evlan/vm/distribute/unmarshaller.cc:352-362 | in a session whose references all pass the check, every reference names a value of its own message exactly when none is negative |
| Validation.SlotsExist | src/evlan/vm/distribute/unmarshaller.cc:352-362 | references lead to slots of the session's vectors exactly when none points back by more than the number of values received before its message |
| Validation.SlotBeforeFirst | src/evlan/vm/distribute/unmarshaller.cc:352-362 | the smallest input that passes the check and addresses the slot before the first |
| Validation.NegativeReferencePasses | src/evlan/vm/distribute/unmarshaller.cc:352-362 | an input that passes the check with a reference to an earlier message |
| Rebuilding.Unmarshal | src/evlan/vm/distribute/unmarshaller.cc:385-407 | a run with any number of interruptions fills every slot with the value its definition denotes |
| Rebuilding.Unmarshaller.DoSomeUnmarshalling | src/evlan/vm/distribute/unmarshaller.cc:385-407 | reads only slots already filled, and stops with a request for the next slot and a chain of intervals that covers the non-trivial prefix |
| Rebuilding.Unmarshaller.Continue | src/evlan/vm/distribute/unmarshaller.cc:597-613 | the machine's answer goes to the next topological slot, and rebuilding goes on from there |
| Rebuilding.Unmarshaller.RootsVisitOnce | src/evlan/vm/distribute/unmarshaller.cc:643-659 | at every moment the collector's roots visit each value but the numbers exactly once |
| Rebuilding.PartitionVisitsOnce | src/evlan/vm/distribute/unmarshaller.cc:561-593 | the tracker chain's intervals visit each value they span exactly once |
| Receiving.Transfer | src/evlan/vm/distribute/unmarshaller.cc:763-791 | from one machine to the other: whatever the heap, starting point and registries, the exchange ends, the receiver's checks accept what arrived, and what it rebuilds is the value that was sent |
| Receiving.DeliveredPassesChecks | src/evlan/vm/distribute/unmarshaller.cc:160-185 | whatever an exchange delivers is in range, and nothing in it depends on itself, through references or through IDs |
| Receiving.DenotedAsSent | src/evlan/vm/distribute/unmarshaller.cc:385-506 | the values rebuilt in topological order are the contents of the heap objects they stand for |
| Receiving.SameNumbering | src/evlan/vm/distribute/unmarshaller.cc:96-144 | references relative to messages and references counted from the first message mean the same values |
| PushPull.Exchange | src/evlan/vm/distribute/unmarshaller.cc:706-761 | for every acyclic heap, starting point and registry: no error and no wait, no ID requested twice, at most one push more than there are IDs, nothing missing at the end |
| PushPull.RebuiltAsSent | src/evlan/vm/distribute/unmarshaller.cc:409-506 | there is only one way to rebuild the received values, and it gives what the sender had |
| PushPull.SentContentsRebuild | src/evlan/vm/distribute/unmarshaller.cc:409-506 | and the sender's contents are such a way |
| PushPull.ExchangeYieldsValueSent | src/evlan/vm/distribute/unmarshaller.cc:763-791 | after an exchange, any contents that rebuild the values give, at the result, the value that was sent |
| PushPull.NextPush | src/evlan/vm/distribute/unmarshaller.cc:96-144 | a push that answers the last pull never makes the receiver ask for an ID again |
| PushPull.ValuePusher.TryAvoidMarshalling | src/evlan/vm/distribute/marshaller.cc:290-329 | gives up only where an entry in full is neither one too many nor one that could have been left to its ID |
| PushPull.ValuePusher.AddValue | src/evlan/vm/distribute/marshaller.cc:290-329 | a value is added once per message, or left to its ID if that is allowed and it is not required; nothing is added but the value and what it is made of; every entry stands for its heap object |
| PushPull.ValuePusher.SendInitialValue | src/evlan/vm/distribute/marshaller.cc:628-650 | the first message is sparing, given what had been sent when it was begun, and every entry but the result is referred to |
| PushPull.SparingMeans | src/evlan/vm/distribute/marshaller.cc:293-328 | in a sparing message, every object for which duplicates are looked for has at most one entry in full and at most one by ID; by ID only if that is allowed, in full only if it is not or the object was required, and both only if it was required after it had been named |
| PushPull.ValuePusher.RespondToPull | src/evlan/vm/distribute/marshaller.cc:661-691 | succeeds exactly when everything requested has been mentioned, and then sends all of it in full, and what that is made of, sparingly and nothing else |
| PushPull.ValuePuller.ReceivePush | src/evlan/vm/distribute/unmarshaller.cc:706-761 | what a push changes, and when the receiver asks for more, waits, is ready or fails |
| PushPull.ValuePuller.AddValues | src/evlan/vm/distribute/unmarshaller.cc:96-144 | exactly the named values that are neither received, nor found in the registry, nor requested yet are requested, once each and in the order in which they are named |
| Renumbering.RenumberingIsBijective | src/evlan/vm/distribute/marshaller.h:430-436 | final indices map the provisional indices of a message one-to-one onto 0..n-1 |
| Renumbering.ReceiverFindsValue | src/evlan/vm/distribute/unmarshaller.cc:187-214 | in the layout the receiver reconstructs over several messages, a final index leads to the value the sender meant |
| Renumbering.MarshallingSession.Finalize | src/evlan/vm/distribute/marshaller.cc:436-477 | offsets are the sums of the sizes of the types before, and every reference is rewritten |
| Renumbering.MarshallingSession.AddReceiverOwnedValue | src/evlan/vm/distribute/marshaller.cc:281-288 | the index made names the new value exactly when there are as many remote values as values sent by ID |
| Renumbering.MakeProvisionalIndex | src/evlan/vm/distribute/marshaller.h:195-205 | packing type and offset is reversible and fits in 31 bits |
| Sessions.AnyInterleaving | src/evlan/vm/distribute/evlan_worker_impl.cc:105-346 | after every sequence of stream, cancel and executor events: messages alternate as the protocol says, callback and `done` have run at most once, and the session is not deleted while anything can still call it; when nothing can any more, it is deleted exactly if unmarshalling the argument did not fail; no check can fire; unless a session has been told to wait for a further push, something can happen next, or the callback and `done` have run once and nothing is outstanding |
| Sessions.RemoteCall.Progress | src/evlan/vm/distribute/evlan_worker_impl.cc:236-276 | a call that is not over goes on, unless both sessions wait for a message and none is under way |
| Sessions.RemoteCall.StuckForever | src/evlan/vm/distribute/evlan_worker_impl.cc:264-266 | and then nothing can happen any more, and the callback has not run |
| Sessions.RemoteCall.ServerStart | src/evlan/vm/distribute/evlan_worker_impl.cc:44-73 | the first push: the session asks for what is missing with exactly one pull, waits, starts the work or ends the call |
| Sessions.RemoteCall.Happen | src/evlan/vm/distribute/remote_worker_impl.cc:101-289 | every event that can happen keeps the invariant, whatever its outcome; the argument has failed exactly if that has happened; both sessions wait for each other exactly after an event that makes one wait |
| Sessions.RemoteCall.Safety | src/evlan/vm/distribute/evlan_worker_impl.cc:127-137 | what the invariant implies: alternation, at most one callback and one `done`, no premature deletion |
| Sessions.RemoteCall.DeletedUnlessLost | src/evlan/vm/distribute/evlan_worker_impl.cc:127-137 | when everything has been delivered, the session is deleted exactly if its work did not end without dropping its reference |
| Sessions.InvalidArgumentLeaksSession | src/evlan/vm/distribute/evlan_worker_impl.cc:310-324 | a run after which the session is never deleted |
| Sessions.RemoteCall.ServerStream | src/evlan/vm/distribute/evlan_worker_impl.cc:142-174 | a client message in every server state: it is one that the session waits for, and the session asks, answers, starts the work, waits or ends the call, and changes nothing else of its state |
| Sessions.RemoteCall.ReturnError | src/evlan/vm/distribute/evlan_worker_impl.cc:189-234 | ends the call once, and leaves puller and pusher as their own checks demand |
| Sessions.RemoteCall.SendResult | src/evlan/vm/distribute/evlan_worker_impl.cc:326-346 | the result is pushed if the call is still on, and the reference taken for processing is dropped |
| Sessions.RemoteCall.ClientStream | src/evlan/vm/distribute/remote_worker_impl.cc:166-206 | a server message in every client state: the session answers, asks, waits, or takes the result or an error and asks for cancellation |
| Sessions.RemoteCall.ClientDone | src/evlan/vm/distribute/remote_worker_impl.cc:208-275 | the end of the call: the callback, not scheduled before, is scheduled now with an error, or, with a result that can be unmarshalled, not yet |
| Sessions.RemoteCall.ClientUnmarshalled | src/evlan/vm/distribute/remote_worker_impl.cc:277-289 | and then, once, when the result has been unmarshalled |
| Collection.Collect | src/evlan/vm/memory/debug_memory_manager.cc:301-305 | mark, merge, redirect and copy: afterwards everything reachable has been marked, and segments partition the marks, hold nothing else, lie apart in new memory and hold redirected copies |
| Collection.PointersCorrespond | src/evlan/vm/memory/debug_memory_manager.cc:662-737 | the heap graph is preserved: every pointer cell shown by the root or by something reachable from it has a new place, where it points to its target's new place exactly when all that show it show it in the same way |
| Collection.KeptIffNeeded | src/evlan/vm/memory/debug_memory_manager.cc:527-575 | a cell of the heap has a new place exactly when it lies in an object that can be reached, or in bytes that the root or something reachable shows |
| Collector.Visitor.StartedIffReachable | src/evlan/vm/memory/debug_memory_manager.cc:445-502 | when marking is complete, what has been visited is exactly what chains of visits reach from the root |
| Sweep.ShiftCountsListings | src/evlan/vm/memory/debug_memory_manager.cc:559-568 | a pointer is moved by its segment's distance as many times as there are marks that list it |
| Collection.PlacesDiffer | src/evlan/vm/memory/debug_memory_manager.cc:546-575 | the old-to-new map is injective cell by cell |
| Collection.TargetIsPlace | src/evlan/vm/memory/debug_memory_manager.cc:559-575 | pointers into the middle of objects, and aliases, still point to the same cells as one another |
| Collection.UnlistedKept | src/evlan/vm/memory/debug_memory_manager.cc:571-575 | bytes that are not visited pointers are copied unchanged |
| Collection.CountsMayDiffer | src/evlan/vm/memory/debug_memory_manager.cc:683-701 | a collection of a heap that passes all checks, in which a pointer shown with two different counts is moved by twice the distance of what it points to |
| Collector.Visitor.VisitRoot | src/evlan/vm/memory/debug_memory_manager.cc:445-502 | marking terminates, and everything reachable from the root has been visited |
| Collector.Visitor.FindBlock | src/evlan/vm/memory/debug_memory_manager.cc:418-432 | finds the block a pointer, possibly an interior one, points into |
| Sweep.MergeAndRedirect | src/evlan/vm/memory/debug_memory_manager.cc:520-569 | overlapping and touching marks share a segment, segments get disjoint new places, and pointers are moved by their segment's distance |
| Sweep.FindRun | src/evlan/vm/memory/debug_memory_manager.cc:527-544 | a run takes in exactly the marks that overlap or touch it, every cell of it is in one of them, and the next mark of the block starts beyond its end |
| Sweep.RightWhenListedOnce | src/evlan/vm/memory/debug_memory_manager.cc:559-568 | a pointer redirected in place ends up right exactly when it is listed under one mark |
| Sweep.CopyAll | src/evlan/vm/memory/debug_memory_manager.cc:571-575 | copying one segment disturbs neither the old memory nor another copy |
| AtomTables.ProbesReachAll | src/evlan/vm/builtin/atom.cc:399-428 | with a prime number of buckets the first probes visit every bucket exactly once |
| AtomTables.PrimeDividesNeither | src/evlan/vm/builtin/atom.cc:399-428 | a prime divides no product of two smaller positive numbers, proved from the definition |
| AtomTables.AdvancingFits | src/evlan/vm/builtin/atom.cc:420-422 | advancing stays within 32 bits, whatever the atom's address, a multiple of eight, exactly for tables of at most 2^30 + 1 buckets |
| AtomTables.AtomTable.Insert | src/evlan/vm/builtin/atom.cc:431-440 | probing terminates, and afterwards the table represents one more atom |
| AtomTables.AtomTable.Lookup | src/evlan/vm/builtin/atom.cc:443-455 | finds the position of the atom's first occurrence, or -1 |
| AtomTables.FirstIndex | src/evlan/vm/builtin/atom.cc:443-455 | the linear search that the table refines |
| AtomTables.ComputeTableSize | src/evlan/vm/builtin/atom.cc:376-395 | the smallest listed size of at least twice the number of elements, and more than that; -1 when there is none |
| AtomTables.BuildTable | src/evlan/vm/builtin/atom.cc:568-623 | an array of atoms becomes a table of exactly those atoms, of the smallest listed size; anything else is refused, with the reason |
| Parallel.RunAll | src/evlan/public/server.cc:210-265 | in every order of completion, with every mix of errors, the final callback is called exactly once if 0 <= abandon_count < count and never otherwise, with count - abandon_count results from their own calls and the default elsewhere: of the calls that have returned by then, those are missing that are among the first abandon_count errors to return, and so are all later ones; the state is freed at the end |
| Parallel.NoErrorPassedOn | src/evlan/public/server.cc:222-230 | if no more calls fail than may be abandoned, no error is passed on |
| Parallel.ParallelState.Complete | src/evlan/public/server.cc:210-265 | one completion, including late ones after the result has been delivered: an error is abandoned while that is allowed, and anything else kept; freed by the last one only |
| Pools.PoolAllocator.Allocate | src/evlan/vm/memory/pool_allocator.cc:41-65 | the new block overlaps no live block and lies in an owned pool; it is taken from the current pool exactly if there is room, and a pool is given up only when less is left of it than the threshold for separate allocation |
| Pools.PoolAllocator.Free | src/evlan/vm/memory/pool_allocator.cc:67-76 | memory is taken back exactly if the block is the last of the current pool |
| Pools.Align | src/evlan/vm/memory/pool_allocator.h:58-71 | rounds up to a multiple of eight, for every size that allows it without overflow |
| Pools.BraindeadMemoryManager.AllocateBytes | src/evlan/vm/memory/braindead_memory_manager.cc:37-42 | gives back what was withdrawn, and only then takes a new block |
| Pools.BraindeadMemoryManager.TryWithdrawBytes | src/evlan/vm/memory/braindead_memory_manager.cc:61-70 | succeeds exactly for the last block; its memory stays reserved until the next allocation |
| Pools.BraindeadMemoryManager.NothingOverlaps | src/evlan/vm/memory/braindead_memory_manager.cc:61-77 | after every sequence of operations, blocks in use and blocks withdrawn are disjoint and inside owned pools |
| Pools.BraindeadMemoryManager.NothingLost | src/evlan/vm/memory/braindead_memory_manager.cc:61-77 | after every sequence of operations, what is taken of the current pool is the sum of its blocks in use and of those withdrawn since the last allocation: withdrawn memory is used again |
| ImportResolvers.MappedImportResolver.Import | src/evlan/public/import_resolver.cc:58-90 | the backward search finds what the longest mapped prefix of the name leads to, or nothing; a sub-resolver is asked for the rest of the name |
| ImportResolvers.MappedImportResolver.Map | src/evlan/public/import_resolver.cc:44-51 | maps the name, replacing what was there, and keeps the order |
| ImportResolvers.ReachesResolver | src/evlan/public/import_resolver.cc:58-90 | an import gets to the resolver of a prefix exactly when no longer name in the map is a prefix of it |
| ImportResolvers.ValueHidesPrefix | src/evlan/public/import_resolver.cc:58-90 | a value hides shorter prefixes from imports that go on from its name |

## Left out

- EndToEnd.DeliversIffMeant: for programs in which no binding takes more than one recursive variable; what a tuple of several means depends on an import that the program itself must supply (Lookups.TupleImportMissing).
- Generator.CompileProgram: requires that what code generation looks up for tuples of recursive variables is registered, without which the source stops (Lookups.CompilesExactlyWhen).
- Loader.InterpretCodeTree: what follows a read past the table's end, of memory that is not part of the table, is not modelled (Folding.PastTheEnd).
- Validation.UnmarshallingSession.Validate: requires that no reference leads before the first value, because there is no lower bound in the code (Validation.SlotsExist, Validation.SlotBeforeFirst).
- Rebuilding.Unmarshal: requires that both indices of a call are present, which the code does not check.
- AtomTables.BuildTable: requires that the listed sizes are prime, and leaves out arrays of more than 402653228 atoms that still get a table, for which 32-bit arithmetic overflows.
- Receiving.Transfer: what the machine makes of a function or a call is represented by its content: form and parts.
- PushPull.Exchange: has one index space for all values of a message; numbering by type is in Renumbering. The first push of a call with its argument is not part of this exchange.
- Sessions.AnyInterleaving: takes the RPC system's contract from its documentation (cancellation is told once, no messages after the stream has stopped); the reuse of client sessions and the worker map are not modelled.
- Collector.Visitor.VisitRoot: requires that the memory guides pass the collector's own checks and that reachable objects are finite; a pointer takes one cell, so partial overlap of two pointers cannot be expressed. A raw pointer's uninitialised count is taken as zero.
- Collection.Collect: allocation ages, pruning of object trackers and backlinks, and the renumbering of allocations are not modelled.
- Parser.ParseStatement: leaves out tokenising, number and escape conversion, floats, `where` and `of` blocks, `if`, booleans, objects and arrays; their keywords are errors here.
- Printing.PrintedParses: function literals are printed in parentheses, in the form with a parameter list.
- Two bindings of one name in a block, which the parser reports as an error, are looked up by the first.
- The order in which literals of one kind are numbered follows the source's maps and is left open.
- Native functions that call back into the machine and then go on are not modelled; they can return or make a tail call.
- Negative instructions in a code tree, and the use of the environment's last slot as a value.
- Withdrawal of memory inside the interpreter, which only saves memory.
- Hashing of value IDs: an ID is the content, so different values have different IDs.
- RPC transport, sockets, file access, flags, the atom registry's locking, protocol buffer reflection, and the standard library written in Evlan.
