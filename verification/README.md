# Verified model of the Simple compiler's middle end

A Dafny 4.11 model, with proofs, of the parts of the compiler whose correctness is hardest to see by reading:

* **Lowering.** `generate_runtime_statements` and `do_generate_function` turn structured statements into blocks of register
  instructions by updating a `GenerationContext`. The model covers integer and boolean locals, pure integer and boolean
  expressions, conversions between integer types, if / else-if / else, while, for, break, return and nested scopes. The source
  language has a big-step semantics with a step budget over mathematical integers (`Source.dfy`); the instructions run on a
  small-step machine with n-bit registers and one memory slot for each local (`Hlir.dfy`). What the generator computes is
  written once as functions on a context value (`Lowering.dfy`), and the generator itself is the class
  `GenerationContext` (`HlGenerator.dfy`), whose methods are proved to leave the context those functions give. Which functions
  compile is said apart from the generator, by typing rules over names, types and constants (`Typing.dfy`): exactly the
  well-typed ones do (`StatementTyping.FunctionTyped`).
* **The driver loop.** `cli_entry` runs jobs that finish, fail or wait for one another. `Scheduler.dfy` has the loop for any
  runs that wait only for existing jobs that are not done; `Driver.dfy` has the runs: parsing a file, deciding a static-if,
  resolving a declaration, generating a function or a static variable, each of which looks names up and waits. They are proved
  to be of that kind, so that the theorem about a whole program has no assumption on runs (`Compilation.CompileProgram`). It
  says what each outcome means: success, that the table of jobs solves the program; failure, that something in the program is
  at fault; a circular dependency, that every unfinished job needs what the job it waits for finds out.
* **Name lookup** in a program some of whose static-ifs are not decided yet, with usings that name files or enums.
* **Jobs created on demand** for instances of polymorphic types and for functions.
* **Arithmetic and codecs**: constant folding, decimal numerals, UTF-8, link names, struct layout.

`dafny verify dfyconfig.toml` checks everything. The files, from the bottom up:

| files | contents |
|---|---|
| Options, Integers, IntegerLaws, DivisionLaws | n-bit encodings of integers, truncated division, bit operations |
| Ast, Source | the source fragment and its meaning |
| Hlir | the instructions and the machine that runs them |
| Folding, FoldingProofs | 64-bit constant folding against n-bit execution |
| Typing | when expressions, statements and functions are well-typed |
| Lowering, ConstantScopes, ScopeProofs, HlGenerator | what the generator computes, and the generator |
| OperationProofs, ExpressionProofs, ContextProofs, SimpleStatementProofs, FinisherProofs, LoopProofs, FlowProofs, Preservation | the simulation proof |
| FunctionProofs, Equivalence | whole functions: same result, same undefined behaviour, same divergence |
| FoldedSource, FoldedSimulation | constant folding as a step of its own, which changes none of the code; the simulation of all code that compiles |
| TypingProofs, StatementTyping | exactly the well-typed expressions, statements and functions compile |
| ControlFlow, Terminators | labels and terminators of the emitted blocks |
| BackendChecks, BackendExpressions, BackendProofs, BackendTheorems | operand types, numbering of registers, definite assignment |
| TripCount | for loops and the range of their bounds |
| Deviations | concrete functions on which lowering does not preserve meaning |
| Scheduler, NameLookup, LookupLaws, Instantiation | the driver loop, name lookup and what answers it, jobs on demand |
| References, Driver, Compilation | the table of jobs and what generated code refers to; the runs of jobs; a whole program |
| Numerals, LinkNames, Utf8, Layout | the arithmetic and codec cores |

## Where the code is not what one would expect

These are kept as they are in the code; each has a lemma, and where a property fails because of one the exact condition is proved.

* Folded constants of a given type are kept as 64-bit words and are not cut down to the size of the type. `(200 + 100) / 3`
  on unsigned 8-bit constants folds to 100, while running it gives 14 (`Deviations.FoldedDivisionDiffers`). The theorems in
  `Equivalence.dfy` therefore say two things of every function that compiles: its code does what the function with its
  constant expressions replaced by what they fold to does (`FoldFunction`), and it does what the function itself does if
  every fold is faithful. A function that returns one constant expression returns the same before and after lowering exactly
  if its fold is faithful (`Deviations.ConstantReturnedExactly`). For each operator faithfulness is the exact condition under which the fold of two words agrees
  with the operation (`FoldingProofs.FaithfulExactly`). With the excess of a word for what is above the bits of its type,
  zero for an extended value:
  + addition, subtraction, multiplication, `&` and `|` agree on all words;
  + a left shift by less than the size of the type, a right shift if besides the bits shifted in, the excess modulo
    2 to the shift, are zero;
  + `==` and `!=` if the excesses are equal or the values differ; `<` and `>` if the excesses are equal or ordered as the values;
  + `/` and `%` if the divisor is not zero at the size of the type, the quotient does not overflow there, and, for a divisor
    without excess, the divisor divides the dividend's excess (for `%` the excess times the number of values of the type) and
    also the dividend's value if that has another sign than its word; for a divisor with an excess `FaithfulQuotient` and
    `FaithfulRemainder` only rearrange the comparison of the two results;
  + a negation exactly if the constant has no given type.
* Negating a constant of a given integer type makes its type undetermined, so that a function can compile although it returns
  a value of another type than its own (`Deviations.NegationLosesType`, `Deviations.NegationIsIllFormed`).
* A for loop whose upper bound is the largest value of its type starts over from the smallest one
  (`TripCount.VisitsRangeExactly`, `TripCount.LargestBoundNeverEnds`).
* A for body that ends in a break or return, and a return without values followed by a declaration, leave a dead tail behind
  the block's terminator (`Terminators.BlocksEndOnce`).
* A constant of a scope is found inside a taken static-if before a later `using` has its turn, so an answer can change when a
  static-if is decided (`NameLookup.StableExactlyWithoutConstants`).
* The equality of polymorphic structs and unions is inverted, and `undef` and a float that is not a number equal nothing, so a
  request that mentions one never finds its own job (`Instantiation.SameAsItself`, `Instantiation.RetriesRepeatJob`), and one
  with a polymorphic struct gets the job made for another struct (`Instantiation.OtherStructMatches`). All other keys are the
  same exactly if they are equal (`Instantiation.SameExactly`).
* Binary numerals accept the digits of octal ones (`Numerals.DigitsBelowRadixExactly`).
* The size of a struct is not rounded up to its alignment (`Layout.TailIsNotPadded`, `Layout.ElementsAlignedExactly`).

## Model

| member | source | states |
|---|---|---|
| Equivalence.ReturnsPreserved | src/hl_generator.cpp:6093-6262 | For every function that compiles and all arguments, the code returns a value exactly if the function with folded constants does, and then the n-bit representation of the same value; with faithful folds, exactly if the function itself does |
| Equivalence.UndefinedPreserved | src/hl_generator.cpp:6093-6262 | The code runs into undefined behaviour (division by zero, overflowing quotient, oversized shift) exactly if the function with folded constants does; with faithful folds, exactly if the function itself does |
| Equivalence.DivergencePreserved | src/hl_generator.cpp:6093-6262 | The code runs for ever exactly if the function with folded constants does; with faithful folds, exactly if the function itself does |
| Equivalence.NeverRejected | src/hl_llvm_backend.cpp:768-783 | No run of compiled code reads an unset register, uses an operand of the wrong kind, falls off a block or jumps out of the function |
| Equivalence.CompiledIsWellFormed | src/hl_generator.cpp:5136-6091 | Every function that compiles, with its constants folded, meets every typing rule of the source semantics when it is called and returns a value of its return type; with faithful folds the function itself does |
| StatementTyping.FunctionTyped | src/hl_generator.cpp:6093-6262 | A function compiles exactly if it is well-typed: every type is one that values can have, at most one value is returned, the statements are well-typed with the parameters that can be seen, and a function with a return value ends in a return |
| StatementTyping.StatementsTyped | src/hl_generator.cpp:5136-5158 | A statement list compiles, in any context, exactly if its statements are well-typed one after the other and nothing that runs follows a return or break |
| StatementTyping.StatementTyped | src/hl_generator.cpp:5160-6091 | A statement of any kind compiles exactly if it is well-typed, and leaves the variables the rules say: a declaration needs a name that is free in its scope, a break a loop around it, conditions are boolean, a loop's bounds have values at the type of its index |
| TypingProofs.ExpressionTyped | src/hl_generator.cpp:2446-4760 | An expression compiles, after any code, exactly if it is well-typed, to a value of its type; to a constant exactly if it mentions no variable |
| TypingProofs.ConstantTyped | src/constant.cpp:675-1193 | A constant expression folds exactly if it is well-typed, to a constant of its type |
| TypingProofs.FoldsExactly | src/constant.cpp:705-845 | Two words fold exactly if the operator is one on integers, no divisor is zero, no signed quotient overflows 64 bits and no shift is by 64 bits or more |
| Ast.FindIsInnermost | src/hl_generator.cpp:2466-2478 | A name means the first variable of that name in the innermost scope that has one |
| FoldedSimulation.CallSimulated | src/hl_generator.cpp:6093-6262 | Of every function that compiles: within any step budget the code mirrors the outcome of the function with folded constants; if that uses the budget up, the code takes at least as many steps |
| FunctionProofs.SimulateParameters | src/hl_generator.cpp:6188-6213 | Copying the parameters to locals binds every argument to its name; of two parameters with one name the first is seen |
| FoldedSimulation.StatementsSimulated | src/hl_generator.cpp:5136-6091 | Running the code of any statement list that compiles, from the open block, ends where the outcome of the folded list says: past the code, at the break target, or halted, with the variables of the resulting store |
| FoldedSimulation.StatementSimulated | src/hl_generator.cpp:5160-6091 | The same for a single statement of any kind |
| Preservation.SimulateIf | src/hl_generator.cpp:5509-5667 | The first arm whose condition holds runs, otherwise the else, and control reaches the end block |
| Preservation.SimulateWhile | src/hl_generator.cpp:5668-5741 | From its head block a while loop does what its iterations mean, including break, return, undefined behaviour and running out of budget |
| Preservation.SimulateFor | src/hl_generator.cpp:5742-5911 | From its head block a for loop does what its iterations mean; the next index is the one the head loaded plus one, whatever the body assigns |
| FoldedSimulation.ExpressionSimulated | src/hl_generator.cpp:2446-4760 | The code of any expression that compiles leaves memory and older registers alone and gives the value of the folded expression, or the same undefined behaviour |
| OperationProofs.IntegerOperationCorrect | src/hl_generator.cpp:1790-1907 | The instruction selected for an operator computes on n-bit patterns what the operator means on the integers they represent |
| SimpleStatementProofs.SimulateDeclaration | src/hl_generator.cpp:5164-5286 | A declaration adds a variable whose local holds the converted initial value and changes no other variable |
| SimpleStatementProofs.SimulateAssignment | src/hl_generator.cpp:5356-5390 | An assignment changes exactly the innermost variable of the name |
| SimpleStatementProofs.SimulateCondition | src/hl_generator.cpp:5524-5545 | A condition branches to the block of its truth value with the variables unchanged |
| SimpleStatementProofs.SimulateReturn | src/hl_generator.cpp:5912-5980 | A return halts with the representation of the returned value at the return type |
| SimpleStatementProofs.SimulateBreak | src/hl_generator.cpp:5981-5992 | A break goes to the end block of the innermost loop with the variables outside the current scope unchanged |
| FinisherProofs.StatementsFinisher | src/hl_generator.cpp:5146-5158 | The assertion at the start of every statement: the open block lacks a terminator exactly if the list so far does not end in a return or break |
| ControlFlow.LabelsPlacedOnce | src/hl_generator.cpp:5094-5123 | Every block that is allocated is placed in the function exactly once, and no other is |
| BackendTheorems.ClosedGraph | src/hl_llvm_backend.cpp:1908-1955 | Block 0 comes first and every target of a jump or branch, reached or not, is the label of exactly one block |
| Terminators.BlocksEndOnce | src/hl_generator.cpp:5890-5911 | Every block ends in a terminator, and all have exactly one if and only if the function has neither of the two kinds of dead tail |
| BackendTheorems.DefinitelyAssigned | src/hl_generator.cpp:5509-5911 | On every path of the control-flow graph from block 0 control stays in the function, and each register that is read is a parameter or was written earlier on the path |
| BackendTheorems.RegistersInLayoutOrder | src/hl_llvm_backend.cpp:768-783 | In layout order registers are written once each, numbered one after the other from the parameters on, and read only after they are written |
| BackendTheorems.BackendAccepts | src/hl_llvm_backend.cpp:1266-2147 | One type for every register satisfies the backend's assertions on operand kinds, equal sizes, strict extension and truncation, branch conditions and return type |
| BackendTheorems.FunctionChecked | src/hl_llvm_backend.cpp:1266-2147 | Every function the generator accepts passes the block-by-block check |
| TripCount.LoopVisitsRange | src/hl_generator.cpp:5742-5911 | With an upper bound below the largest value of the index type, the loop runs its body once for each value from the lower to the upper bound in order |
| TripCount.VisitsRangeExactly | src/hl_generator.cpp:5811-5909 | That holds for all loops with an upper bound if and only if the bound is below the largest value |
| TripCount.LargestBoundNeverEnds | src/hl_generator.cpp:5811-5909 | A loop without a break up to the largest value never ends normally |
| FoldedSimulation.LoopSimulated | src/hl_generator.cpp:5795-5909 | The emitted loop, from its head block, does for each value of the range what the folded body means |
| FoldedSource.FunctionUnchanged | src/constant.cpp:675-1193 | Replacing constant expressions by what they fold to changes no block of any function, and leaves no unfaithful fold in one that compiles |
| FoldedSource.FoldingKeepsMeaningExactly | src/constant.cpp:675-1193 | Replacing a constant expression with faithful parts keeps its meaning exactly if its own fold is faithful |
| FoldingProofs.FaithfulExactly | src/constant.cpp:705-845 | For every operator and any two 64-bit words that fold, the folded result cut down to the type is the n-bit operation on the cut-down words exactly if the operation is faithful |
| FoldingProofs.CanonicalExactly | src/constant.cpp:705-845 | A word compares with every extended value as its own value does, for equality and for order, exactly if it is an extended value itself |
| FoldingProofs.DivisionAgrees | src/constant.cpp:741-754 | A folded division agrees exactly if the divisor is not zero at the size of the type, the quotient does not overflow and what is above the bits of the dividend is divided too |
| FoldingProofs.ModuloAgrees | src/constant.cpp:755-768 | The same for the remainder |
| FoldingProofs.RightShiftAgrees | src/constant.cpp:790-803 | A folded right shift agrees exactly if it is shorter than the type and shifts in zeros |
| FoldingProofs.BinaryFoldAgrees | src/constant.cpp:675-905 | Folding two typed constants, with the conversion to their common type, gives the value of the operation exactly if it is faithful |
| FoldingProofs.CastAgrees | src/constant.cpp:1113-1193 | Folding a conversion gives the value of the conversion |
| FoldingProofs.FoldAgrees | src/constant.cpp:675-1193 | Any tree of faithful folds gives the value that evaluating the expression gives |
| FoldingProofs.FoldsRightExactly | src/constant.cpp:675-1193 | A tree whose parts are faithful folds to its value exactly if its own fold is faithful |
| Deviations.ConstantReturnedExactly | src/constant.cpp:675-1193 | A function that returns a constant expression of its return type, with faithful parts, compiles, and its code returns exactly what the function returns if and only if the fold is faithful |
| Deviations.FoldedDivisionDiffers | src/constant.cpp:705-845 | A function that returns 14 when its operations are computed and 100 when they are folded |
| Deviations.NegationLosesType | src/hl_generator.cpp:4325-4332 | The negation of any constant of a given type becomes an undetermined integer; used at its own type it is refused or has the negated value, and when it is refused is stated exactly |
| Deviations.CanonicalAcceptsNegated | src/hl_generator.cpp:4325-4332 | Of the extended constants of a type, the negation of exactly these can be used at the type: all of 64 bits, of shorter signed types all but the least, of shorter unsigned types only zero |
| Deviations.NegationIsIllFormed | src/hl_generator.cpp:4325-4332 | A function that returns the negation of a constant of another integer type compiles exactly if the 64-bit word is acceptable, and is ill-formed |
| HlGenerator.DoGenerateFunction | src/hl_generator.cpp:6093-6262 | The generator succeeds exactly for well-typed functions, and then produces exactly the blocks of the specification; its assertions hold; on success exactly the listed child scopes have been pulled, and no two of them are the same |
| HlGenerator.GenerationContext.GenerateRuntimeStatements | src/hl_generator.cpp:5136-5158 | The statement loop leaves the specified context, and consumes exactly the child scopes of its statements |
| HlGenerator.GenerationContext.PushScope | src/hl_generator.cpp:5548-5566 | The child scope pulled from the list for a body is, by its place in the list, the scope of that body below the current scope |
| HlGenerator.GenerationContext.GenerateIf | src/hl_generator.cpp:5509-5667 | The arms and the else get their blocks and scopes as specified |
| HlGenerator.GenerationContext.GenerateWhile | src/hl_generator.cpp:5668-5741 | A while loop gets its head, body and end blocks, and its end as break target inside the body only |
| HlGenerator.GenerationContext.GenerateFor | src/hl_generator.cpp:5742-5911 | A for loop gets its index, limit, test, body and increment as specified |
| HlGenerator.GenerationContext.GenerateReturn | src/hl_generator.cpp:5912-5980 | A return converts its value to the return type or fails |
| HlGenerator.GenerationContext.GenerateVariableDeclaration | src/hl_generator.cpp:5164-5286 | A declaration allocates a local of the declared or default type, or fails |
| HlGenerator.GenerationContext.GenerateStore | src/hl_generator.cpp:5356-5508 | An assignment generates target and value in that order and stores the converted value, or fails |
| HlGenerator.GenerationContext.GenerateBinaryOperation | src/hl_generator.cpp:1728-1986 | Two constants are folded, otherwise both operands go into registers of the common type and the operation follows; it succeeds exactly if the operation is well-typed with the types of the variables, with a value of its type |
| HlGenerator.GenerationContext.GenerateCast | src/hl_generator.cpp:4449-4535 | A conversion is folded, implicit, or an extension, a truncation or nothing |
| HlGenerator.GenerationContext.GenerateNegation | src/hl_generator.cpp:4309-4370 | A negation is folded or a subtraction from zero |
| HlGenerator.GenerationContext.GenerateInversion | src/hl_generator.cpp:4263-4307 | A boolean inversion is folded or an instruction |
| HlGenerator.GenerationContext.GenerateInRegisterValue | src/hl_generator.cpp:956-983 | A value is loaded as a literal, from its local, or is in its register already |
| HlGenerator.GenerationContext.CoerceToTypeRegister | src/hl_generator.cpp:985-1140 | A value goes into a register of the target type exactly if it has the type or is an integer literal that fits it |
| HlGenerator.GenerationContext.AddNewVariable | src/hl_generator.cpp:130-158 | A variable joins the innermost scope exactly if the scope has none of its name; otherwise nothing changes |
| HlGenerator.GenerationContext.FindVariable | src/hl_generator.cpp:2466-2478 | The innermost variable of a name is found |
| HlGenerator.GenerationContext.EnterNewBlock | src/hl_generator.cpp:5094-5113 | A new block is entered, with a jump if one is needed, unless the open block is empty |
| HlGenerator.GenerationContext.ChangeBlock | src/hl_generator.cpp:5115-5123 | The open block, which must have its terminator, is closed |
| HlGenerator.GenerationContext.GenerateParameters | src/hl_generator.cpp:6188-6213 | Every parameter is copied to a local of its own |
| ScopeProofs.StatementsConsume | src/hl_generator.cpp:5136-6091 | Generating a statement list opens as many child scopes as are listed for it and closes them all |
| ConstantScopes.ScopeList.ProcessScope | src/constant.cpp:4276-4363 | The child scopes of a statement list are appended in pre-order, one for each arm, else and loop body, with the right parent and the number of its place |
| Scheduler.RunJobs | src/main.cpp:512-1124 | With n jobs in the table the loop has made at most n*n + n job runs and searches, so it stops unless more jobs are created than any given number; success means all jobs are finished, each once, and what finding main establishes holds; a reported circular dependency is a deadlock; it fails only in a state that the loop reaches and whose next run or search fails; every property of the table that the runs keep holds at the end, and the state is the one that as many iterations of the loop give |
| Scheduler.IterationsRefined | src/main.cpp:512-1124 | Runs and searches that differ from others only where those fail take the loop through the same states |
| Scheduler.FirstRunnable | src/main.cpp:514-524 | The job that runs is the first that is not done and does not wait for an unfinished job |
| Scheduler.RunJob | src/main.cpp:526-993 | A run finishes the job or makes it wait, appends jobs, leaves every finished job as it is and is accounted for |
| Scheduler.SearchMain | src/main.cpp:1003-1105 | The search for main runs only when what it waited for is done, and then finishes or waits for an unfinished job |
| Scheduler.RunAccounted | src/main.cpp:512-993 | The jobs one job waits for are distinct and done by the time it runs again, so its runs are counted by them |
| Scheduler.RunsBounded | src/main.cpp:512-993 | No job runs more often than there are jobs |
| Scheduler.DeadlockHasCycle | src/main.cpp:1112-1125 | From any unfinished job of a deadlock, following what is waited for stays in unfinished jobs and runs into a cycle |
| Scheduler.StaticsRegisteredOnce | src/main.cpp:895-962 | When all jobs are finished everything a job produced, a function with the constants beside it or a variable, is registered exactly once and nothing else is |
| NameLookup.SearchForName | src/constant.cpp:2054-2231 | The search loop computes the specified answer and whether the statement to ignore was reached |
| NameLookup.EvaluateName | src/constant.cpp:2349-2392 | A name means what the innermost scope that has it says, however many scopes are in between, and what it means everywhere if none has it; a member is a public name of a file or a variant of an enum, and nothing else has members |
| NameLookup.AnswerIsStable | src/constant.cpp:2054-2231 | Once a name is found, not found, or an error, it has the same answer for every later job table, through any usings whose own names are looked up in the same way; while it is awaited, for every table in which the same job is still not done |
| NameLookup.OrderDoesNotMatter | src/constant.cpp:2054-2231 | Two schedules that both have an answer have that of the fully resolved program, however deep each followed usings |
| NameLookup.SearchDeeper | src/constant.cpp:2098-2121 | A search that is not cut off has the same answer when usings may be followed deeper |
| NameLookup.CannotHave | src/constant.cpp:1636-1722 | An undecided static-if that is skipped does not have the name, however it and those inside it are decided |
| NameLookup.SearchSensible | src/constant.cpp:1752-1760 | In scopes that have been processed a search waits only for a job that exists and is not done, and finds only files that have been parsed |
| NameLookup.StableExactlyWithoutConstants | src/constant.cpp:2153-2226 | Answers are stable in every program exactly if the scope has no constants: with one, a `using` of an imported enum of the same name changes its answer once a static-if before it is taken |
| LookupLaws.DeclarationAnswers | src/constant.cpp:2066-2084 | The first declaration of a name answers wherever it stands, with its value or the job that resolves it; from outside only if it is public |
| LookupLaws.OwnStaticIfEnds | src/constant.cpp:2087-2094 | At the static-if whose condition is being evaluated the search ends with the constants of the scope |
| LookupLaws.UsedFileAnswers | src/constant.cpp:2096-2124 | A using of a file answers with what the file has in public; from outside only if it is exported |
| LookupLaws.UsedEnumAnswers | src/constant.cpp:2125-2140 | A using of an enum answers with the first variant of the name |
| LookupLaws.UsedMustBeThere | src/constant.cpp:2096-2151 | What a using names must be there and be a file or an enum; what it waits for is waited for |
| LookupLaws.TakenIsSearched | src/constant.cpp:2152-2191 | A taken static-if answers with what is inside it, private or not |
| LookupLaws.UndecidedIsAwaited | src/constant.cpp:2192-2203 | An undecided static-if that could have the name is waited for |
| LookupLaws.PassedOverIsAbsent | src/constant.cpp:2087-2214 | Refused static-ifs, undecided ones that cannot have the name and, from outside, usings that are not exported might as well not be there |
| LookupLaws.ConstantsAnswerLast | src/constant.cpp:2216-2231 | If no statement answers, the constants of the scope do |
| LookupLaws.CouldHaveExactly | src/constant.cpp:1636-1722 | A static-if could have a name exactly if, decided in some way, it does: no other is waited for |
| Instantiation.JobTable.Demand | src/constant.cpp:2875-2913 | A job is found or created; none is created for a key that an earlier job has; for a key that is the same as itself, the job returned is the first with that very key |
| Instantiation.RunHasNoRepeats | src/constant.cpp:2875-2983 | Over any run of demands no job is repeated |
| Instantiation.RetryFindsJob | src/constant.cpp:2875-2913 | A demand repeated after any others finds its job exactly if the job was there before or its key is the same as itself |
| Instantiation.RetriesRepeatJob | src/constant.cpp:2875-2913 | A key that is not the same as itself gets a new job at every retry |
| Instantiation.SameAsItself | src/hl_generator.cpp:3464-3497 | When a key is the same as itself, for instances and for functions |
| Instantiation.ConstantEqualsItself | src/constant.cpp:1900-1976 | A constant equals itself exactly if it has no undef, no float that is not a number and no polymorphic type in it |
| Instantiation.TypeEqualsItself | src/types.cpp:5-141 | A type equals itself exactly if it mentions no polymorphic struct or union |
| Instantiation.SameExactly | src/hl_generator.cpp:3464-3497 | A key that is the same as itself is the same as no other key |
| Instantiation.TypesEqualExactly | src/types.cpp:5-141 | Types that mention no polymorphic struct or union are equal for the compiler exactly if they are |
| Instantiation.ConstantsEqualExactly | src/constant.cpp:1900-1976 | Constants with no part that is unequal to itself are equal for the compiler exactly if they are |
| Instantiation.OtherStructMatches | src/types.cpp:70-74 | A demand with a polymorphic struct finds the job for any other such struct, and never the one for its own |
| References.EveryReferenceResolves | src/hl_llvm_backend.cpp:2293-2306 | When all jobs are finished, every reference is to a static that is registered exactly once, and exactly what the jobs produced is registered |
| References.RunKeepsSound | src/main.cpp:526-993 | A run that looks for functions before it appends them and refers to what jobs produce keeps both properties of the whole table |
| References.OneJobForEach | src/hl_generator.cpp:3464-3497 | If no job was created for a key that an earlier job had, no two jobs generate the same function, for keys that are the same as themselves |
| References.RequestFunction | src/hl_generator.cpp:3464-3497 | A call refers to the first job that generates its function, or to a new one if there is none; if its key is the same as itself, the job has that very key |
| References.RequestIsDemand | src/hl_generator.cpp:3464-3497 | On the functions of the table a request is a demand for a key |
| References.RegisterDeclaration | src/main.cpp:614-644 | A resolved function gets a job exactly if none has its declaration and scope |
| References.RegisteredIsNew | src/main.cpp:614-644 | That the type is not compared does no harm: the new job is not a second one for its key |
| References.RequestsAppend | src/hl_generator.cpp:3464-3551 | All requests of one pass over a function together append only functions that were looked for, and refer to jobs of functions |
| References.RetryCreatesNothing | src/hl_generator.cpp:4154-4193 | A pass that waited and is repeated after any other runs creates no job and refers to the same ones, for keys that are the same as themselves |
| Compilation.CompileProgram | src/main.cpp:512-1124 | For every program: with n jobs at most n*n + n runs and searches have been made. On success the table solves the program: every static-if is decided as its condition evaluates in the table itself, every declaration has the value its names give, every function refers to exactly the functions its body names, the variables it uses and its own constants; the statements of parsed files and taken static-ifs, and no others, have one job each; every reference is to a static registered exactly once; `main` is a function as it has to be and has its job; no two jobs generate the same function (for keys that are the same as themselves). On failure something in the program is at fault in the table where it fails. A circular dependency is a deadlock in which every unfinished job needs what it waits for. Unless the run failed, jobs and order of finishing are the same at every greater depth of usings |
| Compilation.RunFailsExactly | src/main.cpp:526-993 | A run fails exactly if its job is at fault: for a file that does not exist, or when a name has no value, a variable no job or an expression no result, all that it evaluates before having one |
| Compilation.SearchFailsExactly | src/main.cpp:1003-1105 | The search for `main` fails exactly if there is none or it is not a function without parameters that returns a signed 32-bit integer |
| Compilation.StillNeeds | src/main.cpp:526-993 | What a job needs from another it needs in every later table in which the other is not done |
| Compilation.RunsWaitRightly | src/main.cpp:526-993 | After every run each waiting job needs what the job it waits for finds out, unless that is done |
| Compilation.DeeperIsSame | src/constant.cpp:2098-2121 | A run of the driver that does not fail goes through the same states when usings may be followed deeper |
| Driver.MainHasJob | src/main.cpp:1083-1102 | Once the declaration of `main` is resolved, the job that generates it is in the table: the assertion that it is found holds |
| Driver.MainStays | src/main.cpp:1003-1105 | Once `main` and its job are found, no later run changes what they are |
| Driver.RunsAreGood | src/main.cpp:526-993 | Every kind of run keeps the invariant of the table and waits only for a job that exists and is not done |
| Driver.NameStopsWell | src/constant.cpp:2054-2231 | The job a name waits for is always in the table: the assertion that it is found holds |
| Driver.ScopeHasJobs | src/constant.cpp:4177-4419 | Processing a scope leaves a job for each of its declarations, imports, static-ifs and static variables, and none twice: no file is parsed, no statement handled more than once |
| Driver.ProcessScope | src/constant.cpp:4177-4419 | The loop over the statements of a scope appends their jobs in order |
| Compilation.AnswersStayOverRuns | src/constant.cpp:2054-2231 | What a name of a file stands for does not change from one run of the driver to the next |
| Numerals.IntToChars | src/string.cpp:186-220 | The buffer starts with the digits of the number, most significant first |
| Numerals.ReverseInPlace | src/string.cpp:210-217 | The reversal loop swaps every digit with its mirror image exactly once |
| Numerals.ReadInteger | src/lexer.cpp:866-891 | The right-to-left place-value loop computes any numeral modulo 2^64, or stops at what is not a digit |
| Numerals.NumeralIsRead | src/lexer.cpp:866-891 | The digits of a number, in binary, octal, decimal or hexadecimal, have its value |
| Numerals.DigitsBelowRadixExactly | src/lexer.cpp:866-887 | All accepted digits are below the radix except in binary, which accepts the digits of octal |
| Numerals.DigitsAccepted | src/lexer.cpp:866-887 | A byte is accepted as a digit exactly if it writes one, letters in either case, and the value is below the radix, or below 8 in binary |
| Numerals.AnyCaseIsRead | src/lexer.cpp:866-891 | The digits of a number are read back whatever the case of each letter |
| Numerals.IntegerRoundTrip | src/string.cpp:222-231 | The decimal digits of a 64-bit number fit the buffer and are read back as the number |
| LinkNames.MapNames | src/hl_llvm_backend.cpp:808-881 | It fails exactly on a conflict; otherwise every static has a name, names are distinct and not reserved, no_mangle names are kept, and each of the others keeps its own name if nothing else has it, or has the first with a number that nothing else has |
| LinkNames.KeepNames | src/hl_llvm_backend.cpp:810-835 | The no_mangle names are kept exactly if none is reserved or repeated |
| LinkNames.FreeName | src/hl_llvm_backend.cpp:839-878 | Probing stops at the first free candidate, after no more tries than there are names taken |
| LinkNames.CandidatesDiffer | src/hl_llvm_backend.cpp:845-849 | The candidates of one name are pairwise different |
| LinkNames.OneNameEach | src/hl_llvm_backend.cpp:881 | There are as many mappings as statics |
| Utf8.EncodeDecode | src/string.cpp:233-265 | For every code point below 2^21, decoding its encoding gives it back and the lexer moves past exactly its bytes |
| Utf8.DecodeEncode | src/lexer.cpp:135-247 | Whatever decodes starts with the encoding of the code point it decodes to: no overlong form is accepted |
| Utf8.SurvivesExactlyBelowLimit | src/string.cpp:233-265 | A code point survives encoding and decoding exactly if it is below 2^21 |
| Utf8.ValidateUtf8String | src/string.cpp:6-106 | The validator accepts exactly the concatenations of encodings of code points below 2^21 |
| Utf8.EncodedIsValid | src/string.cpp:6-106 | Encoded strings are valid and decode to the same code points |
| Utf8.Lexer.ConsumeCharacter | src/lexer.cpp:135-263 | Reading a character moves the index past exactly the bytes of its encoding |
| Layout.AlignmentIsPowerOfTwo | src/types.cpp:358-418 | Every alignment is a power of two |
| Layout.MemberAlignmentDivides | src/types.cpp:406-418 | The alignment of every member divides that of the whole |
| Layout.OffsetIsLeast | src/types.cpp:443-475 | An offset is the least aligned one at or after the end of the previous member |
| Layout.MembersDoNotOverlap | src/types.cpp:443-475 | Every member ends before any later member starts |
| Layout.ScalarHoldsBits | src/types.cpp:382-389 | A scalar has an eighth as many bytes as bits, and that alignment |
| Layout.SliceIsPair | src/types.cpp:390-392 | A slice is laid out as a pointer and a length one after the other |
| Layout.ElementsFillArray | src/types.cpp:393-394 | The elements of a static array lie one after the other in it, and the last one ends with it |
| Layout.ArrayIsStruct | src/types.cpp:393-441 | An array of elements without gaps is laid out as the struct of as many members |
| Layout.UnionHoldsMembers | src/types.cpp:491-502 | All members of a union fit into it and one fills it |
| Layout.AlignmentIsReached | src/types.cpp:406-418 | The alignment of a struct or union is that of one of its members, or 1 if there are none |
| Layout.ElementsAlignedExactly | src/types.cpp:393-394 | All elements of a static array are aligned exactly if the element's size is a multiple of its alignment |
| Layout.TailIsNotPadded | src/types.cpp:420-441 | A struct whose size is not a multiple of its alignment |
| Layout.GetStructSize | src/types.cpp:420-441 | The size loop computes the end of the last member |
| Layout.GetStructAlignment | src/types.cpp:406-418 | The alignment loop computes the largest member alignment |
| Layout.GetMemberOffset | src/types.cpp:443-475 | The offset loop computes the member's offset |

## Left out

- Floats, pointers, arrays, structs, unions, enums and calls in the lowering; multiple return values; inline assembly.
- Names of constants and of `using` statements inside function bodies: the lowering sees variables only, and a boolean literal stands for the global constants `true` and `false`.
- Debug scopes, source ranges and error texts; a failure is one outcome, and so are the compiler's own aborts.
- Blocks are identified by fresh numbers where the compiler uses addresses.
- LLVM itself: what its instructions mean is taken from the LLVM language reference; undefined behaviour and poison are one outcome.
- Equivalence.ReturnsPreserved: that a fold which is not faithful always changes the result of the whole function is not true (its result may not be used) and not claimed; `Deviations.ConstantReturnedExactly` is where it is true.
- Equivalence.CompiledIsWellFormed: says of a function with unfaithful folds only what its folded form does; `Deviations.NegationIsIllFormed` gives functions that compile and are ill-formed themselves.
- Preservation.SimulateIf: stated for faithful folds; `FoldedSimulation.StatementSimulated` is for all.
- Preservation.SimulateWhile: stated for faithful folds; `FoldedSimulation.StatementSimulated` is for all.
- Preservation.SimulateFor: stated for faithful folds; `FoldedSimulation.StatementSimulated` is for all.
- SimpleStatementProofs.SimulateDeclaration: stated for faithful folds; `FoldedSimulation.StatementSimulated` is for all.
- SimpleStatementProofs.SimulateAssignment: stated for faithful folds; `FoldedSimulation.StatementSimulated` is for all.
- SimpleStatementProofs.SimulateCondition: stated for faithful folds; `FoldedSimulation.ExpressionSimulated` is for all.
- SimpleStatementProofs.SimulateReturn: stated for faithful folds; `FoldedSimulation.StatementSimulated` is for all.
- StatementTyping.FunctionTyped: the word a constant is used with is the one it folds to, so that part of the rules is `Folding.Fold`; what folding computes is stated by the folding theorems.
- Scheduler.RunJobs: the loop is followed up to a given number of jobs, which the compiler does not limit.
- Compilation.CompileProgram: functions see the names of their file; scopes inside functions, and the jobs for instances of polymorphic functions and types and for enums and structs with parameters, are not part of it. Evaluating an expression is looking up the names it mentions, in order, and a function of their values. A function whose file is not parsed, and a static variable without a job, make the run fail.
- NameLookup.AnswerIsStable: what a using names is a name or a member of one, not any expression; depth limits how far usings are followed, where the compiler recurses without limit (`Compilation.DeeperIsSame` shows that the limit changes nothing unless it makes a run fail).
- Instantiation.JobTable.Demand: when a key is retried is up to the caller.
- Numerals.ReadInteger: splitting the source into tokens, and floating-point numerals, are not modelled.
- LinkNames.FreeName: the number appended to a name is unbounded, where the compiler's is a 64-bit integer.
- The parser, files, command line, linking, timing and printing.
