/** The simulation without a condition on folds: what is compiled does what its folded form means. */
module FoldedSimulation {
  import opened Integers
  import opened Options
  import opened Ast
  import opened Hlir
  import opened Source
  import opened Folding
  import opened FoldedSource
  import opened Lowering
  import opened ContextProofs
  import opened ExpressionProofs
  import opened LoopProofs
  import opened SimpleStatementProofs
  import opened FlowProofs
  import opened Preservation
  import opened FunctionProofs
  import opened TripCount

  /** Generated code computes what the expression, its constants folded, means. */
  lemma ExpressionSimulated(variables: Stack<Variable>, store: Store, next: Register, e: Expression, m: Machine)
    requires Matches(variables, store, m) && PointersBelow(variables, next) && GenerateExpression(variables, next, e).Some?
    ensures GeneratedCorrect(GenerateExpression(variables, next, e).value, next, Evaluate(store, FoldConstants(e)), m)
  {
    ExpressionUnchanged(variables, next, e);
    GenerateExpressionCorrect(variables, store, next, FoldConstants(e), m);
  }

  /** Any statement that compiles, simple or not. */
  lemma StatementSimulated(code: Code, c: Context, s: Statement, store: Store, fuel: nat, m: Machine) returns (steps: nat, m': Machine)
    requires GenerateStatement(c, s).Some? && Contains(code, GenerateStatement(c, s).value)
    requires WellScoped(c) && NeedsFinisher(c) && Matches(c.variables, store, m)
    ensures Simulates(code, c, GenerateStatement(c, s).value, ExecuteStatement(SignatureOf(c), store, FoldStatement(s), fuel), fuel, m, steps, m')
  {
    StatementUnchanged(c, s);
    steps, m' := SimulateStatement(code, c, FoldStatement(s), store, fuel, m);
  }

  /** Any statement list that compiles. */
  lemma StatementsSimulated(code: Code, c: Context, statements: seq<Statement>, store: Store, fuel: nat, m: Machine)
    returns (steps: nat, m': Machine)
    requires GenerateStatements(c, statements, false).Some? && Contains(code, GenerateStatements(c, statements, false).value)
    requires WellScoped(c) && NeedsFinisher(c) && Matches(c.variables, store, m)
    ensures Simulates(code, c, GenerateStatements(c, statements, false).value,
                      ExecuteStatements(SignatureOf(c), store, FoldStatements(statements), fuel), fuel, m, steps, m')
  {
    StatementsUnchanged(c, statements, false);
    steps, m' := SimulateStatements(code, c, FoldStatements(statements), store, fuel, m);
  }

  /** The emitted loop, from its head, does what the folded body means for each value of the range. */
  lemma LoopSimulated(
    code: Code, c: Context, statements: seq<Statement>, name: string, loop: Loop, entry: Entry, ended: Context,
    store: Store, from: int, to: int, fuel: nat, m: Machine
  ) returns (steps: nat, m': Machine)
    requires ForReady(code, c, statements, name, loop, entry, ended) && Matches(c.variables, store, m)
    requires LoopReady(loop.indexType, loop.pointer, loop.limit, from, to, m) && to < Max(loop.indexType)
    ensures Leads(code, Running(entry.head, 0, m), Exits(entry.end, 0, None, c.returnTypes), c.variables,
                  ExecuteForEach(SignatureOf(c), store, name, loop.indexType, Between(from, to), FoldStatements(statements), fuel), fuel,
                  m, loop.context.nextRegister, steps, m')
  {
    BodyUnchanged(entry.inside, statements, Some(entry.end), [Named(name, Variable(IntegerType(loop.indexType), loop.pointer))]);
    steps, m' := EmittedLoopVisitsRange(code, c, FoldStatements(statements), name, loop, entry, ended, store, from, to, fuel, m);
  }

  /** Any function that compiles: within any step budget its code mirrors the folded function. */
  lemma CallSimulated(f: Function, defaultSize: RegisterSize, arguments: seq<Value>, fuel: nat) returns (steps: nat)
    requires GenerateFunction(f, defaultSize).Some? && HaveTypes(arguments, f.parameters)
    ensures Mirrors(f.returnTypes, Call(FoldFunction(f), defaultSize, arguments, fuel), fuel, steps,
                    Run(CodeOf(GenerateFunction(f, defaultSize).value), InitialState(f, arguments), steps))
  {
    FunctionUnchanged(f, defaultSize);
    steps := SimulateCall(FoldFunction(f), defaultSize, arguments, fuel);
  }
}
