/** The meaning of a call, without a step budget, before and after lowering. For every function that
    compiles, the code does what the function with its constants folded does; that is what the function
    itself does if its folds are faithful. */
module Equivalence {
  import opened Integers
  import opened Options
  import opened Ast
  import opened Hlir
  import opened Source
  import opened Folding
  import opened Lowering
  import opened ExpressionProofs
  import opened SimpleStatementProofs
  import opened FunctionProofs
  import opened FoldedSource

  // ----- What a source call and a machine run come to -----

  ghost predicate SourceEnds(f: Function, defaultSize: RegisterSize, arguments: seq<Value>, outcome: Outcome)
    requires |arguments| == |f.parameters|
  {
    exists fuel: nat :: Call(f, defaultSize, arguments, fuel) == outcome
  }

  ghost predicate SourceRunsOn(f: Function, defaultSize: RegisterSize, arguments: seq<Value>)
    requires |arguments| == |f.parameters|
  {
    forall fuel: nat :: Call(f, defaultSize, arguments, fuel) == OutOfFuel
  }

  ghost predicate MachineEnds(code: Code, start: State, result: Result) {
    exists steps: nat :: Run(code, start, steps) == Halted(result)
  }

  ghost predicate MachineRunsOn(code: Code, start: State) {
    forall steps: nat :: Run(code, start, steps).Running?
  }

  /** Two halted runs from one state have one result, and a run never resumes after halting. */
  lemma HaltsOnce(code: Code, start: State, m: nat, n: nat)
    requires Run(code, start, m).Halted?
    ensures Run(code, start, n).Halted? ==> Run(code, start, n) == Run(code, start, m)
    ensures Run(code, start, n).Running? ==> n < m
  {
    if m <= n {
      HaltedLater(code, start, m, n);
    } else if Run(code, start, n).Halted? {
      HaltedLater(code, start, n, m);
    }
  }

  /** The value a function returns, as the register value that represents it. */
  function Result(types: seq<Type>, value: Option<Value>): Hlir.Result {
    if value.None? then Returned(None)
    else if |types| == 1 then Returned(Some(Represent(types[0], value.value)))
    else Rejected
  }

  predicate IsReturnValue(types: seq<Type>, value: Option<Value>) {
    value.Some? ==> |types| == 1 && IsRuntimeType(types[0]) && HasType(value.value, types[0])
  }

  /** No two values of a type are represented alike. */
  lemma ResultInjective(types: seq<Type>, v: Option<Value>, w: Option<Value>)
    requires IsReturnValue(types, v) && IsReturnValue(types, w) && Result(types, v) == Result(types, w)
    ensures v == w
  {
    if v.Some? && w.Some? && types[0].IntegerType? {
      DecodeEncode(types[0].integer, v.value.number);
      DecodeEncode(types[0].integer, w.value.number);
    }
  }

  // ----- The theorems -----

  predicate Compiled(f: Function, defaultSize: RegisterSize, arguments: seq<Value>) {
    GenerateFunction(f, defaultSize).Some? && HaveTypes(arguments, f.parameters)
  }

  function CompiledCode(f: Function, defaultSize: RegisterSize): Code
    requires GenerateFunction(f, defaultSize).Some?
  {
    CodeOf(GenerateFunction(f, defaultSize).value)
  }

  /** A halted machine tells what the source does with more fuel than the machine took steps. */
  lemma HaltTellsOutcome(f: Function, defaultSize: RegisterSize, arguments: seq<Value>, steps: nat)
    requires Compiled(f, defaultSize, arguments) && FaithfulStatements(f.statements)
    requires Run(CompiledCode(f, defaultSize), InitialState(f, arguments), steps).Halted?
    ensures Mirrors(f.returnTypes, Call(f, defaultSize, arguments, steps + 1), 0, 0, Run(CompiledCode(f, defaultSize), InitialState(f, arguments), steps))
    ensures !Call(f, defaultSize, arguments, steps + 1).OutOfFuel?
  {
    var code, start := CompiledCode(f, defaultSize), InitialState(f, arguments);
    var mirrored := SimulateCall(f, defaultSize, arguments, steps + 1);
    HaltsOnce(code, start, steps, mirrored);
  }

  lemma FaithfulReturns(f: Function, defaultSize: RegisterSize, arguments: seq<Value>, v: Option<Value>)
    requires Compiled(f, defaultSize, arguments) && FaithfulStatements(f.statements) && IsReturnValue(f.returnTypes, v)
    ensures SourceEnds(f, defaultSize, arguments, ReturnedValue(v))
       <==> MachineEnds(CompiledCode(f, defaultSize), InitialState(f, arguments), Result(f.returnTypes, v))
  {
    var code, start := CompiledCode(f, defaultSize), InitialState(f, arguments);
    if SourceEnds(f, defaultSize, arguments, ReturnedValue(v)) {
      var fuel: nat :| Call(f, defaultSize, arguments, fuel) == ReturnedValue(v);
      var steps := SimulateCall(f, defaultSize, arguments, fuel);
      assert Run(code, start, steps) == Halted(Result(f.returnTypes, v));
    }
    if MachineEnds(code, start, Result(f.returnTypes, v)) {
      var steps: nat :| Run(code, start, steps) == Halted(Result(f.returnTypes, v));
      HaltTellsOutcome(f, defaultSize, arguments, steps);
      var outcome := Call(f, defaultSize, arguments, steps + 1);
      assert outcome.ReturnedValue?;
      ResultInjective(f.returnTypes, v, outcome.value);
    }
  }

  lemma FaithfulUndefined(f: Function, defaultSize: RegisterSize, arguments: seq<Value>)
    requires Compiled(f, defaultSize, arguments) && FaithfulStatements(f.statements)
    ensures SourceEnds(f, defaultSize, arguments, UndefinedOutcome)
       <==> MachineEnds(CompiledCode(f, defaultSize), InitialState(f, arguments), UndefinedBehaviour)
  {
    var code, start := CompiledCode(f, defaultSize), InitialState(f, arguments);
    if SourceEnds(f, defaultSize, arguments, UndefinedOutcome) {
      var fuel: nat :| Call(f, defaultSize, arguments, fuel) == UndefinedOutcome;
      var steps := SimulateCall(f, defaultSize, arguments, fuel);
      assert Run(code, start, steps) == Halted(UndefinedBehaviour);
    }
    if MachineEnds(code, start, UndefinedBehaviour) {
      var steps: nat :| Run(code, start, steps) == Halted(UndefinedBehaviour);
      HaltTellsOutcome(f, defaultSize, arguments, steps);
      assert Call(f, defaultSize, arguments, steps + 1) == UndefinedOutcome;
    }
  }

  lemma FaithfulDivergence(f: Function, defaultSize: RegisterSize, arguments: seq<Value>)
    requires Compiled(f, defaultSize, arguments) && FaithfulStatements(f.statements)
    ensures SourceRunsOn(f, defaultSize, arguments) <==> MachineRunsOn(CompiledCode(f, defaultSize), InitialState(f, arguments))
  {
    var code, start := CompiledCode(f, defaultSize), InitialState(f, arguments);
    if SourceRunsOn(f, defaultSize, arguments) {
      forall steps: nat
        ensures Run(code, start, steps).Running?
      {
        if Run(code, start, steps).Halted? {
          assert Call(f, defaultSize, arguments, steps + 1) == OutOfFuel;
          HaltTellsOutcome(f, defaultSize, arguments, steps);
        }
      }
    }
    if MachineRunsOn(code, start) {
      forall fuel: nat
        ensures Call(f, defaultSize, arguments, fuel) == OutOfFuel
      {
        var steps := SimulateCall(f, defaultSize, arguments, fuel);
        assert Run(code, start, steps).Running?;
      }
    }
  }

  /** The folded function is compiled to the same code and is called in the same way. */
  lemma FoldedIsCompiled(f: Function, defaultSize: RegisterSize, arguments: seq<Value>)
    requires Compiled(f, defaultSize, arguments)
    ensures var g := FoldFunction(f);
            Compiled(g, defaultSize, arguments) && FaithfulStatements(g.statements) &&
            CompiledCode(g, defaultSize) == CompiledCode(f, defaultSize) && InitialState(g, arguments) == InitialState(f, arguments)
  {
    FunctionUnchanged(f, defaultSize);
  }

  /** The compiled function returns `v` exactly if the folded function does, and exactly if the function
      itself does when its folds are faithful. */
  lemma ReturnsPreserved(f: Function, defaultSize: RegisterSize, arguments: seq<Value>, v: Option<Value>)
    requires Compiled(f, defaultSize, arguments) && IsReturnValue(f.returnTypes, v)
    ensures MachineEnds(CompiledCode(f, defaultSize), InitialState(f, arguments), Result(f.returnTypes, v))
       <==> SourceEnds(FoldFunction(f), defaultSize, arguments, ReturnedValue(v))
    ensures FaithfulStatements(f.statements) ==>
              (MachineEnds(CompiledCode(f, defaultSize), InitialState(f, arguments), Result(f.returnTypes, v))
               <==> SourceEnds(f, defaultSize, arguments, ReturnedValue(v)))
  {
    FoldedIsCompiled(f, defaultSize, arguments);
    FaithfulReturns(FoldFunction(f), defaultSize, arguments, v);
    if FaithfulStatements(f.statements) {
      FaithfulReturns(f, defaultSize, arguments, v);
    }
  }

  /** The compiled function has undefined behaviour exactly if the folded function does, and exactly if the
      function itself does when its folds are faithful. */
  lemma UndefinedPreserved(f: Function, defaultSize: RegisterSize, arguments: seq<Value>)
    requires Compiled(f, defaultSize, arguments)
    ensures MachineEnds(CompiledCode(f, defaultSize), InitialState(f, arguments), UndefinedBehaviour)
       <==> SourceEnds(FoldFunction(f), defaultSize, arguments, UndefinedOutcome)
    ensures FaithfulStatements(f.statements) ==>
              (MachineEnds(CompiledCode(f, defaultSize), InitialState(f, arguments), UndefinedBehaviour)
               <==> SourceEnds(f, defaultSize, arguments, UndefinedOutcome))
  {
    FoldedIsCompiled(f, defaultSize, arguments);
    FaithfulUndefined(FoldFunction(f), defaultSize, arguments);
    if FaithfulStatements(f.statements) {
      FaithfulUndefined(f, defaultSize, arguments);
    }
  }

  /** The compiled function runs for ever exactly if the folded function does, and exactly if the function
      itself does when its folds are faithful. */
  lemma DivergencePreserved(f: Function, defaultSize: RegisterSize, arguments: seq<Value>)
    requires Compiled(f, defaultSize, arguments)
    ensures MachineRunsOn(CompiledCode(f, defaultSize), InitialState(f, arguments)) <==> SourceRunsOn(FoldFunction(f), defaultSize, arguments)
    ensures FaithfulStatements(f.statements) ==>
              (MachineRunsOn(CompiledCode(f, defaultSize), InitialState(f, arguments)) <==> SourceRunsOn(f, defaultSize, arguments))
  {
    FoldedIsCompiled(f, defaultSize, arguments);
    FaithfulDivergence(FoldFunction(f), defaultSize, arguments);
    if FaithfulStatements(f.statements) {
      FaithfulDivergence(f, defaultSize, arguments);
    }
  }

  /** Compiled code never reads an unset register, never uses an operand of the wrong kind and never
      jumps out of the function. */
  lemma NeverRejected(f: Function, defaultSize: RegisterSize, arguments: seq<Value>, steps: nat)
    requires Compiled(f, defaultSize, arguments)
    ensures Run(CompiledCode(f, defaultSize), InitialState(f, arguments), steps) != Halted(Rejected)
  {
    FoldedIsCompiled(f, defaultSize, arguments);
    if Run(CompiledCode(f, defaultSize), InitialState(f, arguments), steps).Halted? {
      HaltTellsOutcome(FoldFunction(f), defaultSize, arguments, steps);
    }
  }

  predicate IsWellFormed(types: seq<Type>, outcome: Outcome) {
    (outcome.ReturnedValue? && IsReturnValue(types, outcome.value)) || outcome.UndefinedOutcome? || outcome.OutOfFuel?
  }

  /** What compiles is never ill-formed when it is called: the generator checks what the source needs. */
  lemma CompiledIsWellFormed(f: Function, defaultSize: RegisterSize, arguments: seq<Value>, fuel: nat)
    requires Compiled(f, defaultSize, arguments)
    ensures IsWellFormed(f.returnTypes, Call(FoldFunction(f), defaultSize, arguments, fuel))
    ensures FaithfulStatements(f.statements) ==> IsWellFormed(f.returnTypes, Call(f, defaultSize, arguments, fuel))
  {
    FoldedIsCompiled(f, defaultSize, arguments);
    var steps := SimulateCall(FoldFunction(f), defaultSize, arguments, fuel);
    if FaithfulStatements(f.statements) {
      steps := SimulateCall(f, defaultSize, arguments, fuel);
    }
  }
}
