/** A whole function: the compiled code returns, traps or runs on exactly when the source does. */
module FunctionProofs {
  import opened Integers
  import opened Options
  import opened Ast
  import opened Hlir
  import opened Source
  import opened Folding
  import opened Lowering
  import opened OperationProofs
  import opened ExpressionProofs
  import opened ContextProofs
  import opened SimpleStatementProofs
  import opened FinisherProofs
  import opened ControlFlow
  import opened Terminators
  import opened FlowProofs
  import opened Preservation

  // ----- The code of a list of blocks -----

  function CodeOf(blocks: seq<Block>): Code {
    if blocks == [] then map[] else
    var last := blocks[|blocks| - 1];
    CodeOf(blocks[..|blocks| - 1])[last.id := last.instructions]
  }

  lemma {:induction false} BlockIsPlaced(blocks: seq<Block>, b: Block)
    requires b in blocks
    ensures Times(blocks, b.id) >= 1
  {
    if b != blocks[|blocks| - 1] {
      BlockIsPlaced(blocks[..|blocks| - 1], b);
    }
  }

  /** A label placed once names its block. */
  lemma {:induction false} CodeHolds(blocks: seq<Block>, b: Block)
    requires b in blocks && Times(blocks, b.id) == 1
    ensures b.id in CodeOf(blocks) && CodeOf(blocks)[b.id] == b.instructions
  {
    if b != blocks[|blocks| - 1] {
      BlockIsPlaced(blocks[..|blocks| - 1], b);
      CodeHolds(blocks[..|blocks| - 1], b);
    }
  }

  lemma BlocksContained(f: Function, defaultSize: RegisterSize, b: Block)
    requires GenerateFunction(f, defaultSize).Some? && b in GenerateFunction(f, defaultSize).value
    ensures var code := CodeOf(GenerateFunction(f, defaultSize).value);
            b.id in code && code[b.id] == b.instructions
  {
    var blocks := GenerateFunction(f, defaultSize).value;
    LabelsPlacedOnce(f, defaultSize, b.id);
    BlockIsPlaced(blocks, b);
    CodeHolds(blocks, b);
  }

  lemma FunctionContained(f: Function, defaultSize: RegisterSize)
    requires GenerateFunction(f, defaultSize).Some?
    ensures Contains(CodeOf(GenerateFunction(f, defaultSize).value), FinalContext(f, defaultSize))
  {
    var blocks := GenerateFunction(f, defaultSize).value;
    var c := FinalContext(f, defaultSize);
    forall b | b in c.blocks
      ensures b.id in CodeOf(blocks) && CodeOf(blocks)[b.id] == b.instructions
    {
      assert b in blocks;
      BlocksContained(f, defaultSize, b);
    }
    BlocksContained(f, defaultSize, blocks[|blocks| - 1]);
  }

  // ----- Parameters -----

  /** The arguments wait in the registers from `index` on. */
  ghost predicate Passed(parameters: seq<Parameter>, arguments: seq<Value>, index: Register, m: Machine) {
    HaveTypes(arguments, parameters) &&
    forall i :: 0 <= i < |parameters| ==> HoldsValue(m, index + i, parameters[i].parameterType, arguments[i])
  }

  lemma PassedRest(parameters: seq<Parameter>, arguments: seq<Value>, index: Register, m: Machine, m': Machine, next: Register)
    requires parameters != [] && Passed(parameters, arguments, index, m)
    requires KeepsRegisters(m, m', next) && index + |parameters| <= next
    ensures Passed(parameters[1..], arguments[1..], index + 1, m')
  {
    forall i | 0 <= i < |parameters[1..]|
      ensures HoldsValue(m', index + 1 + i, parameters[1..][i].parameterType, arguments[1..][i])
    {
      assert HoldsValue(m, index + (i + 1), parameters[i + 1].parameterType, arguments[i + 1]);
    }
  }

  /** The context after one parameter has been copied to its local. */
  function CopyParameter(c: Context, p: Parameter, index: Register): Context
    requires IsRuntimeType(p.parameterType)
  {
    var pointer := c.nextRegister;
    var c' := Emit(c, [AllocateLocal(IRTypeOf(p.parameterType), pointer), Store(index, pointer)], pointer + 1);
    var added := AddNewVariable(c', p.name, Variable(p.parameterType, pointer));
    if added.Some? then added.value else c'
  }

  lemma CopyParameterKeeps(c: Context, p: Parameter, index: Register)
    requires WellScoped(c) && IsRuntimeType(p.parameterType)
    ensures Keeps(c, CopyParameter(c, p, index))
  {
    var pointer := c.nextRegister;
    var code := [AllocateLocal(IRTypeOf(p.parameterType), pointer), Store(index, pointer)];
    var c' := Emit(c, code, pointer + 1);
    EmitKeeps(c, code, pointer + 1);
    if AddNewVariable(c', p.name, Variable(p.parameterType, pointer)).Some? {
      DeclareKeeps(c', p.name, Variable(p.parameterType, pointer));
      KeepsTransitive(c, c', CopyParameter(c, p, index));
    }
  }

  lemma {:induction false} ParametersKeep(c: Context, parameters: seq<Parameter>, index: Register)
    requires WellScoped(c) && forall p :: p in parameters ==> IsRuntimeType(p.parameterType)
    ensures Keeps(c, GenerateParameters(c, parameters, index))
    decreases parameters
  {
    if parameters != [] {
      var c1 := CopyParameter(c, parameters[0], index);
      CopyParameterKeeps(c, parameters[0], index);
      ParametersKeep(c1, parameters[1..], index + 1);
      KeepsTransitive(c, c1, GenerateParameters(c1, parameters[1..], index + 1));
    }
  }

  /** The scope after one argument has been bound. */
  function BindParameter(scope: seq<Named<Slot>>, p: Parameter, argument: Value): seq<Named<Slot>> {
    if FindInScope(scope, p.name).Some? then scope else scope + [Named(p.name, Slot(p.parameterType, argument))]
  }

  lemma RunCopy(code: Code, c: Context, p: Parameter, index: Register, v: Value, scope: seq<Named<Slot>>, m: Machine)
    returns (steps: nat, m': Machine)
    requires IsRuntimeType(p.parameterType) && HasType(v, p.parameterType) && HoldsValue(m, index, p.parameterType, v)
    requires index < c.nextRegister && WellScoped(c) && Matches(c.variables, [scope], m)
    requires Contains(code, CopyParameter(c, p, index))
    ensures Run(code, At(c, m), steps) == At(CopyParameter(c, p, index), m') && KeepsRegisters(m, m', c.nextRegister)
    ensures Matches(CopyParameter(c, p, index).variables, [BindParameter(scope, p, v)], m')
  {
    var t, pointer := p.parameterType, c.nextRegister;
    var allocate, store := AllocateLocal(IRTypeOf(t), pointer), Store(index, pointer);
    ExecuteTwo(allocate, store, m);
    m' := ExecuteAll([allocate, store], m).machine;
    steps := |[allocate, store]|;
    assert Contains(code, Emit(c, [allocate, store], pointer + 1));
    EmittedIsThere(code, c, [allocate, store], pointer + 1);
    RunEmitted(code, c, [allocate, store], [], m);
    CopyMatches(c.variables, p, pointer, v, scope, m, m');
  }

  lemma CopyMatches(variables: Stack<Variable>, p: Parameter, pointer: Register, v: Value, scope: seq<Named<Slot>>, m: Machine, m': Machine)
    requires IsRuntimeType(p.parameterType) && HasType(v, p.parameterType) && Matches(variables, [scope], m) && PointersBelow(variables, pointer)
    requires KeepsRegisters(m, m', pointer) && IsPointerTo(m', pointer)
    requires m'.memory == m.memory[pointer := Represent(p.parameterType, v)]
    ensures var name := p.name;
            FindInScope(variables[|variables| - 1], name) == FindInScope(scope, name) &&
            Matches(if FindInScope(scope, name).Some? then variables else Declare(variables, Named(name, Variable(p.parameterType, pointer))),
                    [BindParameter(scope, p, v)], m')
  {
    WriteNewLocal(variables, [scope], pointer, Represent(p.parameterType, v), m);
    MatchesPreserved(variables, [scope], m.(memory := m'.memory), m', pointer);
    DeclareMatches(variables, [scope], p.name, p.parameterType, pointer, v, m');
    assert Declare([scope], Named(p.name, Slot(p.parameterType, v))) == [scope + [Named(p.name, Slot(p.parameterType, v))]];
  }

  lemma CopyContained(code: Code, c: Context, parameters: seq<Parameter>, index: Register)
    requires parameters != [] && (forall p :: p in parameters ==> IsRuntimeType(p.parameterType)) && WellScoped(c)
    requires Contains(code, GenerateParameters(c, parameters, index))
    ensures var c1 := CopyParameter(c, parameters[0], index);
            Keeps(c, c1) && c.nextRegister < c1.nextRegister && Contains(code, c1) &&
            GenerateParameters(c, parameters, index) == GenerateParameters(c1, parameters[1..], index + 1)
  {
    var c1 := CopyParameter(c, parameters[0], index);
    CopyParameterKeeps(c, parameters[0], index);
    ParametersKeep(c1, parameters[1..], index + 1);
    ContainsEarlier(code, c1, GenerateParameters(c1, parameters[1..], index + 1));
  }

  lemma SimulateFirstParameter(
    code: Code, c: Context, parameters: seq<Parameter>, index: Register, arguments: seq<Value>, scope: seq<Named<Slot>>, m: Machine
  ) returns (c1: Context, scope1: seq<Named<Slot>>, steps: nat, m': Machine)
    requires (forall p :: p in parameters ==> IsRuntimeType(p.parameterType)) && Passed(parameters, arguments, index, m)
    requires WellScoped(c) && Matches(c.variables, [scope], m) && index + |parameters| <= c.nextRegister && parameters != []
    requires Contains(code, GenerateParameters(c, parameters, index))
    ensures WellScoped(c1) && Matches(c1.variables, [scope1], m') && index + 1 + |parameters[1..]| <= c1.nextRegister
    ensures forall p :: p in parameters[1..] ==> IsRuntimeType(p.parameterType)
    ensures Run(code, At(c, m), steps) == At(c1, m') && Passed(parameters[1..], arguments[1..], index + 1, m')
    ensures GenerateParameters(c, parameters, index) == GenerateParameters(c1, parameters[1..], index + 1)
    ensures BindParameters(scope, parameters, arguments) == BindParameters(scope1, parameters[1..], arguments[1..])
  {
    c1, scope1 := CopyParameter(c, parameters[0], index), BindParameter(scope, parameters[0], arguments[0]);
    CopyContained(code, c, parameters, index);
    steps, m' := RunFirstCopy(code, c, parameters, index, arguments, scope, m);
  }

  lemma {:induction false} SimulateParameters(
    code: Code, c: Context, parameters: seq<Parameter>, index: Register, arguments: seq<Value>, scope: seq<Named<Slot>>, m: Machine,
    after: Context, bound: seq<Named<Slot>>
  ) returns (steps: nat, m': Machine)
    requires (forall p :: p in parameters ==> IsRuntimeType(p.parameterType)) && Passed(parameters, arguments, index, m)
    requires WellScoped(c) && Matches(c.variables, [scope], m) && index + |parameters| <= c.nextRegister
    requires after == GenerateParameters(c, parameters, index) && Contains(code, after)
    requires bound == BindParameters(scope, parameters, arguments)
    ensures Run(code, At(c, m), steps) == At(after, m') && Matches(after.variables, [bound], m')
    decreases parameters
  {
    if parameters == [] {
      steps, m' := 0, m;
    } else {
      var c1, scope1, first, m1 := SimulateFirstParameter(code, c, parameters, index, arguments, scope, m);
      var second;
      second, m' := SimulateParameters(code, c1, parameters[1..], index + 1, arguments[1..], scope1, m1, after, bound);
      Compose(code, At(c, m), first, At(c1, m1), second);
      steps := first + second;
    }
  }

  lemma RunFirstCopy(
    code: Code, c: Context, parameters: seq<Parameter>, index: Register, arguments: seq<Value>, scope: seq<Named<Slot>>, m: Machine
  ) returns (steps: nat, m': Machine)
    requires parameters != [] && IsRuntimeType(parameters[0].parameterType) && Passed(parameters, arguments, index, m)
    requires WellScoped(c) && Matches(c.variables, [scope], m) && index + |parameters| <= c.nextRegister
    requires Contains(code, CopyParameter(c, parameters[0], index))
    ensures var c1 := CopyParameter(c, parameters[0], index);
            Run(code, At(c, m), steps) == At(c1, m') && Matches(c1.variables, [BindParameter(scope, parameters[0], arguments[0])], m') &&
            Passed(parameters[1..], arguments[1..], index + 1, m')
  {
    assert HoldsValue(m, index + 0, parameters[0].parameterType, arguments[0]);
    steps, m' := RunCopy(code, c, parameters[0], index, arguments[0], scope, m);
    PassedRest(parameters, arguments, index, m, m', c.nextRegister);
  }

  // ----- Calls -----

  /** A call starts in block 0 with its arguments in the first registers and no locals. */
  function InitialState(f: Function, arguments: seq<Value>): State
    requires |arguments| == |f.parameters|
  {
    Running(0, 0, Machine(map r: Register | 0 <= r < |arguments| :: Represent(f.parameters[r].parameterType, arguments[r]), map[]))
  }

  predicate ParametersOpen(c: Context) {
    c.blocks == [] && c.current == 0 && forall i :: 0 <= i < |c.instructions| ==> !IsTerminator(c.instructions[i])
  }

  lemma {:induction false} ParametersStayOpen(c: Context, parameters: seq<Parameter>, index: Register)
    requires ParametersOpen(c) && forall p :: p in parameters ==> IsRuntimeType(p.parameterType)
    ensures var after := GenerateParameters(c, parameters, index);
            ParametersOpen(after) && SignatureOf(after) == SignatureOf(c) && after.breakTarget == c.breakTarget
    decreases parameters
  {
    if parameters != [] {
      ParametersStayOpen(CopyParameter(c, parameters[0], index), parameters[1..], index + 1);
    }
  }

  /** What the machine does when the source does `outcome`. */
  ghost predicate Mirrors(types: seq<Type>, outcome: Outcome, fuel: nat, steps: nat, state: State) {
    match outcome
    case ReturnedValue(v) => Returns(types, v, state)
    case UndefinedOutcome => state == Halted(UndefinedBehaviour)
    case OutOfFuel => state.Running? && steps >= fuel
    case _ => false
  }

  /** The context after the parameters of a function. */
  function StartContext(f: Function, defaultSize: RegisterSize): Context
    requires HasRuntimeSignature(f)
  {
    GenerateParameters(InitialContext(f, defaultSize), f.parameters, 0)
  }

  lemma StartContained(code: Code, f: Function, defaultSize: RegisterSize)
    requires GenerateFunction(f, defaultSize).Some? && Contains(code, FinalContext(f, defaultSize))
    ensures var start := StartContext(f, defaultSize);
            WellScoped(start) && NeedsFinisher(start) && Contains(code, start) &&
            SignatureOf(start) == Signature(f.returnTypes, defaultSize) && start.breakTarget.None?
  {
    var initial := InitialContext(f, defaultSize);
    ParametersKeep(initial, f.parameters, 0);
    ParametersStayOpen(initial, f.parameters, 0);
    StatementsKeep(StartContext(f, defaultSize), f.statements, false);
    ContainsEarlier(code, StartContext(f, defaultSize), FinalContext(f, defaultSize));
  }

  lemma RunParameters(code: Code, f: Function, defaultSize: RegisterSize, arguments: seq<Value>) returns (steps: nat, m: Machine)
    requires HasRuntimeSignature(f) && HaveTypes(arguments, f.parameters) && Contains(code, StartContext(f, defaultSize))
    ensures Run(code, InitialState(f, arguments), steps) == At(StartContext(f, defaultSize), m)
    ensures Matches(StartContext(f, defaultSize).variables, [BindParameters([], f.parameters, arguments)], m)
  {
    steps, m := SimulateParameters(code, InitialContext(f, defaultSize), f.parameters, 0, arguments, [], InitialState(f, arguments).machine,
                                   StartContext(f, defaultSize), BindParameters([], f.parameters, arguments));
  }

  /** The generated statements of a function, from block 0. */
  lemma SimulateFunctionBody(code: Code, f: Function, defaultSize: RegisterSize, arguments: seq<Value>, fuel: nat) returns (steps: nat, m': Machine)
    requires GenerateFunction(f, defaultSize).Some? && HaveTypes(arguments, f.parameters) && FaithfulStatements(f.statements)
    requires Contains(code, FinalContext(f, defaultSize))
    ensures var outcome := ExecuteStatements(Signature(f.returnTypes, defaultSize), [BindParameters([], f.parameters, arguments)], f.statements, fuel);
            var state := Run(code, InitialState(f, arguments), steps);
            if outcome.Normal? then
              state == At(FinalContext(f, defaultSize), m') && NeedsFinisher(FinalContext(f, defaultSize))
            else Mirrors(f.returnTypes, outcome, fuel, steps, state)
  {
    var start := StartContext(f, defaultSize);
    var store := [BindParameters([], f.parameters, arguments)];
    StartContained(code, f, defaultSize);
    var first, m1 := RunParameters(code, f, defaultSize, arguments);
    var second;
    second, m' := SimulateStatements(code, start, f.statements, store, fuel, m1);
    Compose(code, InitialState(f, arguments), first, At(start, m1), second);
    steps := first + second;
    BodyStaysOpen(start, f.statements, SignatureOf(start), store, fuel);
  }

  /** One call with a step budget: what the source does within it, the code does too. */
  lemma SimulateCall(f: Function, defaultSize: RegisterSize, arguments: seq<Value>, fuel: nat) returns (steps: nat)
    requires GenerateFunction(f, defaultSize).Some? && HaveTypes(arguments, f.parameters) && FaithfulStatements(f.statements)
    ensures Mirrors(f.returnTypes, Call(f, defaultSize, arguments, fuel), fuel, steps,
                    Run(CodeOf(GenerateFunction(f, defaultSize).value), InitialState(f, arguments), steps))
  {
    var code := CodeOf(GenerateFunction(f, defaultSize).value);
    FunctionContained(f, defaultSize);
    var m';
    steps, m' := SimulateFunctionBody(code, f, defaultSize, arguments, fuel);
    var store := [BindParameters([], f.parameters, arguments)];
    if ExecuteStatements(Signature(f.returnTypes, defaultSize), store, f.statements, fuel).Normal? {
      FunctionReturns(f, defaultSize, m');
      Compose(code, InitialState(f, arguments), steps, At(FinalContext(f, defaultSize), m'), 1);
      steps := steps + 1;
    }
  }

  /** Reaching the end of the statements reaches the return that was added. */
  lemma FunctionReturns(f: Function, defaultSize: RegisterSize, m: Machine)
    requires GenerateFunction(f, defaultSize).Some? && NeedsFinisher(FinalContext(f, defaultSize))
    ensures Run(CodeOf(GenerateFunction(f, defaultSize).value), At(FinalContext(f, defaultSize), m), 1) == Halted(Returned(None))
  {
    var blocks := GenerateFunction(f, defaultSize).value;
    var code := CodeOf(blocks);
    var c := FinalContext(f, defaultSize);
    StartContained(code, f, defaultSize) by {
      FunctionContained(f, defaultSize);
    }
    StatementsFinisher(StartContext(f, defaultSize), f.statements, false);
    if f.statements != [] && f.statements[|f.statements| - 1].ReturnStatement? {
      LastReturnEndsAway(f.statements, false);
      assert false;
    }
    BlocksContained(f, defaultSize, blocks[|blocks| - 1]);
    assert code[c.current][|c.instructions|] == Return(None);
    assert Run(code, At(c, m), 1) == Step(code, At(c, m));
  }
}
