/** Straight-line statements: running their code has the effect the statement means. */
module SimpleStatementProofs {
  import opened Integers
  import opened Options
  import opened Ast
  import opened Hlir
  import opened Source
  import opened Folding
  import opened Lowering
  import opened OperationProofs
  import opened ExpressionProofs
  import opened ContextProofs

  /** A machine about to run what is generated next. */
  function At(c: Context, m: Machine): State {
    Running(c.current, |c.instructions|, m)
  }

  ghost predicate KeepsRegisters(m: Machine, m': Machine, next: Register) {
    forall r :: 0 <= r < next && r in m.registers ==> r in m'.registers && m'.registers[r] == m.registers[r]
  }

  function SignatureOf(c: Context): Signature {
    Signature(c.returnTypes, c.defaultSize)
  }

  function Outer<T>(stack: Stack<T>): Stack<T> {
    if stack == [] then [] else stack[..|stack| - 1]
  }

  predicate Returns(types: seq<Type>, value: Option<Value>, state: State) {
    match value
    case None => state == Halted(Returned(None))
    case Some(v) => |types| == 1 && IsRuntimeType(types[0]) && HasType(v, types[0]) && state == Halted(Returned(Some(Represent(types[0], v))))
  }

  /** After `steps` steps of the code generated between `c` and `after`, the machine is where
      the outcome says: past the code, at the break target, or halted with the same result. */
  ghost predicate Simulates(
    code: Code, c: Context, after: Context, outcome: Outcome, fuel: nat, m: Machine, steps: nat, m': Machine
  ) {
    var state := Run(code, At(c, m), steps);
    match outcome
    case Normal(store) =>
      state == At(after, m') && Matches(after.variables, store, m') && KeepsRegisters(m, m', c.nextRegister)
    case Broke(store) =>
      c.breakTarget.Some? && state == Running(c.breakTarget.value, 0, m') &&
      Matches(Outer(c.variables), Outer(store), m') && |store| == |c.variables| && KeepsRegisters(m, m', c.nextRegister)
    case ReturnedValue(v) => Returns(c.returnTypes, v, state)
    case UndefinedOutcome => state == Halted(UndefinedBehaviour)
    case OutOfFuel => state.Running? && steps >= fuel
    case IllFormed => false
  }

  // ----- Running straight-line code -----

  lemma Compose(code: Code, start: State, first: nat, middle: State, second: nat)
    requires Run(code, start, first) == middle
    ensures Run(code, start, first + second) == Run(code, middle, second)
  {
    RunAdds(code, start, first, second);
  }

  lemma {:induction false} RunStraight(code: Code, block: Label, index: nat, added: seq<Instruction>, m: Machine)
    requires block in code && index + |added| <= |code[block]| && code[block][index..index + |added|] == added
    ensures match ExecuteAll(added, m)
            case Next(m') => Run(code, Running(block, index, m), |added|) == Running(block, index + |added|, m')
            case Undefined => Run(code, Running(block, index, m), |added|) == Halted(UndefinedBehaviour)
            case Stuck => true
    decreases |added|
  {
    if added != [] {
      assert code[block][index] == added[0];
      assert code[block][index + 1..index + 1 + |added[1..]|] == added[1..];
      match Execute(added[0], m) {
        case Next(m') => RunStraight(code, block, index + 1, added[1..], m');
        case Undefined => HaltedStays(code, UndefinedBehaviour, |added| - 1);
        case Stuck =>
      }
    }
  }

  /** Running what was emitted on top of `c`, for any code that contains it. */
  lemma RunEmitted(code: Code, c: Context, added: seq<Instruction>, rest: seq<Instruction>, m: Machine)
    requires c.current in code && c.instructions + added + rest <= code[c.current]
    ensures match ExecuteAll(added, m)
            case Next(m') => Run(code, At(c, m), |added|) == Running(c.current, |c.instructions| + |added|, m')
            case Undefined => Run(code, At(c, m), |added|) == Halted(UndefinedBehaviour)
            case Stuck => true
  {
    var n := |c.instructions|;
    assert code[c.current][n..n + |added|] == (c.instructions + added + rest)[n..n + |added|] == added;
    RunStraight(code, c.current, n, added, m);
  }

  lemma EmittedIsThere(code: Code, c: Context, added: seq<Instruction>, next: Register)
    requires Contains(code, Emit(c, added, next))
    ensures c.current in code && c.instructions + added + [] <= code[c.current]
  {
    assert c.instructions + added + [] == c.instructions + added;
  }

  // ----- Statements -----

  lemma SimulateExpression(code: Code, c: Context, e: Expression, store: Store, fuel: nat, m: Machine) returns (steps: nat, m': Machine)
    requires GenerateExpression(c.variables, c.nextRegister, e).Some? && WellScoped(c) && Matches(c.variables, store, m) && Faithful(e)
    requires var g := GenerateExpression(c.variables, c.nextRegister, e).value;
             Contains(code, Emit(c, g.code, g.next))
    ensures var g := GenerateExpression(c.variables, c.nextRegister, e).value;
            Simulates(code, c, Emit(c, g.code, g.next), ExecuteStatement(SignatureOf(c), store, ExpressionStatement(e), fuel), fuel, m, steps, m')
  {
    var g := GenerateExpression(c.variables, c.nextRegister, e).value;
    GenerateExpressionCorrect(c.variables, store, c.nextRegister, e, m);
    EmittedIsThere(code, c, g.code, g.next);
    RunEmitted(code, c, g.code, [], m);
    steps := |g.code|;
    if Evaluate(store, e).Evaluated? {
      m' := ExecuteAll(g.code, m).machine;
      MatchesPreserved(c.variables, store, m, m', c.nextRegister);
    } else {
      m' := m;
    }
  }

  /** Writing a local changes exactly the variable that lives there. */
  lemma WriteLocal(variables: Stack<Variable>, store: Store, p: Position, v: Value, m: Machine)
    requires Matches(variables, store, m) && DistinctPointers(variables) && Within(variables, p)
    requires HasType(v, variables[p.scope][p.index].info.variableType)
    ensures var variable := variables[p.scope][p.index].info;
            Matches(variables, SetSlot(store, p, v), m.(memory := m.memory[variable.pointer := Represent(variable.variableType, v)]))
  {
    var variable := variables[p.scope][p.index].info;
    var m' := m.(memory := m.memory[variable.pointer := Represent(variable.variableType, v)]);
    var store': Store := SetSlot(store, p, v);
    forall q: Position | Within(variables, q)
      ensures VariableMatches(variables[q.scope][q.index].info, store'[q.scope][q.index].info, m')
    {
      assert VariableMatches(variables[q.scope][q.index].info, store[q.scope][q.index].info, m);
      if q != p {
        assert store'[q.scope][q.index] == store[q.scope][q.index];
      }
    }
  }

  /** What running a value's code, forcing it and storing it does. */
  lemma RunForcedStore(
    code: Code, c: Context, g: Generated, t: Type, next: Register, pointer: Register, prefix: seq<Instruction>, v: Value, m: Machine, m1: Machine
  ) returns (m': Machine)
    requires CoerceToRegister(g.valueType, g.value, t, next).Some? && Stands(g.valueType, g.value, v, m1) && Below(g.value, next)
    requires ExecuteAll(prefix, m) == Next(m1) && IsPointerTo(m1, pointer) && pointer < next
    requires var f := CoerceToRegister(g.valueType, g.value, t, next).value;
             Contains(code, Emit(c, prefix + f.code + [Store(f.register, pointer)], f.next))
    ensures IsRuntimeType(t) && Coerce(g.valueType, v, t).Some? && HasType(Coerce(g.valueType, v, t).value, t)
    ensures var f := CoerceToRegister(g.valueType, g.value, t, next).value;
            var v' := Coerce(g.valueType, v, t).value;
            var added := prefix + f.code + [Store(f.register, pointer)];
            Run(code, At(c, m), |added|) == At(Emit(c, added, f.next), m') &&
            m'.memory == m1.memory[pointer := Represent(t, v')] && KeepsRegisters(m1, m', next)
  {
    var f := CoerceToRegister(g.valueType, g.value, t, next).value;
    var store := Store(f.register, pointer);
    CoerceToRegisterCorrect(g.valueType, g.value, t, next, v, m1);
    var m2 := ExecuteAll(f.code, m1).machine;
    ExecuteAllAppend(prefix, f.code, m);
    ExecuteAllAppend(prefix + f.code, [store], m);
    ExecuteOne(store, m2);
    m' := Execute(store, m2).machine;
    var added := prefix + f.code + [store];
    EmittedIsThere(code, c, added, f.next);
    RunEmitted(code, c, added, [], m);
  }

  /** Undefined behaviour in the first part of the emitted code. */
  lemma RunIntoUndefined(code: Code, c: Context, first: seq<Instruction>, added: seq<Instruction>, next: Register, m: Machine)
    requires ExecuteAll(first, m) == Undefined && first <= added && Contains(code, Emit(c, added, next))
    ensures Run(code, At(c, m), |first|) == Halted(UndefinedBehaviour)
  {
    assert c.instructions + first + added[|first|..] == c.instructions + added;
    RunEmitted(code, c, first, added[|first|..], m);
  }

  /** A value computed, forced and stored in the local of the variable at `p`. */
  lemma StoreInVariable(code: Code, c: Context, g: Generated, p: Position, store: Store, v: Value, m: Machine)
    returns (m': Machine)
    requires WellScoped(c) && Within(c.variables, p) && Matches(c.variables, store, m)
    requires GeneratedCorrect(g, c.nextRegister, Evaluated(g.valueType, v), m)
    requires var variable := c.variables[p.scope][p.index].info;
             var f := CoerceToRegister(g.valueType, g.value, variable.variableType, g.next);
             f.Some? && Contains(code, Emit(c, g.code + f.value.code + [Store(f.value.register, variable.pointer)], f.value.next))
    ensures var variable := c.variables[p.scope][p.index].info;
            var f := CoerceToRegister(g.valueType, g.value, variable.variableType, g.next).value;
            var added := g.code + f.code + [Store(f.register, variable.pointer)];
            Coerce(g.valueType, v, variable.variableType).Some? &&
            Run(code, At(c, m), |added|) == At(Emit(c, added, f.next), m') &&
            Matches(c.variables, SetSlot(store, p, Coerce(g.valueType, v, variable.variableType).value), m') &&
            KeepsRegisters(m, m', c.nextRegister)
  {
    var variable := c.variables[p.scope][p.index].info;
    var m1 := ExecuteAll(g.code, m).machine;
    MatchesPreserved(c.variables, store, m, m1, c.nextRegister);
    assert VariableMatches(variable, store[p.scope][p.index].info, m1);
    m' := RunForcedStore(code, c, g, variable.variableType, g.next, variable.pointer, g.code, v, m, m1);
    var v' := Coerce(g.valueType, v, variable.variableType).value;
    WriteLocal(c.variables, store, p, v', m1);
    MatchesPreserved(c.variables, SetSlot(store, p, v'), m1.(memory := m'.memory), m', c.nextRegister);
  }

  /** What is stored, and where. */
  lemma StoreIsAssignment(c: Context, target: Expression, value: Expression) returns (p: Position, g: Generated, f: Forced)
    requires GenerateStore(c, target, value).Some?
    ensures target.NamedReference? && Find(c.variables, target.name) == Some(p)
    ensures GenerateExpression(c.variables, c.nextRegister, value) == Some(g)
    ensures var variable := c.variables[p.scope][p.index].info;
            CoerceToRegister(g.valueType, g.value, variable.variableType, g.next) == Some(f) &&
            GenerateStore(c, target, value) == Some(Emit(c, g.code + f.code + [Store(f.register, variable.pointer)], f.next))
  {
    p := Find(c.variables, target.name).value;
    g := GenerateExpression(c.variables, c.nextRegister, value).value;
    f := CoerceToRegister(g.valueType, g.value, c.variables[p.scope][p.index].info.variableType, g.next).value;
    assert [] + g.code == g.code;
  }

  lemma SimulateAssignment(code: Code, c: Context, target: Expression, value: Expression, store: Store, fuel: nat, m: Machine)
    returns (steps: nat, m': Machine)
    requires GenerateStore(c, target, value).Some? && Contains(code, GenerateStore(c, target, value).value)
    requires WellScoped(c) && Matches(c.variables, store, m) && Faithful(value)
    ensures Simulates(code, c, GenerateStore(c, target, value).value, ExecuteAssignment(store, target, value), fuel, m, steps, m')
  {
    var p, g, f := StoreIsAssignment(c, target, value);
    FindSameNames(c.variables, store, target.name);
    var variable := c.variables[p.scope][p.index].info;
    assert VariableMatches(variable, store[p.scope][p.index].info, m);
    GenerateExpressionCorrect(c.variables, store, c.nextRegister, value, m);
    var added := g.code + f.code + [Store(f.register, variable.pointer)];
    if Evaluate(store, value).Evaluated? {
      m' := StoreInVariable(code, c, g, p, store, Evaluate(store, value).value, m);
      steps := |added|;
    } else {
      steps, m' := |g.code|, m;
      RunIntoUndefined(code, c, g.code, added, f.next, m);
    }
  }

  /** A new variable whose local has just been written joins the innermost scope. */
  lemma DeclareMatches(variables: Stack<Variable>, store: Store, name: string, t: Type, pointer: Register, v: Value, m: Machine)
    requires Matches(variables, store, m) && variables != []
    requires IsRuntimeType(t) && HasType(v, t) && LocalHolds(m, pointer, t, v)
    ensures Matches(Declare(variables, Named(name, Variable(t, pointer))), Declare(store, Named(name, Slot(t, v))), m)
    ensures FindInScope(store[|store| - 1], name) == FindInScope(variables[|variables| - 1], name)
  {
    FindInScopeSameNames(variables[|variables| - 1], store[|store| - 1], name);
    var variables': Stack<Variable> := Declare(variables, Named(name, Variable(t, pointer)));
    var store': Store := Declare(store, Named(name, Slot(t, v)));
    forall p: Position | Within(variables', p)
      ensures VariableMatches(variables'[p.scope][p.index].info, store'[p.scope][p.index].info, m)
    {
      if Within(variables, p) {
        assert VariableMatches(variables[p.scope][p.index].info, store[p.scope][p.index].info, m);
      }
    }
  }

  /** Writing a local of which no variable in scope has the pointer. */
  lemma WriteNewLocal(variables: Stack<Variable>, store: Store, pointer: Register, value: RegisterValue, m: Machine)
    requires Matches(variables, store, m) && PointersBelow(variables, pointer)
    ensures Matches(variables, store, m.(memory := m.memory[pointer := value]))
  {
    var m' := m.(memory := m.memory[pointer := value]);
    forall p: Position | Within(variables, p)
      ensures VariableMatches(variables[p.scope][p.index].info, store[p.scope][p.index].info, m')
    {
      assert VariableMatches(variables[p.scope][p.index].info, store[p.scope][p.index].info, m);
    }
  }

  lemma PointersBelowLater(variables: Stack<Variable>, j: Register, k: Register)
    requires PointersBelow(variables, j) && j <= k
    ensures PointersBelow(variables, k)
  {
  }

  /** A value computed, forced and stored in a new local. */
  lemma StoreInNewLocal(code: Code, c: Context, t: Type, g: Generated, store: Store, v: Value, m: Machine)
    returns (m': Machine)
    requires WellScoped(c) && Matches(c.variables, store, m) && IsRuntimeType(t)
    requires GeneratedCorrect(g, c.nextRegister, Evaluated(g.valueType, v), m)
    requires var f := CoerceToRegister(g.valueType, g.value, t, g.next + 1);
             f.Some? &&
             Contains(code, Emit(c, g.code + [AllocateLocal(IRTypeOf(t), g.next)] + f.value.code + [Store(f.value.register, g.next)], f.value.next))
    ensures var f := CoerceToRegister(g.valueType, g.value, t, g.next + 1).value;
            var added := g.code + [AllocateLocal(IRTypeOf(t), g.next)] + f.code + [Store(f.register, g.next)];
            Coerce(g.valueType, v, t).Some? && HasType(Coerce(g.valueType, v, t).value, t) &&
            Run(code, At(c, m), |added|) == At(Emit(c, added, f.next), m') &&
            Matches(c.variables, store, m') && LocalHolds(m', g.next, t, Coerce(g.valueType, v, t).value) &&
            KeepsRegisters(m, m', c.nextRegister)
  {
    var pointer := g.next;
    var allocate := AllocateLocal(IRTypeOf(t), pointer);
    var m1 := ExecuteAll(g.code, m).machine;
    var m2 := SetRegister(m1, pointer, PointerValue(pointer));
    ExecuteAllAppend(g.code, [allocate], m);
    ExecuteOne(allocate, m1);
    StandsPreserved(g.valueType, g.value, v, m1, m2, g.next);
    m' := RunForcedStore(code, c, g, t, pointer + 1, pointer, g.code + [allocate], v, m, m2);
    PointersBelowLater(c.variables, c.nextRegister, pointer);
    MatchesPreserved(c.variables, store, m, m2, c.nextRegister);
    WriteNewLocal(c.variables, store, pointer, Represent(t, Coerce(g.valueType, v, t).value), m2);
    MatchesPreserved(c.variables, store, m2.(memory := m'.memory), m', c.nextRegister);
  }

  /** The code of a new local, and the variable that is declared with it. */
  lemma LocalIsStored(c: Context, name: string, t: Type, g: Generated) returns (f: Forced, added: seq<Instruction>)
    requires GenerateLocal(c, name, t, g).Some?
    ensures IsRuntimeType(t) && CoerceToRegister(g.valueType, g.value, t, g.next + 1) == Some(f)
    ensures added == g.code + [AllocateLocal(IRTypeOf(t), g.next)] + f.code + [Store(f.register, g.next)]
    ensures c.variables != [] && FindInScope(c.variables[|c.variables| - 1], name).None?
    ensures GenerateLocal(c, name, t, g)
         == Some(Emit(c, added, f.next).(variables := Declare(c.variables, Named(name, Variable(t, g.next)))))
  {
    f := CoerceToRegister(g.valueType, g.value, t, g.next + 1).value;
    added := g.code + [AllocateLocal(IRTypeOf(t), g.next)] + f.code + [Store(f.register, g.next)];
  }

  lemma LocalComputed(code: Code, c: Context, name: string, t: Type, g: Generated, store: Store, v: Value, fuel: nat, m: Machine)
    returns (steps: nat, m': Machine)
    requires WellScoped(c) && Matches(c.variables, store, m)
    requires GeneratedCorrect(g, c.nextRegister, Evaluated(g.valueType, v), m)
    requires GenerateLocal(c, name, t, g).Some? && Contains(code, GenerateLocal(c, name, t, g).value)
    ensures Simulates(code, c, GenerateLocal(c, name, t, g).value, DeclareAs(store, name, t, Evaluated(g.valueType, v)), fuel, m, steps, m')
  {
    var f, added := LocalIsStored(c, name, t, g);
    assert Contains(code, Emit(c, added, f.next));
    m' := StoreInNewLocal(code, c, t, g, store, v, m);
    steps := |added|;
    DeclareMatches(c.variables, store, name, t, g.next, Coerce(g.valueType, v, t).value, m');
  }

  lemma SimulateLocal(code: Code, c: Context, name: string, t: Type, e: Expression, store: Store, fuel: nat, m: Machine)
    returns (steps: nat, m': Machine)
    requires GenerateExpression(c.variables, c.nextRegister, e).Some?
    requires var g := GenerateExpression(c.variables, c.nextRegister, e).value;
             GenerateLocal(c, name, t, g).Some? && Contains(code, GenerateLocal(c, name, t, g).value)
    requires WellScoped(c) && Matches(c.variables, store, m) && Faithful(e)
    ensures var g := GenerateExpression(c.variables, c.nextRegister, e).value;
            Simulates(code, c, GenerateLocal(c, name, t, g).value, DeclareAs(store, name, t, Evaluate(store, e)), fuel, m, steps, m')
  {
    var g := GenerateExpression(c.variables, c.nextRegister, e).value;
    GenerateExpressionCorrect(c.variables, store, c.nextRegister, e, m);
    if Evaluate(store, e).Evaluated? {
      steps, m' := LocalComputed(code, c, name, t, g, store, Evaluate(store, e).value, fuel, m);
    } else {
      steps, m' := |g.code|, m;
      LocalUndefined(code, c, name, t, g, m);
    }
  }

  lemma LocalUndefined(code: Code, c: Context, name: string, t: Type, g: Generated, m: Machine)
    requires ExecuteAll(g.code, m) == Undefined
    requires GenerateLocal(c, name, t, g).Some? && Contains(code, GenerateLocal(c, name, t, g).value)
    ensures Run(code, At(c, m), |g.code|) == Halted(UndefinedBehaviour)
  {
    var f := CoerceToRegister(g.valueType, g.value, t, g.next + 1).value;
    var rest := [AllocateLocal(IRTypeOf(t), g.next)] + f.code + [Store(f.register, g.next)];
    var added := g.code + [AllocateLocal(IRTypeOf(t), g.next)] + f.code + [Store(f.register, g.next)];
    assert added == g.code + rest;
    assert Contains(code, Emit(c, added, f.next));
    RunIntoUndefined(code, c, g.code, added, f.next, m);
  }

  lemma SimulateDeclaration(code: Code, c: Context, s: Statement, store: Store, fuel: nat, m: Machine) returns (steps: nat, m': Machine)
    requires s.VariableDeclaration? && GenerateVariableDeclaration(c, s).Some? && Contains(code, GenerateVariableDeclaration(c, s).value)
    requires WellScoped(c) && Matches(c.variables, store, m) && Faithful(s.initializer.value)
    ensures Simulates(code, c, GenerateVariableDeclaration(c, s).value, ExecuteDeclaration(SignatureOf(c), store, s), fuel, m, steps, m')
  {
    var e := s.initializer.value;
    var g := GenerateExpression(c.variables, c.nextRegister, e).value;
    var t := if s.declaredType.Some? then s.declaredType.value else DefaultType(c.defaultSize, g.valueType);
    GenerateExpressionCorrect(c.variables, store, c.nextRegister, e, m);
    steps, m' := SimulateLocal(code, c, s.name, t, e, store, fuel, m);
  }

  lemma RunTerminator(code: Code, c: Context, added: seq<Instruction>, last: Instruction, next: Register, m: Machine, m1: Machine)
    requires Contains(code, Emit(c, added + [last], next)) && ExecuteAll(added, m) == Next(m1)
    ensures Run(code, At(c, m), |added| + 1) == Step(code, Running(c.current, |c.instructions| + |added|, m1))
    ensures c.current in code && |c.instructions| + |added| < |code[c.current]|
    ensures code[c.current][|c.instructions| + |added|] == last
  {
    assert c.instructions + added + [last] == c.instructions + (added + [last]);
    RunEmitted(code, c, added, [last], m);
    Compose(code, At(c, m), |added|, Running(c.current, |c.instructions| + |added|, m1), 1);
    assert Run(code, Running(c.current, |c.instructions| + |added|, m1), 1) == Step(code, Running(c.current, |c.instructions| + |added|, m1));
  }

  lemma RunReturn(code: Code, c: Context, added: seq<Instruction>, value: Option<Register>, next: Register, m: Machine, m1: Machine)
    requires Contains(code, Emit(c, added + [Return(value)], next)) && ExecuteAll(added, m) == Next(m1)
    requires value.Some? ==> value.value in m1.registers
    ensures Run(code, At(c, m), |added| + 1) ==
            Halted(Returned(if value.None? then None else Some(m1.registers[value.value])))
  {
    RunTerminator(code, c, added, Return(value), next, m, m1);
  }

  lemma RunBranch(
    code: Code, c: Context, added: seq<Instruction>, condition: Register, trueTarget: Label, falseTarget: Label, next: Register,
    m: Machine, m1: Machine, truth: bool
  )
    requires Contains(code, Emit(c, added + [Branch(condition, trueTarget, falseTarget)], next)) && ExecuteAll(added, m) == Next(m1)
    requires HoldsBoolean(m1, condition, truth)
    ensures Run(code, At(c, m), |added| + 1) == Running(if truth then trueTarget else falseTarget, 0, m1)
  {
    RunTerminator(code, c, added, Branch(condition, trueTarget, falseTarget), next, m, m1);
  }

  /** The code of a value forced into a register of type `t`. */
  lemma RunForced(g: Generated, next: Register, t: Type, v: Value, m: Machine) returns (m': Machine)
    requires GeneratedCorrect(g, next, Evaluated(g.valueType, v), m) && CoerceToRegister(g.valueType, g.value, t, g.next).Some?
    ensures var f := CoerceToRegister(g.valueType, g.value, t, g.next).value;
            ExecuteAll(g.code + f.code, m) == Next(m') && IsRuntimeType(t) &&
            Coerce(g.valueType, v, t).Some? && HoldsValue(m', f.register, t, Coerce(g.valueType, v, t).value) &&
            HasType(Coerce(g.valueType, v, t).value, t) && Preserves(m, m', next)
  {
    var f := CoerceToRegister(g.valueType, g.value, t, g.next).value;
    var m1 := ExecuteAll(g.code, m).machine;
    CoerceToRegisterCorrect(g.valueType, g.value, t, g.next, v, m1);
    ExecuteAllAppend(g.code, f.code, m);
    m' := ExecuteAll(f.code, m1).machine;
    PreservesTransitive(m, m1, m', next, g.next);
  }

  lemma ReturnComputed(code: Code, c: Context, g: Generated, t: Type, v: Value, m: Machine)
    requires GeneratedCorrect(g, c.nextRegister, Evaluated(g.valueType, v), m)
    requires var f := CoerceToRegister(g.valueType, g.value, t, g.next);
             f.Some? && Contains(code, Emit(c, g.code + f.value.code + [Return(Some(f.value.register))], f.value.next))
    ensures var f := CoerceToRegister(g.valueType, g.value, t, g.next).value;
            Coerce(g.valueType, v, t).Some? &&
            Returns([t], Coerce(g.valueType, v, t), Run(code, At(c, m), |g.code + f.code| + 1))
  {
    var f := CoerceToRegister(g.valueType, g.value, t, g.next).value;
    var m1 := RunForced(g, c.nextRegister, t, v, m);
    RunReturn(code, c, g.code + f.code, Some(f.register), f.next, m, m1);
  }

  lemma SimulateReturnValue(code: Code, c: Context, e: Expression, t: Type, store: Store, m: Machine) returns (steps: nat)
    requires GenerateExpression(c.variables, c.nextRegister, e).Some?
    requires var g := GenerateExpression(c.variables, c.nextRegister, e).value;
             var f := CoerceToRegister(g.valueType, g.value, t, g.next);
             f.Some? && Contains(code, Emit(c, g.code + f.value.code + [Return(Some(f.value.register))], f.value.next))
    requires WellScoped(c) && Matches(c.variables, store, m) && Faithful(e)
    ensures match EvaluateAs(store, e, t)
            case Evaluated(_, v) => Returns([t], Some(v), Run(code, At(c, m), steps))
            case UndefinedValue => Run(code, At(c, m), steps) == Halted(UndefinedBehaviour)
            case IllTyped => false
  {
    var g := GenerateExpression(c.variables, c.nextRegister, e).value;
    GenerateExpressionCorrect(c.variables, store, c.nextRegister, e, m);
    steps := ReturnGenerated(code, c, g, CoerceToRegister(g.valueType, g.value, t, g.next).value, t, Evaluate(store, e), m);
  }

  /** A generated value, converted and returned. */
  lemma ReturnGenerated(code: Code, c: Context, g: Generated, f: Forced, t: Type, evaluation: Evaluation, m: Machine) returns (steps: nat)
    requires GeneratedCorrect(g, c.nextRegister, evaluation, m) && CoerceToRegister(g.valueType, g.value, t, g.next) == Some(f)
    requires Contains(code, Emit(c, g.code + f.code + [Return(Some(f.register))], f.next))
    ensures match evaluation
            case Evaluated(from, v) => Coerce(from, v, t).Some? && Returns([t], Some(Coerce(from, v, t).value), Run(code, At(c, m), steps))
            case UndefinedValue => Run(code, At(c, m), steps) == Halted(UndefinedBehaviour)
            case IllTyped => false
  {
    if evaluation.Evaluated? {
      ReturnComputed(code, c, g, t, evaluation.value, m);
      steps := |g.code + f.code| + 1;
    } else {
      steps := |g.code|;
      RunIntoUndefined(code, c, g.code, g.code + f.code + [Return(Some(f.register))], f.next, m);
    }
  }

  lemma SimulateReturn(code: Code, c: Context, values: seq<Expression>, store: Store, fuel: nat, m: Machine) returns (steps: nat)
    requires GenerateReturn(c, values).Some? && Contains(code, GenerateReturn(c, values).value)
    requires WellScoped(c) && Matches(c.variables, store, m) && forall e :: e in values ==> Faithful(e)
    ensures Simulates(code, c, GenerateReturn(c, values).value, ExecuteReturn(SignatureOf(c), store, values), fuel, m, steps, m)
  {
    if values == [] {
      RunReturn(code, c, [], None, c.nextRegister, m, m);
      assert [] + [Return(None)] == [Return(None)];
      steps := 1;
    } else {
      steps := SimulateReturnValue(code, c, values[0], c.returnTypes[0], store, m);
      assert c.returnTypes == [c.returnTypes[0]];
    }
  }

  lemma SimulateBreak(code: Code, c: Context, store: Store, fuel: nat, m: Machine)
    requires c.breakTarget.Some? && Contains(code, Emit(c, [Jump(c.breakTarget.value)], c.nextRegister))
    requires WellScoped(c) && Matches(c.variables, store, m)
    ensures Simulates(code, c, Emit(c, [Jump(c.breakTarget.value)], c.nextRegister), Broke(store), fuel, m, 1, m)
  {
    RunTerminator(code, c, [], Jump(c.breakTarget.value), c.nextRegister, m, m);
    OuterMatches(c.variables, store, m);
  }

  lemma OuterMatches(variables: Stack<Variable>, store: Store, m: Machine)
    requires Matches(variables, store, m)
    ensures Matches(Outer(variables), Outer(store), m)
  {
    forall p: Position | Within(Outer(variables), p)
      ensures VariableMatches(Outer(variables)[p.scope][p.index].info, Outer(store)[p.scope][p.index].info, m)
    {
      assert Within(variables, p);
    }
  }

  /** Evaluating a condition and branching on it. */
  lemma SimulateCondition(code: Code, c: Context, e: Expression, trueTarget: Label, falseTarget: Label, store: Store, m: Machine)
    returns (steps: nat, m': Machine)
    requires GenerateCondition(c, e, trueTarget, falseTarget).Some? && Contains(code, GenerateCondition(c, e, trueTarget, falseTarget).value)
    requires WellScoped(c) && Matches(c.variables, store, m) && Faithful(e)
    ensures match Evaluate(store, e)
            case Evaluated(t, v) =>
              t.BooleanType? && v.Truth? && steps > 0 &&
              Run(code, At(c, m), steps) == Running(if v.truth then trueTarget else falseTarget, 0, m') &&
              Preserves(m, m', c.nextRegister)
            case UndefinedValue => Run(code, At(c, m), steps) == Halted(UndefinedBehaviour)
            case IllTyped => false
  {
    var g, f := ConditionIsBranch(c, e, trueTarget, falseTarget);
    GenerateExpressionCorrect(c.variables, store, c.nextRegister, e, m);
    steps, m' := BranchOn(code, c, g, f, trueTarget, falseTarget, Evaluate(store, e), m);
  }

  /** The code of a condition and its value in a register. */
  lemma ConditionIsBranch(c: Context, e: Expression, trueTarget: Label, falseTarget: Label) returns (g: Generated, f: Forced)
    requires GenerateCondition(c, e, trueTarget, falseTarget).Some?
    ensures GenerateExpression(c.variables, c.nextRegister, e) == Some(g) && g.valueType.BooleanType? && f == InRegister(IRBoolean, g.value, g.next)
    ensures GenerateCondition(c, e, trueTarget, falseTarget) == Some(Emit(c, g.code + f.code + [Branch(f.register, trueTarget, falseTarget)], f.next))
  {
    g := GenerateExpression(c.variables, c.nextRegister, e).value;
    f := InRegister(IRBoolean, g.value, g.next);
  }

  lemma BranchOn(code: Code, c: Context, g: Generated, f: Forced, trueTarget: Label, falseTarget: Label, evaluation: Evaluation, m: Machine)
    returns (steps: nat, m': Machine)
    requires GeneratedCorrect(g, c.nextRegister, evaluation, m) && g.valueType.BooleanType? && f == InRegister(IRBoolean, g.value, g.next)
    requires Contains(code, Emit(c, g.code + f.code + [Branch(f.register, trueTarget, falseTarget)], f.next))
    ensures match evaluation
            case Evaluated(t, v) =>
              t.BooleanType? && v.Truth? && steps > 0 &&
              Run(code, At(c, m), steps) == Running(if v.truth then trueTarget else falseTarget, 0, m') &&
              Preserves(m, m', c.nextRegister)
            case UndefinedValue => Run(code, At(c, m), steps) == Halted(UndefinedBehaviour)
            case IllTyped => false
  {
    if evaluation.Evaluated? {
      m' := RunForced(g, c.nextRegister, BooleanType, evaluation.value, m);
      RunBranch(code, c, g.code + f.code, f.register, trueTarget, falseTarget, f.next, m, m', evaluation.value.truth);
      steps := |g.code + f.code| + 1;
    } else {
      steps, m' := |g.code|, m;
      RunIntoUndefined(code, c, g.code, g.code + f.code + [Branch(f.register, trueTarget, falseTarget)], f.next, m);
    }
  }
}
