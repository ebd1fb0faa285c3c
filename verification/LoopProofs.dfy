/** The set-up, the test and the increment of a for loop. */
module LoopProofs {
  import opened Integers
  import opened Options
  import opened Ast
  import opened Hlir
  import opened Source
  import opened Folding
  import opened Lowering
  import opened OperationProofs
  import opened ExpressionProofs
  import opened ContextProofs
  import opened SimpleStatementProofs

  /** The index is in its local and the limit in its register. */
  ghost predicate LoopReady(t: Integer, pointer: Register, limitRegister: Register, current: int, limit: int, m: Machine) {
    InRange(t, current) && InRange(t, limit) &&
    LocalHolds(m, pointer, IntegerType(t), Number(current)) && HoldsInteger(m, limitRegister, t, limit)
  }

  lemma BoundsComputed(f: Generated, t: Generated, indexType: Integer, next: Register, fv: Value, tv: Value, m: Machine) returns (m': Machine)
    requires GeneratedCorrect(f, next, Evaluated(f.valueType, fv), m)
    requires GeneratedCorrect(t, f.next, Evaluated(t.valueType, tv), ExecuteAll(f.code, m).machine)
    requires CoerceToRegister(f.valueType, f.value, IntegerType(indexType), t.next).Some?
    requires CoerceToRegister(t.valueType, t.value, IntegerType(indexType),
               CoerceToRegister(f.valueType, f.value, IntegerType(indexType), t.next).value.next).Some?
    ensures var first := CoerceToRegister(f.valueType, f.value, IntegerType(indexType), t.next).value;
            var limit := CoerceToRegister(t.valueType, t.value, IntegerType(indexType), first.next).value;
            var x, y := Coerce(f.valueType, fv, IntegerType(indexType)), Coerce(t.valueType, tv, IntegerType(indexType));
            x.Some? && y.Some? && x.value.Number? && y.value.Number? && limit.next >= next &&
            ExecuteAll(f.code + t.code + first.code + limit.code
                       + [AllocateLocal(IRInteger(indexType.size), limit.next), Store(first.register, limit.next)], m) == Next(m') &&
            LoopReady(indexType, limit.next, limit.register, x.value.number, y.value.number, m') &&
            KeepsRegisters(m, m', next) && limit.register < limit.next &&
            m'.memory == m.memory[limit.next := Represent(IntegerType(indexType), x.value)]
  {
    var ready := PrepareOperands(f, t, next, fv, tv, IntegerType(indexType), m);
    var first := CoerceToRegister(f.valueType, f.value, IntegerType(indexType), t.next).value;
    var limit := CoerceToRegister(t.valueType, t.value, IntegerType(indexType), first.next).value;
    var allocate, store := AllocateLocal(IRInteger(indexType.size), limit.next), Store(first.register, limit.next);
    ExecuteAllAppend(f.code + t.code + first.code + limit.code, [allocate, store], m);
    ExecuteTwo(allocate, store, ready);
    m' := Execute(store, Execute(allocate, ready).machine).machine;
  }

  /** What the bounds of a loop evaluate to. */
  ghost predicate SetupCorrect(code: Code, c: Context, loop: Loop, bounds: Bounds, store: Store, m: Machine, steps: nat, m': Machine) {
    match bounds
    case Bounds(t, first, limit) =>
      t == loop.indexType && Run(code, At(c, m), steps) == At(loop.context, m') &&
      LoopReady(t, loop.pointer, loop.limit, first, limit, m') && Matches(c.variables, store, m') && KeepsRegisters(m, m', c.nextRegister)
    case BoundsFailed(outcome) => outcome.UndefinedOutcome? && Run(code, At(c, m), steps) == Halted(UndefinedBehaviour)
  }

  lemma SetupUndefined(code: Code, c: Context, from: Expression, to: Expression, first: seq<Instruction>, m: Machine)
    requires GenerateLoopSetup(c, from, to).Some? && Contains(code, GenerateLoopSetup(c, from, to).value.context)
    requires var f := GenerateExpression(c.variables, c.nextRegister, from).value;
             var t := GenerateExpression(c.variables, f.next, to).value;
             first <= f.code + t.code
    requires ExecuteAll(first, m) == Undefined
    ensures Run(code, At(c, m), |first|) == Halted(UndefinedBehaviour)
  {
    var f := GenerateExpression(c.variables, c.nextRegister, from).value;
    var t := GenerateExpression(c.variables, f.next, to).value;
    var loop := GenerateLoopSetup(c, from, to).value;
    var added := loop.context.instructions[|c.instructions|..];
    assert first <= added;
    assert loop.context == Emit(c, added, loop.context.nextRegister);
    RunIntoUndefined(code, c, first, added, loop.context.nextRegister, m);
  }

  /** The code that sets a loop up runs to its end. */
  lemma RunSetup(code: Code, c: Context, f: Generated, t: Generated, loop: Loop, fv: Value, tv: Value, m: Machine)
    returns (steps: nat, m': Machine)
    requires GeneratedCorrect(f, c.nextRegister, Evaluated(f.valueType, fv), m)
    requires GeneratedCorrect(t, f.next, Evaluated(t.valueType, tv), ExecuteAll(f.code, m).machine)
    requires CoerceToRegister(f.valueType, f.value, IntegerType(loop.indexType), t.next).Some?
    requires var first := CoerceToRegister(f.valueType, f.value, IntegerType(loop.indexType), t.next).value;
             var limit := CoerceToRegister(t.valueType, t.value, IntegerType(loop.indexType), first.next);
             limit.Some? && loop.pointer == limit.value.next && loop.limit == limit.value.register &&
             loop.context == Emit(c, f.code + t.code + first.code + limit.value.code
               + [AllocateLocal(IRInteger(loop.indexType.size), loop.pointer), Store(first.register, loop.pointer)], loop.pointer + 1) &&
             Contains(code, loop.context)
    ensures var x, y := Coerce(f.valueType, fv, IntegerType(loop.indexType)), Coerce(t.valueType, tv, IntegerType(loop.indexType));
            x.Some? && y.Some? && x.value.Number? && y.value.Number? && c.nextRegister <= loop.pointer &&
            Run(code, At(c, m), steps) == At(loop.context, m') &&
            LoopReady(loop.indexType, loop.pointer, loop.limit, x.value.number, y.value.number, m') &&
            KeepsRegisters(m, m', c.nextRegister) && loop.pointer in m'.memory &&
            m'.memory == m.memory[loop.pointer := m'.memory[loop.pointer]]
  {
    var first := CoerceToRegister(f.valueType, f.value, IntegerType(loop.indexType), t.next).value;
    var limit := CoerceToRegister(t.valueType, t.value, IntegerType(loop.indexType), first.next).value;
    m' := BoundsComputed(f, t, loop.indexType, c.nextRegister, fv, tv, m);
    var added := f.code + t.code + first.code + limit.code
      + [AllocateLocal(IRInteger(loop.indexType.size), limit.next), Store(first.register, limit.next)];
    steps := |added|;
    EmittedIsThere(code, c, added, limit.next + 1);
    RunEmitted(code, c, added, [], m);
  }

  lemma SetupComputed(code: Code, c: Context, from: Expression, to: Expression, store: Store, fv: Value, tv: Value, m: Machine)
    returns (steps: nat, m': Machine)
    requires GenerateLoopSetup(c, from, to).Some? && Contains(code, GenerateLoopSetup(c, from, to).value.context)
    requires WellScoped(c) && Matches(c.variables, store, m)
    requires var f := GenerateExpression(c.variables, c.nextRegister, from).value;
             var t := GenerateExpression(c.variables, f.next, to).value;
             GeneratedCorrect(f, c.nextRegister, Evaluated(f.valueType, fv), m) &&
             GeneratedCorrect(t, f.next, Evaluated(t.valueType, tv), ExecuteAll(f.code, m).machine) &&
             Evaluate(store, from) == Evaluated(f.valueType, fv) && Evaluate(store, to) == Evaluated(t.valueType, tv)
    ensures SetupCorrect(code, c, GenerateLoopSetup(c, from, to).value, EvaluateBounds(SignatureOf(c), store, from, to), store, m, steps, m')
  {
    var f := GenerateExpression(c.variables, c.nextRegister, from).value;
    var t := GenerateExpression(c.variables, f.next, to).value;
    var loop := GenerateLoopSetup(c, from, to).value;
    steps, m' := RunSetup(code, c, f, t, loop, fv, tv, m);
    SetupMatches(c.variables, store, c.nextRegister, loop.pointer, m, m');
  }

  lemma SetupMatches(variables: Stack<Variable>, store: Store, next: Register, pointer: Register, m: Machine, m': Machine)
    requires Matches(variables, store, m) && PointersBelow(variables, next) && next <= pointer
    requires KeepsRegisters(m, m', next) && pointer in m'.memory && m'.memory == m.memory[pointer := m'.memory[pointer]]
    ensures Matches(variables, store, m')
  {
    PointersBelowLater(variables, next, pointer);
    WriteNewLocal(variables, store, pointer, m'.memory[pointer], m);
    MatchesPreserved(variables, store, m.(memory := m'.memory), m', next);
  }

  lemma SimulateSetup(code: Code, c: Context, from: Expression, to: Expression, store: Store, m: Machine) returns (steps: nat, m': Machine)
    requires GenerateLoopSetup(c, from, to).Some? && Contains(code, GenerateLoopSetup(c, from, to).value.context)
    requires WellScoped(c) && Matches(c.variables, store, m) && Faithful(from) && Faithful(to)
    ensures SetupCorrect(code, c, GenerateLoopSetup(c, from, to).value, EvaluateBounds(SignatureOf(c), store, from, to), store, m, steps, m')
  {
    var f := GenerateExpression(c.variables, c.nextRegister, from).value;
    var t := GenerateExpression(c.variables, f.next, to).value;
    GenerateExpressionCorrect(c.variables, store, c.nextRegister, from, m);
    PointersBelowLater(c.variables, c.nextRegister, f.next);
    GenerateExpressionCorrect(c.variables, store, f.next, to, m);
    if Evaluate(store, from).Evaluated? {
      var m1 := ExecuteAll(f.code, m).machine;
      MatchesPreserved(c.variables, store, m, m1, c.nextRegister);
      GenerateExpressionCorrect(c.variables, store, f.next, to, m1);
      if Evaluate(store, to).Evaluated? {
        steps, m' := SetupComputed(code, c, from, to, store, Evaluate(store, from).value, Evaluate(store, to).value, m);
      } else {
        ExecuteAllAppend(f.code, t.code, m);
        SetupUndefined(code, c, from, to, f.code + t.code, m);
        steps, m' := |f.code + t.code|, m;
      }
    } else {
      SetupUndefined(code, c, from, to, f.code, m);
      steps, m' := |f.code|, m;
    }
  }

  /** The test at the head: leave if the index is past the limit. */
  lemma RunLoopHead(code: Code, head: Context, loop: Loop, body: Label, end: Label, current: int, limit: int, m: Machine)
    returns (steps: nat, m': Machine)
    requires Contains(code, LoopHead(head, loop, body, end)) && LoopReady(loop.indexType, loop.pointer, loop.limit, current, limit, m)
    requires loop.pointer < head.nextRegister && loop.limit < head.nextRegister
    ensures Run(code, At(head, m), steps) == Running(if current > limit then end else body, 0, m') && steps > 0
    ensures Preserves(m, m', head.nextRegister) && HoldsInteger(m', head.nextRegister, loop.indexType, current)
  {
    var t, index := loop.indexType, head.nextRegister;
    var load := Load(loop.pointer, IRInteger(t.size), index);
    var compare := IntegerComparison(if t.isSigned then SignedGreaterThan else UnsignedGreaterThan, index, loop.limit, index + 1);
    ComparisonComputed(GreaterThan, t, current, limit);
    ExecuteTwo(load, compare, m);
    m' := ExecuteAll([load, compare], m).machine;
    assert [load, compare] + [Branch(index + 1, end, body)] == [load, compare, Branch(index + 1, end, body)];
    RunBranch(code, head, [load, compare], index + 1, end, body, index + 2, m, m', current > limit);
    steps := |[load, compare]| + 1;
  }

  lemma IncrementComputed(t: Integer, index: Register, pointer: Register, one: Register, current: int, m: Machine) returns (m': Machine)
    requires InRange(t, current) && HoldsInteger(m, index, t, current) && index < one && IsPointerTo(m, pointer) && pointer < one
    ensures ExecuteAll([Literal(IRInteger(t.size), IntegerConstant(1), one), IntegerArithmetic(Add, index, one, one + 1), Store(one + 1, pointer)], m)
            == Next(m')
    ensures KeepsRegisters(m, m', one)
    ensures m'.memory == m.memory[pointer := Represent(IntegerType(t), Number(Wrap(t, current + 1)))]
  {
    var literal := Literal(IRInteger(t.size), IntegerConstant(1), one);
    var add, store := IntegerArithmetic(Add, index, one, one + 1), Store(one + 1, pointer);
    SumComputed(t, current, 1);
    ExecuteTwo(literal, add, m);
    var m1 := ExecuteAll([literal, add], m).machine;
    ExecuteAllAppend([literal, add], [store], m);
    ExecuteOne(store, m1);
    assert [literal, add] + [store] == [literal, add, store];
    m' := Execute(store, m1).machine;
  }

  /** The increment: the next index is the one the head loaded plus one, whatever the body stored. */
  lemma RunLoopTail(code: Code, c: Context, loop: Loop, index: Register, current: int, m: Machine) returns (steps: nat, m': Machine)
    requires Contains(code, LoopTail(c, loop, index)) && InRange(loop.indexType, current)
    requires HoldsInteger(m, index, loop.indexType, current) && index < c.nextRegister
    requires IsPointerTo(m, loop.pointer) && loop.pointer < c.nextRegister
    ensures Run(code, At(c, m), steps) == At(LoopTail(c, loop, index), m')
    ensures KeepsRegisters(m, m', c.nextRegister)
    ensures m'.memory == m.memory[loop.pointer := Represent(IntegerType(loop.indexType), Number(Wrap(loop.indexType, current + 1)))]
  {
    var t, one := loop.indexType, c.nextRegister;
    m' := IncrementComputed(t, index, loop.pointer, one, current, m);
    var added := [Literal(IRInteger(t.size), IntegerConstant(1), one), IntegerArithmetic(Add, index, one, one + 1), Store(one + 1, loop.pointer)];
    EmittedIsThere(code, c, added, one + 2);
    RunEmitted(code, c, added, [], m);
    steps := |added|;
  }

  /** The body's scope starts with the index variable. */
  lemma IndexMatches(variables: Stack<Variable>, store: Store, name: string, loop: Loop, current: int, limit: int, m: Machine)
    requires Matches(variables, store, m) && LoopReady(loop.indexType, loop.pointer, loop.limit, current, limit, m)
    ensures Matches(variables + [[Named(name, Variable(IntegerType(loop.indexType), loop.pointer))]],
                    store + [[Named(name, Slot(IntegerType(loop.indexType), Number(current)))]], m)
  {
    var variables': Stack<Variable> := variables + [[Named(name, Variable(IntegerType(loop.indexType), loop.pointer))]];
    var store': Store := store + [[Named(name, Slot(IntegerType(loop.indexType), Number(current)))]];
    forall p: Position | Within(variables', p)
      ensures VariableMatches(variables'[p.scope][p.index].info, store'[p.scope][p.index].info, m)
    {
      if p.scope < |variables| {
        assert Within(variables, p);
        assert VariableMatches(variables[p.scope][p.index].info, store[p.scope][p.index].info, m);
      }
    }
  }
}
