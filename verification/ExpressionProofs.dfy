/** The code generated for an expression computes the expression's value. */
module ExpressionProofs {
  import opened Integers
  import opened IntegerLaws
  import opened Options
  import opened Ast
  import opened Hlir
  import opened Source
  import opened Folding
  import opened FoldingProofs
  import opened Lowering
  import opened OperationProofs

  /** The register value that represents a value of a runtime type. */
  function Represent(t: Type, v: Value): RegisterValue {
    match (t, v)
    case (BooleanType, Truth(b)) => BooleanValue(b)
    case (IntegerType(i), Number(n)) => IntegerValue(i.size, Encode(i.size, n))
    case _ => PointerValue(0)
  }

  predicate IsPointerTo(m: Machine, r: Register) {
    r in m.registers && m.registers[r] == PointerValue(r)
  }

  predicate HoldsValue(m: Machine, r: Register, t: Type, v: Value) {
    r in m.registers && m.registers[r] == Represent(t, v)
  }

  predicate LocalHolds(m: Machine, r: Register, t: Type, v: Value) {
    IsPointerTo(m, r) && r in m.memory && m.memory[r] == Represent(t, v)
  }

  /** A generated value stands for `v` in machine `m`. */
  ghost predicate Stands(t: Type, value: RuntimeValue, v: Value, m: Machine) {
    HasType(v, t) &&
    match value
    case ConstantValue(constant) => Denotes(TypedConstant(t, constant), v)
    case RegisterHeld(r) => IsRuntimeType(t) && HoldsValue(m, r, t, v)
    case AddressedValue(r) => IsRuntimeType(t) && LocalHolds(m, r, t, v)
  }

  // ----- Variables -----

  predicate VariableMatches(variable: Variable, slot: Slot, m: Machine) {
    variable.variableType == slot.slotType && IsRuntimeType(slot.slotType) && HasType(slot.value, slot.slotType) &&
    LocalHolds(m, variable.pointer, slot.slotType, slot.value)
  }

  /** Every variable in scope has a local that represents its value. */
  ghost predicate Matches(variables: Stack<Variable>, store: Store, m: Machine) {
    SameNames(variables, store) &&
    forall p :: Within(variables, p) ==> VariableMatches(variables[p.scope][p.index].info, store[p.scope][p.index].info, m)
  }

  lemma PreservesTransitive(a: Machine, b: Machine, c: Machine, j: Register, k: Register)
    requires Preserves(a, b, j) && Preserves(b, c, k) && j <= k
    ensures Preserves(a, c, j)
  {
  }

  lemma StandsPreserved(t: Type, value: RuntimeValue, v: Value, m: Machine, m': Machine, next: Register)
    requires Stands(t, value, v, m) && Below(value, next) && Preserves(m, m', next)
    ensures Stands(t, value, v, m')
  {
  }

  lemma MatchesPreserved(variables: Stack<Variable>, store: Store, m: Machine, m': Machine, next: Register)
    requires Matches(variables, store, m) && PointersBelow(variables, next) && Preserves(m, m', next)
    ensures Matches(variables, store, m')
  {
  }

  // ----- Values in registers -----

  /** Forced code leaves memory alone and puts the representation of `v` in its register. */
  ghost predicate ForcedCorrect(f: Forced, next: Register, t: Type, v: Value, m: Machine) {
    var effect := ExecuteAll(f.code, m);
    next <= f.next && f.register < f.next &&
    effect.Next? && Preserves(m, effect.machine, next) && HoldsValue(effect.machine, f.register, t, v)
  }

  lemma InRegisterCorrect(t: Type, value: RuntimeValue, next: Register, v: Value, m: Machine)
    requires Stands(t, value, v, m) && Below(value, next) && IsRuntimeType(t)
    ensures ForcedCorrect(InRegister(IRTypeOf(t), value, next), next, t, v, m)
  {
    match value
    case ConstantValue(constant) =>
      ExecuteOne(Literal(IRTypeOf(t), constant, next), m);
      if t.IntegerType? {
        EncodeWrap(t.integer, constant.integer);
      }
    case RegisterHeld(_) =>
    case AddressedValue(pointer) =>
      ExecuteOne(Load(pointer, IRTypeOf(t), next), m);
  }

  lemma CoerceToRegisterCorrect(from: Type, value: RuntimeValue, target: Type, next: Register, v: Value, m: Machine)
    requires Stands(from, value, v, m) && Below(value, next) && CoerceToRegister(from, value, target, next).Some?
    ensures IsRuntimeType(target) && Coerce(from, v, target).Some?
    ensures HasType(Coerce(from, v, target).value, target)
    ensures ForcedCorrect(CoerceToRegister(from, value, target, next).value, next, target, Coerce(from, v, target).value, m)
  {
    if from == target {
      InRegisterCorrect(from, value, next, v, m);
    } else {
      var t, word := target.integer, value.constant.integer;
      SignedWord(word);
      SignedWordCongruent(t.size, word);
      WrapInRange(t, word);
      InRegisterCorrect(target, value, next, Number(Wrap(t, word)), m);
    }
  }

  // ----- Expressions -----

  /** `g` is what evaluating an expression to `evaluation` looks like from machine `m`. */
  ghost predicate GeneratedCorrect(g: Generated, next: Register, evaluation: Evaluation, m: Machine) {
    next <= g.next && Below(g.value, g.next) &&
    match evaluation
    case Evaluated(t, v) =>
      var effect := ExecuteAll(g.code, m);
      t == g.valueType && effect.Next? && Preserves(m, effect.machine, next) && Stands(t, g.value, v, effect.machine)
    case UndefinedValue => ExecuteAll(g.code, m) == Undefined
    case IllTyped => false
  }

  /** Zero minus a register. */
  lemma NegateRegister(t: Integer, register: Register, next: Register, n: int, m: Machine)
    requires InRange(t, n) && HoldsInteger(m, register, t, n) && register < next
    ensures var effect := ExecuteAll([Literal(IRInteger(t.size), IntegerConstant(0), next), IntegerArithmetic(Subtract, next, register, next + 1)], m);
            effect.Next? && Preserves(m, effect.machine, next) && HoldsInteger(effect.machine, next + 1, t, Wrap(t, -n)) && InRange(t, Wrap(t, -n))
  {
    ExecuteTwo(Literal(IRInteger(t.size), IntegerConstant(0), next), IntegerArithmetic(Subtract, next, register, next + 1), m);
    SumComputed(t, 0, n);
  }

  lemma NegateConstantCorrect(g: Generated, next: Register, t: Type, v: Value, m: Machine)
    requires GeneratedCorrect(g, next, Evaluated(t, v), m) && GenerateNegation(g).Some?
    requires g.value.ConstantValue? && !t.IntegerType?
    ensures GeneratedCorrect(GenerateNegation(g).value, next, EvaluateNegation(t, v), m)
  {
    NegatedWord(g.value.constant.integer);
    WrapInRange(Integer(Size64, true), -v.number);
  }

  lemma NegationCorrect(g: Generated, next: Register, t: Type, v: Value, m: Machine)
    requires GeneratedCorrect(g, next, Evaluated(t, v), m) && GenerateNegation(g).Some?
    requires g.value.ConstantValue? ==> !t.IntegerType?
    ensures GeneratedCorrect(GenerateNegation(g).value, next, EvaluateNegation(t, v), m)
  {
    if g.value.ConstantValue? {
      NegateConstantCorrect(g, next, t, v, m);
    } else {
      NegateValueCorrect(g, next, t, v, m);
    }
  }

  lemma NegateValueCorrect(g: Generated, next: Register, t: Type, v: Value, m: Machine)
    requires GeneratedCorrect(g, next, Evaluated(t, v), m) && t.IntegerType?
    ensures var f := InRegister(IRTypeOf(t), g.value, g.next);
            var negate := [Literal(IRTypeOf(t), IntegerConstant(0), f.next), IntegerArithmetic(Subtract, f.next, f.register, f.next + 1)];
            v.Number? &&
            GeneratedCorrect(Generated(g.code + f.code + negate, f.next + 2, t, RegisterHeld(f.next + 1)), next, Evaluated(t, Number(Wrap(t.integer, -v.number))), m)
  {
    var f := InRegister(IRTypeOf(t), g.value, g.next);
    var m2 := PrepareOperand(g, next, t, v, m);
    ThenNegate(g.code + f.code, t.integer, f.register, f.next, v.number, next, m, m2);
  }

  lemma ThenNegate(prefix: seq<Instruction>, t: Integer, register: Register, last: Register, n: int, next: Register, m: Machine, m2: Machine)
    requires ExecuteAll(prefix, m) == Next(m2) && Preserves(m, m2, next) && next <= last && register < last
    requires InRange(t, n) && HoldsInteger(m2, register, t, n)
    ensures var negate := [Literal(IRInteger(t.size), IntegerConstant(0), last), IntegerArithmetic(Subtract, last, register, last + 1)];
            GeneratedCorrect(Generated(prefix + negate, last + 2, IntegerType(t), RegisterHeld(last + 1)), next,
                             Evaluated(IntegerType(t), Number(Wrap(t, -n))), m)
  {
    var negate := [Literal(IRInteger(t.size), IntegerConstant(0), last), IntegerArithmetic(Subtract, last, register, last + 1)];
    NegateRegister(t, register, last, n, m2);
    ThenCorrect(prefix, negate, last + 2, RegisterHeld(last + 1), next, last, IntegerType(t), Number(Wrap(t, -n)), m, m2);
  }

  /** A value of its own runtime type, forced into a register. */
  lemma PrepareOperand(g: Generated, next: Register, t: Type, v: Value, m: Machine) returns (m': Machine)
    requires GeneratedCorrect(g, next, Evaluated(t, v), m) && IsRuntimeType(t)
    ensures var f := InRegister(IRTypeOf(t), g.value, g.next);
            ExecuteAll(g.code + f.code, m) == Next(m') && Preserves(m, m', next) && HoldsValue(m', f.register, t, v) &&
            next <= f.next && f.register < f.next
  {
    var f := InRegister(IRTypeOf(t), g.value, g.next);
    var m1 := ExecuteAll(g.code, m).machine;
    InRegisterCorrect(t, g.value, g.next, v, m1);
    ExecuteAllAppend(g.code, f.code, m);
    m' := ExecuteAll(f.code, m1).machine;
    PreservesTransitive(m, m1, m', next, g.next);
  }

  /** More code that leaves a value in a register completes an evaluation. */
  lemma ThenCorrect(
    prefix: seq<Instruction>, code: seq<Instruction>, last: Register, value: RuntimeValue, next: Register, from: Register,
    t: Type, v: Value, m: Machine, m1: Machine
  )
    requires ExecuteAll(prefix, m) == Next(m1) && Preserves(m, m1, next) && next <= from <= last && Below(value, last)
    requires ExecuteAll(code, m1).Next? && Preserves(m1, ExecuteAll(code, m1).machine, from)
    requires Stands(t, value, v, ExecuteAll(code, m1).machine)
    ensures GeneratedCorrect(Generated(prefix + code, last, t, value), next, Evaluated(t, v), m)
  {
    ExecuteAllAppend(prefix, code, m);
    PreservesTransitive(m, m1, ExecuteAll(code, m1).machine, next, from);
  }

  lemma InversionCorrect(g: Generated, next: Register, t: Type, v: Value, m: Machine)
    requires GeneratedCorrect(g, next, Evaluated(t, v), m) && GenerateInversion(g).Some?
    ensures GeneratedCorrect(GenerateInversion(g).value, next, EvaluateInversion(t, v), m)
  {
    if !g.value.ConstantValue? {
      var f := InRegister(IRBoolean, g.value, g.next);
      var m2 := PrepareOperand(g, next, t, v, m);
      ExecuteOne(BooleanInversion(f.register, f.next), m2);
      ThenCorrect(g.code + f.code, [BooleanInversion(f.register, f.next)], f.next + 1, RegisterHeld(f.next), next, f.next,
                  t, Truth(!v.truth), m, m2);
    }
  }

  /** A conversion between integer types keeps the value modulo the size of the target. */
  lemma ConvertIntegerCorrect(source: Integer, register: Register, target: Integer, next: Register, n: int, m: Machine)
    requires InRange(source, n) && HoldsInteger(m, register, source, n) && register < next
    ensures ForcedCorrect(ConvertInteger(source, register, target, next), next, IntegerType(target), Number(Wrap(target, n)), m)
  {
    var f := ConvertInteger(source, register, target, next);
    DecodeEncode(source, n);
    EncodeWrap(target, n);
    if Bits(target.size) > Bits(source.size) {
      ExecuteOne(IntegerExtension(source.isSigned, register, target.size, next), m);
    } else if Bits(target.size) < Bits(source.size) {
      ExecuteOne(IntegerTruncation(register, target.size, next), m);
      EncodeOfLarger(target.size, source.size, n);
    }
  }

  /** An implicit conversion that succeeds is also what the cast yields. */
  lemma CoercionIsCast(from: Type, v: Value, target: Type)
    requires HasType(v, from) && Coerce(from, v, target).Some?
    ensures EvaluateCast(from, v, target) == Evaluated(target, Coerce(from, v, target).value)
  {
    if target.IntegerType? && from == target {
      DecodeEncode(target.integer, v.number);
    }
  }

  lemma CastCorrect(g: Generated, next: Register, t: Type, v: Value, target: Type, m: Machine)
    requires GeneratedCorrect(g, next, Evaluated(t, v), m) && GenerateCast(g, target).Some?
    ensures GeneratedCorrect(GenerateCast(g, target).value, next, EvaluateCast(t, v, target), m)
  {
    if g.value.ConstantValue? {
      CastAgrees(TypedConstant(t, g.value.constant), v, target);
      CastHasType(t, v, target);
    } else {
      var m1 := ExecuteAll(g.code, m).machine;
      if CoerceToRegister(t, g.value, target, g.next).Some? {
        CoerceToRegisterCorrect(t, g.value, target, g.next, v, m1);
        CoercionIsCast(t, v, target);
        ExecuteAllAppend(g.code, CoerceToRegister(t, g.value, target, g.next).value.code, m);
      } else {
        ConversionCorrect(g, next, t, v, target, m);
      }
    }
  }

  lemma CastHasType(t: Type, v: Value, target: Type)
    requires HasType(v, t) && EvaluateCast(t, v, target).Evaluated?
    ensures HasType(EvaluateCast(t, v, target).value, target)
  {
    if target.IntegerType? {
      WrapInRange(target.integer, v.number);
    }
  }

  lemma ConversionCorrect(g: Generated, next: Register, t: Type, v: Value, target: Type, m: Machine)
    requires GeneratedCorrect(g, next, Evaluated(t, v), m) && !g.value.ConstantValue?
    requires CoerceToRegister(t, g.value, target, g.next).None? && t.IntegerType? && target.IntegerType?
    ensures GeneratedCorrect(GenerateCast(g, target).value, next, EvaluateCast(t, v, target), m)
  {
    var f := InRegister(IRTypeOf(t), g.value, g.next);
    var m2 := PrepareOperand(g, next, t, v, m);
    var conversion := ConvertInteger(t.integer, f.register, target.integer, f.next);
    ConvertIntegerCorrect(t.integer, f.register, target.integer, f.next, v.number, m2);
    WrapInRange(target.integer, v.number);
    ThenCorrect(g.code + f.code, conversion.code, conversion.next, RegisterHeld(conversion.register), next, f.next,
                target, Number(Wrap(target.integer, v.number)), m, m2);
  }

  /** Two operands brought to one type in two registers: what `m` becomes on the way. */
  ghost predicate OperandsReady(
    left: Generated, right: Generated, next: Register, t: Type, lv: Value, rv: Value, m: Machine, ready: Machine
  ) {
    var l := CoerceToRegister(left.valueType, left.value, t, right.next);
    l.Some? &&
    var r := CoerceToRegister(right.valueType, right.value, t, l.value.next);
    r.Some? && next <= r.value.next && l.value.register < r.value.next && r.value.register < r.value.next &&
    ExecuteAll(left.code + right.code + l.value.code + r.value.code, m) == Next(ready) &&
    Preserves(m, ready, next) && HoldsValue(ready, l.value.register, t, lv) && HoldsValue(ready, r.value.register, t, rv)
  }

  lemma PrepareOperands(
    left: Generated, right: Generated, next: Register, lv: Value, rv: Value, t: Type, m: Machine
  ) returns (ready: Machine)
    requires GeneratedCorrect(left, next, Evaluated(left.valueType, lv), m)
    requires GeneratedCorrect(right, left.next, Evaluated(right.valueType, rv), ExecuteAll(left.code, m).machine)
    requires CoerceToRegister(left.valueType, left.value, t, right.next).Some?
    requires CoerceToRegister(right.valueType, right.value, t, CoerceToRegister(left.valueType, left.value, t, right.next).value.next).Some?
    ensures IsRuntimeType(t)
    ensures Coerce(left.valueType, lv, t).Some? && HasType(Coerce(left.valueType, lv, t).value, t)
    ensures Coerce(right.valueType, rv, t).Some? && HasType(Coerce(right.valueType, rv, t).value, t)
    ensures OperandsReady(left, right, next, t, Coerce(left.valueType, lv, t).value, Coerce(right.valueType, rv, t).value, m, ready)
  {
    var m1 := ExecuteAll(left.code, m).machine;
    var m2 := ExecuteAll(right.code, m1).machine;
    var l := CoerceToRegister(left.valueType, left.value, t, right.next).value;
    var r := CoerceToRegister(right.valueType, right.value, t, l.next).value;
    StandsPreserved(left.valueType, left.value, lv, m1, m2, left.next);
    CoerceToRegisterCorrect(left.valueType, left.value, t, right.next, lv, m2);
    var m3 := ExecuteAll(l.code, m2).machine;
    StandsPreserved(right.valueType, right.value, rv, m2, m3, right.next);
    CoerceToRegisterCorrect(right.valueType, right.value, t, l.next, rv, m3);
    ready := ExecuteAll(r.code, m3).machine;
    ExecuteAllAppend(left.code, right.code, m);
    ExecuteAllAppend(left.code + right.code, l.code, m);
    ExecuteAllAppend(left.code + right.code + l.code, r.code, m);
    PreservesTransitive(m, m1, m2, next, left.next);
    PreservesTransitive(m, m2, m3, next, right.next);
    PreservesTransitive(m, m3, ready, next, l.next);
  }

  lemma CombineBooleansCorrect(
    operator: BinaryOperator, left: Generated, right: Generated, next: Register, lv: Value, rv: Value, m: Machine
  )
    requires GeneratedCorrect(left, next, Evaluated(left.valueType, lv), m)
    requires GeneratedCorrect(right, left.next, Evaluated(right.valueType, rv), ExecuteAll(left.code, m).machine)
    requires CombineBinary(operator, left, right).Some? && !(left.value.ConstantValue? && right.value.ConstantValue?)
    requires BinaryType(left.valueType, right.valueType).BooleanType?
    ensures GeneratedCorrect(CombineBinary(operator, left, right).value, next,
                             EvaluateBinary(operator, left.valueType, lv, right.valueType, rv), m)
  {
    var t := BooleanType;
    var ready := PrepareOperands(left, right, next, lv, rv, t, m);
    var l := CoerceToRegister(left.valueType, left.value, t, right.next).value;
    var r := CoerceToRegister(right.valueType, right.value, t, l.next).value;
    var g := BooleanOperationOf(operator, l.register, r.register, r.next).value;
    BooleanOperationCorrect(operator, l.register, r.register, r.next, lv.truth, rv.truth, ready);
    ExecuteAllAppend(left.code + right.code + l.code + r.code, g.code, m);
    PreservesTransitive(m, ready, ExecuteAll(g.code, ready).machine, next, r.next);
  }

  lemma CombineIntegersCorrect(
    operator: BinaryOperator, left: Generated, right: Generated, next: Register, lv: Value, rv: Value, t: Integer, m: Machine
  )
    requires GeneratedCorrect(left, next, Evaluated(left.valueType, lv), m)
    requires GeneratedCorrect(right, left.next, Evaluated(right.valueType, rv), ExecuteAll(left.code, m).machine)
    requires CombineBinary(operator, left, right).Some? && !(left.value.ConstantValue? && right.value.ConstantValue?)
    requires BinaryType(left.valueType, right.valueType) == IntegerType(t)
    ensures GeneratedCorrect(CombineBinary(operator, left, right).value, next,
                             EvaluateBinary(operator, left.valueType, lv, right.valueType, rv), m)
  {
    var ready := PrepareOperands(left, right, next, lv, rv, IntegerType(t), m);
    var l := CoerceToRegister(left.valueType, left.value, IntegerType(t), right.next).value;
    var r := CoerceToRegister(right.valueType, right.value, IntegerType(t), l.next).value;
    var x := Coerce(left.valueType, lv, IntegerType(t)).value.number;
    var y := Coerce(right.valueType, rv, IntegerType(t)).value.number;
    var g := IntegerOperation(operator, t, l.register, r.register, r.next).value;
    IntegerOperationCorrect(operator, t, l.register, r.register, r.next, x, y, ready);
    ExecuteAllAppend(left.code + right.code + l.code + r.code, g.code, m);
    AfterOperands(operator, t, x, y, g, r.next, next, m, ready, left.code + right.code + l.code + r.code);
  }

  /** An integer operation on prepared operands completes the evaluation. */
  lemma AfterOperands(
    operator: BinaryOperator, t: Integer, x: int, y: int, g: Generated, from: Register, next: Register,
    m: Machine, ready: Machine, prefix: seq<Instruction>
  )
    requires next <= from && Preserves(m, ready, next) && ExecuteAll(prefix, m) == Next(ready)
    requires ExecuteAll(prefix + g.code, m) == ExecuteAll(g.code, ready)
    requires OperationCorrect(g, from, t, Operate(operator, t, x, y), ready)
    ensures GeneratedCorrect(g.(code := prefix + g.code), next, ResultOf(Operate(operator, t, x, y), IntegerType(t)), m)
  {
    var effect := ExecuteAll(g.code, ready);
    if effect.Next? {
      PreservesTransitive(m, ready, effect.machine, next, from);
    }
  }

  lemma CombineRegistersCorrect(
    operator: BinaryOperator, left: Generated, right: Generated, next: Register, lv: Value, rv: Value, m: Machine
  )
    requires GeneratedCorrect(left, next, Evaluated(left.valueType, lv), m)
    requires GeneratedCorrect(right, left.next, Evaluated(right.valueType, rv), ExecuteAll(left.code, m).machine)
    requires CombineBinary(operator, left, right).Some? && !(left.value.ConstantValue? && right.value.ConstantValue?)
    ensures GeneratedCorrect(CombineBinary(operator, left, right).value, next,
                             EvaluateBinary(operator, left.valueType, lv, right.valueType, rv), m)
  {
    match BinaryType(left.valueType, right.valueType)
    case BooleanType => CombineBooleansCorrect(operator, left, right, next, lv, rv, m);
    case IntegerType(t) => CombineIntegersCorrect(operator, left, right, next, lv, rv, t, m);
    case UndeterminedInteger =>
  }

  lemma CombineBinaryCorrect(
    operator: BinaryOperator, left: Generated, right: Generated, next: Register, lv: Value, rv: Value, m: Machine
  )
    requires GeneratedCorrect(left, next, Evaluated(left.valueType, lv), m)
    requires GeneratedCorrect(right, left.next, Evaluated(right.valueType, rv), ExecuteAll(left.code, m).machine)
    requires CombineBinary(operator, left, right).Some?
    requires left.value.ConstantValue? && right.value.ConstantValue? ==>
               FaithfulFold(operator, TypedConstant(left.valueType, left.value.constant), TypedConstant(right.valueType, right.value.constant))
    ensures GeneratedCorrect(CombineBinary(operator, left, right).value, next,
                             EvaluateBinary(operator, left.valueType, lv, right.valueType, rv), m)
  {
    if left.value.ConstantValue? && right.value.ConstantValue? {
      var m1 := ExecuteAll(left.code, m).machine;
      BinaryFoldAgrees(operator, TypedConstant(left.valueType, left.value.constant), lv, TypedConstant(right.valueType, right.value.constant), rv);
      DenotesHasType(FoldBinary(operator, TypedConstant(left.valueType, left.value.constant), TypedConstant(right.valueType, right.value.constant)).value,
                     EvaluateBinary(operator, left.valueType, lv, right.valueType, rv).value);
      ExecuteAllAppend(left.code, right.code, m);
      PreservesTransitive(m, m1, ExecuteAll(right.code, m1).machine, next, left.next);
    } else {
      CombineRegistersCorrect(operator, left, right, next, lv, rv, m);
    }
  }

  lemma DenotesHasType(c: TypedConstant, v: Value)
    requires Denotes(c, v)
    ensures HasType(v, c.constantType)
  {
    match c.constantType
    case BooleanType =>
    case IntegerType(t) => WrapInRange(t, c.constant.integer);
    case UndeterminedInteger => EncodeDecode(Integer(Size64, true), c.constant.integer);
  }

  /** A generated constant has no code and is what the expression folds to. */
  lemma {:induction false} ConstantIsFold(variables: Stack<Variable>, next: Register, e: Expression)
    requires GenerateExpression(variables, next, e).Some?
    requires GenerateExpression(variables, next, e).value.value.ConstantValue?
    ensures var g := GenerateExpression(variables, next, e).value;
            g.code == [] && Fold(e) == Some(TypedConstant(g.valueType, g.value.constant))
    decreases e
  {
    match e
    case IntegerLiteral(_) =>
    case BooleanLiteral(_) =>
    case NamedReference(_) =>
    case BinaryOperation(operator, left, right) =>
      var l := GenerateExpression(variables, next, left).value;
      ConstantIsFold(variables, next, left);
      ConstantIsFold(variables, l.next, right);
    case Negation(operand) => ConstantIsFold(variables, next, operand);
    case BooleanInvert(operand) => ConstantIsFold(variables, next, operand);
    case Cast(operand, _) => ConstantIsFold(variables, next, operand);
  }

  /** Undefined behaviour in a prefix is undefined behaviour of the whole. */
  lemma UndefinedStays(g: Generated, whole: Generated, m: Machine)
    requires ExecuteAll(g.code, m) == Undefined && g.code <= whole.code
    ensures ExecuteAll(whole.code, m) == Undefined
  {
    ExecuteAllAppend(g.code, whole.code[|g.code|..], m);
    assert g.code + whole.code[|g.code|..] == whole.code;
  }

  /** Generated code computes what the expression means, or runs into the same undefined behaviour. */
  lemma {:induction false} GenerateExpressionCorrect(variables: Stack<Variable>, store: Store, next: Register, e: Expression, m: Machine)
    requires Matches(variables, store, m) && PointersBelow(variables, next) && Faithful(e)
    requires GenerateExpression(variables, next, e).Some?
    ensures GeneratedCorrect(GenerateExpression(variables, next, e).value, next, Evaluate(store, e), m)
    decreases e
  {
    match e
    case IntegerLiteral(word) =>
      EncodeDecode(Integer(Size64, true), word);
    case BooleanLiteral(_) =>
    case NamedReference(name) =>
      FindSameNames(variables, store, name);
    case BinaryOperation(operator, left, right) =>
      var l := GenerateExpression(variables, next, left).value;
      var r := GenerateExpression(variables, l.next, right).value;
      GenerateExpressionBelow(variables, next, left);
      GenerateExpressionBelow(variables, l.next, right);
      GenerateExpressionCorrect(variables, store, next, left, m);
      if Evaluate(store, left).Evaluated? {
        var m1 := ExecuteAll(l.code, m).machine;
        MatchesPreserved(variables, store, m, m1, next);
        GenerateExpressionCorrect(variables, store, l.next, right, m1);
        if Evaluate(store, right).Evaluated? {
          if l.value.ConstantValue? && r.value.ConstantValue? {
            ConstantIsFold(variables, next, left);
            ConstantIsFold(variables, l.next, right);
          }
          CombineBinaryCorrect(operator, l, r, next, Evaluate(store, left).value, Evaluate(store, right).value, m);
        } else {
          ExecuteAllAppend(l.code, r.code, m);
          UndefinedStays(l.(code := l.code + r.code), CombineBinary(operator, l, r).value, m);
        }
      } else {
        GenerateExpressionCorrect(variables, store, l.next, right, m);
        ExecuteAllAppend(l.code, r.code, m);
        UndefinedStays(l.(code := l.code + r.code), CombineBinary(operator, l, r).value, m);
      }
    case Negation(operand) =>
      GenerateExpressionCorrect(variables, store, next, operand, m);
      var g := GenerateExpression(variables, next, operand).value;
      if g.value.ConstantValue? {
        ConstantIsFold(variables, next, operand);
      }
      if Evaluate(store, operand).Evaluated? {
        NegationCorrect(g, next, g.valueType, Evaluate(store, operand).value, m);
      } else {
        UndefinedStays(g, GenerateNegation(g).value, m);
      }
    case BooleanInvert(operand) =>
      GenerateExpressionCorrect(variables, store, next, operand, m);
      var g := GenerateExpression(variables, next, operand).value;
      if Evaluate(store, operand).Evaluated? {
        InversionCorrect(g, next, g.valueType, Evaluate(store, operand).value, m);
      } else {
        UndefinedStays(g, GenerateInversion(g).value, m);
      }
    case Cast(operand, target) =>
      GenerateExpressionCorrect(variables, store, next, operand, m);
      var g := GenerateExpression(variables, next, operand).value;
      if Evaluate(store, operand).Evaluated? {
        CastCorrect(g, next, g.valueType, Evaluate(store, operand).value, target, m);
      } else {
        UndefinedStays(g, GenerateCast(g, target).value, m);
      }
  }
}
