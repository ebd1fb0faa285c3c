/** The code of an expression passes the backend's checks. */
module BackendExpressions {
  import opened Integers
  import opened Options
  import opened Ast
  import opened Hlir
  import opened Source
  import opened Folding
  import opened Lowering
  import opened BackendChecks

  predicate RightKind(t: Type, constant: IRConstant) {
    if t.BooleanType? then constant.BooleanConstant? else constant.IntegerConstant?
  }

  /** A generated value can be used: a constant of the right kind, or an assigned register of the right type. */
  predicate Usable(t: Type, value: RuntimeValue, k: Known) {
    match value
    case ConstantValue(constant) => RightKind(t, constant)
    case RegisterHeld(r) => IsRuntimeType(t) && Holds(k, r, ValueRegister(IRTypeOf(t)))
    case AddressedValue(pointer) => IsRuntimeType(t) && Holds(k, pointer, PointerRegister(IRTypeOf(t)))
  }

  ghost predicate VariablesUsable(variables: Stack<Variable>, k: Known) {
    forall p :: Within(variables, p) ==>
      Usable(variables[p.scope][p.index].info.variableType, AddressedValue(variables[p.scope][p.index].info.pointer), k)
  }

  lemma UsableLater(t: Type, value: RuntimeValue, k: Known, k': Known)
    requires Usable(t, value, k) && Learns(k, k')
    ensures Usable(t, value, k')
  {
  }

  lemma VariablesUsableLater(variables: Stack<Variable>, k: Known, k': Known)
    requires VariablesUsable(variables, k) && Learns(k, k')
    ensures VariablesUsable(variables, k')
  {
  }

  /** `code` passes from `k` to `k'`, with `next` the next register. */
  ghost predicate Passes(entries: Entries, returnTypes: seq<Type>, code: seq<Instruction>, k: Known, next: Register, k': Known) {
    CheckAll(entries, returnTypes, code, k) == Some(k') && Consistent(k') && Learns(k, k') && k'.next == next
  }

  lemma PassesOn(
    entries: Entries, returnTypes: seq<Type>, f: seq<Instruction>, g: seq<Instruction>, a: Known, j: Register, b: Known, next: Register, c: Known
  )
    requires Passes(entries, returnTypes, f, a, j, b) && Passes(entries, returnTypes, g, b, next, c)
    ensures Passes(entries, returnTypes, f + g, a, next, c)
  {
    CheckAllAppend(entries, returnTypes, f, g, a);
  }

  lemma InRegisterPasses(entries: Entries, returnTypes: seq<Type>, t: Type, value: RuntimeValue, k: Known) returns (k': Known)
    requires IsRuntimeType(t) && Usable(t, value, k) && Consistent(k)
    ensures var f := InRegister(IRTypeOf(t), value, k.next);
            Passes(entries, returnTypes, f.code, k, f.next, k') && Holds(k', f.register, ValueRegister(IRTypeOf(t)))
  {
    var f := InRegister(IRTypeOf(t), value, k.next);
    if f.code == [] {
      k' := k;
    } else {
      CheckOne(entries, returnTypes, f.code[0], k);
      CheckLearns(entries, returnTypes, f.code[0], k);
      k' := Check(entries, returnTypes, f.code[0], k).value;
    }
  }

  lemma CoercePasses(entries: Entries, returnTypes: seq<Type>, t: Type, value: RuntimeValue, target: Type, k: Known) returns (k': Known)
    requires Usable(t, value, k) && Consistent(k) && CoerceToRegister(t, value, target, k.next).Some?
    ensures var f := CoerceToRegister(t, value, target, k.next).value;
            IsRuntimeType(target) && Passes(entries, returnTypes, f.code, k, f.next, k') && Holds(k', f.register, ValueRegister(IRTypeOf(target)))
  {
    k' := InRegisterPasses(entries, returnTypes, target, value, k);
  }

  /** A generated expression passes, and its value can be used after it. */
  ghost predicate GeneratedPasses(entries: Entries, returnTypes: seq<Type>, g: Generated, k: Known, k': Known) {
    Passes(entries, returnTypes, g.code, k, g.next, k') && Usable(g.valueType, g.value, k')
  }

  lemma InvertedPasses(entries: Entries, returnTypes: seq<Type>, invert: bool, i: Instruction, k: Known) returns (k': Known)
    requires Consistent(k) && Check(entries, returnTypes, i, k) == Define(k, k.next, ValueRegister(IRBoolean))
    ensures GeneratedPasses(entries, returnTypes, Inverted(invert, i, k.next), k, k')
  {
    var k1 := Check(entries, returnTypes, i, k).value;
    CheckLearns(entries, returnTypes, i, k);
    if invert {
      var j := BooleanInversion(k.next, k.next + 1);
      CheckTwo(entries, returnTypes, i, j, k);
      CheckLearns(entries, returnTypes, j, k1);
      k' := Check(entries, returnTypes, j, k1).value;
    } else {
      CheckOne(entries, returnTypes, i, k);
      k' := k1;
    }
  }

  lemma OperationPasses(entries: Entries, returnTypes: seq<Type>, operator: BinaryOperator, t: Type, a: Register, b: Register, k: Known)
    returns (k': Known)
    requires Consistent(k) && IsRuntimeType(t) && Holds(k, a, ValueRegister(IRTypeOf(t))) && Holds(k, b, ValueRegister(IRTypeOf(t)))
    requires (if t.BooleanType? then BooleanOperationOf(operator, a, b, k.next) else IntegerOperation(operator, t.integer, a, b, k.next)).Some?
    ensures var g := if t.BooleanType? then BooleanOperationOf(operator, a, b, k.next) else IntegerOperation(operator, t.integer, a, b, k.next);
            GeneratedPasses(entries, returnTypes, g.value, k, k')
  {
    if t.BooleanType? {
      var g := BooleanOperationOf(operator, a, b, k.next).value;
      k' := InvertedPasses(entries, returnTypes, operator.NotEqual?, g.code[0], k);
    } else if SelectArithmetic(operator, t.integer.isSigned).Some? {
      var i := IntegerArithmetic(SelectArithmetic(operator, t.integer.isSigned).value, a, b, k.next);
      CheckOne(entries, returnTypes, i, k);
      CheckLearns(entries, returnTypes, i, k);
      k' := Check(entries, returnTypes, i, k).value;
    } else {
      var selected := SelectComparison(operator, t.integer.isSigned).value;
      k' := InvertedPasses(entries, returnTypes, selected.invert, IntegerComparison(selected.comparison, a, b, k.next), k);
    }
  }

  /** Both operands of an operation in registers of its type. */
  lemma OperandsPass(entries: Entries, returnTypes: seq<Type>, left: Generated, right: Generated, t: Type, k: Known, k1: Known, k2: Known)
    returns (k': Known)
    requires Consistent(k) && GeneratedPasses(entries, returnTypes, left, k, k1) && GeneratedPasses(entries, returnTypes, right, k1, k2)
    requires CoerceToRegister(left.valueType, left.value, t, right.next).Some?
    requires CoerceToRegister(right.valueType, right.value, t, CoerceToRegister(left.valueType, left.value, t, right.next).value.next).Some?
    ensures var l := CoerceToRegister(left.valueType, left.value, t, right.next).value;
            var r := CoerceToRegister(right.valueType, right.value, t, l.next).value;
            IsRuntimeType(t) && Passes(entries, returnTypes, left.code + right.code + l.code + r.code, k, r.next, k') &&
            Holds(k', l.register, ValueRegister(IRTypeOf(t))) && Holds(k', r.register, ValueRegister(IRTypeOf(t)))
  {
    var l := CoerceToRegister(left.valueType, left.value, t, right.next).value;
    var r := CoerceToRegister(right.valueType, right.value, t, l.next).value;
    UsableLater(left.valueType, left.value, k1, k2);
    var k3 := CoercePasses(entries, returnTypes, left.valueType, left.value, t, k2);
    UsableLater(right.valueType, right.value, k2, k3);
    k' := CoercePasses(entries, returnTypes, right.valueType, right.value, t, k3);
    PassesOn(entries, returnTypes, left.code, right.code, k, left.next, k1, right.next, k2);
    PassesOn(entries, returnTypes, left.code + right.code, l.code, k, right.next, k2, l.next, k3);
    PassesOn(entries, returnTypes, left.code + right.code + l.code, r.code, k, l.next, k3, r.next, k');
  }

  lemma CombinePasses(entries: Entries, returnTypes: seq<Type>, operator: BinaryOperator, left: Generated, right: Generated, k: Known, k1: Known, k2: Known)
    returns (k': Known)
    requires Consistent(k) && GeneratedPasses(entries, returnTypes, left, k, k1) && GeneratedPasses(entries, returnTypes, right, k1, k2)
    requires CombineBinary(operator, left, right).Some?
    ensures GeneratedPasses(entries, returnTypes, CombineBinary(operator, left, right).value, k, k')
  {
    if left.value.ConstantValue? && right.value.ConstantValue? {
      PassesOn(entries, returnTypes, left.code, right.code, k, left.next, k1, right.next, k2);
      k' := k2;
    } else {
      k' := CombineRegistersPasses(entries, returnTypes, operator, left, right, k, k1, k2);
    }
  }

  lemma CombineRegistersPasses(
    entries: Entries, returnTypes: seq<Type>, operator: BinaryOperator, left: Generated, right: Generated, k: Known, k1: Known, k2: Known
  ) returns (k': Known)
    requires Consistent(k) && GeneratedPasses(entries, returnTypes, left, k, k1) && GeneratedPasses(entries, returnTypes, right, k1, k2)
    requires !(left.value.ConstantValue? && right.value.ConstantValue?) && CombineBinary(operator, left, right).Some?
    ensures GeneratedPasses(entries, returnTypes, CombineBinary(operator, left, right).value, k, k')
  {
    var t := BinaryType(left.valueType, right.valueType);
    var l := CoerceToRegister(left.valueType, left.value, t, right.next).value;
    var r := CoerceToRegister(right.valueType, right.value, t, l.next).value;
    var ready := OperandsPass(entries, returnTypes, left, right, t, k, k1, k2);
    k' := OperationPasses(entries, returnTypes, operator, t, l.register, r.register, ready);
    var g := if t.BooleanType? then BooleanOperationOf(operator, l.register, r.register, r.next)
             else IntegerOperation(operator, t.integer, l.register, r.register, r.next);
    PassesOn(entries, returnTypes, left.code + right.code + l.code + r.code, g.value.code, k, r.next, ready, g.value.next, k');
  }

  lemma SubtractPasses(entries: Entries, returnTypes: seq<Type>, t: Type, register: Register, k: Known) returns (k': Known)
    requires Consistent(k) && t.IntegerType? && Holds(k, register, ValueRegister(IRTypeOf(t)))
    ensures var code := [Literal(IRTypeOf(t), IntegerConstant(0), k.next), IntegerArithmetic(Subtract, k.next, register, k.next + 1)];
            Passes(entries, returnTypes, code, k, k.next + 2, k') && Holds(k', k.next + 1, ValueRegister(IRTypeOf(t)))
  {
    var zero, subtract := Literal(IRTypeOf(t), IntegerConstant(0), k.next), IntegerArithmetic(Subtract, k.next, register, k.next + 1);
    CheckTwo(entries, returnTypes, zero, subtract, k);
    CheckLearns(entries, returnTypes, zero, k);
    var k1 := Check(entries, returnTypes, zero, k).value;
    CheckLearns(entries, returnTypes, subtract, k1);
    k' := Check(entries, returnTypes, subtract, k1).value;
  }

  lemma NegateRegisterPasses(entries: Entries, returnTypes: seq<Type>, g: Generated, k: Known, k1: Known) returns (k': Known)
    requires Consistent(k) && GeneratedPasses(entries, returnTypes, g, k, k1) && g.valueType.IntegerType?
    ensures var f := InRegister(IRTypeOf(g.valueType), g.value, g.next);
            var code := g.code + f.code
              + [Literal(IRTypeOf(g.valueType), IntegerConstant(0), f.next), IntegerArithmetic(Subtract, f.next, f.register, f.next + 1)];
            Passes(entries, returnTypes, code, k, f.next + 2, k') && Holds(k', f.next + 1, ValueRegister(IRTypeOf(g.valueType)))
  {
    var t := IRTypeOf(g.valueType);
    var f := InRegister(t, g.value, g.next);
    var k2 := InRegisterPasses(entries, returnTypes, g.valueType, g.value, k1);
    PassesOn(entries, returnTypes, g.code, f.code, k, g.next, k1, f.next, k2);
    k' := SubtractPasses(entries, returnTypes, g.valueType, f.register, k2);
    PassesOn(entries, returnTypes, g.code + f.code,
             [Literal(t, IntegerConstant(0), f.next), IntegerArithmetic(Subtract, f.next, f.register, f.next + 1)], k, f.next, k2, f.next + 2, k');
  }

  lemma NegationPasses(entries: Entries, returnTypes: seq<Type>, g: Generated, k: Known, k1: Known) returns (k': Known)
    requires Consistent(k) && GeneratedPasses(entries, returnTypes, g, k, k1) && GenerateNegation(g).Some?
    ensures GeneratedPasses(entries, returnTypes, GenerateNegation(g).value, k, k')
  {
    if g.value.ConstantValue? {
      k' := k1;
    } else {
      k' := NegateRegisterPasses(entries, returnTypes, g, k, k1);
    }
  }

  lemma InversionPasses(entries: Entries, returnTypes: seq<Type>, g: Generated, k: Known, k1: Known) returns (k': Known)
    requires Consistent(k) && GeneratedPasses(entries, returnTypes, g, k, k1) && GenerateInversion(g).Some?
    ensures GeneratedPasses(entries, returnTypes, GenerateInversion(g).value, k, k')
  {
    if g.value.ConstantValue? {
      k' := k1;
    } else {
      var f := InRegister(IRBoolean, g.value, g.next);
      var k2 := InRegisterPasses(entries, returnTypes, g.valueType, g.value, k1);
      PassesOn(entries, returnTypes, g.code, f.code, k, g.next, k1, f.next, k2);
      var invert := BooleanInversion(f.register, f.next);
      CheckOne(entries, returnTypes, invert, k2);
      CheckLearns(entries, returnTypes, invert, k2);
      k' := Check(entries, returnTypes, invert, k2).value;
      PassesOn(entries, returnTypes, g.code + f.code, [invert], k, f.next, k2, f.next + 1, k');
    }
  }

  lemma ConvertPasses(entries: Entries, returnTypes: seq<Type>, source: Integer, register: Register, target: Integer, k: Known) returns (k': Known)
    requires Consistent(k) && Holds(k, register, ValueRegister(IRInteger(source.size)))
    ensures var f := ConvertInteger(source, register, target, k.next);
            Passes(entries, returnTypes, f.code, k, f.next, k') && Holds(k', f.register, ValueRegister(IRInteger(target.size)))
  {
    var f := ConvertInteger(source, register, target, k.next);
    if f.code == [] {
      k' := k;
    } else {
      CheckOne(entries, returnTypes, f.code[0], k);
      CheckLearns(entries, returnTypes, f.code[0], k);
      k' := Check(entries, returnTypes, f.code[0], k).value;
    }
  }

  lemma CastPasses(entries: Entries, returnTypes: seq<Type>, g: Generated, target: Type, k: Known, k1: Known) returns (k': Known)
    requires Consistent(k) && GeneratedPasses(entries, returnTypes, g, k, k1) && GenerateCast(g, target).Some?
    ensures GeneratedPasses(entries, returnTypes, GenerateCast(g, target).value, k, k')
  {
    if g.value.ConstantValue? {
      k' := k1;
    } else if CoerceToRegister(g.valueType, g.value, target, g.next).Some? {
      var f := CoerceToRegister(g.valueType, g.value, target, g.next).value;
      k' := CoercePasses(entries, returnTypes, g.valueType, g.value, target, k1);
      PassesOn(entries, returnTypes, g.code, f.code, k, g.next, k1, f.next, k');
    } else {
      var f := InRegister(IRTypeOf(g.valueType), g.value, g.next);
      var k2 := InRegisterPasses(entries, returnTypes, g.valueType, g.value, k1);
      PassesOn(entries, returnTypes, g.code, f.code, k, g.next, k1, f.next, k2);
      var conversion := ConvertInteger(g.valueType.integer, f.register, target.integer, f.next);
      k' := ConvertPasses(entries, returnTypes, g.valueType.integer, f.register, target.integer, k2);
      PassesOn(entries, returnTypes, g.code + f.code, conversion.code, k, f.next, k2, conversion.next, k');
    }
  }

  /** Expressions pass from any point where the variables in scope can be used. */
  lemma {:induction false} ExpressionPasses(entries: Entries, returnTypes: seq<Type>, variables: Stack<Variable>, e: Expression, k: Known)
    returns (k': Known)
    requires Consistent(k) && VariablesUsable(variables, k) && GenerateExpression(variables, k.next, e).Some?
    ensures GeneratedPasses(entries, returnTypes, GenerateExpression(variables, k.next, e).value, k, k')
    decreases e
  {
    match e
    case IntegerLiteral(_) => k' := k;
    case BooleanLiteral(_) => k' := k;
    case NamedReference(_) => k' := k;
    case BinaryOperation(operator, left, right) =>
      var l := GenerateExpression(variables, k.next, left).value;
      var k1 := ExpressionPasses(entries, returnTypes, variables, left, k);
      VariablesUsableLater(variables, k, k1);
      var k2 := ExpressionPasses(entries, returnTypes, variables, right, k1);
      k' := CombinePasses(entries, returnTypes, operator, l, GenerateExpression(variables, l.next, right).value, k, k1, k2);
    case Negation(operand) =>
      var k1 := ExpressionPasses(entries, returnTypes, variables, operand, k);
      k' := NegationPasses(entries, returnTypes, GenerateExpression(variables, k.next, operand).value, k, k1);
    case BooleanInvert(operand) =>
      var k1 := ExpressionPasses(entries, returnTypes, variables, operand, k);
      k' := InversionPasses(entries, returnTypes, GenerateExpression(variables, k.next, operand).value, k, k1);
    case Cast(operand, target) =>
      var k1 := ExpressionPasses(entries, returnTypes, variables, operand, k);
      k' := CastPasses(entries, returnTypes, GenerateExpression(variables, k.next, operand).value, target, k, k1);
  }
}
