/** The register operation chosen for an operator computes what the operator means. */
module OperationProofs {
  import opened Integers
  import opened IntegerLaws
  import opened Options
  import opened Ast
  import opened Hlir
  import opened Source
  import opened Lowering

  /** `pattern` is the result of the chosen instruction, None being undefined behaviour. */
  ghost predicate Computed(t: Integer, result: OperationResult, pattern: Option<nat>) {
    match result
    case IsNumber(n) => InRange(t, n) && pattern == Some(Encode(t.size, n))
    case IsUndefined => pattern == None
    case IsTruth(_) => false
    case NotAnOperation => false
  }

  lemma SumComputed(t: Integer, x: int, y: int)
    ensures Computed(t, Operate(Addition, t, x, y), Arithmetic(Add, t.size, Encode(t.size, x), Encode(t.size, y)))
    ensures Computed(t, Operate(Subtraction, t, x, y), Arithmetic(Subtract, t.size, Encode(t.size, x), Encode(t.size, y)))
  {
    EncodeOfLarger(t.size, t.size, x);
    EncodeOfLarger(t.size, t.size, y);
    CongruentSum(t.size, Encode(t.size, x), x, Encode(t.size, y), y);
    WrapInRange(t, x + y);
    WrapInRange(t, x - y);
    EncodeWrap(t, x + y);
    EncodeWrap(t, x - y);
  }

  lemma ProductComputed(t: Integer, x: int, y: int)
    ensures Computed(t, Operate(Multiplication, t, x, y), Arithmetic(Multiply, t.size, Encode(t.size, x), Encode(t.size, y)))
  {
    EncodeOfLarger(t.size, t.size, x);
    EncodeOfLarger(t.size, t.size, y);
    CongruentProduct(t.size, Encode(t.size, x), x, Encode(t.size, y), y);
    WrapInRange(t, x * y);
    EncodeWrap(t, x * y);
  }

  lemma BitwiseComputed(t: Integer, x: int, y: int)
    ensures var a, b := Encode(t.size, x), Encode(t.size, y);
            Computed(t, Operate(BinaryOperator.BitwiseAnd, t, x, y), Arithmetic(ArithmeticOperation.BitwiseAnd, t.size, a, b)) &&
            Computed(t, Operate(BinaryOperator.BitwiseOr, t, x, y), Arithmetic(ArithmeticOperation.BitwiseOr, t.size, a, b))
  {
    var a, b := Encode(t.size, x), Encode(t.size, y);
    EncodeOfLarger(t.size, t.size, x);
    EncodeOfLarger(t.size, t.size, y);
    EncodeBits(t.size, a, b);
    WrapInRange(t, BitAnd(a, b));
    WrapInRange(t, BitOr(a, b));
    EncodeWrap(t, BitAnd(a, b));
    EncodeWrap(t, BitOr(a, b));
  }

  lemma SignedDivisionComputed(t: Integer, x: int, y: int)
    requires InRange(t, x) && InRange(t, y) && t.isSigned
    ensures var a, b := Encode(t.size, x), Encode(t.size, y);
            Computed(t, Operate(Division, t, x, y), Arithmetic(SignedDivide, t.size, a, b)) &&
            Computed(t, Operate(Modulo, t, x, y), Arithmetic(SignedModulus, t.size, a, b))
  {
    DecodeEncode(t, x);
    DecodeEncode(t, y);
    if y != 0 {
      RemainderInRange(t, x, y);
    }
  }

  lemma UnsignedQuotient(x: nat, y: nat)
    requires y > 0
    ensures TruncatedQuotient(x, y) == x / y && TruncatedRemainder(x, y) == x % y
    ensures 0 <= x / y <= x && 0 <= x % y <= x
  {
    DivMod(x, y);
    QuotientBound(x, y);
  }

  lemma UnsignedDivisionComputed(t: Integer, x: int, y: int)
    requires InRange(t, x) && InRange(t, y) && !t.isSigned
    ensures var a, b := Encode(t.size, x), Encode(t.size, y);
            Computed(t, Operate(Division, t, x, y), Arithmetic(UnsignedDivide, t.size, a, b)) &&
            Computed(t, Operate(Modulo, t, x, y), Arithmetic(UnsignedModulus, t.size, a, b))
  {
    SmallMod(x, Modulus(t.size));
    SmallMod(y, Modulus(t.size));
    if y != 0 {
      UnsignedQuotient(x, y);
      SmallMod(x / y, Modulus(t.size));
      SmallMod(x % y, Modulus(t.size));
    }
  }

  lemma DivisionComputed(t: Integer, x: int, y: int)
    requires InRange(t, x) && InRange(t, y)
    ensures var a, b := Encode(t.size, x), Encode(t.size, y);
            Computed(t, Operate(Division, t, x, y), Arithmetic(SelectArithmetic(Division, t.isSigned).value, t.size, a, b)) &&
            Computed(t, Operate(Modulo, t, x, y), Arithmetic(SelectArithmetic(Modulo, t.isSigned).value, t.size, a, b))
  {
    if t.isSigned {
      SignedDivisionComputed(t, x, y);
    } else {
      UnsignedDivisionComputed(t, x, y);
    }
  }

  /** A shift amount is small exactly if its pattern is. */
  lemma ShiftAmount(t: Integer, y: int)
    requires InRange(t, y)
    ensures 0 <= y < Bits(t.size) <==> Encode(t.size, y) < Bits(t.size)
    ensures 0 <= y ==> Encode(t.size, y) == y
  {
    DecodeEncode(t, y);
  }

  lemma LeftShiftComputed(t: Integer, x: int, y: int)
    requires InRange(t, x) && InRange(t, y)
    ensures Computed(t, Operate(BinaryOperator.LeftShift, t, x, y),
                     Arithmetic(ArithmeticOperation.LeftShift, t.size, Encode(t.size, x), Encode(t.size, y)))
  {
    ShiftAmount(t, y);
    if 0 <= y < Bits(t.size) {
      EncodeOfLarger(t.size, t.size, x);
      CongruentProduct(t.size, Encode(t.size, x), x, Pow2(y), Pow2(y));
      WrapInRange(t, x * Pow2(y));
      EncodeWrap(t, x * Pow2(y));
    }
  }

  lemma RightShiftComputed(t: Integer, x: int, y: int)
    requires InRange(t, x) && InRange(t, y)
    ensures Computed(t, Operate(BinaryOperator.RightShift, t, x, y),
                     Arithmetic(SelectArithmetic(BinaryOperator.RightShift, t.isSigned).value, t.size, Encode(t.size, x), Encode(t.size, y)))
  {
    ShiftAmount(t, y);
    DecodeEncode(t, x);
    if 0 <= y < Bits(t.size) {
      ShiftInRange(t, x, Pow2(y));
      DecodeEncode(t, x / Pow2(y));
    }
  }

  lemma ArithmeticComputed(operator: BinaryOperator, t: Integer, x: int, y: int)
    requires InRange(t, x) && InRange(t, y) && SelectArithmetic(operator, t.isSigned).Some?
    ensures Computed(t, Operate(operator, t, x, y),
                     Arithmetic(SelectArithmetic(operator, t.isSigned).value, t.size, Encode(t.size, x), Encode(t.size, y)))
  {
    match operator
    case Addition => SumComputed(t, x, y);
    case Subtraction => SumComputed(t, x, y);
    case Multiplication => ProductComputed(t, x, y);
    case Division => DivisionComputed(t, x, y);
    case Modulo => DivisionComputed(t, x, y);
    case BitwiseAnd => BitwiseComputed(t, x, y);
    case BitwiseOr => BitwiseComputed(t, x, y);
    case LeftShift => LeftShiftComputed(t, x, y);
    case RightShift => RightShiftComputed(t, x, y);
  }

  lemma ComparisonComputed(operator: BinaryOperator, t: Integer, x: int, y: int)
    requires InRange(t, x) && InRange(t, y) && SelectComparison(operator, t.isSigned).Some?
    ensures var selected := SelectComparison(operator, t.isSigned).value;
            var truth := Comparison(selected.comparison, t.size, Encode(t.size, x), Encode(t.size, y));
            Operate(operator, t, x, y) == IsTruth(if selected.invert then !truth else truth)
  {
    DecodeEncode(t, x);
    DecodeEncode(t, y);
  }

  // ----- The instructions of an operation, on registers -----

  /** Register `r` holds integer `n` of type `t`. */
  predicate HoldsInteger(m: Machine, r: Register, t: Integer, n: int) {
    r in m.registers && m.registers[r] == IntegerValue(t.size, Encode(t.size, n))
  }

  predicate HoldsBoolean(m: Machine, r: Register, b: bool) {
    r in m.registers && m.registers[r] == BooleanValue(b)
  }

  /** From `m` to `m'` memory is the same and so is every register below `next`. */
  ghost predicate Preserves(m: Machine, m': Machine, next: Register) {
    m'.memory == m.memory &&
    forall r :: 0 <= r < next && r in m.registers ==> r in m'.registers && m'.registers[r] == m.registers[r]
  }

  lemma ExecuteOne(i: Instruction, m: Machine)
    ensures ExecuteAll([i], m) == Execute(i, m)
  {
  }

  lemma ExecuteTwo(i: Instruction, j: Instruction, m: Machine)
    ensures ExecuteAll([i, j], m) == match Execute(i, m) { case Next(m') => Execute(j, m') case effect => effect }
  {
    ExecuteAllAppend([i], [j], m);
    assert [i] + [j] == [i, j];
  }

  /** The code of `g`, run from `m`, leaves the result of an operation in a new register. */
  ghost predicate OperationCorrect(g: Generated, next: Register, t: Integer, result: OperationResult, m: Machine) {
    var effect := ExecuteAll(g.code, m);
    g.value.RegisterHeld? && next <= g.value.register < g.next &&
    match result
    case IsNumber(n) => g.valueType == IntegerType(t) && InRange(t, n) && effect.Next? &&
                        Preserves(m, effect.machine, next) && HoldsInteger(effect.machine, g.value.register, t, n)
    case IsTruth(truth) => g.valueType == BooleanType && effect.Next? &&
                           Preserves(m, effect.machine, next) && HoldsBoolean(effect.machine, g.value.register, truth)
    case IsUndefined => effect == Undefined
    case NotAnOperation => false
  }

  lemma IntegerOperationCorrect(operator: BinaryOperator, t: Integer, a: Register, b: Register, next: Register, x: int, y: int, m: Machine)
    requires IntegerOperation(operator, t, a, b, next).Some? && a < next && b < next
    requires InRange(t, x) && InRange(t, y) && HoldsInteger(m, a, t, x) && HoldsInteger(m, b, t, y)
    ensures OperationCorrect(IntegerOperation(operator, t, a, b, next).value, next, t, Operate(operator, t, x, y), m)
  {
    var g := IntegerOperation(operator, t, a, b, next).value;
    if SelectArithmetic(operator, t.isSigned).Some? {
      ArithmeticComputed(operator, t, x, y);
      ExecuteOne(g.code[0], m);
    } else {
      ComparisonComputed(operator, t, x, y);
      var selected := SelectComparison(operator, t.isSigned).value;
      InvertedCorrect(selected.invert, IntegerComparison(selected.comparison, a, b, next), next, m,
                      Comparison(selected.comparison, t.size, Encode(t.size, x), Encode(t.size, y)));
    }
  }

  lemma InvertedCorrect(invert: bool, i: Instruction, next: Register, m: Machine, truth: bool)
    requires Execute(i, m) == Next(SetRegister(m, next, BooleanValue(truth)))
    ensures var g := Inverted(invert, i, next);
            var effect := ExecuteAll(g.code, m);
            g.value.RegisterHeld? && next <= g.value.register < g.next && g.valueType == BooleanType && effect.Next? &&
            Preserves(m, effect.machine, next) && HoldsBoolean(effect.machine, g.value.register, if invert then !truth else truth)
  {
    if invert {
      ExecuteTwo(i, BooleanInversion(next, next + 1), m);
    } else {
      ExecuteOne(i, m);
    }
  }

  lemma BooleanOperationCorrect(operator: BinaryOperator, a: Register, b: Register, next: Register, x: bool, y: bool, m: Machine)
    requires BooleanOperationOf(operator, a, b, next).Some? && a < next && b < next
    requires HoldsBoolean(m, a, x) && HoldsBoolean(m, b, y)
    ensures var g := BooleanOperationOf(operator, a, b, next).value;
            var effect := ExecuteAll(g.code, m);
            OperateBooleans(operator, x, y).Some? &&
            g.value.RegisterHeld? && next <= g.value.register < g.next && g.valueType == BooleanType && effect.Next? &&
            Preserves(m, effect.machine, next) &&
            HoldsBoolean(effect.machine, g.value.register, OperateBooleans(operator, x, y).value)
  {
    match operator
    case BooleanAnd => InvertedCorrect(false, BooleanArithmetic(BooleanOperation.BooleanAnd, a, b, next), next, m, x && y);
    case BooleanOr => InvertedCorrect(false, BooleanArithmetic(BooleanOperation.BooleanOr, a, b, next), next, m, x || y);
    case Equal => InvertedCorrect(false, BooleanEquality(a, b, next), next, m, x == y);
    case NotEqual => InvertedCorrect(true, BooleanEquality(a, b, next), next, m, x == y);
  }
}
