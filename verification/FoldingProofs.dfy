/** Folding at 64 bits against running at the size of the type: for every operator the exact condition
    under which they agree. */
module FoldingProofs {
  import opened Integers
  import opened IntegerLaws
  import opened DivisionLaws
  import opened Options
  import opened Ast
  import opened Hlir
  import opened Source
  import opened Folding

  /** The folded word, cut down to type `t`, is what the operator yields on the cut-down operands. */
  ghost predicate Agrees(operator: BinaryOperator, t: Integer, left: Word, right: Word) {
    match FoldIntegers(operator, t.isSigned, left, right)
    case None => true
    case Some(c) =>
      match Operate(operator, t, Wrap(t, left), Wrap(t, right))
      case IsNumber(n) => IsWord(c) && n == Wrap(t, c.integer)
      case IsTruth(b) => c == IRConstant.BooleanConstant(b)
      case IsUndefined => false
      case NotAnOperation => false
  }

  lemma WordAtSize(t: Integer, x: int)
    ensures Wrap(t, Encode(Size64, x)) == Wrap(t, x)
  {
    EncodeOfLarger(t.size, Size64, x);
  }

  lemma SignedWord(left: Word)
    ensures Encode(Size64, SignedValue(Size64, left)) == left
  {
    EncodeDecode(Integer(Size64, true), left);
  }

  lemma SignedWordCongruent(size: RegisterSize, left: Word)
    ensures Congruent(size, SignedValue(Size64, left), left)
  {
    SignedWord(left);
    EncodeOfLarger(size, Size64, SignedValue(Size64, left));
  }

  /** A word is its value, plus its excess times the number of values its type has. */
  lemma HostIsValue(t: Integer, word: Word)
    ensures Host(t, word) == Wrap(t, word) + Excess(t, word) * Modulus(t.size)
  {
    SignedWordCongruent(t.size, word);
    CongruentWrap(t, word);
    CongruentByDifference(Host(t, word), Wrap(t, word), Modulus(t.size));
    var k := MultipleOf(Host(t, word) - Wrap(t, word), Modulus(t.size));
  }

  /** A canonical word is one without excess: the host reads its value. */
  lemma CanonicalIsNoExcess(t: Integer, word: Word)
    ensures Canonical(t, word) <==> Host(t, word) == Wrap(t, word)
    ensures Canonical(t, word) <==> Excess(t, word) == 0
  {
    HostIsValue(t, word);
    WrapInRange(t, word);
    SignedWord(word);
    DecodeEncode(Integer(Size64, t.isSigned), Wrap(t, word));
    if Excess(t, word) != 0 {
      MultipleIsFar(Excess(t, word), Modulus(t.size));
    }
  }

  /** A 64-bit result is right at the size of the type exactly if it is congruent to what is wanted. */
  lemma ResultAgrees(t: Integer, result: int, wanted: int)
    requires InRange(t, wanted)
    ensures Wrap(t, Encode(Size64, result)) == wanted <==> (result - wanted) % Modulus(t.size) == 0
  {
    WordAtSize(t, result);
    DecodeEncode(t, wanted);
    CongruentByDifference(result, wanted, Modulus(t.size));
    EncodeDecode(t, Encode(t.size, result));
  }

  lemma SumAgrees(t: Integer, left: Word, right: Word)
    ensures Agrees(Addition, t, left, right) && Agrees(Subtraction, t, left, right)
  {
    CongruentWrap(t, left);
    CongruentWrap(t, right);
    CongruentSum(t.size, Wrap(t, left), left, Wrap(t, right), right);
    WordAtSize(t, left + right);
    WordAtSize(t, left - right);
  }

  lemma ProductAgrees(t: Integer, left: Word, right: Word)
    ensures Agrees(Multiplication, t, left, right)
  {
    CongruentWrap(t, left);
    CongruentWrap(t, right);
    CongruentProduct(t.size, Wrap(t, left), left, Wrap(t, right), right);
    SignedWordCongruent(t.size, left);
    SignedWordCongruent(t.size, right);
    CongruentProduct(t.size, SignedValue(Size64, left), left, SignedValue(Size64, right), right);
    WordAtSize(t, left * right);
    WordAtSize(t, SignedValue(Size64, left) * SignedValue(Size64, right));
  }

  lemma BitwiseAgrees(t: Integer, left: Word, right: Word)
    ensures Agrees(BinaryOperator.BitwiseAnd, t, left, right) && Agrees(BinaryOperator.BitwiseOr, t, left, right)
  {
    BitsAreWords(left, right);
    EncodeWrap(t, left);
    EncodeWrap(t, right);
    EncodeBits(t.size, left, right);
    assert Wrap(t, BitAnd(Encode(t.size, left), Encode(t.size, right))) == Wrap(t, BitAnd(left, right)) by {
      EncodeEncode(t.size, BitAnd(left, right));
    }
    assert Wrap(t, BitOr(Encode(t.size, left), Encode(t.size, right))) == Wrap(t, BitOr(left, right)) by {
      EncodeEncode(t.size, BitOr(left, right));
    }
  }

  lemma BitsAreWords(left: Word, right: Word)
    ensures BitAnd(left, right) < MODULUS_64 && BitOr(left, right) < MODULUS_64
  {
    EncodeBits(Size64, left, right);
    assert Encode(Size64, left) == left && Encode(Size64, right) == right;
  }

  lemma EncodeEncode(size: RegisterSize, x: int)
    ensures Encode(size, Encode(size, x)) == Encode(size, x)
  {
  }

  lemma LeftShiftAgrees(t: Integer, left: Word, right: Word)
    requires right < 64
    ensures Agrees(BinaryOperator.LeftShift, t, left, right) <==> right < Bits(t.size)
  {
    DecodeEncode(t, right);
    CongruentWrap(t, left);
    CongruentProduct(t.size, Wrap(t, left), left, Pow2(right), Pow2(right));
    WordAtSize(t, left * Pow2(right));
  }

  lemma PowerDivides(size: RegisterSize, r: nat)
    requires r <= Bits(size)
    ensures Modulus(size) == Pow2(Bits(size) - r) * Pow2(r)
  {
    ModulusIsPow2(size);
    Pow2Sum(Bits(size) - r, r);
  }

  /** What is shifted into the type's bits from above must be zero. */
  lemma RightShiftAgrees(t: Integer, left: Word, right: Word)
    requires right < 64
    ensures Agrees(BinaryOperator.RightShift, t, left, right) <==> right < Bits(t.size) && Excess(t, left) % Pow2(right) == 0
  {
    DecodeEncode(t, right);
    if right < Bits(t.size) {
      ShiftedWord(t, left, right);
      assert FoldIntegers(BinaryOperator.RightShift, t.isSigned, left, right)
          == Some(IRConstant.IntegerConstant(Encode(Size64, Host(t, left) / Pow2(right))));
    }
  }

  lemma ShiftedWord(t: Integer, left: Word, right: nat)
    requires right < Bits(t.size)
    ensures Wrap(t, Encode(Size64, Host(t, left) / Pow2(right))) == Wrap(t, left) / Pow2(right) <==> Excess(t, left) % Pow2(right) == 0
  {
    var x, k, p, f := Wrap(t, left), Excess(t, left), Pow2(right), Pow2(Bits(t.size) - right);
    HostIsValue(t, left);
    WrapInRange(t, left);
    ShiftInRange(t, x, p);
    PowerDivides(t.size, right);
    ShiftsCongruent(x, k, Modulus(t.size), p, f);
    ResultAgrees(t, Host(t, left) / p, x / p);
  }

  // ----- Division -----

  lemma QuotientDefined(t: Integer, left: Word, right: Word)
    ensures var x, y := Wrap(t, left), Wrap(t, right);
            y != 0 ==> (InRange(t, TruncatedQuotient(x, y)) <==> IsDivisor(t, left, right))
  {
    var x, y := Wrap(t, left), Wrap(t, right);
    WrapInRange(t, left);
    WrapInRange(t, right);
    if y != 0 && IsDivisor(t, left, right) {
      QuotientInRange(t, x, y);
    }
  }

  /** Without overflow, both forms of 64-bit division are truncated division of what the host reads. */
  lemma HostDivision(t: Integer, left: Word, right: Word)
    requires Wrap(t, right) != 0
    ensures right != 0 && Host(t, right) != 0
    ensures FoldIntegers(Division, t.isSigned, left, right).Some? ==>
              FoldIntegers(Division, t.isSigned, left, right) ==
              Some(IRConstant.IntegerConstant(Encode(Size64, TruncatedQuotient(Host(t, left), Host(t, right)))))
    ensures FoldIntegers(Modulo, t.isSigned, left, right).Some? ==>
              FoldIntegers(Modulo, t.isSigned, left, right) ==
              Some(IRConstant.IntegerConstant(Encode(Size64, TruncatedRemainder(Host(t, left), Host(t, right)))))
  {
    SignedWord(right);
    if !t.isSigned {
      UnsignedDivisionIsTruncated(left, right);
      FloorShrinks(left, right);
      SmallMod(left / right, MODULUS_64);
      SmallMod(left % right, MODULUS_64);
    }
  }

  lemma UnsignedDivisionIsTruncated(a: nat, b: nat)
    requires b > 0
    ensures a / b == TruncatedQuotient(a, b) && a % b == TruncatedRemainder(a, b)
  {
    DivMod(a, b);
  }

  lemma DivisionAgrees(t: Integer, left: Word, right: Word)
    requires FoldIntegers(Division, t.isSigned, left, right).Some?
    ensures Agrees(Division, t, left, right) <==> FaithfulOperation(Division, t, left, right)
  {
    QuotientDefined(t, left, right);
    if IsDivisor(t, left, right) {
      var x, y := Wrap(t, left), Wrap(t, right);
      HostDivision(t, left, right);
      ResultAgrees(t, TruncatedQuotient(Host(t, left), Host(t, right)), TruncatedQuotient(x, y));
      QuotientAgrees(t, left, right);
    }
  }

  lemma QuotientAgrees(t: Integer, left: Word, right: Word)
    requires IsDivisor(t, left, right) && Host(t, right) != 0
    ensures var difference := TruncatedQuotient(Host(t, left), Host(t, right)) - TruncatedQuotient(Wrap(t, left), Wrap(t, right));
            difference % Modulus(t.size) == 0 <==> FaithfulQuotient(t, left, right)
  {
    var x, y := Wrap(t, left), Wrap(t, right);
    CanonicalIsNoExcess(t, right);
    HostIsValue(t, left);
    WrapInRange(t, right);
    if Canonical(t, right) {
      QuotientByValue(Host(t, left), x, y, Excess(t, left), Modulus(t.size));
    } else {
      QuotientByDigit(Host(t, left), Host(t, right), TruncatedQuotient(x, y), Modulus(t.size));
    }
  }

  /** Two congruent dividends and one divisor. */
  lemma QuotientByValue(host: int, x: int, y: int, k: int, m: nat)
    requires y != 0 && host == x + k * m && Abs(y) <= m && (host < 0 || x < 0 ==> 2 * Abs(y) <= m)
    ensures (TruncatedQuotient(host, y) - TruncatedQuotient(x, y)) % m == 0
       <==> k % Abs(y) == 0 && (SameSign(host, x) || x % Abs(y) == 0)
  {
    var a := Abs(y);
    var h, v := Abs(host) / a, Abs(x) / a;
    var difference := TruncatedQuotient(host, y) - TruncatedQuotient(x, y);
    SignedProduct(k, m);
    if SameSign(host, x) {
      var k' := if host >= 0 then k else -k;
      QuotientsCongruent(Abs(host), Abs(x), k', a, m);
      OppositeMod(k, a);
      assert difference == h - v || difference == -(h - v);
      OppositeMod(h - v, m);
    } else {
      var k' := if host >= 0 then k else -k;
      QuotientsOpposite(Abs(host), Abs(x), k', a, m);
      OppositeMod(k, a);
      OppositeMod(x, a);
      assert difference == h + v || difference == -(h + v);
      OppositeMod(h + v, m);
    }
  }

  lemma QuotientByDigit(a: int, b: int, q: int, m: nat)
    requires b != 0 && m > 0
    ensures (TruncatedQuotient(a, b) - q) % m == 0 <==> QuotientDigit(a, b, q, m)
  {
    var positive := (a >= 0) == (b > 0);
    var quotient := Abs(a) / Abs(b);
    var wanted := if positive then q else -q;
    DigitOfQuotient(Abs(a), Abs(b), wanted % m, m);
    CongruentByDifference(quotient, wanted, m);
    OppositeMod(quotient - wanted, m);
  }

  lemma ModuloAgrees(t: Integer, left: Word, right: Word)
    requires FoldIntegers(Modulo, t.isSigned, left, right).Some?
    ensures Agrees(Modulo, t, left, right) <==> FaithfulOperation(Modulo, t, left, right)
  {
    QuotientDefined(t, left, right);
    if IsDivisor(t, left, right) {
      var x, y := Wrap(t, left), Wrap(t, right);
      HostDivision(t, left, right);
      WrapInRange(t, left);
      WrapInRange(t, right);
      RemainderInRange(t, x, y);
      ResultAgrees(t, TruncatedRemainder(Host(t, left), Host(t, right)), TruncatedRemainder(x, y));
      RemainderAgrees(t, left, right);
    }
  }

  lemma RemainderAgrees(t: Integer, left: Word, right: Word)
    requires IsDivisor(t, left, right) && Host(t, right) != 0
    ensures var difference := TruncatedRemainder(Host(t, left), Host(t, right)) - TruncatedRemainder(Wrap(t, left), Wrap(t, right));
            difference % Modulus(t.size) == 0 <==> FaithfulRemainder(t, left, right)
  {
    var x, y := Wrap(t, left), Wrap(t, right);
    CanonicalIsNoExcess(t, right);
    HostIsValue(t, left);
    HostIsValue(t, right);
    WrapInRange(t, right);
    if Canonical(t, right) {
      RemainderByValue(Host(t, left), x, y, Excess(t, left) * Modulus(t.size), Modulus(t.size));
    } else {
      RemainderByQuotient(Host(t, left), Host(t, right), x, y, Excess(t, left), Excess(t, right), Modulus(t.size));
    }
  }

  lemma TruncatedRemainderIs(x: int, y: int)
    requires y != 0
    ensures TruncatedRemainder(x, y) == if x >= 0 then x % Abs(y) else -((-x) % Abs(y))
  {
    var q := Abs(x) / Abs(y);
    DivMod(Abs(x), Abs(y));
    SignedProduct(q, y);
    assert TruncatedQuotient(x, y) * y == if x >= 0 then q * Abs(y) else -(q * Abs(y));
  }

  lemma RemainderByValue(host: int, x: int, y: int, d: int, m: nat)
    requires y != 0 && host == x + d && Abs(y) <= m && (host < 0 || x < 0 ==> 2 * Abs(y) <= m)
    ensures (TruncatedRemainder(host, y) - TruncatedRemainder(x, y)) % m == 0
       <==> d % Abs(y) == 0 && (SameSign(host, x) || x % Abs(y) == 0)
  {
    var a := Abs(y);
    TruncatedRemainderIs(host, y);
    TruncatedRemainderIs(x, y);
    var difference := TruncatedRemainder(host, y) - TruncatedRemainder(x, y);
    SmallDifference(difference, m);
    OppositeMod(d, a);
    OppositeMod(x, a);
    if host >= 0 && x >= 0 {
      RemaindersEqual(host, x, d, a);
    } else if host < 0 && x < 0 {
      RemaindersEqual(-host, -x, -d, a);
    } else if host >= 0 {
      RemaindersOpposite(host, -x, d, a);
    } else {
      RemaindersOpposite(-host, x, -d, a);
    }
  }

  lemma SmallDifference(d: int, m: int)
    requires -m < d < m
    ensures d % m == 0 <==> d == 0
  {
    if d % m == 0 {
      var k := MultipleOf(d, m);
      SmallMultiple(k, m);
    }
  }

  /** Remainders of congruent operands differ by what their quotients differ by, times the divisor. */
  lemma RemainderByQuotient(host: int, divisor: int, x: int, y: int, j: int, k: int, m: nat)
    requires divisor != 0 && y != 0 && m > 0 && host == x + j * m && divisor == y + k * m
    ensures (TruncatedRemainder(host, divisor) - TruncatedRemainder(x, y)) % m == 0
       <==> (y * (TruncatedQuotient(host, divisor) - TruncatedQuotient(x, y))) % m == 0
  {
    CongruentRemainders(TruncatedQuotient(host, divisor), TruncatedQuotient(x, y), x, y, j, k, m);
  }

  lemma CongruentRemainders(p: int, q: int, x: int, y: int, j: int, k: int, m: nat)
    requires m > 0
    ensures ((x + j * m - p * (y + k * m)) - (x - q * y)) % m == 0 <==> (y * (p - q)) % m == 0
  {
    var d := y * (p - q);
    RemainderDifference(p, q, x, y, j, k, m);
    ModShift(-d, m, j - p * k);
    OppositeMod(d, m);
  }

  lemma RemainderDifference(p: int, q: int, x: int, y: int, j: int, k: int, m: int)
    ensures (x + j * m - p * (y + k * m)) - (x - q * y) == -(y * (p - q)) + (j - p * k) * m
  {
    assert p * (y + k * m) == p * y + (p * k) * m;
    assert y * (p - q) == p * y - q * y;
    DifferenceOfProducts(j, p * k, m);
  }

  // ----- Comparison -----

  lemma ExcessOrders(t: Integer, left: Word, right: Word)
    ensures Host(t, left) == Host(t, right) <==> Excess(t, left) == Excess(t, right) && Wrap(t, left) == Wrap(t, right)
    ensures Host(t, left) < Host(t, right) <==>
              Excess(t, left) < Excess(t, right) || (Excess(t, left) == Excess(t, right) && Wrap(t, left) < Wrap(t, right))
  {
    HostIsValue(t, left);
    HostIsValue(t, right);
    WrapInRange(t, left);
    WrapInRange(t, right);
    DifferenceOfProducts(Excess(t, left), Excess(t, right), Modulus(t.size));
    MultipleIsFar(Excess(t, left) - Excess(t, right), Modulus(t.size));
  }

  lemma ComparisonAgrees(operator: BinaryOperator, t: Integer, left: Word, right: Word)
    requires operator.Equal? || operator.NotEqual? || operator.LessThan? || operator.GreaterThan?
    ensures Agrees(operator, t, left, right) <==> FaithfulOperation(operator, t, left, right)
  {
    ExcessOrders(t, left, right);
    ExcessOrders(t, right, left);
    SignedWord(left);
    SignedWord(right);
  }

  /** The fold of two typed constants agrees with running exactly if it is a faithful operation. */
  lemma FaithfulExactly(operator: BinaryOperator, t: Integer, left: Word, right: Word)
    requires FoldIntegers(operator, t.isSigned, left, right).Some?
    ensures Agrees(operator, t, left, right) <==> FaithfulOperation(operator, t, left, right)
  {
    match operator
    case Addition => SumAgrees(t, left, right);
    case Subtraction => SumAgrees(t, left, right);
    case Multiplication => ProductAgrees(t, left, right);
    case Division => DivisionAgrees(t, left, right);
    case Modulo => ModuloAgrees(t, left, right);
    case BitwiseAnd => BitwiseAgrees(t, left, right);
    case BitwiseOr => BitwiseAgrees(t, left, right);
    case LeftShift => LeftShiftAgrees(t, left, right);
    case RightShift => RightShiftAgrees(t, left, right);
    case _ => ComparisonAgrees(operator, t, left, right);
  }

  /** A word compares with every canonical word as its value does if and only if it is canonical itself. */
  lemma CanonicalExactly(t: Integer, left: Word)
    ensures (forall right: Word :: Canonical(t, right) ==> Agrees(BinaryOperator.Equal, t, left, right)) <==> Canonical(t, left)
    ensures (forall right: Word :: Canonical(t, right) ==> Agrees(BinaryOperator.LessThan, t, left, right) && Agrees(BinaryOperator.GreaterThan, t, left, right))
       <==> Canonical(t, left)
  {
    CanonicalIsNoExcess(t, left);
    forall right: Word | Canonical(t, right)
      ensures Agrees(BinaryOperator.Equal, t, left, right) <==> FaithfulOperation(BinaryOperator.Equal, t, left, right)
      ensures Agrees(BinaryOperator.LessThan, t, left, right) <==> FaithfulOperation(BinaryOperator.LessThan, t, left, right)
      ensures Agrees(BinaryOperator.GreaterThan, t, left, right) <==> FaithfulOperation(BinaryOperator.GreaterThan, t, left, right)
      ensures Excess(t, right) == 0
    {
      CanonicalIsNoExcess(t, right);
      ComparisonAgrees(BinaryOperator.Equal, t, left, right);
      ComparisonAgrees(BinaryOperator.LessThan, t, left, right);
      ComparisonAgrees(BinaryOperator.GreaterThan, t, left, right);
    }
    var same := Encode(Size64, Wrap(t, left));
    WrapInRange(t, left);
    ResultAgrees(t, Wrap(t, left), Wrap(t, left));
    assert Canonical(t, same) && Wrap(t, same) == Wrap(t, left);
  }

  // ----- Whole constant expressions -----

  lemma CoercionAgrees(c: TypedConstant, v: Value, target: Type)
    requires Denotes(c, v) && CoerceConstant(c, target).Some?
    ensures target.UndeterminedInteger? || (Coerce(c.constantType, v, target).Some? &&
              Denotes(TypedConstant(target, CoerceConstant(c, target).value), Coerce(c.constantType, v, target).value))
  {
    if c.constantType.UndeterminedInteger? && target.IntegerType? {
      var t, word := target.integer, c.constant.integer;
      SignedWord(word);
      SignedWordCongruent(t.size, word);
    }
  }

  /** A constant is the outcome of evaluating an expression. */
  predicate Means(c: TypedConstant, evaluation: Evaluation) {
    evaluation.Evaluated? && evaluation.valueType == c.constantType && Denotes(c, evaluation.value)
  }

  lemma BooleanFoldAgrees(operator: BinaryOperator, left: TypedConstant, lv: Value, right: TypedConstant, rv: Value)
    requires Denotes(left, lv) && Denotes(right, rv) && BinaryType(left.constantType, right.constantType).BooleanType?
    requires FoldBinary(operator, left, right).Some?
    ensures Means(FoldBinary(operator, left, right).value, EvaluateBinary(operator, left.constantType, lv, right.constantType, rv))
  {
  }

  lemma UndeterminedBinaryAgrees(operator: BinaryOperator, left: TypedConstant, lv: Value, right: TypedConstant, rv: Value)
    requires Denotes(left, lv) && Denotes(right, rv)
    requires BinaryType(left.constantType, right.constantType).UndeterminedInteger?
    requires FoldBinary(operator, left, right).Some?
    ensures Means(FoldBinary(operator, left, right).value, EvaluateBinary(operator, left.constantType, lv, right.constantType, rv))
  {
    var l, r := left.constant.integer, right.constant.integer;
    var t64 := Integer(Size64, true);
    UndeterminedIsFaithful(operator, l, r);
    FaithfulExactly(operator, t64, l, r);
    WordIsSigned(l);
    WordIsSigned(r);
    var c := FoldIntegers(operator, true, l, r).value;
    if IsWord(c) {
      WordIsSigned(c.integer);
    }
    assert EvaluateBinary(operator, left.constantType, lv, right.constantType, rv)
        == ResultOf(Operate(operator, t64, Wrap(t64, l), Wrap(t64, r)), UndeterminedInteger);
  }

  lemma WordIsSigned(word: Word)
    ensures Wrap(Integer(Size64, true), word) == SignedValue(Size64, word)
  {
  }

  function Folded(t: Integer, c: IRConstant): TypedConstant {
    TypedConstant(if c.BooleanConstant? then BooleanType else IntegerType(t), c)
  }

  /** The folded constant of two words means what running gives exactly if the words agree. */
  lemma ResultMeans(operator: BinaryOperator, t: Integer, left: Word, right: Word)
    requires FoldIntegers(operator, t.isSigned, left, right).Some?
    ensures Means(Folded(t, FoldIntegers(operator, t.isSigned, left, right).value),
                  ResultOf(Operate(operator, t, Wrap(t, left), Wrap(t, right)), IntegerType(t)))
       <==> FaithfulOperation(operator, t, left, right)
  {
    FaithfulExactly(operator, t, left, right);
  }

  lemma IntegerBinaryAgrees(operator: BinaryOperator, left: TypedConstant, lv: Value, right: TypedConstant, rv: Value)
    requires Denotes(left, lv) && Denotes(right, rv) && BinaryType(left.constantType, right.constantType).IntegerType?
    requires FoldBinary(operator, left, right).Some?
    ensures Means(FoldBinary(operator, left, right).value, EvaluateBinary(operator, left.constantType, lv, right.constantType, rv))
       <==> FaithfulFold(operator, left, right)
  {
    var t := BinaryType(left.constantType, right.constantType);
    CoercionAgrees(left, lv, t);
    CoercionAgrees(right, rv, t);
    CoercedWord(left, t);
    CoercedWord(right, t);
    var l, r := left.constant.integer, right.constant.integer;
    ResultMeans(operator, t.integer, l, r);
    assert EvaluateBinary(operator, left.constantType, lv, right.constantType, rv)
        == ResultOf(Operate(operator, t.integer, Wrap(t.integer, l), Wrap(t.integer, r)), t);
  }

  /** A coerced constant keeps its word. */
  lemma CoercedWord(c: TypedConstant, target: Type)
    ensures CoerceConstant(c, target).Some? ==> CoerceConstant(c, target).value == c.constant
  {
  }

  /** A fold of two constants is what running them gives exactly if it is faithful. */
  lemma BinaryFoldAgrees(operator: BinaryOperator, left: TypedConstant, lv: Value, right: TypedConstant, rv: Value)
    requires Denotes(left, lv) && Denotes(right, rv)
    requires FoldBinary(operator, left, right).Some?
    ensures Means(FoldBinary(operator, left, right).value, EvaluateBinary(operator, left.constantType, lv, right.constantType, rv))
       <==> FaithfulFold(operator, left, right)
  {
    match BinaryType(left.constantType, right.constantType)
    case BooleanType => BooleanFoldAgrees(operator, left, lv, right, rv);
    case UndeterminedInteger => UndeterminedBinaryAgrees(operator, left, lv, right, rv);
    case IntegerType(_) => IntegerBinaryAgrees(operator, left, lv, right, rv);
  }

  /** An operation on canonical words is faithful if its shift is not oversized and its quotient is defined. */
  lemma CanonicalIsFaithful(operator: BinaryOperator, t: Integer, left: Word, right: Word)
    requires Canonical(t, left) && Canonical(t, right)
    requires operator.LeftShift? || operator.RightShift? ==> right < Bits(t.size)
    requires operator.Division? || operator.Modulo? ==> IsDivisor(t, left, right)
    ensures FaithfulOperation(operator, t, left, right)
  {
    CanonicalIsNoExcess(t, left);
    CanonicalIsNoExcess(t, right);
  }

  /** Undetermined integers are 64-bit signed integers, and there every fold is right. */
  lemma UndeterminedIsFaithful(operator: BinaryOperator, left: Word, right: Word)
    requires FoldIntegers(operator, true, left, right).Some?
    ensures FaithfulOperation(operator, Integer(Size64, true), left, right)
  {
    SignedWord(left);
    SignedWord(right);
    WordIsSigned(left);
    WordIsSigned(right);
    CanonicalIsFaithful(operator, Integer(Size64, true), left, right);
  }

  lemma CastAgrees(c: TypedConstant, v: Value, target: Type)
    requires Denotes(c, v) && FoldCast(c, target).Some?
    ensures Means(FoldCast(c, target).value, EvaluateCast(c.constantType, v, target))
  {
    if target.IntegerType? {
      var t, word := target.integer, c.constant.integer;
      if c.constantType.UndeterminedInteger? {
        SignedWordCongruent(t.size, word);
      } else if c.constantType == target {
        EncodeWrap(t, word);
      } else {
        WordAtSize(t, Wrap(c.constantType.integer, word));
      }
    }
  }

  lemma NegatedWord(word: Word)
    ensures SignedValue(Size64, Encode(Size64, 0 - word)) == Wrap(Integer(Size64, true), -SignedValue(Size64, word))
  {
    SignedWordCongruent(Size64, word);
    CongruentSum(Size64, 0, 0, SignedValue(Size64, word), word);
  }

  /** The fold of a negation is what running it gives exactly if the constant has no type to lose. */
  lemma NegationAgrees(c: TypedConstant, v: Value)
    requires Denotes(c, v) && FoldNegation(c).Some?
    ensures Means(FoldNegation(c).value, EvaluateNegation(c.constantType, v)) <==> !c.constantType.IntegerType?
  {
    if c.constantType.UndeterminedInteger? {
      NegatedWord(c.constant.integer);
    }
  }

  /** A constant expression whose parts have no unfaithful fold folds to its value exactly if its own fold
      is faithful. */
  lemma {:induction false} FoldsRightExactly(store: Store, e: Expression)
    requires FaithfulParts(e) && Fold(e).Some?
    ensures Means(Fold(e).value, Evaluate(store, e)) <==> Faithful(e)
    decreases e, 0
  {
    match e
    case IntegerLiteral(_) =>
    case BooleanLiteral(_) =>
    case NamedReference(_) =>
    case BinaryOperation(operator, left, right) =>
      FoldAgrees(store, left);
      FoldAgrees(store, right);
      BinaryFoldAgrees(operator, Fold(left).value, Evaluate(store, left).value, Fold(right).value, Evaluate(store, right).value);
    case Negation(operand) =>
      FoldAgrees(store, operand);
      NegationAgrees(Fold(operand).value, Evaluate(store, operand).value);
    case BooleanInvert(operand) =>
      FoldAgrees(store, operand);
    case Cast(operand, target) =>
      FoldAgrees(store, operand);
      CastAgrees(Fold(operand).value, Evaluate(store, operand).value, target);
  }

  /** A constant expression without an unfaithful fold folds to its value. */
  lemma {:induction false} FoldAgrees(store: Store, e: Expression)
    requires Faithful(e) && Fold(e).Some?
    ensures Means(Fold(e).value, Evaluate(store, e))
    decreases e, 1
  {
    FoldsRightExactly(store, e);
  }
}
