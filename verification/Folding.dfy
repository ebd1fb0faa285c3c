/** Compile-time evaluation: integer constants are folded as 64-bit words whatever their type. */
module Folding {
  import opened Integers
  import opened Options
  import opened Ast
  import opened Hlir
  import opened Source

  datatype TypedConstant = TypedConstant(constantType: Type, constant: IRConstant)

  /** Is a 64-bit word acceptable where an integer of type `target` is wanted? */
  predicate CheckCoercion(target: Integer, word: Word) {
    if target.isSigned then Min(target) <= SignedValue(Size64, word) <= Max(target) else word <= Max(target)
  }

  function CoerceConstant(c: TypedConstant, target: Type): Option<IRConstant> {
    match target
    case IntegerType(t) =>
      if c.constantType == target then Some(c.constant)
      else if c.constantType.UndeterminedInteger? && c.constant.IntegerConstant? && c.constant.integer < MODULUS_64
           && CheckCoercion(t, c.constant.integer) then Some(c.constant)
      else None
    case UndeterminedInteger =>
      if c.constantType == target then Some(c.constant) else None
    case BooleanType =>
      if c.constantType == target then Some(c.constant) else None
  }

  /** The operator table for integer constants; `isSigned` picks the int64 or the uint64 form.
      None stands for an operator that is not allowed or for undefined behaviour of the compiler itself. */
  function FoldIntegers(operator: BinaryOperator, isSigned: bool, left: Word, right: Word): Option<IRConstant> {
    var x, y := SignedValue(Size64, left), SignedValue(Size64, right);
    match operator
    case Addition => Some(IntegerConstant(Encode(Size64, left + right)))
    case Subtraction => Some(IntegerConstant(Encode(Size64, left - right)))
    case Multiplication =>
      if isSigned then Some(IntegerConstant(Encode(Size64, x * y))) else Some(IntegerConstant(Encode(Size64, left * right)))
    case Division =>
      if right == 0 then None
      else if !isSigned then Some(IntegerConstant(left / right))
      else if !InRange(Integer(Size64, true), TruncatedQuotient(x, y)) then None
      else Some(IntegerConstant(Encode(Size64, TruncatedQuotient(x, y))))
    case Modulo =>
      if right == 0 then None
      else if !isSigned then Some(IntegerConstant(left % right))
      else if !InRange(Integer(Size64, true), TruncatedQuotient(x, y)) then None
      else Some(IntegerConstant(Encode(Size64, TruncatedRemainder(x, y))))
    case BitwiseAnd => Some(IntegerConstant(BitAnd(left, right)))
    case BitwiseOr => Some(IntegerConstant(BitOr(left, right)))
    case LeftShift => if right < 64 then Some(IntegerConstant(Encode(Size64, left * Pow2(right)))) else None
    case RightShift =>
      if right >= 64 then None
      else if isSigned then Some(IntegerConstant(Encode(Size64, x / Pow2(right))))
      else Some(IntegerConstant(Encode(Size64, left / Pow2(right))))
    case Equal => Some(BooleanConstant(left == right))
    case NotEqual => Some(BooleanConstant(left != right))
    case LessThan => Some(BooleanConstant(if isSigned then x < y else left < right))
    case GreaterThan => Some(BooleanConstant(if isSigned then x > y else left > right))
    case BooleanAnd => None
    case BooleanOr => None
  }

  function FoldBinary(operator: BinaryOperator, left: TypedConstant, right: TypedConstant): Option<TypedConstant> {
    var t := BinaryType(left.constantType, right.constantType);
    match (CoerceConstant(left, t), CoerceConstant(right, t))
    case (Some(l), Some(r)) =>
      if t.BooleanType? then
        if !l.BooleanConstant? || !r.BooleanConstant? then None else
        (match OperateBooleans(operator, l.boolean, r.boolean)
         case None => None
         case Some(b) => Some(TypedConstant(BooleanType, BooleanConstant(b))))
      else if !IsWord(l) || !IsWord(r) then None
      else
        (match FoldIntegers(operator, t.UndeterminedInteger? || t.integer.isSigned, l.integer, r.integer)
         case None => None
         case Some(c) => Some(TypedConstant(if c.BooleanConstant? then BooleanType else t, c)))
    case _ => None
  }

  predicate IsWord(c: IRConstant) {
    c.IntegerConstant? && c.integer < MODULUS_64
  }

  /** A cast first tries an implicit conversion, which keeps the word; otherwise the word is cut
      down to the size of its own type, not of the target. */
  function FoldCast(c: TypedConstant, target: Type): Option<TypedConstant> {
    if target.UndeterminedInteger? then None else // no type expression names this type
    match CoerceConstant(c, target)
    case Some(word) => Some(TypedConstant(target, word))
    case None =>
      if target.IntegerType? && IsWord(c.constant) && c.constantType.IntegerType? then
        Some(TypedConstant(target, IntegerConstant(Encode(Size64, Wrap(c.constantType.integer, c.constant.integer)))))
      else if target.IntegerType? && IsWord(c.constant) && c.constantType.UndeterminedInteger? then
        Some(TypedConstant(target, c.constant))
      else None
  }

  /** The constant an expression folds to, if it mentions no variable and folds. */
  function Fold(e: Expression): Option<TypedConstant> {
    match e
    case IntegerLiteral(word) => Some(TypedConstant(UndeterminedInteger, IntegerConstant(word)))
    case BooleanLiteral(b) => Some(TypedConstant(BooleanType, BooleanConstant(b)))
    case NamedReference(_) => None
    case BinaryOperation(operator, left, right) =>
      (match (Fold(left), Fold(right))
       case (Some(l), Some(r)) => FoldBinary(operator, l, r)
       case _ => None)
    case Negation(operand) =>
      (match Fold(operand)
       case Some(c) => FoldNegation(c)
       case None => None)
    case BooleanInvert(operand) =>
      (match Fold(operand)
       case Some(c) =>
         if c.constantType.BooleanType? && c.constant.BooleanConstant? then
           Some(TypedConstant(BooleanType, BooleanConstant(!c.constant.boolean)))
         else None
       case None => None)
    case Cast(operand, target) =>
      (match Fold(operand)
       case Some(c) => FoldCast(c, target)
       case None => None)
  }

  /** The negation of an integer constant loses its type. */
  function FoldNegation(c: TypedConstant): Option<TypedConstant> {
    if c.constantType.BooleanType? || !IsWord(c.constant) then None
    else Some(TypedConstant(UndeterminedInteger, IntegerConstant(Encode(Size64, 0 - c.constant.integer))))
  }

  // ----- When folding means the same as running -----

  /** The value a constant of a given type stands for once it is cut down to the size of its type. */
  predicate Denotes(c: TypedConstant, v: Value) {
    match c.constantType
    case BooleanType => c.constant.BooleanConstant? && v == Truth(c.constant.boolean)
    case IntegerType(t) => IsWord(c.constant) && v == Number(Wrap(t, c.constant.integer))
    case UndeterminedInteger => IsWord(c.constant) && v == Number(SignedValue(Size64, c.constant.integer))
  }

  /** The word is the sign- or zero-extension of a value of type `t`. */
  predicate Canonical(t: Integer, word: Word) {
    Encode(Size64, Wrap(t, word)) == word
  }

  /** The number a word is as the host computes with it. */
  function Host(t: Integer, word: Word): int {
    if t.isSigned then SignedValue(Size64, word) else word
  }

  /** What is left of a word above the bits of its type: zero for a canonical word. */
  function Excess(t: Integer, word: Word): int {
    (Host(t, word) - Wrap(t, word)) / Modulus(t.size)
  }

  /** The operations on typed constants whose 64-bit result is also right at the size of the type. */
  predicate FaithfulOperation(operator: BinaryOperator, t: Integer, left: Word, right: Word) {
    match operator
    case LeftShift => right < Bits(t.size)
    case RightShift => right < Bits(t.size) && Excess(t, left) % Pow2(right) == 0
    case Division => IsDivisor(t, left, right) && FaithfulQuotient(t, left, right)
    case Modulo => IsDivisor(t, left, right) && FaithfulRemainder(t, left, right)
    case Equal => Excess(t, left) == Excess(t, right) || Wrap(t, left) != Wrap(t, right)
    case NotEqual => Excess(t, left) == Excess(t, right) || Wrap(t, left) != Wrap(t, right)
    case LessThan => Excess(t, left) == Excess(t, right) || (Excess(t, left) < Excess(t, right) <==> Wrap(t, left) < Wrap(t, right))
    case GreaterThan => Excess(t, left) == Excess(t, right) || (Excess(t, left) > Excess(t, right) <==> Wrap(t, left) > Wrap(t, right))
    case _ => true
  }

  /** The divisor is not zero at the size of the type, and the quotient does not overflow there. */
  predicate IsDivisor(t: Integer, left: Word, right: Word) {
    Wrap(t, right) != 0 && !OverflowsQuotient(t, left, right)
  }

  /** The least value of a signed type divided by minus one. */
  predicate OverflowsQuotient(t: Integer, left: Word, right: Word) {
    t.isSigned && Wrap(t, left) == Min(t) && Wrap(t, right) == -1
  }

  predicate SameSign(x: int, y: int) {
    (x >= 0) == (y >= 0)
  }

  /** A canonical divisor divides what is above the type's bits, and the value too if its sign is another
      one than the word's. Otherwise the dividend must lie, modulo so many times the divisor as the type
      has values, where the multiples of the divisor give the quotient of the values. */
  predicate FaithfulQuotient(t: Integer, left: Word, right: Word)
    requires Wrap(t, right) != 0
  {
    var x, y := Wrap(t, left), Wrap(t, right);
    if Canonical(t, right) then
      Excess(t, left) % Abs(y) == 0 && (SameSign(Host(t, left), x) || x % Abs(y) == 0)
    else
      QuotientDigit(Host(t, left), Host(t, right), TruncatedQuotient(x, y), Modulus(t.size))
  }

  /** The quotient of `a` by `b` is `q` modulo `m`, said without dividing by `b`. */
  predicate QuotientDigit(a: int, b: int, q: int, m: nat)
    requires m > 0
  {
    var digit := (if (a >= 0) == (b > 0) then q else -q) % m;
    b != 0 && digit * Abs(b) <= Abs(a) % (m * Abs(b)) < (digit + 1) * Abs(b)
  }

  /** For a canonical divisor as for the quotient, but with all the bits above the type's. Otherwise the
      quotients must differ by a multiple of the modulus once they are multiplied by the divisor again. */
  predicate FaithfulRemainder(t: Integer, left: Word, right: Word)
    requires Wrap(t, right) != 0
  {
    var x, y := Wrap(t, left), Wrap(t, right);
    if Canonical(t, right) then
      (Excess(t, left) * Modulus(t.size)) % Abs(y) == 0 && (SameSign(Host(t, left), x) || x % Abs(y) == 0)
    else
      Host(t, right) != 0 &&
      (y * (TruncatedQuotient(Host(t, left), Host(t, right)) - TruncatedQuotient(x, y))) % Modulus(t.size) == 0
  }

  /** No fold inside `e` is one that running would do differently. */
  predicate Faithful(e: Expression) {
    match e
    case IntegerLiteral(_) => true
    case BooleanLiteral(_) => true
    case NamedReference(_) => true
    case BinaryOperation(operator, left, right) =>
      Faithful(left) && Faithful(right) &&
      (Fold(left).Some? && Fold(right).Some? ==> FaithfulFold(operator, Fold(left).value, Fold(right).value))
    case Negation(operand) =>
      Faithful(operand) && (Fold(operand).Some? ==> !Fold(operand).value.constantType.IntegerType?)
    case BooleanInvert(operand) => Faithful(operand)
    case Cast(operand, _) => Faithful(operand)
  }

  predicate FaithfulParts(e: Expression) {
    match e
    case BinaryOperation(_, left, right) => Faithful(left) && Faithful(right)
    case Negation(operand) => Faithful(operand)
    case BooleanInvert(operand) => Faithful(operand)
    case Cast(operand, _) => Faithful(operand)
    case _ => true
  }

  predicate FaithfulFold(operator: BinaryOperator, left: TypedConstant, right: TypedConstant) {
    var t := BinaryType(left.constantType, right.constantType);
    t.IntegerType? && IsWord(left.constant) && IsWord(right.constant) ==>
      FaithfulOperation(operator, t.integer, left.constant.integer, right.constant.integer)
  }

  /** No fold anywhere in a statement list is one that running would do differently. */
  predicate FaithfulStatements(statements: seq<Statement>)
    decreases statements, 1
  {
    forall s :: s in statements ==> FaithfulStatement(s)
  }

  predicate FaithfulStatement(s: Statement)
    decreases s, 0
  {
    match s
    case ExpressionStatement(e) => Faithful(e)
    case VariableDeclaration(_, _, initializer) => initializer.Some? ==> Faithful(initializer.value)
    case Assignment(target, value) => Faithful(value)
    case BinaryOperationAssignment(target, operator, value) => Faithful(BinaryOperation(operator, target, value))
    case IfStatement(arms, elseStatements) =>
      (forall a :: a in arms ==> Faithful(a.condition) && FaithfulStatements(a.statements)) && FaithfulStatements(elseStatements)
    case WhileLoop(condition, statements) => Faithful(condition) && FaithfulStatements(statements)
    case ForLoop(_, from, to, statements) => Faithful(from) && Faithful(to) && FaithfulStatements(statements)
    case ReturnStatement(values) => forall e :: e in values ==> Faithful(e)
    case BreakStatement => true
    case Declaration => true
  }
}
