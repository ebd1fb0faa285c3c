/** When a function is well-typed: rules over names, types and constants, apart from how it is compiled. */
module Typing {
  import opened Integers
  import opened Options
  import opened Ast
  import opened Hlir
  import opened Folding

  // ----- Expressions -----

  /** A constant mentions no variable. */
  predicate IsConstant(e: Expression) {
    match e
    case NamedReference(_) => false
    case BinaryOperation(_, left, right) => IsConstant(left) && IsConstant(right)
    case Negation(operand) => IsConstant(operand)
    case BooleanInvert(operand) => IsConstant(operand)
    case Cast(operand, _) => IsConstant(operand)
    case _ => true
  }

  /** The 64-bit word of an integer constant. */
  function WordOf(e: Expression): Option<Word> {
    match Fold(e)
    case Some(TypedConstant(_, IntegerConstant(n))) => if n < MODULUS_64 then Some(n) else None
    case _ => None
  }

  /** A word is acceptable at a signed type if its signed value is in range, at an unsigned one if it is itself. */
  predicate WordFits(t: Integer, word: Word) {
    if t.isSigned then InRange(t, SignedValue(Size64, word)) else InRange(t, word)
  }

  /** An expression is used at its own type; an undetermined constant at any integer type it fits. */
  predicate Usable(e: Expression, from: Type, target: Type) {
    from == target ||
    (from.UndeterminedInteger? && target.IntegerType? && WordOf(e).Some? && WordFits(target.integer, WordOf(e).value))
  }

  /** Two operands meet at their type if it is the same, or at that of the one whose type is determined. */
  function CommonType(a: Type, b: Type): Option<Type> {
    if a == b then Some(a)
    else if a.IntegerType? && b.UndeterminedInteger? then Some(a)
    else if a.UndeterminedInteger? && b.IntegerType? then Some(b)
    else None
  }

  /** The type of a result: arithmetic is on integers, order on integers, `and` and `or` on booleans. */
  function ResultType(operator: BinaryOperator, t: Type): Option<Type> {
    match operator
    case Equal => Some(BooleanType)
    case NotEqual => Some(BooleanType)
    case LessThan => if t.BooleanType? then None else Some(BooleanType)
    case GreaterThan => if t.BooleanType? then None else Some(BooleanType)
    case BooleanAnd => if t.BooleanType? then Some(BooleanType) else None
    case BooleanOr => if t.BooleanType? then Some(BooleanType) else None
    case _ => if t.BooleanType? then None else Some(t)
  }

  /** Integer constants have a result unless the divisor is zero, the signed quotient overflows, or a shift is
      by 64 bits or more. */
  predicate HasResult(operator: BinaryOperator, t: Type, left: Word, right: Word) {
    match operator
    case Division => right != 0 && !Overflows(t, left, right)
    case Modulo => right != 0 && !Overflows(t, left, right)
    case LeftShift => right < 64
    case RightShift => right < 64
    case _ => true
  }

  /** The least signed word divided by minus one. */
  predicate Overflows(t: Type, left: Word, right: Word) {
    (t.IntegerType? ==> t.integer.isSigned) && left == 0x8000_0000_0000_0000 && right == MODULUS_64 - 1
  }

  /** An integer becomes one of any given integer type, a boolean only a boolean. */
  predicate Convertible(from: Type, target: Type) {
    match target
    case IntegerType(_) => !from.BooleanType?
    case BooleanType => from.BooleanType?
    case UndeterminedInteger => false
  }

  function BinaryTypeOf(operator: BinaryOperator, left: Expression, a: Type, right: Expression, b: Type): Option<Type> {
    match CommonType(a, b)
    case None => None
    case Some(t) =>
      if !Usable(left, a, t) || !Usable(right, b, t) then None
      else if IsConstant(left) && IsConstant(right) && !t.BooleanType? &&
              (WordOf(left).None? || WordOf(right).None? || !HasResult(operator, t, WordOf(left).value, WordOf(right).value)) then None
      else ResultType(operator, t)
  }

  /** The type of an expression, if it has one. The negation of a constant is undetermined whatever its type. */
  function TypeOf(names: Stack<Type>, e: Expression): Option<Type> {
    match e
    case IntegerLiteral(_) => Some(UndeterminedInteger)
    case BooleanLiteral(_) => Some(BooleanType)
    case NamedReference(name) =>
      (match Find(names, name)
       case None => None
       case Some(p) => Some(names[p.scope][p.index].info))
    case BinaryOperation(operator, left, right) =>
      (match (TypeOf(names, left), TypeOf(names, right))
       case (Some(a), Some(b)) => BinaryTypeOf(operator, left, a, right, b)
       case _ => None)
    case Negation(operand) =>
      (match TypeOf(names, operand)
       case Some(t) => if t.BooleanType? then None else if IsConstant(operand) then Some(UndeterminedInteger) else Some(t)
       case None => None)
    case BooleanInvert(operand) => if TypeOf(names, operand) == Some(BooleanType) then Some(BooleanType) else None
    case Cast(operand, target) =>
      (match TypeOf(names, operand)
       case Some(t) => if Convertible(t, target) then Some(target) else None
       case None => None)
  }

  /** Can a value of the expression be had at this type? */
  predicate HasValueAt(names: Stack<Type>, e: Expression, target: Type) {
    var t := TypeOf(names, e);
    t.Some? && !target.UndeterminedInteger? && Usable(e, t.value, target)
  }

  // ----- Statements -----

  datatype Environment = Environment(returnTypes: seq<Type>, defaultSize: RegisterSize, inLoop: bool, names: Stack<Type>)

  predicate IsFree(scope: seq<Named<Type>>, name: string) {
    forall i :: 0 <= i < |scope| ==> scope[i].name != name
  }

  /** Without a given type a variable has that of its value, an integer of the default size if that is undetermined. */
  function VariableType(env: Environment, declared: Option<Type>, initializer: Expression): Option<Type> {
    if declared.Some? then declared
    else
      match TypeOf(env.names, initializer)
      case Some(UndeterminedInteger) => Some(IntegerType(Integer(env.defaultSize, true)))
      case t => t
  }

  /** The index of a loop has the type of a bound that has one, or is a signed integer of the default size. */
  function LoopType(env: Environment, from: Expression, to: Expression): Option<Integer> {
    match (TypeOf(env.names, from), TypeOf(env.names, to))
    case (Some(IntegerType(t)), Some(_)) => Some(t)
    case (Some(UndeterminedInteger), Some(IntegerType(t))) => Some(t)
    case (Some(UndeterminedInteger), Some(UndeterminedInteger)) => Some(Integer(env.defaultSize, true))
    case _ => None
  }

  predicate IsCondition(env: Environment, condition: Expression) {
    TypeOf(env.names, condition) == Some(BooleanType)
  }

  predicate IsAssignable(env: Environment, target: Expression, value: Expression) {
    target.NamedReference? && TypeOf(env.names, target).Some? && HasValueAt(env.names, value, TypeOf(env.names, target).value)
  }

  function Inside(env: Environment, inLoop: bool, scope: seq<Named<Type>>): Environment {
    env.(inLoop := inLoop, names := env.names + [scope])
  }

  predicate WellTyped(env: Environment, s: Statement)
    decreases s, 1
  {
    match s
    case ExpressionStatement(e) => TypeOf(env.names, e).Some?
    case VariableDeclaration(name, declared, initializer) =>
      initializer.Some? && env.names != [] && IsFree(env.names[|env.names| - 1], name) &&
      var t := VariableType(env, declared, initializer.value);
      t.Some? && HasValueAt(env.names, initializer.value, t.value)
    case Assignment(target, value) => IsAssignable(env, target, value)
    case BinaryOperationAssignment(target, operator, value) => IsAssignable(env, target, BinaryOperation(operator, target, value))
    case IfStatement(arms, elseStatements) =>
      arms != [] && (forall a :: a in arms ==> IsCondition(env, a.condition) && ListTyped(Inside(env, env.inLoop, []), a.statements, false)) &&
      ListTyped(Inside(env, env.inLoop, []), elseStatements, false)
    case WhileLoop(condition, statements) => IsCondition(env, condition) && ListTyped(Inside(env, true, []), statements, false)
    case ForLoop(indexName, from, to, statements) =>
      var t := LoopType(env, from, to);
      t.Some? && HasValueAt(env.names, from, IntegerType(t.value)) && HasValueAt(env.names, to, IntegerType(t.value)) &&
      ListTyped(Inside(env, true, [Named(IndexName(indexName), IntegerType(t.value))]), statements, false)
    case ReturnStatement(values) =>
      |values| == |env.returnTypes| <= 1 && (|values| == 1 ==> HasValueAt(env.names, values[0], env.returnTypes[0]))
    case BreakStatement => env.inLoop
    case Declaration => true
  }

  /** What a statement leaves behind: a declaration adds its variable to the innermost scope. */
  function After(env: Environment, s: Statement): Environment {
    if s.VariableDeclaration? && s.initializer.Some? && env.names != [] then
      match VariableType(env, s.declaredType, s.initializer.value)
      case Some(t) => env.(names := Declare(env.names, Named(s.name, t)))
      case None => env
    else env
  }

  /** Nothing that runs may follow a return or a break; `ended` says that one came before. */
  predicate ListTyped(env: Environment, statements: seq<Statement>, ended: bool)
    decreases statements, 0
  {
    statements == [] ||
    if statements[0].Declaration? then ListTyped(env, statements[1..], ended)
    else
      !ended && WellTyped(env, statements[0]) &&
      ListTyped(After(env, statements[0]), statements[1..], statements[0].ReturnStatement? || statements[0].BreakStatement?)
  }

  // ----- Functions -----

  /** The parameters that can be seen: of two with one name the first. */
  function SeenParameters(parameters: seq<Parameter>): seq<Named<Type>> {
    if parameters == [] then [] else
    var last := parameters[|parameters| - 1];
    var before := SeenParameters(parameters[..|parameters| - 1]);
    if IsFree(before, last.name) then before + [Named(last.name, last.parameterType)] else before
  }

  /** A function with a return value must end in a return. */
  predicate WellTypedFunction(f: Function, defaultSize: RegisterSize) {
    (forall p :: p in f.parameters ==> !p.parameterType.UndeterminedInteger?) &&
    (forall t :: t in f.returnTypes ==> !t.UndeterminedInteger?) && |f.returnTypes| <= 1 &&
    ListTyped(Environment(f.returnTypes, defaultSize, false, [SeenParameters(f.parameters)]), f.statements, false) &&
    (f.returnTypes != [] ==> f.statements != [] && f.statements[|f.statements| - 1].ReturnStatement?)
  }
}
