/** What a program means: expressions over mathematical integers, statements with a step budget. */
module Source {
  import opened Integers
  import opened Options
  import opened Ast

  datatype Value = Truth(truth: bool) | Number(number: int)

  /** A variable at run time. */
  datatype Slot = Slot(slotType: Type, value: Value)

  type Store = Stack<Slot>

  datatype Evaluation = Evaluated(valueType: Type, value: Value) | UndefinedValue | IllTyped

  predicate HasType(v: Value, t: Type) {
    match t
    case BooleanType => v.Truth?
    case IntegerType(i) => v.Number? && InRange(i, v.number)
    case UndeterminedInteger => v.Number? && InRange(Integer(Size64, true), v.number)
  }

  // ----- Integer operations -----

  datatype OperationResult = IsNumber(number: int) | IsTruth(truth: bool) | IsUndefined | NotAnOperation

  /** What an operator means on two values of integer type `t`. */
  function Operate(operator: BinaryOperator, t: Integer, x: int, y: int): OperationResult {
    match operator
    case Addition => IsNumber(Wrap(t, x + y))
    case Subtraction => IsNumber(Wrap(t, x - y))
    case Multiplication => IsNumber(Wrap(t, x * y))
    case Division =>
      if y == 0 || !InRange(t, TruncatedQuotient(x, y)) then IsUndefined else IsNumber(TruncatedQuotient(x, y))
    case Modulo =>
      if y == 0 || !InRange(t, TruncatedQuotient(x, y)) then IsUndefined else IsNumber(TruncatedRemainder(x, y))
    case BitwiseAnd => IsNumber(Wrap(t, BitAnd(Encode(t.size, x), Encode(t.size, y))))
    case BitwiseOr => IsNumber(Wrap(t, BitOr(Encode(t.size, x), Encode(t.size, y))))
    case LeftShift => if 0 <= y < Bits(t.size) then IsNumber(Wrap(t, x * Pow2(y))) else IsUndefined
    case RightShift => if 0 <= y < Bits(t.size) then IsNumber(x / Pow2(y)) else IsUndefined
    case Equal => IsTruth(x == y)
    case NotEqual => IsTruth(x != y)
    case LessThan => IsTruth(x < y)
    case GreaterThan => IsTruth(x > y)
    case BooleanAnd => NotAnOperation
    case BooleanOr => NotAnOperation
  }

  function OperateBooleans(operator: BinaryOperator, x: bool, y: bool): Option<bool> {
    match operator
    case BooleanAnd => Some(x && y)
    case BooleanOr => Some(x || y)
    case Equal => Some(x == y)
    case NotEqual => Some(x != y)
    case _ => None
  }

  // ----- Types -----

  /** The type at which two operands meet. */
  function BinaryType(left: Type, right: Type): Type {
    if left.BooleanType? || right.BooleanType? then left
    else if left.IntegerType? && right.IntegerType? then
      IntegerType(Integer(
        if Bits(left.integer.size) > Bits(right.integer.size) then left.integer.size else right.integer.size,
        left.integer.isSigned || right.integer.isSigned
      ))
    else if left.IntegerType? then left
    else if right.IntegerType? then right
    else left
  }

  /** An undetermined integer becomes an integer of a type that can hold it; for an unsigned
      target the 64-bit pattern is compared, so a negative literal fits only 64 bits. */
  predicate Fits(target: Integer, number: int) {
    if target.isSigned then InRange(target, number) else Encode(Size64, number) <= Max(target)
  }

  function Coerce(from: Type, v: Value, target: Type): Option<Value> {
    if target.UndeterminedInteger? then None
    else if from == target then Some(v)
    else if from.UndeterminedInteger? && target.IntegerType? && v.Number? && Fits(target.integer, v.number) then
      Some(Number(Wrap(target.integer, v.number)))
    else None
  }

  /** The default type of a variable, given the architecture's default integer size. */
  function DefaultType(defaultSize: RegisterSize, t: Type): Type {
    if t.UndeterminedInteger? then IntegerType(Integer(defaultSize, true)) else t
  }

  // ----- Expressions -----

  function EvaluateBinary(operator: BinaryOperator, lt: Type, lv: Value, rt: Type, rv: Value): Evaluation {
    match BinaryType(lt, rt)
    case BooleanType =>
      if !lt.BooleanType? || !rt.BooleanType? || !lv.Truth? || !rv.Truth? then IllTyped else
      (match OperateBooleans(operator, lv.truth, rv.truth)
       case None => IllTyped
       case Some(b) => Evaluated(BooleanType, Truth(b)))
    case UndeterminedInteger =>
      if !lv.Number? || !rv.Number? then IllTyped else
      ResultOf(Operate(operator, Integer(Size64, true), lv.number, rv.number), UndeterminedInteger)
    case IntegerType(t) =>
      var l, r := Coerce(lt, lv, IntegerType(t)), Coerce(rt, rv, IntegerType(t));
      if l.None? || r.None? || !l.value.Number? || !r.value.Number? then IllTyped else
      ResultOf(Operate(operator, t, l.value.number, r.value.number), IntegerType(t))
  }

  function ResultOf(result: OperationResult, t: Type): Evaluation {
    match result
    case IsNumber(n) => Evaluated(t, Number(n))
    case IsTruth(b) => Evaluated(BooleanType, Truth(b))
    case IsUndefined => UndefinedValue
    case NotAnOperation => IllTyped
  }

  /** An explicit conversion keeps the value modulo the size of the target. */
  function EvaluateCast(from: Type, v: Value, target: Type): Evaluation {
    match target
    case IntegerType(t) =>
      if from.BooleanType? || !v.Number? then IllTyped else Evaluated(target, Number(Wrap(t, v.number)))
    case BooleanType => if from.BooleanType? then Evaluated(target, v) else IllTyped
    case UndeterminedInteger => IllTyped
  }

  function EvaluateNegation(t: Type, v: Value): Evaluation {
    if t.BooleanType? || !v.Number? then IllTyped
    else Evaluated(t, Number(Wrap(if t.IntegerType? then t.integer else Integer(Size64, true), -v.number)))
  }

  function EvaluateInversion(t: Type, v: Value): Evaluation {
    if t.BooleanType? && v.Truth? then Evaluated(t, Truth(!v.truth)) else IllTyped
  }

  function Evaluate(store: Store, e: Expression): Evaluation {
    match e
    case IntegerLiteral(word) => Evaluated(UndeterminedInteger, Number(SignedValue(Size64, word)))
    case BooleanLiteral(b) => Evaluated(BooleanType, Truth(b))
    case NamedReference(name) =>
      (match Find(store, name)
       case None => IllTyped
       case Some(p) => var slot := store[p.scope][p.index].info; Evaluated(slot.slotType, slot.value))
    case BinaryOperation(operator, left, right) =>
      (match (Evaluate(store, left), Evaluate(store, right))
       case (Evaluated(lt, lv), Evaluated(rt, rv)) => EvaluateBinary(operator, lt, lv, rt, rv)
       case (IllTyped, _) => IllTyped
       case (_, IllTyped) => IllTyped
       case _ => UndefinedValue)
    case Negation(operand) =>
      (match Evaluate(store, operand)
       case Evaluated(t, v) => EvaluateNegation(t, v)
       case other => other)
    case BooleanInvert(operand) =>
      (match Evaluate(store, operand)
       case Evaluated(t, v) => EvaluateInversion(t, v)
       case other => other)
    case Cast(operand, target) =>
      (match Evaluate(store, operand)
       case Evaluated(t, v) => EvaluateCast(t, v, target)
       case other => other)
  }

  /** An expression used where a value of type `target` is wanted. */
  function EvaluateAs(store: Store, e: Expression, target: Type): Evaluation {
    match Evaluate(store, e)
    case Evaluated(t, v) =>
      (match Coerce(t, v, target)
       case None => IllTyped
       case Some(v') => Evaluated(target, v'))
    case other => other
  }

  // ----- Statements -----

  /** `Broke` is a break on its way to the enclosing loop. Every loop iteration spends one unit of fuel. */
  datatype Outcome =
    | Normal(store: Store)
    | Broke(store: Store)
    | ReturnedValue(value: Option<Value>)
    | UndefinedOutcome
    | OutOfFuel
    | IllFormed

  datatype Signature = Signature(returnTypes: seq<Type>, defaultSize: RegisterSize)

  function Failed(e: Evaluation): Outcome
    requires !e.Evaluated?
  {
    if e.UndefinedValue? then UndefinedOutcome else IllFormed
  }

  function DeclareVariable(store: Store, name: string, t: Type, v: Value): Outcome {
    if store == [] || FindInScope(store[|store| - 1], name).Some? then IllFormed
    else Normal(Declare(store, Named(name, Slot(t, v))))
  }

  /** What a declaration of type `t` does with the value of its initializer. */
  function DeclareAs(store: Store, name: string, t: Type, evaluation: Evaluation): Outcome {
    match evaluation
    case Evaluated(from, v) =>
      (match Coerce(from, v, t)
       case None => IllFormed
       case Some(v') => DeclareVariable(store, name, t, v'))
    case failure => Failed(failure)
  }

  function ExecuteDeclaration(p: Signature, store: Store, s: Statement): Outcome
    requires s.VariableDeclaration?
  {
    if s.initializer.None? then IllFormed else
    var evaluation := Evaluate(store, s.initializer.value);
    if !evaluation.Evaluated? then Failed(evaluation)
    else DeclareAs(store, s.name,
      if s.declaredType.Some? then s.declaredType.value else DefaultType(p.defaultSize, evaluation.valueType), evaluation)
  }

  function SetSlot(store: Store, p: Position, v: Value): Store
    requires Within(store, p)
  {
    var variable := store[p.scope][p.index];
    store[p.scope := store[p.scope][p.index := Named(variable.name, Slot(variable.info.slotType, v))]]
  }

  /** Only a variable can be assigned to. */
  function ExecuteAssignment(store: Store, target: Expression, value: Expression): Outcome {
    if !target.NamedReference? then IllFormed else
    match Find(store, target.name)
    case None => IllFormed
    case Some(p) =>
      match EvaluateAs(store, value, store[p.scope][p.index].info.slotType)
      case Evaluated(_, v) => Normal(SetSlot(store, p, v))
      case failure => Failed(failure)
  }

  function ExecuteReturn(p: Signature, store: Store, values: seq<Expression>): Outcome {
    if |values| != |p.returnTypes| || |values| > 1 then IllFormed
    else if values == [] then ReturnedValue(None)
    else
      match EvaluateAs(store, values[0], p.returnTypes[0])
      case Evaluated(_, v) => ReturnedValue(Some(v))
      case failure => Failed(failure)
  }

  /** The type of a loop index: that of a bound with a type, or the default integer type. */
  function IndexType(defaultSize: RegisterSize, from: Type, to: Type): Option<Integer> {
    if from.UndeterminedInteger? && to.UndeterminedInteger? then Some(Integer(defaultSize, true))
    else if from.IntegerType? then Some(from.integer)
    else if to.IntegerType? then Some(to.integer)
    else None
  }

  datatype Bounds = Bounds(indexType: Integer, from: int, to: int) | BoundsFailed(outcome: Outcome)

  function EvaluateBounds(p: Signature, store: Store, from: Expression, to: Expression): Bounds {
    match (Evaluate(store, from), Evaluate(store, to))
    case (Evaluated(ft, fv), Evaluated(tt, tv)) =>
      (match IndexType(p.defaultSize, ft, tt)
       case None => BoundsFailed(IllFormed)
       case Some(t) =>
         match (Coerce(ft, fv, IntegerType(t)), Coerce(tt, tv, IntegerType(t)))
         case (Some(Number(first)), Some(Number(last))) => Bounds(t, first, last)
         case _ => BoundsFailed(IllFormed))
    case (IllTyped, _) => BoundsFailed(IllFormed)
    case (_, IllTyped) => BoundsFailed(IllFormed)
    case _ => BoundsFailed(UndefinedOutcome)
  }

  function LeaveScope(outcome: Outcome): Outcome {
    match outcome
    case Normal(store) => if store == [] then IllFormed else Normal(store[..|store| - 1])
    case Broke(store) => if store == [] then IllFormed else Broke(store[..|store| - 1])
    case _ => outcome
  }

  function ExecuteBody(p: Signature, store: Store, scope: seq<Named<Slot>>, statements: seq<Statement>, fuel: nat): Outcome
    decreases fuel, statements, 1
  {
    LeaveScope(ExecuteStatements(p, store + [scope], statements, fuel))
  }

  /** The first arm whose condition holds; None if there is none. */
  function ExecuteArms(p: Signature, store: Store, arms: seq<Arm>, fuel: nat): Option<Outcome>
    decreases fuel, arms, 2
  {
    if arms == [] then None
    else
      match Evaluate(store, arms[0].condition)
      case Evaluated(t, v) =>
        if !t.BooleanType? || !v.Truth? then Some(IllFormed)
        else if v.truth then Some(ExecuteBody(p, store, [], arms[0].statements, fuel))
        else ExecuteArms(p, store, arms[1..], fuel)
      case failure => Some(Failed(failure))
  }

  function ExecuteWhile(p: Signature, store: Store, condition: Expression, statements: seq<Statement>, fuel: nat): Outcome
    decreases fuel, statements, 2
  {
    if fuel == 0 then OutOfFuel else
    match Evaluate(store, condition)
    case Evaluated(t, v) =>
      if !t.BooleanType? || !v.Truth? then IllFormed
      else if !v.truth then Normal(store)
      else
        (match ExecuteBody(p, store, [], statements, fuel - 1)
         case Normal(store') => ExecuteWhile(p, store', condition, statements, fuel - 1)
         case Broke(store') => Normal(store')
         case other => other)
    case failure => Failed(failure)
  }

  /** The iterations of a for loop from index `current` on; a body cannot change the next index. */
  function ExecuteLoop(
    p: Signature, store: Store, name: string, t: Integer, current: int, limit: int, statements: seq<Statement>, fuel: nat
  ): Outcome
    decreases fuel, statements, 2
  {
    if fuel == 0 then OutOfFuel
    else if current > limit then Normal(store)
    else
      match ExecuteBody(p, store, [Named(name, Slot(IntegerType(t), Number(current)))], statements, fuel - 1)
      case Normal(store') => ExecuteLoop(p, store', name, t, Wrap(t, current + 1), limit, statements, fuel - 1)
      case Broke(store') => Normal(store')
      case other => other
  }

  function ExecuteStatement(p: Signature, store: Store, s: Statement, fuel: nat): Outcome
    decreases fuel, s, 3
  {
    match s
    case ExpressionStatement(e) =>
      var result := Evaluate(store, e);
      if result.Evaluated? then Normal(store) else Failed(result)
    case VariableDeclaration(_, _, _) => ExecuteDeclaration(p, store, s)
    case Assignment(target, value) => ExecuteAssignment(store, target, value)
    case BinaryOperationAssignment(target, operator, value) =>
      ExecuteAssignment(store, target, BinaryOperation(operator, target, value))
    case IfStatement(arms, elseStatements) =>
      if arms == [] then IllFormed else
      (match ExecuteArms(p, store, arms, fuel)
       case Some(outcome) => outcome
       case None => if elseStatements == [] then Normal(store) else ExecuteBody(p, store, [], elseStatements, fuel))
    case WhileLoop(condition, statements) => ExecuteWhile(p, store, condition, statements, fuel)
    case ForLoop(indexName, from, to, statements) =>
      (match EvaluateBounds(p, store, from, to)
       case BoundsFailed(outcome) => outcome
       case Bounds(t, first, last) => ExecuteLoop(p, store, IndexName(indexName), t, first, last, statements, fuel))
    case ReturnStatement(values) => ExecuteReturn(p, store, values)
    case BreakStatement => Broke(store)
    case Declaration => Normal(store)
  }

  function ExecuteStatements(p: Signature, store: Store, statements: seq<Statement>, fuel: nat): Outcome
    decreases fuel, statements, 0
  {
    if statements == [] then Normal(store)
    else
      match ExecuteStatement(p, store, statements[0], fuel)
      case Normal(store') => ExecuteStatements(p, store', statements[1..], fuel)
      case other => other
  }

  // ----- Functions -----

  predicate HaveTypes(arguments: seq<Value>, parameters: seq<Parameter>) {
    |arguments| == |parameters| && forall i :: 0 <= i < |arguments| ==> HasType(arguments[i], parameters[i].parameterType)
  }

  /** The parameters as variables; of two with one name only the first can be seen. */
  function BindParameters(scope: seq<Named<Slot>>, parameters: seq<Parameter>, arguments: seq<Value>): seq<Named<Slot>>
    requires |parameters| == |arguments|
    decreases parameters
  {
    if parameters == [] then scope else
    var variable := Named(parameters[0].name, Slot(parameters[0].parameterType, arguments[0]));
    var scope' := if FindInScope(scope, variable.name).Some? then scope else scope + [variable];
    BindParameters(scope', parameters[1..], arguments[1..])
  }

  /** What a call returns. Reaching the end of a function without return values returns. */
  function Call(f: Function, defaultSize: RegisterSize, arguments: seq<Value>, fuel: nat): Outcome
    requires |arguments| == |f.parameters|
  {
    match ExecuteStatements(Signature(f.returnTypes, defaultSize), [BindParameters([], f.parameters, arguments)], f.statements, fuel)
    case Normal(_) => ReturnedValue(None)
    case Broke(_) => IllFormed
    case other => other
  }
}
