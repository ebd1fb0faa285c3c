/** What the HLIR generator computes, as functions on the value of its context. */
module Lowering {
  import opened Integers
  import opened Options
  import opened Ast
  import opened Hlir
  import opened Source
  import opened Folding

  datatype Variable = Variable(variableType: Type, pointer: Register)

  /** A value known at compile time, held in a register, or stored behind a pointer register. */
  datatype RuntimeValue =
    | ConstantValue(constant: IRConstant)
    | RegisterHeld(register: Register)
    | AddressedValue(pointer: Register)

  /** What generating an expression appends, the next free register, and the typed value. */
  datatype Generated = Generated(code: seq<Instruction>, next: Register, valueType: Type, value: RuntimeValue)

  /** What forcing a value into a register appends. */
  datatype Forced = Forced(code: seq<Instruction>, next: Register, register: Register)

  predicate Below(value: RuntimeValue, next: Register) {
    match value
    case ConstantValue(_) => true
    case RegisterHeld(r) => r < next
    case AddressedValue(r) => r < next
  }

  ghost predicate PointersBelow(variables: Stack<Variable>, next: Register) {
    forall p :: Within(variables, p) ==> variables[p.scope][p.index].info.pointer < next
  }

  /** `g` extends the code of `from` and keeps its registers below the next free one. */
  predicate Extends(from: Generated, g: Generated) {
    from.code <= g.code && (Below(from.value, from.next) ==> from.next <= g.next && Below(g.value, g.next))
  }

  predicate IsRuntimeType(t: Type) {
    !t.UndeterminedInteger?
  }

  function IRTypeOf(t: Type): IRType
    requires IsRuntimeType(t)
  {
    match t
    case BooleanType => IRBoolean
    case IntegerType(i) => IRInteger(i.size)
  }

  function InRegister(irType: IRType, value: RuntimeValue, next: Register): (f: Forced)
    ensures Below(value, next) ==> next <= f.next && f.register < f.next
  {
    match value
    case ConstantValue(constant) => Forced([Literal(irType, constant, next)], next + 1, next)
    case RegisterHeld(register) => Forced([], next, register)
    case AddressedValue(pointer) => Forced([Load(pointer, irType, next)], next + 1, next)
  }

  function CoerceToRegister(from: Type, value: RuntimeValue, target: Type, next: Register): (f: Option<Forced>)
    ensures f.Some? && Below(value, next) ==> next <= f.value.next && f.value.register < f.value.next
  {
    match target
    case IntegerType(t) =>
      if from == target then Some(InRegister(IRInteger(t.size), value, next))
      else if from.UndeterminedInteger? && value.ConstantValue? && IsWord(value.constant)
           && CheckCoercion(t, value.constant.integer) then
        Some(InRegister(IRInteger(t.size), value, next))
      else None
    case BooleanType => if from.BooleanType? then Some(InRegister(IRBoolean, value, next)) else None
    case UndeterminedInteger => None
  }

  // ----- Expressions -----

  function SelectArithmetic(operator: BinaryOperator, isSigned: bool): Option<ArithmeticOperation> {
    match operator
    case Addition => Some(Add)
    case Subtraction => Some(Subtract)
    case Multiplication => Some(Multiply)
    case Division => Some(if isSigned then SignedDivide else UnsignedDivide)
    case Modulo => Some(if isSigned then SignedModulus else UnsignedModulus)
    case BitwiseAnd => Some(ArithmeticOperation.BitwiseAnd)
    case BitwiseOr => Some(ArithmeticOperation.BitwiseOr)
    case LeftShift => Some(ArithmeticOperation.LeftShift)
    case RightShift => Some(if isSigned then RightArithmeticShift else ArithmeticOperation.RightShift)
    case _ => None
  }

  datatype SelectedComparison = SelectedComparison(comparison: ComparisonOperation, invert: bool)

  function SelectComparison(operator: BinaryOperator, isSigned: bool): Option<SelectedComparison> {
    match operator
    case Equal => Some(SelectedComparison(ComparisonOperation.Equal, false))
    case NotEqual => Some(SelectedComparison(ComparisonOperation.Equal, true))
    case LessThan => Some(SelectedComparison(if isSigned then SignedLessThan else UnsignedLessThan, false))
    case GreaterThan => Some(SelectedComparison(if isSigned then SignedGreaterThan else UnsignedGreaterThan, false))
    case _ => None
  }

  /** The instructions of an integer operation on two registers. */
  function IntegerOperation(operator: BinaryOperator, t: Integer, a: Register, b: Register, next: Register): (g: Option<Generated>)
    ensures g.Some? ==> next <= g.value.next && Below(g.value.value, g.value.next)
  {
    match SelectArithmetic(operator, t.isSigned)
    case Some(operation) =>
      Some(Generated([IntegerArithmetic(operation, a, b, next)], next + 1, IntegerType(t), RegisterHeld(next)))
    case None =>
      match SelectComparison(operator, t.isSigned)
      case None => None
      case Some(selected) => Some(Inverted(selected.invert, IntegerComparison(selected.comparison, a, b, next), next))
  }

  /** A boolean-valued instruction, followed by an inversion when the operator asks for one. */
  function Inverted(invert: bool, instruction: Instruction, next: Register): Generated {
    if invert then Generated([instruction, BooleanInversion(next, next + 1)], next + 2, BooleanType, RegisterHeld(next + 1))
    else Generated([instruction], next + 1, BooleanType, RegisterHeld(next))
  }

  /** Boolean `and` and `or` evaluate both operands. */
  function BooleanOperationOf(operator: BinaryOperator, a: Register, b: Register, next: Register): (g: Option<Generated>)
    ensures g.Some? ==> next <= g.value.next && Below(g.value.value, g.value.next)
  {
    match operator
    case BooleanAnd => Some(Inverted(false, BooleanArithmetic(BooleanOperation.BooleanAnd, a, b, next), next))
    case BooleanOr => Some(Inverted(false, BooleanArithmetic(BooleanOperation.BooleanOr, a, b, next), next))
    case Equal => Some(Inverted(false, BooleanEquality(a, b, next), next))
    case NotEqual => Some(Inverted(true, BooleanEquality(a, b, next), next))
    case _ => None
  }

  /** Two generated operands, the right one after the left one; two constants are folded. */
  function CombineBinary(operator: BinaryOperator, left: Generated, right: Generated): (g: Option<Generated>)
    ensures g.Some? ==> left.code + right.code <= g.value.code
    ensures g.Some? && left.next <= right.next && Below(left.value, left.next) && Below(right.value, right.next) ==>
              right.next <= g.value.next && Below(g.value.value, g.value.next)
  {
    var code := left.code + right.code;
    if left.value.ConstantValue? && right.value.ConstantValue? then
      match FoldBinary(operator, TypedConstant(left.valueType, left.value.constant), TypedConstant(right.valueType, right.value.constant))
      case None => None
      case Some(c) => Some(Generated(code, right.next, c.constantType, ConstantValue(c.constant)))
    else
      var t := BinaryType(left.valueType, right.valueType);
      match CoerceToRegister(left.valueType, left.value, t, right.next)
      case None => None
      case Some(l) =>
        match CoerceToRegister(right.valueType, right.value, t, l.next)
        case None => None
        case Some(r) =>
          match (if t.BooleanType? then BooleanOperationOf(operator, l.register, r.register, r.next)
                 else if t.IntegerType? then IntegerOperation(operator, t.integer, l.register, r.register, r.next)
                 else None)
          case None => None
          case Some(g) => Some(g.(code := code + l.code + r.code + g.code))
  }

  function GenerateNegation(g: Generated): (r: Option<Generated>)
    ensures r.Some? ==> Extends(g, r.value)
  {
    if g.valueType.BooleanType? then None else
    match g.value
    case ConstantValue(constant) =>
      (match FoldNegation(TypedConstant(g.valueType, constant))
       case None => None
       case Some(c) => Some(g.(valueType := c.constantType, value := ConstantValue(c.constant))))
    case _ =>
      if !g.valueType.IntegerType? then None else
      var irType := IRTypeOf(g.valueType);
      var f := InRegister(irType, g.value, g.next);
      Some(Generated(
        g.code + f.code + [Literal(irType, IntegerConstant(0), f.next), IntegerArithmetic(Subtract, f.next, f.register, f.next + 1)],
        f.next + 2, g.valueType, RegisterHeld(f.next + 1)
      ))
  }

  function GenerateInversion(g: Generated): (r: Option<Generated>)
    ensures r.Some? ==> Extends(g, r.value)
  {
    if !g.valueType.BooleanType? then None else
    match g.value
    case ConstantValue(constant) =>
      if constant.BooleanConstant? then Some(g.(value := ConstantValue(IRConstant.BooleanConstant(!constant.boolean)))) else None
    case _ =>
      var f := InRegister(IRBoolean, g.value, g.next);
      Some(Generated(g.code + f.code + [BooleanInversion(f.register, f.next)], f.next + 1, BooleanType, RegisterHeld(f.next)))
  }

  /** The conversion between integer types of a value that is not a constant. */
  function ConvertInteger(source: Integer, register: Register, target: Integer, next: Register): Forced {
    if Bits(target.size) > Bits(source.size) then
      Forced([IntegerExtension(source.isSigned, register, target.size, next)], next + 1, next)
    else if Bits(target.size) < Bits(source.size) then
      Forced([IntegerTruncation(register, target.size, next)], next + 1, next)
    else Forced([], next, register)
  }

  function GenerateCast(g: Generated, target: Type): (r: Option<Generated>)
    ensures r.Some? ==> Extends(g, r.value)
  {
    if g.value.ConstantValue? then
      match FoldCast(TypedConstant(g.valueType, g.value.constant), target)
      case None => None
      case Some(c) => Some(g.(valueType := c.constantType, value := ConstantValue(c.constant)))
    else
      match CoerceToRegister(g.valueType, g.value, target, g.next)
      case Some(f) => Some(Generated(g.code + f.code, f.next, target, RegisterHeld(f.register)))
      case None =>
        if !target.IntegerType? || !g.valueType.IntegerType? then None else
        var f := InRegister(IRTypeOf(g.valueType), g.value, g.next);
        var conversion := ConvertInteger(g.valueType.integer, f.register, target.integer, f.next);
        Some(Generated(g.code + f.code + conversion.code, conversion.next, target, RegisterHeld(conversion.register)))
  }

  function GenerateExpression(variables: Stack<Variable>, next: Register, e: Expression): Option<Generated>
    decreases e
  {
    match e
    case IntegerLiteral(word) => Some(Generated([], next, UndeterminedInteger, ConstantValue(IntegerConstant(word))))
    case BooleanLiteral(b) => Some(Generated([], next, BooleanType, ConstantValue(IRConstant.BooleanConstant(b))))
    case NamedReference(name) =>
      (match Find(variables, name)
       case None => None
       case Some(p) =>
         var variable := variables[p.scope][p.index].info;
         Some(Generated([], next, variable.variableType, AddressedValue(variable.pointer))))
    case BinaryOperation(operator, left, right) =>
      (match GenerateExpression(variables, next, left)
       case None => None
       case Some(l) =>
         match GenerateExpression(variables, l.next, right)
         case None => None
         case Some(r) => CombineBinary(operator, l, r))
    case Negation(operand) =>
      (match GenerateExpression(variables, next, operand)
       case None => None
       case Some(g) => GenerateNegation(g))
    case BooleanInvert(operand) =>
      (match GenerateExpression(variables, next, operand)
       case None => None
       case Some(g) => GenerateInversion(g))
    case Cast(operand, target) =>
      (match GenerateExpression(variables, next, operand)
       case None => None
       case Some(g) => GenerateCast(g, target))
  }

  lemma {:induction false} GenerateExpressionBelow(variables: Stack<Variable>, next: Register, e: Expression)
    requires PointersBelow(variables, next) && GenerateExpression(variables, next, e).Some?
    ensures var g := GenerateExpression(variables, next, e).value;
            next <= g.next && Below(g.value, g.next)
    decreases e
  {
    match e
    case IntegerLiteral(_) =>
    case BooleanLiteral(_) =>
    case NamedReference(_) =>
    case BinaryOperation(_, left, right) =>
      GenerateExpressionBelow(variables, next, left);
      GenerateExpressionBelow(variables, GenerateExpression(variables, next, left).value.next, right);
    case Negation(operand) => GenerateExpressionBelow(variables, next, operand);
    case BooleanInvert(operand) => GenerateExpressionBelow(variables, next, operand);
    case Cast(operand, _) => GenerateExpressionBelow(variables, next, operand);
  }

  // ----- The generation context -----

  datatype Context = Context(
    returnTypes: seq<Type>,
    defaultSize: RegisterSize,
    breakTarget: Option<Label>,
    variables: Stack<Variable>,
    constantScopes: seq<ConstantScope>,
    nextScope: nat,
    blocks: seq<Block>,
    current: Label,
    instructions: seq<Instruction>,
    nextRegister: Register,
    nextLabel: Label
  )

  function Emit(c: Context, code: seq<Instruction>, next: Register): Context {
    c.(instructions := c.instructions + code, nextRegister := next)
  }

  predicate NeedsFinisher(c: Context) {
    c.instructions == [] || !IsTerminator(c.instructions[|c.instructions| - 1])
  }

  /** Close the current block and go on in another one. */
  function ChangeBlock(c: Context, id: Label): Context {
    c.(blocks := c.blocks + [Block(c.current, c.instructions)], current := id, instructions := [])
  }

  function JumpIfNeeded(c: Context, target: Label): Context {
    if NeedsFinisher(c) then c.(instructions := c.instructions + [Jump(target)]) else c
  }

  /** Go on in a new block, unless the current one is still empty. */
  function EnterNewBlock(c: Context): Context {
    if c.instructions == [] then c
    else ChangeBlock(JumpIfNeeded(c, c.nextLabel), c.nextLabel).(nextLabel := c.nextLabel + 1)
  }

  /** A second variable of the same name in one scope is an error. */
  function AddNewVariable(c: Context, name: string, variable: Variable): Option<Context> {
    if c.variables == [] || FindInScope(c.variables[|c.variables| - 1], name).Some? then None
    else Some(c.(variables := Declare(c.variables, Named(name, variable))))
  }

  // ----- Statements -----

  /** Declare a local of type `t` and store a generated value in it. */
  function GenerateLocal(c: Context, name: string, t: Type, g: Generated): Option<Context> {
    if !IsRuntimeType(t) then None else
    var pointer := g.next;
    match CoerceToRegister(g.valueType, g.value, t, pointer + 1)
    case None => None
    case Some(f) =>
      var code := g.code + [AllocateLocal(IRTypeOf(t), pointer)] + f.code + [Store(f.register, pointer)];
      AddNewVariable(Emit(c, code, f.next), name, Variable(t, pointer))
  }

  function GenerateVariableDeclaration(c: Context, s: Statement): Option<Context>
    requires s.VariableDeclaration?
  {
    if s.initializer.None? then None else
    match GenerateExpression(c.variables, c.nextRegister, s.initializer.value)
    case None => None
    case Some(g) =>
      GenerateLocal(c, s.name, if s.declaredType.Some? then s.declaredType.value else DefaultType(c.defaultSize, g.valueType), g)
  }

  /** Generate the target, then `value`, and store the value where the target points. */
  function GenerateStore(c: Context, target: Expression, value: Expression): Option<Context> {
    match GenerateExpression(c.variables, c.nextRegister, target)
    case None => None
    case Some(t) =>
      if !t.value.AddressedValue? then None else
      match GenerateExpression(c.variables, t.next, value)
      case None => None
      case Some(g) =>
        match CoerceToRegister(g.valueType, g.value, t.valueType, g.next)
        case None => None
        case Some(f) => Some(Emit(c, t.code + g.code + f.code + [Store(f.register, t.value.pointer)], f.next))
  }

  function GenerateReturn(c: Context, values: seq<Expression>): Option<Context> {
    if |values| != |c.returnTypes| || |values| > 1 then None
    else if values == [] then Some(Emit(c, [Return(None)], c.nextRegister))
    else
      match GenerateExpression(c.variables, c.nextRegister, values[0])
      case None => None
      case Some(g) =>
        match CoerceToRegister(g.valueType, g.value, c.returnTypes[0], g.next)
        case None => None
        case Some(f) => Some(Emit(c, g.code + f.code + [Return(Some(f.register))], f.next))
  }

  /** Evaluate a boolean condition and branch on it. */
  function GenerateCondition(c: Context, condition: Expression, trueTarget: Label, falseTarget: Label): Option<Context> {
    match GenerateExpression(c.variables, c.nextRegister, condition)
    case None => None
    case Some(g) =>
      if !g.valueType.BooleanType? then None else
      var f := InRegister(IRBoolean, g.value, g.next);
      Some(Emit(c, g.code + f.code + [Branch(f.register, trueTarget, falseTarget)], f.next))
  }

  /** The loop's limit register and index variable, once they have been set up. */
  datatype Loop = Loop(context: Context, indexType: Integer, limit: Register, pointer: Register)

  /** Set a loop up after its bounds have been generated. */
  function SetUp(c: Context, f: Generated, t: Generated): Option<Loop> {
    match IndexType(c.defaultSize, f.valueType, t.valueType)
    case None => None
    case Some(indexType) =>
      match CoerceToRegister(f.valueType, f.value, IntegerType(indexType), t.next)
      case None => None
      case Some(first) =>
        match CoerceToRegister(t.valueType, t.value, IntegerType(indexType), first.next)
        case None => None
        case Some(limit) =>
          var pointer := limit.next;
          var code := f.code + t.code + first.code + limit.code
            + [AllocateLocal(IRInteger(indexType.size), pointer), Store(first.register, pointer)];
          Some(Loop(Emit(c, code, pointer + 1), indexType, limit.register, pointer))
  }

  function GenerateLoopSetup(c: Context, from: Expression, to: Expression): Option<Loop> {
    match GenerateExpression(c.variables, c.nextRegister, from)
    case None => None
    case Some(f) =>
      match GenerateExpression(c.variables, f.next, to)
      case None => None
      case Some(t) => SetUp(c, f, t)
  }

  /** The head of a loop: leave it when the index is past the limit. */
  function LoopHead(c: Context, loop: Loop, body: Label, end: Label): Context {
    var index := c.nextRegister;
    var comparison := if loop.indexType.isSigned then SignedGreaterThan else UnsignedGreaterThan;
    Emit(c, [
      Load(loop.pointer, IRInteger(loop.indexType.size), index),
      IntegerComparison(comparison, index, loop.limit, index + 1),
      Branch(index + 1, end, body)
    ], index + 2)
  }

  /** The tail of a loop: store the index the head loaded plus one. */
  function LoopTail(c: Context, loop: Loop, index: Register): Context {
    var one := c.nextRegister;
    Emit(c, [
      Literal(IRInteger(loop.indexType.size), IntegerConstant(1), one),
      IntegerArithmetic(Add, index, one, one + 1),
      Store(one + 1, loop.pointer)
    ], one + 2)
  }

  function CurrentScope(c: Context): ConstantScope {
    if c.constantScopes == [] then FunctionScope else c.constantScopes[|c.constantScopes| - 1]
  }

  function OpenScope(c: Context, breakTarget: Option<Label>, scope: seq<Named<Variable>>): Context {
    c.(variables := c.variables + [scope],
       constantScopes := c.constantScopes + [ChildScope(CurrentScope(c), c.nextScope)],
       nextScope := c.nextScope + 1,
       breakTarget := breakTarget)
  }

  /** Back to the scopes and the break target of `outer`. */
  function CloseScope(c: Context, outer: Context): Context {
    c.(variables := outer.variables, constantScopes := outer.constantScopes, breakTarget := outer.breakTarget)
  }

  /** The end of a nested list: jump to `target` unless the list has left, and go on in block `next`. */
  function Finish(c: Context, target: Label, next: Label): Context {
    ChangeBlock(JumpIfNeeded(c, target), next)
  }

  /** From before an arm of an if into its body. */
  function EnterArm(c: Context, condition: Expression, next: Label): Option<Context> {
    var body := c.nextLabel;
    match GenerateCondition(c.(nextLabel := body + 1), condition, body, next)
    case None => None
    case Some(c1) => Some(ChangeBlock(c1, body))
  }

  /** A context inside a loop, with the blocks of the loop's head and of what follows it. */
  datatype Entry = Entry(inside: Context, head: Label, end: Label)

  function HeadOf(c: Context): Context {
    EnterNewBlock(c.(nextLabel := c.nextLabel + 2))
  }

  function EntryOf(tested: Option<Context>, head: Context, end: Label): Option<Entry> {
    match tested
    case None => None
    case Some(c) => Some(Entry(ChangeBlock(c, end + 1), head.current, end))
  }

  function EnterWhile(c: Context, condition: Expression): Option<Entry> {
    EntryOf(GenerateCondition(HeadOf(c), condition, c.nextLabel + 1, c.nextLabel), HeadOf(c), c.nextLabel)
  }

  /** What `EnterWhile` does, step by step. */
  lemma EnterWhileSteps(c: Context, condition: Expression) returns (head: Context, tested: Context)
    requires EnterWhile(c, condition).Some?
    ensures head == EnterNewBlock(c.(nextLabel := c.nextLabel + 2))
    ensures GenerateCondition(head, condition, c.nextLabel + 1, c.nextLabel) == Some(tested)
    ensures EnterWhile(c, condition) == Some(Entry(ChangeBlock(tested, c.nextLabel + 1), head.current, c.nextLabel))
  {
    head := EnterNewBlock(c.(nextLabel := c.nextLabel + 2));
    tested := GenerateCondition(head, condition, c.nextLabel + 1, c.nextLabel).value;
  }

  function EnterFor(loop: Loop): Entry {
    var end, body := loop.context.nextLabel, loop.context.nextLabel + 1;
    var head := EnterNewBlock(loop.context.(nextLabel := end + 2));
    Entry(ChangeBlock(LoopHead(head, loop, body, end), body), head.current, end)
  }

  function IndexVariable(s: Statement, loop: Loop): Named<Variable>
    requires s.ForLoop?
  {
    Named(IndexName(s.indexName), Variable(IntegerType(loop.indexType), loop.pointer))
  }

  /** A nested statement list in a scope of its own. */
  function GenerateBody(
    c: Context, statements: seq<Statement>, breakTarget: Option<Label>, scope: seq<Named<Variable>>
  ): Option<Context>
    decreases statements, 1
  {
    match GenerateStatements(OpenScope(c, breakTarget, scope), statements, false)
    case None => None
    case Some(c') => Some(CloseScope(c', c))
  }

  /** One arm of an if: `next` is where a false condition goes, `end` where the arm's end goes. */
  function GenerateArm(c: Context, arm: Arm, next: Label, end: Label): Option<Context>
    decreases arm
  {
    match EnterArm(c, arm.condition, next)
    case None => None
    case Some(inside) =>
      match GenerateBody(inside, arm.statements, c.breakTarget, [])
      case None => None
      case Some(ended) => Some(Finish(ended, end, next))
  }

  /** The arms of an if in order; a false last condition goes to the else if there is one. */
  function GenerateArms(c: Context, arms: seq<Arm>, hasElse: bool, end: Label): Option<Context>
    decreases arms
  {
    if arms == [] then Some(c)
    else if |arms| == 1 && !hasElse then GenerateArm(c, arms[0], end, end)
    else
      match GenerateArm(c.(nextLabel := c.nextLabel + 1), arms[0], c.nextLabel, end)
      case None => None
      case Some(c') => GenerateArms(c', arms[1..], hasElse, end)
  }

  /** Where an arm's false condition goes, and the context in which the arm is generated. */
  function ArmStart(c: Context, isLast: bool, end: Label): (Context, Label) {
    if isLast then (c, end) else (c.(nextLabel := c.nextLabel + 1), c.nextLabel)
  }

  function ArmsAfter(c: Option<Context>, arms: seq<Arm>, hasElse: bool, end: Label): Option<Context> {
    match c
    case None => None
    case Some(c1) => GenerateArms(c1, arms, hasElse, end)
  }

  lemma FirstArm(c: Context, arm: Arm, rest: seq<Arm>, hasElse: bool, end: Label)
    ensures var (c0, next) := ArmStart(c, rest == [] && !hasElse, end);
            GenerateArms(c, [arm] + rest, hasElse, end) == ArmsAfter(GenerateArm(c0, arm, next, end), rest, hasElse, end)
  {
    assert ([arm] + rest)[0] == arm && ([arm] + rest)[1..] == rest;
  }

  function GenerateIf(c: Context, s: Statement): Option<Context>
    requires s.IfStatement?
    decreases s, 0
  {
    var end := c.nextLabel;
    if s.arms == [] then None else
    match GenerateArms(c.(nextLabel := end + 1), s.arms, s.elseStatements != [], end)
    case None => None
    case Some(c1) =>
      if s.elseStatements == [] then Some(c1) else
      match GenerateBody(c1, s.elseStatements, c.breakTarget, [])
      case None => None
      case Some(ended) => Some(Finish(ended, end, end))
  }

  function GenerateWhile(c: Context, condition: Expression, statements: seq<Statement>): Option<Context>
    decreases statements, 2
  {
    match EnterWhile(c, condition)
    case None => None
    case Some(entry) =>
      match GenerateBody(entry.inside, statements, Some(entry.end), [])
      case None => None
      case Some(ended) => Some(Finish(ended, entry.head, entry.end))
  }

  /** How a while loop goes on after it has been entered. */
  lemma AfterEntry(c: Context, condition: Expression, statements: seq<Statement>, entry: Entry)
    requires EnterWhile(c, condition) == Some(entry)
    ensures var ended := GenerateBody(entry.inside, statements, Some(entry.end), []);
            GenerateWhile(c, condition, statements) == if ended.None? then None else Some(Finish(ended.value, entry.head, entry.end))
  {
  }

  /** The index the head loaded is in the first register the head allocated. */
  function GenerateFor(c: Context, s: Statement): Option<Context>
    requires s.ForLoop?
    decreases s, 0
  {
    match GenerateLoopSetup(c, s.from, s.to)
    case None => None
    case Some(loop) =>
      var entry := EnterFor(loop);
      match GenerateBody(entry.inside, s.statements, Some(entry.end), [IndexVariable(s, loop)])
      case None => None
      case Some(ended) => Some(Finish(LoopTail(ended, loop, loop.context.nextRegister), entry.head, entry.end))
  }

  function GenerateStatement(c: Context, s: Statement): Option<Context>
    decreases s, 1
  {
    match s
    case ExpressionStatement(e) =>
      (match GenerateExpression(c.variables, c.nextRegister, e)
       case None => None
       case Some(g) => Some(Emit(c, g.code, g.next)))
    case VariableDeclaration(_, _, _) => GenerateVariableDeclaration(c, s)
    case Assignment(target, value) => GenerateStore(c, target, value)
    case BinaryOperationAssignment(target, operator, value) =>
      GenerateStore(c, target, BinaryOperation(operator, target, value))
    case IfStatement(_, _) => GenerateIf(c, s)
    case WhileLoop(condition, statements) => GenerateWhile(c, condition, statements)
    case ForLoop(_, _, _, _) => GenerateFor(c, s)
    case ReturnStatement(values) => GenerateReturn(c, values)
    case BreakStatement => if c.breakTarget.None? then None else Some(Emit(c, [Jump(c.breakTarget.value)], c.nextRegister))
    case Declaration => Some(c)
  }

  predicate Leaves(s: Statement) {
    s.ReturnStatement? || s.BreakStatement?
  }

  /** Nothing that runs may follow a return or a break in a list. */
  function GenerateStatements(c: Context, statements: seq<Statement>, unreachable: bool): Option<Context>
    decreases statements, 0
  {
    if statements == [] then Some(c)
    else if statements[0].Declaration? then GenerateStatements(c, statements[1..], unreachable)
    else if unreachable then None
    else
      match GenerateStatement(c, statements[0])
      case None => None
      case Some(c') => GenerateStatements(c', statements[1..], Leaves(statements[0]))
  }

  // ----- Functions -----

  /** Parameter `index` arrives in register `index` and is copied to a local. A repeated name is
      reported, but generation goes on with the first parameter of that name. */
  function GenerateParameters(c: Context, parameters: seq<Parameter>, index: Register): Context
    requires forall p :: p in parameters ==> IsRuntimeType(p.parameterType)
    decreases parameters
  {
    if parameters == [] then c else
    var t := parameters[0].parameterType;
    var pointer := c.nextRegister;
    var c' := Emit(c, [AllocateLocal(IRTypeOf(t), pointer), Store(index, pointer)], pointer + 1);
    var added := AddNewVariable(c', parameters[0].name, Variable(t, pointer));
    GenerateParameters(if added.Some? then added.value else c', parameters[1..], index + 1)
  }

  predicate HasRuntimeSignature(f: Function) {
    (forall p :: p in f.parameters ==> IsRuntimeType(p.parameterType)) &&
    |f.returnTypes| <= 1 && forall t :: t in f.returnTypes ==> IsRuntimeType(t)
  }

  function InitialContext(f: Function, defaultSize: RegisterSize): Context {
    Context(f.returnTypes, defaultSize, None, [[]], [FunctionScope], 0, [], 0, [], |f.parameters|, 1)
  }

  /** A function without return values may end without a return; one is added. */
  function GenerateFunction(f: Function, defaultSize: RegisterSize): Option<seq<Block>> {
    if !HasRuntimeSignature(f) then None else
    var start := GenerateParameters(InitialContext(f, defaultSize), f.parameters, 0);
    match GenerateStatements(start, f.statements, false)
    case None => None
    case Some(c) =>
      var hasReturnAtEnd := f.statements != [] && f.statements[|f.statements| - 1].ReturnStatement?;
      if hasReturnAtEnd then Some(c.blocks + [Block(c.current, c.instructions)])
      else if f.returnTypes != [] then None
      else Some(c.blocks + [Block(c.current, c.instructions + [Return(None)])])
  }
}
