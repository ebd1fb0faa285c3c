/** Constant folding as a step of its own: the function in which every constant expression is replaced by
    what it folds to compiles to the same code, and has no unfaithful fold left. */
module FoldedSource {
  import opened Integers
  import opened IntegerLaws
  import opened Options
  import opened Ast
  import opened Hlir
  import opened Source
  import opened Folding
  import opened FoldingProofs
  import opened Lowering

  // ----- Expressions -----

  predicate WellKinded(c: TypedConstant) {
    if c.constantType.BooleanType? then c.constant.BooleanConstant? else IsWord(c.constant)
  }

  lemma {:induction false} FoldIsWellKinded(e: Expression)
    requires Fold(e).Some?
    ensures WellKinded(Fold(e).value)
    decreases e
  {
    match e
    case BinaryOperation(operator, left, right) =>
      FoldIsWellKinded(left);
      FoldIsWellKinded(right);
      BinaryIsWellKinded(operator, Fold(left).value, Fold(right).value);
    case Cast(operand, _) => FoldIsWellKinded(operand);
    case _ =>
  }

  lemma BinaryIsWellKinded(operator: BinaryOperator, left: TypedConstant, right: TypedConstant)
    requires WellKinded(left) && WellKinded(right) && FoldBinary(operator, left, right).Some?
    ensures WellKinded(FoldBinary(operator, left, right).value)
  {
    var t := BinaryType(left.constantType, right.constantType);
    if !t.BooleanType? {
      IntegersAreWellKinded(operator, t.UndeterminedInteger? || t.integer.isSigned, left.constant.integer, right.constant.integer);
    }
  }

  lemma IntegersAreWellKinded(operator: BinaryOperator, isSigned: bool, left: Word, right: Word)
    requires FoldIntegers(operator, isSigned, left, right).Some?
    ensures var c := FoldIntegers(operator, isSigned, left, right).value; c.BooleanConstant? || IsWord(c)
  {
    BitsAreWords(left, right);
    if right > 0 {
      FloorShrinks(left, right);
    }
  }

  /** A literal of a constant's type: for an integer of a given type a conversion, which keeps the word. */
  function AsLiteral(c: TypedConstant): Expression
    requires WellKinded(c)
  {
    match c.constantType
    case BooleanType => BooleanLiteral(c.constant.boolean)
    case UndeterminedInteger => IntegerLiteral(c.constant.integer)
    case IntegerType(_) => Cast(IntegerLiteral(c.constant.integer), c.constantType)
  }

  function FoldConstants(e: Expression): Expression
    decreases e
  {
    if Fold(e).Some? then
      FoldIsWellKinded(e);
      AsLiteral(Fold(e).value)
    else
      match e
      case BinaryOperation(operator, left, right) => BinaryOperation(operator, FoldConstants(left), FoldConstants(right))
      case Negation(operand) => Negation(FoldConstants(operand))
      case BooleanInvert(operand) => BooleanInvert(FoldConstants(operand))
      case Cast(operand, target) => Cast(FoldConstants(operand), target)
      case _ => e
  }

  /** The generated constant of a folded expression. */
  function Loaded(next: Register, c: TypedConstant): Generated {
    Generated([], next, c.constantType, ConstantValue(c.constant))
  }

  /** What folds is generated as that constant, without code. */
  lemma {:induction false} FoldIsGenerated(variables: Stack<Variable>, next: Register, e: Expression)
    requires Fold(e).Some?
    ensures GenerateExpression(variables, next, e) == Some(Loaded(next, Fold(e).value))
    decreases e
  {
    match e
    case IntegerLiteral(_) =>
    case BooleanLiteral(_) =>
    case NamedReference(_) =>
    case BinaryOperation(_, left, right) =>
      FoldIsGenerated(variables, next, left);
      FoldIsGenerated(variables, next, right);
    case Negation(operand) => FoldIsGenerated(variables, next, operand);
    case BooleanInvert(operand) => FoldIsGenerated(variables, next, operand);
    case Cast(operand, _) => FoldIsGenerated(variables, next, operand);
  }

  lemma LiteralFolds(c: TypedConstant)
    requires WellKinded(c)
    ensures Fold(AsLiteral(c)) == Some(c) && Faithful(AsLiteral(c))
  {
    if c.constantType.IntegerType? {
      assert Fold(IntegerLiteral(c.constant.integer)) == Some(TypedConstant(UndeterminedInteger, IntegerConstant(c.constant.integer)));
    }
  }

  /** Folding constants first changes nothing of what is generated, and what was generated has no
      unfaithful fold afterwards. */
  lemma {:induction false} ExpressionUnchanged(variables: Stack<Variable>, next: Register, e: Expression)
    ensures GenerateExpression(variables, next, FoldConstants(e)) == GenerateExpression(variables, next, e)
    ensures Fold(FoldConstants(e)) == Fold(e)
    ensures GenerateExpression(variables, next, e).Some? ==> Faithful(FoldConstants(e))
    decreases e, 1
  {
    if Fold(e).Some? {
      FoldIsWellKinded(e);
      LiteralFolds(Fold(e).value);
      FoldIsGenerated(variables, next, e);
      FoldIsGenerated(variables, next, FoldConstants(e));
    } else {
      match e
      case BinaryOperation(_, _, _) => OperandsUnchanged(variables, next, e);
      case Negation(operand) => OperandUnchanged(variables, next, operand);
      case BooleanInvert(operand) => OperandUnchanged(variables, next, operand);
      case Cast(operand, _) => OperandUnchanged(variables, next, operand);
      case _ =>
    }
  }

  lemma {:induction false} OperandUnchanged(variables: Stack<Variable>, next: Register, operand: Expression)
    ensures GenerateExpression(variables, next, FoldConstants(operand)) == GenerateExpression(variables, next, operand)
    ensures Fold(FoldConstants(operand)) == Fold(operand)
    ensures GenerateExpression(variables, next, operand).Some? ==> Faithful(FoldConstants(operand))
    ensures Fold(operand).Some? ==> GenerateExpression(variables, next, operand) == Some(Loaded(next, Fold(operand).value))
    decreases operand, 2
  {
    ExpressionUnchanged(variables, next, operand);
    if Fold(operand).Some? {
      FoldIsGenerated(variables, next, operand);
    }
  }

  lemma {:induction false} OperandsUnchanged(variables: Stack<Variable>, next: Register, e: Expression)
    requires e.BinaryOperation? && Fold(e).None?
    ensures GenerateExpression(variables, next, FoldConstants(e)) == GenerateExpression(variables, next, e)
    ensures Fold(FoldConstants(e)) == Fold(e)
    ensures GenerateExpression(variables, next, e).Some? ==> Faithful(FoldConstants(e))
    decreases e, 0
  {
    OperandUnchanged(variables, next, e.left);
    var l := GenerateExpression(variables, next, e.left);
    OperandUnchanged(variables, if l.Some? then l.value.next else next, e.right);
  }

  /** A folded constant expression has the value of the 64-bit constant cut down to its type. */
  lemma FoldedMeansConstant(store: Store, e: Expression)
    requires Fold(e).Some?
    ensures Means(Fold(e).value, Evaluate(store, FoldConstants(e)))
  {
    FoldIsWellKinded(e);
    LiteralFolds(Fold(e).value);
    FoldAgrees(store, FoldConstants(e));
  }

  /** Folding a constant expression whose parts are faithful keeps its meaning exactly if its own fold is faithful. */
  lemma FoldingKeepsMeaningExactly(store: Store, e: Expression)
    requires Fold(e).Some? && FaithfulParts(e)
    ensures Evaluate(store, FoldConstants(e)) == Evaluate(store, e) <==> Faithful(e)
  {
    FoldedMeansConstant(store, e);
    FoldsRightExactly(store, e);
  }

  // ----- Statements -----

  function FoldValues(values: seq<Expression>): seq<Expression> {
    seq(|values|, i requires 0 <= i < |values| => FoldConstants(values[i]))
  }

  /** The target of an assignment is a variable if the statement compiles, and stays as it is. */
  function FoldStatement(s: Statement): Statement
    decreases s
  {
    match s
    case ExpressionStatement(e) => ExpressionStatement(FoldConstants(e))
    case VariableDeclaration(name, declaredType, initializer) =>
      VariableDeclaration(name, declaredType, if initializer.Some? then Some(FoldConstants(initializer.value)) else None)
    case Assignment(target, value) => Assignment(target, FoldConstants(value))
    case BinaryOperationAssignment(target, operator, value) => BinaryOperationAssignment(target, operator, FoldConstants(value))
    case IfStatement(arms, elseStatements) => IfStatement(FoldArms(arms), FoldStatements(elseStatements))
    case WhileLoop(condition, statements) => WhileLoop(FoldConstants(condition), FoldStatements(statements))
    case ForLoop(name, from, to, statements) => ForLoop(name, FoldConstants(from), FoldConstants(to), FoldStatements(statements))
    case ReturnStatement(values) => ReturnStatement(FoldValues(values))
    case _ => s
  }

  function FoldArms(arms: seq<Arm>): (folded: seq<Arm>)
    ensures |folded| == |arms|
    decreases arms
  {
    if arms == [] then [] else
    [Arm(FoldConstants(arms[0].condition), FoldStatements(arms[0].statements))] + FoldArms(arms[1..])
  }

  function FoldStatements(statements: seq<Statement>): (folded: seq<Statement>)
    ensures |folded| == |statements|
    decreases statements
  {
    if statements == [] then [] else [FoldStatement(statements[0])] + FoldStatements(statements[1..])
  }

  function FoldFunction(f: Function): Function {
    f.(statements := FoldStatements(f.statements))
  }

  /** What one statement or list generates is the same, and if there is anything its folds are faithful. */
  predicate Unchanged<T(==)>(folded: Option<T>, original: Option<T>, faithful: bool) {
    folded == original && (original.Some? ==> faithful)
  }

  lemma DeclarationUnchanged(c: Context, s: Statement)
    requires s.VariableDeclaration?
    ensures Unchanged(GenerateVariableDeclaration(c, FoldStatement(s)), GenerateVariableDeclaration(c, s), FaithfulStatement(FoldStatement(s)))
  {
    if s.initializer.Some? {
      ExpressionUnchanged(c.variables, c.nextRegister, s.initializer.value);
    }
  }

  /** Only a variable can be stored to. */
  lemma StoreUnchanged(c: Context, target: Expression, value: Expression, value': Expression)
    requires forall next: Register :: GenerateExpression(c.variables, next, value') == GenerateExpression(c.variables, next, value)
    requires forall next: Register :: GenerateExpression(c.variables, next, value).Some? && target.NamedReference? ==> Faithful(value')
    ensures Unchanged(GenerateStore(c, target, value'), GenerateStore(c, target, value), Faithful(value'))
  {
    OnlyVariablesAreAddressed(c.variables, c.nextRegister, target);
  }

  lemma OnlyVariablesAreAddressed(variables: Stack<Variable>, next: Register, e: Expression)
    ensures var g := GenerateExpression(variables, next, e); g.Some? && g.value.value.AddressedValue? ==> e.NamedReference?
  {
  }

  lemma AssignmentUnchanged(c: Context, target: Expression, value: Expression)
    ensures Unchanged(GenerateStore(c, target, FoldConstants(value)), GenerateStore(c, target, value), Faithful(FoldConstants(value)))
  {
    forall next: Register
      ensures GenerateExpression(c.variables, next, FoldConstants(value)) == GenerateExpression(c.variables, next, value)
      ensures GenerateExpression(c.variables, next, value).Some? ==> Faithful(FoldConstants(value))
    {
      ExpressionUnchanged(c.variables, next, value);
    }
    StoreUnchanged(c, target, value, FoldConstants(value));
  }

  lemma OperationAssignmentUnchanged(c: Context, target: Expression, operator: BinaryOperator, value: Expression)
    ensures var whole, whole' := BinaryOperation(operator, target, value), BinaryOperation(operator, target, FoldConstants(value));
            Unchanged(GenerateStore(c, target, whole'), GenerateStore(c, target, whole), Faithful(whole'))
  {
    var whole, whole' := BinaryOperation(operator, target, value), BinaryOperation(operator, target, FoldConstants(value));
    forall next: Register
      ensures GenerateExpression(c.variables, next, whole') == GenerateExpression(c.variables, next, whole)
      ensures GenerateExpression(c.variables, next, whole).Some? && target.NamedReference? ==> Faithful(whole')
    {
      var t := GenerateExpression(c.variables, next, target);
      ExpressionUnchanged(c.variables, if t.Some? then t.value.next else next, value);
    }
    StoreUnchanged(c, target, whole, whole');
  }

  lemma ReturnUnchanged(c: Context, values: seq<Expression>)
    ensures Unchanged(GenerateReturn(c, FoldValues(values)), GenerateReturn(c, values), FaithfulStatement(ReturnStatement(FoldValues(values))))
  {
    if |values| == 1 {
      ExpressionUnchanged(c.variables, c.nextRegister, values[0]);
    }
  }

  lemma SetupUnchanged(c: Context, from: Expression, to: Expression)
    ensures Unchanged(GenerateLoopSetup(c, FoldConstants(from), FoldConstants(to)), GenerateLoopSetup(c, from, to),
                      Faithful(FoldConstants(from)) && Faithful(FoldConstants(to)))
  {
    ExpressionUnchanged(c.variables, c.nextRegister, from);
    var f := GenerateExpression(c.variables, c.nextRegister, from);
    if f.Some? {
      ExpressionUnchanged(c.variables, f.value.next, to);
    }
  }

  lemma ConditionUnchanged(c: Context, condition: Expression, trueTarget: Label, falseTarget: Label)
    ensures Unchanged(GenerateCondition(c, FoldConstants(condition), trueTarget, falseTarget), GenerateCondition(c, condition, trueTarget, falseTarget),
                      Faithful(FoldConstants(condition)))
  {
    ExpressionUnchanged(c.variables, c.nextRegister, condition);
  }

  lemma {:induction false} BodyUnchanged(c: Context, statements: seq<Statement>, breakTarget: Option<Label>, scope: seq<Named<Variable>>)
    ensures Unchanged(GenerateBody(c, FoldStatements(statements), breakTarget, scope), GenerateBody(c, statements, breakTarget, scope),
                      FaithfulStatements(FoldStatements(statements)))
    decreases statements, 1
  {
    StatementsUnchanged(OpenScope(c, breakTarget, scope), statements, false);
  }

  predicate FaithfulArm(arm: Arm) {
    Faithful(arm.condition) && FaithfulStatements(arm.statements)
  }

  lemma {:induction false} ArmUnchanged(c: Context, arm: Arm, next: Label, end: Label)
    ensures var arm' := Arm(FoldConstants(arm.condition), FoldStatements(arm.statements));
            Unchanged(GenerateArm(c, arm', next, end), GenerateArm(c, arm, next, end), FaithfulArm(arm'))
    decreases arm
  {
    ConditionUnchanged(c.(nextLabel := c.nextLabel + 1), arm.condition, c.nextLabel, next);
    var inside := EnterArm(c, arm.condition, next);
    if inside.Some? {
      BodyUnchanged(inside.value, arm.statements, c.breakTarget, []);
    }
  }

  predicate AllFaithful(arms: seq<Arm>) {
    forall a :: a in arms ==> FaithfulArm(a)
  }

  lemma {:induction false} ArmsUnchanged(c: Context, arms: seq<Arm>, hasElse: bool, end: Label)
    ensures Unchanged(GenerateArms(c, FoldArms(arms), hasElse, end), GenerateArms(c, arms, hasElse, end), AllFaithful(FoldArms(arms)))
    decreases arms
  {
    if arms != [] {
      var folded := FoldArms(arms);
      assert folded[1..] == FoldArms(arms[1..]);
      assert forall a :: a in folded ==> a == folded[0] || a in folded[1..];
      var (start, next) := ArmStart(c, arms[1..] == [] && !hasElse, end);
      ArmUnchanged(start, arms[0], next, end);
      FirstArm(c, arms[0], arms[1..], hasElse, end);
      FirstArm(c, folded[0], folded[1..], hasElse, end);
      assert arms == [arms[0]] + arms[1..] && folded == [folded[0]] + folded[1..];
      var c1 := GenerateArm(start, arms[0], next, end);
      if c1.Some? {
        ArmsUnchanged(c1.value, arms[1..], hasElse, end);
      }
    }
  }

  lemma {:induction false} IfUnchanged(c: Context, arms: seq<Arm>, elseStatements: seq<Statement>)
    ensures Unchanged(GenerateIf(c, IfStatement(FoldArms(arms), FoldStatements(elseStatements))), GenerateIf(c, IfStatement(arms, elseStatements)),
                      AllFaithful(FoldArms(arms)) && FaithfulStatements(FoldStatements(elseStatements)))
    decreases IfStatement(arms, elseStatements), 0
  {
    var c0, hasElse := c.(nextLabel := c.nextLabel + 1), elseStatements != [];
    ArmsUnchanged(c0, arms, hasElse, c.nextLabel);
    var c1 := GenerateArms(c0, arms, hasElse, c.nextLabel);
    if c1.Some? && hasElse {
      BodyUnchanged(c1.value, elseStatements, c.breakTarget, []);
    }
  }

  lemma EntryUnchanged(c: Context, condition: Expression)
    ensures EnterWhile(c, FoldConstants(condition)) == EnterWhile(c, condition)
    ensures EnterWhile(c, condition).Some? ==> Faithful(FoldConstants(condition))
  {
    var head, end := HeadOf(c), c.nextLabel;
    ConditionUnchanged(head, condition, end + 1, end);
    var tested := GenerateCondition(head, condition, end + 1, end);
    assert EnterWhile(c, condition) == EntryOf(tested, head, end);
  }

  lemma {:induction false} WhileUnchanged(c: Context, condition: Expression, statements: seq<Statement>)
    ensures Unchanged(GenerateWhile(c, FoldConstants(condition), FoldStatements(statements)), GenerateWhile(c, condition, statements),
                      Faithful(FoldConstants(condition)) && FaithfulStatements(FoldStatements(statements)))
    decreases statements, 3
  {
    EntryUnchanged(c, condition);
    var entry := EnterWhile(c, condition);
    if entry.Some? {
      AfterEntry(c, condition, statements, entry.value);
      AfterEntry(c, FoldConstants(condition), FoldStatements(statements), entry.value);
      BodyUnchanged(entry.value.inside, statements, Some(entry.value.end), []);
    }
  }

  lemma {:induction false} ForUnchanged(c: Context, s: Statement)
    requires s.ForLoop?
    ensures Unchanged(GenerateFor(c, FoldStatement(s)), GenerateFor(c, s),
                      Faithful(FoldConstants(s.from)) && Faithful(FoldConstants(s.to)) && FaithfulStatements(FoldStatements(s.statements)))
    decreases s, 0
  {
    SetupUnchanged(c, s.from, s.to);
    var loop := GenerateLoopSetup(c, s.from, s.to);
    if loop.Some? {
      var entry := EnterFor(loop.value);
      BodyUnchanged(entry.inside, s.statements, Some(entry.end), [IndexVariable(s, loop.value)]);
    }
  }

  lemma {:induction false} StatementUnchanged(c: Context, s: Statement)
    ensures Unchanged(GenerateStatement(c, FoldStatement(s)), GenerateStatement(c, s), FaithfulStatement(FoldStatement(s)))
    decreases s, 1
  {
    match s
    case ExpressionStatement(e) => ExpressionUnchanged(c.variables, c.nextRegister, e);
    case VariableDeclaration(_, _, _) => DeclarationUnchanged(c, s);
    case Assignment(target, value) => AssignmentUnchanged(c, target, value);
    case BinaryOperationAssignment(target, operator, value) => OperationAssignmentUnchanged(c, target, operator, value);
    case IfStatement(arms, elseStatements) => IfUnchanged(c, arms, elseStatements);
    case WhileLoop(condition, statements) => WhileUnchanged(c, condition, statements);
    case ForLoop(_, _, _, _) => ForUnchanged(c, s);
    case ReturnStatement(values) => ReturnUnchanged(c, values);
    case BreakStatement =>
    case Declaration =>
  }

  lemma {:induction false} StatementsUnchanged(c: Context, statements: seq<Statement>, unreachable: bool)
    ensures Unchanged(GenerateStatements(c, FoldStatements(statements), unreachable), GenerateStatements(c, statements, unreachable),
                      FaithfulStatements(FoldStatements(statements)))
    decreases statements, 0
  {
    if statements != [] {
      var folded, s, rest := FoldStatements(statements), statements[0], statements[1..];
      assert folded[0] == FoldStatement(s) && folded[1..] == FoldStatements(rest);
      assert forall t :: t in folded ==> t == folded[0] || t in folded[1..];
      assert Leaves(FoldStatement(s)) == Leaves(s) && FoldStatement(s).Declaration? == s.Declaration?;
      if s.Declaration? {
        StatementsUnchanged(c, rest, unreachable);
      } else if !unreachable {
        StatementUnchanged(c, s);
        var next := GenerateStatement(c, s);
        if next.Some? {
          StatementsUnchanged(next.value, rest, Leaves(s));
        }
      }
    }
  }

  // ----- Functions -----

  /** A function compiles to the same blocks whether its constants have been folded before or not; folded
      before, it has no unfaithful fold. */
  lemma FunctionUnchanged(f: Function, defaultSize: RegisterSize)
    ensures GenerateFunction(FoldFunction(f), defaultSize) == GenerateFunction(f, defaultSize)
    ensures GenerateFunction(f, defaultSize).Some? ==> FaithfulStatements(FoldFunction(f).statements)
  {
    if HasRuntimeSignature(f) {
      StatementsUnchanged(GenerateParameters(InitialContext(f, defaultSize), f.parameters, 0), f.statements, false);
      if f.statements != [] {
        LastUnchanged(f.statements);
      }
    }
  }

  lemma {:induction false} LastUnchanged(statements: seq<Statement>)
    requires statements != []
    ensures FoldStatements(statements)[|statements| - 1].ReturnStatement? == statements[|statements| - 1].ReturnStatement?
    decreases statements
  {
    if |statements| > 1 {
      LastUnchanged(statements[1..]);
    }
  }
}
