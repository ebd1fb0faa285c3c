/** A statement list leaves its block open exactly if it does not end in a return or a break. */
module FinisherProofs {
  import opened Options
  import opened Ast
  import opened Hlir
  import opened Source
  import opened Folding
  import opened Lowering

  predicate NoTerminators(code: seq<Instruction>) {
    forall i :: 0 <= i < |code| ==> !IsTerminator(code[i])
  }

  lemma CombineHasNoTerminators(operator: BinaryOperator, left: Generated, right: Generated)
    requires CombineBinary(operator, left, right).Some? && NoTerminators(left.code) && NoTerminators(right.code)
    ensures NoTerminators(CombineBinary(operator, left, right).value.code)
  {
  }

  lemma {:induction false} ExpressionHasNoTerminators(variables: Stack<Variable>, next: Register, e: Expression)
    requires GenerateExpression(variables, next, e).Some?
    ensures NoTerminators(GenerateExpression(variables, next, e).value.code)
    decreases e
  {
    match e
    case IntegerLiteral(_) =>
    case BooleanLiteral(_) =>
    case NamedReference(_) =>
    case BinaryOperation(operator, left, right) =>
      var l := GenerateExpression(variables, next, left).value;
      ExpressionHasNoTerminators(variables, next, left);
      ExpressionHasNoTerminators(variables, l.next, right);
      CombineHasNoTerminators(operator, l, GenerateExpression(variables, l.next, right).value);
    case Negation(operand) => ExpressionHasNoTerminators(variables, next, operand);
    case BooleanInvert(operand) => ExpressionHasNoTerminators(variables, next, operand);
    case Cast(operand, _) => ExpressionHasNoTerminators(variables, next, operand);
  }

  /** After a statement the open block needs a terminator, unless the statement leaves. */
  lemma StatementFinisher(c: Context, s: Statement)
    requires NeedsFinisher(c) && GenerateStatement(c, s).Some?
    ensures NeedsFinisher(GenerateStatement(c, s).value) == !Leaves(s)
  {
    match s
    case ExpressionStatement(e) =>
      ExpressionHasNoTerminators(c.variables, c.nextRegister, e);
    case IfStatement(arms, elseStatements) =>
      if elseStatements == [] {
        ArmsEndOpen(c.(nextLabel := c.nextLabel + 1), arms, false, c.nextLabel);
      }
    case _ =>
  }

  /** After the arms of an if the open block is new: the end block if there is no else. */
  lemma {:induction false} ArmsEndOpen(c: Context, arms: seq<Arm>, hasElse: bool, end: Label)
    requires arms != [] && GenerateArms(c, arms, hasElse, end).Some?
    ensures var c' := GenerateArms(c, arms, hasElse, end).value;
            c'.instructions == [] && (!hasElse ==> c'.current == end)
    decreases arms
  {
    if |arms| > 1 || hasElse {
      var c1 := GenerateArm(c.(nextLabel := c.nextLabel + 1), arms[0], c.nextLabel, end).value;
      if |arms| > 1 {
        ArmsEndOpen(c1, arms[1..], hasElse, end);
      } else {
        assert arms[1..] == [];
      }
    }
  }

  /** Does a list end in a return or a break, declarations aside? */
  predicate EndsAway(statements: seq<Statement>, unreachable: bool) {
    if statements == [] then unreachable
    else if statements[0].Declaration? then EndsAway(statements[1..], unreachable)
    else EndsAway(statements[1..], Leaves(statements[0]))
  }

  /** The assertion at the start of every statement: the open block still needs a terminator. */
  lemma {:induction false} StatementsFinisher(c: Context, statements: seq<Statement>, unreachable: bool)
    requires NeedsFinisher(c) == !unreachable && GenerateStatements(c, statements, unreachable).Some?
    ensures NeedsFinisher(GenerateStatements(c, statements, unreachable).value) == !EndsAway(statements, unreachable)
    decreases statements
  {
    if statements == [] {
    } else if statements[0].Declaration? {
      StatementsFinisher(c, statements[1..], unreachable);
    } else {
      StatementFinisher(c, statements[0]);
      StatementsFinisher(GenerateStatement(c, statements[0]).value, statements[1..], Leaves(statements[0]));
    }
  }

  /** A list that ends away never finishes normally. */
  lemma {:induction false} AwayIsNotNormal(p: Signature, store: Store, statements: seq<Statement>, fuel: nat)
    requires EndsAway(statements, false)
    ensures !ExecuteStatements(p, store, statements, fuel).Normal?
    decreases statements
  {
    if statements != [] && !Leaves(statements[0]) {
      var first := ExecuteStatement(p, store, statements[0], fuel);
      if first.Normal? {
        AwayIsNotNormal(p, first.store, statements[1..], fuel);
      }
    }
  }
}
