/** Every block ends in a terminator; it is the block's only one except in two kinds of dead tail. */
module Terminators {
  import opened Integers
  import opened Options
  import opened Ast
  import opened Hlir
  import opened Source
  import opened Folding
  import opened Lowering
  import opened FinisherProofs
  import opened ControlFlow

  predicate Ended(code: seq<Instruction>) {
    code != [] && IsTerminator(code[|code| - 1])
  }

  /** Ended, and nothing before the last instruction is a terminator. */
  predicate EndedOnce(code: seq<Instruction>) {
    Ended(code) && NoTerminators(code[..|code| - 1])
  }

  /** A terminator, if there is one, is the last instruction. */
  predicate TerminatorLast(code: seq<Instruction>) {
    code == [] || NoTerminators(code[..|code| - 1])
  }

  predicate AllEnded(blocks: seq<Block>) {
    forall b :: b in blocks ==> Ended(b.instructions)
  }

  predicate AllEndedOnce(blocks: seq<Block>) {
    forall b :: b in blocks ==> EndedOnce(b.instructions)
  }

  /** A for loop whose body ends away: its increment is appended behind a terminator. */
  predicate DeadTail(s: Statement)
    decreases s, 0
  {
    match s
    case IfStatement(arms, elseStatements) => (exists a :: a in arms && DeadTails(a.statements)) || DeadTails(elseStatements)
    case WhileLoop(_, statements) => DeadTails(statements)
    case ForLoop(_, _, _, statements) => EndsAway(statements, false) || DeadTails(statements)
    case _ => false
  }

  predicate DeadTails(statements: seq<Statement>)
    decreases statements, 1
  {
    exists s :: s in statements && DeadTail(s)
  }

  /** The blocks closed between `c` and `c'` are ended, and ended once unless some have a dead tail. */
  ghost predicate Closes(c: Context, c': Context, dead: bool) {
    (AllEnded(c.blocks) ==> AllEnded(c'.blocks)) && (AllEndedOnce(c'.blocks) <==> AllEndedOnce(c.blocks) && !dead)
  }

  lemma ChangeBlockCloses(c: Context, id: Label)
    requires Ended(c.instructions)
    ensures Closes(c, ChangeBlock(c, id), !EndedOnce(c.instructions))
  {
    var last := Block(c.current, c.instructions);
    var blocks := c.blocks + [last];
    assert last in blocks;
    assert forall b :: b in blocks <==> b in c.blocks || b == last;
  }

  lemma FinishCloses(c: Context, target: Label, next: Label)
    requires TerminatorLast(c.instructions)
    ensures Closes(c, Finish(c, target, next), false)
  {
    ChangeBlockCloses(JumpIfNeeded(c, target), next);
  }

  lemma EnterNewBlockCloses(c: Context)
    requires NoTerminators(c.instructions)
    ensures Closes(c, EnterNewBlock(c), false) && EnterNewBlock(c).instructions == []
  {
    if c.instructions != [] {
      ChangeBlockCloses(JumpIfNeeded(c, c.nextLabel), c.nextLabel);
    }
  }

  lemma ConditionCloses(c: Context, condition: Expression, trueTarget: Label, falseTarget: Label, body: Label)
    requires NoTerminators(c.instructions) && GenerateCondition(c, condition, trueTarget, falseTarget).Some?
    ensures var c1 := GenerateCondition(c, condition, trueTarget, falseTarget).value;
            Closes(c, ChangeBlock(c1, body), false)
  {
    ExpressionHasNoTerminators(c.variables, c.nextRegister, condition);
    ChangeBlockCloses(GenerateCondition(c, condition, trueTarget, falseTarget).value, body);
  }

  lemma EnterArmCloses(c: Context, condition: Expression, next: Label)
    requires NoTerminators(c.instructions) && EnterArm(c, condition, next).Some?
    ensures Closes(c, EnterArm(c, condition, next).value, false)
  {
    ConditionCloses(c.(nextLabel := c.nextLabel + 1), condition, c.nextLabel, next, c.nextLabel);
  }

  lemma HeadCloses(c: Context, head: Context)
    requires NoTerminators(c.instructions) && head == EnterNewBlock(c.(nextLabel := c.nextLabel + 2))
    ensures Closes(c, head, false) && head.instructions == []
  {
    EnterNewBlockCloses(c.(nextLabel := c.nextLabel + 2));
  }

  lemma EnterWhileCloses(c: Context, condition: Expression, inside: Context)
    requires NoTerminators(c.instructions) && EnterWhile(c, condition).Some? && inside == EnterWhile(c, condition).value.inside
    ensures Closes(c, inside, false)
  {
    var head, tested := EnterWhileSteps(c, condition);
    HeadCloses(c, head);
    ConditionCloses(head, condition, c.nextLabel + 1, c.nextLabel, c.nextLabel + 1);
  }

  lemma EnterForCloses(loop: Loop)
    requires NoTerminators(loop.context.instructions)
    ensures Closes(loop.context, EnterFor(loop).inside, false)
  {
    var end, body := loop.context.nextLabel, loop.context.nextLabel + 1;
    var entered := loop.context.(nextLabel := end + 2);
    EnterNewBlockCloses(entered);
    ChangeBlockCloses(LoopHead(EnterNewBlock(entered), loop, body, end), body);
  }

  lemma SetupHasNoTerminators(c: Context, from: Expression, to: Expression)
    requires NoTerminators(c.instructions) && GenerateLoopSetup(c, from, to).Some?
    ensures var c' := GenerateLoopSetup(c, from, to).value.context;
            NoTerminators(c'.instructions) && c'.blocks == c.blocks
  {
    ExpressionHasNoTerminators(c.variables, c.nextRegister, from);
    ExpressionHasNoTerminators(c.variables, GenerateExpression(c.variables, c.nextRegister, from).value.next, to);
  }

  /** The increment and the jump back come after whatever the body ended with. */
  lemma LoopTailCloses(ended: Context, loop: Loop, index: Register, target: Label, next: Label)
    requires TerminatorLast(ended.instructions)
    ensures Closes(ended, Finish(LoopTail(ended, loop, index), target, next), !NeedsFinisher(ended))
  {
    var tail := LoopTail(ended, loop, index);
    var closed := JumpIfNeeded(tail, target);
    var n := |ended.instructions|;
    assert closed.instructions == tail.instructions + [Jump(target)];
    ChangeBlockCloses(closed, next);
    if !NeedsFinisher(ended) {
      assert closed.instructions[..|closed.instructions| - 1][n - 1] == ended.instructions[n - 1];
    }
  }

  lemma {:induction false} BodyCloses(c: Context, statements: seq<Statement>, breakTarget: Option<Label>, scope: seq<Named<Variable>>)
    requires c.instructions == [] && GenerateBody(c, statements, breakTarget, scope).Some?
    ensures var c' := GenerateBody(c, statements, breakTarget, scope).value;
            Closes(c, c', DeadTails(statements)) && TerminatorLast(c'.instructions) && NeedsFinisher(c') == !EndsAway(statements, false)
    decreases statements, 1
  {
    StatementsClose(OpenScope(c, breakTarget, scope), statements, false);
    StatementsFinisher(OpenScope(c, breakTarget, scope), statements, false);
  }

  lemma {:induction false} ArmCloses(c: Context, arm: Arm, next: Label, end: Label)
    requires NoTerminators(c.instructions) && GenerateArm(c, arm, next, end).Some?
    ensures Closes(c, GenerateArm(c, arm, next, end).value, DeadTails(arm.statements))
    decreases arm
  {
    EnterArmCloses(c, arm.condition, next);
    var inside := EnterArm(c, arm.condition, next).value;
    BodyCloses(inside, arm.statements, c.breakTarget, []);
    FinishCloses(GenerateBody(inside, arm.statements, c.breakTarget, []).value, end, next);
  }

  predicate ArmsDead(arms: seq<Arm>) {
    exists a :: a in arms && DeadTails(a.statements)
  }

  lemma {:induction false} ArmsClose(c: Context, arms: seq<Arm>, hasElse: bool, end: Label)
    requires NoTerminators(c.instructions) && GenerateArms(c, arms, hasElse, end).Some?
    ensures Closes(c, GenerateArms(c, arms, hasElse, end).value, ArmsDead(arms))
    decreases arms
  {
    if arms == [] {
    } else if |arms| == 1 && !hasElse {
      ArmCloses(c, arms[0], end, end);
      assert forall a :: a in arms <==> a == arms[0];
    } else {
      var c0 := c.(nextLabel := c.nextLabel + 1);
      ArmCloses(c0, arms[0], c.nextLabel, end);
      ArmsClose(GenerateArm(c0, arms[0], c.nextLabel, end).value, arms[1..], hasElse, end);
      assert forall a :: a in arms <==> a == arms[0] || a in arms[1..];
    }
  }

  lemma {:induction false} IfCloses(c: Context, s: Statement)
    requires s.IfStatement? && NoTerminators(c.instructions) && GenerateIf(c, s).Some?
    ensures Closes(c, GenerateIf(c, s).value, DeadTail(s))
    decreases s, 0
  {
    var end, hasElse := c.nextLabel, s.elseStatements != [];
    var c0 := c.(nextLabel := end + 1);
    ArmsClose(c0, s.arms, hasElse, end);
    assert DeadTail(s) == (ArmsDead(s.arms) || DeadTails(s.elseStatements));
    if hasElse {
      ArmsEndOpen(c0, s.arms, true, end);
      var c1 := GenerateArms(c0, s.arms, true, end).value;
      BodyCloses(c1, s.elseStatements, c.breakTarget, []);
      FinishCloses(GenerateBody(c1, s.elseStatements, c.breakTarget, []).value, end, end);
    }
  }

  lemma {:induction false} WhileCloses(c: Context, condition: Expression, statements: seq<Statement>)
    requires NoTerminators(c.instructions) && GenerateWhile(c, condition, statements).Some?
    ensures Closes(c, GenerateWhile(c, condition, statements).value, DeadTails(statements))
    decreases statements, 2
  {
    var entry := EnterWhile(c, condition).value;
    EnterWhileCloses(c, condition, entry.inside);
    BodyCloses(entry.inside, statements, Some(entry.end), []);
    FinishCloses(GenerateBody(entry.inside, statements, Some(entry.end), []).value, entry.head, entry.end);
  }

  lemma {:induction false} ForCloses(c: Context, s: Statement)
    requires s.ForLoop? && NoTerminators(c.instructions) && GenerateFor(c, s).Some?
    ensures Closes(c, GenerateFor(c, s).value, DeadTail(s))
    decreases s, 0
  {
    SetupHasNoTerminators(c, s.from, s.to);
    var loop := GenerateLoopSetup(c, s.from, s.to).value;
    EnterForCloses(loop);
    var entry := EnterFor(loop);
    BodyCloses(entry.inside, s.statements, Some(entry.end), [IndexVariable(s, loop)]);
    var ended := GenerateBody(entry.inside, s.statements, Some(entry.end), [IndexVariable(s, loop)]).value;
    LoopTailCloses(ended, loop, loop.context.nextRegister, entry.head, entry.end);
  }

  lemma {:induction false} StatementCloses(c: Context, s: Statement)
    requires NoTerminators(c.instructions) && GenerateStatement(c, s).Some?
    ensures Closes(c, GenerateStatement(c, s).value, DeadTail(s)) && TerminatorLast(GenerateStatement(c, s).value.instructions)
    decreases s, 1
  {
    match s
    case ExpressionStatement(e) => ExpressionHasNoTerminators(c.variables, c.nextRegister, e);
    case VariableDeclaration(_, _, _) => DeclarationCloses(c, s);
    case Assignment(target, value) => StoreCloses(c, target, value);
    case BinaryOperationAssignment(target, operator, value) => StoreCloses(c, target, BinaryOperation(operator, target, value));
    case IfStatement(_, _) =>
      IfCloses(c, s);
      ArmsEndOpen(c.(nextLabel := c.nextLabel + 1), s.arms, s.elseStatements != [], c.nextLabel);
    case WhileLoop(condition, statements) => WhileCloses(c, condition, statements);
    case ForLoop(_, _, _, _) => ForCloses(c, s);
    case ReturnStatement(values) => ReturnCloses(c, values);
    case BreakStatement =>
    case Declaration =>
  }

  lemma DeclarationCloses(c: Context, s: Statement)
    requires s.VariableDeclaration? && NoTerminators(c.instructions) && GenerateVariableDeclaration(c, s).Some?
    ensures var c' := GenerateVariableDeclaration(c, s).value;
            NoTerminators(c'.instructions) && c'.blocks == c.blocks
  {
    ExpressionHasNoTerminators(c.variables, c.nextRegister, s.initializer.value);
  }

  lemma ReturnCloses(c: Context, values: seq<Expression>)
    requires NoTerminators(c.instructions) && GenerateReturn(c, values).Some?
    ensures var c' := GenerateReturn(c, values).value;
            TerminatorLast(c'.instructions) && c'.blocks == c.blocks
  {
    if values != [] {
      ExpressionHasNoTerminators(c.variables, c.nextRegister, values[0]);
    }
  }

  lemma StoreCloses(c: Context, target: Expression, value: Expression)
    requires NoTerminators(c.instructions) && GenerateStore(c, target, value).Some?
    ensures var c' := GenerateStore(c, target, value).value;
            NoTerminators(c'.instructions) && c'.blocks == c.blocks
  {
    var t := GenerateExpression(c.variables, c.nextRegister, target).value;
    ExpressionHasNoTerminators(c.variables, c.nextRegister, target);
    ExpressionHasNoTerminators(c.variables, t.next, value);
  }

  lemma {:induction false} StatementsClose(c: Context, statements: seq<Statement>, unreachable: bool)
    requires TerminatorLast(c.instructions) && NeedsFinisher(c) == !unreachable && GenerateStatements(c, statements, unreachable).Some?
    ensures var c' := GenerateStatements(c, statements, unreachable).value;
            Closes(c, c', DeadTails(statements)) && TerminatorLast(c'.instructions)
    decreases statements, 0
  {
    if statements == [] {
    } else {
      assert forall s :: s in statements <==> s == statements[0] || s in statements[1..];
      if statements[0].Declaration? {
        StatementsClose(c, statements[1..], unreachable);
      } else {
        StatementCloses(c, statements[0]);
        StatementFinisher(c, statements[0]);
        StatementsClose(GenerateStatement(c, statements[0]).value, statements[1..], Leaves(statements[0]));
      }
    }
  }

  // ----- Functions -----

  lemma {:induction false} ParametersHaveNoTerminators(c: Context, parameters: seq<Parameter>, index: Register)
    requires NoTerminators(c.instructions) && forall p :: p in parameters ==> IsRuntimeType(p.parameterType)
    ensures var c' := GenerateParameters(c, parameters, index);
            NoTerminators(c'.instructions) && c'.blocks == c.blocks
    decreases parameters
  {
    if parameters != [] {
      var c1 := Emit(c, [AllocateLocal(IRTypeOf(parameters[0].parameterType), c.nextRegister), Store(index, c.nextRegister)], c.nextRegister + 1);
      var added := AddNewVariable(c1, parameters[0].name, Variable(parameters[0].parameterType, c.nextRegister));
      ParametersHaveNoTerminators(if added.Some? then added.value else c1, parameters[1..], index + 1);
    }
  }

  lemma {:induction false} LastReturnEndsAway(statements: seq<Statement>, unreachable: bool)
    requires statements != [] && statements[|statements| - 1].ReturnStatement?
    ensures EndsAway(statements, unreachable)
    decreases statements
  {
    if |statements| > 1 {
      assert statements[1..][|statements| - 2] == statements[|statements| - 1];
      LastReturnEndsAway(statements[1..], if statements[0].Declaration? then unreachable else Leaves(statements[0]));
    }
  }

  /** A return that a declaration follows: the function's own return is appended behind it. */
  predicate ReturnsBeforeDeclaration(f: Function) {
    EndsAway(f.statements, false) && !f.statements[|f.statements| - 1].ReturnStatement?
  }

  /** Every block ends in a terminator, and it is the only one exactly if the function has none of
      the two kinds of dead tail. */
  lemma BlocksEndOnce(f: Function, defaultSize: RegisterSize)
    requires GenerateFunction(f, defaultSize).Some?
    ensures AllEnded(GenerateFunction(f, defaultSize).value)
    ensures AllEndedOnce(GenerateFunction(f, defaultSize).value) <==> !DeadTails(f.statements) && !ReturnsBeforeDeclaration(f)
  {
    var c := FinalContext(f, defaultSize);
    StatementsClosed(f, defaultSize);
    var hasReturnAtEnd := f.statements != [] && f.statements[|f.statements| - 1].ReturnStatement?;
    var ended := if hasReturnAtEnd then c else c.(instructions := c.instructions + [Return(None)]);
    assert GenerateFunction(f, defaultSize).value == ChangeBlock(ended, 0).blocks;
    if hasReturnAtEnd {
      LastReturnEndsAway(f.statements, false);
    } else if EndsAway(f.statements, false) {
      assert !EndedOnce(ended.instructions) by {
        assert ended.instructions[..|ended.instructions| - 1] == c.instructions;
      }
    }
    ChangeBlockCloses(ended, 0);
  }

  /** The blocks before the last one, and the open block at the end. */
  lemma StatementsClosed(f: Function, defaultSize: RegisterSize)
    requires GenerateFunction(f, defaultSize).Some?
    ensures var c := FinalContext(f, defaultSize);
            AllEnded(c.blocks) && (AllEndedOnce(c.blocks) <==> !DeadTails(f.statements)) && TerminatorLast(c.instructions) &&
            NeedsFinisher(c) == !EndsAway(f.statements, false)
  {
    var start := GenerateParameters(InitialContext(f, defaultSize), f.parameters, 0);
    ParametersHaveNoTerminators(InitialContext(f, defaultSize), f.parameters, 0);
    StatementsClose(start, f.statements, false);
    StatementsFinisher(start, f.statements, false);
  }
}
