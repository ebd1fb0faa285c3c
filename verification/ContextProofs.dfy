/** What every step of the generator does to its context: code only grows, scopes nest, registers are fresh. */
module ContextProofs {
  import opened Integers
  import opened Options
  import opened Ast
  import opened Hlir
  import opened Source
  import opened Folding
  import opened Lowering

  /** The blocks of `c` and the open block so far are part of `code`. */
  ghost predicate Contains(code: Code, c: Context) {
    (forall b :: b in c.blocks ==> b.id in code && code[b.id] == b.instructions) &&
    c.current in code && c.instructions <= code[c.current]
  }

  /** `c'` only adds to `c`: instructions at the end of the open block, or the rest of the open
      block and blocks after it. */
  ghost predicate Grows(c: Context, c': Context) {
    c.nextRegister <= c'.nextRegister && c.nextLabel <= c'.nextLabel && CodeGrows(c, c')
  }

  ghost predicate CodeGrows(c: Context, c': Context) {
    var n := |c.blocks|;
    if |c'.blocks| == n then c'.blocks == c.blocks && c'.current == c.current && c.instructions <= c'.instructions
    else n < |c'.blocks| && c.blocks <= c'.blocks && c'.blocks[n].id == c.current && c.instructions <= c'.blocks[n].instructions
  }

  /** Whatever code a function ends up with, if it contains the later context it contains the earlier one. */
  lemma ContainsEarlier(code: Code, c: Context, c': Context)
    requires Grows(c, c') && Contains(code, c')
    ensures Contains(code, c)
  {
    forall b | b in c.blocks
      ensures b.id in code && code[b.id] == b.instructions
    {
      assert b in c'.blocks;
    }
    if |c'.blocks| != |c.blocks| {
      assert c'.blocks[|c.blocks|] in c'.blocks;
    }
  }

  /** The same scopes, except for variables added to the innermost one. */
  predicate SameScopes(c: Context, c': Context) {
    c'.returnTypes == c.returnTypes && c'.defaultSize == c.defaultSize && c'.breakTarget == c.breakTarget &&
    c'.constantScopes == c.constantScopes &&
    c.variables != [] && |c'.variables| == |c.variables| &&
    c'.variables[..|c.variables| - 1] == c.variables[..|c.variables| - 1] &&
    c.variables[|c.variables| - 1] <= c'.variables[|c.variables| - 1]
  }

  ghost predicate DistinctPointers(variables: Stack<Variable>) {
    forall p, q :: Within(variables, p) && Within(variables, q) && p != q ==>
      variables[p.scope][p.index].info.pointer != variables[q.scope][q.index].info.pointer
  }

  ghost predicate WellScoped(c: Context) {
    c.variables != [] && PointersBelow(c.variables, c.nextRegister) && DistinctPointers(c.variables)
  }

  lemma GrowsTransitive(a: Context, b: Context, c: Context)
    requires Grows(a, b) && Grows(b, c)
    ensures Grows(a, c)
  {
  }

  lemma EmitGrows(c: Context, code: seq<Instruction>, next: Register)
    requires c.nextRegister <= next
    ensures Grows(c, Emit(c, code, next))
  {
    var c' := Emit(c, code, next);
  }

  lemma ChangeBlockGrows(c: Context, id: Label)
    ensures Grows(c, ChangeBlock(c, id))
  {
    var c' := ChangeBlock(c, id);
  }

  lemma JumpIfNeededGrows(c: Context, target: Label)
    ensures Grows(c, JumpIfNeeded(c, target))
  {
    EmitGrows(c, [Jump(target)], c.nextRegister);
  }

  lemma EnterNewBlockGrows(c: Context)
    ensures Grows(c, EnterNewBlock(c))
  {
    if c.instructions != [] {
      var c1 := JumpIfNeeded(c, c.nextLabel);
      JumpIfNeededGrows(c, c.nextLabel);
      ChangeBlockGrows(c1, c.nextLabel);
      GrowsTransitive(c, c1, ChangeBlock(c1, c.nextLabel));
    }
  }

  /** The end of a nested body: jump on if the body has not left, then change block. */
  lemma FinishGrows(c: Context, target: Label, next: Label)
    ensures Grows(c, ChangeBlock(JumpIfNeeded(c, target), next))
  {
    JumpIfNeededGrows(c, target);
    ChangeBlockGrows(JumpIfNeeded(c, target), next);
  }

  // ----- Simple statements -----

  lemma DeclareKeeps(c: Context, name: string, variable: Variable)
    requires AddNewVariable(c, name, variable).Some? && WellScoped(c)
    requires PointersBelow(c.variables, variable.pointer) && variable.pointer < c.nextRegister
    ensures var c' := AddNewVariable(c, name, variable).value;
            SameScopes(c, c') && WellScoped(c') && Grows(c, c')
  {
    var c' := AddNewVariable(c, name, variable).value;
    var last := |c.variables| - 1;
    assert c'.variables[..last] == c.variables[..last];
    assert forall p :: Within(c'.variables, p) ==>
      (Within(c.variables, p) && c'.variables[p.scope][p.index] == c.variables[p.scope][p.index]) ||
      (p == Position(last, |c.variables[last]|) && c'.variables[p.scope][p.index].info == variable);
  }

  lemma EmitKeeps(c: Context, code: seq<Instruction>, next: Register)
    requires WellScoped(c) && c.nextRegister <= next
    ensures var c' := Emit(c, code, next);
            SameScopes(c, c') && WellScoped(c') && Grows(c, c')
  {
    EmitGrows(c, code, next);
  }

  lemma LocalKeeps(c: Context, name: string, t: Type, g: Generated)
    requires WellScoped(c) && c.nextRegister <= g.next && Below(g.value, g.next)
    requires GenerateLocal(c, name, t, g).Some?
    ensures var c' := GenerateLocal(c, name, t, g).value;
            SameScopes(c, c') && WellScoped(c') && Grows(c, c')
  {
    var pointer := g.next;
    var f := CoerceToRegister(g.valueType, g.value, t, pointer + 1).value;
    var code := g.code + [AllocateLocal(IRTypeOf(t), pointer)] + f.code + [Store(f.register, pointer)];
    var c1 := Emit(c, code, f.next);
    EmitKeeps(c, code, f.next);
    DeclareKeeps(c1, name, Variable(t, pointer));
    GrowsTransitive(c, c1, GenerateLocal(c, name, t, g).value);
  }

  lemma StoreKeeps(c: Context, target: Expression, value: Expression)
    requires WellScoped(c) && GenerateStore(c, target, value).Some?
    ensures var c' := GenerateStore(c, target, value).value;
            SameScopes(c, c') && WellScoped(c') && Grows(c, c')
  {
    var t := GenerateExpression(c.variables, c.nextRegister, target).value;
    var g := GenerateExpression(c.variables, t.next, value).value;
    var f := CoerceToRegister(g.valueType, g.value, t.valueType, g.next).value;
    GenerateExpressionBelow(c.variables, c.nextRegister, target);
    GenerateExpressionBelow(c.variables, t.next, value);
    EmitKeeps(c, t.code + g.code + f.code + [Store(f.register, t.value.pointer)], f.next);
  }

  lemma ReturnKeeps(c: Context, values: seq<Expression>)
    requires WellScoped(c) && GenerateReturn(c, values).Some?
    ensures var c' := GenerateReturn(c, values).value;
            SameScopes(c, c') && WellScoped(c') && Grows(c, c')
  {
    if values == [] {
      EmitKeeps(c, [Return(None)], c.nextRegister);
    } else {
      var g := GenerateExpression(c.variables, c.nextRegister, values[0]).value;
      var f := CoerceToRegister(g.valueType, g.value, c.returnTypes[0], g.next).value;
      GenerateExpressionBelow(c.variables, c.nextRegister, values[0]);
      EmitKeeps(c, g.code + f.code + [Return(Some(f.register))], f.next);
    }
  }

  lemma ConditionKeeps(c: Context, condition: Expression, trueTarget: Label, falseTarget: Label)
    requires WellScoped(c) && GenerateCondition(c, condition, trueTarget, falseTarget).Some?
    ensures var c' := GenerateCondition(c, condition, trueTarget, falseTarget).value;
            WellScoped(c') && Grows(c, c') && c' == c.(instructions := c'.instructions, nextRegister := c'.nextRegister)
  {
    var g := GenerateExpression(c.variables, c.nextRegister, condition).value;
    var f := InRegister(IRBoolean, g.value, g.next);
    GenerateExpressionBelow(c.variables, c.nextRegister, condition);
    EmitKeeps(c, g.code + f.code + [Branch(f.register, trueTarget, falseTarget)], f.next);
  }

  lemma LoopSetupKeeps(c: Context, from: Expression, to: Expression)
    requires WellScoped(c) && GenerateLoopSetup(c, from, to).Some?
    ensures var loop := GenerateLoopSetup(c, from, to).value;
            var c' := loop.context;
            WellScoped(c') && Grows(c, c') && c' == c.(instructions := c'.instructions, nextRegister := c'.nextRegister) &&
            loop.pointer < c'.nextRegister && loop.limit < loop.pointer && PointersBelow(c.variables, loop.pointer)
  {
    var f := GenerateExpression(c.variables, c.nextRegister, from).value;
    var t := GenerateExpression(c.variables, f.next, to).value;
    var indexType := IndexType(c.defaultSize, f.valueType, t.valueType).value;
    var first := CoerceToRegister(f.valueType, f.value, IntegerType(indexType), t.next).value;
    var limit := CoerceToRegister(t.valueType, t.value, IntegerType(indexType), first.next).value;
    GenerateExpressionBelow(c.variables, c.nextRegister, from);
    GenerateExpressionBelow(c.variables, f.next, to);
    EmitKeeps(c, f.code + t.code + first.code + limit.code
                 + [AllocateLocal(IRInteger(indexType.size), limit.next), Store(first.register, limit.next)], limit.next + 1);
  }

  // ----- Nested statements -----

  ghost predicate Keeps(c: Context, c': Context) {
    WellScoped(c') && Grows(c, c') && SameScopes(c, c')
  }

  lemma OpenScopeWellScoped(c: Context, breakTarget: Option<Label>, scope: seq<Named<Variable>>)
    requires WellScoped(c)
    requires |scope| <= 1 && forall v :: v in scope ==> v.info.pointer < c.nextRegister && PointerIsNew(c.variables, v.info.pointer)
    ensures WellScoped(OpenScope(c, breakTarget, scope))
  {
    var variables := c.variables + [scope];
    assert forall p :: Within(variables, p) ==>
      (Within(c.variables, p) && variables[p.scope][p.index] == c.variables[p.scope][p.index]) ||
      (p == Position(|c.variables|, 0) && variables[p.scope][p.index] == scope[0] && scope[0] in scope);
  }

  ghost predicate PointerIsNew(variables: Stack<Variable>, pointer: Register) {
    forall p :: Within(variables, p) ==> variables[p.scope][p.index].info.pointer != pointer
  }

  lemma CloseScopeKeeps(c: Context, breakTarget: Option<Label>, scope: seq<Named<Variable>>, c': Context)
    requires WellScoped(c) && Keeps(OpenScope(c, breakTarget, scope), c')
    ensures Keeps(c, CloseScope(c', c)) && CloseScope(c', c).variables == c.variables
  {
    var closed := CloseScope(c', c);
  }

  lemma {:induction false} BodyKeeps(c: Context, statements: seq<Statement>, breakTarget: Option<Label>, scope: seq<Named<Variable>>)
    requires WellScoped(c) && GenerateBody(c, statements, breakTarget, scope).Some?
    requires |scope| <= 1 && forall v :: v in scope ==> v.info.pointer < c.nextRegister && PointerIsNew(c.variables, v.info.pointer)
    ensures var c' := GenerateBody(c, statements, breakTarget, scope).value;
            Keeps(c, c') && c'.variables == c.variables
    decreases statements, 1
  {
    OpenScopeWellScoped(c, breakTarget, scope);
    var open := OpenScope(c, breakTarget, scope);
    StatementsKeep(open, statements, false);
    CloseScopeKeeps(c, breakTarget, scope, GenerateStatements(open, statements, false).value);
  }

  lemma KeepsTransitive(a: Context, b: Context, c: Context)
    requires Keeps(a, b) && Keeps(b, c)
    ensures Keeps(a, c)
  {
    GrowsTransitive(a, b, c);
    SameScopesTransitive(a, b, c);
  }

  /** `c'` has the variables of `c`, and only code was added. */
  ghost predicate KeepsVariables(c: Context, c': Context) {
    Keeps(c, c') && c'.variables == c.variables
  }

  lemma KeepsVariablesTransitive(a: Context, b: Context, c: Context)
    requires KeepsVariables(a, b) && KeepsVariables(b, c)
    ensures KeepsVariables(a, c)
  {
    KeepsTransitive(a, b, c);
  }

  lemma FinishKeeps(c: Context, target: Label, next: Label)
    requires WellScoped(c)
    ensures KeepsVariables(c, Finish(c, target, next))
  {
    FinishGrows(c, target, next);
  }

  lemma EnterArmKeeps(c: Context, condition: Expression, next: Label)
    requires WellScoped(c) && EnterArm(c, condition, next).Some?
    ensures KeepsVariables(c, EnterArm(c, condition, next).value)
  {
    var body := c.nextLabel;
    var c0 := c.(nextLabel := body + 1);
    ConditionKeeps(c0, condition, body, next);
    ChangeBlockGrows(GenerateCondition(c0, condition, body, next).value, body);
  }

  /** Entering a loop: new labels, a head block of its own. */
  lemma LoopHeadKeeps(c: Context)
    requires WellScoped(c)
    ensures var head := EnterNewBlock(c.(nextLabel := c.nextLabel + 2));
            KeepsVariables(c, head) && head.nextRegister == c.nextRegister
  {
    EnterNewBlockGrows(c.(nextLabel := c.nextLabel + 2));
  }

  lemma EnterWhileKeeps(c: Context, condition: Expression)
    requires WellScoped(c) && EnterWhile(c, condition).Some?
    ensures KeepsVariables(c, EnterWhile(c, condition).value.inside)
  {
    var end, body := c.nextLabel, c.nextLabel + 1;
    var head, tested := EnterWhileSteps(c, condition);
    LoopHeadKeeps(c);
    ConditionKeeps(head, condition, body, end);
    ChangeBlockGrows(tested, body);
    KeepsVariablesTransitive(c, head, ChangeBlock(tested, body));
  }

  lemma EnterForKeeps(loop: Loop)
    requires WellScoped(loop.context)
    ensures KeepsVariables(loop.context, EnterFor(loop).inside)
  {
    var end, body := loop.context.nextLabel, loop.context.nextLabel + 1;
    var head := EnterNewBlock(loop.context.(nextLabel := end + 2));
    LoopHeadKeeps(loop.context);
    var c1 := LoopHead(head, loop, body, end);
    EmitKeeps(head, c1.instructions[|head.instructions|..], c1.nextRegister);
    ChangeBlockGrows(c1, body);
    KeepsVariablesTransitive(loop.context, head, ChangeBlock(c1, body));
  }

  lemma LoopTailKeeps(c: Context, loop: Loop, index: Register)
    requires WellScoped(c)
    ensures KeepsVariables(c, LoopTail(c, loop, index))
  {
    var c1 := LoopTail(c, loop, index);
    EmitKeeps(c, c1.instructions[|c.instructions|..], c1.nextRegister);
  }

  lemma {:induction false} ArmKeeps(c: Context, arm: Arm, next: Label, end: Label)
    requires WellScoped(c) && GenerateArm(c, arm, next, end).Some?
    ensures KeepsVariables(c, GenerateArm(c, arm, next, end).value)
    decreases arm
  {
    EnterArmKeeps(c, arm.condition, next);
    var inside := EnterArm(c, arm.condition, next).value;
    BodyKeeps(inside, arm.statements, c.breakTarget, []);
    var ended := GenerateBody(inside, arm.statements, c.breakTarget, []).value;
    FinishKeeps(ended, end, next);
    KeepsVariablesTransitive(c, inside, ended);
    KeepsVariablesTransitive(c, ended, Finish(ended, end, next));
  }

  lemma {:induction false} ArmsKeep(c: Context, arms: seq<Arm>, hasElse: bool, end: Label)
    requires WellScoped(c) && GenerateArms(c, arms, hasElse, end).Some?
    ensures KeepsVariables(c, GenerateArms(c, arms, hasElse, end).value)
    decreases arms
  {
    if arms == [] {
    } else if |arms| == 1 && !hasElse {
      ArmKeeps(c, arms[0], end, end);
    } else {
      var c0 := c.(nextLabel := c.nextLabel + 1);
      ArmKeeps(c0, arms[0], c.nextLabel, end);
      var c1 := GenerateArm(c0, arms[0], c.nextLabel, end).value;
      ArmsKeep(c1, arms[1..], hasElse, end);
      KeepsVariablesTransitive(c, c1, GenerateArms(c1, arms[1..], hasElse, end).value);
    }
  }

  lemma {:induction false} IfKeeps(c: Context, s: Statement)
    requires s.IfStatement? && WellScoped(c) && GenerateIf(c, s).Some?
    ensures KeepsVariables(c, GenerateIf(c, s).value)
    decreases s, 0
  {
    var end := c.nextLabel;
    var c0 := c.(nextLabel := end + 1);
    ArmsKeep(c0, s.arms, s.elseStatements != [], end);
    var c1 := GenerateArms(c0, s.arms, s.elseStatements != [], end).value;
    assert KeepsVariables(c, c1);
    if s.elseStatements != [] {
      BodyKeeps(c1, s.elseStatements, c.breakTarget, []);
      var ended := GenerateBody(c1, s.elseStatements, c.breakTarget, []).value;
      FinishKeeps(ended, end, end);
      KeepsVariablesTransitive(c, c1, ended);
      KeepsVariablesTransitive(c, ended, Finish(ended, end, end));
    }
  }

  lemma {:induction false} WhileKeeps(c: Context, condition: Expression, statements: seq<Statement>)
    requires WellScoped(c) && GenerateWhile(c, condition, statements).Some?
    ensures KeepsVariables(c, GenerateWhile(c, condition, statements).value)
    decreases statements, 2
  {
    EnterWhileKeeps(c, condition);
    var entry := EnterWhile(c, condition).value;
    BodyKeeps(entry.inside, statements, Some(entry.end), []);
    var ended := GenerateBody(entry.inside, statements, Some(entry.end), []).value;
    FinishKeeps(ended, entry.head, entry.end);
    KeepsVariablesTransitive(c, entry.inside, ended);
    KeepsVariablesTransitive(c, ended, Finish(ended, entry.head, entry.end));
  }

  lemma {:induction false} ForKeeps(c: Context, s: Statement)
    requires s.ForLoop? && WellScoped(c) && GenerateFor(c, s).Some?
    ensures KeepsVariables(c, GenerateFor(c, s).value)
    decreases s, 0
  {
    LoopSetupKeeps(c, s.from, s.to);
    var loop := GenerateLoopSetup(c, s.from, s.to).value;
    EnterForKeeps(loop);
    var entry := EnterFor(loop);
    BodyKeeps(entry.inside, s.statements, Some(entry.end), [IndexVariable(s, loop)]);
    var ended := GenerateBody(entry.inside, s.statements, Some(entry.end), [IndexVariable(s, loop)]).value;
    var tail := LoopTail(ended, loop, loop.context.nextRegister);
    LoopTailKeeps(ended, loop, loop.context.nextRegister);
    FinishKeeps(tail, entry.head, entry.end);
    KeepsVariablesTransitive(c, loop.context, entry.inside);
    KeepsVariablesTransitive(c, entry.inside, ended);
    KeepsVariablesTransitive(c, ended, tail);
    KeepsVariablesTransitive(c, tail, Finish(tail, entry.head, entry.end));
  }

  lemma {:induction false} StatementKeeps(c: Context, s: Statement)
    requires WellScoped(c) && GenerateStatement(c, s).Some?
    ensures Keeps(c, GenerateStatement(c, s).value)
    decreases s, 1
  {
    match s
    case ExpressionStatement(e) =>
      GenerateExpressionBelow(c.variables, c.nextRegister, e);
      var g := GenerateExpression(c.variables, c.nextRegister, e).value;
      EmitKeeps(c, g.code, g.next);
    case VariableDeclaration(_, _, _) =>
      GenerateExpressionBelow(c.variables, c.nextRegister, s.initializer.value);
      var g := GenerateExpression(c.variables, c.nextRegister, s.initializer.value).value;
      LocalKeeps(c, s.name, if s.declaredType.Some? then s.declaredType.value else DefaultType(c.defaultSize, g.valueType), g);
    case Assignment(target, value) => StoreKeeps(c, target, value);
    case BinaryOperationAssignment(target, operator, value) => StoreKeeps(c, target, BinaryOperation(operator, target, value));
    case IfStatement(_, _) => IfKeeps(c, s);
    case WhileLoop(condition, statements) => WhileKeeps(c, condition, statements);
    case ForLoop(_, _, _, _) => ForKeeps(c, s);
    case ReturnStatement(values) => ReturnKeeps(c, values);
    case BreakStatement => EmitKeeps(c, [Jump(c.breakTarget.value)], c.nextRegister);
    case Declaration =>
  }

  lemma {:induction false} StatementsKeep(c: Context, statements: seq<Statement>, unreachable: bool)
    requires WellScoped(c) && GenerateStatements(c, statements, unreachable).Some?
    ensures Keeps(c, GenerateStatements(c, statements, unreachable).value)
    decreases statements, 0
  {
    if statements == [] {
    } else if statements[0].Declaration? {
      StatementsKeep(c, statements[1..], unreachable);
    } else {
      StatementKeeps(c, statements[0]);
      var c1 := GenerateStatement(c, statements[0]).value;
      StatementsKeep(c1, statements[1..], Leaves(statements[0]));
      SameScopesTransitive(c, c1, GenerateStatements(c, statements, unreachable).value);
    }
  }

  lemma SameScopesTransitive(a: Context, b: Context, c: Context)
    requires SameScopes(a, b) && SameScopes(b, c)
    ensures SameScopes(a, c)
  {
  }
}
