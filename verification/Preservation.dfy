/** Lowering preserves meaning: control flow. */
module Preservation {
  import opened Integers
  import opened Options
  import opened Ast
  import opened Hlir
  import opened Source
  import opened Folding
  import opened Lowering
  import opened OperationProofs
  import opened ExpressionProofs
  import opened ContextProofs
  import opened SimpleStatementProofs
  import opened FinisherProofs
  import opened LoopProofs
  import opened FlowProofs

  lemma {:induction false} SimulateBody(
    code: Code, c: Context, statements: seq<Statement>, breakTarget: Option<Label>, scope: seq<Named<Variable>>, slots: seq<Named<Slot>>,
    store: Store, fuel: nat, m: Machine
  ) returns (steps: nat, m': Machine)
    requires GenerateBody(c, statements, breakTarget, scope).Some?
    requires Contains(code, GenerateBody(c, statements, breakTarget, scope).value)
    requires WellScoped(c) && NeedsFinisher(c) && MayOpen(c, scope) && Matches(c.variables + [scope], store + [slots], m)
    requires FaithfulStatements(statements)
    ensures var ended := GenerateBody(c, statements, breakTarget, scope).value;
            var outcome := ExecuteBody(SignatureOf(c), store, slots, statements, fuel);
            Leads(code, At(c, m), ExitsAt(ended, breakTarget), c.variables, outcome, fuel, m, c.nextRegister, steps, m') &&
            (outcome.Normal? ==> NeedsFinisher(ended))
    decreases fuel, statements, 1
  {
    OpenScopeWellScoped(c, breakTarget, scope);
    var open := OpenScope(c, breakTarget, scope);
    var inner := GenerateStatements(open, statements, false).value;
    StatementsKeep(open, statements, false);
    assert Contains(code, inner);
    steps, m' := SimulateStatements(code, open, statements, store + [slots], fuel, m);
    assert Outer(open.variables) == c.variables;
    LeavingScope(code, c, open, inner, ExecuteStatements(SignatureOf(c), store + [slots], statements, fuel), fuel, m, steps, m');
    BodyStaysOpen(open, statements, SignatureOf(c), store + [slots], fuel);
  }

  // ----- If -----

  /** A list in a scope of its own, in a context `c1` inside a construct that starts in `c`, then the jump
      to `target`. */
  lemma {:induction false} SimulateNested(
    code: Code, start: State, c: Context, c1: Context, statements: seq<Statement>, breakTarget: Option<Label>, target: Label, next: Label,
    store: Store, fuel: nat, fuel1: nat, m: Machine, first: nat, m1: Machine
  ) returns (steps: nat, m': Machine)
    requires KeepsVariables(c, c1) && c1.instructions == [] && FaithfulStatements(statements)
    requires GenerateBody(c1, statements, breakTarget, []).Some?
    requires GenerateBody(c1, statements, breakTarget, []).value.returnTypes == c.returnTypes
    requires Contains(code, GenerateBody(c1, statements, breakTarget, []).value)
    requires Contains(code, Finish(GenerateBody(c1, statements, breakTarget, []).value, target, next))
    requires Run(code, start, first) == At(c1, m1) && KeepsRegisters(m, m1, c.nextRegister) && Matches(c.variables, store, m1)
    requires fuel <= first + fuel1
    ensures Leads(code, start, Exits(target, 0, breakTarget, c.returnTypes), c.variables,
                  ExecuteBody(SignatureOf(c), store, [], statements, fuel1), fuel, m, c.nextRegister, steps, m')
    ensures steps >= first
    decreases fuel1, statements, 2
  {
    var ended := GenerateBody(c1, statements, breakTarget, []).value;
    var outcome := ExecuteBody(SignatureOf(c), store, [], statements, fuel1);
    ScopedMatches(c.variables, store, m1);
    var second;
    second, m' := SimulateBody(code, c1, statements, breakTarget, [], [], store, fuel1, m1);
    second := FinishLeads(code, At(c1, m1), ended, target, next, c.variables, breakTarget, outcome, fuel1, m1, c1.nextRegister, second, m');
    LeadsFromEarlier(code, start, first, At(c1, m1), Exits(target, 0, breakTarget, c.returnTypes), c.variables, outcome, fuel, fuel1,
                     m, m1, c.nextRegister, c1.nextRegister, second, m');
    steps := first + second;
  }

  lemma {:induction false} SimulateArm(code: Code, c: Context, arm: Arm, next: Label, end: Label, store: Store, fuel: nat, m: Machine)
    returns (steps: nat, m': Machine)
    requires GenerateArm(c, arm, next, end).Some? && Contains(code, GenerateArm(c, arm, next, end).value)
    requires WellScoped(c) && Matches(c.variables, store, m) && Faithful(arm.condition) && FaithfulStatements(arm.statements)
    ensures ArmLeads(code, c, arm, next, end, store, fuel, m, steps, m')
    decreases fuel, arm
  {
    var inside := EnterArm(c, arm.condition, next).value;
    ArmContained(code, c, arm, next, end);
    var first, m1 := RunArmCondition(code, c, arm.condition, next, store, m);
    steps, m' := first, m1;
    var evaluation := Evaluate(store, arm.condition);
    if evaluation.Evaluated? && evaluation.value.truth {
      steps, m' := SimulateNested(code, At(c, m), c, inside, arm.statements, c.breakTarget, end, next, store, fuel, fuel, m, first, m1);
    }
  }

  lemma {:induction false} SimulateArms(
    code: Code, c: Context, arms: seq<Arm>, hasElse: bool, end: Label, store: Store, fuel: nat, m: Machine
  ) returns (steps: nat, m': Machine)
    requires GenerateArms(c, arms, hasElse, end).Some? && Contains(code, GenerateArms(c, arms, hasElse, end).value)
    requires WellScoped(c) && Matches(c.variables, store, m)
    requires forall a :: a in arms ==> Faithful(a.condition) && FaithfulStatements(a.statements)
    ensures ArmsLead(code, c, GenerateArms(c, arms, hasElse, end).value, end, ExecuteArms(SignatureOf(c), store, arms, fuel), store, fuel, m, steps, m')
    decreases fuel, arms
  {
    if arms == [] {
      steps, m' := 0, m;
    } else if |arms| == 1 && !hasElse {
      steps, m' := SimulateArm(code, c, arms[0], end, end, store, fuel, m);
      assert arms[1..] == [];
      OneArmLeads(code, c, arms[0], end, store, fuel, m, steps, m');
    } else {
      steps, m' := SimulateFirstArm(code, c, arms, hasElse, end, store, fuel, m);
    }
  }

  lemma {:induction false} SimulateFirstArm(
    code: Code, c: Context, arms: seq<Arm>, hasElse: bool, end: Label, store: Store, fuel: nat, m: Machine
  ) returns (steps: nat, m': Machine)
    requires arms != [] && (|arms| > 1 || hasElse)
    requires GenerateArms(c, arms, hasElse, end).Some? && Contains(code, GenerateArms(c, arms, hasElse, end).value)
    requires WellScoped(c) && Matches(c.variables, store, m)
    requires forall a :: a in arms ==> Faithful(a.condition) && FaithfulStatements(a.statements)
    ensures ArmsLead(code, c, GenerateArms(c, arms, hasElse, end).value, end, ExecuteArms(SignatureOf(c), store, arms, fuel), store, fuel, m, steps, m')
    decreases fuel, arms, 0
  {
    var c0 := c.(nextLabel := c.nextLabel + 1);
    var next := c.nextLabel;
    var c1 := GenerateArm(c0, arms[0], next, end).value;
    var after := GenerateArms(c, arms, hasElse, end).value;
    FirstArmContained(code, c, arms, hasElse, end);
    var first, m1 := SimulateArm(code, c0, arms[0], next, end, store, fuel, m);
    steps, m' := first, m1;
    var evaluation := Evaluate(store, arms[0].condition);
    if evaluation.Evaluated? && !evaluation.value.truth {
      assert Running(next, 0, m1) == At(c1, m1);
      var second;
      second, m' := SimulateArms(code, c1, arms[1..], hasElse, end, store, fuel, m1);
      ArmsLeadFromEarlier(code, c, c1, after, end, ExecuteArms(SignatureOf(c), store, arms[1..], fuel), store, fuel, m, first, m1, second, m');
      steps := first + second;
      FalseArmIsSkipped(SignatureOf(c), store, arms, fuel);
    } else {
      FirstArmDecides(code, c, arms, after, end, store, fuel, m, steps, m');
    }
  }

  lemma {:induction false} SimulateIf(code: Code, c: Context, s: Statement, store: Store, fuel: nat, m: Machine)
    returns (steps: nat, m': Machine)
    requires s.IfStatement? && GenerateIf(c, s).Some? && Contains(code, GenerateIf(c, s).value)
    requires WellScoped(c) && Matches(c.variables, store, m) && FaithfulStatement(s)
    ensures Leads(code, At(c, m), Exits(c.nextLabel, 0, c.breakTarget, c.returnTypes), c.variables,
                  ExecuteStatement(SignatureOf(c), store, s, fuel), fuel, m, c.nextRegister, steps, m')
    decreases fuel, s, 0
  {
    var end := c.nextLabel;
    var c0 := c.(nextLabel := end + 1);
    var hasElse := s.elseStatements != [];
    var c1 := GenerateArms(c0, s.arms, hasElse, end).value;
    if hasElse {
      IfContained(code, c, s);
    } else {
      ArmsEndOpen(c0, s.arms, false, end);
    }
    steps, m' := SimulateArms(code, c0, s.arms, hasElse, end, store, fuel, m);
    if hasElse && ExecuteArms(SignatureOf(c), store, s.arms, fuel).None? {
      steps, m' := SimulateNested(code, At(c, m), c, c1, s.elseStatements, c.breakTarget, end, end, store, fuel, fuel, m, steps, m');
    }
  }

  // ----- While -----

  /** All iterations of a while loop, from its head. */
  lemma {:induction false} SimulateWhile(
    code: Code, c: Context, condition: Expression, statements: seq<Statement>, entry: Entry, store: Store, fuel: nat, m: Machine
  ) returns (steps: nat, m': Machine)
    requires WellScoped(c) && EnterWhile(c, condition) == Some(entry) && WhileReady(code, c, statements, entry)
    requires Matches(c.variables, store, m) && Faithful(condition) && FaithfulStatements(statements)
    ensures Leads(code, Running(entry.head, 0, m), Exits(entry.end, 0, None, c.returnTypes), c.variables,
                  ExecuteWhile(SignatureOf(c), store, condition, statements, fuel), fuel, m, c.nextRegister, steps, m')
    decreases fuel, statements, 4
  {
    if fuel == 0 {
      steps, m' := 0, m;
    } else {
      steps, m' := RunWhileCondition(code, c, condition, store, m);
      if Evaluate(store, condition).Evaluated? && Evaluate(store, condition).value.truth {
        steps, m' := SimulateWhileIteration(code, c, condition, statements, entry, store, fuel, m, steps, m');
      }
    }
  }

  lemma {:induction false} SimulateWhileBody(
    code: Code, c: Context, statements: seq<Statement>, entry: Entry, store: Store, fuel: nat, m: Machine, first: nat, m1: Machine
  ) returns (steps: nat, m': Machine)
    requires WhileReady(code, c, statements, entry) && FaithfulStatements(statements) && fuel > 0 && first > 0
    requires Run(code, Running(entry.head, 0, m), first) == At(entry.inside, m1) && KeepsRegisters(m, m1, c.nextRegister) && Matches(c.variables, store, m1)
    ensures Leads(code, Running(entry.head, 0, m), Exits(entry.head, 0, Some(entry.end), c.returnTypes), c.variables,
                  ExecuteBody(SignatureOf(c), store, [], statements, fuel - 1), fuel, m, c.nextRegister, steps, m')
    ensures steps > 0
    decreases fuel, statements, 2
  {
    steps, m' := SimulateNested(code, Running(entry.head, 0, m), c, entry.inside, statements, Some(entry.end), entry.head, entry.end,
                                store, fuel, fuel - 1, m, first, m1);
  }

  /** One iteration of a while loop, after its condition held, and those after it. */
  lemma {:induction false} SimulateWhileIteration(
    code: Code, c: Context, condition: Expression, statements: seq<Statement>, entry: Entry, store: Store, fuel: nat, m: Machine, first: nat, m1: Machine
  ) returns (steps: nat, m': Machine)
    requires WellScoped(c) && EnterWhile(c, condition) == Some(entry) && WhileReady(code, c, statements, entry)
    requires Faithful(condition) && FaithfulStatements(statements) && fuel > 0 && first > 0
    requires Run(code, Running(entry.head, 0, m), first) == At(entry.inside, m1) && KeepsRegisters(m, m1, c.nextRegister) && Matches(c.variables, store, m1)
    requires Evaluate(store, condition) == Evaluated(BooleanType, Truth(true))
    ensures Leads(code, Running(entry.head, 0, m), Exits(entry.end, 0, None, c.returnTypes), c.variables,
                  ExecuteWhile(SignatureOf(c), store, condition, statements, fuel), fuel, m, c.nextRegister, steps, m')
    decreases fuel, statements, 3
  {
    var body := ExecuteBody(SignatureOf(c), store, [], statements, fuel - 1);
    WhileGoesOn(SignatureOf(c), store, condition, statements, fuel);
    var second, m2 := SimulateWhileBody(code, c, statements, entry, store, fuel, m, first, m1);
    if body.Normal? {
      var third, m3 := SimulateWhile(code, c, condition, statements, entry, body.store, fuel - 1, m2);
      var rest := ExecuteWhile(SignatureOf(c), body.store, condition, statements, fuel - 1);
      steps, m' := NextIterationLeads(code, Running(entry.head, 0, m), entry.head, Exits(entry.end, 0, None, c.returnTypes), c.variables,
                                      rest, fuel, m, c.nextRegister, second, m2, third, m3);
    } else {
      steps, m' := second, m2;
      LastIterationLeads(code, Running(entry.head, 0, m), entry.head, entry.end, c.returnTypes, c.variables,
                         body, fuel, m, c.nextRegister, second, m2);
    }
  }

  // ----- For -----

  /** The body of a for loop, from its own block to its end. */
  lemma {:induction false} SimulateIndexedBody(
    code: Code, c: Context, statements: seq<Statement>, name: string, loop: Loop, entry: Entry, ended: Context,
    store: Store, current: int, limit: int, fuel: nat, m: Machine
  ) returns (steps: nat, m': Machine)
    requires ForReady(code, c, statements, name, loop, entry, ended) && FaithfulStatements(statements)
    requires Matches(c.variables, store, m) && LoopReady(loop.indexType, loop.pointer, loop.limit, current, limit, m)
    ensures var body := ExecuteBody(SignatureOf(c), store, [Named(name, Slot(IntegerType(loop.indexType), Number(current)))], statements, fuel);
            Leads(code, At(entry.inside, m), ExitsAt(ended, Some(entry.end)), c.variables, body, fuel, m, entry.inside.nextRegister, steps, m')
    decreases fuel, statements, 2
  {
    IndexMatches(c.variables, store, name, loop, current, limit, m);
    steps, m' := SimulateBody(code, entry.inside, statements, Some(entry.end), [Named(name, Variable(IntegerType(loop.indexType), loop.pointer))],
                              [Named(name, Slot(IntegerType(loop.indexType), Number(current)))], store, fuel, m);
  }

  /** The body of a for loop and the increment, back to the head with the next index. */
  lemma {:induction false} SimulateForBody(
    code: Code, c: Context, statements: seq<Statement>, name: string, loop: Loop, entry: Entry, ended: Context,
    store: Store, current: int, limit: int, fuel: nat, m: Machine, first: nat, m1: Machine
  ) returns (steps: nat, m': Machine)
    requires ForReady(code, c, statements, name, loop, entry, ended) && FaithfulStatements(statements) && fuel > 0 && first > 0
    requires Matches(c.variables, store, m1) && LoopReady(loop.indexType, loop.pointer, loop.limit, current, limit, m1)
    requires HoldsInteger(m1, loop.context.nextRegister, loop.indexType, current) && KeepsRegisters(m, m1, loop.context.nextRegister)
    requires Run(code, Running(entry.head, 0, m), first) == At(entry.inside, m1)
    ensures var body := ExecuteBody(SignatureOf(c), store, [Named(name, Slot(IntegerType(loop.indexType), Number(current)))], statements, fuel - 1);
            Leads(code, Running(entry.head, 0, m), Exits(entry.head, 0, Some(entry.end), c.returnTypes), c.variables,
                  body, fuel, m, loop.context.nextRegister, steps, m') && steps > 0 &&
            (body.Normal? ==> LoopReady(loop.indexType, loop.pointer, loop.limit, Wrap(loop.indexType, current + 1), limit, m'))
    decreases fuel, statements, 3
  {
    var second, m2 := SimulateIndexedBody(code, c, statements, name, loop, entry, ended, store, current, limit, fuel - 1, m1);
    var body := ExecuteBody(SignatureOf(c), store, [Named(name, Slot(IntegerType(loop.indexType), Number(current)))], statements, fuel - 1);
    steps, m' := BackAtHead(code, Running(entry.head, 0, m), loop, entry.head, entry.end, entry.inside, ended, c.variables,
                            body, loop.context.nextRegister, current, limit, fuel, m, first, m1, second, m2);
  }

  /** All iterations of a for loop, from its head. */
  lemma {:induction false} SimulateFor(
    code: Code, c: Context, statements: seq<Statement>, name: string, loop: Loop, entry: Entry, ended: Context,
    store: Store, current: int, limit: int, fuel: nat, m: Machine
  ) returns (steps: nat, m': Machine)
    requires ForReady(code, c, statements, name, loop, entry, ended) && FaithfulStatements(statements)
    requires Matches(c.variables, store, m) && LoopReady(loop.indexType, loop.pointer, loop.limit, current, limit, m)
    ensures Leads(code, Running(entry.head, 0, m), Exits(entry.end, 0, None, c.returnTypes), c.variables,
                  ExecuteLoop(SignatureOf(c), store, name, loop.indexType, current, limit, statements, fuel), fuel,
                  m, loop.context.nextRegister, steps, m')
    decreases fuel, statements, 5
  {
    if fuel == 0 {
      steps, m' := 0, m;
    } else {
      steps, m' := RunForTest(code, loop, current, limit, m);
      MatchesPreserved(c.variables, store, m, m', loop.pointer);
      if current <= limit {
        steps, m' := SimulateForIteration(code, c, statements, name, loop, entry, ended, store, current, limit, fuel, m, steps, m');
      }
    }
  }

  lemma {:induction false} SimulateForIteration(
    code: Code, c: Context, statements: seq<Statement>, name: string, loop: Loop, entry: Entry, ended: Context,
    store: Store, current: int, limit: int, fuel: nat, m: Machine, zeroth: nat, m0: Machine
  ) returns (steps: nat, m': Machine)
    requires ForReady(code, c, statements, name, loop, entry, ended) && FaithfulStatements(statements)
    requires fuel > 0 && zeroth > 0 && current <= limit
    requires Matches(c.variables, store, m0) && LoopReady(loop.indexType, loop.pointer, loop.limit, current, limit, m0)
    requires HoldsInteger(m0, loop.context.nextRegister, loop.indexType, current) && KeepsRegisters(m, m0, loop.context.nextRegister)
    requires Run(code, Running(entry.head, 0, m), zeroth) == At(entry.inside, m0)
    ensures Leads(code, Running(entry.head, 0, m), Exits(entry.end, 0, None, c.returnTypes), c.variables,
                  ExecuteLoop(SignatureOf(c), store, name, loop.indexType, current, limit, statements, fuel), fuel,
                  m, loop.context.nextRegister, steps, m')
    decreases fuel, statements, 4
  {
    var t := loop.indexType;
    var body := ExecuteBody(SignatureOf(c), store, [Named(name, Slot(IntegerType(t), Number(current)))], statements, fuel - 1);
    var first, m1 := SimulateForBody(code, c, statements, name, loop, entry, ended, store, current, limit, fuel, m, zeroth, m0);
    if body.Normal? {
      var second, m2 := SimulateFor(code, c, statements, name, loop, entry, ended, body.store, Wrap(t, current + 1), limit, fuel - 1, m1);
      var rest := ExecuteLoop(SignatureOf(c), body.store, name, t, Wrap(t, current + 1), limit, statements, fuel - 1);
      steps, m' := NextIterationLeads(code, Running(entry.head, 0, m), entry.head, Exits(entry.end, 0, None, c.returnTypes), c.variables,
                                      rest, fuel, m, loop.context.nextRegister, first, m1, second, m2);
    } else {
      steps, m' := first, m1;
      LastIterationLeads(code, Running(entry.head, 0, m), entry.head, entry.end, c.returnTypes, c.variables,
                         body, fuel, m, loop.context.nextRegister, first, m1);
    }
  }

  // ----- Statements -----

  lemma {:induction false} SimulateWhileStatement(
    code: Code, c: Context, condition: Expression, statements: seq<Statement>, store: Store, fuel: nat, m: Machine
  ) returns (steps: nat, m': Machine)
    requires GenerateWhile(c, condition, statements).Some? && Contains(code, GenerateWhile(c, condition, statements).value)
    requires WellScoped(c) && NeedsFinisher(c) && Matches(c.variables, store, m) && Faithful(condition) && FaithfulStatements(statements)
    ensures Simulates(code, c, GenerateWhile(c, condition, statements).value,
                      ExecuteWhile(SignatureOf(c), store, condition, statements, fuel), fuel, m, steps, m')
    decreases fuel, statements, 5
  {
    var entry, after := EnterWhile(c, condition).value, GenerateWhile(c, condition, statements).value;
    var first := WhileStatementEntered(code, c, condition, statements, m);
    var second;
    second, m' := SimulateWhile(code, c, condition, statements, entry, store, fuel, m);
    steps := first + second;
    LoopIsStatement(code, c, after, ExecuteWhile(SignatureOf(c), store, condition, statements, fuel), fuel, first, entry.head, m, m, c.nextRegister, second, m');
  }

  lemma {:induction false} SimulateForStatement(code: Code, c: Context, s: Statement, store: Store, fuel: nat, m: Machine)
    returns (steps: nat, m': Machine)
    requires s.ForLoop? && GenerateFor(c, s).Some? && Contains(code, GenerateFor(c, s).value)
    requires WellScoped(c) && Matches(c.variables, store, m) && FaithfulStatement(s)
    ensures Simulates(code, c, GenerateFor(c, s).value, ExecuteStatement(SignatureOf(c), store, s, fuel), fuel, m, steps, m')
    decreases fuel, s, 3
  {
    var loop := GenerateLoopSetup(c, s.from, s.to).value;
    var ended := ForIsReady(code, c, s, loop);
    steps, m' := SimulateSetup(code, c, s.from, s.to, store, m);
    var bounds := EvaluateBounds(SignatureOf(c), store, s.from, s.to);
    steps := HeadReached(code, c, loop, bounds, store, m, steps, m');
    if bounds.Bounds? {
      steps, m' := SimulateLoopStatement(code, c, s.statements, IndexName(s.indexName), loop, ended, GenerateFor(c, s).value,
                                         store, bounds.from, bounds.to, fuel, m, steps, m');
    }
  }

  /** A loop that has been set up, from its head, and the statement it is. */
  lemma {:induction false} SimulateLoopStatement(
    code: Code, c: Context, statements: seq<Statement>, name: string, loop: Loop, ended: Context, after: Context,
    store: Store, from: int, to: int, fuel: nat, m: Machine, first: nat, m1: Machine
  ) returns (steps: nat, m': Machine)
    requires ForReady(code, c, statements, name, loop, EnterFor(loop), ended) && FaithfulStatements(statements)
    requires Matches(c.variables, store, m1) && LoopReady(loop.indexType, loop.pointer, loop.limit, from, to, m1)
    requires Run(code, At(c, m), first) == Running(EnterFor(loop).head, 0, m1) && KeepsRegisters(m, m1, c.nextRegister)
    requires after.variables == c.variables && after.current == EnterFor(loop).end && after.instructions == []
    ensures Simulates(code, c, after,
                      ExecuteLoop(SignatureOf(c), store, name, loop.indexType, from, to, statements, fuel), fuel, m, steps, m')
    decreases fuel, statements, 6
  {
    var second;
    second, m' := SimulateFor(code, c, statements, name, loop, EnterFor(loop), ended, store, from, to, fuel, m1);
    steps := first + second;
    LoopIsStatement(code, c, after, ExecuteLoop(SignatureOf(c), store, name, loop.indexType, from, to, statements, fuel),
                    fuel, first, EnterFor(loop).head, m, m1, loop.context.nextRegister, second, m');
  }

  lemma {:induction false} SimulateStatement(code: Code, c: Context, s: Statement, store: Store, fuel: nat, m: Machine)
    returns (steps: nat, m': Machine)
    requires GenerateStatement(c, s).Some? && Contains(code, GenerateStatement(c, s).value)
    requires WellScoped(c) && NeedsFinisher(c) && Matches(c.variables, store, m) && FaithfulStatement(s)
    ensures Simulates(code, c, GenerateStatement(c, s).value, ExecuteStatement(SignatureOf(c), store, s, fuel), fuel, m, steps, m')
    decreases fuel, s, 4
  {
    match s
    case ExpressionStatement(e) => steps, m' := SimulateExpression(code, c, e, store, fuel, m);
    case VariableDeclaration(_, _, _) => steps, m' := SimulateDeclaration(code, c, s, store, fuel, m);
    case Assignment(target, value) => steps, m' := SimulateAssignment(code, c, target, value, store, fuel, m);
    case BinaryOperationAssignment(target, operator, value) =>
      steps, m' := SimulateAssignment(code, c, target, BinaryOperation(operator, target, value), store, fuel, m);
    case IfStatement(_, _) => steps, m' := SimulateIfStatement(code, c, s, store, fuel, m);
    case WhileLoop(condition, statements) => steps, m' := SimulateWhileStatement(code, c, condition, statements, store, fuel, m);
    case ForLoop(_, _, _, _) => steps, m' := SimulateForStatement(code, c, s, store, fuel, m);
    case ReturnStatement(values) =>
      steps := SimulateReturn(code, c, values, store, fuel, m);
      m' := m;
    case BreakStatement =>
      SimulateBreak(code, c, store, fuel, m);
      steps, m' := 1, m;
    case Declaration => steps, m' := 0, m;
  }

  lemma {:induction false} SimulateIfStatement(code: Code, c: Context, s: Statement, store: Store, fuel: nat, m: Machine)
    returns (steps: nat, m': Machine)
    requires s.IfStatement? && GenerateIf(c, s).Some? && Contains(code, GenerateIf(c, s).value)
    requires WellScoped(c) && Matches(c.variables, store, m) && FaithfulStatement(s)
    ensures Simulates(code, c, GenerateIf(c, s).value, ExecuteStatement(SignatureOf(c), store, s, fuel), fuel, m, steps, m')
    decreases fuel, s, 3
  {
    IfKeeps(c, s);
    IfEnds(c, s);
    steps, m' := SimulateIf(code, c, s, store, fuel, m);
    LeadsIsStatement(code, c, GenerateIf(c, s).value, ExecuteStatement(SignatureOf(c), store, s, fuel), fuel, m, steps, m');
  }

  /** Running a list's code from the block it starts in does what the list means. */
  lemma {:induction false} SimulateStatements(code: Code, c: Context, statements: seq<Statement>, store: Store, fuel: nat, m: Machine)
    returns (steps: nat, m': Machine)
    requires GenerateStatements(c, statements, false).Some? && Contains(code, GenerateStatements(c, statements, false).value)
    requires WellScoped(c) && NeedsFinisher(c) && Matches(c.variables, store, m) && FaithfulStatements(statements)
    ensures Simulates(code, c, GenerateStatements(c, statements, false).value,
                      ExecuteStatements(SignatureOf(c), store, statements, fuel), fuel, m, steps, m')
    decreases fuel, statements, 0
  {
    if statements == [] {
      steps, m' := 0, m;
    } else if statements[0].Declaration? {
      assert ExecuteStatement(SignatureOf(c), store, statements[0], fuel) == Normal(store);
      steps, m' := SimulateStatements(code, c, statements[1..], store, fuel, m);
    } else {
      steps, m' := SimulateNextStatement(code, c, statements, store, fuel, m);
    }
  }

  lemma {:induction false} SimulateNextStatement(code: Code, c: Context, statements: seq<Statement>, store: Store, fuel: nat, m: Machine)
    returns (steps: nat, m': Machine)
    requires statements != [] && !statements[0].Declaration?
    requires GenerateStatements(c, statements, false).Some? && Contains(code, GenerateStatements(c, statements, false).value)
    requires WellScoped(c) && NeedsFinisher(c) && Matches(c.variables, store, m) && FaithfulStatements(statements)
    ensures Simulates(code, c, GenerateStatements(c, statements, false).value,
                      ExecuteStatements(SignatureOf(c), store, statements, fuel), fuel, m, steps, m')
    decreases fuel, statements, 0, 0
  {
    var s := statements[0];
    NextContained(code, c, statements);
    steps, m' := SimulateStatement(code, c, s, store, fuel, m);
    var outcome := ExecuteStatement(SignatureOf(c), store, s, fuel);
    if outcome.Normal? {
      steps, m' := SimulateRest(code, c, GenerateStatement(c, s).value, statements[1..], outcome.store, fuel, m, steps, m');
    }
  }

  /** The rest of a list, after a statement that ended normally. */
  lemma {:induction false} SimulateRest(
    code: Code, c: Context, c1: Context, rest: seq<Statement>, store: Store, fuel: nat, m: Machine, first: nat, m1: Machine
  ) returns (steps: nat, m': Machine)
    requires NeedsFinisher(c1) && Keeps(c, c1)
    requires GenerateStatements(c1, rest, false).Some? && Contains(code, GenerateStatements(c1, rest, false).value)
    requires Simulates(code, c, c1, Normal(store), fuel, m, first, m1) && FaithfulStatements(rest)
    ensures Simulates(code, c, GenerateStatements(c1, rest, false).value,
                      ExecuteStatements(SignatureOf(c1), store, rest, fuel), fuel, m, steps, m')
    decreases fuel, rest, 1
  {
    var second;
    second, m' := SimulateStatements(code, c1, rest, store, fuel, m1);
    SequenceSimulates(code, c, c1, GenerateStatements(c1, rest, false).value, store,
                      ExecuteStatements(SignatureOf(c1), store, rest, fuel), fuel, m, first, m1, second, m');
    steps := first + second;
  }
}
