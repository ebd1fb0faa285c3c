/** Where nested statements lead: the pieces of an if or a loop on the machine, apart from the lists inside. */
module FlowProofs {
  import opened Integers
  import opened Options
  import opened Ast
  import opened Hlir
  import opened Source
  import opened Folding
  import opened Lowering
  import opened OperationProofs
  import opened ExpressionProofs
  import opened ContextProofs
  import opened SimpleStatementProofs
  import opened FinisherProofs
  import opened LoopProofs

  /** Where a nested list and what it leads to may arrive. */
  datatype Exits = Exits(block: Label, index: nat, breakTarget: Option<Label>, returnTypes: seq<Type>)

  /** After `steps` steps from `start` the machine is where the outcome says: at the normal exit,
      at the break target, or halted; the variables there are those of the outcome's store. */
  ghost predicate Leads(
    code: Code, start: State, exits: Exits, variables: Stack<Variable>, outcome: Outcome, fuel: nat,
    m: Machine, next: Register, steps: nat, m': Machine
  ) {
    var state := Run(code, start, steps);
    match outcome
    case Normal(store) =>
      state == Running(exits.block, exits.index, m') && Matches(variables, store, m') && KeepsRegisters(m, m', next)
    case Broke(store) =>
      exits.breakTarget.Some? && state == Running(exits.breakTarget.value, 0, m') &&
      Matches(variables, store, m') && KeepsRegisters(m, m', next)
    case ReturnedValue(v) => Returns(exits.returnTypes, v, state)
    case UndefinedOutcome => state == Halted(UndefinedBehaviour)
    case OutOfFuel => state.Running? && steps >= fuel
    case IllFormed => false
  }

  function ExitsAt(c: Context, breakTarget: Option<Label>): Exits {
    Exits(c.current, |c.instructions|, breakTarget, c.returnTypes)
  }

  lemma RunFinish(code: Code, c: Context, target: Label, next: Label, m: Machine)
    requires NeedsFinisher(c) && Contains(code, Finish(c, target, next))
    ensures Run(code, At(c, m), 1) == Running(target, 0, m)
  {
    var whole := c.instructions + [Jump(target)];
    assert Block(c.current, whole) in Finish(c, target, next).blocks;
    assert code[c.current][|c.instructions|] == Jump(target);
    assert Run(code, At(c, m), 1) == Step(code, At(c, m));
  }

  lemma RunEnter(code: Code, c: Context, m: Machine) returns (steps: nat)
    requires NeedsFinisher(c) && Contains(code, EnterNewBlock(c))
    ensures Run(code, At(c, m), steps) == Running(EnterNewBlock(c).current, 0, m)
    ensures EnterNewBlock(c).instructions == []
  {
    if c.instructions == [] {
      steps := 0;
    } else {
      RunFinish(code, c, c.nextLabel, c.nextLabel, m);
      steps := 1;
    }
  }

  /** What leads on from a later state leads on from an earlier one. */
  lemma LeadsFromEarlier(
    code: Code, start: State, first: nat, middle: State, exits: Exits, variables: Stack<Variable>, outcome: Outcome, fuel: nat, fuel': nat,
    m: Machine, m1: Machine, next: Register, next': Register, steps: nat, m': Machine
  )
    requires Run(code, start, first) == middle && Leads(code, middle, exits, variables, outcome, fuel', m1, next', steps, m')
    requires KeepsRegisters(m, m1, next) && next <= next' && fuel <= first + fuel'
    ensures Leads(code, start, exits, variables, outcome, fuel, m, next, first + steps, m')
  {
    Compose(code, start, first, middle, steps);
  }

  lemma ScopedMatches(variables: Stack<Variable>, store: Store, m: Machine)
    requires Matches(variables, store, m)
    ensures Matches(variables + [[]], store + [[]], m)
  {
    var variables': Stack<Variable>, store': Store := variables + [[]], store + [[]];
    forall p: Position | Within(variables', p)
      ensures VariableMatches(variables'[p.scope][p.index].info, store'[p.scope][p.index].info, m)
    {
      assert Within(variables, p);
    }
  }

  /** Inside a list's own scope, then out of it. */
  lemma LeavingScope(
    code: Code, c: Context, open: Context, ended: Context, outcome: Outcome, fuel: nat, m: Machine, steps: nat, m': Machine
  )
    requires WellScoped(open) && Outer(open.variables) == c.variables && SameScopes(open, ended)
    requires Simulates(code, open, ended, outcome, fuel, m, steps, m')
    requires open.returnTypes == c.returnTypes
    ensures Leads(code, At(open, m), ExitsAt(CloseScope(ended, c), open.breakTarget), c.variables, LeaveScope(outcome), fuel,
                  m, open.nextRegister, steps, m')
  {
    match outcome {
      case Normal(store) =>
        OuterMatches(ended.variables, store, m');
        assert Outer(ended.variables) == c.variables;
      case _ =>
    }
  }

  ghost predicate MayOpen(c: Context, scope: seq<Named<Variable>>) {
    |scope| <= 1 && forall v :: v in scope ==> v.info.pointer < c.nextRegister && PointerIsNew(c.variables, v.info.pointer)
  }

  lemma BodyStaysOpen(open: Context, statements: seq<Statement>, p: Signature, store: Store, fuel: nat)
    requires NeedsFinisher(open) && GenerateStatements(open, statements, false).Some?
    ensures ExecuteStatements(p, store, statements, fuel).Normal? ==> NeedsFinisher(GenerateStatements(open, statements, false).value)
  {
    StatementsFinisher(open, statements, false);
    if EndsAway(statements, false) {
      AwayIsNotNormal(p, store, statements, fuel);
    }
  }

  /** A nested list followed by the jump that ends it. */
  lemma FinishLeads(
    code: Code, start: State, ended: Context, target: Label, next: Label, variables: Stack<Variable>, breakTarget: Option<Label>,
    outcome: Outcome, fuel: nat, m: Machine, k: Register, steps: nat, m': Machine
  ) returns (steps': nat)
    requires Leads(code, start, ExitsAt(ended, breakTarget), variables, outcome, fuel, m, k, steps, m')
    requires outcome.Normal? ==> NeedsFinisher(ended)
    requires Contains(code, Finish(ended, target, next))
    ensures Leads(code, start, Exits(target, 0, breakTarget, ended.returnTypes), variables, outcome, fuel, m, k, steps', m')
    ensures steps' >= steps
  {
    if outcome.Normal? {
      RunFinish(code, ended, target, next, m');
      Compose(code, start, steps, At(ended, m'), 1);
      steps' := steps + 1;
    } else {
      steps' := steps;
    }
  }

  // ----- If -----

  /** From before an arm to its body or to the next arm. */
  lemma RunArmCondition(code: Code, c: Context, condition: Expression, next: Label, store: Store, m: Machine)
    returns (steps: nat, m': Machine)
    requires EnterArm(c, condition, next).Some? && Contains(code, EnterArm(c, condition, next).value)
    requires WellScoped(c) && Matches(c.variables, store, m) && Faithful(condition)
    ensures match Evaluate(store, condition)
            case Evaluated(t, v) =>
              t.BooleanType? && v.Truth? && KeepsRegisters(m, m', c.nextRegister) && Matches(c.variables, store, m') &&
              Run(code, At(c, m), steps) == if v.truth then At(EnterArm(c, condition, next).value, m') else Running(next, 0, m')
            case UndefinedValue => Run(code, At(c, m), steps) == Halted(UndefinedBehaviour)
            case IllTyped => false
  {
    var body := c.nextLabel;
    var c0 := c.(nextLabel := body + 1);
    var c1 := GenerateCondition(c0, condition, body, next).value;
    ChangeBlockGrows(c1, body);
    ContainsEarlier(code, c1, EnterArm(c, condition, next).value);
    steps, m' := SimulateCondition(code, c0, condition, body, next, store, m);
    if Evaluate(store, condition).Evaluated? {
      MatchesPreserved(c.variables, store, m, m', c.nextRegister);
    }
  }

  lemma ArmContained(code: Code, c: Context, arm: Arm, next: Label, end: Label)
    requires WellScoped(c) && GenerateArm(c, arm, next, end).Some? && Contains(code, GenerateArm(c, arm, next, end).value)
    ensures var inside := EnterArm(c, arm.condition, next).value;
            KeepsVariables(c, inside) && Contains(code, inside) &&
            Contains(code, GenerateBody(inside, arm.statements, c.breakTarget, []).value) &&
            GenerateBody(inside, arm.statements, c.breakTarget, []).value.returnTypes == c.returnTypes
  {
    var inside := EnterArm(c, arm.condition, next).value;
    EnterArmKeeps(c, arm.condition, next);
    BodyKeeps(inside, arm.statements, c.breakTarget, []);
    var ended := GenerateBody(inside, arm.statements, c.breakTarget, []).value;
    FinishGrows(ended, end, next);
    ContainsEarlier(code, ended, Finish(ended, end, next));
    ContainsEarlier(code, inside, ended);
  }

  /** The body of the arm leads to the end block; a false condition leads to the next block. */
  ghost predicate ArmLeads(
    code: Code, c: Context, arm: Arm, next: Label, end: Label, store: Store, fuel: nat, m: Machine, steps: nat, m': Machine
  ) {
    match Evaluate(store, arm.condition)
    case Evaluated(t, v) =>
      t.BooleanType? && v.Truth? &&
      (if v.truth then
         Leads(code, At(c, m), Exits(end, 0, c.breakTarget, c.returnTypes), c.variables,
               ExecuteBody(SignatureOf(c), store, [], arm.statements, fuel), fuel, m, c.nextRegister, steps, m')
       else
         KeepsRegisters(m, m', c.nextRegister) && Matches(c.variables, store, m') &&
         Run(code, At(c, m), steps) == Running(next, 0, m'))
    case UndefinedValue => Run(code, At(c, m), steps) == Halted(UndefinedBehaviour)
    case IllTyped => false
  }

  /** Either an arm is taken and leads to the end block, or the machine is past the arms. */
  ghost predicate ArmsLead(
    code: Code, c: Context, after: Context, end: Label, result: Option<Outcome>, store: Store, fuel: nat, m: Machine, steps: nat, m': Machine
  ) {
    match result
    case Some(outcome) =>
      Leads(code, At(c, m), Exits(end, 0, c.breakTarget, c.returnTypes), c.variables, outcome, fuel, m, c.nextRegister, steps, m')
    case None =>
      Leads(code, At(c, m), ExitsAt(after, c.breakTarget), c.variables, Normal(store), fuel, m, c.nextRegister, steps, m')
  }

  lemma ArmsLeadFromEarlier(
    code: Code, c: Context, c1: Context, after: Context, end: Label, result: Option<Outcome>, store: Store, fuel: nat,
    m: Machine, first: nat, m1: Machine, second: nat, m': Machine
  )
    requires Run(code, At(c, m), first) == At(c1, m1) && KeepsRegisters(m, m1, c.nextRegister)
    requires KeepsVariables(c, c1) && ArmsLead(code, c1, after, end, result, store, fuel, m1, second, m')
    ensures ArmsLead(code, c, after, end, result, store, fuel, m, first + second, m')
  {
    var exits := if result.Some? then Exits(end, 0, c.breakTarget, c.returnTypes) else ExitsAt(after, c.breakTarget);
    var outcome := if result.Some? then result.value else Normal(store);
    LeadsFromEarlier(code, At(c, m), first, At(c1, m1), exits, c.variables, outcome, fuel, fuel, m, m1, c.nextRegister, c1.nextRegister, second, m');
  }

  lemma OneArmLeads(code: Code, c: Context, arm: Arm, end: Label, store: Store, fuel: nat, m: Machine, steps: nat, m': Machine)
    requires GenerateArm(c, arm, end, end).Some?
    requires ArmLeads(code, c, arm, end, end, store, fuel, m, steps, m')
    ensures ArmsLead(code, c, GenerateArm(c, arm, end, end).value, end, ExecuteArms(SignatureOf(c), store, [arm], fuel), store, fuel, m, steps, m')
  {
    assert [arm][1..] == [];
  }

  lemma FirstArmContained(code: Code, c: Context, arms: seq<Arm>, hasElse: bool, end: Label)
    requires arms != [] && (|arms| > 1 || hasElse) && WellScoped(c)
    requires GenerateArms(c, arms, hasElse, end).Some? && Contains(code, GenerateArms(c, arms, hasElse, end).value)
    ensures var c1 := GenerateArm(c.(nextLabel := c.nextLabel + 1), arms[0], c.nextLabel, end).value;
            KeepsVariables(c, c1) && Contains(code, c1) && c1.current == c.nextLabel && c1.instructions == []
  {
    var c0 := c.(nextLabel := c.nextLabel + 1);
    var c1 := GenerateArm(c0, arms[0], c.nextLabel, end).value;
    ArmKeeps(c0, arms[0], c.nextLabel, end);
    ArmsKeep(c1, arms[1..], hasElse, end);
    ContainsEarlier(code, c1, GenerateArms(c, arms, hasElse, end).value);
  }

  lemma FalseArmIsSkipped(p: Signature, store: Store, arms: seq<Arm>, fuel: nat)
    requires arms != []
    requires var e := Evaluate(store, arms[0].condition); e.Evaluated? && e.valueType.BooleanType? && e.value.Truth? && !e.value.truth
    ensures ExecuteArms(p, store, arms, fuel) == ExecuteArms(p, store, arms[1..], fuel)
  {
  }

  /** An arm that is taken, or whose condition is undefined, is what the whole if comes to. */
  lemma FirstArmDecides(
    code: Code, c: Context, arms: seq<Arm>, after: Context, end: Label, store: Store, fuel: nat, m: Machine, steps: nat, m': Machine
  )
    requires arms != [] && ArmLeads(code, c.(nextLabel := c.nextLabel + 1), arms[0], c.nextLabel, end, store, fuel, m, steps, m')
    requires var e := Evaluate(store, arms[0].condition); e.Evaluated? && e.value.Truth? ==> e.value.truth
    ensures ArmsLead(code, c, after, end, ExecuteArms(SignatureOf(c), store, arms, fuel), store, fuel, m, steps, m')
  {
  }

  /** A construct that leads to its end block simulates the statement. */
  lemma LeadsIsStatement(
    code: Code, c: Context, after: Context, outcome: Outcome, fuel: nat, m: Machine, steps: nat, m': Machine
  )
    requires Leads(code, At(c, m), Exits(after.current, 0, c.breakTarget, c.returnTypes), c.variables, outcome, fuel, m, c.nextRegister, steps, m')
    requires after.instructions == [] && after.variables == c.variables
    ensures Simulates(code, c, after, outcome, fuel, m, steps, m')
  {
    if outcome.Broke? {
      OuterMatches(c.variables, outcome.store, m');
    }
  }

  lemma IfContained(code: Code, c: Context, s: Statement)
    requires s.IfStatement? && s.elseStatements != [] && WellScoped(c) && GenerateIf(c, s).Some? && Contains(code, GenerateIf(c, s).value)
    ensures var c1 := GenerateArms(c.(nextLabel := c.nextLabel + 1), s.arms, true, c.nextLabel).value;
            KeepsVariables(c, c1) && Contains(code, c1) && c1.instructions == [] &&
            Contains(code, GenerateBody(c1, s.elseStatements, c.breakTarget, []).value) &&
            GenerateBody(c1, s.elseStatements, c.breakTarget, []).value.returnTypes == c.returnTypes
  {
    var end := c.nextLabel;
    var c0 := c.(nextLabel := end + 1);
    var c1 := GenerateArms(c0, s.arms, true, end).value;
    ArmsKeep(c0, s.arms, true, end);
    ArmsEndOpen(c0, s.arms, true, end);
    BodyKeeps(c1, s.elseStatements, c.breakTarget, []);
    var ended := GenerateBody(c1, s.elseStatements, c.breakTarget, []).value;
    FinishGrows(ended, end, end);
    ContainsEarlier(code, ended, Finish(ended, end, end));
    ContainsEarlier(code, c1, ended);
  }

  // ----- While -----

  /** The body of a while loop that has been entered, and its code. */
  ghost predicate WhileReady(code: Code, c: Context, statements: seq<Statement>, entry: Entry) {
    var ended := GenerateBody(entry.inside, statements, Some(entry.end), []);
    KeepsVariables(c, entry.inside) && entry.inside.instructions == [] && Contains(code, entry.inside) &&
    ended.Some? && ended.value.returnTypes == c.returnTypes && Contains(code, ended.value) &&
    Contains(code, Finish(ended.value, entry.head, entry.end))
  }

  lemma WhileIsReady(code: Code, c: Context, condition: Expression, statements: seq<Statement>)
    requires WellScoped(c) && GenerateWhile(c, condition, statements).Some? && Contains(code, GenerateWhile(c, condition, statements).value)
    ensures EnterWhile(c, condition).Some? && WhileReady(code, c, statements, EnterWhile(c, condition).value)
  {
    var entry := EnterWhile(c, condition).value;
    EnterWhileKeeps(c, condition);
    BodyKeeps(entry.inside, statements, Some(entry.end), []);
    var ended := GenerateBody(entry.inside, statements, Some(entry.end), []).value;
    FinishGrows(ended, entry.head, entry.end);
    ContainsEarlier(code, ended, Finish(ended, entry.head, entry.end));
    ContainsEarlier(code, entry.inside, ended);
  }

  lemma WhileHeadContained(code: Code, c: Context, condition: Expression)
    requires WellScoped(c) && EnterWhile(c, condition).Some? && Contains(code, EnterWhile(c, condition).value.inside)
    ensures var entry := EnterWhile(c, condition).value;
            var head := EnterNewBlock(c.(nextLabel := c.nextLabel + 2));
            KeepsVariables(c, head) && head.nextRegister == c.nextRegister && head.instructions == [] && head.current == entry.head &&
            Contains(code, GenerateCondition(head, condition, c.nextLabel + 1, entry.end).value)
  {
    var head, tested := EnterWhileSteps(c, condition);
    LoopHeadKeeps(c);
    HeadIsEmpty(c.(nextLabel := c.nextLabel + 2));
    ChangeBlockContained(code, tested, c.nextLabel + 1);
  }

  lemma ChangeBlockContained(code: Code, c: Context, id: Label)
    requires Contains(code, ChangeBlock(c, id))
    ensures Contains(code, c)
  {
    ChangeBlockGrows(c, id);
    ContainsEarlier(code, c, ChangeBlock(c, id));
  }

  /** One test of a while loop's condition, from its head. */
  lemma RunWhileCondition(code: Code, c: Context, condition: Expression, store: Store, m: Machine) returns (steps: nat, m': Machine)
    requires WellScoped(c) && EnterWhile(c, condition).Some? && Contains(code, EnterWhile(c, condition).value.inside)
    requires Matches(c.variables, store, m) && Faithful(condition)
    ensures var entry := EnterWhile(c, condition).value;
            match Evaluate(store, condition)
            case Evaluated(t, v) =>
              t.BooleanType? && v.Truth? && steps > 0 && KeepsRegisters(m, m', c.nextRegister) && Matches(c.variables, store, m') &&
              Run(code, Running(entry.head, 0, m), steps) == if v.truth then At(entry.inside, m') else Running(entry.end, 0, m')
            case UndefinedValue => Run(code, Running(entry.head, 0, m), steps) == Halted(UndefinedBehaviour)
            case IllTyped => false
  {
    var head := EnterNewBlock(c.(nextLabel := c.nextLabel + 2));
    WhileHeadContained(code, c, condition);
    steps, m' := SimulateCondition(code, head, condition, c.nextLabel + 1, c.nextLabel, store, m);
    assert At(head, m) == Running(head.current, 0, m);
    if Evaluate(store, condition).Evaluated? {
      MatchesPreserved(c.variables, store, m, m', c.nextRegister);
    }
  }

  lemma HeadIsEmpty(c: Context)
    ensures EnterNewBlock(c).instructions == []
  {
  }

  /** What a loop makes of a body that did not end normally. */
  function AfterIteration(body: Outcome): Outcome {
    if body.Broke? then Normal(body.store) else body
  }

  lemma WhileGoesOn(p: Signature, store: Store, condition: Expression, statements: seq<Statement>, fuel: nat)
    requires fuel > 0 && Evaluate(store, condition) == Evaluated(BooleanType, Truth(true))
    ensures var body := ExecuteBody(p, store, [], statements, fuel - 1);
            ExecuteWhile(p, store, condition, statements, fuel)
            == if body.Normal? then ExecuteWhile(p, body.store, condition, statements, fuel - 1) else AfterIteration(body)
  {
  }

  /** An iteration that ended normally, and the iterations after it. */
  lemma NextIterationLeads(
    code: Code, start: State, head: Label, exits: Exits, variables: Stack<Variable>, rest: Outcome,
    fuel: nat, m: Machine, next: Register, first: nat, m1: Machine, second: nat, m2: Machine
  ) returns (steps: nat, m': Machine)
    requires fuel > 0 && first > 0 && Run(code, start, first) == Running(head, 0, m1) && KeepsRegisters(m, m1, next)
    requires Leads(code, Running(head, 0, m1), exits, variables, rest, fuel - 1, m1, next, second, m2)
    ensures Leads(code, start, exits, variables, rest, fuel, m, next, steps, m')
  {
    LeadsFromEarlier(code, start, first, Running(head, 0, m1), exits, variables, rest, fuel, fuel - 1, m, m1, next, next, second, m2);
    steps, m' := first + second, m2;
  }

  /** An iteration that did not end normally is the loop's last. */
  lemma LastIterationLeads(
    code: Code, start: State, head: Label, end: Label, returnTypes: seq<Type>, variables: Stack<Variable>, body: Outcome,
    fuel: nat, m: Machine, next: Register, steps: nat, m': Machine
  )
    requires Leads(code, start, Exits(head, 0, Some(end), returnTypes), variables, body, fuel, m, next, steps, m') && !body.Normal?
    ensures Leads(code, start, Exits(end, 0, None, returnTypes), variables, AfterIteration(body), fuel, m, next, steps, m')
  {
  }

  // ----- For -----

  lemma ForContained(code: Code, c: Context, s: Statement)
    requires s.ForLoop? && WellScoped(c) && GenerateFor(c, s).Some? && Contains(code, GenerateFor(c, s).value)
    ensures var loop := GenerateLoopSetup(c, s.from, s.to).value;
            var entry := EnterFor(loop);
            var ended := GenerateBody(entry.inside, s.statements, Some(entry.end), [IndexVariable(s, loop)]).value;
            var tail := LoopTail(ended, loop, loop.context.nextRegister);
            KeepsVariables(c, loop.context) && KeepsVariables(loop.context, entry.inside) &&
            KeepsVariables(entry.inside, ended) &&
            MayOpen(entry.inside, [IndexVariable(s, loop)]) && PointersBelow(c.variables, loop.pointer) &&
            loop.pointer < loop.context.nextRegister && loop.limit < loop.context.nextRegister &&
            Contains(code, loop.context) && Contains(code, entry.inside) && Contains(code, ended) && Contains(code, tail)
  {
    LoopSetupKeeps(c, s.from, s.to);
    var loop := GenerateLoopSetup(c, s.from, s.to).value;
    EnterForKeeps(loop);
    var entry := EnterFor(loop);
    BodyKeeps(entry.inside, s.statements, Some(entry.end), [IndexVariable(s, loop)]);
    var ended := GenerateBody(entry.inside, s.statements, Some(entry.end), [IndexVariable(s, loop)]).value;
    var tail := LoopTail(ended, loop, loop.context.nextRegister);
    LoopTailKeeps(ended, loop, loop.context.nextRegister);
    FinishGrows(tail, entry.head, entry.end);
    ContainsEarlier(code, tail, Finish(tail, entry.head, entry.end));
    ContainsEarlier(code, ended, tail);
    ContainsEarlier(code, entry.inside, ended);
    ContainsEarlier(code, loop.context, entry.inside);
  }

  /** What a for loop's set-up has arranged: `ended` is the context at the end of the body. */
  ghost predicate ForReady(code: Code, c: Context, statements: seq<Statement>, name: string, loop: Loop, entry: Entry, ended: Context) {
    var scope := [Named(name, Variable(IntegerType(loop.indexType), loop.pointer))];
    var index := loop.context.nextRegister;
    entry == EnterFor(loop) && WellScoped(loop.context) && KeepsVariables(c, entry.inside) && entry.inside.instructions == [] &&
    c.nextRegister <= index < entry.inside.nextRegister <= ended.nextRegister && ended.returnTypes == c.returnTypes &&
    MayOpen(entry.inside, scope) && GenerateBody(entry.inside, statements, Some(entry.end), scope) == Some(ended) &&
    PointersBelow(c.variables, loop.pointer) && loop.pointer < index && loop.limit < index &&
    Contains(code, entry.inside) && Contains(code, ended) && Contains(code, LoopTail(ended, loop, index)) &&
    Contains(code, Finish(LoopTail(ended, loop, index), entry.head, entry.end))
  }

  lemma ForIsReady(code: Code, c: Context, s: Statement, loop: Loop) returns (ended: Context)
    requires s.ForLoop? && WellScoped(c) && GenerateFor(c, s).Some? && Contains(code, GenerateFor(c, s).value)
    requires GenerateLoopSetup(c, s.from, s.to) == Some(loop)
    ensures ForReady(code, c, s.statements, IndexName(s.indexName), loop, EnterFor(loop), ended)
    ensures KeepsVariables(c, loop.context) && NeedsFinisher(loop.context) && Contains(code, loop.context)
    ensures GenerateFor(c, s) == Some(Finish(LoopTail(ended, loop, loop.context.nextRegister), EnterFor(loop).head, EnterFor(loop).end))
    ensures GenerateFor(c, s).value.variables == c.variables
  {
    var entry := EnterFor(loop);
    ForContained(code, c, s);
    ForKeeps(c, s);
    KeepsVariablesTransitive(c, loop.context, entry.inside);
    ended := GenerateBody(entry.inside, s.statements, Some(entry.end), [IndexVariable(s, loop)]).value;
  }

  /** The test of a for loop, from its head block. */
  lemma RunForTest(code: Code, loop: Loop, current: int, limit: int, m: Machine) returns (steps: nat, m': Machine)
    requires WellScoped(loop.context) && Contains(code, EnterFor(loop).inside)
    requires LoopReady(loop.indexType, loop.pointer, loop.limit, current, limit, m)
    requires loop.pointer < loop.context.nextRegister && loop.limit < loop.context.nextRegister
    ensures var entry := EnterFor(loop);
            steps > 0 && Run(code, Running(entry.head, 0, m), steps) == if current > limit then Running(entry.end, 0, m') else At(entry.inside, m')
    ensures Preserves(m, m', loop.context.nextRegister) && HoldsInteger(m', loop.context.nextRegister, loop.indexType, current)
    ensures loop.context.nextRegister < EnterFor(loop).inside.nextRegister
    ensures EnterFor(loop).inside.instructions == []
  {
    var end, body := loop.context.nextLabel, loop.context.nextLabel + 1;
    var head := EnterNewBlock(loop.context.(nextLabel := end + 2));
    LoopHeadKeeps(loop.context);
    HeadIsEmpty(loop.context.(nextLabel := end + 2));
    ChangeBlockContained(code, LoopHead(head, loop, body, end), body);
    steps, m' := RunLoopHead(code, head, loop, body, end, current, limit, m);
  }

  /** From the end of a for loop's body to its head. */
  lemma ForIncrement(
    code: Code, loop: Loop, head: Label, end: Label, ended: Context, variables: Stack<Variable>, store: Store, index: Register, k: Register,
    current: int, limit: int, m1: Machine, m2: Machine
  ) returns (steps: nat, m': Machine)
    requires Contains(code, LoopTail(ended, loop, index)) && Contains(code, Finish(LoopTail(ended, loop, index), head, end))
    requires LoopReady(loop.indexType, loop.pointer, loop.limit, current, limit, m1) && HoldsInteger(m1, index, loop.indexType, current)
    requires KeepsRegisters(m1, m2, k) && index < k && loop.pointer < k && loop.limit < k && k <= ended.nextRegister
    requires Matches(variables, store, m2) && PointersBelow(variables, loop.pointer)
    ensures Run(code, At(ended, m2), steps) == Running(head, 0, m') && Matches(variables, store, m') && KeepsRegisters(m2, m', k)
    ensures LoopReady(loop.indexType, loop.pointer, loop.limit, Wrap(loop.indexType, current + 1), limit, m')
  {
    steps, m' := RunLoopTail(code, ended, loop, index, current, m2);
    RunFinish(code, LoopTail(ended, loop, index), head, end, m');
    Compose(code, At(ended, m2), steps, At(LoopTail(ended, loop, index), m'), 1);
    steps := steps + 1;
    SetupMatches(variables, store, loop.pointer, loop.pointer, m2, m');
    WrapInRange(loop.indexType, current + 1);
  }

  /** The outcome of a for loop's body, carried from the end of the body to the head. */
  lemma AfterForBody(
    code: Code, loop: Loop, head: Label, end: Label, inside: Context, ended: Context, variables: Stack<Variable>,
    body: Outcome, index: Register, current: int, limit: int, fuel: nat, m1: Machine, second: nat, m2: Machine
  ) returns (steps: nat, m': Machine)
    requires Contains(code, LoopTail(ended, loop, index)) && Contains(code, Finish(LoopTail(ended, loop, index), head, end))
    requires LoopReady(loop.indexType, loop.pointer, loop.limit, current, limit, m1) && HoldsInteger(m1, index, loop.indexType, current)
    requires loop.pointer < index && loop.limit < index && index < inside.nextRegister <= ended.nextRegister && PointersBelow(variables, loop.pointer)
    requires Leads(code, At(inside, m1), ExitsAt(ended, Some(end)), variables, body, fuel, m1, inside.nextRegister, second, m2)
    ensures Leads(code, At(inside, m1), Exits(head, 0, Some(end), ended.returnTypes), variables, body, fuel, m1, inside.nextRegister, steps, m')
    ensures body.Normal? ==> LoopReady(loop.indexType, loop.pointer, loop.limit, Wrap(loop.indexType, current + 1), limit, m')
  {
    steps, m' := second, m2;
    if body.Normal? {
      var third;
      third, m' := ForIncrement(code, loop, head, end, ended, variables, body.store, index, inside.nextRegister, current, limit, m1, m2);
      Compose(code, At(inside, m1), second, At(ended, m2), third);
      steps := second + third;
    }
  }

  /** The same from the head on, where the iteration started. */
  lemma BackAtHead(
    code: Code, start: State, loop: Loop, head: Label, end: Label, inside: Context, ended: Context, variables: Stack<Variable>,
    body: Outcome, index: Register, current: int, limit: int, fuel: nat, m: Machine, first: nat, m1: Machine, second: nat, m2: Machine
  ) returns (steps: nat, m': Machine)
    requires Contains(code, LoopTail(ended, loop, index)) && Contains(code, Finish(LoopTail(ended, loop, index), head, end))
    requires LoopReady(loop.indexType, loop.pointer, loop.limit, current, limit, m1) && HoldsInteger(m1, index, loop.indexType, current)
    requires loop.pointer < index && loop.limit < index && index < inside.nextRegister <= ended.nextRegister && PointersBelow(variables, loop.pointer)
    requires KeepsRegisters(m, m1, index) && Run(code, start, first) == At(inside, m1) && fuel > 0 && first > 0
    requires Leads(code, At(inside, m1), ExitsAt(ended, Some(end)), variables, body, fuel - 1, m1, inside.nextRegister, second, m2)
    ensures Leads(code, start, Exits(head, 0, Some(end), ended.returnTypes), variables, body, fuel, m, index, steps, m') && steps > 0
    ensures body.Normal? ==> LoopReady(loop.indexType, loop.pointer, loop.limit, Wrap(loop.indexType, current + 1), limit, m')
  {
    var third;
    third, m' := AfterForBody(code, loop, head, end, inside, ended, variables, body, index, current, limit, fuel - 1, m1, second, m2);
    LeadsFromEarlier(code, start, first, At(inside, m1), Exits(head, 0, Some(end), ended.returnTypes), variables, body, fuel, fuel - 1,
                     m, m1, index, inside.nextRegister, third, m');
    steps := first + third;
  }

  // ----- Statements -----

  lemma WhileEntered(code: Code, c: Context, condition: Expression, m: Machine) returns (steps: nat)
    requires WellScoped(c) && NeedsFinisher(c) && EnterWhile(c, condition).Some? && Contains(code, EnterWhile(c, condition).value.inside)
    ensures Run(code, At(c, m), steps) == Running(EnterWhile(c, condition).value.head, 0, m)
  {
    var entered := c.(nextLabel := c.nextLabel + 2);
    var head := EnterNewBlock(entered);
    WhileHeadContained(code, c, condition);
    ConditionKeeps(head, condition, c.nextLabel + 1, c.nextLabel);
    ContainsEarlier(code, head, GenerateCondition(head, condition, c.nextLabel + 1, c.nextLabel).value);
    steps := RunEnter(code, entered, m);
  }

  /** The way to the head of a while loop, and where the loop ends. */
  lemma WhileStatementEntered(code: Code, c: Context, condition: Expression, statements: seq<Statement>, m: Machine) returns (steps: nat)
    requires WellScoped(c) && NeedsFinisher(c) && GenerateWhile(c, condition, statements).Some?
    requires Contains(code, GenerateWhile(c, condition, statements).value)
    ensures var after, entry := GenerateWhile(c, condition, statements).value, EnterWhile(c, condition).value;
            Run(code, At(c, m), steps) == Running(entry.head, 0, m) && WhileReady(code, c, statements, entry) &&
            after.instructions == [] && after.variables == c.variables && after.current == entry.end
  {
    WhileIsReady(code, c, condition, statements);
    WhileKeeps(c, condition, statements);
    steps := WhileEntered(code, c, condition, m);
  }

  /** A loop reached from `c` that leads to its end block simulates the statement. */
  lemma LoopIsStatement(
    code: Code, c: Context, after: Context, outcome: Outcome, fuel: nat, first: nat, head: Label, m: Machine, m1: Machine, next: Register,
    second: nat, m': Machine
  )
    requires Run(code, At(c, m), first) == Running(head, 0, m1) && KeepsRegisters(m, m1, c.nextRegister) && c.nextRegister <= next
    requires Leads(code, Running(head, 0, m1), Exits(after.current, 0, None, c.returnTypes), c.variables, outcome, fuel, m1, next, second, m')
    requires after.instructions == [] && after.variables == c.variables
    ensures Simulates(code, c, after, outcome, fuel, m, first + second, m')
  {
    LeadsFromEarlier(code, At(c, m), first, Running(head, 0, m1), Exits(after.current, 0, None, c.returnTypes), c.variables, outcome, fuel, fuel,
                     m, m1, c.nextRegister, next, second, m');
    LeadsIsStatement(code, c, after, outcome, fuel, m, first + second, m');
  }

  lemma ForEntered(code: Code, loop: Loop, m: Machine) returns (steps: nat)
    requires WellScoped(loop.context) && NeedsFinisher(loop.context) && Contains(code, EnterFor(loop).inside)
    ensures Run(code, At(loop.context, m), steps) == Running(EnterFor(loop).head, 0, m)
  {
    var end, body := loop.context.nextLabel, loop.context.nextLabel + 1;
    var entered := loop.context.(nextLabel := end + 2);
    var head := EnterNewBlock(entered);
    var tested := LoopHead(head, loop, body, end);
    LoopHeadKeeps(loop.context);
    EmitKeeps(head, tested.instructions[|head.instructions|..], tested.nextRegister);
    ChangeBlockContained(code, tested, body);
    ContainsEarlier(code, head, tested);
    steps := RunEnter(code, entered, m);
  }

  /** What the bounds of a loop lead to: the head with the index and the limit ready. */
  ghost predicate ReachesHead(
    code: Code, c: Context, loop: Loop, head: Label, bounds: Bounds, store: Store, m: Machine, steps: nat, m': Machine
  ) {
    match bounds
    case Bounds(t, first, limit) =>
      t == loop.indexType && Run(code, At(c, m), steps) == Running(head, 0, m') &&
      LoopReady(t, loop.pointer, loop.limit, first, limit, m') && Matches(c.variables, store, m') && KeepsRegisters(m, m', c.nextRegister)
    case BoundsFailed(outcome) => outcome.UndefinedOutcome? && Run(code, At(c, m), steps) == Halted(UndefinedBehaviour)
  }

  /** From the end of the set-up, the jump into the head block. */
  lemma HeadReached(code: Code, c: Context, loop: Loop, bounds: Bounds, store: Store, m: Machine, first: nat, m1: Machine) returns (steps: nat)
    requires SetupCorrect(code, c, loop, bounds, store, m, first, m1)
    requires Contains(code, EnterFor(loop).inside) && WellScoped(loop.context) && NeedsFinisher(loop.context)
    ensures ReachesHead(code, c, loop, EnterFor(loop).head, bounds, store, m, steps, m1)
  {
    steps := first;
    if bounds.Bounds? {
      var second := ForEntered(code, loop, m1);
      Compose(code, At(c, m), first, At(loop.context, m1), second);
      steps := first + second;
    }
  }

  lemma IfEnds(c: Context, s: Statement)
    requires s.IfStatement? && GenerateIf(c, s).Some?
    ensures GenerateIf(c, s).value.instructions == [] && GenerateIf(c, s).value.current == c.nextLabel
  {
    ArmsEndOpen(c.(nextLabel := c.nextLabel + 1), s.arms, s.elseStatements != [], c.nextLabel);
  }

  /** A statement that ended normally, then the rest of its list. */
  lemma SequenceSimulates(
    code: Code, c: Context, c1: Context, after: Context, store: Store, outcome: Outcome, fuel: nat,
    m: Machine, first: nat, m1: Machine, second: nat, m': Machine
  )
    requires Keeps(c, c1) && Simulates(code, c, c1, Normal(store), fuel, m, first, m1)
    requires Simulates(code, c1, after, outcome, fuel, m1, second, m')
    ensures Simulates(code, c, after, outcome, fuel, m, first + second, m')
  {
    Compose(code, At(c, m), first, At(c1, m1), second);
    assert Outer(c.variables) == Outer(c1.variables);
  }

  lemma NextContained(code: Code, c: Context, statements: seq<Statement>)
    requires statements != [] && !statements[0].Declaration? && WellScoped(c)
    requires GenerateStatements(c, statements, false).Some? && Contains(code, GenerateStatements(c, statements, false).value)
    ensures GenerateStatement(c, statements[0]).Some?
    ensures var c1 := GenerateStatement(c, statements[0]).value;
            Keeps(c, c1) && Contains(code, c1) && SignatureOf(c1) == SignatureOf(c) &&
            (NeedsFinisher(c) && !Leaves(statements[0]) ==> NeedsFinisher(c1)) &&
            GenerateStatements(c1, statements[1..], Leaves(statements[0])) == GenerateStatements(c, statements, false)
  {
    var c1 := GenerateStatement(c, statements[0]).value;
    StatementKeeps(c, statements[0]);
    StatementsKeep(c1, statements[1..], Leaves(statements[0]));
    if NeedsFinisher(c) {
      StatementFinisher(c, statements[0]);
    }
    ContainsEarlier(code, c1, GenerateStatements(c, statements, false).value);
  }

}
