/** The emitted blocks form a closed graph: every label that is allocated is placed exactly once. */
module ControlFlow {
  import opened Integers
  import opened Options
  import opened Ast
  import opened Hlir
  import opened Source
  import opened Folding
  import opened Lowering

  /** How many blocks have the label `l`. */
  function Times(blocks: seq<Block>, l: Label): nat {
    if blocks == [] then 0 else Times(blocks[..|blocks| - 1], l) + Is(blocks[|blocks| - 1].id, l)
  }

  function Is(id: Label, l: Label): nat {
    if id == l then 1 else 0
  }

  /** How often `l` has been placed, the open block included. */
  function Placed(c: Context, l: Label): nat {
    Times(c.blocks, l) + Is(c.current, l)
  }

  function Allocated(low: Label, high: Label, l: Label): nat {
    if low <= l < high then 1 else 0
  }

  /** From `c` to `c'`, `l` was placed `pending` times, and once more if it was allocated in between. */
  ghost predicate Places(c: Context, c': Context, l: Label, pending: nat) {
    c.nextLabel <= c'.nextLabel && Placed(c', l) == Placed(c, l) + pending + Allocated(c.nextLabel, c'.nextLabel, l)
  }

  lemma ChangeBlockPlaces(c: Context, id: Label, l: Label)
    ensures Places(c, ChangeBlock(c, id), l, Is(id, l))
  {
    var c' := ChangeBlock(c, id);
    assert c'.blocks[..|c'.blocks| - 1] == c.blocks;
  }

  lemma FinishPlaces(c: Context, target: Label, next: Label, l: Label)
    ensures Places(c, Finish(c, target, next), l, Is(next, l))
  {
    ChangeBlockPlaces(JumpIfNeeded(c, target), next, l);
  }

  lemma EnterNewBlockPlaces(c: Context, l: Label)
    ensures Places(c, EnterNewBlock(c), l, 0)
  {
    if c.instructions != [] {
      ChangeBlockPlaces(JumpIfNeeded(c, c.nextLabel), c.nextLabel, l);
    }
  }

  lemma EnterArmPlaces(c: Context, condition: Expression, next: Label, l: Label)
    requires EnterArm(c, condition, next).Some?
    ensures Places(c, EnterArm(c, condition, next).value, l, 0)
  {
    var body := c.nextLabel;
    ChangeBlockPlaces(GenerateCondition(c.(nextLabel := body + 1), condition, body, next).value, body, l);
  }

  /** A loop's entry allocates and places everything but the end label. */
  ghost predicate Enters(c: Context, entry: Entry, l: Label) {
    entry.end == c.nextLabel < entry.inside.nextLabel &&
    Placed(entry.inside, l) == Placed(c, l) + Allocated(c.nextLabel + 1, entry.inside.nextLabel, l)
  }

  lemma EnterWhilePlaces(c: Context, condition: Expression, l: Label)
    requires EnterWhile(c, condition).Some?
    ensures Enters(c, EnterWhile(c, condition).value, l)
  {
    var head, tested := EnterWhileSteps(c, condition);
    EnterNewBlockPlaces(c.(nextLabel := c.nextLabel + 2), l);
    ChangeBlockPlaces(tested, c.nextLabel + 1, l);
  }

  lemma EnterForPlaces(loop: Loop, l: Label)
    ensures Enters(loop.context, EnterFor(loop), l)
  {
    var end, body := loop.context.nextLabel, loop.context.nextLabel + 1;
    var head := EnterNewBlock(loop.context.(nextLabel := end + 2));
    EnterNewBlockPlaces(loop.context.(nextLabel := end + 2), l);
    ChangeBlockPlaces(LoopHead(head, loop, body, end), body, l);
  }

  lemma {:induction false} BodyPlaces(c: Context, statements: seq<Statement>, breakTarget: Option<Label>, scope: seq<Named<Variable>>, l: Label)
    requires GenerateBody(c, statements, breakTarget, scope).Some?
    ensures Places(c, GenerateBody(c, statements, breakTarget, scope).value, l, 0)
    decreases statements, 1
  {
    StatementsPlace(OpenScope(c, breakTarget, scope), statements, false, l);
  }

  lemma {:induction false} ArmPlaces(c: Context, arm: Arm, next: Label, end: Label, l: Label)
    requires GenerateArm(c, arm, next, end).Some?
    ensures Places(c, GenerateArm(c, arm, next, end).value, l, Is(next, l))
    decreases arm
  {
    EnterArmPlaces(c, arm.condition, next, l);
    var inside := EnterArm(c, arm.condition, next).value;
    BodyPlaces(inside, arm.statements, c.breakTarget, [], l);
    FinishPlaces(GenerateBody(inside, arm.statements, c.breakTarget, []).value, end, next, l);
  }

  /** The arms place the end label if there is no else; with an else it is still to be placed. */
  lemma {:induction false} ArmsPlace(c: Context, arms: seq<Arm>, hasElse: bool, end: Label, l: Label)
    requires arms != [] && GenerateArms(c, arms, hasElse, end).Some?
    ensures Places(c, GenerateArms(c, arms, hasElse, end).value, l, if hasElse then 0 else Is(end, l))
    decreases arms
  {
    if |arms| == 1 && !hasElse {
      ArmPlaces(c, arms[0], end, end, l);
    } else {
      var c0 := c.(nextLabel := c.nextLabel + 1);
      ArmPlaces(c0, arms[0], c.nextLabel, end, l);
      if |arms| > 1 {
        ArmsPlace(GenerateArm(c0, arms[0], c.nextLabel, end).value, arms[1..], hasElse, end, l);
      } else {
        assert arms[1..] == [];
      }
    }
  }

  lemma {:induction false} IfPlaces(c: Context, s: Statement, l: Label)
    requires s.IfStatement? && GenerateIf(c, s).Some?
    ensures Places(c, GenerateIf(c, s).value, l, 0)
    decreases s, 0
  {
    var end, hasElse := c.nextLabel, s.elseStatements != [];
    var c0 := c.(nextLabel := end + 1);
    ArmsPlace(c0, s.arms, hasElse, end, l);
    if hasElse {
      var c1 := GenerateArms(c0, s.arms, hasElse, end).value;
      BodyPlaces(c1, s.elseStatements, c.breakTarget, [], l);
      FinishPlaces(GenerateBody(c1, s.elseStatements, c.breakTarget, []).value, end, end, l);
    }
  }

  lemma {:induction false} WhilePlaces(c: Context, condition: Expression, statements: seq<Statement>, l: Label)
    requires GenerateWhile(c, condition, statements).Some?
    ensures Places(c, GenerateWhile(c, condition, statements).value, l, 0)
    decreases statements, 2
  {
    EnterWhilePlaces(c, condition, l);
    var entry := EnterWhile(c, condition).value;
    BodyPlaces(entry.inside, statements, Some(entry.end), [], l);
    FinishPlaces(GenerateBody(entry.inside, statements, Some(entry.end), []).value, entry.head, entry.end, l);
  }

  lemma {:induction false} ForPlaces(c: Context, s: Statement, l: Label)
    requires s.ForLoop? && GenerateFor(c, s).Some?
    ensures Places(c, GenerateFor(c, s).value, l, 0)
    decreases s, 0
  {
    var loop := GenerateLoopSetup(c, s.from, s.to).value;
    EnterForPlaces(loop, l);
    var entry := EnterFor(loop);
    BodyPlaces(entry.inside, s.statements, Some(entry.end), [IndexVariable(s, loop)], l);
    var ended := GenerateBody(entry.inside, s.statements, Some(entry.end), [IndexVariable(s, loop)]).value;
    FinishPlaces(LoopTail(ended, loop, loop.context.nextRegister), entry.head, entry.end, l);
  }

  lemma {:induction false} StatementPlaces(c: Context, s: Statement, l: Label)
    requires GenerateStatement(c, s).Some?
    ensures Places(c, GenerateStatement(c, s).value, l, 0)
    decreases s, 1
  {
    match s
    case IfStatement(_, _) => IfPlaces(c, s, l);
    case WhileLoop(condition, statements) => WhilePlaces(c, condition, statements, l);
    case ForLoop(_, _, _, _) => ForPlaces(c, s, l);
    case _ =>
  }

  /** Statements place exactly the labels they allocate, each once. */
  lemma {:induction false} StatementsPlace(c: Context, statements: seq<Statement>, unreachable: bool, l: Label)
    requires GenerateStatements(c, statements, unreachable).Some?
    ensures Places(c, GenerateStatements(c, statements, unreachable).value, l, 0)
    decreases statements, 0
  {
    if statements == [] {
    } else if statements[0].Declaration? {
      StatementsPlace(c, statements[1..], unreachable, l);
    } else {
      StatementPlaces(c, statements[0], l);
      StatementsPlace(GenerateStatement(c, statements[0]).value, statements[1..], Leaves(statements[0]), l);
    }
  }

  lemma {:induction false} ParametersPlace(c: Context, parameters: seq<Parameter>, index: Register, l: Label)
    requires forall p :: p in parameters ==> IsRuntimeType(p.parameterType)
    ensures Places(c, GenerateParameters(c, parameters, index), l, 0)
    decreases parameters
  {
    if parameters != [] {
      var c1 := Emit(c, [AllocateLocal(IRTypeOf(parameters[0].parameterType), c.nextRegister), Store(index, c.nextRegister)], c.nextRegister + 1);
      var added := AddNewVariable(c1, parameters[0].name, Variable(parameters[0].parameterType, c.nextRegister));
      ParametersPlace(if added.Some? then added.value else c1, parameters[1..], index + 1, l);
    }
  }

  lemma LastBlockPlaced(blocks: seq<Block>, last: Block, l: Label)
    ensures Times(blocks + [last], l) == Times(blocks, l) + Is(last.id, l)
  {
    assert (blocks + [last])[..|blocks|] == blocks;
  }

  /** The context at the end of a function's statements. */
  function FinalContext(f: Function, defaultSize: RegisterSize): Context
    requires GenerateFunction(f, defaultSize).Some?
  {
    GenerateStatements(GenerateParameters(InitialContext(f, defaultSize), f.parameters, 0), f.statements, false).value
  }

  /** Of the labels of a function, each belongs to exactly one block, and no block has another label. */
  lemma LabelsPlacedOnce(f: Function, defaultSize: RegisterSize, l: Label)
    requires GenerateFunction(f, defaultSize).Some?
    ensures Times(GenerateFunction(f, defaultSize).value, l) == if l < FinalContext(f, defaultSize).nextLabel then 1 else 0
  {
    var start := GenerateParameters(InitialContext(f, defaultSize), f.parameters, 0);
    ParametersPlace(InitialContext(f, defaultSize), f.parameters, 0, l);
    StatementsPlace(start, f.statements, false, l);
    var c := FinalContext(f, defaultSize);
    var blocks := GenerateFunction(f, defaultSize).value;
    LastBlockPlaced(c.blocks, blocks[|blocks| - 1], l);
  }
}
