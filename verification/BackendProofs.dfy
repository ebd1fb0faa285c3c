/** Every function the generator accepts passes the backend's checks, block by block. */
module BackendProofs {
  import opened Integers
  import opened Options
  import opened Ast
  import opened Hlir
  import opened Source
  import opened Folding
  import opened Lowering
  import opened BackendChecks
  import opened BackendExpressions

  /** What the blocks of one function are checked against: its return type and what is known before block 0. */
  datatype Setting = Setting(returnTypes: seq<Type>, start: Known)

  /** The code generated so far passes, and `k` is what is known at its end. */
  ghost predicate CodeChecked(setting: Setting, entries: Entries, c: Context, k: Known) {
    c.returnTypes == setting.returnTypes && c.current in entries && Consistent(k) && k.next == c.nextRegister &&
    var before := CheckBlocks(entries, setting.returnTypes, c.blocks, setting.start);
    before.Some? && CheckAll(entries, setting.returnTypes, c.instructions, before.value.(available := entries[c.current])) == Some(k)
  }

  ghost predicate EntriesUsable(entries: Entries, c: Context, k: Known) {
    forall l :: l in entries ==> l < c.nextLabel && entries[l] <= k.types.Keys
  }

  ghost predicate Checked(setting: Setting, entries: Entries, c: Context, k: Known) {
    CodeChecked(setting, entries, c, k) && EntriesUsable(entries, c, k) && VariablesUsable(c.variables, k) &&
    (c.breakTarget.Some? ==> Reaches(entries, k, c.breakTarget.value))
  }

  /** From one point of a nesting level to a later one. */
  ghost predicate Proceeds(entries: Entries, k: Known, entries': Entries, k': Known) {
    MoreEntries(entries, entries') && Learns(k, k')
  }

  lemma EmitChecked(setting: Setting, entries: Entries, c: Context, code: seq<Instruction>, next: Register, k: Known, k': Known)
    requires Checked(setting, entries, c, k) && Passes(entries, setting.returnTypes, code, k, next, k')
    ensures Checked(setting, entries, Emit(c, code, next), k')
  {
    var before := CheckBlocks(entries, setting.returnTypes, c.blocks, setting.start).value;
    CheckAllAppend(entries, setting.returnTypes, c.instructions, code, before.(available := entries[c.current]));
    VariablesUsableLater(c.variables, k, k');
  }

  /** A terminator: it defines nothing. */
  lemma TerminatorPasses(setting: Setting, entries: Entries, i: Instruction, k: Known)
    requires Consistent(k) && Check(entries, setting.returnTypes, i, k) == Some(k)
    ensures Passes(entries, setting.returnTypes, [i], k, k.next, k)
  {
    CheckOne(entries, setting.returnTypes, i, k);
  }

  /** A new label, relying on what is known where it is introduced. */
  lemma LabelChecked(setting: Setting, entries: Entries, c: Context, l: Label, k: Known) returns (entries': Entries)
    requires Checked(setting, entries, c, k) && l !in entries && l < c.nextLabel
    ensures entries' == entries[l := k.available] && MoreEntries(entries, entries') && Checked(setting, entries', c, k)
  {
    entries' := entries[l := k.available];
    var before := CheckBlocks(entries, setting.returnTypes, c.blocks, setting.start).value;
    CheckBlocksWithMore(entries, entries', setting.returnTypes, c.blocks, setting.start);
    CheckAllWithMore(entries, entries', setting.returnTypes, c.instructions, before.(available := entries[c.current]));
  }

  lemma MoreLabels(setting: Setting, entries: Entries, c: Context, count: nat, k: Known)
    requires Checked(setting, entries, c, k)
    ensures Checked(setting, entries, c.(nextLabel := c.nextLabel + count), k)
  {
  }

  /** Going on in a block that relies on what was known at an earlier point `k0`. */
  lemma ChangeBlockChecked(setting: Setting, entries: Entries, c: Context, id: Label, k0: Known, k: Known) returns (k': Known)
    requires Checked(setting, entries, c, k) && id in entries && entries[id] == k0.available && KeepsTypes(k0, k)
    requires VariablesUsable(c.variables, k0) && (c.breakTarget.Some? ==> Reaches(entries, k0, c.breakTarget.value))
    ensures k' == k.(available := k0.available) && Learns(k0, k') && Checked(setting, entries, ChangeBlock(c, id), k')
  {
    k' := k.(available := k0.available);
    var c' := ChangeBlock(c, id);
    assert c'.blocks[..|c'.blocks| - 1] == c.blocks;
    assert c'.blocks[|c'.blocks| - 1] == Block(c.current, c.instructions);
    assert CheckBlocks(entries, setting.returnTypes, c'.blocks, setting.start) == Some(k);
    VariablesUsableLater(c.variables, k0, k');
  }

  lemma JumpChecked(setting: Setting, entries: Entries, c: Context, target: Label, k: Known)
    requires Checked(setting, entries, c, k) && Reaches(entries, k, target)
    ensures Checked(setting, entries, JumpIfNeeded(c, target), k)
  {
    if NeedsFinisher(c) {
      TerminatorPasses(setting, entries, Jump(target), k);
      EmitChecked(setting, entries, c, [Jump(target)], c.nextRegister, k, k);
    }
  }

  lemma FinishChecked(setting: Setting, entries: Entries, c: Context, target: Label, next: Label, k0: Known, k: Known) returns (k': Known)
    requires Checked(setting, entries, c, k) && Reaches(entries, k, target) && next in entries && entries[next] == k0.available && Learns(k0, k)
    requires VariablesUsable(c.variables, k0) && (c.breakTarget.Some? ==> Reaches(entries, k0, c.breakTarget.value))
    ensures k' == k.(available := k0.available) && Learns(k0, k') && Checked(setting, entries, Finish(c, target, next), k')
  {
    JumpChecked(setting, entries, c, target, k);
    k' := ChangeBlockChecked(setting, entries, JumpIfNeeded(c, target), next, k0, k);
  }

  /** The block a loop's head starts in: everything known before the loop is known there. */
  lemma EnterNewBlockChecked(setting: Setting, entries: Entries, c: Context, k: Known) returns (entries': Entries, k': Known)
    requires Checked(setting, entries, c, k)
    ensures var head := EnterNewBlock(c);
            Checked(setting, entries', head, k') && Proceeds(entries, k, entries', k') && k' == k && entries'[head.current] == k.available &&
            forall l :: l in entries' && l !in entries ==> c.nextLabel <= l < head.nextLabel
  {
    if c.instructions == [] {
      entries', k' := entries, k;
    } else {
      var c1 := c.(nextLabel := c.nextLabel + 1);
      MoreLabels(setting, entries, c, 1, k);
      entries' := LabelChecked(setting, entries, c1, c.nextLabel, k);
      JumpChecked(setting, entries', c1, c.nextLabel, k);
      k' := ChangeBlockChecked(setting, entries', JumpIfNeeded(c1, c.nextLabel), c.nextLabel, k, k);
    }
  }

  // ----- Simple statements -----

  /** A boolean value forced into a register and branched on. */
  lemma BranchPasses(
    setting: Setting, entries: Entries, g: Generated, trueTarget: Label, falseTarget: Label, k: Known, k1: Known
  ) returns (k': Known)
    requires Consistent(k) && GeneratedPasses(entries, setting.returnTypes, g, k, k1) && g.valueType.BooleanType?
    requires Reaches(entries, k, trueTarget) && Reaches(entries, k, falseTarget)
    ensures var f := InRegister(IRBoolean, g.value, g.next);
            Passes(entries, setting.returnTypes, g.code + f.code + [Branch(f.register, trueTarget, falseTarget)], k, f.next, k')
  {
    var f := InRegister(IRBoolean, g.value, g.next);
    var branch := Branch(f.register, trueTarget, falseTarget);
    k' := InRegisterPasses(entries, setting.returnTypes, BooleanType, g.value, k1);
    PassesOn(entries, setting.returnTypes, g.code, f.code, k, g.next, k1, f.next, k');
    TerminatorPasses(setting, entries, branch, k');
    PassesOn(entries, setting.returnTypes, g.code + f.code, [branch], k, f.next, k', f.next, k');
  }

  lemma ConditionChecked(setting: Setting, entries: Entries, c: Context, condition: Expression, trueTarget: Label, falseTarget: Label, k: Known)
    returns (k': Known)
    requires Checked(setting, entries, c, k) && GenerateCondition(c, condition, trueTarget, falseTarget).Some?
    requires Reaches(entries, k, trueTarget) && Reaches(entries, k, falseTarget)
    ensures Checked(setting, entries, GenerateCondition(c, condition, trueTarget, falseTarget).value, k') && Learns(k, k')
  {
    var g := GenerateExpression(c.variables, c.nextRegister, condition).value;
    var f := InRegister(IRBoolean, g.value, g.next);
    var k1 := ExpressionPasses(entries, setting.returnTypes, c.variables, condition, k);
    k' := BranchPasses(setting, entries, g, trueTarget, falseTarget, k, k1);
    EmitChecked(setting, entries, c, g.code + f.code + [Branch(f.register, trueTarget, falseTarget)], f.next, k, k');
  }

  lemma ReturnValueChecked(setting: Setting, entries: Entries, c: Context, t: Type, g: Generated, k: Known, k1: Known) returns (k': Known)
    requires Checked(setting, entries, c, k) && c.returnTypes == [t] && GeneratedPasses(entries, setting.returnTypes, g, k, k1)
    requires CoerceToRegister(g.valueType, g.value, t, g.next).Some?
    ensures var f := CoerceToRegister(g.valueType, g.value, t, g.next).value;
            Checked(setting, entries, Emit(c, g.code + f.code + [Return(Some(f.register))], f.next), k') && Learns(k, k')
  {
    var f := CoerceToRegister(g.valueType, g.value, t, g.next).value;
    var last := Return(Some(f.register));
    k' := CoercePasses(entries, setting.returnTypes, g.valueType, g.value, t, k1);
    PassesOn(entries, setting.returnTypes, g.code, f.code, k, g.next, k1, f.next, k');
    TerminatorPasses(setting, entries, last, k');
    PassesOn(entries, setting.returnTypes, g.code + f.code, [last], k, f.next, k', f.next, k');
    EmitChecked(setting, entries, c, g.code + f.code + [last], f.next, k, k');
  }

  lemma ReturnChecked(setting: Setting, entries: Entries, c: Context, values: seq<Expression>, k: Known) returns (k': Known)
    requires Checked(setting, entries, c, k) && GenerateReturn(c, values).Some?
    ensures Checked(setting, entries, GenerateReturn(c, values).value, k') && Learns(k, k')
  {
    if values == [] {
      TerminatorPasses(setting, entries, Return(None), k);
      EmitChecked(setting, entries, c, [Return(None)], c.nextRegister, k, k);
      k' := k;
    } else {
      var g := GenerateExpression(c.variables, c.nextRegister, values[0]).value;
      var k1 := ExpressionPasses(entries, setting.returnTypes, c.variables, values[0], k);
      k' := ReturnValueChecked(setting, entries, c, c.returnTypes[0], g, k, k1);
    }
  }

  lemma StorePasses(setting: Setting, entries: Entries, t: Type, register: Register, pointer: Register, k: Known)
    requires Consistent(k) && IsRuntimeType(t) && Holds(k, register, ValueRegister(IRTypeOf(t))) && Holds(k, pointer, PointerRegister(IRTypeOf(t)))
    ensures Passes(entries, setting.returnTypes, [Store(register, pointer)], k, k.next, k)
  {
    CheckOne(entries, setting.returnTypes, Store(register, pointer), k);
  }

  lemma AssignmentChecked(setting: Setting, entries: Entries, c: Context, target: Expression, value: Expression, k: Known) returns (k': Known)
    requires Checked(setting, entries, c, k) && GenerateStore(c, target, value).Some?
    ensures Checked(setting, entries, GenerateStore(c, target, value).value, k') && Learns(k, k')
  {
    var t := GenerateExpression(c.variables, c.nextRegister, target).value;
    var g := GenerateExpression(c.variables, t.next, value).value;
    var f := CoerceToRegister(g.valueType, g.value, t.valueType, g.next).value;
    var k1 := ExpressionPasses(entries, setting.returnTypes, c.variables, target, k);
    VariablesUsableLater(c.variables, k, k1);
    var k2 := ExpressionPasses(entries, setting.returnTypes, c.variables, value, k1);
    k' := CoercePasses(entries, setting.returnTypes, g.valueType, g.value, t.valueType, k2);
    StorePasses(setting, entries, t.valueType, f.register, t.value.pointer, k');
    PassesOn(entries, setting.returnTypes, t.code, g.code, k, t.next, k1, g.next, k2);
    PassesOn(entries, setting.returnTypes, t.code + g.code, f.code, k, g.next, k2, f.next, k');
    PassesOn(entries, setting.returnTypes, t.code + g.code + f.code, [Store(f.register, t.value.pointer)], k, f.next, k', f.next, k');
    EmitChecked(setting, entries, c, t.code + g.code + f.code + [Store(f.register, t.value.pointer)], f.next, k, k');
  }

  lemma AllocatePasses(setting: Setting, entries: Entries, irType: IRType, k: Known) returns (k': Known)
    requires Consistent(k)
    ensures Passes(entries, setting.returnTypes, [AllocateLocal(irType, k.next)], k, k.next + 1, k') && Holds(k', k.next, PointerRegister(irType))
  {
    CheckOne(entries, setting.returnTypes, AllocateLocal(irType, k.next), k);
    CheckLearns(entries, setting.returnTypes, AllocateLocal(irType, k.next), k);
    k' := Check(entries, setting.returnTypes, AllocateLocal(irType, k.next), k).value;
  }

  lemma DeclareChecked(setting: Setting, entries: Entries, c: Context, name: string, variable: Variable, k: Known)
    requires Checked(setting, entries, c, k) && AddNewVariable(c, name, variable).Some?
    requires Usable(variable.variableType, AddressedValue(variable.pointer), k)
    ensures Checked(setting, entries, AddNewVariable(c, name, variable).value, k)
  {
    var c' := AddNewVariable(c, name, variable).value;
    var last := |c.variables| - 1;
    assert forall p :: Within(c'.variables, p) ==>
      (Within(c.variables, p) && c'.variables[p.scope][p.index] == c.variables[p.scope][p.index]) ||
      (p == Position(last, |c.variables[last]|) && c'.variables[p.scope][p.index].info == variable);
  }

  /** The code of a value and of the new local that holds it. */
  lemma LocalPasses(setting: Setting, entries: Entries, t: Type, g: Generated, f: Forced, k: Known, k1: Known) returns (k': Known)
    requires Consistent(k) && GeneratedPasses(entries, setting.returnTypes, g, k, k1)
    requires IsRuntimeType(t) && CoerceToRegister(g.valueType, g.value, t, g.next + 1) == Some(f)
    ensures Passes(entries, setting.returnTypes, g.code + [AllocateLocal(IRTypeOf(t), g.next)] + f.code + [Store(f.register, g.next)], k, f.next, k')
    ensures Holds(k', g.next, PointerRegister(IRTypeOf(t)))
  {
    var pointer := g.next;
    var allocate, store := AllocateLocal(IRTypeOf(t), pointer), Store(f.register, pointer);
    var k2 := AllocatePasses(setting, entries, IRTypeOf(t), k1);
    UsableLater(g.valueType, g.value, k1, k2);
    k' := CoercePasses(entries, setting.returnTypes, g.valueType, g.value, t, k2);
    StorePasses(setting, entries, t, f.register, pointer, k');
    PassesOn(entries, setting.returnTypes, g.code, [allocate], k, g.next, k1, pointer + 1, k2);
    PassesOn(entries, setting.returnTypes, g.code + [allocate], f.code, k, pointer + 1, k2, f.next, k');
    PassesOn(entries, setting.returnTypes, g.code + [allocate] + f.code, [store], k, f.next, k', f.next, k');
  }

  lemma LocalChecked(setting: Setting, entries: Entries, c: Context, name: string, t: Type, g: Generated, k: Known, k1: Known) returns (k': Known)
    requires Checked(setting, entries, c, k) && GenerateLocal(c, name, t, g).Some? && GeneratedPasses(entries, setting.returnTypes, g, k, k1)
    ensures Checked(setting, entries, GenerateLocal(c, name, t, g).value, k') && Learns(k, k')
  {
    var pointer := g.next;
    var f := CoerceToRegister(g.valueType, g.value, t, pointer + 1).value;
    var code := g.code + [AllocateLocal(IRTypeOf(t), pointer)] + f.code + [Store(f.register, pointer)];
    k' := LocalPasses(setting, entries, t, g, f, k, k1);
    EmitChecked(setting, entries, c, code, f.next, k, k');
    DeclareChecked(setting, entries, Emit(c, code, f.next), name, Variable(t, pointer), k');
  }

  lemma DeclarationChecked(setting: Setting, entries: Entries, c: Context, s: Statement, k: Known) returns (k': Known)
    requires s.VariableDeclaration? && Checked(setting, entries, c, k) && GenerateVariableDeclaration(c, s).Some?
    ensures Checked(setting, entries, GenerateVariableDeclaration(c, s).value, k') && Learns(k, k')
  {
    var g := GenerateExpression(c.variables, c.nextRegister, s.initializer.value).value;
    var k1 := ExpressionPasses(entries, setting.returnTypes, c.variables, s.initializer.value, k);
    k' := LocalChecked(setting, entries, c, s.name, if s.declaredType.Some? then s.declaredType.value else DefaultType(c.defaultSize, g.valueType), g, k, k1);
  }

  // ----- Loops -----

  /** The index is in a local and the limit in a register, both of the index type. */
  predicate LoopUsable(loop: Loop, k: Known) {
    Holds(k, loop.pointer, PointerRegister(IRInteger(loop.indexType.size))) && Holds(k, loop.limit, ValueRegister(IRInteger(loop.indexType.size)))
  }

  lemma BoundsPass(setting: Setting, entries: Entries, f: Generated, t: Generated, indexType: Integer, k: Known, k1: Known, k2: Known) returns (k': Known)
    requires Consistent(k) && GeneratedPasses(entries, setting.returnTypes, f, k, k1) && GeneratedPasses(entries, setting.returnTypes, t, k1, k2)
    requires CoerceToRegister(f.valueType, f.value, IntegerType(indexType), t.next).Some?
    requires CoerceToRegister(t.valueType, t.value, IntegerType(indexType),
               CoerceToRegister(f.valueType, f.value, IntegerType(indexType), t.next).value.next).Some?
    ensures var first := CoerceToRegister(f.valueType, f.value, IntegerType(indexType), t.next).value;
            var limit := CoerceToRegister(t.valueType, t.value, IntegerType(indexType), first.next).value;
            Passes(entries, setting.returnTypes, f.code + t.code + first.code + limit.code
              + [AllocateLocal(IRInteger(indexType.size), limit.next), Store(first.register, limit.next)], k, limit.next + 1, k') &&
            Holds(k', limit.next, PointerRegister(IRInteger(indexType.size))) && Holds(k', limit.register, ValueRegister(IRInteger(indexType.size)))
  {
    var first := CoerceToRegister(f.valueType, f.value, IntegerType(indexType), t.next).value;
    var limit := CoerceToRegister(t.valueType, t.value, IntegerType(indexType), first.next).value;
    var allocate, store := AllocateLocal(IRInteger(indexType.size), limit.next), Store(first.register, limit.next);
    var ready := OperandsPass(entries, setting.returnTypes, f, t, IntegerType(indexType), k, k1, k2);
    k' := AllocatePasses(setting, entries, IRInteger(indexType.size), ready);
    StorePasses(setting, entries, IntegerType(indexType), first.register, limit.next, k');
    PassesOn(entries, setting.returnTypes, [allocate], [store], ready, limit.next + 1, k', limit.next + 1, k');
    assert [allocate] + [store] == [allocate, store];
    PassesOn(entries, setting.returnTypes, f.code + t.code + first.code + limit.code, [allocate, store], k, limit.next, ready, limit.next + 1, k');
  }

  lemma SetupChecked(setting: Setting, entries: Entries, c: Context, from: Expression, to: Expression, k: Known) returns (k': Known)
    requires Checked(setting, entries, c, k) && GenerateLoopSetup(c, from, to).Some?
    ensures var loop := GenerateLoopSetup(c, from, to).value;
            Checked(setting, entries, loop.context, k') && Learns(k, k') && LoopUsable(loop, k')
  {
    var f := GenerateExpression(c.variables, c.nextRegister, from).value;
    var t := GenerateExpression(c.variables, f.next, to).value;
    var loop := GenerateLoopSetup(c, from, to).value;
    var k1 := ExpressionPasses(entries, setting.returnTypes, c.variables, from, k);
    VariablesUsableLater(c.variables, k, k1);
    var k2 := ExpressionPasses(entries, setting.returnTypes, c.variables, to, k1);
    k' := BoundsPass(setting, entries, f, t, loop.indexType, k, k1, k2);
    var first := CoerceToRegister(f.valueType, f.value, IntegerType(loop.indexType), t.next).value;
    var limit := CoerceToRegister(t.valueType, t.value, IntegerType(loop.indexType), first.next).value;
    EmitChecked(setting, entries, c, f.code + t.code + first.code + limit.code
      + [AllocateLocal(IRInteger(loop.indexType.size), loop.pointer), Store(first.register, loop.pointer)], loop.pointer + 1, k, k');
  }

  /** The test of a for loop up to its branch. */
  lemma TestPasses(setting: Setting, entries: Entries, loop: Loop, k: Known) returns (k': Known)
    requires Consistent(k) && LoopUsable(loop, k)
    ensures var comparison := if loop.indexType.isSigned then SignedGreaterThan else UnsignedGreaterThan;
            Passes(entries, setting.returnTypes,
                   [Load(loop.pointer, IRInteger(loop.indexType.size), k.next), IntegerComparison(comparison, k.next, loop.limit, k.next + 1)],
                   k, k.next + 2, k') &&
            Holds(k', k.next, ValueRegister(IRInteger(loop.indexType.size))) && Holds(k', k.next + 1, ValueRegister(IRBoolean))
  {
    var comparison := if loop.indexType.isSigned then SignedGreaterThan else UnsignedGreaterThan;
    var load := Load(loop.pointer, IRInteger(loop.indexType.size), k.next);
    var compare := IntegerComparison(comparison, k.next, loop.limit, k.next + 1);
    CheckTwo(entries, setting.returnTypes, load, compare, k);
    CheckLearns(entries, setting.returnTypes, load, k);
    var k1 := Check(entries, setting.returnTypes, load, k).value;
    CheckLearns(entries, setting.returnTypes, compare, k1);
    k' := Check(entries, setting.returnTypes, compare, k1).value;
  }

  /** The whole head: the body may rely on the index the head has loaded. */
  lemma LoopHeadChecked(setting: Setting, entries: Entries, head: Context, loop: Loop, body: Label, end: Label, k: Known)
    returns (entries': Entries, k': Known)
    requires Checked(setting, entries, head, k) && LoopUsable(loop, k)
    requires body !in entries && body < head.nextLabel && Reaches(entries, k, end)
    ensures Checked(setting, entries', LoopHead(head, loop, body, end), k') && Proceeds(entries, k, entries', k')
    ensures body in entries' && entries'[body] == k'.available && Holds(k', head.nextRegister, ValueRegister(IRInteger(loop.indexType.size)))
  {
    var comparison := if loop.indexType.isSigned then SignedGreaterThan else UnsignedGreaterThan;
    var index := head.nextRegister;
    var test := [Load(loop.pointer, IRInteger(loop.indexType.size), index), IntegerComparison(comparison, index, loop.limit, index + 1)];
    var branch := Branch(index + 1, end, body);
    k' := TestPasses(setting, entries, loop, k);
    EmitChecked(setting, entries, head, test, index + 2, k, k');
    entries' := LabelChecked(setting, entries, Emit(head, test, index + 2), body, k');
    TerminatorPasses(setting, entries', branch, k');
    EmitChecked(setting, entries', Emit(head, test, index + 2), [branch], index + 2, k', k');
    assert head.instructions + test + [branch] == head.instructions + (test + [branch]);
    assert test + [branch] == [test[0], test[1], branch];
  }

  lemma TailPasses(setting: Setting, entries: Entries, loop: Loop, index: Register, k: Known) returns (k': Known)
    requires Consistent(k) && Holds(k, loop.pointer, PointerRegister(IRInteger(loop.indexType.size)))
    requires Holds(k, index, ValueRegister(IRInteger(loop.indexType.size)))
    ensures Passes(entries, setting.returnTypes,
                   [Literal(IRInteger(loop.indexType.size), IntegerConstant(1), k.next), IntegerArithmetic(Add, index, k.next, k.next + 1)],
                   k, k.next + 2, k') &&
            Holds(k', k.next + 1, ValueRegister(IRInteger(loop.indexType.size)))
  {
    var literal := Literal(IRInteger(loop.indexType.size), IntegerConstant(1), k.next);
    var add := IntegerArithmetic(Add, index, k.next, k.next + 1);
    CheckTwo(entries, setting.returnTypes, literal, add, k);
    CheckLearns(entries, setting.returnTypes, literal, k);
    var k1 := Check(entries, setting.returnTypes, literal, k).value;
    CheckLearns(entries, setting.returnTypes, add, k1);
    k' := Check(entries, setting.returnTypes, add, k1).value;
  }

  lemma LoopTailChecked(setting: Setting, entries: Entries, c: Context, loop: Loop, index: Register, k: Known) returns (k': Known)
    requires Checked(setting, entries, c, k) && Holds(k, loop.pointer, PointerRegister(IRInteger(loop.indexType.size)))
    requires Holds(k, index, ValueRegister(IRInteger(loop.indexType.size)))
    ensures Checked(setting, entries, LoopTail(c, loop, index), k') && Learns(k, k')
  {
    var one := c.nextRegister;
    var code := [Literal(IRInteger(loop.indexType.size), IntegerConstant(1), one), IntegerArithmetic(Add, index, one, one + 1)];
    var store := Store(one + 1, loop.pointer);
    k' := TailPasses(setting, entries, loop, index, k);
    StorePasses(setting, entries, IntegerType(loop.indexType), one + 1, loop.pointer, k');
    PassesOn(entries, setting.returnTypes, code, [store], k, one + 2, k', one + 2, k');
    assert code + [store] == [code[0], code[1], store];
    EmitChecked(setting, entries, c, code + [store], one + 2, k, k');
  }

  /** Inside a loop: the end and the head rely on no more than was known before it. */
  ghost predicate Entered(entries: Entries, k: Known, entry: Entry, entries': Entries, k': Known) {
    Proceeds(entries, k, entries', k') &&
    entry.head in entries' && entries'[entry.head] == k.available && entry.end in entries' && entries'[entry.end] == k.available
  }

  /** The head of a loop, with the label of the loop's end set up and that of its body still free. */
  lemma HeadChecked(setting: Setting, entries: Entries, c: Context, head: Context, k: Known) returns (entries': Entries)
    requires Checked(setting, entries, c, k) && head == EnterNewBlock(c.(nextLabel := c.nextLabel + 2))
    ensures Checked(setting, entries', head, k) && MoreEntries(entries, entries')
    ensures c.nextLabel in entries' && entries'[c.nextLabel] == k.available && entries'[head.current] == k.available
    ensures c.nextLabel + 1 !in entries' && c.nextLabel + 1 < head.nextLabel
    ensures head.nextRegister == c.nextRegister
  {
    var c1 := c.(nextLabel := c.nextLabel + 2);
    MoreLabels(setting, entries, c, 2, k);
    var entries1 := LabelChecked(setting, entries, c1, c.nextLabel, k);
    var k1;
    entries', k1 := EnterNewBlockChecked(setting, entries1, c1, k);
  }

  lemma HeadTestChecked(setting: Setting, entries: Entries, head: Context, loop: Loop, body: Label, end: Label, k: Known)
    returns (entries': Entries, k': Known)
    requires Checked(setting, entries, head, k) && LoopUsable(loop, k)
    requires body !in entries && body < head.nextLabel && Reaches(entries, k, end)
    ensures Checked(setting, entries', ChangeBlock(LoopHead(head, loop, body, end), body), k') && Proceeds(entries, k, entries', k')
    ensures Holds(k', head.nextRegister, ValueRegister(IRInteger(loop.indexType.size)))
  {
    var k1;
    entries', k1 := LoopHeadChecked(setting, entries, head, loop, body, end, k);
    VariablesUsableLater(head.variables, k, k1);
    k' := ChangeBlockChecked(setting, entries', LoopHead(head, loop, body, end), body, k1, k1);
  }

  /** What `EnterFor` does, step by step. */
  lemma EnterForSteps(loop: Loop) returns (head: Context)
    ensures var c := loop.context;
            head == EnterNewBlock(c.(nextLabel := c.nextLabel + 2)) &&
            EnterFor(loop) == Entry(Lowering.ChangeBlock(LoopHead(head, loop, c.nextLabel + 1, c.nextLabel), c.nextLabel + 1), head.current, c.nextLabel)
  {
    head := EnterNewBlock(loop.context.(nextLabel := loop.context.nextLabel + 2));
  }

  lemma EnterForChecked(setting: Setting, entries: Entries, loop: Loop, entry: Entry, k: Known) returns (entries': Entries, k': Known)
    requires Checked(setting, entries, loop.context, k) && LoopUsable(loop, k) && entry == EnterFor(loop)
    ensures Checked(setting, entries', entry.inside, k') && Entered(entries, k, entry, entries', k')
    ensures Holds(k', loop.context.nextRegister, ValueRegister(IRInteger(loop.indexType.size)))
  {
    var head := EnterForSteps(loop);
    entries', k' := EnteredHeadChecked(setting, entries, loop, head, entry, k);
  }

  lemma EnteredHeadChecked(setting: Setting, entries: Entries, loop: Loop, head: Context, entry: Entry, k: Known) returns (entries': Entries, k': Known)
    requires Checked(setting, entries, loop.context, k) && LoopUsable(loop, k)
    requires var c := loop.context;
             head == EnterNewBlock(c.(nextLabel := c.nextLabel + 2)) &&
             entry == Entry(Lowering.ChangeBlock(LoopHead(head, loop, c.nextLabel + 1, c.nextLabel), c.nextLabel + 1), head.current, c.nextLabel)
    ensures Checked(setting, entries', entry.inside, k') && Entered(entries, k, entry, entries', k')
    ensures Holds(k', loop.context.nextRegister, ValueRegister(IRInteger(loop.indexType.size)))
  {
    var c := loop.context;
    var entries1 := HeadChecked(setting, entries, c, head, k);
    entries', k' := HeadTestChecked(setting, entries1, head, loop, c.nextLabel + 1, c.nextLabel, k);
  }

  lemma HeadConditionChecked(setting: Setting, entries: Entries, head: Context, condition: Expression, body: Label, end: Label, k: Known)
    returns (entries': Entries, k': Known)
    requires Checked(setting, entries, head, k) && Reaches(entries, k, end) && body !in entries && body < head.nextLabel
    requires GenerateCondition(head, condition, body, end).Some?
    ensures Checked(setting, entries', ChangeBlock(GenerateCondition(head, condition, body, end).value, body), k') && Proceeds(entries, k, entries', k')
  {
    entries' := LabelChecked(setting, entries, head, body, k);
    var k1 := ConditionChecked(setting, entries', head, condition, body, end, k);
    k' := ChangeBlockChecked(setting, entries', GenerateCondition(head, condition, body, end).value, body, k, k1);
  }

  lemma EnterWhileChecked(setting: Setting, entries: Entries, c: Context, condition: Expression, entry: Entry, k: Known)
    returns (entries': Entries, k': Known)
    requires Checked(setting, entries, c, k) && EnterWhile(c, condition) == Some(entry)
    ensures Checked(setting, entries', entry.inside, k') && Entered(entries, k, entry, entries', k')
  {
    var head, tested := EnterWhileSteps(c, condition);
    var entries1 := HeadChecked(setting, entries, c, head, k);
    entries', k' := HeadConditionChecked(setting, entries1, head, condition, c.nextLabel + 1, c.nextLabel, k);
  }

  lemma EnterArmChecked(setting: Setting, entries: Entries, c: Context, condition: Expression, next: Label, k: Known)
    returns (entries': Entries, k': Known)
    requires Checked(setting, entries, c, k) && EnterArm(c, condition, next).Some? && Reaches(entries, k, next)
    ensures Checked(setting, entries', EnterArm(c, condition, next).value, k') && Proceeds(entries, k, entries', k')
  {
    var body := c.nextLabel;
    var c0 := c.(nextLabel := body + 1);
    MoreLabels(setting, entries, c, 1, k);
    entries' := LabelChecked(setting, entries, c0, body, k);
    var k1 := ConditionChecked(setting, entries', c0, condition, body, next, k);
    k' := ChangeBlockChecked(setting, entries', GenerateCondition(c0, condition, body, next).value, body, k, k1);
  }

  // ----- Nested statements -----

  lemma ProceedsOn(a: Entries, j: Known, b: Entries, k: Known, c: Entries, l: Known)
    requires Proceeds(a, j, b, k) && Proceeds(b, k, c, l)
    ensures Proceeds(a, j, c, l)
  {
  }

  lemma OpenChecked(
    setting: Setting, entries: Entries, c: Context, breakTarget: Option<Label>, scope: seq<Named<Variable>>, k: Known
  )
    requires Checked(setting, entries, c, k) && (breakTarget.Some? ==> Reaches(entries, k, breakTarget.value))
    requires forall v :: v in scope ==> Usable(v.info.variableType, AddressedValue(v.info.pointer), k)
    ensures Checked(setting, entries, OpenScope(c, breakTarget, scope), k)
  {
    var variables := c.variables + [scope];
    assert forall p :: Within(variables, p) ==>
      (Within(c.variables, p) && variables[p.scope][p.index] == c.variables[p.scope][p.index]) ||
      (p.scope == |c.variables| && variables[p.scope][p.index] in scope);
  }

  lemma CloseChecked(setting: Setting, entries: Entries, c: Context, k: Known, entries': Entries, ended: Context, k': Known)
    requires Checked(setting, entries, c, k) && Checked(setting, entries', ended, k') && Proceeds(entries, k, entries', k')
    ensures Checked(setting, entries', CloseScope(ended, c), k')
  {
    VariablesUsableLater(c.variables, k, k');
  }

  lemma {:induction false} BodyChecked(
    setting: Setting, entries: Entries, c: Context, statements: seq<Statement>, breakTarget: Option<Label>, scope: seq<Named<Variable>>, k: Known
  ) returns (entries': Entries, k': Known)
    requires Checked(setting, entries, c, k) && (breakTarget.Some? ==> Reaches(entries, k, breakTarget.value))
    requires forall v :: v in scope ==> Usable(v.info.variableType, AddressedValue(v.info.pointer), k)
    requires GenerateBody(c, statements, breakTarget, scope).Some?
    ensures Checked(setting, entries', GenerateBody(c, statements, breakTarget, scope).value, k') && Proceeds(entries, k, entries', k')
    decreases statements, 1
  {
    var open := OpenScope(c, breakTarget, scope);
    OpenChecked(setting, entries, c, breakTarget, scope, k);
    entries', k' := StatementsChecked(setting, entries, open, statements, false, k);
    CloseChecked(setting, entries, c, k, entries', GenerateStatements(open, statements, false).value, k');
  }

  /** A body, then the jump that ends it; the next block relies on what `k0` knows. */
  lemma {:induction false} BodyAndFinishChecked(
    setting: Setting, entries: Entries, c: Context, statements: seq<Statement>, breakTarget: Option<Label>, target: Label, next: Label,
    k0: Known, k: Known
  ) returns (entries': Entries, k': Known)
    requires Checked(setting, entries, c, k) && (breakTarget.Some? ==> Reaches(entries, k, breakTarget.value))
    requires GenerateBody(c, statements, breakTarget, []).Some?
    requires Learns(k0, k) && VariablesUsable(c.variables, k0) && (c.breakTarget.Some? ==> Reaches(entries, k0, c.breakTarget.value))
    requires Reaches(entries, k0, target) && next in entries && entries[next] == k0.available
    ensures Checked(setting, entries', Finish(GenerateBody(c, statements, breakTarget, []).value, target, next), k')
    ensures Proceeds(entries, k0, entries', k') && k'.available == k0.available
    decreases statements, 2
  {
    var k1;
    entries', k1 := BodyChecked(setting, entries, c, statements, breakTarget, [], k);
    k' := FinishChecked(setting, entries', GenerateBody(c, statements, breakTarget, []).value, target, next, k0, k1);
  }

  lemma {:induction false} ArmChecked(setting: Setting, entries: Entries, c: Context, arm: Arm, next: Label, end: Label, k: Known)
    returns (entries': Entries, k': Known)
    requires Checked(setting, entries, c, k) && GenerateArm(c, arm, next, end).Some?
    requires next in entries && entries[next] == k.available && end in entries && entries[end] == k.available
    ensures Checked(setting, entries', GenerateArm(c, arm, next, end).value, k') && Proceeds(entries, k, entries', k') && k'.available == k.available
    decreases arm, 0
  {
    var inside := EnterArm(c, arm.condition, next).value;
    var entries1, k1 := EnterArmChecked(setting, entries, c, arm.condition, next, k);
    entries', k' := BodyAndFinishChecked(setting, entries1, inside, arm.statements, c.breakTarget, end, next, k, k1);
  }

  /** An arm whose false condition goes to a new block. */
  lemma {:induction false} MiddleArmChecked(setting: Setting, entries: Entries, c: Context, arm: Arm, end: Label, k: Known)
    returns (entries': Entries, k': Known)
    requires Checked(setting, entries, c, k) && GenerateArm(c.(nextLabel := c.nextLabel + 1), arm, c.nextLabel, end).Some?
    requires end in entries && entries[end] == k.available
    ensures Checked(setting, entries', GenerateArm(c.(nextLabel := c.nextLabel + 1), arm, c.nextLabel, end).value, k')
    ensures Proceeds(entries, k, entries', k') && k'.available == k.available
    decreases arm, 1
  {
    var c0 := c.(nextLabel := c.nextLabel + 1);
    MoreLabels(setting, entries, c, 1, k);
    var entries0 := LabelChecked(setting, entries, c0, c.nextLabel, k);
    entries', k' := ArmChecked(setting, entries0, c0, arm, c.nextLabel, end, k);
  }

  lemma {:induction false} ArmsChecked(setting: Setting, entries: Entries, c: Context, arms: seq<Arm>, hasElse: bool, end: Label, k: Known)
    returns (entries': Entries, k': Known)
    requires Checked(setting, entries, c, k) && GenerateArms(c, arms, hasElse, end).Some?
    requires end in entries && entries[end] == k.available
    ensures Checked(setting, entries', GenerateArms(c, arms, hasElse, end).value, k') && Proceeds(entries, k, entries', k') && k'.available == k.available
    decreases arms
  {
    if arms == [] {
      entries', k' := entries, k;
    } else if |arms| == 1 && !hasElse {
      entries', k' := ArmChecked(setting, entries, c, arms[0], end, end, k);
    } else {
      var c0 := c.(nextLabel := c.nextLabel + 1);
      var entries1, k1 := MiddleArmChecked(setting, entries, c, arms[0], end, k);
      entries', k' := ArmsChecked(setting, entries1, GenerateArm(c0, arms[0], c.nextLabel, end).value, arms[1..], hasElse, end, k1);
    }
  }

  lemma {:induction false} IfChecked(setting: Setting, entries: Entries, c: Context, s: Statement, k: Known) returns (entries': Entries, k': Known)
    requires s.IfStatement? && Checked(setting, entries, c, k) && GenerateIf(c, s).Some?
    ensures Checked(setting, entries', GenerateIf(c, s).value, k') && Proceeds(entries, k, entries', k')
    decreases s, 0
  {
    var end, hasElse := c.nextLabel, s.elseStatements != [];
    var c0 := c.(nextLabel := end + 1);
    MoreLabels(setting, entries, c, 1, k);
    var entries0 := LabelChecked(setting, entries, c0, end, k);
    entries', k' := ArmsChecked(setting, entries0, c0, s.arms, hasElse, end, k);
    if hasElse {
      entries', k' := ElseChecked(setting, entries0, c0, s.arms, s.elseStatements, end, k, entries', k');
    }
  }

  lemma {:induction false} ElseChecked(
    setting: Setting, entries: Entries, c: Context, arms: seq<Arm>, statements: seq<Statement>, end: Label, k: Known, entries1: Entries, k1: Known
  ) returns (entries': Entries, k': Known)
    requires Checked(setting, entries, c, k) && GenerateArms(c, arms, true, end).Some?
    requires end in entries && entries[end] == k.available && k1.available == k.available
    requires Checked(setting, entries1, GenerateArms(c, arms, true, end).value, k1) && Proceeds(entries, k, entries1, k1)
    requires GenerateBody(GenerateArms(c, arms, true, end).value, statements, c.breakTarget, []).Some?
    ensures Checked(setting, entries', Finish(GenerateBody(GenerateArms(c, arms, true, end).value, statements, c.breakTarget, []).value, end, end), k')
    ensures Proceeds(entries, k, entries', k')
    decreases statements, 3
  {
    entries', k' := BodyAndFinishChecked(setting, entries1, GenerateArms(c, arms, true, end).value, statements, c.breakTarget, end, end, k1, k1);
  }

  lemma {:induction false} WhileChecked(
    setting: Setting, entries: Entries, c: Context, condition: Expression, statements: seq<Statement>, k: Known
  ) returns (entries': Entries, k': Known)
    requires Checked(setting, entries, c, k) && GenerateWhile(c, condition, statements).Some?
    ensures Checked(setting, entries', GenerateWhile(c, condition, statements).value, k') && Proceeds(entries, k, entries', k')
    decreases statements, 3
  {
    var entry := EnterWhile(c, condition).value;
    var entries1, k1 := EnterWhileChecked(setting, entries, c, condition, entry, k);
    entries', k' := BodyAndFinishChecked(setting, entries1, entry.inside, statements, Some(entry.end), entry.head, entry.end, k, k1);
  }

  lemma {:induction false} ForChecked(setting: Setting, entries: Entries, c: Context, s: Statement, k: Known) returns (entries': Entries, k': Known)
    requires s.ForLoop? && Checked(setting, entries, c, k) && GenerateFor(c, s).Some?
    ensures Checked(setting, entries', GenerateFor(c, s).value, k') && Proceeds(entries, k, entries', k')
    decreases s, 0
  {
    var loop := GenerateLoopSetup(c, s.from, s.to).value;
    var entry := EnterFor(loop);
    var k1 := SetupChecked(setting, entries, c, s.from, s.to, k);
    var entries1, k2 := EnterForChecked(setting, entries, loop, entry, k1);
    var ended := GenerateBody(entry.inside, s.statements, Some(entry.end), [IndexVariable(s, loop)]).value;
    entries', k' := LoopChecked(setting, entries, entries1, s.statements, IndexVariable(s, loop), loop, entry, ended, k1, k2);
    ProceedsOn(entries, k, entries, k1, entries', k');
  }

  /** The body of a for loop and its increment. */
  lemma {:induction false} LoopChecked(
    setting: Setting, entries0: Entries, entries: Entries, statements: seq<Statement>, variable: Named<Variable>, loop: Loop, entry: Entry,
    ended: Context, k0: Known, k: Known
  ) returns (entries': Entries, k': Known)
    requires Checked(setting, entries, entry.inside, k) && Entered(entries0, k0, entry, entries, k) && LoopUsable(loop, k0)
    requires Checked(setting, entries0, loop.context, k0)
    requires Holds(k, loop.context.nextRegister, ValueRegister(IRInteger(loop.indexType.size)))
    requires variable.info == Variable(IntegerType(loop.indexType), loop.pointer)
    requires GenerateBody(entry.inside, statements, Some(entry.end), [variable]) == Some(ended)
    requires entry.inside.variables == loop.context.variables && entry.inside.breakTarget == loop.context.breakTarget
    ensures Checked(setting, entries', Finish(LoopTail(ended, loop, loop.context.nextRegister), entry.head, entry.end), k')
    ensures Proceeds(entries0, k0, entries', k')
    decreases statements, 3
  {
    var k1;
    entries', k1 := BodyChecked(setting, entries, entry.inside, statements, Some(entry.end), [variable], k);
    k' := TailAndFinishChecked(setting, entries', loop, entry, ended, k0, k1);
  }

  lemma TailAndFinishChecked(setting: Setting, entries: Entries, loop: Loop, entry: Entry, ended: Context, k0: Known, k: Known) returns (k': Known)
    requires Checked(setting, entries, ended, k) && LoopUsable(loop, k0) && Learns(k0, k)
    requires Holds(k, loop.context.nextRegister, ValueRegister(IRInteger(loop.indexType.size)))
    requires entry.head in entries && entries[entry.head] == k0.available && entry.end in entries && entries[entry.end] == k0.available
    requires VariablesUsable(ended.variables, k0) && (ended.breakTarget.Some? ==> Reaches(entries, k0, ended.breakTarget.value))
    ensures Checked(setting, entries, Finish(LoopTail(ended, loop, loop.context.nextRegister), entry.head, entry.end), k') && Learns(k0, k')
  {
    var k1 := LoopTailChecked(setting, entries, ended, loop, loop.context.nextRegister, k);
    k' := FinishChecked(setting, entries, LoopTail(ended, loop, loop.context.nextRegister), entry.head, entry.end, k0, k1);
  }

  lemma {:induction false} StatementChecked(setting: Setting, entries: Entries, c: Context, s: Statement, k: Known)
    returns (entries': Entries, k': Known)
    requires Checked(setting, entries, c, k) && GenerateStatement(c, s).Some?
    ensures Checked(setting, entries', GenerateStatement(c, s).value, k') && Proceeds(entries, k, entries', k')
    decreases s, 1
  {
    entries' := entries;
    match s
    case ExpressionStatement(e) =>
      var g := GenerateExpression(c.variables, c.nextRegister, e).value;
      k' := ExpressionPasses(entries, setting.returnTypes, c.variables, e, k);
      EmitChecked(setting, entries, c, g.code, g.next, k, k');
    case VariableDeclaration(_, _, _) => k' := DeclarationChecked(setting, entries, c, s, k);
    case Assignment(target, value) => k' := AssignmentChecked(setting, entries, c, target, value, k);
    case BinaryOperationAssignment(target, operator, value) =>
      k' := AssignmentChecked(setting, entries, c, target, BinaryOperation(operator, target, value), k);
    case IfStatement(_, _) => entries', k' := IfChecked(setting, entries, c, s, k);
    case WhileLoop(condition, statements) => entries', k' := WhileChecked(setting, entries, c, condition, statements, k);
    case ForLoop(_, _, _, _) => entries', k' := ForChecked(setting, entries, c, s, k);
    case ReturnStatement(values) => k' := ReturnChecked(setting, entries, c, values, k);
    case BreakStatement =>
      TerminatorPasses(setting, entries, Jump(c.breakTarget.value), k);
      EmitChecked(setting, entries, c, [Jump(c.breakTarget.value)], c.nextRegister, k, k);
      k' := k;
    case Declaration => k' := k;
  }

  lemma {:induction false} StatementsChecked(
    setting: Setting, entries: Entries, c: Context, statements: seq<Statement>, unreachable: bool, k: Known
  ) returns (entries': Entries, k': Known)
    requires Checked(setting, entries, c, k) && GenerateStatements(c, statements, unreachable).Some?
    ensures Checked(setting, entries', GenerateStatements(c, statements, unreachable).value, k') && Proceeds(entries, k, entries', k')
    decreases statements, 0
  {
    if statements == [] {
      entries', k' := entries, k;
    } else if statements[0].Declaration? {
      entries', k' := StatementsChecked(setting, entries, c, statements[1..], unreachable, k);
    } else {
      var entries1, k1 := StatementChecked(setting, entries, c, statements[0], k);
      entries', k' := StatementsChecked(setting, entries1, GenerateStatement(c, statements[0]).value, statements[1..], Leaves(statements[0]), k1);
      ProceedsOn(entries, k, entries1, k1, entries', k');
    }
  }
}
