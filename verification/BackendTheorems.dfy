/** What passing the checks means for a whole function: closed, typed, numbered in order, and every
    register assigned before it is read on every path. */
module BackendTheorems {
  import opened Integers
  import opened Options
  import opened Ast
  import opened Hlir
  import opened Lowering
  import opened BackendChecks
  import opened BackendExpressions
  import opened BackendProofs
  import ContextProofs
  import opened ControlFlow
  import opened Terminators
  import opened FunctionProofs

  // ----- A function passes -----

  function ParameterTypes(f: Function): Types
    requires HasRuntimeSignature(f)
  {
    map r: Register | 0 <= r < |f.parameters| :: ValueRegister(IRTypeOf(f.parameters[r].parameterType))
  }

  /** Before block 0 exactly the parameters are known. */
  function StartKnown(f: Function): Known
    requires HasRuntimeSignature(f)
  {
    Known(ParameterTypes(f), ParameterTypes(f).Keys, |f.parameters|)
  }

  lemma CopyChecked(setting: Setting, entries: Entries, c: Context, p: Parameter, index: Register, k: Known) returns (k': Known)
    requires Checked(setting, entries, c, k) && IsRuntimeType(p.parameterType)
    requires Holds(k, index, ValueRegister(IRTypeOf(p.parameterType)))
    ensures Checked(setting, entries, CopyParameter(c, p, index), k') && Learns(k, k')
  {
    var t, pointer := p.parameterType, c.nextRegister;
    var allocate, store := AllocateLocal(IRTypeOf(t), pointer), Store(index, pointer);
    k' := AllocatePasses(setting, entries, IRTypeOf(t), k);
    StorePasses(setting, entries, t, index, pointer, k');
    PassesOn(entries, setting.returnTypes, [allocate], [store], k, pointer + 1, k', pointer + 1, k');
    assert [allocate] + [store] == [allocate, store];
    EmitChecked(setting, entries, c, [allocate, store], pointer + 1, k, k');
    var c' := Emit(c, [allocate, store], pointer + 1);
    if AddNewVariable(c', p.name, Variable(t, pointer)).Some? {
      DeclareChecked(setting, entries, c', p.name, Variable(t, pointer), k');
    }
  }

  lemma {:induction false} ParametersChecked(setting: Setting, entries: Entries, c: Context, parameters: seq<Parameter>, index: Register, k: Known)
    returns (k': Known)
    requires Checked(setting, entries, c, k) && forall p :: p in parameters ==> IsRuntimeType(p.parameterType)
    requires forall i :: 0 <= i < |parameters| ==> Holds(k, index + i, ValueRegister(IRTypeOf(parameters[i].parameterType)))
    ensures Checked(setting, entries, GenerateParameters(c, parameters, index), k')
    decreases parameters
  {
    if parameters == [] {
      k' := k;
    } else {
      assert Holds(k, index + 0, ValueRegister(IRTypeOf(parameters[0].parameterType)));
      var k1 := CopyChecked(setting, entries, c, parameters[0], index, k);
      forall i | 0 <= i < |parameters[1..]|
        ensures Holds(k1, index + 1 + i, ValueRegister(IRTypeOf(parameters[1..][i].parameterType)))
      {
        assert Holds(k, index + (i + 1), ValueRegister(IRTypeOf(parameters[i + 1].parameterType)));
      }
      k' := ParametersChecked(setting, entries, CopyParameter(c, parameters[0], index), parameters[1..], index + 1, k1);
    }
  }

  /** `entries` and `final` witness that the blocks of a function pass. */
  ghost predicate FunctionPasses(f: Function, defaultSize: RegisterSize, entries: Entries, final: Known)
    requires GenerateFunction(f, defaultSize).Some?
  {
    CheckBlocks(entries, f.returnTypes, GenerateFunction(f, defaultSize).value, StartKnown(f)) == Some(final) && Consistent(final) &&
    0 in entries && entries[0] == StartKnown(f).available && forall l :: l in entries ==> l < FinalContext(f, defaultSize).nextLabel
  }

  lemma FinalBlockPasses(f: Function, defaultSize: RegisterSize, entries: Entries, k: Known)
    requires GenerateFunction(f, defaultSize).Some? && Checked(Setting(f.returnTypes, StartKnown(f)), entries, FinalContext(f, defaultSize), k)
    ensures CheckBlocks(entries, f.returnTypes, GenerateFunction(f, defaultSize).value, StartKnown(f)) == Some(k)
  {
    var setting := Setting(f.returnTypes, StartKnown(f));
    var c, blocks := FinalContext(f, defaultSize), GenerateFunction(f, defaultSize).value;
    var last := blocks[|blocks| - 1];
    assert blocks[..|blocks| - 1] == c.blocks;
    if last.instructions != c.instructions {
      TerminatorPasses(setting, entries, Return(None), k);
      EmitChecked(setting, entries, c, [Return(None)], c.nextRegister, k, k);
    }
  }

  /** Every function the generator accepts passes. */
  lemma FunctionChecked(f: Function, defaultSize: RegisterSize) returns (entries: Entries, final: Known)
    requires GenerateFunction(f, defaultSize).Some?
    ensures FunctionPasses(f, defaultSize, entries, final)
  {
    var setting := Setting(f.returnTypes, StartKnown(f));
    var entries0 := map[0 := StartKnown(f).available];
    var initial := InitialContext(f, defaultSize);
    assert Checked(setting, entries0, initial, StartKnown(f));
    var k := ParametersChecked(setting, entries0, initial, f.parameters, 0, StartKnown(f));
    entries, final := StatementsChecked(setting, entries0, GenerateParameters(initial, f.parameters, 0), f.statements, false, k);
    FinalBlockPasses(f, defaultSize, entries, final);
  }

  // ----- Reading the checks instruction by instruction -----

  /** What is known before instruction `i` of block `n`. */
  function KnownAt(entries: Entries, returnTypes: seq<Type>, blocks: seq<Block>, start: Known, n: nat, i: nat): Option<Known>
    requires n < |blocks| && i <= |blocks[n].instructions|
  {
    match CheckBlocks(entries, returnTypes, blocks[..n], start)
    case None => None
    case Some(k) =>
      if blocks[n].id !in entries then None
      else CheckAll(entries, returnTypes, blocks[n].instructions[..i], k.(available := entries[blocks[n].id]))
  }

  lemma {:induction false} CheckBlocksPrefix(entries: Entries, returnTypes: seq<Type>, blocks: seq<Block>, start: Known, n: nat)
    requires n <= |blocks| && CheckBlocks(entries, returnTypes, blocks, start).Some?
    ensures CheckBlocks(entries, returnTypes, blocks[..n], start).Some?
  {
    if n == |blocks| {
      assert blocks[..n] == blocks;
    } else {
      CheckBlocksPrefix(entries, returnTypes, blocks[..|blocks| - 1], start, n);
      assert blocks[..|blocks| - 1][..n] == blocks[..n];
    }
  }

  lemma PassesAt(entries: Entries, returnTypes: seq<Type>, blocks: seq<Block>, start: Known, n: nat, i: nat) returns (k: Known, k': Known)
    requires CheckBlocks(entries, returnTypes, blocks, start).Some?
    requires n < |blocks| && i < |blocks[n].instructions|
    ensures KnownAt(entries, returnTypes, blocks, start, n, i) == Some(k)
    ensures Check(entries, returnTypes, blocks[n].instructions[i], k) == Some(k')
    ensures KnownAt(entries, returnTypes, blocks, start, n, i + 1) == Some(k')
  {
    CheckBlocksPrefix(entries, returnTypes, blocks, start, n);
    CheckBlocksPrefix(entries, returnTypes, blocks, start, n + 1);
    assert blocks[..n + 1][..n] == blocks[..n];
    var code := blocks[n].instructions;
    var entry := CheckBlocks(entries, returnTypes, blocks[..n], start).value.(available := entries[blocks[n].id]);
    assert code == code[..i] + code[i..];
    CheckAllAppend(entries, returnTypes, code[..i], code[i..], entry);
    assert code[..i + 1] == code[..i] + [code[i]];
    CheckAllAppend(entries, returnTypes, code[..i], [code[i]], entry);
    k := KnownAt(entries, returnTypes, blocks, start, n, i).value;
    CheckOne(entries, returnTypes, code[i], k);
    k' := Check(entries, returnTypes, code[i], k).value;
  }

  predicate Numbered(k: Known) {
    forall r :: r in k.types ==> r < k.next
  }

  lemma CheckNumbers(entries: Entries, returnTypes: seq<Type>, i: Instruction, k: Known)
    requires Numbered(k) && Check(entries, returnTypes, i, k).Some?
    ensures var k' := Check(entries, returnTypes, i, k).value;
            Numbered(k') && KeepsTypes(k, k') && Writes(i) == Numbers(k.next, k'.next)
  {
  }

  lemma {:induction false} CheckAllNumbers(entries: Entries, returnTypes: seq<Type>, code: seq<Instruction>, k: Known)
    requires Numbered(k) && CheckAll(entries, returnTypes, code, k).Some?
    ensures var k' := CheckAll(entries, returnTypes, code, k).value;
            Numbered(k') && KeepsTypes(k, k') && Written(code) == Numbers(k.next, k'.next)
  {
    if code != [] {
      var k1 := Check(entries, returnTypes, code[0], k).value;
      CheckNumbers(entries, returnTypes, code[0], k);
      CheckAllNumbers(entries, returnTypes, code[1..], k1);
    }
  }

  lemma {:induction false} CheckBlocksNumbers(entries: Entries, returnTypes: seq<Type>, blocks: seq<Block>, k: Known)
    requires Numbered(k) && CheckBlocks(entries, returnTypes, blocks, k).Some?
    ensures var k' := CheckBlocks(entries, returnTypes, blocks, k).value;
            Numbered(k') && KeepsTypes(k, k') && Written(Flatten(blocks)) == Numbers(k.next, k'.next)
  {
    if blocks != [] {
      var last := |blocks| - 1;
      CheckBlocksNumbers(entries, returnTypes, blocks[..last], k);
      var k1 := CheckBlocks(entries, returnTypes, blocks[..last], k).value.(available := entries[blocks[last].id]);
      CheckAllNumbers(entries, returnTypes, blocks[last].instructions, k1);
      WrittenAppends(Flatten(blocks[..last]), blocks[last].instructions);
      var k' := CheckBlocks(entries, returnTypes, blocks, k).value;
      assert Numbers(k.next, k1.next) + Numbers(k1.next, k'.next) == Numbers(k.next, k'.next);
    }
  }

  // ----- Registers in layout order -----

  /** The instructions of the blocks, in the order the backend reads them. */
  function Flatten(blocks: seq<Block>): seq<Instruction> {
    if blocks == [] then [] else Flatten(blocks[..|blocks| - 1]) + blocks[|blocks| - 1].instructions
  }

  /** The registers that code writes, in order. */
  function Written(code: seq<Instruction>): seq<Register> {
    if code == [] then [] else Writes(code[0]) + Written(code[1..])
  }

  function Numbers(low: Register, high: Register): seq<Register> {
    if low <= high then seq(high - low, i requires 0 <= i => low + i) else []
  }

  lemma {:induction false} WrittenAppends(f: seq<Instruction>, g: seq<Instruction>)
    ensures Written(f + g) == Written(f) + Written(g)
  {
    if f == [] {
      assert f + g == g;
    } else {
      assert (f + g)[0] == f[0] && (f + g)[1..] == f[1..] + g;
      WrittenAppends(f[1..], g);
    }
  }

  /** The code of block `n` up to instruction `i` and of all blocks laid out before it. */
  function LaidOutBefore(blocks: seq<Block>, n: nat, i: nat): seq<Instruction>
    requires n < |blocks| && i <= |blocks[n].instructions|
  {
    Flatten(blocks[..n]) + blocks[n].instructions[..i]
  }

  lemma KnownIsNumbered(entries: Entries, returnTypes: seq<Type>, blocks: seq<Block>, start: Known, n: nat, i: nat)
    requires n < |blocks| && i <= |blocks[n].instructions| && Numbered(start) && KnownAt(entries, returnTypes, blocks, start, n, i).Some?
    ensures var k := KnownAt(entries, returnTypes, blocks, start, n, i).value;
            Numbered(k) && KeepsTypes(start, k) && Written(LaidOutBefore(blocks, n, i)) == Numbers(start.next, k.next)
  {
    CheckBlocksNumbers(entries, returnTypes, blocks[..n], start);
    var entry := CheckBlocks(entries, returnTypes, blocks[..n], start).value.(available := entries[blocks[n].id]);
    CheckAllNumbers(entries, returnTypes, blocks[n].instructions[..i], entry);
    WrittenAppends(Flatten(blocks[..n]), blocks[n].instructions[..i]);
    var k := KnownAt(entries, returnTypes, blocks, start, n, i).value;
    assert Numbers(start.next, entry.next) + Numbers(entry.next, k.next) == Numbers(start.next, k.next);
  }

  lemma ReadsAreTyped(entries: Entries, returnTypes: seq<Type>, i: Instruction, k: Known, r: Register)
    requires Check(entries, returnTypes, i, k).Some? && r in Reads(i)
    ensures r in k.types && r in k.available
  {
  }

  /** In layout order registers are numbered one after the other from the parameters on, so none is
      written twice, and whatever an instruction reads is a parameter or has been written before it:
      the backend's search for a register finds exactly one. */
  lemma RegistersInLayoutOrder(f: Function, defaultSize: RegisterSize)
    requires GenerateFunction(f, defaultSize).Some?
    ensures var blocks := GenerateFunction(f, defaultSize).value;
            (exists next: Register :: |f.parameters| <= next && Written(Flatten(blocks)) == Numbers(|f.parameters|, next)) &&
            forall n: nat, i: nat, r: Register :: n < |blocks| && i < |blocks[n].instructions| && r in Reads(blocks[n].instructions[i]) ==>
              r < |f.parameters| || r in Written(LaidOutBefore(blocks, n, i))
  {
    var blocks := GenerateFunction(f, defaultSize).value;
    var entries, final := FunctionChecked(f, defaultSize);
    CheckBlocksNumbers(entries, f.returnTypes, blocks, StartKnown(f));
    forall n: nat, i: nat, r: Register | n < |blocks| && i < |blocks[n].instructions| && r in Reads(blocks[n].instructions[i])
      ensures r < |f.parameters| || r in Written(LaidOutBefore(blocks, n, i))
    {
      var k, _ := PassesAt(entries, f.returnTypes, blocks, StartKnown(f), n, i);
      KnownIsNumbered(entries, f.returnTypes, blocks, StartKnown(f), n, i);
      ReadsAreTyped(entries, f.returnTypes, blocks[n].instructions[i], k, r);
      if r >= |f.parameters| {
        assert Numbers(|f.parameters|, k.next)[r - |f.parameters|] == r;
      }
    }
  }

  // ----- The backend's assertions -----

  predicate IsIntegerRegister(types: Types, r: Register) {
    r in types && types[r].ValueRegister? && types[r].irType.IRInteger?
  }

  predicate SameIntegerSize(types: Types, a: Register, b: Register) {
    IsIntegerRegister(types, a) && IsIntegerRegister(types, b) && types[a].irType.size == types[b].irType.size
  }

  predicate HasRegisterType(types: Types, r: Register, t: RegisterType) {
    r in types && types[r] == t
  }

  /** What the backend asserts about the operands of an instruction, given the type of every register. */
  predicate Accepts(types: Types, returnTypes: seq<Type>, i: Instruction) {
    match i
    case IntegerArithmetic(_, a, b, _) => SameIntegerSize(types, a, b)
    case IntegerComparison(_, a, b, _) => SameIntegerSize(types, a, b)
    case IntegerExtension(_, source, size, _) => IsIntegerRegister(types, source) && Bits(size) > Bits(types[source].irType.size)
    case IntegerTruncation(source, size, _) => IsIntegerRegister(types, source) && Bits(size) < Bits(types[source].irType.size)
    case BooleanArithmetic(_, a, b, _) => HasRegisterType(types, a, ValueRegister(IRBoolean)) && HasRegisterType(types, b, ValueRegister(IRBoolean))
    case BooleanEquality(a, b, _) => HasRegisterType(types, a, ValueRegister(IRBoolean)) && HasRegisterType(types, b, ValueRegister(IRBoolean))
    case BooleanInversion(source, _) => HasRegisterType(types, source, ValueRegister(IRBoolean))
    case Literal(irType, constant, _) => LiteralValue(irType, constant).Some?
    case Jump(_) => true
    case Branch(condition, _, _) => HasRegisterType(types, condition, ValueRegister(IRBoolean))
    case Return(value) =>
      if value.None? then returnTypes == []
      else |returnTypes| == 1 && IsRuntimeType(returnTypes[0]) && HasRegisterType(types, value.value, ValueRegister(IRTypeOf(returnTypes[0])))
    case AllocateLocal(_, _) => true
    case Load(pointer, irType, _) => HasRegisterType(types, pointer, PointerRegister(irType))
    case Store(source, pointer) =>
      source in types && types[source].ValueRegister? && HasRegisterType(types, pointer, PointerRegister(types[source].irType))
  }

  /** The type of what an instruction writes, from the types of what it reads. */
  function ResultType(types: Types, i: Instruction): Option<RegisterType> {
    match i
    case IntegerArithmetic(_, a, _, _) => if a in types then Some(types[a]) else None
    case IntegerExtension(_, _, size, _) => Some(ValueRegister(IRInteger(size)))
    case IntegerTruncation(_, size, _) => Some(ValueRegister(IRInteger(size)))
    case Literal(irType, _, _) => Some(ValueRegister(irType))
    case AllocateLocal(irType, _) => Some(PointerRegister(irType))
    case Load(_, irType, _) => Some(ValueRegister(irType))
    case _ => if Writes(i) == [] then None else Some(ValueRegister(IRBoolean))
  }

  /** `types` gives every parameter its declared type and every other register the type of what is written to it. */
  ghost predicate TypesRegisters(types: Types, f: Function, blocks: seq<Block>)
    requires HasRuntimeSignature(f)
  {
    (forall r: Register :: r < |f.parameters| ==> HasRegisterType(types, r, ValueRegister(IRTypeOf(f.parameters[r].parameterType)))) &&
    forall n: nat, i: nat :: n < |blocks| && i < |blocks[n].instructions| && Writes(blocks[n].instructions[i]) != [] ==>
      var instruction := blocks[n].instructions[i];
      instruction.destination in types && Some(types[instruction.destination]) == ResultType(types, instruction)
  }

  lemma CheckMeansAccepts(entries: Entries, returnTypes: seq<Type>, i: Instruction, k: Known, k': Known, final: Known)
    requires Check(entries, returnTypes, i, k) == Some(k') && Numbered(k) && KeepsTypes(k', final)
    ensures Accepts(final.types, returnTypes, i)
    ensures Writes(i) != [] ==> i.destination in final.types && Some(final.types[i.destination]) == ResultType(final.types, i)
  {
    assert forall r :: r in k.types ==> r in k'.types && k'.types[r] == k.types[r];
  }

  lemma {:induction false} KnownReachesFinal(entries: Entries, returnTypes: seq<Type>, blocks: seq<Block>, start: Known, n: nat, i: nat)
    requires CheckBlocks(entries, returnTypes, blocks, start).Some? && Numbered(start)
    requires n < |blocks| && i <= |blocks[n].instructions| && KnownAt(entries, returnTypes, blocks, start, n, i).Some?
    ensures KeepsTypes(KnownAt(entries, returnTypes, blocks, start, n, i).value, CheckBlocks(entries, returnTypes, blocks, start).value)
    decreases |blocks|
  {
    KnownIsNumbered(entries, returnTypes, blocks, start, n, i);
    var last := |blocks| - 1;
    if n < last {
      CheckBlocksPrefix(entries, returnTypes, blocks, start, last);
      assert blocks[..last][..n] == blocks[..n];
      KnownReachesFinal(entries, returnTypes, blocks[..last], start, n, i);
      CheckBlocksNumbers(entries, returnTypes, blocks[..last], start);
      CheckAllNumbers(entries, returnTypes, blocks[last].instructions,
                      CheckBlocks(entries, returnTypes, blocks[..last], start).value.(available := entries[blocks[last].id]));
    } else {
      var code := blocks[last].instructions;
      assert code == code[..i] + code[i..];
      var entry := CheckBlocks(entries, returnTypes, blocks[..last], start).value.(available := entries[blocks[last].id]);
      CheckAllAppend(entries, returnTypes, code[..i], code[i..], entry);
      CheckAllNumbers(entries, returnTypes, code[i..], KnownAt(entries, returnTypes, blocks, start, n, i).value);
    }
  }

  /** One type for each register satisfies every assertion the backend makes about operands. */
  lemma BackendAccepts(f: Function, defaultSize: RegisterSize) returns (types: Types)
    requires GenerateFunction(f, defaultSize).Some?
    ensures TypesRegisters(types, f, GenerateFunction(f, defaultSize).value)
    ensures forall b, i :: b in GenerateFunction(f, defaultSize).value && i in b.instructions ==> Accepts(types, f.returnTypes, i)
  {
    var blocks := GenerateFunction(f, defaultSize).value;
    var entries, final := FunctionChecked(f, defaultSize);
    types := final.types;
    CheckBlocksNumbers(entries, f.returnTypes, blocks, StartKnown(f));
    forall n: nat, i: nat | n < |blocks| && i < |blocks[n].instructions|
      ensures var instruction := blocks[n].instructions[i];
              Accepts(types, f.returnTypes, instruction) &&
              (Writes(instruction) != [] ==>
                instruction.destination in types && Some(types[instruction.destination]) == ResultType(types, instruction))
    {
      var k, k' := PassesAt(entries, f.returnTypes, blocks, StartKnown(f), n, i);
      KnownIsNumbered(entries, f.returnTypes, blocks, StartKnown(f), n, i);
      KnownReachesFinal(entries, f.returnTypes, blocks, StartKnown(f), n, i + 1);
      CheckMeansAccepts(entries, f.returnTypes, blocks[n].instructions[i], k, k', final);
    }
  }

  // ----- Paths -----

  /** A place in the code: before an instruction of a block. */
  datatype Place = Place(block: Label, index: nat)

  function Targets(i: Instruction): set<Label> {
    match i
    case Jump(target) => {target}
    case Branch(_, trueTarget, falseTarget) => {trueTarget, falseTarget}
    case _ => {}
  }

  predicate InCode(code: Code, p: Place) {
    p.block in code && p.index < |code[p.block]|
  }

  /** Control can go from `p` to `q`: on to the next instruction, or to a target of a terminator. */
  predicate Follows(code: Code, p: Place, q: Place) {
    InCode(code, p) &&
    var i := code[p.block][p.index];
    if IsTerminator(i) then q.index == 0 && q.block in Targets(i) else q == Place(p.block, p.index + 1)
  }

  ghost predicate IsPath(code: Code, path: seq<Place>) {
    path != [] && path[0] == Place(0, 0) && forall n :: 0 <= n < |path| - 1 ==> Follows(code, path[n], path[n + 1])
  }

  predicate WrittenAt(code: Code, p: Place, r: Register) {
    InCode(code, p) && r in Writes(code[p.block][p.index])
  }

  /** Some instruction on the path before its last place writes `r`. */
  ghost predicate WrittenOn(code: Code, path: seq<Place>, r: Register) {
    exists n :: 0 <= n < |path| - 1 && WrittenAt(code, path[n], r)
  }

  lemma {:induction false} BlockOfLabel(blocks: seq<Block>, l: Label) returns (n: nat)
    requires Times(blocks, l) >= 1
    ensures n < |blocks| && blocks[n].id == l
  {
    var last := |blocks| - 1;
    if blocks[last].id == l {
      n := last;
    } else {
      n := BlockOfLabel(blocks[..last], l);
    }
  }

  /** Control is in block `n` before instruction `i`, and everything relied on there was written on the way. */
  ghost predicate Arrives(f: Function, defaultSize: RegisterSize, entries: Entries, path: seq<Place>, n: nat, i: nat)
    requires GenerateFunction(f, defaultSize).Some? && path != []
  {
    var blocks := GenerateFunction(f, defaultSize).value;
    n < |blocks| && i < |blocks[n].instructions| && path[|path| - 1] == Place(blocks[n].id, i) &&
    KnownAt(entries, f.returnTypes, blocks, StartKnown(f), n, i).Some? &&
    forall r :: r in KnownAt(entries, f.returnTypes, blocks, StartKnown(f), n, i).value.available ==>
      r < |f.parameters| || WrittenOn(CodeOf(blocks), path, r)
  }

  lemma WrittenOnLonger(code: Code, path: seq<Place>, r: Register)
    requires path != [] && WrittenOn(code, path[..|path| - 1], r)
    ensures WrittenOn(code, path, r)
  {
    var n :| 0 <= n < |path| - 2 && WrittenAt(code, path[..|path| - 1][n], r);
    assert WrittenAt(code, path[n], r);
  }

  /** The block of a label, which has at least its terminator. */
  lemma BlockOf(f: Function, defaultSize: RegisterSize, l: Label) returns (n: nat)
    requires GenerateFunction(f, defaultSize).Some? && l < FinalContext(f, defaultSize).nextLabel
    ensures var blocks := GenerateFunction(f, defaultSize).value; n < |blocks| && blocks[n].id == l && blocks[n].instructions != []
  {
    var blocks := GenerateFunction(f, defaultSize).value;
    LabelsPlacedOnce(f, defaultSize, l);
    n := BlockOfLabel(blocks, l);
    BlocksEndOnce(f, defaultSize);
    assert blocks[n] in blocks;
  }

  /** Reaching block `l` from a place where its entry is known. */
  lemma ArriveAtBlock(f: Function, defaultSize: RegisterSize, entries: Entries, final: Known, path: seq<Place>, l: Label) returns (n: nat)
    requires GenerateFunction(f, defaultSize).Some? && FunctionPasses(f, defaultSize, entries, final)
    requires path != [] && path[|path| - 1] == Place(l, 0) && l in entries
    requires forall r :: r in entries[l] ==> r < |f.parameters| || WrittenOn(CodeOf(GenerateFunction(f, defaultSize).value), path, r)
    ensures Arrives(f, defaultSize, entries, path, n, 0)
  {
    var blocks := GenerateFunction(f, defaultSize).value;
    n := BlockOf(f, defaultSize, l);
    CheckBlocksPrefix(entries, f.returnTypes, blocks, StartKnown(f), n);
    assert blocks[n].instructions[..0] == [];
  }

  /** What one instruction makes available is what it writes. */
  lemma CheckAvailable(entries: Entries, returnTypes: seq<Type>, i: Instruction, k: Known)
    requires Check(entries, returnTypes, i, k).Some?
    ensures forall r :: r in Check(entries, returnTypes, i, k).value.available ==> r in k.available || r in Writes(i)
    ensures forall l :: l in Targets(i) ==> Reaches(entries, k, l)
  {
  }

  lemma ArriveNext(f: Function, defaultSize: RegisterSize, entries: Entries, final: Known, path: seq<Place>, n: nat, i: nat) returns (n': nat, i': nat)
    requires GenerateFunction(f, defaultSize).Some? && FunctionPasses(f, defaultSize, entries, final)
    requires |path| > 1 && Arrives(f, defaultSize, entries, path[..|path| - 1], n, i)
    requires Follows(CodeOf(GenerateFunction(f, defaultSize).value), path[|path| - 2], path[|path| - 1])
    ensures Arrives(f, defaultSize, entries, path, n', i')
  {
    var blocks := GenerateFunction(f, defaultSize).value;
    var code, before := CodeOf(blocks), path[..|path| - 1];
    var instruction := blocks[n].instructions[i];
    var k, k' := PassesAt(entries, f.returnTypes, blocks, StartKnown(f), n, i);
    BlocksContained(f, defaultSize, blocks[n]);
    CheckAvailable(entries, f.returnTypes, instruction, k);
    forall r | r in k'.available
      ensures r < |f.parameters| || WrittenOn(code, path, r)
    {
      if r in k.available && r >= |f.parameters| {
        WrittenOnLonger(code, path, r);
      } else if r >= |f.parameters| {
        assert WrittenAt(code, path[|path| - 2], r);
      }
    }
    if IsTerminator(instruction) {
      assert k' == k;
      n' := ArriveAtBlock(f, defaultSize, entries, final, path, path[|path| - 1].block);
      i' := 0;
    } else {
      BlocksEndOnce(f, defaultSize);
      assert blocks[n] in blocks;
      n', i' := n, i + 1;
    }
  }

  lemma {:induction false} PathArrives(f: Function, defaultSize: RegisterSize, entries: Entries, final: Known, path: seq<Place>) returns (n: nat, i: nat)
    requires GenerateFunction(f, defaultSize).Some? && FunctionPasses(f, defaultSize, entries, final)
    requires IsPath(CodeOf(GenerateFunction(f, defaultSize).value), path)
    ensures Arrives(f, defaultSize, entries, path, n, i)
    decreases |path|
  {
    if |path| == 1 {
      n := ArriveAtBlock(f, defaultSize, entries, final, path, 0);
      i := 0;
    } else {
      n, i := PathArrives(f, defaultSize, entries, final, path[..|path| - 1]);
      n, i := ArriveNext(f, defaultSize, entries, final, path, n, i);
    }
  }

  /** On every path from block 0 control stays inside the function, and every register an instruction
      reads is a parameter or was written earlier on that path. */
  lemma DefinitelyAssigned(f: Function, defaultSize: RegisterSize, path: seq<Place>)
    requires GenerateFunction(f, defaultSize).Some? && IsPath(CodeOf(GenerateFunction(f, defaultSize).value), path)
    ensures var code := CodeOf(GenerateFunction(f, defaultSize).value);
            var p := path[|path| - 1];
            InCode(code, p) && forall r :: r in Reads(code[p.block][p.index]) ==> r < |f.parameters| || WrittenOn(code, path, r)
  {
    var blocks := GenerateFunction(f, defaultSize).value;
    var entries, final := FunctionChecked(f, defaultSize);
    var n, i := PathArrives(f, defaultSize, entries, final, path);
    var k, _ := PassesAt(entries, f.returnTypes, blocks, StartKnown(f), n, i);
    BlocksContained(f, defaultSize, blocks[n]);
    forall r | r in Reads(blocks[n].instructions[i])
      ensures r in k.available
    {
      ReadsAreTyped(entries, f.returnTypes, blocks[n].instructions[i], k, r);
    }
  }

  /** Every target of every jump and branch, reached or not, is the label of exactly one block. */
  lemma ClosedGraph(f: Function, defaultSize: RegisterSize)
    requires GenerateFunction(f, defaultSize).Some?
    ensures var blocks := GenerateFunction(f, defaultSize).value;
            blocks[0].id == 0 &&
            forall b, i, l :: b in blocks && i in b.instructions && l in Targets(i) ==> Times(blocks, l) == 1
  {
    var blocks := GenerateFunction(f, defaultSize).value;
    var entries, final := FunctionChecked(f, defaultSize);
    FirstBlock(f, defaultSize);
    forall n: nat, i: nat, l | n < |blocks| && i < |blocks[n].instructions| && l in Targets(blocks[n].instructions[i])
      ensures Times(blocks, l) == 1
    {
      var k, _ := PassesAt(entries, f.returnTypes, blocks, StartKnown(f), n, i);
      CheckAvailable(entries, f.returnTypes, blocks[n].instructions[i], k);
      LabelsPlacedOnce(f, defaultSize, l);
    }
  }

  lemma FirstBlock(f: Function, defaultSize: RegisterSize)
    requires GenerateFunction(f, defaultSize).Some?
    ensures GenerateFunction(f, defaultSize).value[0].id == 0
  {
    var start := StartContext(f, defaultSize);
    ContextProofs.StatementsKeep(start, f.statements, false) by {
      ParametersKeep(InitialContext(f, defaultSize), f.parameters, 0);
    }
    ParametersStayOpen(InitialContext(f, defaultSize), f.parameters, 0);
  }
}
