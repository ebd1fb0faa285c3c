/** What the backend asserts about every instruction, and what must be known when it is reached. */
module BackendChecks {
  import opened Integers
  import opened Options
  import opened Ast
  import opened Hlir
  import opened Lowering

  /** A pointer register remembers what its local holds. */
  datatype RegisterType = ValueRegister(irType: IRType) | PointerRegister(content: IRType)

  type Types = map<Register, RegisterType>

  /** While the blocks are read in layout order: the types of the registers defined so far, those of
      them that are assigned on every path to this point, and the next register. */
  datatype Known = Known(types: Types, available: set<Register>, next: Register)

  /** The registers assigned on every path to a block. */
  type Entries = map<Label, set<Register>>

  predicate Holds(k: Known, r: Register, t: RegisterType) {
    r in k.available && r in k.types && k.types[r] == t
  }

  function IntegerSize(k: Known, r: Register): Option<RegisterSize> {
    if r in k.available && r in k.types && k.types[r].ValueRegister? && k.types[r].irType.IRInteger? then Some(k.types[r].irType.size) else None
  }

  /** A register is defined once, and registers are numbered in layout order. */
  function Define(k: Known, destination: Register, t: RegisterType): Option<Known> {
    if destination != k.next then None
    else Some(Known(k.types[destination := t], k.available + {destination}, destination + 1))
  }

  predicate Reaches(entries: Entries, k: Known, target: Label) {
    target in entries && entries[target] <= k.available
  }

  predicate ReturnsType(returnTypes: seq<Type>, k: Known, value: Option<Register>) {
    match value
    case None => returnTypes == []
    case Some(r) => |returnTypes| == 1 && IsRuntimeType(returnTypes[0]) && Holds(k, r, ValueRegister(IRTypeOf(returnTypes[0])))
  }

  /** One instruction: None if it reads a register that may be unassigned, has an operand of a wrong
      kind or size, or jumps where more is relied on than is known. */
  function Check(entries: Entries, returnTypes: seq<Type>, i: Instruction, k: Known): Option<Known> {
    match i
    case IntegerArithmetic(_, a, b, destination) =>
      var size := IntegerSize(k, a);
      if size.Some? && IntegerSize(k, b) == size then Define(k, destination, ValueRegister(IRInteger(size.value))) else None
    case IntegerComparison(_, a, b, destination) =>
      if IntegerSize(k, a).Some? && IntegerSize(k, b) == IntegerSize(k, a) then Define(k, destination, ValueRegister(IRBoolean)) else None
    case IntegerExtension(_, source, size, destination) =>
      var from := IntegerSize(k, source);
      if from.Some? && Bits(size) > Bits(from.value) then Define(k, destination, ValueRegister(IRInteger(size))) else None
    case IntegerTruncation(source, size, destination) =>
      var from := IntegerSize(k, source);
      if from.Some? && Bits(size) < Bits(from.value) then Define(k, destination, ValueRegister(IRInteger(size))) else None
    case BooleanArithmetic(_, a, b, destination) =>
      if Holds(k, a, ValueRegister(IRBoolean)) && Holds(k, b, ValueRegister(IRBoolean)) then Define(k, destination, ValueRegister(IRBoolean)) else None
    case BooleanEquality(a, b, destination) =>
      if Holds(k, a, ValueRegister(IRBoolean)) && Holds(k, b, ValueRegister(IRBoolean)) then Define(k, destination, ValueRegister(IRBoolean)) else None
    case BooleanInversion(source, destination) =>
      if Holds(k, source, ValueRegister(IRBoolean)) then Define(k, destination, ValueRegister(IRBoolean)) else None
    case Literal(irType, constant, destination) =>
      if LiteralValue(irType, constant).Some? then Define(k, destination, ValueRegister(irType)) else None
    case AllocateLocal(irType, destination) => Define(k, destination, PointerRegister(irType))
    case Load(pointer, irType, destination) =>
      if Holds(k, pointer, PointerRegister(irType)) then Define(k, destination, ValueRegister(irType)) else None
    case Store(source, pointer) =>
      if source in k.available && source in k.types && k.types[source].ValueRegister? && Holds(k, pointer, PointerRegister(k.types[source].irType))
      then Some(k) else None
    case Jump(target) => if Reaches(entries, k, target) then Some(k) else None
    case Branch(condition, trueTarget, falseTarget) =>
      if Holds(k, condition, ValueRegister(IRBoolean)) && Reaches(entries, k, trueTarget) && Reaches(entries, k, falseTarget) then Some(k) else None
    case Return(value) => if ReturnsType(returnTypes, k, value) then Some(k) else None
  }

  function CheckAll(entries: Entries, returnTypes: seq<Type>, code: seq<Instruction>, k: Known): Option<Known> {
    if code == [] then Some(k) else
    match Check(entries, returnTypes, code[0], k)
    case None => None
    case Some(k') => CheckAll(entries, returnTypes, code[1..], k')
  }

  /** The blocks in layout order: each starts with what is assigned at its entry. */
  function CheckBlocks(entries: Entries, returnTypes: seq<Type>, blocks: seq<Block>, k: Known): Option<Known> {
    if blocks == [] then Some(k) else
    var last := |blocks| - 1;
    match CheckBlocks(entries, returnTypes, blocks[..last], k)
    case None => None
    case Some(k') =>
      if blocks[last].id !in entries then None
      else CheckAll(entries, returnTypes, blocks[last].instructions, k'.(available := entries[blocks[last].id]))
  }

  lemma {:induction false} CheckAllAppend(entries: Entries, returnTypes: seq<Type>, f: seq<Instruction>, g: seq<Instruction>, k: Known)
    ensures CheckAll(entries, returnTypes, f + g, k) ==
            match CheckAll(entries, returnTypes, f, k) { case None => None case Some(k') => CheckAll(entries, returnTypes, g, k') }
  {
    if f == [] {
      assert f + g == g;
    } else {
      assert (f + g)[0] == f[0] && (f + g)[1..] == f[1..] + g;
      match Check(entries, returnTypes, f[0], k) {
        case Some(k') => CheckAllAppend(entries, returnTypes, f[1..], g, k');
        case None =>
      }
    }
  }

  lemma CheckOne(entries: Entries, returnTypes: seq<Type>, i: Instruction, k: Known)
    ensures CheckAll(entries, returnTypes, [i], k) == Check(entries, returnTypes, i, k)
  {
    assert [i][1..] == [];
  }

  lemma CheckTwo(entries: Entries, returnTypes: seq<Type>, i: Instruction, j: Instruction, k: Known)
    ensures CheckAll(entries, returnTypes, [i, j], k) ==
            match Check(entries, returnTypes, i, k) { case None => None case Some(k') => Check(entries, returnTypes, j, k') }
  {
    assert [i, j] == [i] + [j];
    CheckAllAppend(entries, returnTypes, [i], [j], k);
    CheckOne(entries, returnTypes, i, k);
    match Check(entries, returnTypes, i, k) {
      case Some(k') => CheckOne(entries, returnTypes, j, k');
      case None =>
    }
  }

  // ----- What is known only grows -----

  /** Only registers that have been numbered are typed, and only typed ones are assigned. */
  predicate Consistent(k: Known) {
    (forall r :: r in k.types ==> r < k.next) && k.available <= k.types.Keys
  }

  predicate KeepsTypes(k: Known, k': Known) {
    k.next <= k'.next && forall r :: r in k.types ==> r in k'.types && k'.types[r] == k.types[r]
  }

  /** The same block further on. */
  predicate Learns(k: Known, k': Known) {
    KeepsTypes(k, k') && k.available <= k'.available
  }

  lemma CheckLearns(entries: Entries, returnTypes: seq<Type>, i: Instruction, k: Known)
    requires Consistent(k) && Check(entries, returnTypes, i, k).Some?
    ensures Consistent(Check(entries, returnTypes, i, k).value) && Learns(k, Check(entries, returnTypes, i, k).value)
  {
  }

  lemma {:induction false} CheckAllLearns(entries: Entries, returnTypes: seq<Type>, code: seq<Instruction>, k: Known)
    requires Consistent(k) && CheckAll(entries, returnTypes, code, k).Some?
    ensures Consistent(CheckAll(entries, returnTypes, code, k).value) && Learns(k, CheckAll(entries, returnTypes, code, k).value)
  {
    if code != [] {
      CheckLearns(entries, returnTypes, code[0], k);
      CheckAllLearns(entries, returnTypes, code[1..], Check(entries, returnTypes, code[0], k).value);
    }
  }

  /** More entries, the old ones unchanged. */
  predicate MoreEntries(entries: Entries, entries': Entries) {
    forall l :: l in entries ==> l in entries' && entries'[l] == entries[l]
  }

  lemma {:induction false} CheckAllWithMore(entries: Entries, entries': Entries, returnTypes: seq<Type>, code: seq<Instruction>, k: Known)
    requires MoreEntries(entries, entries') && CheckAll(entries, returnTypes, code, k).Some?
    ensures CheckAll(entries', returnTypes, code, k) == CheckAll(entries, returnTypes, code, k)
  {
    if code != [] {
      assert Check(entries', returnTypes, code[0], k) == Check(entries, returnTypes, code[0], k);
      CheckAllWithMore(entries, entries', returnTypes, code[1..], Check(entries, returnTypes, code[0], k).value);
    }
  }

  lemma {:induction false} CheckBlocksWithMore(entries: Entries, entries': Entries, returnTypes: seq<Type>, blocks: seq<Block>, k: Known)
    requires MoreEntries(entries, entries') && CheckBlocks(entries, returnTypes, blocks, k).Some?
    ensures CheckBlocks(entries', returnTypes, blocks, k) == CheckBlocks(entries, returnTypes, blocks, k)
  {
    if blocks != [] {
      var last := |blocks| - 1;
      CheckBlocksWithMore(entries, entries', returnTypes, blocks[..last], k);
      var k1 := CheckBlocks(entries, returnTypes, blocks[..last], k).value;
      CheckAllWithMore(entries, entries', returnTypes, blocks[last].instructions, k1.(available := entries[blocks[last].id]));
    }
  }
}
