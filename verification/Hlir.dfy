/** The register instructions of src/hlir.h (integer and boolean part) and a machine that runs them. */
module Hlir {
  import opened Integers
  import opened Options

  datatype IRType = IRBoolean | IRInteger(size: RegisterSize) | IRPointer

  datatype IRConstant = BooleanConstant(boolean: bool) | IntegerConstant(integer: nat)

  type Register = nat
  type Label = nat

  datatype ArithmeticOperation =
    | Add | Subtract | Multiply
    | SignedDivide | UnsignedDivide | SignedModulus | UnsignedModulus
    | BitwiseAnd | BitwiseOr
    | LeftShift | RightShift | RightArithmeticShift

  datatype ComparisonOperation =
    | Equal | SignedLessThan | UnsignedLessThan | SignedGreaterThan | UnsignedGreaterThan

  datatype BooleanOperation = BooleanAnd | BooleanOr

  datatype Instruction =
    | IntegerArithmetic(operation: ArithmeticOperation, a: Register, b: Register, destination: Register)
    | IntegerComparison(comparison: ComparisonOperation, a: Register, b: Register, destination: Register)
    | IntegerExtension(isSigned: bool, source: Register, size: RegisterSize, destination: Register)
    | IntegerTruncation(source: Register, size: RegisterSize, destination: Register)
    | BooleanArithmetic(booleanOperation: BooleanOperation, a: Register, b: Register, destination: Register)
    | BooleanEquality(a: Register, b: Register, destination: Register)
    | BooleanInversion(source: Register, destination: Register)
    | Literal(irType: IRType, constant: IRConstant, destination: Register)
    | Jump(target: Label)
    | Branch(condition: Register, trueTarget: Label, falseTarget: Label)
    | Return(value: Option<Register>)
    | AllocateLocal(irType: IRType, destination: Register)
    | Load(pointer: Register, irType: IRType, destination: Register)
    | Store(source: Register, pointer: Register)

  datatype Block = Block(id: Label, instructions: seq<Instruction>)

  predicate IsTerminator(i: Instruction) {
    i.Jump? || i.Branch? || i.Return?
  }

  /** The registers an instruction reads. */
  function Reads(i: Instruction): set<Register> {
    match i
    case IntegerArithmetic(_, a, b, _) => {a, b}
    case IntegerComparison(_, a, b, _) => {a, b}
    case IntegerExtension(_, source, _, _) => {source}
    case IntegerTruncation(source, _, _) => {source}
    case BooleanArithmetic(_, a, b, _) => {a, b}
    case BooleanEquality(a, b, _) => {a, b}
    case BooleanInversion(source, _) => {source}
    case Literal(_, _, _) => {}
    case Jump(_) => {}
    case Branch(condition, _, _) => {condition}
    case Return(value) => if value.Some? then {value.value} else {}
    case AllocateLocal(_, _) => {}
    case Load(pointer, _, _) => {pointer}
    case Store(source, pointer) => {source, pointer}
  }

  /** The register an instruction writes, as a sequence of at most one. */
  function Writes(i: Instruction): seq<Register> {
    if IsTerminator(i) || i.Store? then [] else [i.destination]
  }

  // ----- Operations on n-bit patterns, as the backend's LLVM instructions define them -----

  /** None is undefined behaviour: division by zero, signed overflow of a division, an oversized shift. */
  function Arithmetic(operation: ArithmeticOperation, size: RegisterSize, a: nat, b: nat): Option<nat> {
    match operation
    case Add => Some(Encode(size, a + b))
    case Subtract => Some(Encode(size, a - b))
    case Multiply => Some(Encode(size, a * b))
    case SignedDivide =>
      var x, y := SignedValue(size, a), SignedValue(size, b);
      if y == 0 || !InRange(Integer(size, true), TruncatedQuotient(x, y)) then None
      else Some(Encode(size, TruncatedQuotient(x, y)))
    case UnsignedDivide => if b == 0 then None else Some(a / b)
    case SignedModulus =>
      var x, y := SignedValue(size, a), SignedValue(size, b);
      if y == 0 || !InRange(Integer(size, true), TruncatedQuotient(x, y)) then None
      else Some(Encode(size, TruncatedRemainder(x, y)))
    case UnsignedModulus => if b == 0 then None else Some(a % b)
    case BitwiseAnd => Some(BitAnd(a, b))
    case BitwiseOr => Some(BitOr(a, b))
    case LeftShift => if b >= Bits(size) then None else Some(Encode(size, a * Pow2(b)))
    case RightShift => if b >= Bits(size) then None else Some(a / Pow2(b))
    case RightArithmeticShift =>
      if b >= Bits(size) then None else Some(Encode(size, SignedValue(size, a) / Pow2(b)))
  }

  function Comparison(comparison: ComparisonOperation, size: RegisterSize, a: nat, b: nat): bool {
    match comparison
    case Equal => a == b
    case SignedLessThan => SignedValue(size, a) < SignedValue(size, b)
    case UnsignedLessThan => a < b
    case SignedGreaterThan => SignedValue(size, a) > SignedValue(size, b)
    case UnsignedGreaterThan => a > b
  }

  // ----- The machine -----

  datatype RegisterValue =
    | BooleanValue(boolean: bool)
    | IntegerValue(size: RegisterSize, bits: nat)
    | PointerValue(local: Register)

  /** Locals live in memory, one slot for each AllocateLocal, named by its destination register. */
  datatype Machine = Machine(registers: map<Register, RegisterValue>, memory: map<Register, RegisterValue>)

  /** `Stuck` marks what the backend would reject: an unset register, a wrong operand kind, a missing block. */
  datatype Effect = Next(machine: Machine) | Undefined | Stuck

  function SetRegister(m: Machine, r: Register, value: RegisterValue): Machine {
    m.(registers := m.registers[r := value])
  }

  function LiteralValue(irType: IRType, constant: IRConstant): Option<RegisterValue> {
    match (irType, constant)
    case (IRBoolean, BooleanConstant(b)) => Some(BooleanValue(b))
    case (IRInteger(size), IntegerConstant(i)) => Some(IntegerValue(size, Encode(size, i)))
    case _ => None
  }

  predicate IsInteger(m: Machine, r: Register) {
    r in m.registers && m.registers[r].IntegerValue?
  }

  predicate IsBoolean(m: Machine, r: Register) {
    r in m.registers && m.registers[r].BooleanValue?
  }

  predicate IsPointer(m: Machine, r: Register) {
    r in m.registers && m.registers[r].PointerValue?
  }

  function ValueType(value: RegisterValue): IRType {
    match value
    case BooleanValue(_) => IRBoolean
    case IntegerValue(size, _) => IRInteger(size)
    case PointerValue(_) => IRPointer
  }

  /** The effect of an instruction that is not a terminator. */
  function Execute(i: Instruction, m: Machine): Effect {
    match i
    case IntegerArithmetic(operation, a, b, destination) =>
      if !IsInteger(m, a) || !IsInteger(m, b) || m.registers[a].size != m.registers[b].size then Stuck else
      var size := m.registers[a].size;
      (match Arithmetic(operation, size, m.registers[a].bits, m.registers[b].bits)
       case None => Undefined
       case Some(bits) => Next(SetRegister(m, destination, IntegerValue(size, bits))))
    case IntegerComparison(comparison, a, b, destination) =>
      if !IsInteger(m, a) || !IsInteger(m, b) || m.registers[a].size != m.registers[b].size then Stuck else
      var result := Comparison(comparison, m.registers[a].size, m.registers[a].bits, m.registers[b].bits);
      Next(SetRegister(m, destination, BooleanValue(result)))
    case IntegerExtension(isSigned, source, size, destination) =>
      if !IsInteger(m, source) || Bits(size) <= Bits(m.registers[source].size) then Stuck else
      var value := Decode(Integer(m.registers[source].size, isSigned), m.registers[source].bits);
      Next(SetRegister(m, destination, IntegerValue(size, Encode(size, value))))
    case IntegerTruncation(source, size, destination) =>
      if !IsInteger(m, source) || Bits(size) >= Bits(m.registers[source].size) then Stuck else
      Next(SetRegister(m, destination, IntegerValue(size, Encode(size, m.registers[source].bits))))
    case BooleanArithmetic(operation, a, b, destination) =>
      if !IsBoolean(m, a) || !IsBoolean(m, b) then Stuck else
      var x, y := m.registers[a].boolean, m.registers[b].boolean;
      Next(SetRegister(m, destination, BooleanValue(if operation.BooleanAnd? then x && y else x || y)))
    case BooleanEquality(a, b, destination) =>
      if !IsBoolean(m, a) || !IsBoolean(m, b) then Stuck else
      Next(SetRegister(m, destination, BooleanValue(m.registers[a].boolean == m.registers[b].boolean)))
    case BooleanInversion(source, destination) =>
      if !IsBoolean(m, source) then Stuck else
      Next(SetRegister(m, destination, BooleanValue(!m.registers[source].boolean)))
    case Literal(irType, constant, destination) =>
      (match LiteralValue(irType, constant)
       case None => Stuck
       case Some(value) => Next(SetRegister(m, destination, value)))
    case AllocateLocal(_, destination) =>
      Next(SetRegister(m, destination, PointerValue(destination)))
    case Load(pointer, irType, destination) =>
      if !IsPointer(m, pointer) then Stuck else
      var local := m.registers[pointer].local;
      if local !in m.memory || ValueType(m.memory[local]) != irType then Stuck else
      Next(SetRegister(m, destination, m.memory[local]))
    case Store(source, pointer) =>
      if source !in m.registers || !IsPointer(m, pointer) then Stuck else
      Next(m.(memory := m.memory[m.registers[pointer].local := m.registers[source]]))
    case _ => Stuck
  }

  /** The code of a function: what its blocks hold, by label. */
  type Code = map<Label, seq<Instruction>>

  datatype Result =
    | Returned(value: Option<RegisterValue>)
    | UndefinedBehaviour
    | Rejected

  /** A machine that is about to run instruction `index` of a block, or one that has stopped. */
  datatype State =
    | Running(block: Label, index: nat, machine: Machine)
    | Halted(result: Result)

  /** One step. A block's instructions run in order up to its first terminator. */
  function Step(code: Code, state: State): State {
    match state
    case Halted(_) => state
    case Running(block, index, m) =>
      if block !in code || index >= |code[block]| then Halted(Rejected) else
      match code[block][index]
      case Jump(target) => Running(target, 0, m)
      case Branch(condition, trueTarget, falseTarget) =>
        if !IsBoolean(m, condition) then Halted(Rejected)
        else Running(if m.registers[condition].boolean then trueTarget else falseTarget, 0, m)
      case Return(value) =>
        if value.None? then Halted(Returned(None))
        else if value.value !in m.registers then Halted(Rejected)
        else Halted(Returned(Some(m.registers[value.value])))
      case instruction =>
        match Execute(instruction, m)
        case Next(m') => Running(block, index + 1, m')
        case Undefined => Halted(UndefinedBehaviour)
        case Stuck => Halted(Rejected)
  }

  function Run(code: Code, state: State, steps: nat): State
    decreases steps
  {
    if steps == 0 then state else Run(code, Step(code, state), steps - 1)
  }

  lemma {:induction false} RunAdds(code: Code, state: State, m: nat, n: nat)
    ensures Run(code, state, m + n) == Run(code, Run(code, state, m), n)
    decreases m
  {
    if m != 0 {
      RunAdds(code, Step(code, state), m - 1, n);
    }
  }

  lemma HaltedStays(code: Code, result: Result, n: nat)
    ensures Run(code, Halted(result), n) == Halted(result)
  {
  }

  /** A run that has halted keeps its result; two halted runs from one state agree. */
  lemma HaltedLater(code: Code, state: State, m: nat, n: nat)
    requires Run(code, state, m).Halted? && m <= n
    ensures Run(code, state, n) == Run(code, state, m)
  {
    RunAdds(code, state, m, n - m);
    HaltedStays(code, Run(code, state, m).result, n - m);
  }

  // ----- Straight-line code -----

  function ExecuteAll(instructions: seq<Instruction>, m: Machine): Effect {
    if instructions == [] then Next(m) else
    match Execute(instructions[0], m)
    case Next(m') => ExecuteAll(instructions[1..], m')
    case effect => effect
  }

  lemma {:induction false} ExecuteAllAppend(f: seq<Instruction>, g: seq<Instruction>, m: Machine)
    ensures ExecuteAll(f + g, m) ==
            match ExecuteAll(f, m) { case Next(m') => ExecuteAll(g, m') case effect => effect }
  {
    if f == [] {
      assert f + g == g;
    } else {
      assert (f + g)[0] == f[0] && (f + g)[1..] == f[1..] + g;
      match Execute(f[0], m) {
        case Next(m') => ExecuteAllAppend(f[1..], g, m');
        case _ =>
      }
    }
  }
}
