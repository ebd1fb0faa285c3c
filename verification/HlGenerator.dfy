/** The generator as the compiler runs it: a context that every function updates in place. */
module HlGenerator {
  import opened Integers
  import opened Options
  import opened Ast
  import opened Hlir
  import opened Source
  import opened Folding
  import opened Lowering
  import opened ConstantScopes
  import opened ContextProofs
  import opened FinisherProofs
  import opened FunctionProofs
  import opened ScopeProofs
  import Typing
  import TypingProofs
  import StatementTyping

  datatype VariableScope = VariableScope(constantScope: ConstantScope, variables: seq<Named<Variable>>)

  datatype TypedRuntimeValue = TypedRuntimeValue(valueType: Type, value: RuntimeValue)

  function VariablesOf(scopes: seq<VariableScope>): Stack<Variable> {
    seq(|scopes|, i requires 0 <= i < |scopes| => scopes[i].variables)
  }

  function ConstantScopesOf(scopes: seq<VariableScope>): seq<ConstantScope> {
    seq(|scopes|, i requires 0 <= i < |scopes| => scopes[i].constantScope)
  }

  lemma EmitTwice(c: Context, f: seq<Instruction>, j: Register, g: seq<Instruction>, k: Register)
    ensures Emit(Emit(c, f, j), g, k) == Emit(c, f + g, k)
  {
    assert c.instructions + f + g == c.instructions + (f + g);
  }

  /** Generating an expression fails, or appends its code and gives its value. */
  ghost predicate Generates(before: Context, g: Option<Generated>, r: Option<TypedRuntimeValue>, after: Context) {
    match g
    case None => r.None?
    case Some(g) => r == Some(TypedRuntimeValue(g.valueType, g.value)) && after == Emit(before, g.code, g.next)
  }

  /** Generating a statement fails, or leaves the context the specification gives. */
  ghost predicate Does(spec: Option<Context>, ok: bool, after: Context) {
    ok == spec.Some? && (ok ==> after == spec.value)
  }

  /** The registers of a loop that has been set up. */
  datatype LoopRegisters = LoopRegisters(indexType: Integer, limit: Register, pointer: Register)

  ghost predicate Forces(before: Context, f: Option<Forced>, r: Option<Register>, after: Context) {
    match f
    case None => r.None?
    case Some(f) => r == Some(f.register) && after == Emit(before, f.code, f.next)
  }

  lemma {:induction false} FindInLast(stack: Stack<Variable>, name: string, n: nat)
    requires n < |stack|
    requires forall m :: n < m < |stack| ==> FindInScope(stack[m], name).None?
    ensures Find(stack, name) == match FindInScope(stack[n], name) { case Some(i) => Some(Ast.Position(n, i)) case None => Find(stack[..n], name) }
    decreases |stack|
  {
    var last := |stack| - 1;
    if n < last {
      FindInLast(stack[..last], name, n);
      assert stack[..last][..n] == stack[..n];
    }
  }

  lemma {:induction false} FindInRest(scope: seq<Named<Variable>>, name: string, i: nat)
    requires i <= |scope| && forall j :: 0 <= j < i ==> scope[j].name != name
    ensures FindInScope(scope, name) ==
            match FindInScope(scope[i..], name) { case None => None case Some(j) => Some(i + j) }
  {
    if i > 0 {
      FindInRest(scope[1..], name, i - 1);
      assert scope[1..][i - 1..] == scope[i..];
    }
  }

  /** The operation on two registers of type `t`. */
  function Selected(operator: BinaryOperator, t: Type, a: Register, b: Register, next: Register): Option<Generated> {
    if t.BooleanType? then BooleanOperationOf(operator, a, b, next)
    else if t.IntegerType? then IntegerOperation(operator, t.integer, a, b, next)
    else None
  }

  /** The operation part of a binary operation on values that are already there. */
  function Operation(operator: BinaryOperator, t: Type, left: TypedRuntimeValue, right: TypedRuntimeValue, next: Register): Option<Generated> {
    match CoerceToRegister(left.valueType, left.value, t, next)
    case None => None
    case Some(l) =>
      match CoerceToRegister(right.valueType, right.value, t, l.next)
      case None => None
      case Some(r) =>
        match Selected(operator, t, l.register, r.register, r.next)
        case None => None
        case Some(g) => Some(g.(code := l.code + r.code + g.code))
  }

  ghost predicate SetsUp(loop: Option<Loop>, r: Option<LoopRegisters>, after: Context) {
    match loop
    case None => r.None?
    case Some(l) => r == Some(LoopRegisters(l.indexType, l.limit, l.pointer)) && after == l.context
  }

  lemma CombineIsOperation(operator: BinaryOperator, left: Generated, right: Generated)
    requires !(left.value.ConstantValue? && right.value.ConstantValue?)
    ensures var g := Operation(operator, BinaryType(left.valueType, right.valueType), TypedRuntimeValue(left.valueType, left.value),
                               TypedRuntimeValue(right.valueType, right.value), right.next);
            CombineBinary(operator, left, right) == if g.None? then None else Some(g.value.(code := left.code + right.code + g.value.code))
  {
    var t := BinaryType(left.valueType, right.valueType);
    var l := CoerceToRegister(left.valueType, left.value, t, right.next);
    if l.Some? {
      var r := CoerceToRegister(right.valueType, right.value, t, l.value.next);
      if r.Some? {
        var code := left.code + right.code;
        assert forall g: seq<Instruction> :: code + l.value.code + r.value.code + g == code + (l.value.code + r.value.code + g);
      }
    }
  }

  /** How a list goes on after its first statement. */
  lemma FirstStatement(c: Context, s: Statement, rest: seq<Statement>)
    requires !s.Declaration? && Lowering.NeedsFinisher(c)
    ensures var c1 := GenerateStatement(c, s);
            GenerateStatements(c, [s] + rest, false) == (if c1.None? then None else GenerateStatements(c1.value, rest, Leaves(s))) &&
            (c1.Some? ==> Lowering.NeedsFinisher(c1.value) == !Leaves(s))
  {
    assert ([s] + rest)[0] == s && ([s] + rest)[1..] == rest;
    if GenerateStatement(c, s).Some? {
      StatementFinisher(c, s);
    }
  }

  lemma FirstParameter(c: Context, p: Parameter, rest: seq<Parameter>, index: Register)
    requires IsRuntimeType(p.parameterType) && forall q :: q in rest ==> IsRuntimeType(q.parameterType)
    ensures Lowering.GenerateParameters(c, [p] + rest, index) == Lowering.GenerateParameters(CopyParameter(c, p, index), rest, index + 1)
  {
    assert ([p] + rest)[0] == p && ([p] + rest)[1..] == rest;
  }

  /** After a statement the scopes of the later ones are ahead. */
  lemma AfterStatement(all: seq<ListedScope>, c: Context, c1: Context, s: Statement, rest: seq<Statement>)
    requires Consumes(c, c1, StatementScopes(CurrentScope(c), s, c.nextScope))
    requires Listed(all, c.nextScope, ChildScopes(CurrentScope(c), [s] + rest, c.nextScope))
    ensures CurrentScope(c1) == CurrentScope(c) && Listed(all, c1.nextScope, ChildScopes(CurrentScope(c1), rest, c1.nextScope))
  {
    ChildScopesSplit(all, c.nextScope, CurrentScope(c), s, rest);
  }

  /** After an arm the scopes of the later arms are ahead. */
  lemma AfterArm(all: seq<ListedScope>, c: Context, arm: Arm, rest: seq<Arm>, next: Label, end: Label)
    requires WellScoped(c) && Listed(all, c.nextScope, ArmScopes(CurrentScope(c), [arm] + rest, c.nextScope))
    requires Lowering.GenerateArm(c, arm, next, end).Some?
    ensures var c1 := Lowering.GenerateArm(c, arm, next, end).value;
            WellScoped(c1) && CurrentScope(c1) == CurrentScope(c) && Listed(all, c1.nextScope, ArmScopes(CurrentScope(c1), rest, c1.nextScope))
  {
    ArmScopesSplit(all, c.nextScope, CurrentScope(c), arm, rest);
    ArmKeeps(c, arm, next, end);
    ArmConsumes(c, arm, next, end);
  }

  class GenerationContext {
    var returnTypes: seq<Type>
    var defaultSize: RegisterSize
    var childScopes: seq<ListedScope>
    var nextChildScopeIndex: nat
    var inBreakableScope: bool
    var breakEndBlock: Label
    var variableScopes: seq<VariableScope>
    var blocks: seq<Block>
    var currentBlock: Label
    var instructions: seq<Instruction>
    var nextRegister: Register
    var nextBlock: Label

    /** The context as a value. */
    ghost function State(): Context
      reads this
    {
      Context(returnTypes, defaultSize, if inBreakableScope then Some(breakEndBlock) else None, VariablesOf(variableScopes),
              ConstantScopesOf(variableScopes), nextChildScopeIndex, blocks, currentBlock, instructions, nextRegister, nextBlock)
    }

    constructor (f: Function, size: RegisterSize, scope: ConstantScope, scopes: seq<ListedScope>)
      ensures State() == InitialContext(f, size).(constantScopes := [scope])
      ensures childScopes == scopes && nextChildScopeIndex == 0
    {
      returnTypes, defaultSize := f.returnTypes, size;
      childScopes, nextChildScopeIndex := scopes, 0;
      inBreakableScope, breakEndBlock := false, 0;
      variableScopes := [VariableScope(scope, [])];
      blocks, currentBlock, instructions := [], 0, [];
      nextRegister, nextBlock := |f.parameters|, 1;
    }

    // ----- Variables -----

    method AddNewVariable(name: string, variable: Variable) returns (added: bool)
      requires variableScopes != []
      modifies this`variableScopes
      ensures added == Lowering.AddNewVariable(old(State()), name, variable).Some?
      ensures State() == if added then Lowering.AddNewVariable(old(State()), name, variable).value else old(State())
      ensures |variableScopes| == old(|variableScopes|)
    {
      var last := |variableScopes| - 1;
      var scope := variableScopes[last];
      var i := 0;
      while i < |scope.variables|
        invariant 0 <= i <= |scope.variables|
        invariant forall j :: 0 <= j < i ==> scope.variables[j].name != name
      {
        if scope.variables[i].name == name {
          FindInRest(scope.variables, name, i);
          return false;
        }
        i := i + 1;
      }
      FindInRest(scope.variables, name, i);
      variableScopes := variableScopes[last := VariableScope(scope.constantScope, scope.variables + [Named(name, variable)])];
      assert VariablesOf(variableScopes) == Declare(old(VariablesOf(variableScopes)), Named(name, variable));
      assert ConstantScopesOf(variableScopes) == old(ConstantScopesOf(variableScopes));
      added := true;
    }

    /** The innermost variable of a name: scopes from the last, variables of a scope from the first. */
    method FindVariable(name: string) returns (found: Option<Variable>)
      ensures found == match Find(VariablesOf(variableScopes), name) {
        case None => None
        case Some(p) => Some(VariablesOf(variableScopes)[p.scope][p.index].info)
      }
    {
      ghost var stack := VariablesOf(variableScopes);
      var i := 0;
      while i < |variableScopes|
        invariant 0 <= i <= |variableScopes|
        invariant forall m :: |variableScopes| - i <= m < |variableScopes| ==> FindInScope(stack[m], name).None?
      {
        found := FindVariableInScope(variableScopes[|variableScopes| - 1 - i].variables, name);
        if found.Some? {
          FindInLast(stack, name, |variableScopes| - 1 - i);
          return;
        }
        i := i + 1;
      }
      if stack != [] {
        FindInLast(stack, name, 0);
      }
      found := None;
    }

    method FindVariableInScope(variables: seq<Named<Variable>>, name: string) returns (found: Option<Variable>)
      ensures found == match FindInScope(variables, name) { case None => None case Some(j) => Some(variables[j].info) }
    {
      var j := 0;
      while j < |variables|
        invariant 0 <= j <= |variables|
        invariant forall k :: 0 <= k < j ==> variables[k].name != name
      {
        if variables[j].name == name {
          FindInRest(variables, name, j);
          return Some(variables[j].info);
        }
        j := j + 1;
      }
      FindInRest(variables, name, j);
      found := None;
    }

    // ----- Instructions and blocks -----

    method AllocateRegister() returns (register: Register)
      modifies this`nextRegister
      ensures register == old(nextRegister) && nextRegister == register + 1
    {
      register := nextRegister;
      nextRegister := nextRegister + 1;
    }

    /** Append an instruction that writes the register just allocated. */
    method Append(instruction: Instruction)
      modifies this`instructions
      ensures State() == Emit(old(State()), [instruction], nextRegister)
    {
      instructions := instructions + [instruction];
    }

    method NeedsFinisher() returns (needed: bool)
      ensures needed == Lowering.NeedsFinisher(State())
    {
      if |instructions| == 0 {
        return true;
      }
      var last := instructions[|instructions| - 1];
      needed := !last.Return? && !last.Branch? && !last.Jump?;
    }

    method NewBlock() returns (block: Label)
      modifies this`nextBlock
      ensures block == old(nextBlock) && nextBlock == block + 1
    {
      block := nextBlock;
      nextBlock := nextBlock + 1;
    }

    /** The open block must already have its terminator. */
    method ChangeBlock(block: Label)
      requires !Lowering.NeedsFinisher(State())
      modifies this`blocks, this`currentBlock, this`instructions
      ensures State() == Lowering.ChangeBlock(old(State()), block)
    {
      blocks := blocks + [Block(currentBlock, instructions)];
      currentBlock := block;
      instructions := [];
    }

    method EnterNewBlock()
      modifies this`blocks, this`currentBlock, this`instructions, this`nextBlock
      ensures State() == Lowering.EnterNewBlock(old(State()))
    {
      if |instructions| == 0 {
        return;
      }
      var block := NewBlock();
      var needed := NeedsFinisher();
      if needed {
        Append(Jump(block));
      }
      blocks := blocks + [Block(currentBlock, instructions)];
      currentBlock := block;
      instructions := [];
    }

    /** The end of a nested list. */
    method Finish(target: Label, next: Label)
      modifies this`blocks, this`currentBlock, this`instructions
      ensures State() == Lowering.Finish(old(State()), target, next)
    {
      var needed := NeedsFinisher();
      if needed {
        Append(Jump(target));
      }
      ChangeBlock(next);
    }

    // ----- Values -----

    method GenerateInRegisterValue(irType: IRType, value: RuntimeValue) returns (register: Register)
      modifies this`instructions, this`nextRegister
      ensures Forces(old(State()), Some(InRegister(irType, value, old(nextRegister))), Some(register), State())
    {
      match value
      case ConstantValue(constant) =>
        register := AllocateRegister();
        Append(Literal(irType, constant, register));
      case RegisterHeld(held) =>
        register := held;
        assert instructions + [] == instructions;
      case AddressedValue(pointer) =>
        register := AllocateRegister();
        Append(Load(pointer, irType, register));
    }

    method CoerceToTypeRegister(from: Type, value: RuntimeValue, target: Type) returns (r: Option<Register>)
      modifies this`instructions, this`nextRegister
      ensures Forces(old(State()), CoerceToRegister(from, value, target, old(nextRegister)), r, State())
      ensures r.None? ==> State() == old(State())
    {
      match target
      case IntegerType(t) =>
        if from == target {
          var register := GenerateInRegisterValue(IRInteger(t.size), value);
          r := Some(register);
        } else if from.UndeterminedInteger? && value.ConstantValue? && IsWord(value.constant) && CheckCoercion(t, value.constant.integer) {
          var register := GenerateInRegisterValue(IRInteger(t.size), value);
          r := Some(register);
        } else {
          r := None;
        }
      case BooleanType =>
        if from.BooleanType? {
          var register := GenerateInRegisterValue(IRBoolean, value);
          r := Some(register);
        } else {
          r := None;
        }
      case UndeterminedInteger => r := None;
    }

    // ----- Expressions -----

    method AppendIntegerOperation(operator: BinaryOperator, t: Integer, a: Register, b: Register) returns (r: Option<TypedRuntimeValue>)
      modifies this`instructions, this`nextRegister
      ensures Generates(old(State()), IntegerOperation(operator, t, a, b, old(nextRegister)), r, State())
    {
      var arithmetic := SelectArithmetic(operator, t.isSigned);
      if arithmetic.Some? {
        var result := AllocateRegister();
        Append(IntegerArithmetic(arithmetic.value, a, b, result));
        return Some(TypedRuntimeValue(IntegerType(t), RegisterHeld(result)));
      }
      var comparison := SelectComparison(operator, t.isSigned);
      if comparison.None? {
        return None;
      }
      var result := AllocateRegister();
      ghost var compare := IntegerComparison(comparison.value.comparison, a, b, result);
      Append(IntegerComparison(comparison.value.comparison, a, b, result));
      if comparison.value.invert {
        result := AppendInversion(result);
        assert old(instructions) + [compare] + [instructions[|instructions| - 1]] == old(instructions) + [compare, instructions[|instructions| - 1]];
      }
      r := Some(TypedRuntimeValue(BooleanType, RegisterHeld(result)));
    }

    method AppendInversion(source: Register) returns (result: Register)
      modifies this`instructions, this`nextRegister
      ensures result == old(nextRegister) && State() == Emit(old(State()), [BooleanInversion(source, result)], result + 1)
    {
      result := AllocateRegister();
      Append(BooleanInversion(source, result));
    }

    method AppendBooleanOperation(operator: BinaryOperator, a: Register, b: Register) returns (r: Option<TypedRuntimeValue>)
      modifies this`instructions, this`nextRegister
      ensures Generates(old(State()), BooleanOperationOf(operator, a, b, old(nextRegister)), r, State())
    {
      var result: Register;
      match operator {
        case BooleanAnd =>
          result := AllocateRegister();
          Append(BooleanArithmetic(BooleanOperation.BooleanAnd, a, b, result));
        case BooleanOr =>
          result := AllocateRegister();
          Append(BooleanArithmetic(BooleanOperation.BooleanOr, a, b, result));
        case Equal =>
          result := AllocateRegister();
          Append(BooleanEquality(a, b, result));
        case NotEqual =>
          result := AllocateRegister();
          ghost var equality := BooleanEquality(a, b, result);
          Append(BooleanEquality(a, b, result));
          result := AppendInversion(result);
          assert old(instructions) + [equality] + [instructions[|instructions| - 1]] == old(instructions) + [equality, instructions[|instructions| - 1]];
        case _ => return None;
      }
      r := Some(TypedRuntimeValue(BooleanType, RegisterHeld(result)));
    }

    /** Both operands into registers of type `t`. */
    method BothInRegisters(left: TypedRuntimeValue, right: TypedRuntimeValue, t: Type) returns (l: Option<Register>, r: Option<Register>)
      modifies this`instructions, this`nextRegister
      ensures var before := old(State());
              var f := CoerceToRegister(left.valueType, left.value, t, before.nextRegister);
              if f.None? then l.None? else
              l == Some(f.value.register) &&
              var g := CoerceToRegister(right.valueType, right.value, t, f.value.next);
              if g.None? then r.None? else
              r == Some(g.value.register) && State() == Emit(before, f.value.code + g.value.code, g.value.next)
    {
      ghost var before := State();
      r := None;
      l := CoerceToTypeRegister(left.valueType, left.value, t);
      if l.Some? {
        r := CoerceToTypeRegister(right.valueType, right.value, t);
        if r.Some? {
          ghost var f := CoerceToRegister(left.valueType, left.value, t, before.nextRegister).value;
          ghost var g := CoerceToRegister(right.valueType, right.value, t, f.next).value;
          EmitTwice(before, f.code, f.next, g.code, g.next);
        }
      }
    }

    method AppendSelected(operator: BinaryOperator, t: Type, a: Register, b: Register) returns (r: Option<TypedRuntimeValue>)
      modifies this`instructions, this`nextRegister
      ensures Generates(old(State()), Selected(operator, t, a, b, old(nextRegister)), r, State())
    {
      match t {
        case BooleanType => r := AppendBooleanOperation(operator, a, b);
        case IntegerType(integer) => r := AppendIntegerOperation(operator, integer, a, b);
        case UndeterminedInteger => r := None;
      }
    }

    /** Both operands into registers of type `t`, then the operation. */
    method AppendOperation(operator: BinaryOperator, t: Type, left: TypedRuntimeValue, right: TypedRuntimeValue) returns (r: Option<TypedRuntimeValue>)
      modifies this`instructions, this`nextRegister
      ensures Generates(old(State()), Operation(operator, t, left, right, old(nextRegister)), r, State())
    {
      ghost var before := State();
      var a, b := BothInRegisters(left, right, t);
      if a.None? || b.None? {
        return None;
      }
      ghost var f := CoerceToRegister(left.valueType, left.value, t, before.nextRegister).value;
      ghost var g := CoerceToRegister(right.valueType, right.value, t, f.next).value;
      r := AppendSelected(operator, t, a.value, b.value);
      if r.Some? {
        ghost var selected := Selected(operator, t, a.value, b.value, g.next).value;
        EmitTwice(before, f.code + g.code, g.next, selected.code, selected.next);
      }
    }

    method GenerateBinaryOperation(operator: BinaryOperator, left: Expression, right: Expression) returns (r: Option<TypedRuntimeValue>)
      modifies this`instructions, this`nextRegister
      ensures Generates(old(State()), Lowering.GenerateExpression(old(State()).variables, old(nextRegister), BinaryOperation(operator, left, right)), r, State())
      ensures var variables := old(State()).variables;
              TypingProofs.AllRuntime(variables) ==>
                Typing.TypeOf(TypingProofs.TypesOf(variables), BinaryOperation(operator, left, right)) ==
                  if r.Some? then Some(r.value.valueType) else None
      decreases BinaryOperation(operator, left, right), 0
    {
      ghost var before := State();
      if TypingProofs.AllRuntime(before.variables) {
        StatementTyping.HasItsType(before.variables, before.nextRegister, BinaryOperation(operator, left, right));
      }
      var l, rr := GenerateOperands(BinaryOperation(operator, left, right), left, right);
      if l.None? || rr.None? {
        return None;
      }
      ghost var f := Lowering.GenerateExpression(before.variables, before.nextRegister, left).value;
      ghost var g := Lowering.GenerateExpression(before.variables, f.next, right).value;
      r := CombineValues(before, f, g, operator, l.value, rr.value);
    }

    /** Two expressions in order. */
    method GenerateOperands(ghost whole: Expression, e: Expression, e': Expression)
      returns (r: Option<TypedRuntimeValue>, r': Option<TypedRuntimeValue>)
      requires e < whole && e' < whole
      modifies this`instructions, this`nextRegister
      ensures var before := old(State());
              var g := Lowering.GenerateExpression(before.variables, before.nextRegister, e);
              (g.None? <==> r.None?) &&
              (g.Some? ==>
                r.value == TypedRuntimeValue(g.value.valueType, g.value.value) &&
                var g' := Lowering.GenerateExpression(before.variables, g.value.next, e');
                (g'.None? <==> r'.None?) &&
                (g'.Some? ==>
                  r'.value == TypedRuntimeValue(g'.value.valueType, g'.value.value) &&
                  State() == Emit(before, g.value.code + g'.value.code, g'.value.next)))
      decreases whole, -1
    {
      ghost var before := State();
      r := GenerateExpression(e);
      if r.None? {
        return None, None;
      }
      r' := GenerateExpression(e');
      if r'.Some? {
        ghost var g := Lowering.GenerateExpression(before.variables, before.nextRegister, e).value;
        ghost var g' := Lowering.GenerateExpression(before.variables, g.next, e').value;
        EmitTwice(before, g.code, g.next, g'.code, g'.next);
      }
    }

    /** Two constants are folded; otherwise both operands go into registers. */
    method CombineValues(
      ghost before: Context, ghost left: Generated, ghost right: Generated, operator: BinaryOperator, l: TypedRuntimeValue, r: TypedRuntimeValue
    ) returns (combined: Option<TypedRuntimeValue>)
      requires l == TypedRuntimeValue(left.valueType, left.value) && r == TypedRuntimeValue(right.valueType, right.value)
      requires State() == Emit(before, left.code + right.code, right.next)
      modifies this`instructions, this`nextRegister
      ensures Generates(before, CombineBinary(operator, left, right), combined, State())
    {
      if l.value.ConstantValue? && r.value.ConstantValue? {
        var folded := FoldBinary(operator, TypedConstant(l.valueType, l.value.constant), TypedConstant(r.valueType, r.value.constant));
        return if folded.None? then None else Some(TypedRuntimeValue(folded.value.constantType, ConstantValue(folded.value.constant)));
      }
      var t := BinaryType(l.valueType, r.valueType);
      CombineIsOperation(operator, left, right);
      combined := AppendOperation(operator, t, l, r);
      if combined.Some? {
        ghost var g := Operation(operator, t, l, r, right.next).value;
        EmitTwice(before, left.code + right.code, right.next, g.code, g.next);
      }
    }

    method GenerateNegation(operand: Expression) returns (r: Option<TypedRuntimeValue>)
      modifies this`instructions, this`nextRegister
      ensures Generates(old(State()), Lowering.GenerateExpression(old(State()).variables, old(nextRegister), Negation(operand)), r, State())
      decreases operand, 2
    {
      ghost var before := State();
      var value := GenerateExpression(operand);
      if value.None? || value.value.valueType.BooleanType? {
        return None;
      }
      var t := value.value.valueType;
      ghost var g := Lowering.GenerateExpression(before.variables, before.nextRegister, operand).value;
      match value.value.value {
        case ConstantValue(constant) =>
          var folded := FoldNegation(TypedConstant(t, constant));
          r := if folded.None? then None else Some(TypedRuntimeValue(folded.value.constantType, ConstantValue(folded.value.constant)));
        case _ =>
          if !t.IntegerType? {
            return None;
          }
          r := SubtractFromZero(before, g, t, value.value.value);
      }
    }

    method SubtractFromZero(ghost before: Context, ghost g: Generated, t: Type, value: RuntimeValue) returns (r: Option<TypedRuntimeValue>)
      requires g.valueType == t && g.value == value && !value.ConstantValue? && t.IntegerType?
      requires State() == Emit(before, g.code, g.next)
      modifies this`instructions, this`nextRegister
      ensures Generates(before, Lowering.GenerateNegation(g), r, State())
    {
      var register := GenerateInRegisterValue(IRTypeOf(t), value);
      ghost var f := InRegister(IRTypeOf(t), g.value, g.next);
      EmitTwice(before, g.code, g.next, f.code, f.next);
      var zero := AllocateRegister();
      Append(Literal(IRTypeOf(t), IntegerConstant(0), zero));
      var result := AllocateRegister();
      Append(IntegerArithmetic(Subtract, zero, register, result));
      ghost var last := [Literal(IRTypeOf(t), IntegerConstant(0), f.next), IntegerArithmetic(Subtract, f.next, f.register, f.next + 1)];
      assert instructions == before.instructions + (g.code + f.code + last);
      r := Some(TypedRuntimeValue(t, RegisterHeld(result)));
    }

    method GenerateInversion(operand: Expression) returns (r: Option<TypedRuntimeValue>)
      modifies this`instructions, this`nextRegister
      ensures Generates(old(State()), Lowering.GenerateExpression(old(State()).variables, old(nextRegister), BooleanInvert(operand)), r, State())
      decreases operand, 2
    {
      ghost var before := State();
      var value := GenerateExpression(operand);
      if value.None? || !value.value.valueType.BooleanType? {
        return None;
      }
      ghost var g := Lowering.GenerateExpression(before.variables, before.nextRegister, operand).value;
      match value.value.value {
        case ConstantValue(constant) =>
          r := if constant.BooleanConstant? then Some(TypedRuntimeValue(BooleanType, ConstantValue(IRConstant.BooleanConstant(!constant.boolean)))) else None;
        case _ =>
          var register := GenerateInRegisterValue(IRBoolean, value.value.value);
          ghost var f := InRegister(IRBoolean, g.value, g.next);
          EmitTwice(before, g.code, g.next, f.code, f.next);
          var result := AppendInversion(register);
          EmitTwice(before, g.code + f.code, f.next, [BooleanInversion(f.register, f.next)], f.next + 1);
          r := Some(TypedRuntimeValue(BooleanType, RegisterHeld(result)));
      }
    }

    /** Extend or truncate a register, or leave it alone. */
    method AppendConversion(source: Integer, register: Register, target: Integer) returns (result: Register)
      modifies this`instructions, this`nextRegister
      ensures Forces(old(State()), Some(ConvertInteger(source, register, target, old(nextRegister))), Some(result), State())
    {
      if Bits(target.size) > Bits(source.size) {
        result := AllocateRegister();
        Append(IntegerExtension(source.isSigned, register, target.size, result));
      } else if Bits(target.size) < Bits(source.size) {
        result := AllocateRegister();
        Append(IntegerTruncation(register, target.size, result));
      } else {
        result := register;
        assert instructions + [] == instructions;
      }
    }

    method GenerateCast(operand: Expression, target: Type) returns (r: Option<TypedRuntimeValue>)
      modifies this`instructions, this`nextRegister
      ensures Generates(old(State()), Lowering.GenerateExpression(old(State()).variables, old(nextRegister), Cast(operand, target)), r, State())
      decreases operand, 2
    {
      ghost var before := State();
      var value := GenerateExpression(operand);
      if value.None? {
        return None;
      }
      ghost var g := Lowering.GenerateExpression(before.variables, before.nextRegister, operand).value;
      var t := value.value.valueType;
      if value.value.value.ConstantValue? {
        var folded := FoldCast(TypedConstant(t, value.value.value.constant), target);
        return if folded.None? then None else Some(TypedRuntimeValue(folded.value.constantType, ConstantValue(folded.value.constant)));
      }
      var coerced := CoerceToTypeRegister(t, value.value.value, target);
      if coerced.Some? {
        ghost var f := CoerceToRegister(t, g.value, target, g.next).value;
        EmitTwice(before, g.code, g.next, f.code, f.next);
        return Some(TypedRuntimeValue(target, RegisterHeld(coerced.value)));
      }
      r := ConvertValue(before, g, t, value.value.value, target);
    }

    /** A cast between integer types that are not the same. */
    method ConvertValue(ghost before: Context, ghost g: Generated, t: Type, value: RuntimeValue, target: Type) returns (r: Option<TypedRuntimeValue>)
      requires g.valueType == t && g.value == value && !value.ConstantValue? && CoerceToRegister(t, value, target, g.next).None?
      requires State() == Emit(before, g.code, g.next)
      modifies this`instructions, this`nextRegister
      ensures Generates(before, Lowering.GenerateCast(g, target), r, State())
    {
      if !target.IntegerType? || !t.IntegerType? {
        return None;
      }
      var register := GenerateInRegisterValue(IRTypeOf(t), value);
      ghost var f := InRegister(IRTypeOf(t), g.value, g.next);
      EmitTwice(before, g.code, g.next, f.code, f.next);
      var result := AppendConversion(t.integer, register, target.integer);
      ghost var conversion := ConvertInteger(t.integer, f.register, target.integer, f.next);
      EmitTwice(before, g.code + f.code, f.next, conversion.code, conversion.next);
      r := Some(TypedRuntimeValue(target, RegisterHeld(result)));
    }

    method GenerateExpression(e: Expression) returns (r: Option<TypedRuntimeValue>)
      modifies this`instructions, this`nextRegister
      ensures Generates(old(State()), Lowering.GenerateExpression(old(State()).variables, old(nextRegister), e), r, State())
      decreases e, 1
    {
      assert instructions + [] == instructions;
      match e
      case IntegerLiteral(word) => r := Some(TypedRuntimeValue(UndeterminedInteger, ConstantValue(IntegerConstant(word))));
      case BooleanLiteral(b) => r := Some(TypedRuntimeValue(BooleanType, ConstantValue(IRConstant.BooleanConstant(b))));
      case NamedReference(name) =>
        var variable := FindVariable(name);
        r := if variable.None? then None else Some(TypedRuntimeValue(variable.value.variableType, AddressedValue(variable.value.pointer)));
      case BinaryOperation(operator, left, right) => r := GenerateBinaryOperation(operator, left, right);
      case Negation(operand) => r := GenerateNegation(operand);
      case BooleanInvert(operand) => r := GenerateInversion(operand);
      case Cast(operand, target) => r := GenerateCast(operand, target);
    }

    // ----- Parameters -----

    /** Copy every parameter to a local; a repeated name keeps its first parameter. */
    method GenerateParameters(parameters: seq<Parameter>)
      requires variableScopes != [] && forall p :: p in parameters ==> IsRuntimeType(p.parameterType)
      modifies this`instructions, this`nextRegister, this`variableScopes
      ensures State() == Lowering.GenerateParameters(old(State()), parameters, 0)
    {
      ghost var before := State();
      var i := 0;
      assert parameters[0..] == parameters;
      while i < |parameters|
        invariant 0 <= i <= |parameters| && variableScopes != []
        invariant Lowering.GenerateParameters(State(), parameters[i..], i) == Lowering.GenerateParameters(before, parameters, 0)
      {
        assert parameters[i..] == [parameters[i]] + parameters[i + 1..];
        FirstParameter(State(), parameters[i], parameters[i + 1..], i);
        GenerateParameter(parameters[i], i);
        i := i + 1;
      }
      assert parameters[i..] == [];
    }

    method GenerateParameter(p: Parameter, index: Register)
      requires variableScopes != [] && IsRuntimeType(p.parameterType)
      modifies this`instructions, this`nextRegister, this`variableScopes
      ensures State() == CopyParameter(old(State()), p, index) && variableScopes != []
    {
      ghost var before := State();
      var pointer := AllocateRegister();
      Append(AllocateLocal(IRTypeOf(p.parameterType), pointer));
      Append(Store(index, pointer));
      assert instructions == before.instructions + [AllocateLocal(IRTypeOf(p.parameterType), pointer), Store(index, pointer)];
      var _ := AddNewVariable(p.name, Variable(p.parameterType, pointer));
    }

    // ----- Simple statements -----

    /** Force a value into a register of type `t` and store it. */
    method CoerceAndStore(ghost before: Context, ghost code: seq<Instruction>, from: Type, value: RuntimeValue, t: Type, pointer: Register)
      returns (ok: bool)
      requires State() == Emit(before, code, nextRegister)
      modifies this`instructions, this`nextRegister
      ensures var f := CoerceToRegister(from, value, t, old(nextRegister));
              ok == f.Some? &&
              (ok ==> State() == Emit(before, code + f.value.code + [Store(f.value.register, pointer)], f.value.next))
    {
      ghost var f := CoerceToRegister(from, value, t, nextRegister);
      ghost var next := nextRegister;
      var register := CoerceToTypeRegister(from, value, t);
      if register.None? {
        return false;
      }
      EmitTwice(before, code, next, f.value.code, f.value.next);
      Append(Store(register.value, pointer));
      EmitTwice(before, code + f.value.code, f.value.next, [Store(f.value.register, pointer)], f.value.next);
      ok := true;
    }

    /** Declare a local and store a value that has been generated in it. */
    method GenerateLocal(ghost before: Context, ghost g: Generated, name: string, t: Type, value: TypedRuntimeValue) returns (ok: bool)
      requires variableScopes != [] && value == TypedRuntimeValue(g.valueType, g.value) && State() == Emit(before, g.code, g.next)
      modifies this`instructions, this`nextRegister, this`variableScopes
      ensures Does(Lowering.GenerateLocal(before, name, t, g), ok, State())
    {
      if !IsRuntimeType(t) {
        return false;
      }
      var pointer := AllocateRegister();
      Append(AllocateLocal(IRTypeOf(t), pointer));
      ghost var added := g.code + [AllocateLocal(IRTypeOf(t), pointer)];
      EmitTwice(before, g.code, g.next, [AllocateLocal(IRTypeOf(t), pointer)], pointer + 1);
      ok := CoerceAndStore(before, added, value.valueType, value.value, t, pointer);
      if !ok {
        return false;
      }
      ok := AddNewVariable(name, Variable(t, pointer));
    }

    method GenerateVariableDeclaration(s: Statement) returns (ok: bool)
      requires s.VariableDeclaration? && variableScopes != []
      modifies this`instructions, this`nextRegister, this`variableScopes
      ensures Does(Lowering.GenerateVariableDeclaration(old(State()), s), ok, State())
    {
      ghost var before := State();
      if s.initializer.None? {
        return false;
      }
      var value := GenerateExpression(s.initializer.value);
      if value.None? {
        return false;
      }
      var t := if s.declaredType.Some? then s.declaredType.value else DefaultType(defaultSize, value.value.valueType);
      ghost var g := Lowering.GenerateExpression(before.variables, before.nextRegister, s.initializer.value).value;
      ok := GenerateLocal(before, g, s.name, t, value.value);
    }

    method GenerateStore(target: Expression, value: Expression) returns (ok: bool)
      modifies this`instructions, this`nextRegister
      ensures Does(Lowering.GenerateStore(old(State()), target, value), ok, State())
    {
      ghost var before := State();
      var place := GenerateExpression(target);
      if place.None? || !place.value.value.AddressedValue? {
        return false;
      }
      ghost var t := Lowering.GenerateExpression(before.variables, before.nextRegister, target).value;
      var stored := GenerateExpression(value);
      if stored.None? {
        return false;
      }
      ghost var g := Lowering.GenerateExpression(before.variables, t.next, value).value;
      EmitTwice(before, t.code, t.next, g.code, g.next);
      ok := CoerceAndStore(before, t.code + g.code, stored.value.valueType, stored.value.value, place.value.valueType, place.value.value.pointer);
    }

    method GenerateReturn(values: seq<Expression>) returns (ok: bool)
      modifies this`instructions, this`nextRegister
      ensures Does(Lowering.GenerateReturn(old(State()), values), ok, State())
    {
      ghost var before := State();
      if |values| != |returnTypes| || |values| > 1 {
        return false;
      }
      if |returnTypes| == 0 {
        Append(Return(None));
        return true;
      }
      var value := GenerateExpression(values[0]);
      if value.None? {
        return false;
      }
      ghost var g := Lowering.GenerateExpression(before.variables, before.nextRegister, values[0]).value;
      var register := CoerceToTypeRegister(value.value.valueType, value.value.value, returnTypes[0]);
      if register.None? {
        return false;
      }
      ghost var f := CoerceToRegister(g.valueType, g.value, returnTypes[0], g.next).value;
      EmitTwice(before, g.code, g.next, f.code, f.next);
      Append(Return(Some(register.value)));
      EmitTwice(before, g.code + f.code, f.next, [Return(Some(f.register))], f.next);
      ok := true;
    }

    method GenerateCondition(condition: Expression, trueTarget: Label, falseTarget: Label) returns (ok: bool)
      modifies this`instructions, this`nextRegister
      ensures Does(Lowering.GenerateCondition(old(State()), condition, trueTarget, falseTarget), ok, State())
      ensures ok ==> !Lowering.NeedsFinisher(State())
    {
      ghost var before := State();
      var value := GenerateExpression(condition);
      if value.None? || !value.value.valueType.BooleanType? {
        return false;
      }
      ghost var g := Lowering.GenerateExpression(before.variables, before.nextRegister, condition).value;
      var register := GenerateInRegisterValue(IRBoolean, value.value.value);
      ghost var f := InRegister(IRBoolean, g.value, g.next);
      EmitTwice(before, g.code, g.next, f.code, f.next);
      Append(Branch(register, trueTarget, falseTarget));
      EmitTwice(before, g.code + f.code, f.next, [Branch(f.register, trueTarget, falseTarget)], f.next);
      ok := true;
    }

    /** The bounds in registers of the index type, and the index in a local. */
    method SetUpIndex(ghost before: Context, ghost f: Generated, ghost t: Generated, from: TypedRuntimeValue, to: TypedRuntimeValue)
      returns (r: Option<LoopRegisters>)
      requires from == TypedRuntimeValue(f.valueType, f.value) && to == TypedRuntimeValue(t.valueType, t.value)
      requires State() == Emit(before, f.code + t.code, t.next)
      modifies this`instructions, this`nextRegister
      ensures SetsUp(SetUp(before, f, t), r, State())
    {
      var indexType := IndexType(defaultSize, from.valueType, to.valueType);
      if indexType.None? {
        return None;
      }
      var first := CoerceToTypeRegister(from.valueType, from.value, IntegerType(indexType.value));
      if first.None? {
        return None;
      }
      ghost var ff := CoerceToRegister(f.valueType, f.value, IntegerType(indexType.value), t.next).value;
      EmitTwice(before, f.code + t.code, t.next, ff.code, ff.next);
      var limit := CoerceToTypeRegister(to.valueType, to.value, IntegerType(indexType.value));
      if limit.None? {
        return None;
      }
      ghost var lf := CoerceToRegister(t.valueType, t.value, IntegerType(indexType.value), ff.next).value;
      EmitTwice(before, f.code + t.code + ff.code, ff.next, lf.code, lf.next);
      var pointer := AppendIndex(indexType.value, first.value);
      EmitTwice(before, f.code + t.code + ff.code + lf.code, lf.next,
                [AllocateLocal(IRInteger(indexType.value.size), lf.next), Store(ff.register, lf.next)], lf.next + 1);
      r := Some(LoopRegisters(indexType.value, limit.value, pointer));
    }

    method AppendIndex(indexType: Integer, first: Register) returns (pointer: Register)
      modifies this`instructions, this`nextRegister
      ensures pointer == old(nextRegister)
      ensures State() == Emit(old(State()), [AllocateLocal(IRInteger(indexType.size), pointer), Store(first, pointer)], pointer + 1)
    {
      pointer := AllocateRegister();
      Append(AllocateLocal(IRInteger(indexType.size), pointer));
      Append(Store(first, pointer));
    }

    method GenerateLoopSetup(from: Expression, to: Expression) returns (r: Option<LoopRegisters>)
      modifies this`instructions, this`nextRegister
      ensures SetsUp(Lowering.GenerateLoopSetup(old(State()), from, to), r, State())
    {
      ghost var before := State();
      var first, last := GenerateOperands(BinaryOperation(Addition, from, to), from, to);
      if first.None? || last.None? {
        return None;
      }
      ghost var f := Lowering.GenerateExpression(before.variables, before.nextRegister, from).value;
      ghost var t := Lowering.GenerateExpression(before.variables, f.next, to).value;
      r := SetUpIndex(before, f, t, first.value, last.value);
    }

    // ----- Nested statements -----

    /** The scopes the generator will pull next. */
    ghost predicate Ahead(scopes: seq<ListedScope>)
      reads this
    {
      Listed(childScopes, nextChildScopeIndex, scopes)
    }

    /** Pull the next scope from the list and open it: it is the scope of `statements`. */
    method PushScope(ghost statements: seq<Statement>, breakEnd: Option<Label>, index: seq<Named<Variable>>)
      requires WellScoped(State()) && Ahead(BodyScopes(CurrentScope(State()), statements, nextChildScopeIndex))
      requires |index| <= 1 && forall v :: v in index ==> v.info.pointer < nextRegister && PointerIsNew(State().variables, v.info.pointer)
      modifies this`nextChildScopeIndex, this`variableScopes, this`inBreakableScope, this`breakEndBlock
      ensures childScopes[old(nextChildScopeIndex)] == ListedScope(CurrentScope(State()), statements)
      ensures CurrentScope(State()) == ChildScope(CurrentScope(old(State())), old(nextChildScopeIndex))
      ensures State() == OpenScope(old(State()), if breakEnd.Some? then breakEnd else old(State()).breakTarget, index)
      ensures WellScoped(State()) && Ahead(ChildScopes(CurrentScope(State()), statements, nextChildScopeIndex))
    {
      ghost var before := State();
      BodyScopesSplit(childScopes, nextChildScopeIndex, CurrentScope(before), statements);
      var bodyScope := childScopes[nextChildScopeIndex].scope;
      nextChildScopeIndex := nextChildScopeIndex + 1;
      variableScopes := variableScopes + [VariableScope(bodyScope, index)];
      if breakEnd.Some? {
        inBreakableScope, breakEndBlock := true, breakEnd.value;
      }
      assert VariablesOf(variableScopes) == before.variables + [index];
      assert ConstantScopesOf(variableScopes) == before.constantScopes + [bodyScope];
      OpenScopeWellScoped(before, if breakEnd.Some? then breakEnd else before.breakTarget, index);
    }

    /** Back to the scopes and the break target from before. */
    method PopScope(oldInBreakableScope: bool, oldBreakEndBlock: Label, ghost outer: Context)
      requires variableScopes != [] && outer.breakTarget == if oldInBreakableScope then Some(oldBreakEndBlock) else None
      requires State().variables[..|variableScopes| - 1] == outer.variables
      requires State().constantScopes[..|variableScopes| - 1] == outer.constantScopes
      modifies this`variableScopes, this`inBreakableScope, this`breakEndBlock
      ensures State() == CloseScope(old(State()), outer)
    {
      inBreakableScope, breakEndBlock := oldInBreakableScope, oldBreakEndBlock;
      variableScopes := variableScopes[..|variableScopes| - 1];
      assert VariablesOf(variableScopes) == outer.variables;
      assert ConstantScopesOf(variableScopes) == outer.constantScopes;
    }

    /** A nested list in a scope of its own. */
    method GenerateBody(statements: seq<Statement>, breakEnd: Option<Label>, index: seq<Named<Variable>>) returns (ok: bool)
      requires WellScoped(State()) && Lowering.NeedsFinisher(State()) && Ahead(BodyScopes(CurrentScope(State()), statements, nextChildScopeIndex))
      requires |index| <= 1 && forall v :: v in index ==> v.info.pointer < nextRegister && PointerIsNew(State().variables, v.info.pointer)
      modifies this
      ensures childScopes == old(childScopes)
      ensures Does(Lowering.GenerateBody(old(State()), statements, if breakEnd.Some? then breakEnd else old(State()).breakTarget, index), ok, State())
      decreases statements, 1
    {
      ghost var before := State();
      var oldInBreakableScope, oldBreakEndBlock := inBreakableScope, breakEndBlock;
      PushScope(statements, breakEnd, index);
      ghost var open := State();
      ok := GenerateRuntimeStatements(statements);
      if !ok {
        return false;
      }
      StatementsKeep(open, statements, false);
      PopScope(oldInBreakableScope, oldBreakEndBlock, before);
    }

    /** One statement that runs, and what is left for the rest of its list. */
    method GenerateNext(s: Statement, ghost rest: seq<Statement>) returns (ok: bool)
      requires WellScoped(State()) && Lowering.NeedsFinisher(State()) && Ahead(ChildScopes(CurrentScope(State()), [s] + rest, nextChildScopeIndex)) && !s.Declaration?
      modifies this
      ensures childScopes == old(childScopes)
      ensures if ok then GenerateStatements(State(), rest, Leaves(s)) == GenerateStatements(old(State()), [s] + rest, false)
              else GenerateStatements(old(State()), [s] + rest, false).None?
      ensures ok ==> WellScoped(State()) && CurrentScope(State()) == CurrentScope(old(State())) && Lowering.NeedsFinisher(State()) == !Leaves(s)
      ensures ok ==> Ahead(ChildScopes(CurrentScope(State()), rest, nextChildScopeIndex))
      decreases s, 2
    {
      ghost var c := State();
      FirstStatement(c, s, rest);
      ChildScopesSplit(childScopes, nextChildScopeIndex, CurrentScope(c), s, rest);
      ok := GenerateRuntimeStatement(s);
      if ok {
        StatementKeeps(c, s);
        StatementConsumes(c, s);
        AfterStatement(childScopes, c, State(), s, rest);
      }
    }

    /** The statements of a list in order. The open block needs a terminator whenever one starts. */
    method GenerateRuntimeStatements(statements: seq<Statement>) returns (ok: bool)
      requires WellScoped(State()) && Lowering.NeedsFinisher(State()) && Ahead(ChildScopes(CurrentScope(State()), statements, nextChildScopeIndex))
      modifies this
      ensures childScopes == old(childScopes)
      ensures Does(GenerateStatements(old(State()), statements, false), ok, State())
      ensures ok ==> nextChildScopeIndex == old(nextChildScopeIndex) + |ChildScopes(CurrentScope(old(State())), statements, old(nextChildScopeIndex))|
      decreases statements, 0
    {
      ghost var before := State();
      ghost var c, whole := before, GenerateStatements(before, statements, false);
      var unreachable := false;
      var i := 0;
      assert statements[0..] == statements;
      while i < |statements|
        invariant 0 <= i <= |statements| && childScopes == old(childScopes) && c == State()
        invariant GenerateStatements(c, statements[i..], unreachable) == whole
        invariant Lowering.NeedsFinisher(c) == !unreachable
        invariant WellScoped(c) && Ahead(ChildScopes(CurrentScope(c), statements[i..], nextChildScopeIndex))
      {
        var s := statements[i];
        assert statements[i..] == [s] + statements[i + 1..];
        if s.Declaration? {
          assert ([s] + statements[i + 1..])[1..] == statements[i + 1..];
          ChildScopesSplit(childScopes, nextChildScopeIndex, CurrentScope(c), s, statements[i + 1..]);
        } else {
          if unreachable {
            return false;
          }
          ok := GenerateNext(s, statements[i + 1..]);
          if !ok {
            return false;
          }
          c := State();
          unreachable := s.ReturnStatement? || s.BreakStatement?;
        }
        i := i + 1;
      }
      assert statements[i..] == [];
      ok := true;
      StatementsConsume(before, statements, false);
    }

    method GenerateRuntimeStatement(s: Statement) returns (ok: bool)
      requires WellScoped(State()) && Lowering.NeedsFinisher(State()) && Ahead(StatementScopes(CurrentScope(State()), s, nextChildScopeIndex)) && !s.Declaration?
      modifies this
      ensures childScopes == old(childScopes)
      ensures Does(GenerateStatement(old(State()), s), ok, State())
      decreases s, 1
    {
      match s
      case ExpressionStatement(e) =>
        var value := GenerateExpression(e);
        ok := value.Some?;
      case VariableDeclaration(_, _, _) => ok := GenerateVariableDeclaration(s);
      case Assignment(target, value) => ok := GenerateStore(target, value);
      case BinaryOperationAssignment(target, operator, value) => ok := GenerateStore(target, BinaryOperation(operator, target, value));
      case IfStatement(_, _) => ok := GenerateIf(s);
      case WhileLoop(condition, statements) => ok := GenerateWhile(condition, statements);
      case ForLoop(_, _, _, _) => ok := GenerateFor(s);
      case ReturnStatement(values) => ok := GenerateReturn(values);
      case BreakStatement =>
        if !inBreakableScope {
          return false;
        }
        Append(Jump(breakEndBlock));
        ok := true;
      case Declaration =>
    }

    method EnterArm(condition: Expression, next: Label) returns (ok: bool)
      requires WellScoped(State())
      modifies this`instructions, this`nextRegister, this`nextBlock, this`blocks, this`currentBlock
      ensures Does(Lowering.EnterArm(old(State()), condition, next), ok, State())
    {
      var body := NewBlock();
      ok := GenerateCondition(condition, body, next);
      if !ok {
        return false;
      }
      ChangeBlock(body);
    }

    method GenerateArm(arm: Arm, next: Label, end: Label) returns (ok: bool)
      requires WellScoped(State()) && Ahead(BodyScopes(CurrentScope(State()), arm.statements, nextChildScopeIndex))
      modifies this
      ensures childScopes == old(childScopes)
      ensures Does(Lowering.GenerateArm(old(State()), arm, next, end), ok, State())
      decreases arm, 0
    {
      ghost var before := State();
      ok := EnterArm(arm.condition, next);
      if !ok {
        return false;
      }
      EnterArmKeeps(before, arm.condition, next);
      ok := GenerateBody(arm.statements, None, []);
      if !ok {
        return false;
      }
      Finish(end, next);
    }

    /** A false condition goes to a new block, or from the last arm of an if without else to its end. */
    method ArmTarget(isLast: bool, end: Label) returns (next: Label)
      modifies this`nextBlock
      ensures (State(), next) == ArmStart(old(State()), isLast, end)
    {
      next := end;
      if !isLast {
        next := NewBlock();
      }
    }

    /** One arm, leaving the scopes of the arms after it ahead. */
    method GenerateScopedArm(arm: Arm, ghost rest: seq<Arm>, next: Label, end: Label) returns (ok: bool)
      requires WellScoped(State()) && Ahead(ArmScopes(CurrentScope(State()), [arm] + rest, nextChildScopeIndex))
      modifies this
      ensures childScopes == old(childScopes)
      ensures Does(Lowering.GenerateArm(old(State()), arm, next, end), ok, State())
      ensures ok ==> WellScoped(State()) && CurrentScope(State()) == CurrentScope(old(State())) && Ahead(ArmScopes(CurrentScope(State()), rest, nextChildScopeIndex))
      decreases arm, 1
    {
      ghost var before := State();
      ArmScopesSplit(childScopes, nextChildScopeIndex, CurrentScope(before), arm, rest);
      ok := GenerateArm(arm, next, end);
      if ok {
        AfterArm(childScopes, before, arm, rest, next, end);
      }
    }

    /** The first of some arms, with the block its false condition goes to. */
    method GenerateNextArm(arm: Arm, ghost rest: seq<Arm>, ghost hasElse: bool, isLast: bool, end: Label) returns (ok: bool)
      requires WellScoped(State()) && Ahead(ArmScopes(CurrentScope(State()), [arm] + rest, nextChildScopeIndex))
      requires isLast == (rest == [] && !hasElse)
      modifies this
      ensures childScopes == old(childScopes)
      ensures Lowering.GenerateArms(old(State()), [arm] + rest, hasElse, end) == if ok then Lowering.GenerateArms(State(), rest, hasElse, end) else None
      ensures ok ==> WellScoped(State()) && Ahead(ArmScopes(CurrentScope(State()), rest, nextChildScopeIndex))
      decreases arm, 2
    {
      FirstArm(State(), arm, rest, hasElse, end);
      var next := ArmTarget(isLast, end);
      ok := GenerateScopedArm(arm, rest, next, end);
    }

    method GenerateArms(arms: seq<Arm>, hasElse: bool, end: Label) returns (ok: bool)
      requires WellScoped(State()) && Ahead(ArmScopes(CurrentScope(State()), arms, nextChildScopeIndex))
      modifies this
      ensures childScopes == old(childScopes)
      ensures Does(Lowering.GenerateArms(old(State()), arms, hasElse, end), ok, State())
      decreases arms
    {
      ghost var c, whole := State(), Lowering.GenerateArms(State(), arms, hasElse, end);
      var i := 0;
      assert arms[0..] == arms;
      while i < |arms|
        invariant 0 <= i <= |arms| && childScopes == old(childScopes) && c == State()
        invariant Lowering.GenerateArms(c, arms[i..], hasElse, end) == whole
        invariant WellScoped(c) && Ahead(ArmScopes(CurrentScope(c), arms[i..], nextChildScopeIndex))
      {
        assert arms[i..] == [arms[i]] + arms[i + 1..];
        ok := GenerateNextArm(arms[i], arms[i + 1..], hasElse, i == |arms| - 1 && !hasElse, end);
        if !ok {
          return false;
        }
        c := State();
        i := i + 1;
      }
      assert arms[i..] == [];
      ok := true;
    }

    method GenerateIf(s: Statement) returns (ok: bool)
      requires s.IfStatement? && WellScoped(State()) && Ahead(StatementScopes(CurrentScope(State()), s, nextChildScopeIndex))
      modifies this
      ensures childScopes == old(childScopes)
      ensures Does(Lowering.GenerateIf(old(State()), s), ok, State())
      decreases s, 0
    {
      if |s.arms| == 0 {
        return false;
      }
      IfScopesSplit(childScopes, nextChildScopeIndex, CurrentScope(State()), s.arms, s.elseStatements);
      var end := NewBlock();
      ghost var c := State();
      ok := GenerateArms(s.arms, |s.elseStatements| != 0, end);
      if ok && |s.elseStatements| != 0 {
        ArmsConsume(c, s.arms, true, end);
        ok := GenerateElse(c, s.arms, s.elseStatements, end);
      }
    }

    method GenerateElse(ghost c: Context, ghost arms: seq<Arm>, statements: seq<Statement>, end: Label) returns (ok: bool)
      requires arms != [] && WellScoped(c) && Lowering.GenerateArms(c, arms, true, end) == Some(State())
      requires Ahead(BodyScopes(CurrentScope(c), statements, nextChildScopeIndex))
      modifies this
      ensures childScopes == old(childScopes)
      ensures var ended := Lowering.GenerateBody(old(State()), statements, c.breakTarget, []);
              ok == ended.Some? && (ok ==> State() == Lowering.Finish(ended.value, end, end))
      decreases statements, 2
    {
      ArmsKeep(c, arms, true, end);
      ArmsEndOpen(c, arms, true, end);
      ok := GenerateBody(statements, None, []);
      if ok {
        Finish(end, end);
      }
    }

    /** Labels for a loop's end and body, and a block for its head. */
    method EnterHead() returns (head: Label, body: Label, end: Label)
      modifies this`instructions, this`nextBlock, this`blocks, this`currentBlock
      ensures var c := old(State());
              State() == HeadOf(c) && end == c.nextLabel && body == c.nextLabel + 1 && head == currentBlock
    {
      end := NewBlock();
      body := NewBlock();
      EnterNewBlock();
      head := currentBlock;
    }

    method EnterWhile(condition: Expression) returns (ok: bool, head: Label, end: Label)
      requires WellScoped(State())
      modifies this`instructions, this`nextRegister, this`nextBlock, this`blocks, this`currentBlock
      ensures Lowering.EnterWhile(old(State()), condition) == if ok then Some(Entry(State(), head, end)) else None
    {
      var body;
      head, body, end := EnterHead();
      ok := GenerateCondition(condition, body, end);
      if ok {
        ChangeBlock(body);
      }
    }

    method GenerateWhile(condition: Expression, statements: seq<Statement>) returns (ok: bool)
      requires WellScoped(State()) && Ahead(BodyScopes(CurrentScope(State()), statements, nextChildScopeIndex))
      modifies this
      ensures childScopes == old(childScopes)
      ensures Does(Lowering.GenerateWhile(old(State()), condition, statements), ok, State())
      decreases statements, 2
    {
      ghost var before := State();
      var head, end;
      ok, head, end := EnterWhile(condition);
      if ok {
        EnterWhileKeeps(before, condition);
        AfterEntry(before, condition, statements, Entry(State(), head, end));
        ok := GenerateBody(statements, Some(end), []);
      }
      if ok {
        Finish(head, end);
      }
    }

    method EnterFor(ghost loop: Loop, registers: LoopRegisters) returns (head: Label, end: Label, index: Register)
      requires loop == Loop(State(), registers.indexType, registers.limit, registers.pointer)
      modifies this`instructions, this`nextRegister, this`nextBlock, this`blocks, this`currentBlock
      ensures Lowering.EnterFor(loop) == Entry(State(), head, end) && index == loop.context.nextRegister
    {
      var body;
      head, body, end := EnterHead();
      index := AppendTest(loop, registers, body, end);
      ChangeBlock(body);
    }

    method AppendTest(ghost loop: Loop, registers: LoopRegisters, body: Label, end: Label) returns (index: Register)
      requires registers == LoopRegisters(loop.indexType, loop.limit, loop.pointer)
      modifies this`instructions, this`nextRegister
      ensures State() == LoopHead(old(State()), loop, body, end) && index == old(nextRegister) && !Lowering.NeedsFinisher(State())
    {
      index := AllocateRegister();
      Append(Load(registers.pointer, IRInteger(registers.indexType.size), index));
      var comparison := if registers.indexType.isSigned then SignedGreaterThan else UnsignedGreaterThan;
      var condition := AllocateRegister();
      Append(IntegerComparison(comparison, index, registers.limit, condition));
      Append(Branch(condition, end, body));
    }

    method AppendIncrement(ghost loop: Loop, registers: LoopRegisters, index: Register)
      requires registers == LoopRegisters(loop.indexType, loop.limit, loop.pointer)
      modifies this`instructions, this`nextRegister
      ensures State() == LoopTail(old(State()), loop, index)
    {
      var one := AllocateRegister();
      Append(Literal(IRInteger(registers.indexType.size), IntegerConstant(1), one));
      var next := AllocateRegister();
      Append(IntegerArithmetic(Add, index, one, next));
      Append(Store(next, registers.pointer));
    }

    method GenerateFor(s: Statement) returns (ok: bool)
      requires s.ForLoop? && WellScoped(State()) && Ahead(StatementScopes(CurrentScope(State()), s, nextChildScopeIndex))
      modifies this
      ensures childScopes == old(childScopes)
      ensures Does(Lowering.GenerateFor(old(State()), s), ok, State())
      decreases s, 0
    {
      ghost var before := State();
      var registers := GenerateLoopSetup(s.from, s.to);
      if registers.None? {
        return false;
      }
      ghost var loop := Lowering.GenerateLoopSetup(before, s.from, s.to).value;
      LoopSetupKeeps(before, s.from, s.to);
      ok := GenerateLoop(loop, registers.value, s.statements, IndexName(s.indexName));
    }

    /** A loop that has been set up: the test, the body, the increment and the way back to the head. */
    method GenerateLoop(ghost loop: Loop, registers: LoopRegisters, statements: seq<Statement>, name: string) returns (ok: bool)
      requires loop == Loop(State(), registers.indexType, registers.limit, registers.pointer) && WellScoped(State())
      requires Ahead(BodyScopes(CurrentScope(State()), statements, nextChildScopeIndex))
      requires registers.pointer < nextRegister && PointersBelow(State().variables, registers.pointer)
      modifies this
      ensures childScopes == old(childScopes)
      ensures var entry := Lowering.EnterFor(loop);
              var ended := Lowering.GenerateBody(entry.inside, statements, Some(entry.end),
                             [Named(name, Variable(IntegerType(loop.indexType), loop.pointer))]);
              ok == ended.Some? &&
              (ok ==> State() == Lowering.Finish(LoopTail(ended.value, loop, loop.context.nextRegister), entry.head, entry.end))
      decreases statements, 2
    {
      EnterForKeeps(loop);
      var head, end, index := EnterFor(loop, registers);
      ok := GenerateBody(statements, Some(end), [Named(name, Variable(IntegerType(registers.indexType), registers.pointer))]);
      if ok {
        AppendIncrement(loop, registers, index);
        Finish(head, end);
      }
    }

    /** The last block, to which a return is added if the function has no return values and none at its end. */
    method FinishFunction(f: Function, ghost defaultSize: RegisterSize) returns (r: Option<seq<Block>>)
      requires HasRuntimeSignature(f) && GenerateStatements(StartContext(f, defaultSize), f.statements, false) == Some(State())
      modifies this`instructions
      ensures r == GenerateFunction(f, defaultSize)
    {
      var hasReturnAtEnd := |f.statements| > 0 && f.statements[|f.statements| - 1].ReturnStatement?;
      if !hasReturnAtEnd {
        if |f.returnTypes| > 0 {
          return None;
        }
        Append(Return(None));
      }
      r := Some(blocks + [Block(currentBlock, instructions)]);
    }
  }

  /** The context in which the statements of a function are generated, with all its child scopes ahead. */
  method StartFunction(f: Function, defaultSize: RegisterSize) returns (context: GenerationContext)
    requires HasRuntimeSignature(f)
    ensures fresh(context) && context.State() == StartContext(f, defaultSize)
    ensures WellScoped(context.State()) && Lowering.NeedsFinisher(context.State()) && CurrentScope(context.State()) == FunctionScope
    ensures context.nextChildScopeIndex == 0 && context.childScopes == ChildScopes(FunctionScope, f.statements, 0)
  {
    var scope := FunctionScope;
    var list := new ScopeList();
    list.ProcessScope(scope, f.statements);
    context := new GenerationContext(f, defaultSize, scope, list.scopes);
    context.GenerateParameters(f.parameters);
    ParametersKeep(InitialContext(f, defaultSize), f.parameters, 0);
    ParametersStayOpen(InitialContext(f, defaultSize), f.parameters, 0);
  }

  /** A whole function: it compiles exactly if it is well-typed, the blocks are those of the specification,
      no change of block or start of a statement finds the open block in the wrong state, and of the list of
      child scopes, each of which was pulled for the body it belongs to, nothing is left. */
  method DoGenerateFunction(f: Function, defaultSize: RegisterSize) returns (blocks: Option<seq<Block>>, listed: seq<ListedScope>, pulled: nat)
    ensures blocks == GenerateFunction(f, defaultSize)
    ensures blocks.Some? <==> Typing.WellTypedFunction(f, defaultSize)
    ensures blocks.Some? ==> listed == ChildScopes(FunctionScope, f.statements, 0) && pulled == |listed|
    ensures NumberedFrom(listed, 0)
  {
    StatementTyping.FunctionTyped(f, defaultSize);
    blocks, listed, pulled := None, [], 0;
    if HasRuntimeSignature(f) {
      ScopesAreNumbered(FunctionScope, f.statements, 0);
      var context := StartFunction(f, defaultSize);
      var ok := context.GenerateRuntimeStatements(f.statements);
      listed, pulled := context.childScopes, context.nextChildScopeIndex;
      if ok {
        blocks := context.FinishFunction(f, defaultSize);
      }
    }
  }
}
