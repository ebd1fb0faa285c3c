/** Exactly the well-typed statements and functions compile. */
module StatementTyping {
  import opened Integers
  import opened Options
  import opened Ast
  import opened Hlir
  import opened Source
  import opened FoldedSource
  import opened Lowering
  import opened Typing
  import opened TypingProofs

  /** What the rules see of a context. */
  function EnvironmentOf(c: Context): Environment {
    Environment(c.returnTypes, c.defaultSize, c.breakTarget.Some?, TypesOf(c.variables))
  }

  predicate SameSetting(c: Context, c': Context) {
    c'.returnTypes == c.returnTypes && c'.defaultSize == c.defaultSize && c'.breakTarget == c.breakTarget && c'.variables == c.variables
  }

  /** Is a context reached exactly if `typed` holds, with the setting of `c`? */
  ghost predicate ReachedIf(c: Context, r: Option<Context>, typed: bool) {
    (r.Some? <==> typed) && (r.Some? ==> SameSetting(c, r.value))
  }

  // ----- Values -----

  lemma HasItsType(variables: Stack<Variable>, next: Register, e: Expression)
    requires AllRuntime(variables)
    ensures var g := GenerateExpression(variables, next, e);
            TypeOf(TypesOf(variables), e) == if g.Some? then Some(g.value.valueType) else None
  {
    ExpressionTyped(variables, next, e);
  }

  /** A value is generated and forced into a register of a type exactly if it can be had at that type. */
  lemma ValueTyped(variables: Stack<Variable>, next: Register, e: Expression, target: Type, at: Register)
    requires AllRuntime(variables)
    ensures var g := GenerateExpression(variables, next, e);
            HasValueAt(TypesOf(variables), e, target) <==>
              g.Some? && CoerceToRegister(g.value.valueType, g.value.value, target, at).Some?
  {
    ExpressionTyped(variables, next, e);
    var g := GenerateExpression(variables, next, e);
    if g.Some? {
      CoercionTyped(e, g.value, target, at);
    }
  }

  // ----- Simple statements -----

  lemma FoundUnlessFree(scope: seq<Named<Variable>>, name: string)
    ensures FindInScope(scope, name).None? <==> IsFree(TypesIn(scope), name)
  {
    FindInScopeIsFirst(scope, name);
  }

  lemma TypesOfDeclared(variables: Stack<Variable>, variable: Named<Variable>)
    requires variables != [] && AllRuntime(variables) && IsRuntimeType(variable.info.variableType)
    ensures TypesOf(Declare(variables, variable)) == Declare(TypesOf(variables), Named(variable.name, variable.info.variableType))
    ensures AllRuntime(Declare(variables, variable))
  {
    var last := variables[|variables| - 1];
    assert TypesIn(last + [variable]) == TypesIn(last) + [Named(variable.name, variable.info.variableType)];
  }

  /** A local is declared exactly if its type is one of values, its value fits and its name is free. */
  lemma LocalTyped(c: Context, name: string, t: Type, g: Generated)
    requires AllRuntime(c.variables)
    ensures var r := GenerateLocal(c, name, t, g);
            (r.Some? <==>
               CoerceToRegister(g.valueType, g.value, t, g.next + 1).Some? && c.variables != [] &&
               IsFree(TypesIn(c.variables[|c.variables| - 1]), name)) &&
            (r.Some? ==>
               AllRuntime(r.value.variables) &&
               EnvironmentOf(r.value) == EnvironmentOf(c).(names := Declare(TypesOf(c.variables), Named(name, t))))
  {
    if c.variables != [] {
      FoundUnlessFree(c.variables[|c.variables| - 1], name);
      if IsRuntimeType(t) {
        TypesOfDeclared(c.variables, Named(name, Variable(t, g.next)));
      }
    }
  }

  lemma VariableTyped(env: Environment, declared: Option<Type>, e: Expression, t: Type)
    requires TypeOf(env.names, e) == Some(t)
    ensures VariableType(env, declared, e) == Some(if declared.Some? then declared.value else DefaultType(env.defaultSize, t))
  {
  }

  /** What the rules say of a variable declaration whose variable has type `t`. */
  lemma DeclarationRule(env: Environment, s: Statement, t: Type)
    requires s.VariableDeclaration? && s.initializer.Some? && VariableType(env, s.declaredType, s.initializer.value) == Some(t)
    ensures WellTyped(env, s) <==>
              env.names != [] && IsFree(env.names[|env.names| - 1], s.name) && HasValueAt(env.names, s.initializer.value, t)
    ensures env.names != [] ==> After(env, s) == env.(names := Declare(env.names, Named(s.name, t)))
  {
  }

  lemma DeclarationTyped(c: Context, s: Statement)
    requires s.VariableDeclaration? && AllRuntime(c.variables)
    ensures var r := GenerateVariableDeclaration(c, s);
            (r.Some? <==> WellTyped(EnvironmentOf(c), s)) &&
            (r.Some? ==> AllRuntime(r.value.variables) && EnvironmentOf(r.value) == After(EnvironmentOf(c), s))
  {
    if s.initializer.Some? {
      var env, e := EnvironmentOf(c), s.initializer.value;
      var g := GenerateExpression(c.variables, c.nextRegister, e);
      HasItsType(c.variables, c.nextRegister, e);
      if g.Some? {
        var t := if s.declaredType.Some? then s.declaredType.value else DefaultType(c.defaultSize, g.value.valueType);
        VariableTyped(env, s.declaredType, e, g.value.valueType);
        DeclarationRule(env, s, t);
        ValueTyped(c.variables, c.nextRegister, e, t, g.value.next + 1);
        LocalTyped(c, s.name, t, g.value);
        assert GenerateVariableDeclaration(c, s) == GenerateLocal(c, s.name, t, g.value);
      }
    }
  }

  lemma StoreTyped(c: Context, target: Expression, value: Expression)
    requires AllRuntime(c.variables)
    ensures ReachedIf(c, GenerateStore(c, target, value), IsAssignable(EnvironmentOf(c), target, value))
  {
    var t := GenerateExpression(c.variables, c.nextRegister, target);
    HasItsType(c.variables, c.nextRegister, target);
    OnlyVariablesAreAddressed(c.variables, c.nextRegister, target);
    if t.Some? {
      var g := GenerateExpression(c.variables, t.value.next, value);
      ValueTyped(c.variables, t.value.next, value, t.value.valueType, if g.Some? then g.value.next else 0);
    }
  }

  lemma ReturnTyped(c: Context, values: seq<Expression>)
    requires AllRuntime(c.variables)
    ensures ReachedIf(c, GenerateReturn(c, values), WellTyped(EnvironmentOf(c), ReturnStatement(values)))
  {
    if |values| == |c.returnTypes| == 1 {
      var g := GenerateExpression(c.variables, c.nextRegister, values[0]);
      ValueTyped(c.variables, c.nextRegister, values[0], c.returnTypes[0], if g.Some? then g.value.next else 0);
    }
  }

  lemma ConditionTyped(c: Context, condition: Expression, trueTarget: Label, falseTarget: Label)
    requires AllRuntime(c.variables)
    ensures ReachedIf(c, GenerateCondition(c, condition, trueTarget, falseTarget), IsCondition(EnvironmentOf(c), condition))
  {
    HasItsType(c.variables, c.nextRegister, condition);
  }

  // ----- Loops -----

  predicate IsRange(env: Environment, from: Expression, to: Expression) {
    var t := LoopType(env, from, to);
    t.Some? && HasValueAt(env.names, from, IntegerType(t.value)) && HasValueAt(env.names, to, IntegerType(t.value))
  }

  /** A loop is set up exactly if its bounds have values at its type. */
  lemma SetupTyped(c: Context, from: Expression, to: Expression)
    requires AllRuntime(c.variables)
    ensures var r := GenerateLoopSetup(c, from, to);
            (r.Some? <==> IsRange(EnvironmentOf(c), from, to)) &&
            (r.Some? ==> SameSetting(c, r.value.context) && LoopType(EnvironmentOf(c), from, to) == Some(r.value.indexType))
  {
    var f := GenerateExpression(c.variables, c.nextRegister, from);
    HasItsType(c.variables, c.nextRegister, from);
    if f.Some? {
      var t := GenerateExpression(c.variables, f.value.next, to);
      HasItsType(c.variables, f.value.next, to);
      if t.Some? {
        BoundsTyped(c, from, to, f.value, t.value);
      }
    }
  }

  /** A loop from a boolean is refused when its lower bound is forced into a register, if not before. */
  lemma IndexTyped(env: Environment, from: Expression, to: Expression, f: Type, t: Type)
    requires TypeOf(env.names, from) == Some(f) && TypeOf(env.names, to) == Some(t)
    ensures LoopType(env, from, to) == if f.BooleanType? then None else IndexType(env.defaultSize, f, t)
  {
  }

  /** Two values are forced into registers of the loop's type, wherever the second one is. */
  lemma SetUpTyped(c: Context, f: Generated, t: Generated, index: Integer, from: bool, to: bool)
    requires IndexType(c.defaultSize, f.valueType, t.valueType) == Some(index)
    requires forall at :: CoerceToRegister(f.valueType, f.value, IntegerType(index), at).Some? <==> from
    requires forall at :: CoerceToRegister(t.valueType, t.value, IntegerType(index), at).Some? <==> to
    ensures var r := SetUp(c, f, t);
            (r.Some? <==> from && to) && (r.Some? ==> SameSetting(c, r.value.context) && r.value.indexType == index)
  {
  }

  lemma BoundsTyped(c: Context, from: Expression, to: Expression, f: Generated, t: Generated)
    requires AllRuntime(c.variables)
    requires GenerateExpression(c.variables, c.nextRegister, from) == Some(f) && GenerateExpression(c.variables, f.next, to) == Some(t)
    requires TypeOf(TypesOf(c.variables), from) == Some(f.valueType) && TypeOf(TypesOf(c.variables), to) == Some(t.valueType)
    ensures var r := SetUp(c, f, t);
            (r.Some? <==> IsRange(EnvironmentOf(c), from, to)) &&
            (r.Some? ==> SameSetting(c, r.value.context) && LoopType(EnvironmentOf(c), from, to) == Some(r.value.indexType))
  {
    IndexTyped(EnvironmentOf(c), from, to, f.valueType, t.valueType);
    var indexType := IndexType(c.defaultSize, f.valueType, t.valueType);
    if indexType.Some? {
      var target, names := IntegerType(indexType.value), TypesOf(c.variables);
      forall at: Register
        ensures CoerceToRegister(f.valueType, f.value, target, at).Some? <==> HasValueAt(names, from, target)
        ensures CoerceToRegister(t.valueType, t.value, target, at).Some? <==> HasValueAt(names, to, target)
      {
        ValueTyped(c.variables, c.nextRegister, from, target, at);
        ValueTyped(c.variables, f.next, to, target, at);
      }
      SetUpTyped(c, f, t, indexType.value, HasValueAt(names, from, target), HasValueAt(names, to, target));
    }
  }

  // ----- Nested lists -----

  lemma InsideTyped(c: Context, breakTarget: Option<Label>, scope: seq<Named<Variable>>)
    requires AllRuntime(c.variables) && forall v :: v in scope ==> IsRuntimeType(v.info.variableType)
    ensures AllRuntime(OpenScope(c, breakTarget, scope).variables)
    ensures EnvironmentOf(OpenScope(c, breakTarget, scope)) == Inside(EnvironmentOf(c), breakTarget.Some?, TypesIn(scope))
  {
    assert TypesOf(c.variables + [scope]) == TypesOf(c.variables) + [TypesIn(scope)];
  }

  lemma {:induction false} BodyTyped(c: Context, statements: seq<Statement>, breakTarget: Option<Label>, scope: seq<Named<Variable>>)
    requires AllRuntime(c.variables) && forall v :: v in scope ==> IsRuntimeType(v.info.variableType)
    ensures ReachedIf(c, GenerateBody(c, statements, breakTarget, scope),
                      ListTyped(Inside(EnvironmentOf(c), breakTarget.Some?, TypesIn(scope)), statements, false))
    decreases statements, 1
  {
    InsideTyped(c, breakTarget, scope);
    StatementsTyped(OpenScope(c, breakTarget, scope), statements, false);
  }

  predicate ArmIsTyped(env: Environment, arm: Arm) {
    IsCondition(env, arm.condition) && ListTyped(Inside(env, env.inLoop, []), arm.statements, false)
  }

  lemma EntryTyped(c: Context, condition: Expression, next: Label)
    requires AllRuntime(c.variables)
    ensures ReachedIf(c, EnterArm(c, condition, next), IsCondition(EnvironmentOf(c), condition))
  {
    ConditionTyped(c.(nextLabel := c.nextLabel + 1), condition, c.nextLabel, next);
  }

  lemma {:induction false} ArmTyped(c: Context, arm: Arm, next: Label, end: Label)
    requires AllRuntime(c.variables)
    ensures ReachedIf(c, GenerateArm(c, arm, next, end), ArmIsTyped(EnvironmentOf(c), arm))
    decreases arm
  {
    EntryTyped(c, arm.condition, next);
    var inside := EnterArm(c, arm.condition, next);
    if inside.Some? {
      assert TypesIn([]) == [];
      BodyTyped(inside.value, arm.statements, c.breakTarget, []);
    }
  }

  lemma {:induction false} ArmsTyped(c: Context, arms: seq<Arm>, hasElse: bool, end: Label)
    requires AllRuntime(c.variables)
    ensures ReachedIf(c, GenerateArms(c, arms, hasElse, end), forall a :: a in arms ==> ArmIsTyped(EnvironmentOf(c), a))
    decreases arms
  {
    if arms != [] {
      var arm, rest := arms[0], arms[1..];
      assert arms == [arm] + rest;
      var (c0, next) := ArmStart(c, rest == [] && !hasElse, end);
      FirstArm(c, arm, rest, hasElse, end);
      ArmTyped(c0, arm, next, end);
      var after := GenerateArm(c0, arm, next, end);
      assert EnvironmentOf(c0) == EnvironmentOf(c);
      assert (forall a :: a in arms ==> ArmIsTyped(EnvironmentOf(c), a)) <==>
             ArmIsTyped(EnvironmentOf(c), arm) && (forall a :: a in rest ==> ArmIsTyped(EnvironmentOf(c), a));
      if after.Some? {
        assert EnvironmentOf(after.value) == EnvironmentOf(c);
        ArmsTyped(after.value, rest, hasElse, end);
      }
    }
  }

  lemma {:induction false} IfTyped(c: Context, s: Statement)
    requires s.IfStatement? && AllRuntime(c.variables)
    ensures ReachedIf(c, GenerateIf(c, s), WellTyped(EnvironmentOf(c), s))
    decreases s, 0
  {
    var env := EnvironmentOf(c);
    assert WellTyped(env, s) <==>
           s.arms != [] && (forall a :: a in s.arms ==> ArmIsTyped(env, a)) && ListTyped(Inside(env, env.inLoop, []), s.elseStatements, false);
    var end := c.nextLabel;
    ArmsTyped(c.(nextLabel := end + 1), s.arms, s.elseStatements != [], end);
    var c1 := GenerateArms(c.(nextLabel := end + 1), s.arms, s.elseStatements != [], end);
    if c1.Some? {
      assert TypesIn([]) == [];
      BodyTyped(c1.value, s.elseStatements, c.breakTarget, []);
    }
  }

  lemma HeadKeeps(c: Context)
    ensures SameSetting(c, HeadOf(c))
  {
  }

  lemma LoopEntered(c: Context, condition: Expression)
    requires AllRuntime(c.variables)
    ensures var entry := EnterWhile(c, condition);
            (entry.Some? <==> IsCondition(EnvironmentOf(c), condition)) && (entry.Some? ==> SameSetting(c, entry.value.inside))
  {
    HeadKeeps(c);
    ConditionTyped(HeadOf(c), condition, c.nextLabel + 1, c.nextLabel);
  }

  lemma {:induction false} WhileTyped(c: Context, condition: Expression, statements: seq<Statement>)
    requires AllRuntime(c.variables)
    ensures ReachedIf(c, GenerateWhile(c, condition, statements), WellTyped(EnvironmentOf(c), WhileLoop(condition, statements)))
    decreases statements, 2
  {
    var env := EnvironmentOf(c);
    assert WellTyped(env, WhileLoop(condition, statements)) <==> IsCondition(env, condition) && ListTyped(Inside(env, true, []), statements, false);
    LoopEntered(c, condition);
    var entry := EnterWhile(c, condition);
    if entry.Some? {
      AfterEntry(c, condition, statements, entry.value);
      assert TypesIn([]) == [] && EnvironmentOf(entry.value.inside) == env;
      BodyTyped(entry.value.inside, statements, Some(entry.value.end), []);
    }
  }

  lemma ForEntryKeeps(loop: Loop)
    ensures SameSetting(loop.context, EnterFor(loop).inside)
  {
  }

  lemma {:induction false} ForTyped(c: Context, s: Statement)
    requires s.ForLoop? && AllRuntime(c.variables)
    ensures ReachedIf(c, GenerateFor(c, s), WellTyped(EnvironmentOf(c), s))
    decreases s, 0
  {
    SetupTyped(c, s.from, s.to);
    var loop := GenerateLoopSetup(c, s.from, s.to);
    if loop.Some? {
      var entry := EnterFor(loop.value);
      ForEntryKeeps(loop.value);
      var index := IndexVariable(s, loop.value);
      assert TypesIn([index]) == [Named(IndexName(s.indexName), IntegerType(loop.value.indexType))];
      BodyTyped(entry.inside, s.statements, Some(entry.end), [index]);
    }
  }

  /** A statement compiles exactly if it is well-typed, and leaves the environment the rules say. */
  lemma {:induction false} StatementTyped(c: Context, s: Statement)
    requires AllRuntime(c.variables)
    ensures var r := GenerateStatement(c, s);
            (r.Some? <==> WellTyped(EnvironmentOf(c), s)) &&
            (r.Some? ==> AllRuntime(r.value.variables) && EnvironmentOf(r.value) == After(EnvironmentOf(c), s) && r.value.breakTarget == c.breakTarget)
    decreases s, 1
  {
    match s
    case ExpressionStatement(e) => HasItsType(c.variables, c.nextRegister, e);
    case VariableDeclaration(_, _, _) => DeclarationTyped(c, s);
    case Assignment(target, value) => StoreTyped(c, target, value);
    case BinaryOperationAssignment(target, operator, value) => StoreTyped(c, target, BinaryOperation(operator, target, value));
    case IfStatement(_, _) => IfTyped(c, s);
    case WhileLoop(condition, statements) => WhileTyped(c, condition, statements);
    case ForLoop(_, _, _, _) => ForTyped(c, s);
    case ReturnStatement(values) => ReturnTyped(c, values);
    case BreakStatement =>
    case Declaration =>
  }

  /** A statement list compiles exactly if it is well-typed. */
  lemma {:induction false} StatementsTyped(c: Context, statements: seq<Statement>, ended: bool)
    requires AllRuntime(c.variables)
    ensures var r := GenerateStatements(c, statements, ended);
            (r.Some? <==> ListTyped(EnvironmentOf(c), statements, ended)) &&
            (r.Some? ==> r.value.returnTypes == c.returnTypes && r.value.defaultSize == c.defaultSize)
    decreases statements, 0
  {
    if statements != [] {
      if statements[0].Declaration? {
        StatementsTyped(c, statements[1..], ended);
      } else if !ended {
        StatementTyped(c, statements[0]);
        var c1 := GenerateStatement(c, statements[0]);
        if c1.Some? {
          StatementsTyped(c1.value, statements[1..], Leaves(statements[0]));
        }
      }
    }
  }

  // ----- Functions -----

  /** The context after one parameter. */
  function WithParameter(c: Context, p: Parameter, index: Register): Context
    requires IsRuntimeType(p.parameterType)
  {
    var pointer := c.nextRegister;
    var c' := Emit(c, [AllocateLocal(IRTypeOf(p.parameterType), pointer), Store(index, pointer)], pointer + 1);
    var added := AddNewVariable(c', p.name, Variable(p.parameterType, pointer));
    if added.Some? then added.value else c'
  }

  lemma FirstParameter(c: Context, parameters: seq<Parameter>, index: Register)
    requires parameters != [] && forall p :: p in parameters ==> IsRuntimeType(p.parameterType)
    ensures GenerateParameters(c, parameters, index) == GenerateParameters(WithParameter(c, parameters[0], index), parameters[1..], index + 1)
  {
  }

  /** The first parameter of a name can be seen, another one of that name cannot. */
  lemma ParameterTyped(c: Context, p: Parameter, index: Register)
    requires IsRuntimeType(p.parameterType) && |c.variables| == 1 && AllRuntime(c.variables)
    ensures var c', seen := WithParameter(c, p, index), TypesIn(c.variables[0]);
            |c'.variables| == 1 && AllRuntime(c'.variables) &&
            TypesIn(c'.variables[0]) == (if IsFree(seen, p.name) then seen + [Named(p.name, p.parameterType)] else seen) &&
            SameSetting(c, c'.(variables := c.variables))
  {
    FoundUnlessFree(c.variables[0], p.name);
    TypesOfDeclared(c.variables, Named(p.name, Variable(p.parameterType, c.nextRegister)));
  }

  /** Declaring the parameters from `index` on leaves those that can be seen of all. */
  lemma {:induction false} ParametersTyped(c: Context, all: seq<Parameter>, index: nat)
    requires index <= |all| && forall p :: p in all ==> IsRuntimeType(p.parameterType)
    requires |c.variables| == 1 && AllRuntime(c.variables) && TypesIn(c.variables[0]) == SeenParameters(all[..index])
    ensures var c' := GenerateParameters(c, all[index..], index);
            |c'.variables| == 1 && AllRuntime(c'.variables) && TypesIn(c'.variables[0]) == SeenParameters(all) &&
            SameSetting(c, c'.(variables := c.variables))
    decreases |all| - index
  {
    if index == |all| {
      assert all[..index] == all;
    } else {
      assert all[index..][0] == all[index] && all[index..][1..] == all[index + 1..];
      assert all[..index + 1][..index] == all[..index];
      FirstParameter(c, all[index..], index);
      ParameterTyped(c, all[index], index);
      ParametersTyped(WithParameter(c, all[index], index), all, index + 1);
    }
  }

  /** A function compiles exactly if it is well-typed. */
  lemma FunctionTyped(f: Function, defaultSize: RegisterSize)
    ensures GenerateFunction(f, defaultSize).Some? <==> WellTypedFunction(f, defaultSize)
  {
    if HasRuntimeSignature(f) {
      assert TypesIn([]) == [] && f.parameters[0..] == f.parameters && f.parameters[..0] == [];
      var start := GenerateParameters(InitialContext(f, defaultSize), f.parameters, 0);
      ParametersTyped(InitialContext(f, defaultSize), f.parameters, 0);
      assert TypesOf(start.variables) == [SeenParameters(f.parameters)];
      StatementsTyped(start, f.statements, false);
    }
  }
}
