/** Types, expressions and statements of the source language (integer and boolean part). */
module Ast {
  import opened Integers
  import opened Options

  datatype Type = BooleanType | IntegerType(integer: Integer) | UndeterminedInteger

  /** A 64-bit host word, as the lexer and the constant evaluator hold integers. */
  type Word = n: nat | n < MODULUS_64

  datatype BinaryOperator =
    | Addition | Subtraction | Multiplication | Division | Modulo
    | Equal | NotEqual | LessThan | GreaterThan
    | BitwiseAnd | BitwiseOr | LeftShift | RightShift
    | BooleanAnd | BooleanOr

  datatype Expression =
    | IntegerLiteral(word: Word)
    | BooleanLiteral(boolean: bool)
    | NamedReference(name: string)
    | BinaryOperation(operator: BinaryOperator, left: Expression, right: Expression)
    | Negation(operand: Expression)
    | BooleanInvert(operand: Expression)
    | Cast(operand: Expression, target: Type)

  datatype Arm = Arm(condition: Expression, statements: seq<Statement>)

  datatype Statement =
    | ExpressionStatement(expression: Expression)
    | VariableDeclaration(name: string, declaredType: Option<Type>, initializer: Option<Expression>)
    | Assignment(target: Expression, value: Expression)
    | BinaryOperationAssignment(target: Expression, operator: BinaryOperator, value: Expression)
      /** `arms[0]` is the if, the others are the else-ifs; no else statements means no else. */
    | IfStatement(arms: seq<Arm>, elseStatements: seq<Statement>)
    | WhileLoop(condition: Expression, statements: seq<Statement>)
    | ForLoop(indexName: Option<string>, from: Expression, to: Expression, statements: seq<Statement>)
    | ReturnStatement(values: seq<Expression>)
    | BreakStatement
      /** A function, constant, struct, union or enum definition or a static if: nothing to run. */
    | Declaration

  datatype Parameter = Parameter(name: string, parameterType: Type)

  /** `returnTypes` holds at most one type in this model. */
  datatype Function = Function(parameters: seq<Parameter>, returnTypes: seq<Type>, statements: seq<Statement>)

  /** Constant scopes below that of the function are numbered in the order in which they are listed, so
      that equal bodies have different scopes. */
  datatype ConstantScope = FunctionScope | ChildScope(parent: ConstantScope, number: nat)

  // ----- Scope stacks: the last scope is the innermost -----

  datatype Named<T> = Named(name: string, info: T)

  type Stack<T> = seq<seq<Named<T>>>

  function FindInScope<T>(scope: seq<Named<T>>, name: string): (index: Option<nat>)
    ensures index.Some? ==> index.value < |scope| && scope[index.value].name == name
  {
    if scope == [] then None
    else if scope[0].name == name then Some(0)
    else match FindInScope(scope[1..], name) { case None => None case Some(i) => Some(i + 1) }
  }

  datatype Position = Position(scope: nat, index: nat)

  predicate Within<T>(stack: Stack<T>, p: Position) {
    p.scope < |stack| && p.index < |stack[p.scope]|
  }

  function Find<T>(stack: Stack<T>, name: string): (position: Option<Position>)
    ensures position.Some? ==> Within(stack, position.value)
    ensures position.Some? ==> stack[position.value.scope][position.value.index].name == name
  {
    if stack == [] then None else
    var last := |stack| - 1;
    match FindInScope(stack[last], name)
    case Some(i) => Some(Position(last, i))
    case None => Find(stack[..last], name)
  }

  /** The first of a name in its scope. */
  predicate IsFirst<T>(scope: seq<Named<T>>, name: string, index: nat) {
    index < |scope| && scope[index].name == name && forall i :: 0 <= i < index ==> scope[i].name != name
  }

  lemma {:induction false} FindInScopeIsFirst<T>(scope: seq<Named<T>>, name: string)
    ensures match FindInScope(scope, name)
            case Some(i) => IsFirst(scope, name, i)
            case None => forall i :: 0 <= i < |scope| ==> scope[i].name != name
  {
    if scope != [] {
      FindInScopeIsFirst(scope[1..], name);
      assert forall i :: 0 < i < |scope| ==> scope[i] == scope[1..][i - 1];
    }
  }

  /** Is there no variable of this name in the scopes from `from` on? */
  predicate IsAbsent<T>(stack: Stack<T>, name: string, from: nat) {
    forall f :: from <= f < |stack| ==> forall i :: 0 <= i < |stack[f]| ==> stack[f][i].name != name
  }

  /** A name means the first variable of that name in the innermost scope that has one. */
  lemma {:induction false} FindIsInnermost<T>(stack: Stack<T>, name: string)
    ensures match Find(stack, name)
            case Some(p) => IsFirst(stack[p.scope], name, p.index) && IsAbsent(stack, name, p.scope + 1)
            case None => IsAbsent(stack, name, 0)
  {
    if stack != [] {
      var last := |stack| - 1;
      FindInScopeIsFirst(stack[last], name);
      FindIsInnermost(stack[..last], name);
    }
  }

  function Declare<T>(stack: Stack<T>, variable: Named<T>): Stack<T>
    requires stack != []
  {
    stack[..|stack| - 1] + [stack[|stack| - 1] + [variable]]
  }

  function IndexName(indexName: Option<string>): string {
    if indexName.Some? then indexName.value else "it"
  }

  predicate SameNames<S, T>(a: Stack<S>, b: Stack<T>) {
    |a| == |b| &&
    forall f :: 0 <= f < |a| ==> |a[f]| == |b[f]| && forall i :: 0 <= i < |a[f]| ==> a[f][i].name == b[f][i].name
  }

  lemma {:induction false} FindInScopeSameNames<S, T>(a: seq<Named<S>>, b: seq<Named<T>>, name: string)
    requires |a| == |b| && forall i :: 0 <= i < |a| ==> a[i].name == b[i].name
    ensures FindInScope(a, name) == FindInScope(b, name)
  {
    if a != [] {
      FindInScopeSameNames(a[1..], b[1..], name);
    }
  }

  lemma {:induction false} FindSameNames<S, T>(a: Stack<S>, b: Stack<T>, name: string)
    requires SameNames(a, b)
    ensures Find(a, name) == Find(b, name)
  {
    if a != [] {
      var last := |a| - 1;
      FindInScopeSameNames(a[last], b[last], name);
      FindSameNames(a[..last], b[..last], name);
    }
  }
}
