/** Exactly the well-typed functions compile. */
module TypingProofs {
  import opened Integers
  import opened IntegerLaws
  import opened Options
  import opened Ast
  import opened Hlir
  import opened Source
  import opened Folding
  import opened FoldedSource
  import opened Lowering
  import opened Typing

  // ----- Constants -----

  /** Exactly one signed quotient of 64-bit words is out of range. */
  lemma QuotientFits(left: Word, right: Word)
    requires right != 0
    ensures InRange(Integer(Size64, true), TruncatedQuotient(SignedValue(Size64, left), SignedValue(Size64, right)))
       <==> !(left == 0x8000_0000_0000_0000 && right == MODULUS_64 - 1)
  {
    var x, y := SignedValue(Size64, left), SignedValue(Size64, right);
    if left == 0x8000_0000_0000_0000 && right == MODULUS_64 - 1 {
      assert TruncatedQuotient(x, y) == -x;
    } else {
      QuotientInRange(Integer(Size64, true), x, y);
    }
  }

  /** Two words fold exactly if the operation is one on integers and has a result, which is of the type it should be. */
  lemma FoldsExactly(operator: BinaryOperator, t: Type, left: Word, right: Word)
    requires !t.BooleanType?
    ensures var c := FoldIntegers(operator, t.UndeterminedInteger? || t.integer.isSigned, left, right);
            (c.Some? <==> ResultType(operator, t).Some? && HasResult(operator, t, left, right)) &&
            (c.Some? ==> ResultType(operator, t) == Some(if c.value.BooleanConstant? then BooleanType else t))
  {
    if right != 0 {
      QuotientFits(left, right);
    }
  }

  lemma BooleansFoldExactly(operator: BinaryOperator, left: bool, right: bool)
    ensures OperateBooleans(operator, left, right).Some? <==> ResultType(operator, BooleanType).Some?
    ensures ResultType(operator, BooleanType).Some? ==> ResultType(operator, BooleanType) == Some(BooleanType)
  {
  }

  lemma CoercionsAgree(t: Integer, word: Word)
    ensures CheckCoercion(t, word) <==> WordFits(t, word)
  {
  }

  /** A constant can be coerced exactly if the expression is usable. */
  lemma ConstantIsUsable(e: Expression, target: Type)
    requires Fold(e).Some?
    ensures CoerceConstant(Fold(e).value, target).Some? <==> Usable(e, Fold(e).value.constantType, target)
    ensures CoerceConstant(Fold(e).value, target).Some? ==> CoerceConstant(Fold(e).value, target).value == Fold(e).value.constant
  {
    FoldIsWellKinded(e);
  }

  /** The meeting of two types, and what can be used there. */
  lemma TypesMeet(left: Expression, a: Type, right: Expression, b: Type)
    ensures var t := BinaryType(a, b);
            Usable(left, a, t) && Usable(right, b, t) <==> CommonType(a, b) == Some(t) && Usable(left, a, t) && Usable(right, b, t)
    ensures CommonType(a, b).Some? ==> CommonType(a, b).value == BinaryType(a, b)
  {
  }

  /** The folded operands can be coerced to their common type exactly if the operands are usable there. */
  lemma ConstantsMeet(left: Expression, right: Expression)
    requires Fold(left).Some? && Fold(right).Some?
    ensures var l, r := Fold(left).value, Fold(right).value;
            var t := BinaryType(l.constantType, r.constantType);
            CoerceConstant(l, t).Some? && CoerceConstant(r, t).Some? <==>
              CommonType(l.constantType, r.constantType) == Some(t) && Usable(left, l.constantType, t) && Usable(right, r.constantType, t)
  {
    var l, r := Fold(left).value, Fold(right).value;
    TypesMeet(left, l.constantType, right, r.constantType);
    ConstantIsUsable(left, BinaryType(l.constantType, r.constantType));
    ConstantIsUsable(right, BinaryType(l.constantType, r.constantType));
  }

  /** The fold of two well-kinded constants that can be coerced to their common type. */
  lemma MeetingConstantsFold(operator: BinaryOperator, l: TypedConstant, r: TypedConstant)
    requires WellKinded(l) && WellKinded(r)
    requires CoerceConstant(l, BinaryType(l.constantType, r.constantType)) == Some(l.constant)
    requires CoerceConstant(r, BinaryType(l.constantType, r.constantType)) == Some(r.constant)
    ensures var c, t := FoldBinary(operator, l, r), BinaryType(l.constantType, r.constantType);
            (t.BooleanType? <==> l.constant.BooleanConstant?) && (t.BooleanType? <==> r.constant.BooleanConstant?) &&
            (c.Some? <==> ResultType(operator, t).Some? && (t.BooleanType? || HasResult(operator, t, l.constant.integer, r.constant.integer))) &&
            (c.Some? ==> ResultType(operator, t) == Some(c.value.constantType))
  {
    var t := BinaryType(l.constantType, r.constantType);
    if t.BooleanType? {
      BooleansFoldExactly(operator, l.constant.boolean, r.constant.boolean);
    } else {
      FoldsExactly(operator, t, l.constant.integer, r.constant.integer);
    }
  }

  /** The type of an operation on two constants whose operands are usable at their common type. */
  lemma MeetingConstantsTyped(operator: BinaryOperator, left: Expression, right: Expression, t: Type)
    requires IsConstant(left) && IsConstant(right) && Fold(left).Some? && Fold(right).Some?
    requires CommonType(Fold(left).value.constantType, Fold(right).value.constantType) == Some(t)
    requires Usable(left, Fold(left).value.constantType, t) && Usable(right, Fold(right).value.constantType, t)
    requires !t.BooleanType? ==> IsWord(Fold(left).value.constant) && IsWord(Fold(right).value.constant)
    ensures BinaryTypeOf(operator, left, Fold(left).value.constantType, right, Fold(right).value.constantType) ==
              if t.BooleanType? || HasResult(operator, t, Fold(left).value.constant.integer, Fold(right).value.constant.integer)
              then ResultType(operator, t) else None
  {
  }

  lemma ConstantBinaryTyped(operator: BinaryOperator, left: Expression, right: Expression)
    requires IsConstant(left) && IsConstant(right) && Fold(left).Some? && Fold(right).Some?
    ensures var c, t := FoldBinary(operator, Fold(left).value, Fold(right).value),
                        BinaryTypeOf(operator, left, Fold(left).value.constantType, right, Fold(right).value.constantType);
            (c.Some? <==> t.Some?) && (c.Some? ==> t == Some(c.value.constantType))
  {
    var l, r := Fold(left).value, Fold(right).value;
    var t := BinaryType(l.constantType, r.constantType);
    FoldIsWellKinded(left);
    FoldIsWellKinded(right);
    ConstantsMeet(left, right);
    if CoerceConstant(l, t).Some? && CoerceConstant(r, t).Some? {
      MeetingConstantsFold(operator, l, r);
      MeetingConstantsTyped(operator, left, right, t);
    } else {
      TypesMeet(left, l.constantType, right, r.constantType);
    }
  }

  lemma CastTyped(c: TypedConstant, target: Type)
    requires WellKinded(c)
    ensures FoldCast(c, target).Some? <==> Convertible(c.constantType, target)
    ensures FoldCast(c, target).Some? ==> FoldCast(c, target).value.constantType == target
  {
  }

  /** A constant expression folds exactly if it is well-typed, to a constant of its type. */
  lemma {:induction false} ConstantTyped(names: Stack<Type>, e: Expression)
    requires IsConstant(e)
    ensures Fold(e).Some? <==> TypeOf(names, e).Some?
    ensures Fold(e).Some? ==> TypeOf(names, e) == Some(Fold(e).value.constantType)
    decreases e
  {
    match e
    case IntegerLiteral(_) =>
    case BooleanLiteral(_) =>
    case BinaryOperation(operator, left, right) =>
      ConstantTyped(names, left);
      ConstantTyped(names, right);
      if Fold(left).Some? && Fold(right).Some? {
        ConstantBinaryTyped(operator, left, right);
      }
    case Negation(operand) =>
      ConstantTyped(names, operand);
      if Fold(operand).Some? {
        FoldIsWellKinded(operand);
      }
    case BooleanInvert(operand) =>
      ConstantTyped(names, operand);
      if Fold(operand).Some? {
        FoldIsWellKinded(operand);
      }
    case Cast(operand, target) =>
      ConstantTyped(names, operand);
      if Fold(operand).Some? {
        FoldIsWellKinded(operand);
        CastTyped(Fold(operand).value, target);
      }
  }

  /** Only constants are generated as constants, and one that does not fold is refused. */
  lemma {:induction false} ConstantGenerated(variables: Stack<Variable>, next: Register, e: Expression)
    requires IsConstant(e)
    ensures GenerateExpression(variables, next, e) == if Fold(e).Some? then Some(Loaded(next, Fold(e).value)) else None
    decreases e
  {
    if Fold(e).Some? {
      FoldIsGenerated(variables, next, e);
    } else {
      match e
      case BinaryOperation(_, left, right) =>
        ConstantGenerated(variables, next, left);
        ConstantGenerated(variables, next, right);
      case Negation(operand) => ConstantGenerated(variables, next, operand);
      case BooleanInvert(operand) => ConstantGenerated(variables, next, operand);
      case Cast(operand, _) => ConstantGenerated(variables, next, operand);
      case _ =>
    }
  }

  // ----- Expressions -----

  function TypesIn(scope: seq<Named<Variable>>): (types: seq<Named<Type>>)
    ensures |types| == |scope| && forall i :: 0 <= i < |scope| ==> types[i] == Named(scope[i].name, scope[i].info.variableType)
  {
    seq(|scope|, i requires 0 <= i < |scope| => Named(scope[i].name, scope[i].info.variableType))
  }

  /** The types of the variables. */
  function TypesOf(variables: Stack<Variable>): (types: Stack<Type>)
    ensures |types| == |variables| && forall f :: 0 <= f < |variables| ==> types[f] == TypesIn(variables[f])
  {
    seq(|variables|, f requires 0 <= f < |variables| => TypesIn(variables[f]))
  }

  ghost predicate AllRuntime(variables: Stack<Variable>) {
    forall p :: Within(variables, p) ==> IsRuntimeType(variables[p.scope][p.index].info.variableType)
  }

  /** An instruction or two are selected exactly for the operations there are. */
  lemma OperationTyped(operator: BinaryOperator, t: Type, a: Register, b: Register, next: Register)
    requires IsRuntimeType(t)
    ensures var g := if t.BooleanType? then BooleanOperationOf(operator, a, b, next) else IntegerOperation(operator, t.integer, a, b, next);
            (g.Some? <==> ResultType(operator, t).Some?) && (g.Some? ==> ResultType(operator, t) == Some(g.value.valueType) && !g.value.value.ConstantValue?)
  {
  }

  /** A generated operand: what its type is, and that it is a constant only if the expression is. */
  ghost predicate TypedAs(e: Expression, t: Option<Type>, g: Option<Generated>) {
    (g.Some? <==> t.Some?) &&
    (g.Some? ==>
      t == Some(g.value.valueType) && (g.value.value.ConstantValue? <==> IsConstant(e)) &&
      (IsConstant(e) ==> Fold(e) == Some(TypedConstant(g.value.valueType, g.value.value.constant))) &&
      (!IsConstant(e) ==> IsRuntimeType(g.value.valueType)))
  }

  /** A value can be forced into a register of a type exactly if the expression is usable there. */
  lemma CoercionTyped(e: Expression, g: Generated, target: Type, next: Register)
    requires TypedAs(e, Some(g.valueType), Some(g))
    ensures CoerceToRegister(g.valueType, g.value, target, next).Some? <==> !target.UndeterminedInteger? && Usable(e, g.valueType, target)
  {
    if IsConstant(e) {
      FoldIsWellKinded(e);
    } else {
      assert g.valueType.UndeterminedInteger? ==> false;
    }
  }

  lemma CombineTyped(operator: BinaryOperator, left: Expression, l: Generated, right: Expression, r: Generated)
    requires TypedAs(left, Some(l.valueType), Some(l)) && TypedAs(right, Some(r.valueType), Some(r))
    requires !(IsConstant(left) && IsConstant(right))
    ensures TypedAs(BinaryOperation(operator, left, right), BinaryTypeOf(operator, left, l.valueType, right, r.valueType), CombineBinary(operator, l, r))
  {
    var t := BinaryType(l.valueType, r.valueType);
    TypesMeet(left, l.valueType, right, r.valueType);
    CoercionTyped(left, l, t, r.next);
    var a := CoerceToRegister(l.valueType, l.value, t, r.next);
    if a.Some? {
      CoercionTyped(right, r, t, a.value.next);
      var b := CoerceToRegister(r.valueType, r.value, t, a.value.next);
      if b.Some? {
        OperationTyped(operator, t, a.value.register, b.value.register, b.value.next);
      }
    }
  }

  lemma NegationTyped(operand: Expression, g: Generated)
    requires TypedAs(operand, Some(g.valueType), Some(g)) && !IsConstant(operand)
    ensures var t := if g.valueType.BooleanType? then None else Some(g.valueType);
            TypedAs(Negation(operand), t, Lowering.GenerateNegation(g))
  {
  }

  lemma CastOfValueTyped(operand: Expression, g: Generated, target: Type)
    requires TypedAs(operand, Some(g.valueType), Some(g)) && !IsConstant(operand)
    ensures var t := if Convertible(g.valueType, target) then Some(target) else None;
            TypedAs(Cast(operand, target), t, Lowering.GenerateCast(g, target))
  {
    CoercionTyped(operand, g, target, g.next);
  }

  /** An expression compiles exactly if it is well-typed, to a value of its type. */
  lemma {:induction false} ExpressionTyped(variables: Stack<Variable>, next: Register, e: Expression)
    requires AllRuntime(variables)
    ensures TypedAs(e, TypeOf(TypesOf(variables), e), GenerateExpression(variables, next, e))
    decreases e
  {
    var names := TypesOf(variables);
    if IsConstant(e) {
      ConstantTyped(names, e);
      ConstantGenerated(variables, next, e);
    } else {
      match e
      case NamedReference(name) => FindSameNames(names, variables, name);
      case BinaryOperation(operator, left, right) =>
        ExpressionTyped(variables, next, left);
        var l := GenerateExpression(variables, next, left);
        if l.Some? {
          ExpressionTyped(variables, l.value.next, right);
          var r := GenerateExpression(variables, l.value.next, right);
          if r.Some? {
            CombineTyped(operator, left, l.value, right, r.value);
          }
        }
      case Negation(operand) =>
        ExpressionTyped(variables, next, operand);
        var g := GenerateExpression(variables, next, operand);
        if g.Some? {
          NegationTyped(operand, g.value);
        }
      case BooleanInvert(operand) => ExpressionTyped(variables, next, operand);
      case Cast(operand, target) =>
        ExpressionTyped(variables, next, operand);
        var g := GenerateExpression(variables, next, operand);
        if g.Some? {
          CastOfValueTyped(operand, g.value, target);
        }
    }
  }
}
