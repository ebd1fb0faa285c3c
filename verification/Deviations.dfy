/** Where the compiler does not do what its source language means: concrete functions and expressions. */
module Deviations {
  import opened Integers
  import opened IntegerLaws
  import opened Options
  import opened Ast
  import opened Hlir
  import opened Source
  import opened Folding
  import opened FoldedSource
  import opened FoldingProofs
  import opened Lowering
  import opened FunctionProofs
  import opened Equivalence

  // ----- Functions that return one constant expression -----

  function Returning(e: Expression, t: Integer): Function {
    Function([], [IntegerType(t)], [ReturnStatement([e])])
  }

  /** Such a call is its return. */
  lemma CallIsReturn(e: Expression, t: Integer, outcome: Outcome)
    ensures forall fuel: nat :: Call(Returning(e, t), Size32, [], fuel) == AsReturned(EvaluateAs([[]], e, IntegerType(t)))
    ensures SourceEnds(Returning(e, t), Size32, [], outcome) <==> outcome == AsReturned(EvaluateAs([[]], e, IntegerType(t)))
  {
    var f := Returning(e, t);
    forall fuel: nat
      ensures Call(f, Size32, [], fuel) == AsReturned(EvaluateAs([[]], e, IntegerType(t)))
    {
      assert BindParameters([], f.parameters, []) == [];
      assert ExecuteStatement(Signature(f.returnTypes, Size32), [[]], f.statements[0], fuel) == AsReturned(EvaluateAs([[]], e, IntegerType(t)));
    }
    assert Call(f, Size32, [], 0) == AsReturned(EvaluateAs([[]], e, IntegerType(t)));
  }

  function AsReturned(e: Evaluation): Outcome {
    if e.Evaluated? then ReturnedValue(Some(e.value)) else Failed(e)
  }

  /** It compiles exactly if the constant can be used at the return type. */
  lemma ReturnCompiles(e: Expression, t: Integer)
    requires Fold(e).Some?
    ensures GenerateFunction(Returning(e, t), Size32).Some? <==> CoerceConstant(Fold(e).value, IntegerType(t)).Some?
  {
    var f, c := Returning(e, t), InitialContext(Returning(e, t), Size32);
    FoldIsGenerated(c.variables, c.nextRegister, e);
    FoldIsWellKinded(e);
    assert GenerateParameters(c, f.parameters, 0) == c;
    assert f.statements[1..] == [];
    assert GenerateStatements(c, f.statements, false) == GenerateReturn(c, [e]);
    assert GenerateReturn(c, [e]).Some? <==> CoerceConstant(Fold(e).value, IntegerType(t)).Some?;
  }

  lemma OperationKeepsType(operator: BinaryOperator, left: TypedConstant, lv: Value, right: TypedConstant, rv: Value)
    requires FoldBinary(operator, left, right).Some? && FoldBinary(operator, left, right).value.constantType.IntegerType?
    ensures var r := EvaluateBinary(operator, left.constantType, lv, right.constantType, rv);
            r.Evaluated? ==> r.valueType == FoldBinary(operator, left, right).value.constantType
  {
  }

  lemma TypeIsKept(store: Store, e: Expression, t: Integer)
    requires FaithfulParts(e) && Fold(e).Some? && Fold(e).value.constantType == IntegerType(t)
    ensures Evaluate(store, e).Evaluated? ==> Evaluate(store, e).valueType == IntegerType(t)
  {
    match e
    case BinaryOperation(operator, left, right) =>
      FoldAgrees(store, left);
      FoldAgrees(store, right);
      OperationKeepsType(operator, Fold(left).value, Evaluate(store, left).value, Fold(right).value, Evaluate(store, right).value);
    case _ =>
  }

  lemma FoldedReturn(e: Expression, t: Integer)
    ensures FoldFunction(Returning(e, t)) == Returning(FoldConstants(e), t)
  {
    var s := ReturnStatement([e]);
    assert FoldStatements([s]) == [FoldStatement(s)];
    assert FoldValues([e]) == [FoldConstants(e)];
  }

  /** The code returns the folded word, cut down to the type, and nothing else. */
  lemma CodeReturnsFolded(e: Expression, t: Integer, v: Option<Value>)
    requires Fold(e).Some? && Fold(e).value.constantType == IntegerType(t) && IsReturnValue([IntegerType(t)], v)
    ensures GenerateFunction(Returning(e, t), Size32).Some? && IsWord(Fold(e).value.constant)
    ensures CodeReturns(Returning(e, t), v) <==> v == Some(Number(Wrap(t, Fold(e).value.constant.integer)))
  {
    var f, e' := Returning(e, t), FoldConstants(e);
    ReturnCompiles(e, t);
    FoldedMeansConstant([[]], e);
    FoldedReturn(e, t);
    ReturnsPreserved(f, Size32, [], v);
    CallIsReturn(e', t, ReturnedValue(v));
  }

  ghost predicate CodeReturns(f: Function, v: Option<Value>)
    requires f.parameters == [] && GenerateFunction(f, Size32).Some?
  {
    MachineEnds(CompiledCode(f, Size32), InitialState(f, []), Equivalence.Result(f.returnTypes, v))
  }

  /** A function that returns a constant expression of its return type, with faithful parts, compiles, and
      its code returns what the function returns exactly if the fold is faithful. */
  lemma ConstantReturnedExactly(e: Expression, t: Integer)
    requires FaithfulParts(e) && Fold(e).Some? && Fold(e).value.constantType == IntegerType(t)
    ensures GenerateFunction(Returning(e, t), Size32).Some?
    ensures (forall v: Option<Value> | IsReturnValue([IntegerType(t)], v) ::
               CodeReturns(Returning(e, t), v) <==> SourceEnds(Returning(e, t), Size32, [], ReturnedValue(v))) <==> Faithful(e)
  {
    ReturnCompiles(e, t);
    FoldIsWellKinded(e);
    FoldsRightExactly([[]], e);
    TypeIsKept([[]], e, t);
    var word := Fold(e).value.constant.integer;
    forall v: Option<Value> | IsReturnValue([IntegerType(t)], v)
      ensures CodeReturns(Returning(e, t), v) <==> v == Some(Number(Wrap(t, word)))
      ensures SourceEnds(Returning(e, t), Size32, [], ReturnedValue(v)) <==> ReturnedValue(v) == AsReturned(Evaluate([[]], e))
    {
      CodeReturnsFolded(e, t, v);
      CallIsReturn(e, t, ReturnedValue(v));
    }
    WrapInRange(t, word);
    assert IsReturnValue([IntegerType(t)], Some(Number(Wrap(t, word))));
  }

  // ----- A fold that is not faithful -----

  const U8: Integer := Integer(Size8, false)

  /** `n` as an unsigned 8-bit integer. */
  function Small(n: Word): Expression {
    Cast(IntegerLiteral(n), IntegerType(U8))
  }

  function Sum(): Expression {
    BinaryOperation(Addition, Small(200), Small(100))
  }

  function Quotient(): Expression {
    BinaryOperation(Division, Sum(), Small(3))
  }

  lemma SmallIs(n: Word)
    requires n < 256
    ensures Evaluate([[]], Small(n)) == Evaluated(IntegerType(U8), Number(n))
    ensures Fold(Small(n)) == Some(TypedConstant(IntegerType(U8), IRConstant.IntegerConstant(n)))
  {
    assert Evaluate([[]], IntegerLiteral(n)) == Evaluated(UndeterminedInteger, Number(n));
    assert Fold(IntegerLiteral(n)) == Some(TypedConstant(UndeterminedInteger, IRConstant.IntegerConstant(n)));
    DecodeEncode(U8, n);
  }

  /** The sum wraps around to 44 when it is computed, but is kept as 300 when it is folded. */
  lemma QuotientIs()
    ensures Evaluate([[]], Quotient()) == Evaluated(IntegerType(U8), Number(14))
    ensures Fold(Quotient()) == Some(TypedConstant(IntegerType(U8), IRConstant.IntegerConstant(100)))
  {
    SmallIs(200);
    SmallIs(100);
    SmallIs(3);
    assert Evaluate([[]], Sum()) == Evaluated(IntegerType(U8), Number(44));
    assert Fold(Sum()) == Some(TypedConstant(IntegerType(U8), IRConstant.IntegerConstant(300)));
  }

  lemma UnfaithfulReturn(e: Expression, t: Integer)
    requires !Faithful(e)
    ensures !FaithfulStatements(Returning(e, t).statements)
  {
    var s := Returning(e, t).statements[0];
    assert s in Returning(e, t).statements && e in s.values;
  }

  lemma SourceReturns(e: Expression, t: Integer, x: int)
    requires Evaluate([[]], e) == Evaluated(IntegerType(t), Number(x))
    ensures SourceEnds(Returning(e, t), Size32, [], ReturnedValue(Some(Number(x))))
  {
    CallIsReturn(e, t, ReturnedValue(Some(Number(x))));
  }

  lemma Differs(e: Expression, t: Integer, word: Word, x: int)
    requires Fold(e) == Some(TypedConstant(IntegerType(t), IRConstant.IntegerConstant(word))) && InRange(t, word)
    requires Evaluate([[]], e) == Evaluated(IntegerType(t), Number(x)) && x != word
    ensures SourceEnds(Returning(e, t), Size32, [], ReturnedValue(Some(Number(x)))) && !FaithfulStatements(Returning(e, t).statements)
    ensures GenerateFunction(Returning(e, t), Size32).Some? && CodeReturns(Returning(e, t), Some(Number(word)))
  {
    SourceReturns(e, t, x);
    DecodeEncode(t, word);
    CodeReturnsFolded(e, t, Some(Number(word)));
    if Faithful(e) {
      FoldAgrees([[]], e);
    }
    UnfaithfulReturn(e, t);
  }

  /** `return (200 + 100) / 3` on unsigned 8-bit integers returns 14, and its code returns 100. */
  lemma FoldedDivisionDiffers(e: Expression)
    requires e == Quotient()
    ensures SourceEnds(Returning(e, U8), Size32, [], ReturnedValue(Some(Number(14)))) && !FaithfulStatements(Returning(e, U8).statements)
    ensures GenerateFunction(Returning(e, U8), Size32).Some? && CodeReturns(Returning(e, U8), Some(Number(100)))
  {
    QuotientIs();
    Differs(e, U8, 100, 14);
  }

  // ----- Negation -----

  /** Can the negation of a word of type `t`, which has become an undetermined integer, be used at `t`? */
  predicate AcceptsNegated(t: Integer, word: Word) {
    t.size.Size64? ||
    if t.isSigned then InRange(t, -SignedValue(Size64, word)) else word == 0 || MODULUS_64 - word <= Max(t)
  }

  /** Negating a constant of a given type makes it an undetermined integer, which the negated value is not.
      Used at its own type it is refused unless it fits there again, and has the negated value if it does:
      of canonical unsigned constants shorter than 64 bits only zero fits, of signed ones all but the least. */
  lemma NegationLosesType(store: Store, e: Expression, t: Integer)
    requires Faithful(e) && Fold(e).Some? && Fold(e).value.constantType == IntegerType(t)
    ensures Fold(Negation(e)).Some? && Fold(Negation(e)).value.constantType == UndeterminedInteger
    ensures Evaluate(store, Negation(e)).Evaluated? && Evaluate(store, Negation(e)).valueType == IntegerType(t)
    ensures !Faithful(Negation(e))
    ensures var used := CoerceConstant(Fold(Negation(e)).value, IntegerType(t));
            IsWord(Fold(e).value.constant) && (used.Some? <==> AcceptsNegated(t, Fold(e).value.constant.integer)) &&
            (used.Some? ==> Denotes(TypedConstant(IntegerType(t), used.value), Evaluate(store, Negation(e)).value))
  {
    FoldAgrees(store, e);
    NegatedConstant(t, Fold(e).value.constant.integer);
  }

  /** The negated word as an undetermined integer, used at type `t`. */
  lemma NegatedConstant(t: Integer, word: Word)
    ensures var used := CoerceConstant(TypedConstant(UndeterminedInteger, IRConstant.IntegerConstant(Encode(Size64, 0 - word))), IntegerType(t));
            (used.Some? <==> AcceptsNegated(t, word)) &&
            (used.Some? ==> Denotes(TypedConstant(IntegerType(t), used.value), Number(Wrap(t, -Wrap(t, word)))))
  {
    NegatedAtSize(t, word);
    NegatedFits(t, word);
  }

  lemma NegatedAtSize(t: Integer, word: Word)
    ensures Wrap(t, Encode(Size64, 0 - word)) == Wrap(t, -Wrap(t, word))
  {
    WordAtSize(t, 0 - word);
    CongruentWrap(t, word);
    CongruentSum(t.size, 0, 0, Wrap(t, word), word);
  }

  lemma NegatedFits(t: Integer, word: Word)
    ensures CheckCoercion(t, Encode(Size64, 0 - word)) <==> AcceptsNegated(t, word)
  {
    if word == 0 {
      SmallMod(0, MODULUS_64);
    } else {
      SmallMod(MODULUS_64 - word, MODULUS_64);
      ModShift(0 - word, MODULUS_64, 1);
    }
  }

  /** For canonical words the condition is on the value alone. */
  lemma CanonicalAcceptsNegated(t: Integer, word: Word)
    requires Canonical(t, word)
    ensures AcceptsNegated(t, word) <==> t.size.Size64? || if t.isSigned then Wrap(t, word) != Min(t) else Wrap(t, word) == 0
  {
    CanonicalIsNoExcess(t, word);
    WrapInRange(t, word);
  }

  /** `return -e` from a function of another integer type than the constant `e` compiles exactly if the negated
      64-bit word is acceptable there, although a value of one type is returned as one of another. */
  lemma NegationIsIllFormed(e: Expression, t: Integer, u: Integer, fuel: nat)
    requires Faithful(e) && Fold(e).Some? && Fold(e).value.constantType == IntegerType(t) && u != t
    ensures IsWord(Fold(e).value.constant)
    ensures GenerateFunction(Returning(Negation(e), u), Size32).Some? <==> CheckCoercion(u, Encode(Size64, 0 - Fold(e).value.constant.integer))
    ensures Call(Returning(Negation(e), u), Size32, [], fuel) == IllFormed
  {
    NegationLosesType([[]], e, t);
    ReturnCompiles(Negation(e), u);
    CallIsReturn(Negation(e), u, IllFormed);
  }
}
