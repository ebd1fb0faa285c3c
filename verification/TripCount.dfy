/** A for loop visits the mathematical range of its bounds, unless the upper bound is the largest value of its type. */
module TripCount {
  import opened Integers
  import opened Options
  import opened Ast
  import opened Hlir
  import opened Source
  import opened Folding
  import opened Lowering
  import opened ExpressionProofs
  import opened ContextProofs
  import opened SimpleStatementProofs
  import opened LoopProofs
  import opened FlowProofs
  import opened Preservation

  /** `low`, `low + 1`, and so on up to and including `high`. */
  function Between(low: int, high: int): (values: seq<int>)
    ensures |values| == if low <= high then high - low + 1 else 0
    decreases high - low
  {
    if low > high then [] else [low] + Between(low + 1, high)
  }

  /** The body once for each value in turn; assigning to the index in the body has no effect on the next value. */
  function ExecuteForEach(
    p: Signature, store: Store, name: string, t: Integer, values: seq<int>, statements: seq<Statement>, fuel: nat
  ): Outcome
    decreases |values|
  {
    if fuel == 0 then OutOfFuel
    else if values == [] then Normal(store)
    else
      match ExecuteBody(p, store, [Named(name, Slot(IntegerType(t), Number(values[0])))], statements, fuel - 1)
      case Normal(store') => ExecuteForEach(p, store', name, t, values[1..], statements, fuel - 1)
      case Broke(store') => Normal(store')
      case other => other
  }

  lemma NextIndex(t: Integer, current: int)
    requires InRange(t, current) && current < Max(t)
    ensures Wrap(t, current + 1) == current + 1
  {
    DecodeEncode(t, current + 1);
  }

  lemma LargestWraps(t: Integer)
    ensures Wrap(t, Max(t) + 1) == Min(t)
  {
    match t.size
    case Size8 =>
    case Size16 =>
    case Size32 =>
    case Size64 =>
  }

  /** With an upper bound below the largest value, the loop is the iteration over the range of its bounds. */
  lemma {:induction false} LoopVisitsRange(
    p: Signature, store: Store, name: string, t: Integer, current: int, limit: int, statements: seq<Statement>, fuel: nat
  )
    requires InRange(t, current) && InRange(t, limit) && limit < Max(t)
    ensures ExecuteLoop(p, store, name, t, current, limit, statements, fuel)
         == ExecuteForEach(p, store, name, t, Between(current, limit), statements, fuel)
    decreases fuel
  {
    if fuel > 0 && current <= limit {
      var body := ExecuteBody(p, store, [Named(name, Slot(IntegerType(t), Number(current)))], statements, fuel - 1);
      assert Between(current, limit)[1..] == Between(current + 1, limit);
      NextIndex(t, current);
      if body.Normal? {
        LoopVisitsRange(p, body.store, name, t, current + 1, limit, statements, fuel - 1);
      }
    }
  }

  ghost predicate AlwaysVisitsRange(t: Integer, limit: int) {
    forall p: Signature, store: Store, name: string, current: int, statements: seq<Statement>, fuel: nat :: InRange(t, current) ==>
      ExecuteLoop(p, store, name, t, current, limit, statements, fuel) == ExecuteForEach(p, store, name, t, Between(current, limit), statements, fuel)
  }

  /** An empty loop up to the largest value starts over from the smallest one. */
  lemma LargestBoundStartsOver(t: Integer, store: Store)
    ensures ExecuteLoop(Signature([], Size64), store, "it", t, Max(t), Max(t), [], 2) == OutOfFuel
    ensures ExecuteForEach(Signature([], Size64), store, "it", t, Between(Max(t), Max(t)), [], 2) == Normal(store)
  {
    var p := Signature([], Size64);
    EmptyBody(p, store, [Named("it", Slot(IntegerType(t), Number(Max(t))))], 1);
    LargestWraps(t);
    EmptyBody(p, store, [Named("it", Slot(IntegerType(t), Number(Min(t))))], 0);
    assert ExecuteLoop(p, store, "it", t, Min(t), Max(t), [], 1) == OutOfFuel by {
      assert ExecuteLoop(p, store, "it", t, Wrap(t, Min(t) + 1), Max(t), [], 0) == OutOfFuel;
    }
    assert Between(Max(t), Max(t)) == [Max(t)];
    assert [Max(t)][1..] == [];
  }

  lemma EmptyBody(p: Signature, store: Store, scope: seq<Named<Slot>>, fuel: nat)
    ensures ExecuteBody(p, store, scope, [], fuel) == Normal(store)
  {
    assert ExecuteStatements(p, store + [scope], [], fuel) == Normal(store + [scope]);
    assert (store + [scope])[..|store|] == store;
  }

  /** Exactly the loops whose upper bound is below the largest value of their type visit the range of their bounds. */
  lemma VisitsRangeExactly(t: Integer, limit: int)
    requires InRange(t, limit)
    ensures AlwaysVisitsRange(t, limit) <==> limit < Max(t)
  {
    if limit < Max(t) {
      forall p: Signature, store: Store, name: string, current: int, statements: seq<Statement>, fuel: nat | InRange(t, current)
        ensures ExecuteLoop(p, store, name, t, current, limit, statements, fuel)
             == ExecuteForEach(p, store, name, t, Between(current, limit), statements, fuel)
      {
        LoopVisitsRange(p, store, name, t, current, limit, statements, fuel);
      }
    } else {
      LargestBoundStartsOver(t, []);
      assert InRange(t, Max(t));
    }
  }

  // ----- Loops without break -----

  /** A break that would leave this list's own loop. */
  predicate MayBreak(statements: seq<Statement>)
    decreases statements, 1
  {
    exists s :: s in statements && BreaksOut(s)
  }

  predicate BreaksOut(s: Statement)
    decreases s, 0
  {
    match s
    case BreakStatement => true
    case IfStatement(arms, elseStatements) => (exists a :: a in arms && MayBreak(a.statements)) || MayBreak(elseStatements)
    case _ => false
  }

  lemma {:induction false} LoopNeverBroke(p: Signature, store: Store, name: string, t: Integer, current: int, limit: int, statements: seq<Statement>, fuel: nat)
    ensures !ExecuteLoop(p, store, name, t, current, limit, statements, fuel).Broke?
    decreases fuel
  {
    if fuel > 0 && current <= limit {
      var body := ExecuteBody(p, store, [Named(name, Slot(IntegerType(t), Number(current)))], statements, fuel - 1);
      if body.Normal? {
        LoopNeverBroke(p, body.store, name, t, Wrap(t, current + 1), limit, statements, fuel - 1);
      }
    }
  }

  lemma {:induction false} WhileNeverBroke(p: Signature, store: Store, condition: Expression, statements: seq<Statement>, fuel: nat)
    ensures !ExecuteWhile(p, store, condition, statements, fuel).Broke?
    decreases fuel
  {
    if fuel > 0 && Evaluate(store, condition).Evaluated? {
      var body := ExecuteBody(p, store, [], statements, fuel - 1);
      if body.Normal? {
        WhileNeverBroke(p, body.store, condition, statements, fuel - 1);
      }
    }
  }

  lemma {:induction false} ArmsNeverBreak(p: Signature, store: Store, arms: seq<Arm>, fuel: nat)
    requires forall a :: a in arms ==> !MayBreak(a.statements)
    ensures var result := ExecuteArms(p, store, arms, fuel); result.Some? ==> !result.value.Broke?
    decreases arms
  {
    if arms != [] {
      StatementsNeverBreak(p, store + [[]], arms[0].statements, fuel);
      ArmsNeverBreak(p, store, arms[1..], fuel);
    }
  }

  lemma {:induction false} StatementNeverBreaks(p: Signature, store: Store, s: Statement, fuel: nat)
    requires !BreaksOut(s)
    ensures !ExecuteStatement(p, store, s, fuel).Broke?
    decreases s
  {
    match s
    case IfStatement(arms, elseStatements) =>
      ArmsNeverBreak(p, store, arms, fuel);
      StatementsNeverBreak(p, store + [[]], elseStatements, fuel);
    case WhileLoop(condition, statements) => WhileNeverBroke(p, store, condition, statements, fuel);
    case ForLoop(indexName, from, to, statements) =>
      var bounds := EvaluateBounds(p, store, from, to);
      if bounds.Bounds? {
        LoopNeverBroke(p, store, IndexName(indexName), bounds.indexType, bounds.from, bounds.to, statements, fuel);
      }
    case _ =>
  }

  /** A list without a break of its own never breaks. */
  lemma {:induction false} StatementsNeverBreak(p: Signature, store: Store, statements: seq<Statement>, fuel: nat)
    requires !MayBreak(statements)
    ensures !ExecuteStatements(p, store, statements, fuel).Broke?
    decreases statements
  {
    if statements != [] {
      StatementNeverBreaks(p, store, statements[0], fuel);
      var first := ExecuteStatement(p, store, statements[0], fuel);
      if first.Normal? {
        assert !MayBreak(statements[1..]);
        StatementsNeverBreak(p, first.store, statements[1..], fuel);
      }
    }
  }

  /** Up to the largest value, a loop without a break never ends normally, however long it runs. */
  lemma {:induction false} LargestBoundNeverEnds(
    p: Signature, store: Store, name: string, t: Integer, current: int, statements: seq<Statement>, fuel: nat
  )
    requires InRange(t, current) && !MayBreak(statements)
    ensures !ExecuteLoop(p, store, name, t, current, Max(t), statements, fuel).Normal?
    decreases fuel
  {
    if fuel > 0 {
      var scope := [Named(name, Slot(IntegerType(t), Number(current)))];
      var body := ExecuteBody(p, store, scope, statements, fuel - 1);
      StatementsNeverBreak(p, store + [scope], statements, fuel - 1);
      WrapInRange(t, current + 1);
      if body.Normal? {
        LargestBoundNeverEnds(p, body.store, name, t, Wrap(t, current + 1), statements, fuel - 1);
      }
    }
  }

  /** The emitted loop, from its head, does what the iteration over the range does. */
  lemma EmittedLoopVisitsRange(
    code: Code, c: Context, statements: seq<Statement>, name: string, loop: Loop, entry: Entry, ended: Context,
    store: Store, from: int, to: int, fuel: nat, m: Machine
  ) returns (steps: nat, m': Machine)
    requires ForReady(code, c, statements, name, loop, entry, ended) && FaithfulStatements(statements)
    requires Matches(c.variables, store, m) && LoopReady(loop.indexType, loop.pointer, loop.limit, from, to, m)
    requires to < Max(loop.indexType)
    ensures Leads(code, Running(entry.head, 0, m), Exits(entry.end, 0, None, c.returnTypes), c.variables,
                  ExecuteForEach(SignatureOf(c), store, name, loop.indexType, Between(from, to), statements, fuel), fuel,
                  m, loop.context.nextRegister, steps, m')
  {
    LoopVisitsRange(SignatureOf(c), store, name, loop.indexType, from, to, statements, fuel);
    steps, m' := SimulateFor(code, c, statements, name, loop, entry, ended, store, from, to, fuel, m);
  }
}
