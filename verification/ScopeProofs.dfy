/** The generator consumes the list of child scopes in step with the statements: what is left of the list
    is what the rest of the statements need. */
module ScopeProofs {
  import opened Options
  import opened Ast
  import opened Hlir
  import opened ConstantScopes
  import opened Lowering

  // ----- The list -----

  /** Are these scopes listed from `next` on? */
  predicate Listed(all: seq<ListedScope>, next: nat, scopes: seq<ListedScope>) {
    next + |scopes| <= |all| && all[next..next + |scopes|] == scopes
  }

  lemma SplitListed(all: seq<ListedScope>, next: nat, f: seq<ListedScope>, g: seq<ListedScope>)
    requires Listed(all, next, f + g)
    ensures Listed(all, next, f) && Listed(all, next + |f|, g)
  {
    assert all[next..next + |f|] == all[next..next + |f + g|][..|f|];
    assert all[next + |f|..next + |f| + |g|] == all[next..next + |f + g|][|f|..];
  }

  /** After a body's own scope come the scopes nested in it. */
  lemma BodyScopesSplit(all: seq<ListedScope>, next: nat, scope: ConstantScope, statements: seq<Statement>)
    requires Listed(all, next, BodyScopes(scope, statements, next))
    ensures all[next] == ListedScope(ChildScope(scope, next), statements)
    ensures Listed(all, next + 1, ChildScopes(ChildScope(scope, next), statements, next + 1))
  {
    var own := [ListedScope(ChildScope(scope, next), statements)];
    SplitListed(all, next, own, ChildScopes(ChildScope(scope, next), statements, next + 1));
    assert all[next] == all[next..next + 1][0];
  }

  lemma ChildScopesSplit(all: seq<ListedScope>, next: nat, scope: ConstantScope, s: Statement, rest: seq<Statement>)
    requires Listed(all, next, ChildScopes(scope, [s] + rest, next))
    ensures var first := StatementScopes(scope, s, next);
            Listed(all, next, first) && Listed(all, next + |first|, ChildScopes(scope, rest, next + |first|))
  {
    assert ([s] + rest)[0] == s && ([s] + rest)[1..] == rest;
    var first := StatementScopes(scope, s, next);
    SplitListed(all, next, first, ChildScopes(scope, rest, next + |first|));
  }

  lemma ArmScopesSplit(all: seq<ListedScope>, next: nat, scope: ConstantScope, arm: Arm, rest: seq<Arm>)
    requires Listed(all, next, ArmScopes(scope, [arm] + rest, next))
    ensures var first := BodyScopes(scope, arm.statements, next);
            Listed(all, next, first) && Listed(all, next + |first|, ArmScopes(scope, rest, next + |first|))
  {
    assert ([arm] + rest)[0] == arm && ([arm] + rest)[1..] == rest;
    var first := BodyScopes(scope, arm.statements, next);
    SplitListed(all, next, first, ArmScopes(scope, rest, next + |first|));
  }

  lemma IfScopesSplit(all: seq<ListedScope>, next: nat, scope: ConstantScope, arms: seq<Arm>, elseStatements: seq<Statement>)
    requires Listed(all, next, StatementScopes(scope, IfStatement(arms, elseStatements), next))
    ensures var first := ArmScopes(scope, arms, next);
            Listed(all, next, first) && (elseStatements != [] ==> Listed(all, next + |first|, BodyScopes(scope, elseStatements, next + |first|)))
  {
    var first := ArmScopes(scope, arms, next);
    SplitListed(all, next, first, if elseStatements == [] then [] else BodyScopes(scope, elseStatements, next + |first|));
  }

  // ----- What is consumed -----

  /** From `c` to `c'` as many scopes were opened as there are in the list, and all are closed again. */
  predicate Consumes(c: Context, c': Context, scopes: seq<ListedScope>) {
    c'.constantScopes == c.constantScopes && c'.nextScope == c.nextScope + |scopes|
  }

  lemma {:induction false} BodyConsumes(c: Context, statements: seq<Statement>, breakTarget: Option<Label>, scope: seq<Named<Variable>>)
    requires GenerateBody(c, statements, breakTarget, scope).Some?
    ensures Consumes(c, GenerateBody(c, statements, breakTarget, scope).value, BodyScopes(CurrentScope(c), statements, c.nextScope))
    decreases statements, 1
  {
    StatementsConsume(OpenScope(c, breakTarget, scope), statements, false);
  }

  lemma {:induction false} ArmConsumes(c: Context, arm: Arm, next: Label, end: Label)
    requires GenerateArm(c, arm, next, end).Some?
    ensures Consumes(c, GenerateArm(c, arm, next, end).value, BodyScopes(CurrentScope(c), arm.statements, c.nextScope))
    decreases arm
  {
    BodyConsumes(EnterArm(c, arm.condition, next).value, arm.statements, c.breakTarget, []);
  }

  lemma MoreArmsConsumed(c: Context, c1: Context, c2: Context, arm: Arm, rest: seq<Arm>)
    requires Consumes(c, c1, BodyScopes(CurrentScope(c), arm.statements, c.nextScope))
    requires Consumes(c1, c2, ArmScopes(CurrentScope(c1), rest, c1.nextScope))
    ensures Consumes(c, c2, ArmScopes(CurrentScope(c), [arm] + rest, c.nextScope))
  {
    assert ([arm] + rest)[0] == arm && ([arm] + rest)[1..] == rest;
  }

  lemma {:induction false} ArmsConsume(c: Context, arms: seq<Arm>, hasElse: bool, end: Label)
    requires GenerateArms(c, arms, hasElse, end).Some?
    ensures Consumes(c, GenerateArms(c, arms, hasElse, end).value, ArmScopes(CurrentScope(c), arms, c.nextScope))
    decreases arms
  {
    if arms != [] {
      var (c0, next) := ArmStart(c, arms[1..] == [] && !hasElse, end);
      assert arms == [arms[0]] + arms[1..];
      FirstArm(c, arms[0], arms[1..], hasElse, end);
      ArmConsumes(c0, arms[0], next, end);
      var c1 := GenerateArm(c0, arms[0], next, end).value;
      ArmsConsume(c1, arms[1..], hasElse, end);
      MoreArmsConsumed(c, c1, GenerateArms(c1, arms[1..], hasElse, end).value, arms[0], arms[1..]);
    }
  }

  lemma {:induction false} IfConsumes(c: Context, s: Statement)
    requires s.IfStatement? && GenerateIf(c, s).Some?
    ensures Consumes(c, GenerateIf(c, s).value, StatementScopes(CurrentScope(c), s, c.nextScope))
    decreases s, 0
  {
    var c0 := c.(nextLabel := c.nextLabel + 1);
    ArmsConsume(c0, s.arms, s.elseStatements != [], c.nextLabel);
    if s.elseStatements != [] {
      BodyConsumes(GenerateArms(c0, s.arms, true, c.nextLabel).value, s.elseStatements, c.breakTarget, []);
    }
  }

  lemma {:induction false} WhileConsumes(c: Context, condition: Expression, statements: seq<Statement>)
    requires GenerateWhile(c, condition, statements).Some?
    ensures Consumes(c, GenerateWhile(c, condition, statements).value, BodyScopes(CurrentScope(c), statements, c.nextScope))
    decreases statements, 2
  {
    var entry := EnterWhile(c, condition).value;
    BodyConsumes(entry.inside, statements, Some(entry.end), []);
  }

  lemma SetupOpensNothing(c: Context, from: Expression, to: Expression)
    requires GenerateLoopSetup(c, from, to).Some?
    ensures Consumes(c, GenerateLoopSetup(c, from, to).value.context, [])
  {
  }

  lemma {:induction false} ForConsumes(c: Context, s: Statement)
    requires s.ForLoop? && GenerateFor(c, s).Some?
    ensures Consumes(c, GenerateFor(c, s).value, BodyScopes(CurrentScope(c), s.statements, c.nextScope))
    decreases s, 0
  {
    SetupOpensNothing(c, s.from, s.to);
    var loop := GenerateLoopSetup(c, s.from, s.to).value;
    BodyConsumes(EnterFor(loop).inside, s.statements, Some(EnterFor(loop).end), [IndexVariable(s, loop)]);
  }

  lemma {:induction false} StatementConsumes(c: Context, s: Statement)
    requires GenerateStatement(c, s).Some?
    ensures Consumes(c, GenerateStatement(c, s).value, StatementScopes(CurrentScope(c), s, c.nextScope))
    decreases s, 1
  {
    match s
    case IfStatement(_, _) => IfConsumes(c, s);
    case WhileLoop(condition, statements) => WhileConsumes(c, condition, statements);
    case ForLoop(_, _, _, _) => ForConsumes(c, s);
    case _ =>
  }

  /** The scopes of a statement list are used up when the list has been generated. */
  lemma {:induction false} StatementsConsume(c: Context, statements: seq<Statement>, unreachable: bool)
    requires GenerateStatements(c, statements, unreachable).Some?
    ensures Consumes(c, GenerateStatements(c, statements, unreachable).value, ChildScopes(CurrentScope(c), statements, c.nextScope))
    decreases statements, 0
  {
    if statements == [] {
    } else if statements[0].Declaration? {
      assert StatementScopes(CurrentScope(c), statements[0], c.nextScope) == [];
      StatementsConsume(c, statements[1..], unreachable);
    } else {
      StatementConsumes(c, statements[0]);
      StatementsConsume(GenerateStatement(c, statements[0]).value, statements[1..], Leaves(statements[0]));
    }
  }
}
