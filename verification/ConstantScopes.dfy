/** The list of child scopes that name resolution leaves behind for the generator. */
module ConstantScopes {
  import opened Options
  import opened Ast

  /** A scope in the list, and the statements it is of. */
  datatype ListedScope = ListedScope(scope: ConstantScope, statements: seq<Statement>)

  /** The scopes of a statement list below `scope`, each before the scopes nested in it, numbered from `first`. */
  function ChildScopes(scope: ConstantScope, statements: seq<Statement>, first: nat): seq<ListedScope>
    decreases statements, 0
  {
    if statements == [] then [] else
    var scopes := StatementScopes(scope, statements[0], first);
    scopes + ChildScopes(scope, statements[1..], first + |scopes|)
  }

  function BodyScopes(scope: ConstantScope, statements: seq<Statement>, first: nat): (scopes: seq<ListedScope>)
    ensures scopes != []
    decreases statements, 1
  {
    [ListedScope(ChildScope(scope, first), statements)] + ChildScopes(ChildScope(scope, first), statements, first + 1)
  }

  function ArmScopes(scope: ConstantScope, arms: seq<Arm>, first: nat): seq<ListedScope>
    decreases arms
  {
    if arms == [] then [] else
    var scopes := BodyScopes(scope, arms[0].statements, first);
    scopes + ArmScopes(scope, arms[1..], first + |scopes|)
  }

  function StatementScopes(scope: ConstantScope, s: Statement, first: nat): seq<ListedScope>
    decreases s
  {
    match s
    case IfStatement(arms, elseStatements) =>
      var scopes := ArmScopes(scope, arms, first);
      scopes + if elseStatements == [] then [] else BodyScopes(scope, elseStatements, first + |scopes|)
    case WhileLoop(_, statements) => BodyScopes(scope, statements, first)
    case ForLoop(_, _, _, statements) => BodyScopes(scope, statements, first)
    case _ => []
  }

  /** In a list of scopes made from `first` on, the scope at a place has its number: no two are the same. */
  predicate NumberedFrom(scopes: seq<ListedScope>, first: nat) {
    forall i :: 0 <= i < |scopes| ==> scopes[i].scope.ChildScope? && scopes[i].scope.number == first + i
  }

  lemma NumberedTogether(a: seq<ListedScope>, b: seq<ListedScope>, first: nat)
    requires NumberedFrom(a, first) && NumberedFrom(b, first + |a|)
    ensures NumberedFrom(a + b, first)
  {
  }

  lemma {:induction false} ScopesAreNumbered(scope: ConstantScope, statements: seq<Statement>, first: nat)
    ensures NumberedFrom(ChildScopes(scope, statements, first), first)
    decreases statements, 0
  {
    if statements != [] {
      var scopes := StatementScopes(scope, statements[0], first);
      StatementIsNumbered(scope, statements[0], first);
      ScopesAreNumbered(scope, statements[1..], first + |scopes|);
      NumberedTogether(scopes, ChildScopes(scope, statements[1..], first + |scopes|), first);
    }
  }

  lemma {:induction false} BodyIsNumbered(scope: ConstantScope, statements: seq<Statement>, first: nat)
    ensures NumberedFrom(BodyScopes(scope, statements, first), first)
    decreases statements, 1
  {
    var body := ChildScope(scope, first);
    ScopesAreNumbered(body, statements, first + 1);
    NumberedTogether([ListedScope(body, statements)], ChildScopes(body, statements, first + 1), first);
  }

  lemma {:induction false} ArmsAreNumbered(scope: ConstantScope, arms: seq<Arm>, first: nat)
    ensures NumberedFrom(ArmScopes(scope, arms, first), first)
    decreases arms
  {
    if arms != [] {
      var scopes := BodyScopes(scope, arms[0].statements, first);
      BodyIsNumbered(scope, arms[0].statements, first);
      ArmsAreNumbered(scope, arms[1..], first + |scopes|);
      NumberedTogether(scopes, ArmScopes(scope, arms[1..], first + |scopes|), first);
    }
  }

  lemma {:induction false} StatementIsNumbered(scope: ConstantScope, s: Statement, first: nat)
    ensures NumberedFrom(StatementScopes(scope, s, first), first)
    decreases s
  {
    match s
    case IfStatement(arms, elseStatements) =>
      var scopes := ArmScopes(scope, arms, first);
      ArmsAreNumbered(scope, arms, first);
      if elseStatements != [] {
        BodyIsNumbered(scope, elseStatements, first + |scopes|);
        NumberedTogether(scopes, BodyScopes(scope, elseStatements, first + |scopes|), first);
      }
    case WhileLoop(_, statements) => BodyIsNumbered(scope, statements, first);
    case ForLoop(_, _, _, statements) => BodyIsNumbered(scope, statements, first);
    case _ =>
  }

  /** The list of child scopes; a scope is known by its place in it. */
  class ScopeList {
    var scopes: seq<ListedScope>

    constructor ()
      ensures scopes == []
    {
      scopes := [];
    }

    /** Append the scopes of a statement list, statement by statement. */
    method ProcessScope(scope: ConstantScope, statements: seq<Statement>)
      modifies this
      ensures scopes == old(scopes) + ChildScopes(scope, statements, |old(scopes)|)
      decreases statements, 0
    {
      var i := 0;
      assert statements[0..] == statements;
      while i < |statements|
        invariant 0 <= i <= |statements|
        invariant scopes + ChildScopes(scope, statements[i..], |scopes|) == old(scopes) + ChildScopes(scope, statements, |old(scopes)|)
      {
        ghost var before := scopes;
        ProcessStatement(scope, statements[i]);
        assert statements[i..][0] == statements[i] && statements[i..][1..] == statements[i + 1..];
        assert scopes + ChildScopes(scope, statements[i + 1..], |scopes|) == before + ChildScopes(scope, statements[i..], |before|);
        i := i + 1;
      }
      assert statements[i..] == [];
    }

    method ProcessStatement(scope: ConstantScope, s: Statement)
      modifies this
      ensures scopes == old(scopes) + StatementScopes(scope, s, |old(scopes)|)
      decreases s, 0
    {
      match s
      case IfStatement(arms, elseStatements) => ProcessIf(scope, arms, elseStatements);
      case WhileLoop(_, inner) => ProcessBody(scope, inner);
      case ForLoop(_, _, _, inner) => ProcessBody(scope, inner);
      case _ =>
    }

    method ProcessIf(scope: ConstantScope, arms: seq<Arm>, elseStatements: seq<Statement>)
      modifies this
      ensures scopes == old(scopes) + StatementScopes(scope, IfStatement(arms, elseStatements), |old(scopes)|)
      decreases IfStatement(arms, elseStatements), -1
    {
      ProcessArms(scope, arms);
      if |elseStatements| != 0 {
        ghost var before := scopes;
        ProcessBody(scope, elseStatements);
        ghost var first := ArmScopes(scope, arms, |old(scopes)|);
        assert before == old(scopes) + first;
        assert scopes == old(scopes) + (first + BodyScopes(scope, elseStatements, |before|));
      }
    }

    method ProcessArms(scope: ConstantScope, arms: seq<Arm>)
      modifies this
      ensures scopes == old(scopes) + ArmScopes(scope, arms, |old(scopes)|)
      decreases arms
    {
      var i := 0;
      assert arms[0..] == arms;
      while i < |arms|
        invariant 0 <= i <= |arms|
        invariant scopes + ArmScopes(scope, arms[i..], |scopes|) == old(scopes) + ArmScopes(scope, arms, |old(scopes)|)
      {
        ghost var before := scopes;
        ProcessBody(scope, arms[i].statements);
        assert arms[i..][0] == arms[i] && arms[i..][1..] == arms[i + 1..];
        assert scopes + ArmScopes(scope, arms[i + 1..], |scopes|) == before + ArmScopes(scope, arms[i..], |before|);
        i := i + 1;
      }
      assert arms[i..] == [];
    }

    method ProcessBody(scope: ConstantScope, statements: seq<Statement>)
      modifies this
      ensures scopes == old(scopes) + BodyScopes(scope, statements, |old(scopes)|)
      decreases statements, 1
    {
      var body := ChildScope(scope, |scopes|);
      scopes := scopes + [ListedScope(body, statements)];
      ProcessScope(body, statements);
    }
  }
}
