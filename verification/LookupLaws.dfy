/** What a search of the statements of a scope answers, statement by statement. */
module LookupLaws {
  import opened Options
  import opened NameLookup

  // ----- The first of a name -----

  lemma {:induction false} BindingIsFirst(bindings: seq<Binding>, name: string)
    ensures match FindBinding(bindings, name)
            case Found(v) => exists i :: 0 <= i < |bindings| && bindings[i] == Binding(name, v) && forall j :: 0 <= j < i ==> bindings[j].name != name
            case _ => forall j :: 0 <= j < |bindings| ==> bindings[j].name != name
  {
    if bindings != [] && bindings[0].name != name {
      BindingIsFirst(bindings[1..], name);
      if FindBinding(bindings, name).Found? {
        var rest := bindings[1..];
        var i :| 0 <= i < |rest| && rest[i] == Binding(name, FindBinding(rest, name).value) && forall j :: 0 <= j < i ==> rest[j].name != name;
        assert bindings[i + 1] == rest[i];
      }
    } else if bindings != [] {
      assert bindings[0] == Binding(name, FindBinding(bindings, name).value);
    }
  }

  lemma {:induction false} VariantIsFirst(variants: seq<Variant>, name: string)
    ensures match FindVariant(variants, name)
            case Found(v) =>
              v.OtherValue? && exists i :: 0 <= i < |variants| && variants[i] == Variant(name, v.id) && forall j :: 0 <= j < i ==> variants[j].name != name
            case _ => forall j :: 0 <= j < |variants| ==> variants[j].name != name
  {
    if variants != [] && variants[0].name != name {
      VariantIsFirst(variants[1..], name);
      if FindVariant(variants, name).Found? {
        var rest := variants[1..];
        var i :| 0 <= i < |rest| && rest[i] == Variant(name, FindVariant(rest, name).value.id) && forall j :: 0 <= j < i ==> rest[j].name != name;
        assert variants[i + 1] == rest[i];
      }
    } else if variants != [] {
      assert variants[0] == Variant(name, FindVariant(variants, name).value.id);
    }
  }

  predicate Declares(item: Item, name: string) {
    item.Declaration? && item.name == name
  }

  predicate NoneDeclares(items: seq<Item>, name: string) {
    forall j :: 0 <= j < |items| ==> !Declares(items[j], name)
  }

  lemma {:induction false} DeclarationIsFirst(items: seq<Item>, name: string, k: nat)
    requires k <= |items| && NoneDeclares(items[..k], name) && (k < |items| ==> Declares(items[k], name))
    ensures FindDeclaration(items, name) == if k < |items| then Some(items[k]) else None
    decreases k
  {
    if k > 0 {
      assert items[..k][0] == items[0] && items[1..][..k - 1] == items[..k][1..];
      DeclarationIsFirst(items[1..], name, k - 1);
    }
  }

  /** What a declaration is, as far as it is resolved. */
  predicate IsValueOf(t: Table, d: Item, a: Answer)
    requires d.Declaration?
  {
    match d.kind
    case Immediate => a == Found(OtherValue(d.id))
    case ImportOf(file) => a == if file in t.parsed then Found(FileModule(file)) else Wait(ParseJob(file))
    case ByJob => a == if d.id in t.declarations then Found(t.declarations[d.id]) else Wait(DeclarationJob(d.id))
  }

  /** The first declaration of the name answers, wherever it stands; from outside only if it is public. */
  lemma DeclarationAnswers(t: Table, p: Program, depth: nat, scopes: seq<Scope>, items: seq<Item>, external: bool, q: Query, k: nat)
    requires k < |items| && NoneDeclares(items[..k], q.name) && Declares(items[k], q.name) && q.ignored != TheDeclaration(items[k].id)
    ensures var s := SearchItems(t, p, depth, scopes, items, external, q);
            !s.reached && if external && !items[k].isPublic then s.answer == NotFound else IsValueOf(t, items[k], s.answer)
  {
    DeclarationIsFirst(items, q.name, k);
  }

  // ----- The first statement that answers -----

  /** A statement that does not end the search. */
  predicate IsSilent(t: Table, p: Program, depth: nat, scopes: seq<Scope>, item: Item, external: bool, q: Query) {
    if IsIgnored(item, q.ignored) then !item.StaticIf?
    else SearchItem(t, p, depth, scopes, item, external, q) == Search(NotFound, false)
  }

  predicate AllSilent(t: Table, p: Program, depth: nat, scopes: seq<Scope>, items: seq<Item>, external: bool, q: Query) {
    forall j :: 0 <= j < |items| ==> IsSilent(t, p, depth, scopes, items[j], external, q)
  }

  predicate NotDeclared(items: seq<Item>, q: Query) {
    match FindDeclaration(items, q.name)
    case None => true
    case Some(d) => q.ignored == TheDeclaration(d.id)
  }

  lemma {:induction false} RestGoesOn(t: Table, p: Program, depth: nat, scopes: seq<Scope>, items: seq<Item>, external: bool, q: Query, k: nat)
    requires k <= |items| && AllSilent(t, p, depth, scopes, items[..k], external, q)
    ensures SearchRest(t, p, depth, scopes, items, external, q) == SearchRest(t, p, depth, scopes, items[k..], external, q)
    decreases k
  {
    if k > 0 {
      assert items[..k][0] == items[0] && items[1..][..k - 1] == items[..k][1..] && items[1..][k - 1..] == items[k..];
      assert IsSilent(t, p, depth, scopes, items[..k][0], external, q);
      RestGoesOn(t, p, depth, scopes, items[1..], external, q, k - 1);
    } else {
      assert items[0..] == items;
    }
  }

  /** If all statements are silent the constants of the scope answer. */
  lemma ConstantsAnswerLast(t: Table, p: Program, depth: nat, scopes: seq<Scope>, items: seq<Item>, external: bool, q: Query)
    requires NotDeclared(items, q) && AllSilent(t, p, depth, scopes, items, external, q)
    ensures SearchItems(t, p, depth, scopes, items, external, q) == Search(Constant(scopes, q.name), false)
  {
    assert items[..|items|] == items && items[|items|..] == [];
    RestGoesOn(t, p, depth, scopes, items, external, q, |items|);
  }

  /** Statement `k` is the first that is not silent. */
  predicate IsFirst(t: Table, p: Program, depth: nat, scopes: seq<Scope>, items: seq<Item>, external: bool, q: Query, k: nat) {
    k < |items| && NotDeclared(items, q) && AllSilent(t, p, depth, scopes, items[..k], external, q)
  }

  lemma FirstAnswers(t: Table, p: Program, depth: nat, scopes: seq<Scope>, items: seq<Item>, external: bool, q: Query, k: nat)
    requires IsFirst(t, p, depth, scopes, items, external, q, k) && !IsIgnored(items[k], q.ignored)
    ensures var s := SearchItem(t, p, depth, scopes, items[k], external, q);
            SearchItems(t, p, depth, scopes, items, external, q) ==
            if !s.answer.NotFound? then s
            else if s.reached then Search(Constant(scopes, q.name), true)
            else SearchRest(t, p, depth, scopes, items[k + 1..], external, q)
  {
    RestGoesOn(t, p, depth, scopes, items, external, q, k);
    assert items[k..][0] == items[k] && items[k..][1..] == items[k + 1..];
  }

  /** At the static-if whose condition is being evaluated the constants answer: what follows is not looked at. */
  lemma OwnStaticIfEnds(t: Table, p: Program, depth: nat, scopes: seq<Scope>, items: seq<Item>, external: bool, q: Query, k: nat)
    requires IsFirst(t, p, depth, scopes, items, external, q, k) && items[k].StaticIf? && q.ignored == TheStaticIf(items[k].id)
    ensures SearchItems(t, p, depth, scopes, items, external, q) == Search(Constant(scopes, q.name), true)
  {
    RestGoesOn(t, p, depth, scopes, items, external, q, k);
    assert items[k..][0] == items[k];
  }

  /** An undecided static-if that could have the name is waited for. */
  lemma UndecidedIsAwaited(t: Table, p: Program, depth: nat, scopes: seq<Scope>, items: seq<Item>, external: bool, q: Query, k: nat)
    requires IsFirst(t, p, depth, scopes, items, external, q, k) && items[k].StaticIf? && q.ignored != TheStaticIf(items[k].id)
    requires items[k].id !in t.conditions && CouldHave(items[k].items, q.name)
    ensures SearchItems(t, p, depth, scopes, items, external, q) == Search(Wait(StaticIfJob(items[k].id)), false)
  {
    FirstAnswers(t, p, depth, scopes, items, external, q, k);
  }

  /** A taken static-if answers with what is inside it, private or not, if that has the name. */
  lemma TakenIsSearched(t: Table, p: Program, depth: nat, scopes: seq<Scope>, items: seq<Item>, external: bool, q: Query, k: nat)
    requires IsFirst(t, p, depth, scopes, items, external, q, k) && items[k].StaticIf? && q.ignored != TheStaticIf(items[k].id)
    requires items[k].id in t.conditions && t.conditions[items[k].id]
    requires !SearchItems(t, p, depth, scopes, items[k].items, false, q).answer.NotFound?
    ensures SearchItems(t, p, depth, scopes, items, external, q) == SearchItems(t, p, depth, scopes, items[k].items, false, q)
  {
    FirstAnswers(t, p, depth, scopes, items, external, q, k);
  }

  /** A using of a file, exported if the search is from outside, answers with what the file has in public. */
  lemma UsedFileAnswers(t: Table, p: Program, depth: nat, scopes: seq<Scope>, items: seq<Item>, external: bool, q: Query, k: nat, file: nat)
    requires IsFirst(t, p, depth, scopes, items, external, q, k) && items[k].Using? && q.ignored != TheUsing(items[k].id) && depth > 0
    requires external ==> items[k].exported
    requires EvaluatePath(t, p, depth - 1, scopes, items[k].path, TheUsing(items[k].id)) == Found(FileModule(file)) && file < |p.files|
    requires !SearchItems(t, p, depth - 1, FileScope(p, file), p.files[file], true, Query(q.name, Nothing)).answer.NotFound?
    ensures SearchItems(t, p, depth, scopes, items, external, q).answer
         == SearchItems(t, p, depth - 1, FileScope(p, file), p.files[file], true, Query(q.name, Nothing)).answer
  {
    FirstAnswers(t, p, depth, scopes, items, external, q, k);
  }

  /** A using of an enum answers with the number of its variant of the name. */
  lemma UsedEnumAnswers(
    t: Table, p: Program, depth: nat, scopes: seq<Scope>, items: seq<Item>, external: bool, q: Query, k: nat, variants: seq<Variant>, v: nat
  )
    requires IsFirst(t, p, depth, scopes, items, external, q, k) && items[k].Using? && q.ignored != TheUsing(items[k].id) && depth > 0
    requires external ==> items[k].exported
    requires EvaluatePath(t, p, depth - 1, scopes, items[k].path, TheUsing(items[k].id)) == Found(EnumType(variants))
    requires v < |variants| && variants[v].name == q.name && forall w :: 0 <= w < v ==> variants[w].name != q.name
    ensures SearchItems(t, p, depth, scopes, items, external, q) == Search(Found(OtherValue(variants[v].number)), false)
  {
    FirstAnswers(t, p, depth, scopes, items, external, q, k);
    VariantIsFirst(variants, q.name);
    assert !forall w :: 0 <= w < |variants| ==> variants[w].name != q.name;
  }

  /** What a using names must be there, and must be a file or an enum. */
  lemma UsedMustBeThere(t: Table, p: Program, depth: nat, scopes: seq<Scope>, items: seq<Item>, external: bool, q: Query, k: nat)
    requires IsFirst(t, p, depth, scopes, items, external, q, k) && items[k].Using? && q.ignored != TheUsing(items[k].id) && depth > 0
    requires external ==> items[k].exported
    ensures var a := EvaluatePath(t, p, depth - 1, scopes, items[k].path, TheUsing(items[k].id));
            var s := SearchItems(t, p, depth, scopes, items, external, q);
            match a
            case Found(FileModule(_)) => true
            case Found(EnumType(_)) => true
            case Found(_) => s == Search(Error, false)
            case NotFound => s == Search(Error, false)
            case other => s == Search(other, false)
  {
    FirstAnswers(t, p, depth, scopes, items, external, q, k);
  }

  // ----- What is passed over -----

  /** Statements that are passed over, here and in any list: refused static-ifs, undecided ones that cannot have
      the name, and from outside usings that are not exported. */
  predicate IsPassedOver(t: Table, item: Item, external: bool, name: string) {
    match item
    case Using(_, exported, _) => external && !exported
    case StaticIf(id, inner) => if id in t.conditions then !t.conditions[id] else !CouldHave(inner, name)
    case Declaration(_, n, _, _) => n != name
    case OtherStatement(_) => true
  }

  lemma PassedOverIsSilent(t: Table, p: Program, depth: nat, scopes: seq<Scope>, item: Item, external: bool, q: Query)
    requires IsPassedOver(t, item, external, q.name) && !(item.StaticIf? && q.ignored == TheStaticIf(item.id))
    ensures IsSilent(t, p, depth, scopes, item, external, q)
  {
  }

  /** Leaving such a statement out changes nothing. */
  lemma PassedOverIsAbsent(
    t: Table, p: Program, depth: nat, scopes: seq<Scope>, before: seq<Item>, item: Item, after: seq<Item>, external: bool, q: Query
  )
    requires IsPassedOver(t, item, external, q.name) && !(item.StaticIf? && q.ignored == TheStaticIf(item.id))
    ensures SearchItems(t, p, depth, scopes, before + [item] + after, external, q) == SearchItems(t, p, depth, scopes, before + after, external, q)
  {
    DeclarationLeftOut(before, item, after, q.name);
    RestLeftOut(t, p, depth, scopes, before, item, after, external, q);
  }

  lemma {:induction false} DeclarationLeftOut(before: seq<Item>, item: Item, after: seq<Item>, name: string)
    requires !Declares(item, name)
    ensures FindDeclaration(before + [item] + after, name) == FindDeclaration(before + after, name)
    decreases |before|
  {
    if before == [] {
      assert ([] + [item] + after)[0] == item && ([] + [item] + after)[1..] == after && [] + after == after;
    } else {
      assert (before + [item] + after)[1..] == before[1..] + [item] + after && (before + after)[1..] == before[1..] + after;
      DeclarationLeftOut(before[1..], item, after, name);
    }
  }

  lemma {:induction false} RestLeftOut(
    t: Table, p: Program, depth: nat, scopes: seq<Scope>, before: seq<Item>, item: Item, after: seq<Item>, external: bool, q: Query
  )
    requires IsPassedOver(t, item, external, q.name) && !(item.StaticIf? && q.ignored == TheStaticIf(item.id))
    ensures SearchRest(t, p, depth, scopes, before + [item] + after, external, q) == SearchRest(t, p, depth, scopes, before + after, external, q)
    decreases |before|
  {
    if before == [] {
      var all := [] + [item] + after;
      assert all[0] == item && all[1..] == after && [] + after == after;
      PassedOverIsSilent(t, p, depth, scopes, item, external, q);
      assert all[..1] == [item];
      RestGoesOn(t, p, depth, scopes, all, external, q, 1);
    } else {
      assert (before + [item] + after)[1..] == before[1..] + [item] + after && (before + after)[1..] == before[1..] + after;
      RestLeftOut(t, p, depth, scopes, before[1..], item, after, external, q);
    }
  }

  // ----- Waiting is not in vain -----

  function StaticIfs(items: seq<Item>): set<nat>
    decreases items
  {
    if items == [] then {} else
    (if items[0].StaticIf? then {items[0].id} + StaticIfs(items[0].items) else {}) + StaticIfs(items[1..])
  }

  predicate TakesAll(t: Table, items: seq<Item>) {
    forall i :: i in items && i.StaticIf? ==> i.id in t.conditions && t.conditions[i.id] && TakesAll(t, i.items)
  }

  lemma {:induction false} AllCanBeTaken(t: Table, items: seq<Item>)
    requires forall id :: id in StaticIfs(items) ==> id in t.conditions && t.conditions[id]
    ensures TakesAll(t, items)
    decreases items
  {
    if items != [] {
      AllCanBeTaken(t, items[1..]);
      if items[0].StaticIf? {
        AllCanBeTaken(t, items[0].items);
      }
      assert forall i :: i in items ==> i == items[0] || i in items[1..];
    }
  }

  lemma {:induction false} TakenHas(t: Table, items: seq<Item>, name: string)
    requires TakesAll(t, items) && CouldHave(items, name)
    ensures !SearchItems(t, Program([], []), 0, [], items, false, Query(name, Nothing)).answer.NotFound?
    decreases items, 1
  {
    TakenRestHas(t, items, name);
  }

  lemma {:induction false} TakenRestHas(t: Table, items: seq<Item>, name: string)
    requires TakesAll(t, items) && CouldHave(items, name)
    ensures FindDeclaration(items, name).Some? || !SearchRest(t, Program([], []), 0, [], items, false, Query(name, Nothing)).answer.NotFound?
    decreases items, 0
  {
    var item := items[0];
    if ItemCouldHave(item, name) {
      if item.StaticIf? {
        TakenHas(t, item.items, name);
      }
    } else {
      var other :| other in items && ItemCouldHave(other, name);
      assert other in items[1..];
      TakenRestHas(t, items[1..], name);
      NeverReached(t, item, name);
    }
  }

  lemma {:induction false} NeverReached(t: Table, item: Item, name: string)
    requires item.StaticIf? ==> item.id in t.conditions && t.conditions[item.id] && !CouldHave(item.items, name)
    ensures !SearchItem(t, Program([], []), 0, [], item, false, Query(name, Nothing)).reached
  {
    if item.StaticIf? {
      CannotHave(t, Program([], []), 0, [], item.items, false, Query(name, Nothing));
    }
  }

  /** A static-if could have a name exactly if, decided in some way, it does: nothing else is waited for. */
  lemma CouldHaveExactly(items: seq<Item>, name: string)
    ensures CouldHave(items, name) <==>
            exists t: Table :: !SearchItems(t, Program([], []), 0, [], items, false, Query(name, Nothing)).answer.NotFound?
  {
    if CouldHave(items, name) {
      var t := Table(map[], map id | id in StaticIfs(items) :: true, {}, {});
      AllCanBeTaken(t, items);
      TakenHas(t, items, name);
    } else {
      forall t: Table
        ensures SearchItems(t, Program([], []), 0, [], items, false, Query(name, Nothing)).answer.NotFound?
      {
        CannotHave(t, Program([], []), 0, [], items, false, Query(name, Nothing));
      }
    }
  }
}
