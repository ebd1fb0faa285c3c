/** Looking a name up while the program is still being resolved. */
module NameLookup {
  import opened Options

  /** How a declaration gets its value: at once (a polymorphic function), when its file has been parsed
      (an import), or from a job of its own. */
  datatype Kind = Immediate | ImportOf(file: nat) | ByJob

  /** What a `using` brings in is named by a name or by members of what one names. */
  datatype Path = Name(name: string) | MemberOf(path: Path, member: string)

  /** A statement as name lookup sees it. */
  datatype Item =
    | Declaration(id: nat, name: string, isPublic: bool, kind: Kind)
    | Using(id: nat, exported: bool, path: Path)
    | StaticIf(id: nat, items: seq<Item>)
    | OtherStatement(id: nat)

  /** The variants of an enum are integers. */
  datatype Variant = Variant(name: string, number: nat)

  /** What a name stands for: a parsed file, an enum type, the function of a declaration, or something
      else, which is left abstract. */
  datatype Value = FileModule(file: nat) | EnumType(variants: seq<Variant>) | FunctionValue(declaration: nat) | OtherValue(id: nat)

  datatype Binding = Binding(name: string, value: Value)

  /** The top-level statements of every file, and the constants that are known everywhere. */
  datatype Program = Program(files: seq<seq<Item>>, globals: seq<Binding>)

  /** The finished part of the job table: resolved declarations, decided static-ifs, parsed files, and the
      functions among the declarations. */
  datatype Table = Table(declarations: map<nat, Value>, conditions: map<nat, bool>, parsed: set<nat>, functions: set<nat>)

  /** A scope has statements and constants; scopes are listed from the innermost one outwards. */
  datatype Scope = Scope(items: seq<Item>, constants: seq<Binding>)

  /** The statement whose own expression is being evaluated is passed over. */
  datatype Ignored = Nothing | TheDeclaration(id: nat) | TheUsing(id: nat) | TheStaticIf(id: nat)

  datatype Query = Query(name: string, ignored: Ignored)

  /** The job a search waits for. */
  datatype Pending = DeclarationJob(id: nat) | StaticIfJob(id: nat) | ParseJob(file: nat)

  /** `TooDeep` is recursion through usings beyond a given depth; the compiler has no limit. */
  datatype Answer = Found(value: Value) | NotFound | Wait(job: Pending) | Error | TooDeep

  /** An answer, and whether the statement to ignore was reached. */
  datatype Search = Search(answer: Answer, reached: bool)

  function FindBinding(bindings: seq<Binding>, name: string): (a: Answer)
    ensures a.Found? || a.NotFound?
  {
    if bindings == [] then NotFound
    else if bindings[0].name == name then Found(bindings[0].value)
    else FindBinding(bindings[1..], name)
  }

  function FindVariant(variants: seq<Variant>, name: string): (a: Answer)
    ensures a.NotFound? || (a.Found? && a.value.OtherValue?)
  {
    if variants == [] then NotFound
    else if variants[0].name == name then Found(OtherValue(variants[0].number))
    else FindVariant(variants[1..], name)
  }

  /** The declaration the hash table gives for a name: the first one. */
  function FindDeclaration(items: seq<Item>, name: string): (found: Option<Item>)
    ensures found.Some? ==> found.value.Declaration? && found.value.name == name && found.value in items
  {
    if items == [] then None
    else if items[0].Declaration? && items[0].name == name then Some(items[0])
    else FindDeclaration(items[1..], name)
  }

  function Resolve(t: Table, d: Item): Answer
    requires d.Declaration?
  {
    match d.kind
    case Immediate => Found(OtherValue(d.id))
    case ImportOf(file) => if file in t.parsed then Found(FileModule(file)) else Wait(ParseJob(file))
    case ByJob => if d.id in t.declarations then Found(t.declarations[d.id]) else Wait(DeclarationJob(d.id))
  }

  /** Could an undecided static-if declare the name? A using in it could bring in any name. */
  predicate CouldHave(items: seq<Item>, name: string) {
    exists i :: i in items && ItemCouldHave(i, name)
  }

  predicate ItemCouldHave(item: Item, name: string) {
    match item
    case Declaration(_, n, _, _) => n == name
    case Using(_, _, _) => true
    case StaticIf(_, items) => CouldHave(items, name)
    case OtherStatement(_) => false
  }

  /** What a name evaluates to must be there. */
  function Required(a: Answer): Answer {
    if a.NotFound? then Error else a
  }

  function FileScope(p: Program, file: nat): seq<Scope>
    requires file < |p.files|
  {
    [Scope(p.files[file], [])]
  }

  /** The search for a member of a file: from outside, for its public names, with nothing ignored. */
  function SearchFile(t: Table, p: Program, depth: nat, file: nat, name: string): Answer
    decreases depth, 1, 0
  {
    if file < |p.files| then SearchItems(t, p, depth, FileScope(p, file), p.files[file], true, Query(name, Nothing)).answer else Error
  }

  /** The value of a path in the innermost of the scopes. */
  function EvaluatePath(t: Table, p: Program, depth: nat, scopes: seq<Scope>, path: Path, ignored: Ignored): Answer
    decreases depth, 3, path
  {
    match path
    case Name(name) => Required(LookUp(t, p, depth, scopes, Query(name, ignored)))
    case MemberOf(inner, member) =>
      match EvaluatePath(t, p, depth, scopes, inner, ignored)
      case Found(FileModule(file)) => Required(SearchFile(t, p, depth, file, member))
      case Found(EnumType(variants)) => Required(FindVariant(variants, member))
      case Found(_) => Error
      case other => other
  }

  /** The scopes from the innermost outwards, then the constants known everywhere. */
  function LookUp(t: Table, p: Program, depth: nat, scopes: seq<Scope>, q: Query): Answer
    decreases depth, 2, |scopes|
  {
    if scopes == [] then FindBinding(p.globals, q.name)
    else
      var answer := SearchItems(t, p, depth, scopes, scopes[0].items, false, q).answer;
      if answer.NotFound? then LookUp(t, p, depth, scopes[1..], q) else answer
  }

  function Constant(scopes: seq<Scope>, name: string): (a: Answer)
    ensures a.Found? || a.NotFound?
  {
    if scopes == [] then NotFound else FindBinding(scopes[0].constants, name)
  }

  /** Search the statements of the innermost scope, or of a decided static-if in it. */
  function SearchItems(t: Table, p: Program, depth: nat, scopes: seq<Scope>, items: seq<Item>, external: bool, q: Query): Search
    decreases depth, 0, items, 1
  {
    var d := FindDeclaration(items, q.name);
    if d.Some? && TheDeclaration(d.value.id) != q.ignored then
      if external && !d.value.isPublic then Search(NotFound, false) else Search(Resolve(t, d.value), false)
    else SearchRest(t, p, depth, scopes, items, external, q)
  }

  function SearchRest(t: Table, p: Program, depth: nat, scopes: seq<Scope>, items: seq<Item>, external: bool, q: Query): Search
    decreases depth, 0, items, 0
  {
    if items == [] then Search(Constant(scopes, q.name), false)
    else if IsIgnored(items[0], q.ignored) then
      if items[0].StaticIf? then Search(Constant(scopes, q.name), true)
      else SearchRest(t, p, depth, scopes, items[1..], external, q)
    else
      var step := SearchItem(t, p, depth, scopes, items[0], external, q);
      if !step.answer.NotFound? then step
      else if step.reached then Search(Constant(scopes, q.name), true)
      else SearchRest(t, p, depth, scopes, items[1..], external, q)
  }

  predicate IsIgnored(item: Item, ignored: Ignored) {
    match item
    case Declaration(id, _, _, _) => ignored == TheDeclaration(id)
    case Using(id, _, _) => ignored == TheUsing(id)
    case StaticIf(id, _) => ignored == TheStaticIf(id)
    case OtherStatement(_) => false
  }

  /** One statement: NotFound means that the search goes on. A using's own expression is evaluated in the
      whole scope, the using itself ignored. */
  function SearchItem(t: Table, p: Program, depth: nat, scopes: seq<Scope>, item: Item, external: bool, q: Query): Search
    decreases depth, 0, item, 0
  {
    match item
    case Using(id, exported, path) =>
      if external && !exported then Search(NotFound, false)
      else if depth == 0 then Search(TooDeep, false)
      else
        (match EvaluatePath(t, p, depth - 1, scopes, path, TheUsing(id))
         case Found(FileModule(file)) => Search(SearchFile(t, p, depth - 1, file, q.name), false)
         case Found(EnumType(variants)) => Search(FindVariant(variants, q.name), false)
         case Found(_) => Search(Error, false)
         case other => Search(Required(other), false))
    case StaticIf(id, inner) =>
      if id !in t.conditions then Search(if CouldHave(inner, q.name) then Wait(StaticIfJob(id)) else NotFound, false)
      else if t.conditions[id] then SearchItems(t, p, depth, scopes, inner, false, q)
      else Search(NotFound, false)
    case _ => Search(NotFound, false)
  }

  // ----- Which scope answers -----

  /** What the scope at a place, with those around it, says of a name. */
  function ScopeAnswer(t: Table, p: Program, depth: nat, scopes: seq<Scope>, i: nat, q: Query): Answer
    requires i < |scopes|
  {
    SearchItems(t, p, depth, scopes[i..], scopes[i].items, false, q).answer
  }

  /** None of the scopes inside of the one at place `i` has the name. */
  predicate SilentWithin(t: Table, p: Program, depth: nat, scopes: seq<Scope>, i: nat, q: Query)
    requires i <= |scopes|
  {
    forall j :: 0 <= j < i ==> ScopeAnswer(t, p, depth, scopes, j, q).NotFound?
  }

  /** A name means what the innermost scope that has it says, however many scopes are in between; if none
      has it, what it means everywhere, where it must be. */
  ghost predicate Climbs(t: Table, p: Program, depth: nat, scopes: seq<Scope>, q: Query, a: Answer) {
    (forall i: nat :: i < |scopes| && SilentWithin(t, p, depth, scopes, i, q) && !ScopeAnswer(t, p, depth, scopes, i, q).NotFound? ==>
       a == ScopeAnswer(t, p, depth, scopes, i, q)) &&
    (SilentWithin(t, p, depth, scopes, |scopes|, q) ==> a == Required(FindBinding(p.globals, q.name)))
  }

  lemma {:induction false} LookUpClimbs(t: Table, p: Program, depth: nat, scopes: seq<Scope>, q: Query)
    ensures Climbs(t, p, depth, scopes, q, Required(LookUp(t, p, depth, scopes, q)))
    decreases |scopes|
  {
    if scopes != [] {
      assert scopes[0..] == scopes;
      LookUpClimbs(t, p, depth, scopes[1..], q);
      forall i: nat | i < |scopes[1..]|
        ensures ScopeAnswer(t, p, depth, scopes[1..], i, q) == ScopeAnswer(t, p, depth, scopes, i + 1, q)
      {
        assert scopes[1..][i..] == scopes[i + 1..];
      }
      forall i: nat | i < |scopes| && SilentWithin(t, p, depth, scopes, i, q) && !ScopeAnswer(t, p, depth, scopes, i, q).NotFound?
        ensures Required(LookUp(t, p, depth, scopes, q)) == ScopeAnswer(t, p, depth, scopes, i, q)
      {
        if i > 0 {
          assert ScopeAnswer(t, p, depth, scopes, 0, q).NotFound?;
          assert SilentWithin(t, p, depth, scopes[1..], i - 1, q);
        }
      }
      if SilentWithin(t, p, depth, scopes, |scopes|, q) {
        assert ScopeAnswer(t, p, depth, scopes, 0, q).NotFound?;
        assert SilentWithin(t, p, depth, scopes[1..], |scopes| - 1, q);
      }
    }
  }

  /** A member of a file is a public name of the file; a member of an enum is a variant; nothing else has members. */
  predicate IsMember(t: Table, p: Program, depth: nat, value: Answer, member: string, a: Answer) {
    match value
    case Found(FileModule(file)) =>
      a == if file < |p.files| then Required(SearchItems(t, p, depth, FileScope(p, file), p.files[file], true, Query(member, Nothing)).answer) else Error
    case Found(EnumType(variants)) => a == Required(FindVariant(variants, member))
    case Found(_) => a == Error
    case other => a == other
  }

  // ----- The search as it runs -----

  /** The statements in a loop that stops where the statement to ignore was reached. */
  method SearchForName(t: Table, p: Program, depth: nat, scopes: seq<Scope>, items: seq<Item>, external: bool, q: Query) returns (s: Search)
    ensures s == SearchItems(t, p, depth, scopes, items, external, q)
    decreases depth, 0, items, 1
  {
    var declaration := FindDeclaration(items, q.name);
    if declaration.Some? && TheDeclaration(declaration.value.id) != q.ignored {
      if external && !declaration.value.isPublic {
        return Search(NotFound, false);
      }
      return Search(Resolve(t, declaration.value), false);
    }
    var reached, i := false, 0;
    assert items[0..] == items;
    while i < |items| && !reached
      invariant 0 <= i <= |items|
      invariant SearchRest(t, p, depth, scopes, items, external, q) ==
                if reached then Search(Constant(scopes, q.name), true) else SearchRest(t, p, depth, scopes, items[i..], external, q)
    {
      assert items[i..][0] == items[i] && items[i..][1..] == items[i + 1..];
      if IsIgnored(items[i], q.ignored) {
        reached := items[i].StaticIf?;
      } else {
        var step := SearchStatement(t, p, depth, scopes, items[i], external, q);
        if !step.answer.NotFound? {
          return step;
        }
        reached := step.reached;
      }
      i := i + 1;
    }
    assert !reached ==> items[i..] == [];
    s := Search(Constant(scopes, q.name), reached);
  }

  method SearchStatement(t: Table, p: Program, depth: nat, scopes: seq<Scope>, item: Item, external: bool, q: Query) returns (s: Search)
    ensures s == SearchItem(t, p, depth, scopes, item, external, q)
    decreases depth, 0, item, 0
  {
    match item
    case Using(id, exported, path) =>
      if external && !exported {
        s := Search(NotFound, false);
      } else if depth == 0 {
        s := Search(TooDeep, false);
      } else {
        var value := EvaluateName(t, p, depth - 1, scopes, path, TheUsing(id));
        match value {
          case Found(FileModule(file)) =>
            if file < |p.files| {
              s := SearchForName(t, p, depth - 1, FileScope(p, file), p.files[file], true, Query(q.name, Nothing));
              s := Search(s.answer, false);
            } else {
              s := Search(Error, false);
            }
          case Found(EnumType(variants)) => s := Search(FindVariant(variants, q.name), false);
          case Found(_) => s := Search(Error, false);
          case other => s := Search(Required(other), false);
        }
      }
    case StaticIf(id, inner) =>
      if id !in t.conditions {
        s := Search(if CouldHave(inner, q.name) then Wait(StaticIfJob(id)) else NotFound, false);
      } else if t.conditions[id] {
        s := SearchForName(t, p, depth, scopes, inner, false, q);
      } else {
        s := Search(NotFound, false);
      }
    case _ => s := Search(NotFound, false);
  }

  /** The evaluation of a name climbs the scopes in a loop. */
  method EvaluateName(t: Table, p: Program, depth: nat, scopes: seq<Scope>, path: Path, ignored: Ignored) returns (answer: Answer)
    ensures answer == EvaluatePath(t, p, depth, scopes, path, ignored)
    ensures path.Name? ==> Climbs(t, p, depth, scopes, Query(path.name, ignored), answer)
    ensures path.MemberOf? ==> IsMember(t, p, depth, EvaluatePath(t, p, depth, scopes, path.path, ignored), path.member, answer)
    decreases depth, 1, path
  {
    match path
    case Name(name) =>
      var q, i := Query(name, ignored), 0;
      LookUpClimbs(t, p, depth, scopes, q);
      assert scopes[0..] == scopes;
      while i < |scopes|
        invariant 0 <= i <= |scopes|
        invariant LookUp(t, p, depth, scopes, q) == LookUp(t, p, depth, scopes[i..], q)
      {
        assert scopes[i..][0] == scopes[i] && scopes[i..][1..] == scopes[i + 1..];
        var s := SearchForName(t, p, depth, scopes[i..], scopes[i].items, false, q);
        if !s.answer.NotFound? {
          return s.answer;
        }
        i := i + 1;
      }
      assert scopes[i..] == [];
      answer := Required(FindBinding(p.globals, name));
    case MemberOf(inner, member) =>
      var value := EvaluateName(t, p, depth, scopes, inner, ignored);
      match value {
        case Found(FileModule(file)) =>
          if file < |p.files| {
            var s := SearchForName(t, p, depth, FileScope(p, file), p.files[file], true, Query(member, Nothing));
            answer := Required(s.answer);
          } else {
            answer := Error;
          }
        case Found(EnumType(variants)) => answer := Required(FindVariant(variants, member));
        case Found(_) => answer := Error;
        case other => answer := other;
      }
  }

  // ----- The depth does not matter -----

  /** A deeper search gives the same, unless this one was cut off. */
  predicate SameAnswer(a: Answer, deeper: Answer) {
    a.TooDeep? || deeper == a
  }

  predicate SameSearch(s: Search, deeper: Search) {
    s.answer.TooDeep? || deeper == s
  }

  lemma {:induction false} FileSearchDeeper(t: Table, p: Program, depth: nat, depth': nat, file: nat, name: string)
    requires depth <= depth'
    ensures SameAnswer(SearchFile(t, p, depth, file, name), SearchFile(t, p, depth', file, name))
    decreases depth, 1, 0
  {
    if file < |p.files| {
      SearchDeeper(t, p, depth, depth', FileScope(p, file), p.files[file], true, Query(name, Nothing));
    }
  }

  lemma {:induction false} PathDeeper(t: Table, p: Program, depth: nat, depth': nat, scopes: seq<Scope>, path: Path, ignored: Ignored)
    requires depth <= depth'
    ensures SameAnswer(EvaluatePath(t, p, depth, scopes, path, ignored), EvaluatePath(t, p, depth', scopes, path, ignored))
    decreases depth, 3, path
  {
    match path
    case Name(name) => LookUpDeeper(t, p, depth, depth', scopes, Query(name, ignored));
    case MemberOf(inner, member) =>
      PathDeeper(t, p, depth, depth', scopes, inner, ignored);
      match EvaluatePath(t, p, depth, scopes, inner, ignored) {
        case Found(FileModule(file)) => FileSearchDeeper(t, p, depth, depth', file, member);
        case _ =>
      }
  }

  lemma {:induction false} LookUpDeeper(t: Table, p: Program, depth: nat, depth': nat, scopes: seq<Scope>, q: Query)
    requires depth <= depth'
    ensures SameAnswer(LookUp(t, p, depth, scopes, q), LookUp(t, p, depth', scopes, q))
    decreases depth, 2, |scopes|
  {
    if scopes != [] {
      SearchDeeper(t, p, depth, depth', scopes, scopes[0].items, false, q);
      LookUpDeeper(t, p, depth, depth', scopes[1..], q);
    }
  }

  /** However deep a search is allowed to go, its answer is the same once it is deep enough. */
  lemma {:induction false} SearchDeeper(
    t: Table, p: Program, depth: nat, depth': nat, scopes: seq<Scope>, items: seq<Item>, external: bool, q: Query
  )
    requires depth <= depth'
    ensures SameSearch(SearchItems(t, p, depth, scopes, items, external, q), SearchItems(t, p, depth', scopes, items, external, q))
    decreases depth, 0, items, 1
  {
    RestDeeper(t, p, depth, depth', scopes, items, external, q);
  }

  lemma {:induction false} RestDeeper(t: Table, p: Program, depth: nat, depth': nat, scopes: seq<Scope>, items: seq<Item>, external: bool, q: Query)
    requires depth <= depth'
    ensures SameSearch(SearchRest(t, p, depth, scopes, items, external, q), SearchRest(t, p, depth', scopes, items, external, q))
    decreases depth, 0, items, 0
  {
    if items != [] {
      ItemDeeper(t, p, depth, depth', scopes, items[0], external, q);
      RestDeeper(t, p, depth, depth', scopes, items[1..], external, q);
    }
  }

  lemma {:induction false} ItemDeeper(t: Table, p: Program, depth: nat, depth': nat, scopes: seq<Scope>, item: Item, external: bool, q: Query)
    requires depth <= depth'
    ensures SameSearch(SearchItem(t, p, depth, scopes, item, external, q), SearchItem(t, p, depth', scopes, item, external, q))
    decreases depth, 0, item, 0
  {
    match item
    case Using(id, exported, path) =>
      if depth > 0 {
        PathDeeper(t, p, depth - 1, depth' - 1, scopes, path, TheUsing(id));
        match EvaluatePath(t, p, depth - 1, scopes, path, TheUsing(id)) {
          case Found(FileModule(file)) => FileSearchDeeper(t, p, depth - 1, depth' - 1, file, q.name);
          case _ =>
        }
      }
    case StaticIf(_, inner) => SearchDeeper(t, p, depth, depth', scopes, inner, false, q);
    case _ =>
  }

  // ----- What is awaited -----

  predicate IsDone(t: Table, job: Pending) {
    match job
    case DeclarationJob(id) => id in t.declarations
    case StaticIfJob(id) => id in t.conditions
    case ParseJob(file) => file in t.parsed
  }

  /** The scopes that have been processed so far have a job for every statement that needs one: those in
      taken static-ifs as well. */
  predicate Covered(t: Table, known: set<Pending>, items: seq<Item>) {
    forall i :: i in items ==> ItemCovered(t, known, i)
  }

  predicate ItemCovered(t: Table, known: set<Pending>, item: Item) {
    match item
    case Declaration(id, _, _, ByJob) => DeclarationJob(id) in known
    case Declaration(_, _, _, ImportOf(file)) => ParseJob(file) in known
    case StaticIf(id, inner) => StaticIfJob(id) in known && (id in t.conditions && t.conditions[id] ==> Covered(t, known, inner))
    case _ => true
  }

  /** A value is no file that has not been parsed and no function that has not been resolved. */
  predicate Known(t: Table, v: Value) {
    match v
    case FileModule(file) => file in t.parsed
    case FunctionValue(id) => id in t.functions
    case _ => true
  }

  predicate AllKnown(t: Table, bindings: seq<Binding>) {
    forall b :: b in bindings ==> Known(t, b.value)
  }

  /** Whatever a search can meet has a job, and no value is of a file that has not been parsed. */
  ghost predicate Prepared(t: Table, p: Program, known: set<Pending>) {
    (forall f :: f in t.parsed && f < |p.files| ==> Covered(t, known, p.files[f])) &&
    (forall d :: d in t.declarations ==> Known(t, t.declarations[d])) && AllKnown(t, p.globals)
  }

  predicate ScopesCovered(t: Table, known: set<Pending>, scopes: seq<Scope>) {
    forall s :: s in scopes ==> Covered(t, known, s.items) && AllKnown(t, s.constants)
  }

  /** The awaited job exists and is not done; what is found is known. */
  predicate Sensible(t: Table, known: set<Pending>, a: Answer) {
    (a.Wait? ==> a.job in known && !IsDone(t, a.job)) && (a.Found? ==> Known(t, a.value))
  }

  lemma {:induction false} BindingSensible(t: Table, known: set<Pending>, bindings: seq<Binding>, name: string)
    requires AllKnown(t, bindings)
    ensures Sensible(t, known, FindBinding(bindings, name))
  {
    if bindings != [] {
      BindingSensible(t, known, bindings[1..], name);
    }
  }

  lemma ConstantSensible(t: Table, known: set<Pending>, scopes: seq<Scope>, name: string)
    requires ScopesCovered(t, known, scopes)
    ensures Sensible(t, known, Constant(scopes, name))
  {
    if scopes != [] {
      assert scopes[0] in scopes;
      BindingSensible(t, known, scopes[0].constants, name);
    }
  }

  lemma {:induction false} FileSearchSensible(t: Table, p: Program, known: set<Pending>, depth: nat, file: nat, name: string)
    requires Prepared(t, p, known) && file in t.parsed
    ensures Sensible(t, known, SearchFile(t, p, depth, file, name))
    decreases depth, 1, 0
  {
    if file < |p.files| {
      SearchSensible(t, p, known, depth, FileScope(p, file), p.files[file], true, Query(name, Nothing));
    }
  }

  lemma {:induction false} PathSensible(t: Table, p: Program, known: set<Pending>, depth: nat, scopes: seq<Scope>, path: Path, ignored: Ignored)
    requires Prepared(t, p, known) && ScopesCovered(t, known, scopes)
    ensures Sensible(t, known, EvaluatePath(t, p, depth, scopes, path, ignored))
    decreases depth, 3, path
  {
    match path
    case Name(name) => LookUpSensible(t, p, known, depth, scopes, Query(name, ignored));
    case MemberOf(inner, member) =>
      PathSensible(t, p, known, depth, scopes, inner, ignored);
      match EvaluatePath(t, p, depth, scopes, inner, ignored) {
        case Found(FileModule(file)) => FileSearchSensible(t, p, known, depth, file, member);
        case _ =>
      }
  }

  lemma {:induction false} LookUpSensible(t: Table, p: Program, known: set<Pending>, depth: nat, scopes: seq<Scope>, q: Query)
    requires Prepared(t, p, known) && ScopesCovered(t, known, scopes)
    ensures Sensible(t, known, LookUp(t, p, depth, scopes, q))
    decreases depth, 2, |scopes|
  {
    if scopes == [] {
      BindingSensible(t, known, p.globals, q.name);
    } else {
      assert scopes[0] in scopes;
      SearchSensible(t, p, known, depth, scopes, scopes[0].items, false, q);
      LookUpSensible(t, p, known, depth, scopes[1..], q);
    }
  }

  /** In scopes that have been processed a search waits only for jobs that exist and are not done. */
  lemma {:induction false} SearchSensible(
    t: Table, p: Program, known: set<Pending>, depth: nat, scopes: seq<Scope>, items: seq<Item>, external: bool, q: Query
  )
    requires Prepared(t, p, known) && ScopesCovered(t, known, scopes) && Covered(t, known, items)
    ensures Sensible(t, known, SearchItems(t, p, depth, scopes, items, external, q).answer)
    decreases depth, 0, items, 1
  {
    var d := FindDeclaration(items, q.name);
    if d.Some? {
      assert ItemCovered(t, known, d.value);
    }
    RestSensible(t, p, known, depth, scopes, items, external, q);
  }

  lemma {:induction false} RestSensible(
    t: Table, p: Program, known: set<Pending>, depth: nat, scopes: seq<Scope>, items: seq<Item>, external: bool, q: Query
  )
    requires Prepared(t, p, known) && ScopesCovered(t, known, scopes) && Covered(t, known, items)
    ensures Sensible(t, known, SearchRest(t, p, depth, scopes, items, external, q).answer)
    decreases depth, 0, items, 0
  {
    ConstantSensible(t, known, scopes, q.name);
    if items != [] {
      assert ItemCovered(t, known, items[0]);
      ItemSensible(t, p, known, depth, scopes, items[0], external, q);
      RestSensible(t, p, known, depth, scopes, items[1..], external, q);
    }
  }

  lemma {:induction false} ItemSensible(t: Table, p: Program, known: set<Pending>, depth: nat, scopes: seq<Scope>, item: Item, external: bool, q: Query)
    requires Prepared(t, p, known) && ScopesCovered(t, known, scopes) && ItemCovered(t, known, item)
    ensures Sensible(t, known, SearchItem(t, p, depth, scopes, item, external, q).answer)
    decreases depth, 0, item, 0
  {
    match item
    case Using(id, exported, path) =>
      if depth > 0 {
        PathSensible(t, p, known, depth - 1, scopes, path, TheUsing(id));
        match EvaluatePath(t, p, depth - 1, scopes, path, TheUsing(id)) {
          case Found(FileModule(file)) => FileSearchSensible(t, p, known, depth - 1, file, q.name);
          case _ =>
        }
      }
    case StaticIf(id, inner) =>
      if id in t.conditions && t.conditions[id] {
        SearchSensible(t, p, known, depth, scopes, inner, false, q);
      }
    case _ =>
  }

  // ----- Tables only grow -----

  /** More jobs are done; what was done stays as it is. */
  predicate Extends(t: Table, t': Table) {
    (forall d :: d in t.declarations ==> d in t'.declarations && t'.declarations[d] == t.declarations[d]) &&
    (forall c :: c in t.conditions ==> c in t'.conditions && t'.conditions[c] == t.conditions[c]) &&
    t.parsed <= t'.parsed && t.functions <= t'.functions
  }

  /** Is the static-if with this number among the items or inside one of them? */
  predicate Mentions(items: seq<Item>, id: nat) {
    exists i :: i in items && ItemMentions(i, id)
  }

  predicate ItemMentions(item: Item, id: nat) {
    item.StaticIf? && (item.id == id || Mentions(item.items, id))
  }

  /** The static-ifs around the one whose condition is evaluated have been taken: otherwise it would have
      no job yet. */
  predicate IgnoredIsLive(t: Table, items: seq<Item>, ignored: Ignored) {
    ignored.TheStaticIf? ==> forall i :: i in items ==> ItemIgnoredIsLive(t, i, ignored)
  }

  predicate ItemIgnoredIsLive(t: Table, item: Item, ignored: Ignored)
    requires ignored.TheStaticIf?
  {
    item.StaticIf? && item.id != ignored.id && Mentions(item.items, ignored.id) ==>
      item.id in t.conditions && t.conditions[item.id] && IgnoredIsLive(t, item.items, ignored)
  }

  predicate AllLive(t: Table, scopes: seq<Scope>, ignored: Ignored) {
    forall s :: s in scopes ==> IgnoredIsLive(t, s.items, ignored)
  }

  function Root(path: Path): string {
    match path
    case Name(name) => name
    case MemberOf(inner, _) => Root(inner)
  }

  /** No using names one of these constants. */
  predicate Avoids(items: seq<Item>, constants: set<string>) {
    forall i :: i in items ==> ItemAvoids(i, constants)
  }

  predicate ItemAvoids(item: Item, constants: set<string>) {
    match item
    case Using(_, _, path) => Root(path) !in constants
    case StaticIf(_, items) => Avoids(items, constants)
    case _ => true
  }

  /** All constants of the scopes have names in `constants`, which no using names. */
  predicate ConstantsApart(scopes: seq<Scope>, constants: set<string>) {
    forall s :: s in scopes ==> Avoids(s.items, constants) && forall b :: b in s.constants ==> b.name in constants
  }

  lemma {:induction false} NoBinding(bindings: seq<Binding>, name: string)
    requires forall b :: b in bindings ==> b.name != name
    ensures FindBinding(bindings, name).NotFound?
  {
    if bindings != [] {
      assert bindings[0] in bindings;
      NoBinding(bindings[1..], name);
    }
  }

  lemma NoConstant(scopes: seq<Scope>, constants: set<string>, name: string)
    requires ConstantsApart(scopes, constants) && name !in constants
    ensures Constant(scopes, name).NotFound?
  {
    if scopes != [] {
      assert scopes[0] in scopes;
      NoBinding(scopes[0].constants, name);
    }
  }

  /** Whatever else is decided, a static-if that cannot have the name does not have it. */
  lemma {:induction false} CannotHave(t: Table, p: Program, depth: nat, scopes: seq<Scope>, items: seq<Item>, external: bool, q: Query)
    requires !CouldHave(items, q.name) && Constant(scopes, q.name).NotFound? && (q.ignored.TheStaticIf? ==> !Mentions(items, q.ignored.id))
    ensures SearchItems(t, p, depth, scopes, items, external, q) == Search(NotFound, false)
    decreases items, 1
  {
    var d := FindDeclaration(items, q.name);
    if d.Some? {
      assert ItemCouldHave(d.value, q.name);
    }
    CannotHaveRest(t, p, depth, scopes, items, external, q);
  }

  lemma {:induction false} CannotHaveRest(t: Table, p: Program, depth: nat, scopes: seq<Scope>, items: seq<Item>, external: bool, q: Query)
    requires !CouldHave(items, q.name) && Constant(scopes, q.name).NotFound? && (q.ignored.TheStaticIf? ==> !Mentions(items, q.ignored.id))
    ensures SearchRest(t, p, depth, scopes, items, external, q) == Search(NotFound, false)
    decreases items, 0
  {
    if items != [] {
      var item := items[0];
      assert item in items && !ItemCouldHave(item, q.name);
      if q.ignored.TheStaticIf? {
        assert !ItemMentions(item, q.ignored.id);
      }
      if item.StaticIf? {
        CannotHave(t, p, depth, scopes, item.items, false, q);
      }
      CannotHaveRest(t, p, depth, scopes, items[1..], external, q);
    }
  }

  /** The answer is the same in a later table, unless it is to wait and what is awaited is done there. */
  predicate AnswerStays(t': Table, a: Answer, a': Answer) {
    a' == a || (a.Wait? && IsDone(t', a.job))
  }

  predicate Stays(t': Table, s: Search, s': Search) {
    s' == s || (s.answer.Wait? && IsDone(t', s.answer.job))
  }

  lemma {:induction false} FileSearchStays(t: Table, t': Table, p: Program, depth: nat, file: nat, name: string)
    requires Extends(t, t')
    ensures AnswerStays(t', SearchFile(t, p, depth, file, name), SearchFile(t', p, depth, file, name))
    decreases depth, 1, 0
  {
    if file < |p.files| {
      AvoidsNothing(p.files[file]);
      SearchItemsStays(t, t', p, depth, FileScope(p, file), {}, p.files[file], true, Query(name, Nothing));
    }
  }

  lemma {:induction false} AvoidsNothing(items: seq<Item>)
    ensures Avoids(items, {})
    decreases items
  {
    forall i | i in items
      ensures ItemAvoids(i, {})
    {
      if i.StaticIf? {
        AvoidsNothing(i.items);
      }
    }
  }

  lemma {:induction false} PathStays(
    t: Table, t': Table, p: Program, depth: nat, scopes: seq<Scope>, constants: set<string>, path: Path, ignored: Ignored
  )
    requires Extends(t, t') && ConstantsApart(scopes, constants) && Root(path) !in constants && AllLive(t, scopes, ignored)
    ensures AnswerStays(t', EvaluatePath(t, p, depth, scopes, path, ignored), EvaluatePath(t', p, depth, scopes, path, ignored))
    decreases depth, 3, path
  {
    match path
    case Name(name) => LookUpStays(t, t', p, depth, scopes, constants, Query(name, ignored));
    case MemberOf(inner, member) =>
      PathStays(t, t', p, depth, scopes, constants, inner, ignored);
      match EvaluatePath(t, p, depth, scopes, inner, ignored) {
        case Found(FileModule(file)) => FileSearchStays(t, t', p, depth, file, member);
        case _ =>
      }
  }

  lemma {:induction false} LookUpStays(t: Table, t': Table, p: Program, depth: nat, scopes: seq<Scope>, constants: set<string>, q: Query)
    requires Extends(t, t') && ConstantsApart(scopes, constants) && q.name !in constants && AllLive(t, scopes, q.ignored)
    ensures AnswerStays(t', LookUp(t, p, depth, scopes, q), LookUp(t', p, depth, scopes, q))
    decreases depth, 2, |scopes|
  {
    if scopes != [] {
      assert scopes[0] in scopes;
      SearchItemsStays(t, t', p, depth, scopes, constants, scopes[0].items, false, q);
      LookUpStays(t, t', p, depth, scopes[1..], constants, q);
    }
  }

  lemma {:induction false} SearchItemsStays(
    t: Table, t': Table, p: Program, depth: nat, scopes: seq<Scope>, constants: set<string>, items: seq<Item>, external: bool, q: Query
  )
    requires Extends(t, t') && ConstantsApart(scopes, constants) && Avoids(items, constants) && q.name !in constants
    requires IgnoredIsLive(t, items, q.ignored)
    ensures Stays(t', SearchItems(t, p, depth, scopes, items, external, q), SearchItems(t', p, depth, scopes, items, external, q))
    decreases depth, 0, items, 1
  {
    SearchRestStays(t, t', p, depth, scopes, constants, items, external, q);
  }

  lemma {:induction false} SearchRestStays(
    t: Table, t': Table, p: Program, depth: nat, scopes: seq<Scope>, constants: set<string>, items: seq<Item>, external: bool, q: Query
  )
    requires Extends(t, t') && ConstantsApart(scopes, constants) && Avoids(items, constants) && q.name !in constants
    requires IgnoredIsLive(t, items, q.ignored)
    ensures Stays(t', SearchRest(t, p, depth, scopes, items, external, q), SearchRest(t', p, depth, scopes, items, external, q))
    decreases depth, 0, items, 0
  {
    if items != [] {
      assert items[0] in items;
      SearchRestStays(t, t', p, depth, scopes, constants, items[1..], external, q);
      if !IsIgnored(items[0], q.ignored) {
        SearchItemStays(t, t', p, depth, scopes, constants, items[0], external, q);
      }
    }
  }

  lemma {:induction false} SearchItemStays(
    t: Table, t': Table, p: Program, depth: nat, scopes: seq<Scope>, constants: set<string>, item: Item, external: bool, q: Query
  )
    requires Extends(t, t') && ConstantsApart(scopes, constants) && ItemAvoids(item, constants) && q.name !in constants
    requires !IsIgnored(item, q.ignored) && (q.ignored.TheStaticIf? ==> ItemIgnoredIsLive(t, item, q.ignored))
    ensures Stays(t', SearchItem(t, p, depth, scopes, item, external, q), SearchItem(t', p, depth, scopes, item, external, q))
    decreases depth, 0, item, 0
  {
    match item
    case Using(id, exported, path) =>
      if depth > 0 {
        PathStays(t, t', p, depth - 1, scopes, constants, path, TheUsing(id));
        match EvaluatePath(t, p, depth - 1, scopes, path, TheUsing(id)) {
          case Found(FileModule(file)) => FileSearchStays(t, t', p, depth - 1, file, q.name);
          case _ =>
        }
      }
    case StaticIf(id, inner) =>
      if id in t.conditions {
        if t.conditions[id] {
          InnerIgnoredIsLive(t, item, q.ignored);
          SearchItemsStays(t, t', p, depth, scopes, constants, inner, false, q);
        }
      } else if !CouldHave(inner, q.name) {
        NoConstant(scopes, constants, q.name);
        CannotHave(t', p, depth, scopes, inner, false, q);
      }
    case _ =>
  }

  lemma {:induction false} InnerIgnoredIsLive(t: Table, item: Item, ignored: Ignored)
    requires item.StaticIf? && !IsIgnored(item, ignored) && (ignored.TheStaticIf? ==> ItemIgnoredIsLive(t, item, ignored))
    ensures IgnoredIsLive(t, item.items, ignored)
  {
    if ignored.TheStaticIf? && !Mentions(item.items, ignored.id) {
      forall i | i in item.items
        ensures ItemIgnoredIsLive(t, i, ignored)
      {
        assert !ItemMentions(i, ignored.id);
      }
    }
  }

  /** Once a name has been found or not found, every later job table gives the same answer; while it is
      awaited, every one in which the same job is still not done. */
  lemma AnswerIsStable(t: Table, t': Table, p: Program, depth: nat, scopes: seq<Scope>, constants: set<string>, q: Query)
    requires Extends(t, t') && ConstantsApart(scopes, constants) && q.name !in constants && AllLive(t, scopes, q.ignored)
    requires LookUp(t, p, depth, scopes, q).Wait? ==> !IsDone(t', LookUp(t, p, depth, scopes, q).job)
    ensures LookUp(t', p, depth, scopes, q) == LookUp(t, p, depth, scopes, q)
  {
    LookUpStays(t, t', p, depth, scopes, constants, q);
  }

  /** Two schedules of the same jobs that both have an answer have the same one: that of the fully resolved
      program. How deep they follow usings does not matter either. */
  lemma OrderDoesNotMatter(
    t1: Table, t2: Table, final: Table, p: Program, depth1: nat, depth2: nat, scopes: seq<Scope>, constants: set<string>, q: Query
  )
    requires Extends(t1, final) && Extends(t2, final) && ConstantsApart(scopes, constants) && q.name !in constants
    requires AllLive(t1, scopes, q.ignored) && AllLive(t2, scopes, q.ignored)
    requires var a := LookUp(t1, p, depth1, scopes, q); !a.Wait? && !a.TooDeep?
    requires var a := LookUp(t2, p, depth2, scopes, q); !a.Wait? && !a.TooDeep?
    ensures LookUp(t1, p, depth1, scopes, q) == LookUp(t2, p, depth2, scopes, q)
    ensures forall depth: nat :: depth >= depth1 ==> LookUp(final, p, depth, scopes, q) == LookUp(t1, p, depth1, scopes, q)
  {
    LookUpStays(t1, final, p, depth1, scopes, constants, q);
    LookUpStays(t2, final, p, depth2, scopes, constants, q);
    forall depth: nat | depth >= depth1
      ensures LookUp(final, p, depth, scopes, q) == LookUp(t1, p, depth1, scopes, q)
    {
      LookUpDeeper(final, p, depth1, depth, scopes, q);
    }
    if depth1 <= depth2 {
      LookUpDeeper(final, p, depth1, depth2, scopes, q);
    } else {
      LookUpDeeper(final, p, depth2, depth1, scopes, q);
    }
  }

  // ----- Scope constants -----

  ghost predicate AlwaysStable(name: string, constants: seq<Binding>) {
    forall t: Table, t': Table, p: Program, depth: nat, items: seq<Item> | Extends(t, t') ::
      AnswerStays(t', LookUp(t, p, depth, [Scope(items, constants)], Query(name, Nothing)), LookUp(t', p, depth, [Scope(items, constants)], Query(name, Nothing)))
  }

  /** An undecided static-if, a using of the imported file `e` and a using of `k`. */
  function AwkwardItems(k: string, e: string): seq<Item> {
    [StaticIf(0, []), Using(1, false, Name(e)), Using(2, false, Name(k)), Declaration(3, e, false, ImportOf(0))]
  }

  /** The file declares the enum `k` with a variant `name`. */
  function AwkwardProgram(k: string): Program {
    Program([[Declaration(4, k, true, ByJob)]], [])
  }

  function EnumOf(name: string, x: nat): Value {
    EnumType([Variant(name, x)])
  }

  function AwkwardTable(name: string, x: nat, taken: bool): Table {
    Table(map[4 := EnumOf(name, x)], if taken then map[0 := true] else map[], {0}, {})
  }

  /** What the file has under a name. */
  function InFile(k: string, name: string, x: nat, wanted: string): Answer {
    if wanted == k then Found(EnumOf(name, x)) else NotFound
  }

  lemma FileAnswers(k: string, name: string, x: nat, taken: bool, depth: nat, wanted: string)
    ensures SearchFile(AwkwardTable(name, x, taken), AwkwardProgram(k), depth, 0, wanted) == InFile(k, name, x, wanted)
  {
    var t, p, q := AwkwardTable(name, x, taken), AwkwardProgram(k), Query(wanted, Nothing);
    var items, scopes := p.files[0], FileScope(p, 0);
    assert items == [Declaration(4, k, true, ByJob)] && items[1..] == [];
    if wanted == k {
      assert FindDeclaration(items, wanted) == Some(items[0]);
      assert SearchItems(t, p, depth, scopes, items, true, q).answer == Found(EnumOf(name, x));
    } else {
      assert FindDeclaration(items[1..], wanted) == None;
      assert SearchItem(t, p, depth, scopes, items[0], true, q) == Search(NotFound, false);
      assert Constant(scopes, wanted) == NotFound;
      assert SearchRest(t, p, depth, scopes, items[1..], true, q) == Search(NotFound, false);
      assert SearchRest(t, p, depth, scopes, items, true, q) == Search(NotFound, false);
    }
  }

  lemma NotDeclared(k: string, e: string, name: string)
    ensures FindDeclaration(AwkwardItems(k, e), name) == if name == e then Some(AwkwardItems(k, e)[3]) else None
  {
    var items := AwkwardItems(k, e);
    assert items[1..][1..][1..] == [items[3]] && [items[3]][1..] == [];
    assert FindDeclaration([items[3]], name) == if name == e then Some(items[3]) else None;
    assert FindDeclaration(items[1..][1..], name) == FindDeclaration([items[3]], name);
    assert FindDeclaration(items[1..], name) == FindDeclaration([items[3]], name);
  }

  /** The first using searches the file. */
  lemma FirstUsing(k: string, name: string, e: string, x: nat, taken: bool, depth: nat, scopes: seq<Scope>, q: Query)
    requires depth > 0 && scopes != [] && scopes[0].items == AwkwardItems(k, e)
    ensures SearchItem(AwkwardTable(name, x, taken), AwkwardProgram(k), depth, scopes, AwkwardItems(k, e)[1], false, q)
         == Search(InFile(k, name, x, q.name), false)
  {
    var t, p := AwkwardTable(name, x, taken), AwkwardProgram(k);
    NotDeclared(k, e, e);
    assert SearchItems(t, p, depth - 1, scopes, scopes[0].items, false, Query(e, TheUsing(1))).answer == Found(FileModule(0));
    assert LookUp(t, p, depth - 1, scopes, Query(e, TheUsing(1))) == Found(FileModule(0));
    assert EvaluatePath(t, p, depth - 1, scopes, Name(e), TheUsing(1)) == Found(FileModule(0));
    FileAnswers(k, name, x, taken, depth - 1, q.name);
  }

  /** While the static-if is undecided, `k` is the enum of the file. */
  lemma KIsEnum(k: string, name: string, e: string, x: nat, constants: seq<Binding>)
    requires e != k
    ensures EvaluatePath(AwkwardTable(name, x, false), AwkwardProgram(k), 1, [Scope(AwkwardItems(k, e), constants)], Name(k), TheUsing(2))
         == Found(EnumOf(name, x))
  {
    var items, t, p, q := AwkwardItems(k, e), AwkwardTable(name, x, false), AwkwardProgram(k), Query(k, TheUsing(2));
    var scopes := [Scope(items, constants)];
    NotDeclared(k, e, k);
    FirstUsing(k, name, e, x, false, 1, scopes, q);
    assert items[1..][0] == items[1];
    assert SearchItem(t, p, 1, scopes, items[0], false, q) == Search(NotFound, false);
    assert SearchRest(t, p, 1, scopes, items[1..], false, q).answer == Found(EnumOf(name, x));
    assert SearchRest(t, p, 1, scopes, items, false, q).answer == Found(EnumOf(name, x));
    assert LookUp(t, p, 1, scopes, q) == Found(EnumOf(name, x));
  }

  function WhileUndecided(k: string, name: string, x: nat): Answer {
    Found(if k == name then EnumOf(name, x) else OtherValue(x))
  }

  lemma FoundWhileUndecided(k: string, name: string, e: string, x: nat, constants: seq<Binding>)
    requires e != k && e != name
    ensures LookUp(AwkwardTable(name, x, false), AwkwardProgram(k), 2, [Scope(AwkwardItems(k, e), constants)], Query(name, Nothing))
         == WhileUndecided(k, name, x)
  {
    var items, t, p, q := AwkwardItems(k, e), AwkwardTable(name, x, false), AwkwardProgram(k), Query(name, Nothing);
    var scopes := [Scope(items, constants)];
    NotDeclared(k, e, name);
    FirstUsing(k, name, e, x, false, 2, scopes, q);
    assert items[1..][0] == items[1] && items[1..][1..][0] == items[2];
    assert SearchItem(t, p, 2, scopes, items[0], false, q) == Search(NotFound, false);
    if k != name {
      KIsEnum(k, name, e, x, constants);
      assert SearchItem(t, p, 2, scopes, items[2], false, q) == Search(Found(OtherValue(x)), false);
      assert SearchRest(t, p, 2, scopes, items[1..][1..], false, q) == Search(Found(OtherValue(x)), false);
    }
    assert SearchRest(t, p, 2, scopes, items[1..], false, q).answer.Found?;
    assert SearchRest(t, p, 2, scopes, items, false, q) == SearchRest(t, p, 2, scopes, items[1..], false, q);
  }

  /** Once it is taken, `k` is the constant, whatever the file has. */
  lemma KIsConstant(k: string, name: string, e: string, x: nat, constants: seq<Binding>)
    requires e != k && constants != [] && constants[0].name == k
    ensures EvaluatePath(AwkwardTable(name, x, true), AwkwardProgram(k), 1, [Scope(AwkwardItems(k, e), constants)], Name(k), TheUsing(2))
         == Found(constants[0].value)
  {
    var items, t, p, q := AwkwardItems(k, e), AwkwardTable(name, x, true), AwkwardProgram(k), Query(k, TheUsing(2));
    var scopes := [Scope(items, constants)];
    NotDeclared(k, e, k);
    assert SearchItems(t, p, 1, scopes, [], false, q).answer == Found(constants[0].value);
    assert SearchItem(t, p, 1, scopes, items[0], false, q).answer == Found(constants[0].value);
    assert SearchRest(t, p, 1, scopes, items, false, q).answer == Found(constants[0].value);
    assert LookUp(t, p, 1, scopes, q) == Found(constants[0].value);
  }

  /** What the constants alone answer. */
  function AnswerWhenTaken(name: string, constants: seq<Binding>): Answer
    requires constants != []
  {
    if FindBinding(constants, name).Found? then FindBinding(constants, name)
    else match constants[0].value
    case FileModule(file) => if file == 0 then NotFound else Error
    case EnumType(variants) => FindVariant(variants, name)
    case _ => Error
  }

  lemma FoundWhenTaken(k: string, name: string, e: string, x: nat, constants: seq<Binding>)
    requires e != k && e != name && constants != [] && constants[0].name == k
    ensures LookUp(AwkwardTable(name, x, true), AwkwardProgram(k), 2, [Scope(AwkwardItems(k, e), constants)], Query(name, Nothing))
         == AnswerWhenTaken(name, constants)
  {
    var items, t, p, q := AwkwardItems(k, e), AwkwardTable(name, x, true), AwkwardProgram(k), Query(name, Nothing);
    var scopes := [Scope(items, constants)];
    NotDeclared(k, e, name);
    assert SearchItems(t, p, 2, scopes, [], false, q) == Search(FindBinding(constants, name), false);
    assert SearchItem(t, p, 2, scopes, items[0], false, q) == Search(FindBinding(constants, name), false);
    if FindBinding(constants, name).NotFound? {
      FirstUsing(k, name, e, x, true, 2, scopes, q);
      KIsConstant(k, name, e, x, constants);
      FileAnswers(k, name, x, true, 1, name);
      assert items[1..][0] == items[1] && items[1..][1..][0] == items[2] && items[1..][1..][1..] == [items[3]];
      assert SearchRest(t, p, 2, scopes, [items[3]], false, q) == Search(NotFound, false) by {
        assert [items[3]][1..] == [];
      }
      assert SearchItem(t, p, 2, scopes, items[2], false, q).answer == AnswerWhenTaken(name, constants);
      assert SearchRest(t, p, 2, scopes, items[1..][1..], false, q).answer == AnswerWhenTaken(name, constants);
      assert SearchRest(t, p, 2, scopes, items[1..], false, q).answer == AnswerWhenTaken(name, constants);
      assert scopes[1..] == [];
    }
    assert SearchRest(t, p, 2, scopes, items, false, q).answer == AnswerWhenTaken(name, constants);
  }

  /** A taken static-if answers with the constants of its scope before a later using has its turn. */
  lemma ConstantComesEarly(name: string, constants: seq<Binding>)
    requires constants != []
    ensures !AlwaysStable(name, constants)
  {
    var k := constants[0].name;
    var e := k + name + "e";
    var x: nat :| x <= 1 && AnswerWhenTaken(name, constants) != WhileUndecided(k, name, x) by {
      assert [Variant(name, 0)][0] != [Variant(name, 1)][0];
      assert EnumOf(name, 0) != EnumOf(name, 1);
    }
    assert |e| > |k| && |e| > |name|;
    FoundWhileUndecided(k, name, e, x, constants);
    FoundWhenTaken(k, name, e, x, constants);
    assert Extends(AwkwardTable(name, x, false), AwkwardTable(name, x, true));
  }

  /** Answers are stable in every program exactly if the scope has no constants. */
  lemma StableExactlyWithoutConstants(name: string, constants: seq<Binding>)
    ensures AlwaysStable(name, constants) <==> constants == []
  {
    if constants == [] {
      forall t: Table, t': Table, p: Program, depth: nat, items: seq<Item> | Extends(t, t')
        ensures AnswerStays(t', LookUp(t, p, depth, [Scope(items, constants)], Query(name, Nothing)), LookUp(t', p, depth, [Scope(items, constants)], Query(name, Nothing)))
      {
        AvoidsNothing(items);
        LookUpStays(t, t', p, depth, [Scope(items, constants)], {}, Query(name, Nothing));
      }
    } else {
      ConstantComesEarly(name, constants);
    }
  }
}
