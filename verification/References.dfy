/** The table of jobs and what generated code refers to: functions are generated once, and references are
    to statics that some job of the table produces. */
module References {
  import opened Instantiation
  import opened Options
  import opened Scheduler
  import NameLookup

  /** Jobs that resolve the program. A condition or value means something when the job is done. */
  datatype Task =
    | Parse(file: nat)
    | Decide(file: nat, id: nat, condition: bool)
    | Define(file: nat, id: nat, value: NameLookup.Value)

  /** What a job works on. A generated function or static variable names the statics it refers to; a
      function has constants registered beside it. */
  datatype Work =
    | FunctionWork(key: Key, references: seq<Static>, constants: nat)
    | VariableWork(file: nat, id: nat, references: seq<Static>)
    | OtherWork(task: Task)

  /** How many statics a job registers: a function or variable, then the function's constants. */
  function Products(w: Work): nat {
    match w
    case FunctionWork(_, _, constants) => 1 + constants
    case VariableWork(_, _, _) => 1
    case OtherWork(_) => 0
  }

  function ReferencesOf(w: Work): seq<Static> {
    if w.OtherWork? then [] else w.references
  }

  /** The same job, up to what it has found out. */
  predicate SameWork(a: Work, b: Work) {
    match a
    case FunctionWork(key, _, constants) => b.FunctionWork? && b.key == key && constants <= b.constants
    case VariableWork(file, id, _) => b.VariableWork? && b.file == file && b.id == id
    case OtherWork(task) => b.OtherWork? && SameTask(task, b.task)
  }

  predicate SameTask(a: Task, b: Task) {
    match a
    case Parse(file) => b == a
    case Decide(file, id, _) => b.Decide? && b.file == file && b.id == id
    case Define(file, id, _) => b.Define? && b.file == file && b.id == id
  }

  predicate IsMatch(requested: Key, w: Work) {
    w.FunctionWork? && Same(requested, w.key)
  }

  /** No function was generated for a request that an earlier job met. */
  predicate GeneratedOnce(work: seq<Work>) {
    forall i, j :: 0 <= i < j < |work| && work[j].FunctionWork? ==> !IsMatch(work[j].key, work[i])
  }

  /** No two jobs generate the same function, if its key is the same as itself. */
  predicate OneJobEach(work: seq<Work>) {
    forall i, j :: 0 <= i < j < |work| && work[i].FunctionWork? && work[j].FunctionWork? && Same(work[j].key, work[j].key) ==>
      work[i].key != work[j].key
  }

  lemma OneJobForEach(work: seq<Work>)
    requires GeneratedOnce(work)
    ensures OneJobEach(work)
  {
    forall i, j | 0 <= i < j < |work| && work[i].FunctionWork? && work[j].FunctionWork? && Same(work[j].key, work[j].key)
      ensures work[i].key != work[j].key
    {
      assert !IsMatch(work[j].key, work[i]);
    }
  }

  predicate IsProduced(work: seq<Work>, r: Static) {
    r.job < |work| && r.part < Products(work[r.job])
  }

  /** Every reference is to something that a job produces. */
  predicate RefersToStatics(work: seq<Work>, i: nat)
    requires i < |work|
  {
    forall r :: r in ReferencesOf(work[i]) ==> IsProduced(work, r)
  }

  predicate Sound(work: seq<Work>) {
    GeneratedOnce(work) && forall i :: 0 <= i < |work| ==> RefersToStatics(work, i)
  }

  // ----- What a run may do -----

  /** The jobs of an earlier table are still there. */
  predicate Extends(earlier: seq<Work>, later: seq<Work>) {
    |earlier| <= |later| && forall j :: 0 <= j < |earlier| ==> SameWork(earlier[j], later[j])
  }

  /** A function at index `j` was looked for before it was appended, and refers to nothing yet. */
  predicate IsNew(work: seq<Work>, j: nat)
    requires j < |work|
  {
    ReferencesOf(work[j]) == [] && (work[j].FunctionWork? ==> forall i :: 0 <= i < j ==> !IsMatch(work[j].key, work[i]))
  }

  predicate NewOnes(work: seq<Work>, from: nat) {
    forall j :: from <= j < |work| ==> IsNew(work, j)
  }

  /** A run of job `i` may only set what that job has found out and refers to, and append jobs. */
  predicate AllowedRun(before: seq<Work>, i: nat, after: seq<Work>) {
    i < |before| && Extends(before, after) && NewOnes(after, |before|) &&
    (forall j :: 0 <= j < |before| && j != i ==> after[j] == before[j]) &&
    RefersToStatics(after, i)
  }

  lemma StillProduced(before: seq<Work>, after: seq<Work>, r: Static)
    requires Extends(before, after) && IsProduced(before, r)
    ensures IsProduced(after, r)
  {
    assert SameWork(before[r.job], after[r.job]);
  }

  lemma RunKeepsSound(before: seq<Work>, i: nat, after: seq<Work>)
    requires Sound(before) && AllowedRun(before, i, after)
    ensures Sound(after)
  {
    forall k, j | 0 <= k < j < |after| && after[j].FunctionWork?
      ensures !IsMatch(after[j].key, after[k])
    {
      if j < |before| {
        assert SameWork(before[j], after[j]) && SameWork(before[k], after[k]);
        assert !IsMatch(before[j].key, before[k]);
      } else {
        assert IsNew(after, j);
      }
    }
    forall j | 0 <= j < |after|
      ensures RefersToStatics(after, j)
    {
      if j >= |before| {
        assert IsNew(after, j);
      } else if j != i {
        assert RefersToStatics(before, j);
        forall r | r in ReferencesOf(after[j])
          ensures IsProduced(after, r)
        {
          StillProduced(before, after, r);
        }
      }
    }
  }

  // ----- Requests -----

  /** The first job that generates the requested function. */
  function FindFunction(work: seq<Work>, requested: Key): (index: Option<nat>)
    ensures index.Some? ==> index.value < |work| && IsMatch(requested, work[index.value])
    ensures index.Some? ==> forall i :: 0 <= i < index.value ==> !IsMatch(requested, work[i])
    ensures index.None? ==> forall i :: 0 <= i < |work| ==> !IsMatch(requested, work[i])
  {
    if work == [] then None else
    match FindFunction(work[..|work| - 1], requested)
    case Some(i) => Some(i)
    case None => if IsMatch(requested, work[|work| - 1]) then Some(|work| - 1) else None
  }

  /** The table after a request, and the job the request refers to. */
  function Request(work: seq<Work>, requested: Key): (seq<Work>, nat) {
    match FindFunction(work, requested)
    case Some(i) => (work, i)
    case None => (work + [FunctionWork(requested, [], 0)], |work|)
  }

  /** A key that is the same as itself is matched only by jobs with that very key. */
  lemma OnlyMatches(work: seq<Work>, requested: Key)
    requires Same(requested, requested)
    ensures forall i :: 0 <= i < |work| ==> (IsMatch(requested, work[i]) <==> work[i].FunctionWork? && work[i].key == requested)
  {
    forall i | 0 <= i < |work| && work[i].FunctionWork?
      ensures IsMatch(requested, work[i]) <==> work[i].key == requested
    {
      SameExactly(requested, work[i].key);
    }
  }

  /** A call or a pointer to a function looks for the job that generates it and appends one if there is none. */
  method RequestFunction(work: seq<Work>, requested: Key) returns (work': seq<Work>, reference: nat)
    ensures (work', reference) == Request(work, requested)
    ensures reference < |work'| && work'[reference].FunctionWork?
    ensures Same(requested, requested) || work' != work ==> work'[reference].key == requested
    ensures Same(requested, requested) ==> forall j :: 0 <= j < reference && work'[j].FunctionWork? ==> work'[j].key != requested
  {
    if Same(requested, requested) {
      OnlyMatches(work, requested);
    }
    var i := 0;
    while i < |work|
      invariant 0 <= i <= |work|
      invariant forall j :: 0 <= j < i ==> !IsMatch(requested, work[j])
    {
      if IsMatch(requested, work[i]) {
        return work, i;
      }
      i := i + 1;
    }
    return work + [FunctionWork(requested, [], 0)], i;
  }

  /** Is there a job for the declaration and scope of a function, whatever its type? */
  predicate IsDeclared(w: Work, key: Key) {
    key.FunctionCode? && w.FunctionWork? && w.key.FunctionCode? && w.key.declaration == key.declaration && w.key.bodyScope == key.bodyScope
  }

  /** What is appended for a resolved function. */
  function Registered(work: seq<Work>, key: Key): seq<Work> {
    if exists i :: 0 <= i < |work| && IsDeclared(work[i], key) then [] else [FunctionWork(key, [], 0)]
  }

  method RegisterDeclaration(work: seq<Work>, key: Key) returns (work': seq<Work>)
    ensures work' == work + Registered(work, key)
  {
    var found := false;
    var i := 0;
    while i < |work|
      invariant 0 <= i <= |work|
      invariant found <==> exists j :: 0 <= j < i && IsDeclared(work[j], key)
    {
      if IsDeclared(work[i], key) {
        found := true;
      }
      i := i + 1;
    }
    work' := if found then work else work + [FunctionWork(key, [], 0)];
  }

  /** Not to look at the type is enough: a job of the same key has the same declaration and scope. */
  lemma RegisteredIsNew(work: seq<Work>, key: Key)
    requires key.FunctionCode?
    ensures NewOnes(work + Registered(work, key), |work|)
  {
    var after := work + Registered(work, key);
    forall j | |work| <= j < |after|
      ensures IsNew(after, j)
    {
      forall i | 0 <= i < j
        ensures !IsMatch(key, after[i])
      {
        assert !IsDeclared(work[i], key);
      }
    }
  }

  /** One pass of the generator over a function: the table and the jobs it refers to after all its requests. */
  function RequestAll(work: seq<Work>, requests: seq<Key>): (seq<Work>, seq<nat>)
    decreases |requests|
  {
    if requests == [] then (work, []) else
    var (next, reference) := Request(work, requests[0]);
    var (last, references) := RequestAll(next, requests[1..]);
    (last, [reference] + references)
  }

  predicate AreFunctions(work: seq<Work>, indices: seq<nat>) {
    forall r :: r in indices ==> r < |work| && work[r].FunctionWork?
  }

  lemma {:induction false} RequestsAppend(work: seq<Work>, requests: seq<Key>)
    ensures var (later, references) := RequestAll(work, requests);
            work <= later && NewOnes(later, |work|) && |references| == |requests| && AreFunctions(later, references)
    ensures var later := RequestAll(work, requests).0; forall j :: |work| <= j < |later| ==> later[j].FunctionWork?
    decreases |requests|
  {
    if requests != [] {
      var (next, reference) := Request(work, requests[0]);
      RequestsAppend(next, requests[1..]);
      var (later, references) := RequestAll(work, requests);
      assert later[reference] == next[reference];
      forall j | |work| <= j < |next|
        ensures IsNew(later, j) && later[j].FunctionWork?
      {
        assert later[j] == next[j];
        assert forall i :: 0 <= i < j ==> later[i] == work[i];
      }
    }
  }

  /** The functions of a table, as keys. */
  function KeysOf(work: seq<Work>): seq<Key> {
    if work == [] then [] else
    var last := work[|work| - 1];
    KeysOf(work[..|work| - 1]) + if last.FunctionWork? then [last.key] else []
  }

  lemma {:induction false} FoundAmongKeys(work: seq<Work>, requested: Key)
    ensures FirstMatch(KeysOf(work), requested).Some? <==> FindFunction(work, requested).Some?
  {
    if work != [] {
      var rest := work[..|work| - 1];
      FoundAmongKeys(rest, requested);
      var keys := KeysOf(work);
      if work[|work| - 1].FunctionWork? {
        assert keys[..|keys| - 1] == KeysOf(rest);
      } else {
        assert keys == KeysOf(rest);
      }
    }
  }

  /** On the functions of the table, a request is a demand for a key. */
  lemma RequestIsDemand(work: seq<Work>, requested: Key)
    ensures KeysOf(Request(work, requested).0) == Demanded(KeysOf(work), requested)
  {
    FoundAmongKeys(work, requested);
    var (next, _) := Request(work, requested);
    if next != work {
      assert next[..|next| - 1] == work;
      assert KeysOf(next) == KeysOf(work) + [requested];
    }
  }

  // ----- Retries -----

  lemma FoundStays(earlier: seq<Work>, later: seq<Work>, requested: Key)
    requires Extends(earlier, later) && FindFunction(earlier, requested).Some?
    ensures FindFunction(later, requested) == FindFunction(earlier, requested)
  {
    var i, j := FindFunction(earlier, requested).value, FindFunction(later, requested);
    assert SameWork(earlier[i], later[i]);
    assert j.Some? && j.value <= i;
    assert SameWork(earlier[j.value], later[j.value]);
  }

  lemma ExtendsEarlier(earlier: seq<Work>, middle: seq<Work>, later: seq<Work>)
    requires earlier <= middle && Extends(middle, later)
    ensures Extends(earlier, later)
  {
    forall j | 0 <= j < |earlier|
      ensures SameWork(earlier[j], later[j])
    {
      assert earlier[j] == middle[j];
    }
  }

  /** A request that is made again finds the job it found or appended. */
  lemma RequestFound(work: seq<Work>, requested: Key, later: seq<Work>)
    requires Extends(Request(work, requested).0, later) && Same(requested, requested)
    ensures Request(later, requested) == (later, Request(work, requested).1)
  {
    var (next, reference) := Request(work, requested);
    assert IsMatch(requested, next[reference]);
    assert forall i :: 0 <= i < reference ==> next[i] == work[i] && !IsMatch(requested, next[i]);
    assert FindFunction(next, requested) == Some(reference);
    FoundStays(next, later, requested);
  }

  /** A pass that waited and is made again, after any other runs, creates no job and refers to the same
      ones as before, if every requested key is the same as itself. */
  lemma {:induction false} RetryCreatesNothing(work: seq<Work>, requests: seq<Key>, later: seq<Work>)
    requires Extends(RequestAll(work, requests).0, later)
    requires forall k :: k in requests ==> Same(k, k)
    ensures RequestAll(later, requests) == (later, RequestAll(work, requests).1)
    decreases |requests|
  {
    if requests != [] {
      var next := Request(work, requests[0]).0;
      RequestsAppend(next, requests[1..]);
      ExtendsEarlier(next, RequestAll(work, requests).0, later);
      assert requests[0] in requests;
      RequestFound(work, requests[0], later);
      RetryCreatesNothing(next, requests[1..], later);
    }
  }

  // ----- Linking -----

  /** Everything that is referred to is a static of the program, and no static is there twice. */
  ghost predicate Linked(jobs: seq<Job<Work>>, statics: seq<Static>) {
    (forall i, r :: 0 <= i < |jobs| && r in ReferencesOf(jobs[i].content) ==> r in statics) && NoDuplicates(statics)
  }

  /** When all jobs are finished, every reference resolves to exactly one registered static, and exactly
      what the jobs produced is registered. */
  lemma EveryReferenceResolves(jobs: seq<Job<Work>>, finished: seq<nat>)
    requires AllFinished(jobs) && Records(finished, jobs) && Sound(Contents(jobs))
    ensures forall k :: 0 <= k < |finished| ==> finished[k] < |jobs|
    ensures var statics := RuntimeStatics(jobs, finished, Products);
            Linked(jobs, statics) && forall r: Static :: r in statics <==> IsProduced(Contents(jobs), r)
  {
    StaticsRegisteredOnce(jobs, finished, Products);
    var statics := RuntimeStatics(jobs, finished, Products);
    assert forall i :: 0 <= i < |jobs| ==> Contents(jobs)[i] == jobs[i].content;
    forall i, r | 0 <= i < |jobs| && r in ReferencesOf(jobs[i].content)
      ensures r in statics
    {
      assert RefersToStatics(Contents(jobs), i);
    }
  }
}
