/** The runs of the driver: parsing files, deciding static-ifs, resolving declarations and generating
    functions and static variables, each a job that looks names up and waits for what is not done yet. */
module Driver {
  import opened Instantiation
  import opened Integers
  import opened NameLookup
  import opened Options
  import opened References
  import opened Scheduler

  /** What the body of a function refers to: a name, or a static variable of a file. */
  datatype Use = UseName(path: Path) | UseVariable(file: nat, id: nat)

  /** A program: its statements, the names its expressions mention in the order of evaluation, and what
      the expressions are given the values of those names. `statements` of a static-if and the function of
      a declaration go by number. `depth` is how deep usings are followed. */
  datatype Source = Source(
    program: Program,
    depth: nat,
    statements: nat -> seq<Item>,
    conditionNames: nat -> seq<Path>,
    decide: (nat, seq<NameLookup.Value>) -> Option<bool>,
    definitionNames: nat -> seq<Path>,
    define: (nat, seq<NameLookup.Value>) -> Option<NameLookup.Value>,
    functionOf: nat -> Option<Key>,
    isVariable: nat -> bool,
    fileOf: Key -> nat,
    body: Key -> seq<Use>,
    constantsOf: Key -> nat,
    variableNames: nat -> seq<Path>
  )

  // ----- The jobs a name can wait for -----

  function PendingOf(w: Work): Option<Pending> {
    match w
    case OtherWork(Parse(file)) => Some(ParseJob(file))
    case OtherWork(Decide(_, id, _)) => Some(StaticIfJob(id))
    case OtherWork(Define(_, id, _)) => Some(DeclarationJob(id))
    case _ => None
  }

  /** The first job for what is pending. */
  function FindPending(work: seq<Work>, pending: Pending): (index: Option<nat>)
    ensures index.Some? ==> index.value < |work| && PendingOf(work[index.value]) == Some(pending)
    ensures index.Some? ==> forall i :: 0 <= i < index.value ==> PendingOf(work[i]) != Some(pending)
    ensures index.None? ==> forall i :: 0 <= i < |work| ==> PendingOf(work[i]) != Some(pending)
  {
    if work == [] then None else
    match FindPending(work[..|work| - 1], pending)
    case Some(i) => Some(i)
    case None => if PendingOf(work[|work| - 1]) == Some(pending) then Some(|work| - 1) else None
  }

  function KnownJobs(work: seq<Work>): set<Pending> {
    set i | 0 <= i < |work| && PendingOf(work[i]).Some? :: PendingOf(work[i]).value
  }

  predicate Settled(jobs: seq<Job<Work>>, pending: Pending) {
    var i := FindPending(Contents(jobs), pending);
    i.Some? && jobs[i.value].state.Done?
  }

  function TaskOf(jobs: seq<Job<Work>>, pending: Pending): Task
    requires Settled(jobs, pending)
  {
    jobs[FindPending(Contents(jobs), pending).value].content.task
  }

  predicate IsResolved(job: Job<Work>) {
    job.content.OtherWork? && job.content.task.Define? && job.state.Done?
  }

  /** What is resolved so far. */
  function TableOf(jobs: seq<Job<Work>>): Table {
    var known := KnownJobs(Contents(jobs));
    Table(
      map p | p in known && p.DeclarationJob? && Settled(jobs, p) :: p.id := TaskOf(jobs, p).value,
      map p | p in known && p.StaticIfJob? && Settled(jobs, p) :: p.id := TaskOf(jobs, p).condition,
      set p | p in known && p.ParseJob? && Settled(jobs, p) :: p.file,
      set i | 0 <= i < |jobs| && IsResolved(jobs[i]) :: jobs[i].content.task.id
    )
  }

  // ----- The jobs of a scope -----

  function JobFor(s: Source, before: seq<Work>, file: nat, item: Item): seq<Work> {
    match item
    case Declaration(id, _, _, ByJob) => [OtherWork(Define(file, id, OtherValue(id)))]
    case Declaration(_, _, _, ImportOf(imported)) =>
      if FindPending(before, ParseJob(imported)).Some? then [] else [OtherWork(Parse(imported))]
    case StaticIf(id, _) => [OtherWork(Decide(file, id, false))]
    case OtherStatement(id) => if s.isVariable(id) then [VariableWork(file, id, [])] else []
    case _ => []
  }

  /** The jobs for the statements of a scope, in order; a file that is imported twice is parsed once. */
  function JobsFor(s: Source, before: seq<Work>, file: nat, items: seq<Item>): seq<Work>
    decreases |items|
  {
    if items == [] then [] else
    var first := JobFor(s, before, file, items[0]);
    first + JobsFor(s, before + first, file, items[1..])
  }

  method ProcessScope(s: Source, before: seq<Work>, file: nat, items: seq<Item>) returns (work: seq<Work>)
    ensures work == before + JobsFor(s, before, file, items)
  {
    work := before;
    var i := 0;
    assert items[0..] == items;
    while i < |items|
      invariant 0 <= i <= |items|
      invariant work + JobsFor(s, work, file, items[i..]) == before + JobsFor(s, before, file, items)
    {
      assert items[i..][0] == items[i] && items[i..][1..] == items[i + 1..];
      work := work + JobFor(s, work, file, items[i]);
      i := i + 1;
    }
    assert items[i..] == [];
  }

  // ----- Runs -----

  /** Evaluation goes through, waits for a job, or fails. */
  datatype Stop = Through | WaitsOn(job: nat) | Fails

  function StopAt(work: seq<Work>, a: Answer): Stop {
    if a.Wait? && FindPending(work, a.job).Some? then WaitsOn(FindPending(work, a.job).value) else Fails
  }

  /** The values of names, up to the first that has none yet. */
  function Values(s: Source, t: Table, work: seq<Work>, file: nat, names: seq<Path>, ignored: Ignored): (seq<NameLookup.Value>, Stop)
    requires file < |s.program.files|
    decreases |names|
  {
    if names == [] then ([], Through) else
    var a := EvaluatePath(t, s.program, s.depth, FileScope(s.program, file), names[0], ignored);
    if !a.Found? then ([], StopAt(work, a)) else
    var (values, stop) := Values(s, t, work, file, names[1..], ignored);
    ([a.value] + values, stop)
  }

  function FindVariable(work: seq<Work>, file: nat, id: nat): (index: Option<nat>)
    ensures index.Some? ==> index.value < |work| && IsVariableJob(work[index.value], file, id)
  {
    if work == [] then None else
    match FindVariable(work[..|work| - 1], file, id)
    case Some(i) => Some(i)
    case None =>
      if IsVariableJob(work[|work| - 1], file, id) then Some(|work| - 1) else None
  }

  predicate IsVariableJob(w: Work, file: nat, id: nat) {
    w.VariableWork? && w.file == file && w.id == id
  }

  /** What one pass over a body requests, the variables it refers to, and where it stops. */
  datatype Pass = Pass(requests: seq<Key>, variables: seq<nat>, stop: Stop)

  function PassOver(s: Source, jobs: seq<Job<Work>>, file: nat, uses: seq<Use>): Pass
    requires file < |s.program.files|
    decreases |uses|
  {
    if uses == [] then Pass([], [], Through) else
    var work := Contents(jobs);
    match uses[0]
    case UseName(path) =>
      (match EvaluatePath(TableOf(jobs), s.program, s.depth, FileScope(s.program, file), path, Nothing)
       case Found(FunctionValue(id)) =>
         var rest := PassOver(s, jobs, file, uses[1..]);
         if s.functionOf(id).Some? then rest.(requests := [s.functionOf(id).value] + rest.requests) else rest
       case Found(_) => PassOver(s, jobs, file, uses[1..])
       case a => Pass([], [], StopAt(work, a)))
    case UseVariable(of, id) =>
      match FindVariable(work, of, id)
      case None => Pass([], [], Fails)
      case Some(j) =>
        if !jobs[j].state.Done? then Pass([], [], WaitsOn(j)) else
        var rest := PassOver(s, jobs, file, uses[1..]);
        rest.(variables := [j] + rest.variables)
  }

  function ToStatics(jobs: seq<nat>): (statics: seq<Static>)
    ensures |statics| == |jobs| && forall k :: 0 <= k < |jobs| ==> statics[k] == Static(jobs[k], 0)
  {
    seq(|jobs|, k requires 0 <= k < |jobs| => Static(jobs[k], 0))
  }

  /** The run of a job: the result of its evaluation if that goes through; else it waits or fails. A pass
      that waits keeps the jobs it requested, but nothing of what it generated. */
  function Run(s: Source, jobs: seq<Job<Work>>, i: nat): RunResult<Work>
  {
    if i >= |jobs| then RunFailed else
    var t, work, content := TableOf(jobs), Contents(jobs), jobs[i].content;
    match content
    case OtherWork(Parse(file)) =>
      if file < |s.program.files| then Finished(content, JobsFor(s, work, file, s.program.files[file])) else RunFailed
    case OtherWork(Decide(file, id, _)) => RunDecision(s, t, work, content, file, id)
    case OtherWork(Define(file, id, _)) => RunDefinition(s, t, work, content, file, id)
    case FunctionWork(key, _, _) => RunFunction(s, jobs, i, key)
    case VariableWork(file, id, _) =>
      if file >= |s.program.files| then RunFailed else
      var (_, stop) := Values(s, t, work, file, s.variableNames(id), Nothing);
      match stop
      case Through => Finished(VariableWork(file, id, []), [])
      case WaitsOn(j) => Waits(j, content, [])
      case Fails => RunFailed
  }

  function RunDecision(s: Source, t: Table, work: seq<Work>, content: Work, file: nat, id: nat): RunResult<Work> {
    if file >= |s.program.files| then RunFailed else
    var (values, stop) := Values(s, t, work, file, s.conditionNames(id), TheStaticIf(id));
    match stop
    case WaitsOn(j) => Waits(j, content, [])
    case Fails => RunFailed
    case Through =>
      match s.decide(id, values)
      case None => RunFailed
      case Some(taken) => Finished(OtherWork(Decide(file, id, taken)), if taken then JobsFor(s, work, file, s.statements(id)) else [])
  }

  function RunDefinition(s: Source, t: Table, work: seq<Work>, content: Work, file: nat, id: nat): RunResult<Work> {
    if file >= |s.program.files| then RunFailed else
    var (values, stop) := Values(s, t, work, file, s.definitionNames(id), Nothing);
    match stop
    case WaitsOn(j) => Waits(j, content, [])
    case Fails => RunFailed
    case Through =>
      match s.define(id, values)
      case None => RunFailed
      case Some(v) => Finished(OtherWork(Define(file, id, v)), if s.functionOf(id).Some? then Registered(work, s.functionOf(id).value) else [])
  }

  function RunFunction(s: Source, jobs: seq<Job<Work>>, i: nat, key: Key): RunResult<Work>
    requires i < |jobs|
  {
    var file, work := s.fileOf(key), Contents(jobs);
    if file !in TableOf(jobs).parsed || file >= |s.program.files| then RunFailed else
    var pass := PassOver(s, jobs, file, s.body(key));
    var (requested, functions) := RequestAll(work, pass.requests);
    var appended := if |work| <= |requested| then requested[|work|..] else [];
    match pass.stop
    case WaitsOn(j) => Waits(j, jobs[i].content, appended)
    case Fails => RunFailed
    case Through =>
      var constants := s.constantsOf(key);
      Finished(FunctionWork(key, ToStatics(functions + pass.variables) + PartsOf(i, 1 + constants)[1..], constants), appended)
  }

  function MainAnswer(s: Source, jobs: seq<Job<Work>>): Answer {
    if s.program.files == [] then NotFound else
    SearchItems(TableOf(jobs), s.program, s.depth, FileScope(s.program, 0), s.program.files[0], false, Query("main", Nothing)).answer
  }

  /** A function without parameters that returns a signed 32-bit integer. */
  predicate IsMainFunction(key: Key) {
    key.FunctionCode? && key.functionType.FunctionType? && key.functionType.parameters == [] &&
    key.functionType.returnTypes == [IntegerValueType(Integer(Size32, true))]
  }

  function MainFunction(s: Source, jobs: seq<Job<Work>>): (main: Option<Key>)
    ensures main.Some? ==> IsMainFunction(main.value)
  {
    match MainAnswer(s, jobs)
    case Found(FunctionValue(id)) =>
      if s.functionOf(id).Some? && IsMainFunction(s.functionOf(id).value) then s.functionOf(id) else None
    case _ => None
  }

  /** `main` is looked for in the main file, which is file 0, after it has been parsed. */
  function SearchForMain(s: Source, jobs: seq<Job<Work>>): SearchResult<Work> {
    match MainAnswer(s, jobs)
    case Found(_) => if MainFunction(s, jobs).Some? then SearchResult.Found([]) else SearchFailed
    case Wait(pending) =>
      (match FindPending(Contents(jobs), pending)
       case Some(j) => SearchWaits(j, [])
       case None => SearchFailed)
    case _ => SearchFailed
  }

  /** `main` is a function as it has to be, and a job generates it. */
  predicate MainFound(s: Source, jobs: seq<Job<Work>>) {
    var main := MainFunction(s, jobs);
    main.Some? && FindFunction(Contents(jobs), main.value).Some?
  }

  // ----- What holds between runs -----

  /** The statements of a static-if are those its number stands for. */
  predicate Numbered(s: Source, items: seq<Item>) {
    forall i :: i in items ==> ItemNumbered(s, i)
  }

  predicate ItemNumbered(s: Source, item: Item) {
    item.StaticIf? ==> s.statements(item.id) == item.items && Numbered(s, item.items)
  }

  /** A list of statements: those of a file, or those inside a static-if. */
  datatype Owner = OfFile(file: nat) | OfStaticIf(id: nat)

  function ItemsOf(s: Source, o: Owner): seq<Item> {
    match o
    case OfFile(file) => if file < |s.program.files| then s.program.files[file] else []
    case OfStaticIf(id) => s.statements(id)
  }

  /** What a job is there for: what others may wait for, or a static variable. */
  datatype Purpose = ToResolve(pending: Pending) | ToInitialize(id: nat)

  function PurposeOf(w: Work): Option<Purpose> {
    match w
    case OtherWork(_) => Some(ToResolve(PendingOf(w).value))
    case VariableWork(_, id, _) => Some(ToInitialize(id))
    case FunctionWork(_, _, _) => None
  }

  /** What the job that a statement has for itself is there for. */
  function OwnPurpose(s: Source, item: Item): Option<Purpose> {
    match item
    case Declaration(id, _, _, ByJob) => Some(ToResolve(DeclarationJob(id)))
    case StaticIf(id, _) => Some(ToResolve(StaticIfJob(id)))
    case OtherStatement(id) => if s.isVariable(id) then Some(ToInitialize(id)) else None
    case _ => None
  }

  predicate StandsAt(s: Source, o: Owner, x: nat, p: Purpose) {
    x < |ItemsOf(s, o)| && OwnPurpose(s, ItemsOf(s, o)[x]) == Some(p)
  }

  /** Different statements have different numbers. */
  ghost predicate PlacedOnce(s: Source) {
    forall a: Owner, x: nat, b: Owner, y: nat, p: Purpose :: StandsAt(s, a, x, p) && StandsAt(s, b, y, p) ==> a == b && x == y
  }

  /** Numbers mean what they stand for, each one statement; evaluating an expression gives no file and no
      function that none of its names gave, except the function that is being resolved; and the type of a
      function is determined by its declaration and scope. */
  ghost predicate WellFormed(s: Source) {
    (forall f :: 0 <= f < |s.program.files| ==> Numbered(s, s.program.files[f])) && PlacedOnce(s) &&
    AllKnown(Table(map[], map[], {}, {}), s.program.globals) &&
    (forall k: Key, l: Key :: IsFunctionKey(s, k) && IsFunctionKey(s, l) ==>
       k.FunctionCode? && (l.FunctionCode? && k.declaration == l.declaration && k.bodyScope == l.bodyScope ==> k == l)) &&
    forall t: Table, id: nat, values: seq<NameLookup.Value> ::
      s.define(id, values).Some? && ValuesKnown(t, values) ==> Known(WithFunction(t, id), s.define(id, values).value)
  }

  ghost predicate IsFunctionKey(s: Source, key: Key) {
    exists id :: s.functionOf(id) == Some(key)
  }

  /** The function of a declaration that has been resolved. */
  ghost predicate IsResolvedFunction(s: Source, t: Table, key: Key) {
    exists id :: id in t.functions && s.functionOf(id) == Some(key)
  }

  function WithFunction(t: Table, id: nat): Table {
    t.(functions := t.functions + {id})
  }

  predicate ValuesKnown(t: Table, values: seq<NameLookup.Value>) {
    forall v :: v in values ==> Known(t, v)
  }

  /** Every statement that needs a job has one. */
  predicate HasJobs(work: seq<Work>, items: seq<Item>) {
    forall i :: i in items ==> ItemHasJob(work, i)
  }

  predicate ItemHasJob(work: seq<Work>, item: Item) {
    match item
    case Declaration(id, _, _, ByJob) => DeclarationJob(id) in KnownJobs(work)
    case Declaration(_, _, _, ImportOf(file)) => ParseJob(file) in KnownJobs(work)
    case StaticIf(id, _) => StaticIfJob(id) in KnownJobs(work)
    case _ => true
  }

  /** Every static variable has a job that generates it. */
  predicate HasVariableJobs(s: Source, work: seq<Work>, file: nat, items: seq<Item>) {
    forall i :: i in items && i.OtherStatement? && s.isVariable(i.id) ==> HasVariableJob(work, file, i.id)
  }

  predicate HasVariableJob(work: seq<Work>, file: nat, id: nat) {
    exists j :: 0 <= j < |work| && IsVariableJob(work[j], file, id)
  }

  /** No file is parsed, no static-if decided, no declaration resolved and no static variable initialized twice. */
  predicate EachOnce(work: seq<Work>) {
    forall i, j :: 0 <= i < j < |work| && PurposeOf(work[j]).Some? ==> PurposeOf(work[i]) != PurposeOf(work[j])
  }

  predicate HasPurpose(work: seq<Work>, p: Purpose) {
    exists i :: 0 <= i < |work| && PurposeOf(work[i]) == Some(p)
  }

  predicate InParsedFile(s: Source, jobs: seq<Job<Work>>, file: nat) {
    file < |s.program.files| && Settled(jobs, ParseJob(file))
  }

  /** A declaration that is a function has a job that generates it. */
  predicate HasFunctionJob(s: Source, work: seq<Work>, id: nat) {
    s.functionOf(id).Some? ==> exists j :: 0 <= j < |work| && IsDeclared(work[j], s.functionOf(id).value)
  }

  // ----- What a finished job has found out -----

  /** These are the values of the names. */
  ghost predicate AreValues(s: Source, t: Table, file: nat, names: seq<Path>, ignored: Ignored, values: seq<NameLookup.Value>) {
    file < |s.program.files| && |values| == |names| &&
    forall k :: 0 <= k < |names| ==> EvaluatePath(t, s.program, s.depth, FileScope(s.program, file), names[k], ignored) == Answer.Found(values[k])
  }

  /** The function a name of a body stands for, if it is one. */
  function NamedFunction(s: Source, t: Table, file: nat, path: Path): Option<Key>
    requires file < |s.program.files|
  {
    match EvaluatePath(t, s.program, s.depth, FileScope(s.program, file), path, Nothing)
    case Found(FunctionValue(id)) => s.functionOf(id)
    case _ => None
  }

  /** A job with this key, or with one that the compiler takes for the same. */
  predicate Generates(w: Work, key: Key) {
    w.FunctionWork? && (w.key == key || Same(key, w.key))
  }

  /** Is this static what the body uses: the function of a name, or a variable? */
  predicate UseGives(s: Source, t: Table, work: seq<Work>, file: nat, u: Use, r: Static)
    requires file < |s.program.files|
  {
    r.part == 0 && r.job < |work| &&
    match u
    case UseName(path) => var key := NamedFunction(s, t, file, path); key.Some? && Generates(work[r.job], key.value)
    case UseVariable(of, id) => IsVariableJob(work[r.job], of, id)
  }

  /** What the body uses exists, and a function or variable is among the references. */
  ghost predicate UseMet(s: Source, t: Table, work: seq<Work>, file: nat, u: Use, references: seq<Static>)
    requires file < |s.program.files|
  {
    match u
    case UseName(path) =>
      EvaluatePath(t, s.program, s.depth, FileScope(s.program, file), path, Nothing).Found? &&
      (NamedFunction(s, t, file, path).Some? ==> exists r :: r in references && UseGives(s, t, work, file, u, r))
    case UseVariable(_, _) => exists r :: r in references && UseGives(s, t, work, file, u, r)
  }

  /** The references are what the uses give, and the function's own constants. */
  ghost predicate RefersAsUsed(s: Source, t: Table, work: seq<Work>, i: nat, file: nat, uses: seq<Use>, references: seq<Static>, constants: nat) {
    file < |s.program.files| &&
    (forall u :: u in uses ==> UseMet(s, t, work, file, u, references)) &&
    (forall r :: r in references ==> (r.job == i && 1 <= r.part <= constants) || exists u :: u in uses && UseGives(s, t, work, file, u, r)) &&
    forall k :: 1 <= k <= constants ==> Static(i, k) in references
  }

  /** What a finished job has found out is what its expressions give in this table. */
  ghost predicate ResultStands(s: Source, t: Table, work: seq<Work>, i: nat)
    requires i < |work|
  {
    match work[i]
    case OtherWork(Parse(_)) => true
    case OtherWork(Decide(file, id, taken)) =>
      exists values :: AreValues(s, t, file, s.conditionNames(id), TheStaticIf(id), values) && s.decide(id, values) == Some(taken)
    case OtherWork(Define(file, id, v)) =>
      exists values :: AreValues(s, t, file, s.definitionNames(id), Nothing, values) && s.define(id, values) == Some(v)
    case FunctionWork(key, references, constants) =>
      constants == s.constantsOf(key) && RefersAsUsed(s, t, work, i, s.fileOf(key), s.body(key), references, constants)
    case VariableWork(file, id, _) => exists values :: AreValues(s, t, file, s.variableNames(id), Nothing, values)
  }

  /** The list a statement stands in has been processed: its file is parsed, its static-if taken. */
  predicate Processed(jobs: seq<Job<Work>>, o: Owner) {
    exists j :: 0 <= j < |jobs| && Processes(jobs[j], o)
  }

  predicate Processes(job: Job<Work>, o: Owner) {
    job.state.Done? && job.content.OtherWork? &&
    match job.content.task
    case Parse(file) => o == OfFile(file)
    case Decide(_, id, taken) => taken && o == OfStaticIf(id)
    case Define(_, _, _) => false
  }

  /** A statement of a processed list has a job that is there for this. */
  ghost predicate HasPlace(s: Source, jobs: seq<Job<Work>>, p: Purpose) {
    exists o: Owner, x: nat :: StandsAt(s, o, x, p) && Processed(jobs, o)
  }

  /** A statement of a processed list imports the file, or it is the main file. */
  ghost predicate IsImported(s: Source, jobs: seq<Job<Work>>, file: nat) {
    file == 0 || exists o: Owner, x: nat :: ImportsAt(s, o, x, file) && Processed(jobs, o)
  }

  predicate ImportsAt(s: Source, o: Owner, x: nat, file: nat) {
    x < |ItemsOf(s, o)| && ItemsOf(s, o)[x].Declaration? && ItemsOf(s, o)[x].kind == ImportOf(file)
  }

  /** Jobs for statements are for those of processed lists; around a static-if all others are taken. */
  ghost predicate IsPlaced(s: Source, jobs: seq<Job<Work>>, i: nat)
    requires i < |jobs|
  {
    match jobs[i].content
    case OtherWork(Decide(file, id, _)) =>
      file < |s.program.files| && HasPlace(s, jobs, ToResolve(StaticIfJob(id))) && IgnoredIsLive(TableOf(jobs), s.program.files[file], TheStaticIf(id))
    case OtherWork(Define(_, id, _)) => HasPlace(s, jobs, ToResolve(DeclarationJob(id)))
    case OtherWork(Parse(file)) => IsImported(s, jobs, file)
    case VariableWork(_, id, _) => HasPlace(s, jobs, ToInitialize(id))
    case FunctionWork(_, _, _) => true
  }

  ghost predicate IsReady(s: Source, jobs: seq<Job<Work>>, i: nat)
    requires i < |jobs|
  {
    HasPrepared(s, jobs, i) && IsPlaced(s, jobs, i) && (jobs[i].state.Done? ==> ResultStands(s, TableOf(jobs), Contents(jobs), i))
  }

  /** A finished job has left what others rely on. */
  ghost predicate HasPrepared(s: Source, jobs: seq<Job<Work>>, i: nat)
    requires i < |jobs|
  {
    var done, work := jobs[i].state.Done?, Contents(jobs);
    match jobs[i].content
    case OtherWork(Parse(file)) =>
      done ==> file < |s.program.files| && HasJobs(work, s.program.files[file]) && HasVariableJobs(s, work, file, s.program.files[file])
    case OtherWork(Decide(file, id, taken)) =>
      InParsedFile(s, jobs, file) && (done && taken ==> HasJobs(work, s.statements(id)) && HasVariableJobs(s, work, file, s.statements(id)))
    case OtherWork(Define(file, id, v)) => InParsedFile(s, jobs, file) && (done ==> Known(TableOf(jobs), v) && HasFunctionJob(s, work, id))
    case VariableWork(file, _, _) => InParsedFile(s, jobs, file)
    case FunctionWork(key, _, constants) => IsResolvedFunction(s, TableOf(jobs), key) && (done || constants == 0)
  }

  /** The scopes of finished jobs have all their jobs, values are known, and the references are sound. */
  ghost predicate Ready(s: Source, jobs: seq<Job<Work>>) {
    Sound(Contents(jobs)) && EachOnce(Contents(jobs)) && forall i :: 0 <= i < |jobs| ==> IsReady(s, jobs, i)
  }

  // ----- Tables grow -----

  /** Jobs stay what they are, and what is done stays as it is. */
  predicate Grows(jobs: seq<Job<Work>>, jobs': seq<Job<Work>>) {
    |jobs| <= |jobs'| &&
    forall j :: 0 <= j < |jobs| ==>
      SameWork(jobs[j].content, jobs'[j].content) && (jobs[j].state.Done? ==> jobs'[j] == jobs[j])
  }

  lemma PendingStays(jobs: seq<Job<Work>>, jobs': seq<Job<Work>>, p: Pending)
    requires Grows(jobs, jobs') && FindPending(Contents(jobs), p).Some?
    ensures FindPending(Contents(jobs'), p) == FindPending(Contents(jobs), p)
  {
    var work, work' := Contents(jobs), Contents(jobs');
    var i, j := FindPending(work, p).value, FindPending(work', p);
    assert PendingOf(work'[i]) == Some(p);
    assert j.Some? && j.value <= i;
    assert PendingOf(work[j.value]) == Some(p);
  }

  lemma StaysSettled(jobs: seq<Job<Work>>, jobs': seq<Job<Work>>, p: Pending)
    requires Grows(jobs, jobs') && Settled(jobs, p)
    ensures Settled(jobs', p) && TaskOf(jobs', p) == TaskOf(jobs, p)
  {
    PendingStays(jobs, jobs', p);
  }

  lemma InKnownJobs(work: seq<Work>, p: Pending)
    ensures p in KnownJobs(work) <==> FindPending(work, p).Some?
  {
    if FindPending(work, p).Some? {
      assert PendingOf(work[FindPending(work, p).value]).value == p;
    }
  }

  /** The table says of a job that it is done exactly if the first such job is. */
  lemma TableDone(jobs: seq<Job<Work>>, p: Pending)
    ensures IsDone(TableOf(jobs), p) <==> Settled(jobs, p)
    ensures Settled(jobs, p) ==>
              match p
              case DeclarationJob(id) => TableOf(jobs).declarations[id] == TaskOf(jobs, p).value
              case StaticIfJob(id) => TableOf(jobs).conditions[id] == TaskOf(jobs, p).condition
              case ParseJob(_) => true
  {
    InKnownJobs(Contents(jobs), p);
    assert p.DeclarationJob? ==> DeclarationJob(p.id) == p;
    assert p.StaticIfJob? ==> StaticIfJob(p.id) == p;
    assert p.ParseJob? ==> ParseJob(p.file) == p;
  }

  lemma TableGrows(jobs: seq<Job<Work>>, jobs': seq<Job<Work>>)
    requires Grows(jobs, jobs')
    ensures NameLookup.Extends(TableOf(jobs), TableOf(jobs'))
  {
    forall p | IsDone(TableOf(jobs), p)
      ensures Settled(jobs, p) && Settled(jobs', p) && TaskOf(jobs', p) == TaskOf(jobs, p)
    {
      TableDone(jobs, p);
      StaysSettled(jobs, jobs', p);
    }
    var t, t' := TableOf(jobs), TableOf(jobs');
    forall d | d in t.declarations
      ensures d in t'.declarations && t'.declarations[d] == t.declarations[d]
    {
      assert IsDone(t, DeclarationJob(d));
      TableDone(jobs, DeclarationJob(d));
      TableDone(jobs', DeclarationJob(d));
    }
    forall c | c in t.conditions
      ensures c in t'.conditions && t'.conditions[c] == t.conditions[c]
    {
      assert IsDone(t, StaticIfJob(c));
      TableDone(jobs, StaticIfJob(c));
      TableDone(jobs', StaticIfJob(c));
    }
    forall f | f in t.parsed
      ensures f in t'.parsed
    {
      assert IsDone(t, ParseJob(f));
      TableDone(jobs', ParseJob(f));
    }
  }

  lemma FunctionJobStays(s: Source, jobs: seq<Job<Work>>, jobs': seq<Job<Work>>, id: nat)
    requires Grows(jobs, jobs') && HasFunctionJob(s, Contents(jobs), id)
    ensures HasFunctionJob(s, Contents(jobs'), id)
  {
    if s.functionOf(id).Some? {
      var j :| 0 <= j < |jobs| && IsDeclared(Contents(jobs)[j], s.functionOf(id).value);
      assert IsDeclared(Contents(jobs')[j], s.functionOf(id).value);
    }
  }

  lemma JobsStayKnown(jobs: seq<Job<Work>>, jobs': seq<Job<Work>>)
    requires Grows(jobs, jobs')
    ensures KnownJobs(Contents(jobs)) <= KnownJobs(Contents(jobs'))
  {
    forall p | p in KnownJobs(Contents(jobs))
      ensures p in KnownJobs(Contents(jobs'))
    {
      InKnownJobs(Contents(jobs), p);
      PendingStays(jobs, jobs', p);
      InKnownJobs(Contents(jobs'), p);
    }
  }

  lemma HaveJobsStill(work: seq<Work>, work': seq<Work>, items: seq<Item>)
    requires KnownJobs(work) <= KnownJobs(work') && HasJobs(work, items)
    ensures HasJobs(work', items)
  {
    forall i | i in items
      ensures ItemHasJob(work', i)
    {
      assert ItemHasJob(work, i);
    }
  }

  // ----- What was found out stays -----

  lemma EvaluationStays(s: Source, t: Table, t': Table, file: nat, path: Path, ignored: Ignored)
    requires NameLookup.Extends(t, t') && file < |s.program.files| && IgnoredIsLive(t, s.program.files[file], ignored)
    ensures AnswerStays(t', EvaluatePath(t, s.program, s.depth, FileScope(s.program, file), path, ignored),
                        EvaluatePath(t', s.program, s.depth, FileScope(s.program, file), path, ignored))
  {
    AvoidsNothing(s.program.files[file]);
    PathStays(t, t', s.program, s.depth, FileScope(s.program, file), {}, path, ignored);
  }

  lemma ValuesStay(s: Source, t: Table, t': Table, file: nat, names: seq<Path>, ignored: Ignored, values: seq<NameLookup.Value>)
    requires NameLookup.Extends(t, t') && AreValues(s, t, file, names, ignored, values) && IgnoredIsLive(t, s.program.files[file], ignored)
    ensures AreValues(s, t', file, names, ignored, values)
  {
    forall k | 0 <= k < |names|
      ensures EvaluatePath(t', s.program, s.depth, FileScope(s.program, file), names[k], ignored) == Answer.Found(values[k])
    {
      EvaluationStays(s, t, t', file, names[k], ignored);
    }
  }

  lemma UseStays(s: Source, t: Table, work: seq<Work>, t': Table, work': seq<Work>, file: nat, u: Use, r: Static)
    requires NameLookup.Extends(t, t') && References.Extends(work, work') && file < |s.program.files|
    requires UseGives(s, t, work, file, u, r)
    ensures UseGives(s, t', work', file, u, r)
  {
    assert SameWork(work[r.job], work'[r.job]);
    if u.UseName? {
      EvaluationStays(s, t, t', file, u.path, Nothing);
    }
  }

  lemma UseStaysMet(s: Source, t: Table, work: seq<Work>, t': Table, work': seq<Work>, file: nat, u: Use, references: seq<Static>)
    requires NameLookup.Extends(t, t') && References.Extends(work, work') && file < |s.program.files|
    requires UseMet(s, t, work, file, u, references)
    ensures UseMet(s, t', work', file, u, references)
  {
    if u.UseName? {
      EvaluationStays(s, t, t', file, u.path, Nothing);
    }
    if r: Static :| r in references && UseGives(s, t, work, file, u, r) {
      UseStays(s, t, work, t', work', file, u, r);
    }
  }

  lemma ReferencesStayUsed(
    s: Source, t: Table, work: seq<Work>, t': Table, work': seq<Work>, i: nat, file: nat, uses: seq<Use>, references: seq<Static>, constants: nat
  )
    requires NameLookup.Extends(t, t') && References.Extends(work, work')
    requires RefersAsUsed(s, t, work, i, file, uses, references, constants)
    ensures RefersAsUsed(s, t', work', i, file, uses, references, constants)
  {
    forall u | u in uses
      ensures UseMet(s, t', work', file, u, references)
    {
      UseStaysMet(s, t, work, t', work', file, u, references);
    }
    forall r | r in references && !(r.job == i && 1 <= r.part <= constants)
      ensures exists u :: u in uses && UseGives(s, t', work', file, u, r)
    {
      var u :| u in uses && UseGives(s, t, work, file, u, r);
      UseStays(s, t, work, t', work', file, u, r);
    }
  }

  /** The conditions around what is being decided have been decided. */
  ghost predicate IsDecidable(s: Source, t: Table, w: Work) {
    w.OtherWork? && w.task.Decide? ==>
      w.task.file < |s.program.files| && IgnoredIsLive(t, s.program.files[w.task.file], TheStaticIf(w.task.id))
  }

  /** What a finished job has found out is right in every later table. */
  lemma ResultStays(s: Source, t: Table, work: seq<Work>, t': Table, work': seq<Work>, i: nat)
    requires NameLookup.Extends(t, t') && References.Extends(work, work') && i < |work| && work'[i] == work[i]
    requires ResultStands(s, t, work, i) && IsDecidable(s, t, work[i])
    ensures ResultStands(s, t', work', i)
  {
    match work[i]
    case OtherWork(Parse(_)) =>
    case OtherWork(Decide(file, id, taken)) =>
      var values :| AreValues(s, t, file, s.conditionNames(id), TheStaticIf(id), values) && s.decide(id, values) == Some(taken);
      ValuesStay(s, t, t', file, s.conditionNames(id), TheStaticIf(id), values);
    case OtherWork(Define(file, id, v)) =>
      var values :| AreValues(s, t, file, s.definitionNames(id), Nothing, values) && s.define(id, values) == Some(v);
      ValuesStay(s, t, t', file, s.definitionNames(id), Nothing, values);
    case FunctionWork(key, references, constants) =>
      ReferencesStayUsed(s, t, work, t', work', i, s.fileOf(key), s.body(key), references, constants);
    case VariableWork(file, id, _) =>
      var values :| AreValues(s, t, file, s.variableNames(id), Nothing, values);
      ValuesStay(s, t, t', file, s.variableNames(id), Nothing, values);
  }

  lemma {:induction false} LiveStays(t: Table, t': Table, items: seq<Item>, ignored: Ignored)
    requires NameLookup.Extends(t, t') && IgnoredIsLive(t, items, ignored)
    ensures IgnoredIsLive(t', items, ignored)
    decreases items
  {
    if ignored.TheStaticIf? {
      forall i | i in items
        ensures ItemIgnoredIsLive(t', i, ignored)
      {
        assert ItemIgnoredIsLive(t, i, ignored);
        if i.StaticIf? && i.id != ignored.id && Mentions(i.items, ignored.id) {
          LiveStays(t, t', i.items, ignored);
        }
      }
    }
  }

  lemma StaysProcessed(jobs: seq<Job<Work>>, jobs': seq<Job<Work>>, o: Owner)
    requires Grows(jobs, jobs') && Processed(jobs, o)
    ensures Processed(jobs', o)
  {
    var j :| 0 <= j < |jobs| && Processes(jobs[j], o);
    assert Processes(jobs'[j], o);
  }

  lemma PlaceStays(s: Source, jobs: seq<Job<Work>>, jobs': seq<Job<Work>>, p: Purpose)
    requires Grows(jobs, jobs') && HasPlace(s, jobs, p)
    ensures HasPlace(s, jobs', p)
  {
    var o: Owner, x: nat :| StandsAt(s, o, x, p) && Processed(jobs, o);
    StaysProcessed(jobs, jobs', o);
  }

  lemma StaysImported(s: Source, jobs: seq<Job<Work>>, jobs': seq<Job<Work>>, file: nat)
    requires Grows(jobs, jobs') && IsImported(s, jobs, file)
    ensures IsImported(s, jobs', file)
  {
    if file != 0 {
      var o: Owner, x: nat :| ImportsAt(s, o, x, file) && Processed(jobs, o);
      StaysProcessed(jobs, jobs', o);
    }
  }

  lemma StaysPlaced(s: Source, jobs: seq<Job<Work>>, jobs': seq<Job<Work>>, i: nat)
    requires Grows(jobs, jobs') && i < |jobs| && IsPlaced(s, jobs, i)
    ensures IsPlaced(s, jobs', i)
  {
    assert SameWork(jobs[i].content, jobs'[i].content);
    match jobs[i].content
    case OtherWork(Decide(file, id, _)) =>
      PlaceStays(s, jobs, jobs', ToResolve(StaticIfJob(id)));
      TableGrows(jobs, jobs');
      LiveStays(TableOf(jobs), TableOf(jobs'), s.program.files[file], TheStaticIf(id));
    case OtherWork(Define(_, id, _)) => PlaceStays(s, jobs, jobs', ToResolve(DeclarationJob(id)));
    case VariableWork(_, id, _) => PlaceStays(s, jobs, jobs', ToInitialize(id));
    case OtherWork(Parse(file)) => StaysImported(s, jobs, jobs', file);
    case FunctionWork(_, _, _) =>
  }

  lemma WorkExtends(jobs: seq<Job<Work>>, jobs': seq<Job<Work>>)
    requires Grows(jobs, jobs')
    ensures References.Extends(Contents(jobs), Contents(jobs'))
  {
  }

  lemma VariableJobsStay(s: Source, work: seq<Work>, work': seq<Work>, file: nat, items: seq<Item>)
    requires References.Extends(work, work') && HasVariableJobs(s, work, file, items)
    ensures HasVariableJobs(s, work', file, items)
  {
    forall i | i in items && i.OtherStatement? && s.isVariable(i.id)
      ensures HasVariableJob(work', file, i.id)
    {
      var j :| 0 <= j < |work| && IsVariableJob(work[j], file, i.id);
      assert SameWork(work[j], work'[j]);
    }
  }

  /** A job that was ready and did not change is still ready. */
  lemma StaysReady(s: Source, jobs: seq<Job<Work>>, jobs': seq<Job<Work>>, i: nat)
    requires Grows(jobs, jobs') && i < |jobs| && IsReady(s, jobs, i)
    requires jobs'[i].content == jobs[i].content && (jobs'[i].state.Done? ==> jobs[i].state.Done?)
    ensures IsReady(s, jobs', i)
  {
    StaysPrepared(s, jobs, jobs', i);
    StaysPlaced(s, jobs, jobs', i);
    if jobs'[i].state.Done? {
      TableGrows(jobs, jobs');
      WorkExtends(jobs, jobs');
      ResultStays(s, TableOf(jobs), Contents(jobs), TableOf(jobs'), Contents(jobs'), i);
    }
  }

  lemma StaysPrepared(s: Source, jobs: seq<Job<Work>>, jobs': seq<Job<Work>>, i: nat)
    requires Grows(jobs, jobs') && i < |jobs| && HasPrepared(s, jobs, i)
    requires jobs'[i].content == jobs[i].content && (jobs'[i].state.Done? ==> jobs[i].state.Done?)
    ensures HasPrepared(s, jobs', i)
  {
    JobsStayKnown(jobs, jobs');
    WorkExtends(jobs, jobs');
    var work, work' := Contents(jobs), Contents(jobs');
    match jobs[i].content
    case OtherWork(Parse(file)) =>
      if jobs[i].state.Done? {
        HaveJobsStill(work, work', s.program.files[file]);
        VariableJobsStay(s, work, work', file, s.program.files[file]);
      }
    case OtherWork(Decide(file, id, taken)) =>
      StaysSettled(jobs, jobs', ParseJob(file));
      if jobs[i].state.Done? && taken {
        HaveJobsStill(work, work', s.statements(id));
        VariableJobsStay(s, work, work', file, s.statements(id));
      }
    case OtherWork(Define(file, id, v)) =>
      StaysSettled(jobs, jobs', ParseJob(file));
      TableGrows(jobs, jobs');
      if jobs[i].state.Done? {
        FunctionJobStays(s, jobs, jobs', id);
      }
    case VariableWork(file, _, _) => StaysSettled(jobs, jobs', ParseJob(file));
    case FunctionWork(_, _, _) => TableGrows(jobs, jobs');
  }

  lemma ResumedIsReady(s: Source, jobs: seq<Job<Work>>, i: nat)
    requires Ready(s, jobs) && i < |jobs| && Runnable(jobs, i)
    ensures Ready(s, Resumed(jobs, i)) && Contents(Resumed(jobs, i)) == Contents(jobs)
  {
    var jobs' := Resumed(jobs, i);
    assert Contents(jobs') == Contents(jobs);
    forall j | 0 <= j < |jobs'|
      ensures IsReady(s, jobs', j)
    {
      StaysReady(s, jobs, jobs', j);
    }
  }

  // ----- Names are looked up in prepared scopes -----

  lemma {:induction false} ScopeIsCovered(s: Source, jobs: seq<Job<Work>>, items: seq<Item>)
    requires Ready(s, jobs) && HasJobs(Contents(jobs), items) && Numbered(s, items)
    ensures Covered(TableOf(jobs), KnownJobs(Contents(jobs)), items)
    decreases items
  {
    var t, known := TableOf(jobs), KnownJobs(Contents(jobs));
    forall i | i in items
      ensures ItemCovered(t, known, i)
    {
      assert ItemHasJob(Contents(jobs), i) && ItemNumbered(s, i);
      if i.StaticIf? && i.id in t.conditions && t.conditions[i.id] {
        var p := StaticIfJob(i.id);
        assert IsDone(t, p);
        TableDone(jobs, p);
        assert IsReady(s, jobs, FindPending(Contents(jobs), p).value);
        ScopeIsCovered(s, jobs, i.items);
      }
    }
  }

  lemma ParsedIsCovered(s: Source, jobs: seq<Job<Work>>, file: nat)
    requires WellFormed(s) && Ready(s, jobs) && Settled(jobs, ParseJob(file))
    ensures file < |s.program.files| && Covered(TableOf(jobs), KnownJobs(Contents(jobs)), s.program.files[file])
  {
    assert IsReady(s, jobs, FindPending(Contents(jobs), ParseJob(file)).value);
    ScopeIsCovered(s, jobs, s.program.files[file]);
  }

  lemma TableIsPrepared(s: Source, jobs: seq<Job<Work>>)
    requires WellFormed(s) && Ready(s, jobs)
    ensures Prepared(TableOf(jobs), s.program, KnownJobs(Contents(jobs)))
  {
    var t := TableOf(jobs);
    forall f | f in t.parsed && f < |s.program.files|
      ensures Covered(t, KnownJobs(Contents(jobs)), s.program.files[f])
    {
      assert IsDone(t, ParseJob(f));
      TableDone(jobs, ParseJob(f));
      ParsedIsCovered(s, jobs, f);
    }
    forall d | d in t.declarations
      ensures Known(t, t.declarations[d])
    {
      var p := DeclarationJob(d);
      assert IsDone(t, p);
      TableDone(jobs, p);
      assert IsReady(s, jobs, FindPending(Contents(jobs), p).value);
    }
    assert AllKnown(Table(map[], map[], {}, {}), s.program.globals);
  }

  /** A file's names give known values, or wait for a job that exists and is not done. */
  lemma FileIsCovered(s: Source, jobs: seq<Job<Work>>, file: nat)
    requires WellFormed(s) && Ready(s, jobs) && Settled(jobs, ParseJob(file))
    ensures file < |s.program.files| && ScopesCovered(TableOf(jobs), KnownJobs(Contents(jobs)), FileScope(s.program, file))
  {
    ParsedIsCovered(s, jobs, file);
  }

  predicate StopsWell(jobs: seq<Job<Work>>, stop: Stop) {
    stop.WaitsOn? ==> stop.job < |jobs| && !jobs[stop.job].state.Done?
  }

  lemma NameStopsWell(s: Source, jobs: seq<Job<Work>>, file: nat, path: Path, ignored: Ignored)
    requires WellFormed(s) && Ready(s, jobs) && InParsedFile(s, jobs, file)
    ensures var a := EvaluatePath(TableOf(jobs), s.program, s.depth, FileScope(s.program, file), path, ignored);
            StopsWell(jobs, StopAt(Contents(jobs), a)) && (a.Found? ==> Known(TableOf(jobs), a.value)) &&
            (a.Wait? ==> StopAt(Contents(jobs), a).WaitsOn?)
  {
    var t, known := TableOf(jobs), KnownJobs(Contents(jobs));
    TableIsPrepared(s, jobs);
    FileIsCovered(s, jobs, file);
    PathSensible(t, s.program, known, s.depth, FileScope(s.program, file), path, ignored);
    var a := EvaluatePath(t, s.program, s.depth, FileScope(s.program, file), path, ignored);
    if a.Wait? {
      TableDone(jobs, a.job);
      InKnownJobs(Contents(jobs), a.job);
    }
  }

  lemma {:induction false} ValuesStopWell(s: Source, jobs: seq<Job<Work>>, file: nat, names: seq<Path>, ignored: Ignored)
    requires WellFormed(s) && Ready(s, jobs) && InParsedFile(s, jobs, file)
    ensures var (values, stop) := Values(s, TableOf(jobs), Contents(jobs), file, names, ignored);
            StopsWell(jobs, stop) && ValuesKnown(TableOf(jobs), values)
    decreases |names|
  {
    if names != [] {
      NameStopsWell(s, jobs, file, names[0], ignored);
      ValuesStopWell(s, jobs, file, names[1..], ignored);
    }
  }

  lemma {:induction false} ValuesAreRight(s: Source, t: Table, work: seq<Work>, file: nat, names: seq<Path>, ignored: Ignored)
    requires file < |s.program.files|
    ensures var (values, stop) := Values(s, t, work, file, names, ignored);
            stop.Through? ==> AreValues(s, t, file, names, ignored, values)
    decreases |names|
  {
    if names != [] {
      ValuesAreRight(s, t, work, file, names[1..], ignored);
      var (rest, _) := Values(s, t, work, file, names[1..], ignored);
      assert forall k :: 1 <= k < |names| ==> names[k] == names[1..][k - 1];
    }
  }

  predicate AreVariables(work: seq<Work>, indices: seq<nat>) {
    forall v :: v in indices ==> v < |work| && work[v].VariableWork?
  }

  ghost predicate AreResolvedFunctions(s: Source, t: Table, keys: seq<Key>) {
    forall k :: k in keys ==> IsResolvedFunction(s, t, k)
  }

  lemma {:induction false} PassStopsWell(s: Source, jobs: seq<Job<Work>>, file: nat, uses: seq<Use>)
    requires WellFormed(s) && Ready(s, jobs) && InParsedFile(s, jobs, file)
    ensures var pass := PassOver(s, jobs, file, uses);
            StopsWell(jobs, pass.stop) && AreVariables(Contents(jobs), pass.variables) && AreResolvedFunctions(s, TableOf(jobs), pass.requests)
    decreases |uses|
  {
    if uses != [] {
      PassStopsWell(s, jobs, file, uses[1..]);
      if uses[0].UseName? {
        NameStopsWell(s, jobs, file, uses[0].path, Nothing);
      }
    }
  }

  // ----- The jobs a run appends -----

  /** Jobs of a scope in `file`: to parse a file, or to resolve something in this one. */
  predicate IsScopeJob(file: nat, w: Work) {
    match w
    case OtherWork(Parse(_)) => true
    case OtherWork(Decide(f, _, _)) => f == file
    case OtherWork(Define(f, _, _)) => f == file
    case VariableWork(f, _, references) => f == file && references == []
    case FunctionWork(_, _, _) => false
  }

  lemma MoreAreKnown(before: seq<Work>, after: seq<Work>)
    requires before <= after
    ensures KnownJobs(before) <= KnownJobs(after)
  {
    forall p | p in KnownJobs(before)
      ensures p in KnownJobs(after)
    {
      InKnownJobs(before, p);
      var i := FindPending(before, p).value;
      assert PendingOf(after[i]) == Some(p);
      InKnownJobs(after, p);
    }
  }

  lemma PurposeAfter(before: seq<Work>, w: Work, p: Purpose)
    requires HasPurpose(before + [w], p)
    ensures HasPurpose(before, p) || PurposeOf(w) == Some(p)
  {
    var i :| 0 <= i < |before + [w]| && PurposeOf((before + [w])[i]) == Some(p);
    if i < |before| {
      assert PurposeOf(before[i]) == Some(p);
    }
  }

  /** A statement has no job, one that is there already, or the one it is given. */
  lemma ItsJob(s: Source, before: seq<Work>, file: nat, item: Item)
    ensures var jobs := JobFor(s, before, file, item);
            |jobs| <= 1 && (|jobs| == 1 ==> IsJobOf(s, file, item, jobs[0]) && PurposeOf(jobs[0]).Some?) &&
            (|jobs| == 1 && IsParsing(PurposeOf(jobs[0]).value) ==> !HasPurpose(before, PurposeOf(jobs[0]).value)) &&
            (|jobs| == 1 && !IsParsing(PurposeOf(jobs[0]).value) ==> PurposeOf(jobs[0]) == OwnPurpose(s, item))
  {
    var jobs := JobFor(s, before, file, item);
    if |jobs| == 1 && IsParsing(PurposeOf(jobs[0]).value) {
      forall i | 0 <= i < |before|
        ensures PurposeOf(before[i]) != PurposeOf(jobs[0])
      {
        assert PendingOf(before[i]) != PendingOf(jobs[0]);
      }
    }
  }

  lemma OneMoreOnce(before: seq<Work>, w: Work)
    requires EachOnce(before) && (PurposeOf(w).Some? ==> !HasPurpose(before, PurposeOf(w).value))
    ensures EachOnce(before + [w])
  {
  }

  lemma ItemIsServed(s: Source, before: seq<Work>, file: nat, item: Item)
    ensures var after := before + JobFor(s, before, file, item); ItemHasJob(after, item) && HasVariableJobs(s, after, file, [item])
  {
    var jobs := JobFor(s, before, file, item);
    var after := before + jobs;
    if jobs == [] {
      assert after == before;
      if item.Declaration? && item.kind.ImportOf? {
        InKnownJobs(before, ParseJob(item.kind.file));
      }
    } else {
      assert after[|before|] == jobs[0];
      if PendingOf(jobs[0]).Some? {
        InKnownJobs(after, PendingOf(jobs[0]).value);
      }
    }
  }

  lemma OneJobFor(s: Source, before: seq<Work>, file: nat, item: Item)
    requires EachOnce(before) && (OwnPurpose(s, item).Some? ==> !HasPurpose(before, OwnPurpose(s, item).value))
    ensures var after := before + JobFor(s, before, file, item);
            ItemHasJob(after, item) && HasVariableJobs(s, after, file, [item]) && EachOnce(after) &&
            forall w :: w in JobFor(s, before, file, item) ==> IsJobOf(s, file, item, w)
    ensures forall p :: HasPurpose(before + JobFor(s, before, file, item), p) ==> HasPurpose(before, p) || IsParsing(p) || OwnPurpose(s, item) == Some(p)
  {
    var jobs := JobFor(s, before, file, item);
    ItemIsServed(s, before, file, item);
    ItsJob(s, before, file, item);
    if jobs == [] {
      assert before + jobs == before;
    } else {
      assert jobs == [jobs[0]];
      OneMoreOnce(before, jobs[0]);
      forall p | HasPurpose(before + jobs, p)
        ensures HasPurpose(before, p) || IsParsing(p) || OwnPurpose(s, item) == Some(p)
      {
        PurposeAfter(before, jobs[0], p);
      }
    }
  }

  predicate IsParsing(p: Purpose) {
    p.ToResolve? && p.pending.ParseJob?
  }

  /** A job of this statement, or to parse what it imports. */
  predicate IsJobOf(s: Source, file: nat, item: Item, w: Work) {
    IsScopeJob(file, w) &&
    if w.OtherWork? && w.task.Parse? then item.Declaration? && item.kind == ImportOf(w.task.file) else OwnPurpose(s, item) == PurposeOf(w)
  }

  predicate IsJobOfSome(s: Source, file: nat, items: seq<Item>, w: Work) {
    exists x :: 0 <= x < |items| && IsJobOf(s, file, items[x], w)
  }

  /** None of these statements has a job yet, and no two have the same one. */
  predicate AreFresh(s: Source, before: seq<Work>, items: seq<Item>) {
    (forall x :: 0 <= x < |items| && OwnPurpose(s, items[x]).Some? ==> !HasPurpose(before, OwnPurpose(s, items[x]).value)) &&
    forall x, y :: 0 <= x < y < |items| && OwnPurpose(s, items[y]).Some? ==> OwnPurpose(s, items[x]) != OwnPurpose(s, items[y])
  }

  lemma RestIsFresh(s: Source, before: seq<Work>, next: seq<Work>, items: seq<Item>)
    requires items != [] && AreFresh(s, before, items)
    requires forall p :: HasPurpose(next, p) ==> HasPurpose(before, p) || IsParsing(p) || OwnPurpose(s, items[0]) == Some(p)
    ensures AreFresh(s, next, items[1..])
  {
    assert forall x :: 0 <= x < |items[1..]| ==> items[1..][x] == items[x + 1];
  }

  lemma FirstAndRestHaveJobs(s: Source, next: seq<Work>, after: seq<Work>, file: nat, items: seq<Item>)
    requires items != [] && next <= after && ItemHasJob(next, items[0]) && HasVariableJobs(s, next, file, [items[0]])
    requires HasJobs(after, items[1..]) && HasVariableJobs(s, after, file, items[1..])
    ensures HasJobs(after, items) && HasVariableJobs(s, after, file, items)
  {
    MoreAreKnown(next, after);
    VariableJobsStay(s, next, after, file, [items[0]]);
    assert forall i :: i in items <==> i in [items[0]] || i in items[1..];
    HaveJobsStill(next, after, [items[0]]);
  }

  lemma JobsOfFirstAndRest(s: Source, file: nat, items: seq<Item>, first: seq<Work>, later: seq<Work>)
    requires items != [] && forall w :: w in first ==> IsJobOf(s, file, items[0], w)
    requires forall w :: w in later ==> IsJobOfSome(s, file, items[1..], w)
    ensures forall w :: w in first + later ==> IsJobOfSome(s, file, items, w)
  {
    forall w | w in first + later
      ensures IsJobOfSome(s, file, items, w)
    {
      if w in first {
        assert IsJobOf(s, file, items[0], w);
      } else {
        var x :| 0 <= x < |items[1..]| && IsJobOf(s, file, items[1..][x], w);
        assert IsJobOf(s, file, items[x + 1], w);
      }
    }
  }

  /** Processing a scope leaves a job for every statement that needs one, and none twice. */
  lemma {:induction false} ScopeHasJobs(s: Source, before: seq<Work>, file: nat, items: seq<Item>)
    requires EachOnce(before) && AreFresh(s, before, items)
    ensures var after := before + JobsFor(s, before, file, items);
            HasJobs(after, items) && HasVariableJobs(s, after, file, items) && EachOnce(after) &&
            forall w :: w in JobsFor(s, before, file, items) ==> IsJobOfSome(s, file, items, w)
    decreases |items|
  {
    if items == [] {
      assert before + [] == before;
    } else {
      var first := JobFor(s, before, file, items[0]);
      var next := before + first;
      OneJobFor(s, before, file, items[0]);
      RestIsFresh(s, before, next, items);
      ScopeHasJobs(s, next, file, items[1..]);
      var later := JobsFor(s, next, file, items[1..]);
      assert before + JobsFor(s, before, file, items) == next + later;
      FirstAndRestHaveJobs(s, next, next + later, file, items);
      JobsOfFirstAndRest(s, file, items, first, later);
    }
  }

  lemma ScopeJobsAreNew(before: seq<Work>, appended: seq<Work>, file: nat)
    requires forall w :: w in appended ==> IsScopeJob(file, w)
    ensures NewOnes(before + appended, |before|)
  {
    var after := before + appended;
    forall j | |before| <= j < |after|
      ensures IsNew(after, j)
    {
      assert after[j] in appended;
    }
  }

  // ----- Runs keep the table ready -----

  /** What the result of a run of job `i` must be like. */
  ghost predicate GoodRun(s: Source, jobs: seq<Job<Work>>, i: nat, result: RunResult<Work>)
    requires i < |jobs|
  {
    !result.RunFailed? ==>
      SameWork(jobs[i].content, result.content) && Ready(s, AfterRun(jobs, i, result)) &&
      (result.Waits? ==> IsWait(jobs, result.on, result.appended))
  }

  ghost predicate ReadyFrom(s: Source, jobs: seq<Job<Work>>, from: nat) {
    forall j :: from <= j < |jobs| ==> IsReady(s, jobs, j)
  }

  lemma AfterGrows(jobs: seq<Job<Work>>, i: nat, result: RunResult<Work>)
    requires i < |jobs| && jobs[i].state.Working? && !result.RunFailed? && SameWork(jobs[i].content, result.content)
    ensures Grows(jobs, AfterRun(jobs, i, result))
    ensures Contents(AfterRun(jobs, i, result)) == Contents(jobs)[i := result.content] + result.appended
  {
  }

  /** Only the job that ran and the new jobs need to be looked at. */
  lemma RunIsGood(s: Source, jobs: seq<Job<Work>>, i: nat, result: RunResult<Work>)
    requires Ready(s, jobs) && i < |jobs| && jobs[i].state.Working? && !result.RunFailed?
    requires SameWork(jobs[i].content, result.content)
    requires var after := Contents(jobs)[i := result.content] + result.appended; AllowedRun(Contents(jobs), i, after) && EachOnce(after)
    requires IsReady(s, AfterRun(jobs, i, result), i) && ReadyFrom(s, AfterRun(jobs, i, result), |jobs|)
    ensures Ready(s, AfterRun(jobs, i, result))
  {
    var jobs' := AfterRun(jobs, i, result);
    AfterGrows(jobs, i, result);
    RunKeepsSound(Contents(jobs), i, Contents(jobs'));
    forall j | 0 <= j < |jobs'|
      ensures IsReady(s, jobs', j)
    {
      if j < |jobs| && j != i {
        StaysReady(s, jobs, jobs', j);
      }
    }
  }

  /** A run that only waits, with nothing appended. */
  lemma WaitIsGood(s: Source, jobs: seq<Job<Work>>, i: nat, on: nat)
    requires Ready(s, jobs) && i < |jobs| && jobs[i].state.Working? && StopsWell(jobs, WaitsOn(on))
    ensures GoodRun(s, jobs, i, Waits(on, jobs[i].content, []))
  {
    var result := Waits(on, jobs[i].content, []);
    var jobs' := AfterRun(jobs, i, result);
    var work := Contents(jobs);
    assert work[i := result.content] + [] == work;
    AfterGrows(jobs, i, result);
    StaysReady(s, jobs, jobs', i);
    assert RefersToStatics(work, i);
    RunIsGood(s, jobs, i, result);
  }

  lemma ChangedContent(work: seq<Work>, i: nat, content: Work)
    requires i < |work| && PurposeOf(content) == PurposeOf(work[i])
    ensures KnownJobs(work[i := content]) == KnownJobs(work)
    ensures EachOnce(work) ==> EachOnce(work[i := content])
  {
    var changed := work[i := content];
    forall p
      ensures p in KnownJobs(changed) <==> p in KnownJobs(work)
    {
      if p in KnownJobs(work) {
        InKnownJobs(work, p);
        assert PendingOf(changed[FindPending(work, p).value]) == Some(p);
      }
      if p in KnownJobs(changed) {
        InKnownJobs(changed, p);
        assert PendingOf(work[FindPending(changed, p).value]) == Some(p);
      }
      InKnownJobs(work, p);
      InKnownJobs(changed, p);
    }
    if EachOnce(work) {
      forall a, b | 0 <= a < b < |changed| && PurposeOf(changed[b]).Some?
        ensures PurposeOf(changed[a]) != PurposeOf(changed[b])
      {
        assert PurposeOf(work[b]).Some? && PurposeOf(work[a]) == PurposeOf(changed[a]);
      }
    }
  }

  /** The table after the jobs of a scope have been appended. */
  lemma ScopeIsAllowed(s: Source, work: seq<Work>, i: nat, task: Task, items: seq<Item>, file: nat) returns (after: seq<Work>)
    requires Sound(work) && EachOnce(work) && AreFresh(s, work, items) && i < |work| && work[i].OtherWork? && SameTask(work[i].task, task)
    ensures after == work[i := OtherWork(task)] + JobsFor(s, work, file, items)
    ensures AllowedRun(work, i, after) && EachOnce(after) && HasJobs(after, items) && HasVariableJobs(s, after, file, items)
    ensures forall w :: w in JobsFor(s, work, file, items) ==> IsJobOfSome(s, file, items, w)
  {
    var appended, content := JobsFor(s, work, file, items), OtherWork(task);
    after := work[i := content] + appended;
    ScopeHasJobs(s, work, file, items);
    ChangedContent(work + appended, i, content);
    assert after == (work + appended)[i := content];
    HaveJobsStill(work + appended, after, items);
    VariableJobsStay(s, work + appended, after, file, items);
    ScopeJobsAreNew(work[i := content], appended, file);
  }

  /** What a task processes when it is finished like this. */
  predicate Opens(s: Source, task: Task, file: nat, o: Owner) {
    match task
    case Parse(f) => f == file < |s.program.files| && o == OfFile(file)
    case Decide(f, id, taken) => f == file && taken && o == OfStaticIf(id)
    case Define(_, _, _) => false
  }

  /** Before a list is processed none of its statements has a job. */
  lemma ListIsFresh(s: Source, jobs: seq<Job<Work>>, i: nat, task: Task, file: nat, o: Owner)
    requires WellFormed(s) && Ready(s, jobs) && i < |jobs| && jobs[i].state.Working? && jobs[i].content.OtherWork?
    requires SameTask(jobs[i].content.task, task) && Opens(s, task, file, o)
    ensures AreFresh(s, Contents(jobs), ItemsOf(s, o))
  {
    var items, work := ItemsOf(s, o), Contents(jobs);
    NotYetProcessed(s, jobs, i, task, file, o);
    forall x | 0 <= x < |items| && OwnPurpose(s, items[x]).Some?
      ensures !HasPurpose(work, OwnPurpose(s, items[x]).value)
    {
      var p := OwnPurpose(s, items[x]).value;
      if j :| 0 <= j < |work| && PurposeOf(work[j]) == Some(p) {
        assert IsReady(s, jobs, j) && HasPlace(s, jobs, p) && StandsAt(s, o, x, p);
      }
    }
    forall x, y | 0 <= x < y < |items| && OwnPurpose(s, items[y]).Some?
      ensures OwnPurpose(s, items[x]) != OwnPurpose(s, items[y])
    {
      assert StandsAt(s, o, y, OwnPurpose(s, items[y]).value);
      if OwnPurpose(s, items[x]) == OwnPurpose(s, items[y]) {
        assert StandsAt(s, o, x, OwnPurpose(s, items[y]).value);
      }
    }
  }

  lemma NotYetProcessed(s: Source, jobs: seq<Job<Work>>, i: nat, task: Task, file: nat, o: Owner)
    requires EachOnce(Contents(jobs)) && i < |jobs| && jobs[i].state.Working? && jobs[i].content.OtherWork?
    requires SameTask(jobs[i].content.task, task) && Opens(s, task, file, o)
    ensures !Processed(jobs, o)
  {
    var work := Contents(jobs);
    assert PurposeOf(work[i]).Some?;
    forall j | 0 <= j < |jobs|
      ensures !Processes(jobs[j], o)
    {
      assert j != i ==> PurposeOf(work[j]) != PurposeOf(work[i]);
      assert PurposeOf(work[j]) == PurposeOf(jobs[j].content);
    }
  }

  /** The only job for something that is pending is the one the table goes by. */
  lemma OnlyJob(jobs: seq<Job<Work>>, i: nat, p: Pending)
    requires i < |jobs| && PendingOf(jobs[i].content) == Some(p) && EachOnce(Contents(jobs))
    ensures FindPending(Contents(jobs), p) == Some(i)
    ensures jobs[i].state.Done? ==> Settled(jobs, p)
  {
    var work := Contents(jobs);
    assert PendingOf(work[i]) == Some(p);
    assert FindPending(work, p).Some?;
    assert FindPending(work, p).value == i;
  }

  /** The jobs of a list that has just been processed. */
  lemma ScopeJobsArePlaced(s: Source, jobs: seq<Job<Work>>, i: nat, task: Task, file: nat, o: Owner, j: nat)
    requires WellFormed(s) && EachOnce(Contents(jobs)) && i < |jobs| && jobs[i] == Job(OtherWork(task), Done) && Opens(s, task, file, o)
    requires IsPlaced(s, jobs, i) && file < |s.program.files|
    requires j < |jobs| && IsJobOfSome(s, file, ItemsOf(s, o), jobs[j].content)
    ensures IsPlaced(s, jobs, j)
  {
    var x :| 0 <= x < |ItemsOf(s, o)| && IsJobOf(s, file, ItemsOf(s, o)[x], jobs[j].content);
    assert Processes(jobs[i], o);
    var w := jobs[j].content;
    if w.OtherWork? && w.task.Parse? {
      assert ImportsAt(s, o, x, w.task.file);
    } else {
      assert StandsAt(s, o, x, PurposeOf(w).value);
      if w.OtherWork? && w.task.Decide? {
        ListIsLive(s, jobs, i, task, file, o, x, w.task.id);
      }
    }
  }

  lemma ListIsLive(s: Source, jobs: seq<Job<Work>>, i: nat, task: Task, file: nat, o: Owner, x: nat, id: nat)
    requires WellFormed(s) && EachOnce(Contents(jobs)) && i < |jobs| && jobs[i] == Job(OtherWork(task), Done) && Opens(s, task, file, o)
    requires IsPlaced(s, jobs, i) && file < |s.program.files| && StandsAt(s, o, x, ToResolve(StaticIfJob(id)))
    ensures IgnoredIsLive(TableOf(jobs), s.program.files[file], TheStaticIf(id))
  {
    if task.Parse? {
      TopIsLive(s, TableOf(jobs), file, x, id);
    } else {
      OnlyJob(jobs, i, StaticIfJob(task.id));
      TableDone(jobs, StaticIfJob(task.id));
      assert IsDone(TableOf(jobs), StaticIfJob(task.id));
      NestedIsLive(s, TableOf(jobs), s.program.files[file], task.id, x, id);
    }
  }

  lemma ScopeJobsAreReady(s: Source, jobs: seq<Job<Work>>, i: nat, task: Task, o: Owner, from: nat, file: nat)
    requires WellFormed(s) && EachOnce(Contents(jobs)) && i < |jobs| && jobs[i] == Job(OtherWork(task), Done) && Opens(s, task, file, o)
    requires IsPlaced(s, jobs, i) && InParsedFile(s, jobs, file)
    requires forall j :: from <= j < |jobs| ==> jobs[j].state.Working? && IsJobOfSome(s, file, ItemsOf(s, o), jobs[j].content)
    ensures ReadyFrom(s, jobs, from)
  {
    forall j | from <= j < |jobs|
      ensures IsReady(s, jobs, j)
    {
      ScopeJobsArePlaced(s, jobs, i, task, file, o, j);
    }
  }

  // ----- Static-ifs inside others -----

  function Height(items: seq<Item>): nat
    decreases items
  {
    if items == [] then 0 else
    var (first, rest) := (ItemHeight(items[0]), Height(items[1..]));
    if first > rest then first else rest
  }

  function ItemHeight(item: Item): nat
    decreases item
  {
    if item.StaticIf? then 1 + Height(item.items) else 0
  }

  lemma {:induction false} ItemIsLower(items: seq<Item>, item: Item)
    requires item in items
    ensures ItemHeight(item) <= Height(items)
    decreases items
  {
    if item != items[0] {
      ItemIsLower(items[1..], item);
    }
  }

  /** A static-if inside one of some statements stands in a list that is lower than theirs. */
  lemma {:induction false} InsideHasPlace(s: Source, item: Item, id: nat) returns (n: nat, x: nat)
    requires item.StaticIf? && ItemNumbered(s, item) && Mentions(item.items, id)
    ensures StandsAt(s, OfStaticIf(n), x, ToResolve(StaticIfJob(id))) && Height(s.statements(n)) < ItemHeight(item)
    ensures n == item.id || Mentions(item.items, n)
    decreases item
  {
    var inner :| inner in item.items && ItemMentions(inner, id);
    if inner.id == id {
      x :| 0 <= x < |item.items| && item.items[x] == inner;
      n := item.id;
    } else {
      assert ItemNumbered(s, inner);
      n, x := InsideHasPlace(s, inner, id);
      ItemIsLower(item.items, inner);
      if n != inner.id {
        assert ItemMentions(inner, n);
      }
      assert Mentions(item.items, n);
    }
  }

  /** A static-if of a file itself has none around it. */
  lemma TopIsLive(s: Source, t: Table, file: nat, x: nat, id: nat)
    requires WellFormed(s) && file < |s.program.files| && StandsAt(s, OfFile(file), x, ToResolve(StaticIfJob(id)))
    ensures IgnoredIsLive(t, s.program.files[file], TheStaticIf(id))
  {
    forall i | i in s.program.files[file]
      ensures ItemIgnoredIsLive(t, i, TheStaticIf(id))
    {
      if i.StaticIf? && Mentions(i.items, id) {
        assert ItemNumbered(s, i);
        var n, y := InsideHasPlace(s, i, id);
        assert false;
      }
    }
  }

  /** Around a static-if in a taken one are those around that one, and it. */
  lemma {:induction false} NestedIsLive(s: Source, t: Table, items: seq<Item>, outer: nat, x: nat, id: nat)
    requires PlacedOnce(s) && Numbered(s, items) && StandsAt(s, OfStaticIf(outer), x, ToResolve(StaticIfJob(id)))
    requires outer in t.conditions && t.conditions[outer] && IgnoredIsLive(t, items, TheStaticIf(outer))
    ensures IgnoredIsLive(t, items, TheStaticIf(id))
    decreases items
  {
    forall i | i in items
      ensures ItemIgnoredIsLive(t, i, TheStaticIf(id))
    {
      if i.StaticIf? && i.id != id && Mentions(i.items, id) {
        assert ItemNumbered(s, i) && ItemIgnoredIsLive(t, i, TheStaticIf(outer));
        var n, y := InsideHasPlace(s, i, id);
        assert OfStaticIf(n) == OfStaticIf(outer);
        if i.id == outer {
          NothingBetween(s, t, i, x, id);
        } else {
          NestedIsLive(s, t, i.items, outer, x, id);
        }
      }
    }
  }

  /** A static-if that stands directly in another has none between. */
  lemma NothingBetween(s: Source, t: Table, item: Item, x: nat, id: nat)
    requires PlacedOnce(s) && item.StaticIf? && ItemNumbered(s, item) && StandsAt(s, OfStaticIf(item.id), x, ToResolve(StaticIfJob(id)))
    ensures IgnoredIsLive(t, item.items, TheStaticIf(id))
  {
    forall j | j in item.items
      ensures ItemIgnoredIsLive(t, j, TheStaticIf(id))
    {
      if j.StaticIf? && j.id != id && Mentions(j.items, id) {
        assert ItemNumbered(s, j);
        var n, y := InsideHasPlace(s, j, id);
        assert OfStaticIf(n) == OfStaticIf(item.id);
        ItemIsLower(item.items, j);
        assert false;
      }
    }
  }

  /** The condition of the static-if is true. */
  ghost predicate IsTakenIn(s: Source, t: Table, file: nat, id: nat) {
    exists values :: AreValues(s, t, file, s.conditionNames(id), TheStaticIf(id), values) && s.decide(id, values) == Some(true)
  }

  /** A run that finishes a resolving job and appends the jobs of the list it processes. */
  lemma ScopeRunIsGood(s: Source, jobs: seq<Job<Work>>, i: nat, task: Task, o: Owner, file: nat)
    requires WellFormed(s) && Ready(s, jobs) && i < |jobs| && jobs[i].state.Working? && jobs[i].content.OtherWork?
    requires SameTask(jobs[i].content.task, task) && Opens(s, task, file, o)
    requires task.Decide? ==> IsTakenIn(s, TableOf(jobs), file, task.id)
    ensures GoodRun(s, jobs, i, Finished(OtherWork(task), JobsFor(s, Contents(jobs), file, ItemsOf(s, o))))
  {
    var result := Finished(OtherWork(task), JobsFor(s, Contents(jobs), file, ItemsOf(s, o)));
    var jobs' := AfterRun(jobs, i, result);
    AfterGrows(jobs, i, result);
    ListIsFresh(s, jobs, i, task, file, o);
    var after := ScopeIsAllowed(s, Contents(jobs), i, task, ItemsOf(s, o), file);
    ScopeRunIsReady(s, jobs, i, task, o, file, result.appended, jobs');
    RunIsGood(s, jobs, i, result);
  }

  lemma ScopeRunIsReady(
    s: Source, jobs: seq<Job<Work>>, i: nat, task: Task, o: Owner, file: nat, appended: seq<Work>, jobs': seq<Job<Work>>
  )
    requires WellFormed(s) && Ready(s, jobs) && i < |jobs| && jobs[i].content.OtherWork? && SameTask(jobs[i].content.task, task)
    requires Opens(s, task, file, o) && Grows(jobs, jobs') && jobs' == jobs[i := Job(OtherWork(task), Done)] + NewJobs(appended)
    requires EachOnce(Contents(jobs')) && HasJobs(Contents(jobs'), ItemsOf(s, o)) && HasVariableJobs(s, Contents(jobs'), file, ItemsOf(s, o))
    requires forall w :: w in appended ==> IsJobOfSome(s, file, ItemsOf(s, o), w)
    requires task.Decide? ==> IsTakenIn(s, TableOf(jobs), file, task.id)
    ensures IsReady(s, jobs', i) && ReadyFrom(s, jobs', |jobs|)
  {
    assert IsReady(s, jobs, i);
    StaysPlaced(s, jobs, jobs', i);
    ScopeRunPrepares(s, jobs, i, task, o, file, jobs');
    assert forall j :: |jobs| <= j < |jobs'| ==> jobs'[j] == Job(appended[j - |jobs|], Working) && jobs'[j].content in appended;
    ScopeJobsAreReady(s, jobs', i, task, o, |jobs|, file);
  }

  lemma ScopeRunPrepares(s: Source, jobs: seq<Job<Work>>, i: nat, task: Task, o: Owner, file: nat, jobs': seq<Job<Work>>)
    requires Ready(s, jobs) && i < |jobs| && jobs[i].content.OtherWork? && SameTask(jobs[i].content.task, task) && Opens(s, task, file, o)
    requires Grows(jobs, jobs') && jobs'[i] == Job(OtherWork(task), Done) && EachOnce(Contents(jobs'))
    requires HasJobs(Contents(jobs'), ItemsOf(s, o)) && HasVariableJobs(s, Contents(jobs'), file, ItemsOf(s, o))
    requires task.Decide? ==> IsTakenIn(s, TableOf(jobs), file, task.id)
    ensures InParsedFile(s, jobs', file) && HasPrepared(s, jobs', i) && ResultStands(s, TableOf(jobs'), Contents(jobs'), i)
  {
    assert IsReady(s, jobs, i);
    if task.Parse? {
      OnlyJob(jobs', i, ParseJob(file));
    } else {
      StaysSettled(jobs, jobs', ParseJob(file));
      TableGrows(jobs, jobs');
      var values :| AreValues(s, TableOf(jobs), file, s.conditionNames(task.id), TheStaticIf(task.id), values) && s.decide(task.id, values) == Some(true);
      ValuesStay(s, TableOf(jobs), TableOf(jobs'), file, s.conditionNames(task.id), TheStaticIf(task.id), values);
    }
  }

  ghost predicate IsPlain(s: Source, jobs: seq<Job<Work>>, content: Work) {
    match content
    case OtherWork(Parse(_)) => false
    case OtherWork(Decide(file, _, taken)) => InParsedFile(s, jobs, file) && !taken
    case OtherWork(Define(file, id, v)) => InParsedFile(s, jobs, file) && Known(WithFunction(TableOf(jobs), id), v)
    case VariableWork(file, _, references) => InParsedFile(s, jobs, file) && references == []
    case FunctionWork(key, _, _) => IsResolvedFunction(s, TableOf(jobs), key)
  }

  predicate IsDefinition(w: Work) {
    w.OtherWork? && w.task.Define?
  }

  lemma PlainIsPrepared(s: Source, jobs: seq<Job<Work>>, jobs': seq<Job<Work>>, i: nat, content: Work)
    requires Grows(jobs, jobs') && i < |jobs| && jobs'[i] == Job(content, Done) && IsPlain(s, jobs, content)
    requires IsDefinition(content) ==> HasFunctionJob(s, Contents(jobs'), content.task.id)
    ensures HasPrepared(s, jobs', i)
  {
    match content
    case OtherWork(Decide(file, _, _)) => StaysSettled(jobs, jobs', ParseJob(file));
    case OtherWork(Define(file, id, v)) =>
      StaysSettled(jobs, jobs', ParseJob(file));
      TableGrows(jobs, jobs');
      assert IsResolved(jobs'[i]) && jobs'[i].content.task.id == id;
      assert id in TableOf(jobs').functions;
    case VariableWork(file, _, _) => StaysSettled(jobs, jobs', ParseJob(file));
    case FunctionWork(_, _, _) => TableGrows(jobs, jobs');
  }

  ghost predicate NewFunctions(s: Source, t: Table, appended: seq<Work>) {
    forall w :: w in appended ==> w.FunctionWork? && w.constants == 0 && IsResolvedFunction(s, t, w.key)
  }

  /** Functions that were appended wait for nothing. */
  lemma FunctionsAreReady(s: Source, jobs: seq<Job<Work>>, i: nat, result: RunResult<Work>)
    requires i < |jobs| && !result.RunFailed? && NewFunctions(s, TableOf(AfterRun(jobs, i, result)), result.appended)
    ensures ReadyFrom(s, AfterRun(jobs, i, result), |jobs|)
  {
    var jobs' := AfterRun(jobs, i, result);
    forall j | |jobs| <= j < |jobs'|
      ensures IsReady(s, jobs', j)
    {
      assert jobs'[j] == Job(result.appended[j - |jobs|], Working);
    }
  }

  lemma PlainIsAllowed(work: seq<Work>, i: nat, content: Work, appended: seq<Work>) returns (after: seq<Work>)
    requires Sound(work) && EachOnce(work) && i < |work| && SameWork(work[i], content)
    requires NewOnes(work + appended, |work|) && forall w :: w in appended ==> w.FunctionWork?
    requires ReferencesOf(content) == [] || RefersToStatics(work[i := content] + appended, i)
    ensures after == work[i := content] + appended && AllowedRun(work, i, after) && EachOnce(after)
  {
    after := work[i := content] + appended;
    ChangedContent(work, i, content);
    NewStaysNew(work, appended, i, content);
    FunctionsParseNothing(work[i := content], appended);
  }

  /** A static-if that is not taken, a definition, a variable or a function: at most functions are appended. */
  lemma PlainRunIsGood(s: Source, jobs: seq<Job<Work>>, i: nat, content: Work, appended: seq<Work>)
    requires Ready(s, jobs) && i < |jobs| && jobs[i].state.Working? && SameWork(jobs[i].content, content)
    requires NewOnes(Contents(jobs) + appended, |jobs|) && NewFunctions(s, TableOf(AfterRun(jobs, i, Finished(content, appended))), appended)
    requires ReferencesOf(content) == [] || RefersToStatics(Contents(jobs)[i := content] + appended, i)
    requires IsPlain(s, jobs, content)
    requires IsDefinition(content) ==> HasFunctionJob(s, Contents(jobs)[i := content] + appended, content.task.id)
    requires ResultStands(s, TableOf(jobs), Contents(jobs)[i := content] + appended, i)
    ensures GoodRun(s, jobs, i, Finished(content, appended))
  {
    var result := Finished(content, appended);
    AfterGrows(jobs, i, result);
    var after := PlainIsAllowed(Contents(jobs), i, content, appended);
    var jobs' := AfterRun(jobs, i, result);
    PlainIsPrepared(s, jobs, jobs', i, content);
    assert IsReady(s, jobs, i);
    StaysPlaced(s, jobs, jobs', i);
    TableGrows(jobs, jobs');
    ResultStays(s, TableOf(jobs), after, TableOf(jobs'), after, i);
    FunctionsAreReady(s, jobs, i, result);
    RunIsGood(s, jobs, i, result);
  }

  lemma NewStaysNew(work: seq<Work>, appended: seq<Work>, i: nat, content: Work)
    requires i < |work| && SameWork(work[i], content) && NewOnes(work + appended, |work|)
    ensures NewOnes(work[i := content] + appended, |work|)
  {
    var before, after := work + appended, work[i := content] + appended;
    forall j | |work| <= j < |after|
      ensures IsNew(after, j)
    {
      assert IsNew(before, j) && after[j] == before[j];
      forall k | 0 <= k < j && after[j].FunctionWork?
        ensures !IsMatch(after[j].key, after[k])
      {
        assert !IsMatch(before[j].key, before[k]);
      }
    }
  }

  lemma FunctionsParseNothing(work: seq<Work>, appended: seq<Work>)
    requires EachOnce(work) && forall w :: w in appended ==> w.FunctionWork?
    ensures EachOnce(work + appended)
  {
    var after := work + appended;
    assert forall b :: |work| <= b < |after| ==> after[b] in appended;
    forall a, b | 0 <= a < b < |work| && PurposeOf(work[b]).Some?
      ensures PurposeOf(after[a]) != PurposeOf(after[b])
    {
    }
  }

  // ----- Every kind of run -----

  lemma DecisionIsGood(s: Source, jobs: seq<Job<Work>>, i: nat, file: nat, id: nat)
    requires WellFormed(s) && Ready(s, jobs) && i < |jobs| && jobs[i].state.Working?
    requires jobs[i].content.OtherWork? && SameTask(jobs[i].content.task, Decide(file, id, false))
    ensures GoodRun(s, jobs, i, RunDecision(s, TableOf(jobs), Contents(jobs), jobs[i].content, file, id))
  {
    assert IsReady(s, jobs, i);
    ValuesStopWell(s, jobs, file, s.conditionNames(id), TheStaticIf(id));
    ValuesAreRight(s, TableOf(jobs), Contents(jobs), file, s.conditionNames(id), TheStaticIf(id));
    var (values, stop) := Values(s, TableOf(jobs), Contents(jobs), file, s.conditionNames(id), TheStaticIf(id));
    match stop
    case WaitsOn(j) => WaitIsGood(s, jobs, i, j);
    case Fails =>
    case Through =>
      if s.decide(id, values) == Some(true) {
        ScopeRunIsGood(s, jobs, i, Decide(file, id, true), OfStaticIf(id), file);
      } else if s.decide(id, values) == Some(false) {
        PlainRunIsGood(s, jobs, i, OtherWork(Decide(file, id, false)), []);
      }
  }

  lemma RegisteredIsThere(work: seq<Work>, key: Key, i: nat, content: Work)
    requires key.FunctionCode? && i < |work| && work[i].OtherWork?
    ensures var after := work[i := content] + Registered(work, key); exists j :: 0 <= j < |after| && IsDeclared(after[j], key)
  {
    var after := work[i := content] + Registered(work, key);
    if j :| 0 <= j < |work| && IsDeclared(work[j], key) {
      assert IsDeclared(after[j], key);
    } else {
      assert IsDeclared(after[|work|], key);
    }
  }

  lemma ResolvedIsGood(s: Source, jobs: seq<Job<Work>>, i: nat, file: nat, id: nat, values: seq<NameLookup.Value>, v: NameLookup.Value)
    requires WellFormed(s) && Ready(s, jobs) && i < |jobs| && jobs[i].state.Working? && InParsedFile(s, jobs, file)
    requires jobs[i].content.OtherWork? && SameTask(jobs[i].content.task, Define(file, id, OtherValue(id)))
    requires AreValues(s, TableOf(jobs), file, s.definitionNames(id), Nothing, values) && s.define(id, values) == Some(v)
    requires ValuesKnown(TableOf(jobs), values)
    ensures GoodRun(s, jobs, i, Finished(OtherWork(Define(file, id, v)), if s.functionOf(id).Some? then Registered(Contents(jobs), s.functionOf(id).value) else []))
  {
    var appended := if s.functionOf(id).Some? then Registered(Contents(jobs), s.functionOf(id).value) else [];
    var content := OtherWork(Define(file, id, v));
    if s.functionOf(id).Some? {
      assert IsResolved(AfterRun(jobs, i, Finished(content, appended))[i]);
      assert id in TableOf(AfterRun(jobs, i, Finished(content, appended))).functions;
      RegisteredIsNew(Contents(jobs), s.functionOf(id).value);
      RegisteredIsThere(Contents(jobs), s.functionOf(id).value, i, content);
    }
    PlainRunIsGood(s, jobs, i, content, appended);
  }

  lemma DefinitionIsGood(s: Source, jobs: seq<Job<Work>>, i: nat, file: nat, id: nat)
    requires WellFormed(s) && Ready(s, jobs) && i < |jobs| && jobs[i].state.Working?
    requires jobs[i].content.OtherWork? && SameTask(jobs[i].content.task, Define(file, id, OtherValue(id)))
    ensures GoodRun(s, jobs, i, RunDefinition(s, TableOf(jobs), Contents(jobs), jobs[i].content, file, id))
  {
    assert IsReady(s, jobs, i);
    ValuesStopWell(s, jobs, file, s.definitionNames(id), Nothing);
    ValuesAreRight(s, TableOf(jobs), Contents(jobs), file, s.definitionNames(id), Nothing);
    var (values, stop) := Values(s, TableOf(jobs), Contents(jobs), file, s.definitionNames(id), Nothing);
    match stop
    case WaitsOn(j) => WaitIsGood(s, jobs, i, j);
    case Fails =>
    case Through =>
      if s.define(id, values).Some? {
        ResolvedIsGood(s, jobs, i, file, id, values, s.define(id, values).value);
      }
  }

  lemma VariableIsGood(s: Source, jobs: seq<Job<Work>>, i: nat)
    requires WellFormed(s) && Ready(s, jobs) && i < |jobs| && jobs[i].state.Working? && jobs[i].content.VariableWork?
    ensures GoodRun(s, jobs, i, Run(s, jobs, i))
  {
    var content := jobs[i].content;
    assert IsReady(s, jobs, i);
    ValuesStopWell(s, jobs, content.file, s.variableNames(content.id), Nothing);
    ValuesAreRight(s, TableOf(jobs), Contents(jobs), content.file, s.variableNames(content.id), Nothing);
    var (_, stop) := Values(s, TableOf(jobs), Contents(jobs), content.file, s.variableNames(content.id), Nothing);
    match stop
    case WaitsOn(j) => WaitIsGood(s, jobs, i, j);
    case Fails =>
    case Through => PlainRunIsGood(s, jobs, i, VariableWork(content.file, content.id, []), []);
  }

  /** A pass that waits keeps the functions it appended. */
  lemma WaitingPassIsGood(s: Source, jobs: seq<Job<Work>>, i: nat, on: nat, appended: seq<Work>)
    requires Ready(s, jobs) && i < |jobs| && jobs[i].state.Working? && jobs[i].content.FunctionWork? && StopsWell(jobs, WaitsOn(on))
    requires NewOnes(Contents(jobs) + appended, |jobs|) && NewFunctions(s, TableOf(jobs), appended)
    ensures GoodRun(s, jobs, i, Waits(on, jobs[i].content, appended))
  {
    var result := Waits(on, jobs[i].content, appended);
    var jobs', work := AfterRun(jobs, i, result), Contents(jobs);
    AfterGrows(jobs, i, result);
    assert work[i := jobs[i].content] == work;
    assert RefersToStatics(work, i);
    ReferencesStay(work, appended, i);
    var after := PlainIsAllowed(work, i, jobs[i].content, appended);
    StaysReady(s, jobs, jobs', i);
    TableGrows(jobs, jobs');
    FunctionsAreReady(s, jobs, i, result);
    RunIsGood(s, jobs, i, result);
  }

  lemma ReferencesStay(work: seq<Work>, appended: seq<Work>, i: nat)
    requires i < |work| && RefersToStatics(work, i)
    ensures RefersToStatics(work + appended, i)
  {
    forall r | r in ReferencesOf((work + appended)[i])
      ensures IsProduced(work + appended, r)
    {
      assert IsProduced(work, r);
    }
  }

  /** A finished function refers to functions, variables and its own constants. */
  lemma FinishedRefersToStatics(work: seq<Work>, appended: seq<Work>, i: nat, key: Key, functions: seq<nat>, variables: seq<nat>, constants: nat)
    requires i < |work| && work[i].FunctionWork? && work[i].key == key
    requires AreFunctions(work + appended, functions) && AreVariables(work, variables)
    ensures var content := FunctionWork(key, ToStatics(functions + variables) + PartsOf(i, 1 + constants)[1..], constants);
            RefersToStatics(work[i := content] + appended, i)
  {
    var content := FunctionWork(key, ToStatics(functions + variables) + PartsOf(i, 1 + constants)[1..], constants);
    var after := work[i := content] + appended;
    forall r | r in ReferencesOf(after[i])
      ensures IsProduced(after, r)
    {
      var k :| 0 <= k < |content.references| && content.references[k] == r;
      if k < |functions| {
        assert functions[k] in functions && r == Static(functions[k], 0);
      } else if k < |functions| + |variables| {
        assert variables[k - |functions|] in variables && r == Static(variables[k - |functions|], 0);
      } else {
        assert r == PartsOf(i, 1 + constants)[1..][k - |functions| - |variables|];
      }
    }
  }

  lemma MoreReferences(s: Source, t: Table, work: seq<Work>, file: nat, u: Use, references: seq<Static>, more: seq<Static>)
    requires file < |s.program.files| && UseMet(s, t, work, file, u, references) && forall r :: r in references ==> r in more
    ensures UseMet(s, t, work, file, u, more)
  {
    if r: Static :| r in references && UseGives(s, t, work, file, u, r) {
      assert r in more;
    }
  }

  /** What a pass that goes through refers to is exactly what its uses give, in the table that all its requests
      leave behind. */
  ghost predicate Covers(s: Source, t: Table, work: seq<Work>, file: nat, uses: seq<Use>, references: seq<Static>)
    requires file < |s.program.files|
  {
    (forall u :: u in uses ==> UseMet(s, t, work, file, u, references)) &&
    forall r :: r in references ==> exists u :: u in uses && UseGives(s, t, work, file, u, r)
  }

  /** One more use, and what it gives. */
  lemma OneMoreUse(
    s: Source, t: Table, work: seq<Work>, file: nat, uses: seq<Use>, rest: seq<Static>, references: seq<Static>, first: Option<Static>
  )
    requires uses != [] && file < |s.program.files| && Covers(s, t, work, file, uses[1..], rest)
    requires forall r :: r in references <==> r in rest || first == Some(r)
    requires first.Some? ==> UseGives(s, t, work, file, uses[0], first.value)
    requires UseMet(s, t, work, file, uses[0], references)
    ensures Covers(s, t, work, file, uses, references)
  {
    forall u | u in uses
      ensures UseMet(s, t, work, file, u, references)
    {
      if u != uses[0] {
        assert u in uses[1..];
        MoreReferences(s, t, work, file, u, rest, references);
      }
    }
    forall r | r in references
      ensures exists u :: u in uses && UseGives(s, t, work, file, u, r)
    {
      if r in rest {
        var u :| u in uses[1..] && UseGives(s, t, work, file, u, r);
        assert u in uses;
      } else {
        assert uses[0] in uses;
      }
    }
  }

  lemma {:induction false} PassRefers(s: Source, jobs: seq<Job<Work>>, work: seq<Work>, file: nat, uses: seq<Use>)
    requires file < |s.program.files| && Contents(jobs) <= work && PassOver(s, jobs, file, uses).stop.Through?
    ensures var pass := PassOver(s, jobs, file, uses);
            var (later, functions) := RequestAll(work, pass.requests);
            Covers(s, TableOf(jobs), later, file, uses, ToStatics(functions + pass.variables))
    decreases |uses|
  {
    var t, pass := TableOf(jobs), PassOver(s, jobs, file, uses);
    var (later, functions) := RequestAll(work, pass.requests);
    if uses != [] {
      var rest := PassOver(s, jobs, file, uses[1..]);
      match uses[0]
      case UseName(path) =>
        var key := NamedFunction(s, t, file, path);
        if key.Some? {
          var (next, reference) := Request(work, key.value);
          RequestsAppend(work, [key.value]);
          PassRefers(s, jobs, next, file, uses[1..]);
          RequestsAppend(next, rest.requests);
          NameRefers(s, t, work, later, file, uses, key.value, rest);
        } else {
          PassRefers(s, jobs, work, file, uses[1..]);
          OneMoreUse(s, t, later, file, uses, ToStatics(functions + pass.variables), ToStatics(functions + pass.variables), None);
        }
      case UseVariable(of, id) =>
        PassRefers(s, jobs, work, file, uses[1..]);
        RequestsAppend(work, pass.requests);
        VariableRefers(s, t, later, file, uses, functions, rest.variables, FindVariable(Contents(jobs), of, id).value);
    }
  }

  lemma ReferenceAdded(before: seq<nat>, j: nat, after: seq<nat>)
    ensures forall r :: r in ToStatics(before + [j] + after) <==> r in ToStatics(before + after) || r == Static(j, 0)
  {
    var all, others := before + [j] + after, before + after;
    forall r
      ensures r in ToStatics(all) <==> r in ToStatics(others) || r == Static(j, 0)
    {
      IsTarget(all, r);
      IsTarget(others, r);
      assert r.job in all <==> r.job in others || r.job == j;
    }
  }

  lemma IsTarget(jobs: seq<nat>, r: Static)
    ensures r in ToStatics(jobs) <==> r.part == 0 && r.job in jobs
  {
    if r.part == 0 && r.job in jobs {
      var k :| 0 <= k < |jobs| && jobs[k] == r.job;
      assert ToStatics(jobs)[k] == r;
    }
  }

  lemma FirstRequest(work: seq<Work>, key: Key, requests: seq<Key>)
    ensures var (next, reference) := Request(work, key);
            RequestAll(work, [key] + requests) == (RequestAll(next, requests).0, [reference] + RequestAll(next, requests).1)
  {
    assert ([key] + requests)[0] == key && ([key] + requests)[1..] == requests;
  }

  lemma ReferencesOfFirst(reference: nat, others: seq<nat>, variables: seq<nat>)
    ensures forall r :: r in ToStatics([reference] + others + variables) <==> r in ToStatics(others + variables) || r == Static(reference, 0)
  {
    assert [] + [reference] + (others + variables) == [reference] + others + variables;
    assert [] + (others + variables) == others + variables;
    ReferenceAdded([], reference, others + variables);
  }

  lemma NameRefers(s: Source, t: Table, work: seq<Work>, later: seq<Work>, file: nat, uses: seq<Use>, key: Key, rest: Pass)
    requires uses != [] && uses[0].UseName? && file < |s.program.files| && NamedFunction(s, t, file, uses[0].path) == Some(key)
    requires var (next, reference) := Request(work, key);
             next <= later && later == RequestAll(next, rest.requests).0 &&
             Covers(s, t, later, file, uses[1..], ToStatics(RequestAll(next, rest.requests).1 + rest.variables))
    ensures Covers(s, t, later, file, uses, ToStatics(RequestAll(work, [key] + rest.requests).1 + rest.variables))
  {
    var (next, reference) := Request(work, key);
    var functions, first := RequestAll(next, rest.requests).1, Static(reference, 0);
    var references := ToStatics([reference] + functions + rest.variables);
    FirstRequest(work, key, rest.requests);
    ReferencesOfFirst(reference, functions, rest.variables);
    Requested(s, t, work, later, file, uses[0], key);
    NameIsMet(s, t, later, file, uses[0], first, references);
    OneMoreUse(s, t, later, file, uses, ToStatics(functions + rest.variables), references, Some(first));
  }

  lemma NameIsMet(s: Source, t: Table, work: seq<Work>, file: nat, u: Use, first: Static, references: seq<Static>)
    requires u.UseName? && file < |s.program.files| && NamedFunction(s, t, file, u.path).Some?
    requires UseGives(s, t, work, file, u, first) && first in references
    ensures UseMet(s, t, work, file, u, references)
  {
  }

  lemma Requested(s: Source, t: Table, work: seq<Work>, later: seq<Work>, file: nat, u: Use, key: Key)
    requires u.UseName? && file < |s.program.files| && NamedFunction(s, t, file, u.path) == Some(key) && Request(work, key).0 <= later
    ensures UseGives(s, t, later, file, u, Static(Request(work, key).1, 0))
  {
    var (next, reference) := Request(work, key);
    assert later[reference] == next[reference];
  }

  lemma VariableRefers(s: Source, t: Table, later: seq<Work>, file: nat, uses: seq<Use>, functions: seq<nat>, variables: seq<nat>, j: nat)
    requires uses != [] && uses[0].UseVariable? && file < |s.program.files| && j < |later| && IsVariableJob(later[j], uses[0].file, uses[0].id)
    requires Covers(s, t, later, file, uses[1..], ToStatics(functions + variables))
    ensures Covers(s, t, later, file, uses, ToStatics(functions + ([j] + variables)))
  {
    ReferenceAdded(functions, j, variables);
    assert functions + [j] + variables == functions + ([j] + variables);
    assert UseGives(s, t, later, file, uses[0], Static(j, 0));
    OneMoreUse(s, t, later, file, uses, ToStatics(functions + variables), ToStatics(functions + ([j] + variables)), Some(Static(j, 0)));
  }

  lemma FunctionIsGood(s: Source, jobs: seq<Job<Work>>, i: nat, key: Key)
    requires WellFormed(s) && Ready(s, jobs) && i < |jobs| && jobs[i].state.Working?
    requires jobs[i].content.FunctionWork? && jobs[i].content.key == key
    ensures GoodRun(s, jobs, i, RunFunction(s, jobs, i, key))
  {
    var file, work := s.fileOf(key), Contents(jobs);
    if file in TableOf(jobs).parsed && file < |s.program.files| {
      assert IsReady(s, jobs, i);
      assert IsDone(TableOf(jobs), ParseJob(file));
      TableDone(jobs, ParseJob(file));
      PassStopsWell(s, jobs, file, s.body(key));
      var pass := PassOver(s, jobs, file, s.body(key));
      RequestsAppend(work, pass.requests);
      var (requested, functions) := RequestAll(work, pass.requests);
      var appended := requested[|work|..];
      assert work + appended == requested;
      AppendedAreFunctions(s, TableOf(jobs), work, pass.requests);
      match pass.stop
      case Fails =>
      case WaitsOn(j) => WaitingPassIsGood(s, jobs, i, j, appended);
      case Through =>
        FinishedRefersToStatics(work, appended, i, key, functions, pass.variables, s.constantsOf(key));
        PassRefers(s, jobs, work, file, s.body(key));
        FinishedStands(s, TableOf(jobs), work, appended, i, key, file, functions + pass.variables);
        ResolvedAfter(s, jobs, i, FinishedFunction(s, i, key, functions + pass.variables), appended);
        PlainRunIsGood(s, jobs, i, FinishedFunction(s, i, key, functions + pass.variables), appended);
    }
  }

  lemma ResolvedAfter(s: Source, jobs: seq<Job<Work>>, i: nat, content: Work, appended: seq<Work>)
    requires i < |jobs| && jobs[i].state.Working? && SameWork(jobs[i].content, content) && NewFunctions(s, TableOf(jobs), appended)
    ensures NewFunctions(s, TableOf(AfterRun(jobs, i, Finished(content, appended))), appended)
  {
    AfterGrows(jobs, i, Finished(content, appended));
    TableGrows(jobs, AfterRun(jobs, i, Finished(content, appended)));
  }

  function FinishedFunction(s: Source, i: nat, key: Key, targets: seq<nat>): Work {
    FunctionWork(key, ToStatics(targets) + PartsOf(i, 1 + s.constantsOf(key))[1..], s.constantsOf(key))
  }

  /** A function refers to what its body uses and to its own constants. */
  lemma WithOwnConstants(s: Source, t: Table, work: seq<Work>, i: nat, file: nat, uses: seq<Use>, given: seq<Static>, constants: nat)
    requires file < |s.program.files| && Covers(s, t, work, file, uses, given)
    ensures RefersAsUsed(s, t, work, i, file, uses, given + PartsOf(i, 1 + constants)[1..], constants)
  {
    var own := PartsOf(i, 1 + constants)[1..];
    var references := given + own;
    forall u | u in uses
      ensures UseMet(s, t, work, file, u, references)
    {
      MoreReferences(s, t, work, file, u, given, references);
    }
    forall r | r in references && !(r.job == i && 1 <= r.part <= constants)
      ensures exists u :: u in uses && UseGives(s, t, work, file, u, r)
    {
      OwnConstants(i, constants, r);
      assert r in given;
    }
    forall k: nat | 1 <= k <= constants
      ensures Static(i, k) in references
    {
      OwnConstants(i, constants, Static(i, k));
    }
  }

  lemma FinishedStands(s: Source, t: Table, work: seq<Work>, appended: seq<Work>, i: nat, key: Key, file: nat, targets: seq<nat>)
    requires i < |work| && work[i].FunctionWork? && work[i].key == key && work[i].constants == 0 && file == s.fileOf(key) < |s.program.files|
    requires Covers(s, t, work + appended, file, s.body(key), ToStatics(targets))
    ensures ResultStands(s, t, work[i := FinishedFunction(s, i, key, targets)] + appended, i)
  {
    var done := FinishedFunction(s, i, key, targets);
    WithOwnConstants(s, t, work + appended, i, file, s.body(key), ToStatics(targets), s.constantsOf(key));
    ReferencesStayUsed(s, t, work + appended, t, work[i := done] + appended, i, file, s.body(key), done.references, s.constantsOf(key));
  }

  lemma OwnConstants(i: nat, constants: nat, r: Static)
    ensures r in PartsOf(i, 1 + constants)[1..] <==> r.job == i && 1 <= r.part <= constants
  {
    var own := PartsOf(i, 1 + constants)[1..];
    if r.job == i && 1 <= r.part <= constants {
      assert own[r.part - 1] == r;
    }
  }

  lemma RequestIsFunction(s: Source, t: Table, work: seq<Work>, key: Key)
    requires IsResolvedFunction(s, t, key)
    ensures var next := Request(work, key).0; work <= next && NewFunctions(s, t, next[|work|..])
  {
  }

  lemma BothAreNewFunctions(s: Source, t: Table, work: seq<Work>, next: seq<Work>, later: seq<Work>)
    requires work <= next <= later && NewFunctions(s, t, next[|work|..]) && NewFunctions(s, t, later[|next|..])
    ensures NewFunctions(s, t, later[|work|..])
  {
    assert later[|work|..] == next[|work|..] + later[|next|..];
  }

  lemma {:induction false} AppendedAreFunctions(s: Source, t: Table, work: seq<Work>, requests: seq<Key>)
    requires AreResolvedFunctions(s, t, requests)
    ensures var later := RequestAll(work, requests).0; work <= later && NewFunctions(s, t, later[|work|..])
    decreases |requests|
  {
    if requests != [] {
      var next := Request(work, requests[0]).0;
      RequestIsFunction(s, t, work, requests[0]);
      AppendedAreFunctions(s, t, next, requests[1..]);
      BothAreNewFunctions(s, t, work, next, RequestAll(next, requests[1..]).0);
    }
  }

  /** Whatever job runs, the table stays ready, and the job waits only for one that exists and is not done. */
  lemma RunsAreGood(s: Source, jobs: seq<Job<Work>>, i: nat)
    requires WellFormed(s) && Ready(s, jobs) && i < |jobs| && jobs[i].state.Working?
    ensures GoodRun(s, jobs, i, Run(s, jobs, i))
  {
    match jobs[i].content
    case OtherWork(Parse(file)) =>
      if file < |s.program.files| {
        ScopeRunIsGood(s, jobs, i, Parse(file), OfFile(file), file);
      }
    case OtherWork(Decide(file, id, _)) => DecisionIsGood(s, jobs, i, file, id);
    case OtherWork(Define(file, id, _)) => DefinitionIsGood(s, jobs, i, file, id);
    case FunctionWork(key, _, _) => FunctionIsGood(s, jobs, i, key);
    case VariableWork(_, _, _) => VariableIsGood(s, jobs, i);
  }

  // ----- The search for main -----

  lemma MainStopsWell(s: Source, jobs: seq<Job<Work>>)
    requires WellFormed(s) && Ready(s, jobs) && jobs != [] && jobs[0] == Job(OtherWork(Parse(0)), Done)
    ensures var result := SearchForMain(s, jobs);
            (result.SearchWaits? ==> IsWait(jobs, result.on, result.appended)) && (!result.SearchFailed? ==> result.appended == [])
    ensures MainFunction(s, jobs).Some? ==> MainFound(s, jobs)
  {
    OnlyJob(jobs, 0, ParseJob(0));
    ParsedIsCovered(s, jobs, 0);
    TableIsPrepared(s, jobs);
    var t, known, q := TableOf(jobs), KnownJobs(Contents(jobs)), Query("main", Nothing);
    SearchSensible(t, s.program, known, s.depth, FileScope(s.program, 0), s.program.files[0], false, q);
    var a := MainAnswer(s, jobs);
    if a.Wait? {
      TableDone(jobs, a.job);
      InKnownJobs(Contents(jobs), a.job);
    } else if MainFunction(s, jobs).Some? {
      MainHasJob(s, jobs, a.value.declaration);
    }
  }

  lemma MainIsItself(key: Key)
    requires IsMainFunction(key)
    ensures Same(key, key)
  {
    SameAsItself(key);
    assert forall r :: r in key.functionType.returnTypes ==> r == IntegerValueType(Integer(Size32, true));
  }

  /** The job that generates a resolved `main` is always found. */
  lemma MainHasJob(s: Source, jobs: seq<Job<Work>>, id: nat)
    requires WellFormed(s) && Ready(s, jobs) && id in TableOf(jobs).functions
    requires s.functionOf(id).Some? && IsMainFunction(s.functionOf(id).value)
    ensures FindFunction(Contents(jobs), s.functionOf(id).value).Some?
  {
    var key, work := s.functionOf(id).value, Contents(jobs);
    var i :| 0 <= i < |jobs| && IsResolved(jobs[i]) && jobs[i].content.task.id == id;
    assert IsReady(s, jobs, i);
    var j :| 0 <= j < |work| && IsDeclared(work[j], key);
    assert IsReady(s, jobs, j) && IsFunctionKey(s, key) && IsResolvedFunction(s, TableOf(jobs), work[j].key) && IsFunctionKey(s, work[j].key);
    assert work[j].key == key;
    MainIsItself(key);
    assert IsMatch(key, work[j]);
  }

  /** Once found, `main` stays what it is, and so does its job. */
  lemma MainStays(s: Source, jobs: seq<Job<Work>>, jobs': seq<Job<Work>>)
    requires Grows(jobs, jobs') && MainFound(s, jobs)
    ensures MainFunction(s, jobs') == MainFunction(s, jobs) && MainFound(s, jobs')
  {
    TableGrows(jobs, jobs');
    AvoidsNothing(s.program.files[0]);
    SearchItemsStays(TableOf(jobs), TableOf(jobs'), s.program, s.depth, FileScope(s.program, 0), {}, s.program.files[0], false, Query("main", Nothing));
    FoundStays(Contents(jobs), Contents(jobs'), MainFunction(s, jobs).value);
  }

  // ----- The depth does not matter -----

  lemma {:induction false} JobsForDeeper(s: Source, depth: nat, before: seq<Work>, file: nat, items: seq<Item>)
    ensures JobsFor(s.(depth := depth), before, file, items) == JobsFor(s, before, file, items)
    decreases |items|
  {
    if items != [] {
      assert JobFor(s.(depth := depth), before, file, items[0]) == JobFor(s, before, file, items[0]);
      JobsForDeeper(s, depth, before + JobFor(s, before, file, items[0]), file, items[1..]);
    }
  }

  lemma {:induction false} ValuesDeeper(s: Source, depth: nat, t: Table, work: seq<Work>, file: nat, names: seq<Path>, ignored: Ignored)
    requires s.depth <= depth && file < |s.program.files| && !Values(s, t, work, file, names, ignored).1.Fails?
    ensures Values(s.(depth := depth), t, work, file, names, ignored) == Values(s, t, work, file, names, ignored)
    decreases |names|
  {
    if names != [] {
      PathDeeper(t, s.program, s.depth, depth, FileScope(s.program, file), names[0], ignored);
      if EvaluatePath(t, s.program, s.depth, FileScope(s.program, file), names[0], ignored).Found? {
        ValuesDeeper(s, depth, t, work, file, names[1..], ignored);
      }
    }
  }

  lemma {:induction false} PassDeeper(s: Source, depth: nat, jobs: seq<Job<Work>>, file: nat, uses: seq<Use>)
    requires s.depth <= depth && file < |s.program.files| && !PassOver(s, jobs, file, uses).stop.Fails?
    ensures PassOver(s.(depth := depth), jobs, file, uses) == PassOver(s, jobs, file, uses)
    decreases |uses|
  {
    if uses != [] {
      if uses[0].UseName? {
        PathDeeper(TableOf(jobs), s.program, s.depth, depth, FileScope(s.program, file), uses[0].path, Nothing);
      }
      if !PassOver(s, jobs, file, uses[1..]).stop.Fails? {
        PassDeeper(s, depth, jobs, file, uses[1..]);
      }
    }
  }

  lemma DecisionDeeper(s: Source, depth: nat, t: Table, work: seq<Work>, content: Work, file: nat, id: nat)
    requires s.depth <= depth && !RunDecision(s, t, work, content, file, id).RunFailed?
    ensures RunDecision(s.(depth := depth), t, work, content, file, id) == RunDecision(s, t, work, content, file, id)
  {
    ValuesDeeper(s, depth, t, work, file, s.conditionNames(id), TheStaticIf(id));
    JobsForDeeper(s, depth, work, file, s.statements(id));
  }

  lemma DefinitionDeeper(s: Source, depth: nat, t: Table, work: seq<Work>, content: Work, file: nat, id: nat)
    requires s.depth <= depth && !RunDefinition(s, t, work, content, file, id).RunFailed?
    ensures RunDefinition(s.(depth := depth), t, work, content, file, id) == RunDefinition(s, t, work, content, file, id)
  {
    ValuesDeeper(s, depth, t, work, file, s.definitionNames(id), Nothing);
  }

  lemma FunctionDeeper(s: Source, depth: nat, jobs: seq<Job<Work>>, i: nat, key: Key)
    requires s.depth <= depth && i < |jobs| && !RunFunction(s, jobs, i, key).RunFailed?
    ensures RunFunction(s.(depth := depth), jobs, i, key) == RunFunction(s, jobs, i, key)
  {
    var s', file := s.(depth := depth), s.fileOf(key);
    assert s'.fileOf(key) == file && s'.body(key) == s.body(key) && s'.constantsOf(key) == s.constantsOf(key) && s'.program == s.program;
    PassDeeper(s, depth, jobs, file, s.body(key));
    assert PassOver(s', jobs, file, s'.body(key)) == PassOver(s, jobs, file, s.body(key));
  }

  /** A run that does not fail is the same when usings may be followed deeper. */
  lemma RunDeeper(s: Source, depth: nat, jobs: seq<Job<Work>>, i: nat)
    requires s.depth <= depth && !Run(s, jobs, i).RunFailed?
    ensures Run(s.(depth := depth), jobs, i) == Run(s, jobs, i)
  {
    var t, work, content := TableOf(jobs), Contents(jobs), jobs[i].content;
    match content
    case OtherWork(Parse(file)) => JobsForDeeper(s, depth, work, file, s.program.files[file]);
    case OtherWork(Decide(file, id, _)) => DecisionDeeper(s, depth, t, work, content, file, id);
    case OtherWork(Define(file, id, _)) => DefinitionDeeper(s, depth, t, work, content, file, id);
    case FunctionWork(key, _, _) => FunctionDeeper(s, depth, jobs, i, key);
    case VariableWork(file, id, _) => ValuesDeeper(s, depth, t, work, file, s.variableNames(id), Nothing);
  }

  lemma SearchForMainDeeper(s: Source, depth: nat, jobs: seq<Job<Work>>)
    requires s.depth <= depth && !SearchForMain(s, jobs).SearchFailed?
    ensures SearchForMain(s.(depth := depth), jobs) == SearchForMain(s, jobs)
  {
    SearchDeeper(TableOf(jobs), s.program, s.depth, depth, FileScope(s.program, 0), s.program.files[0], false, Query("main", Nothing));
  }
}
