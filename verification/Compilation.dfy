/** Compiling a whole program: the job loop over the runs of the driver, and what its outcome means. */
module Compilation {
  import opened Driver
  import opened Instantiation
  import opened NameLookup
  import opened Options
  import opened References
  import opened Scheduler

  // ----- Why a job waits -----

  function AnswerTo(s: Source, jobs: seq<Job<Work>>, file: nat, path: Path, ignored: Ignored): Answer
    requires file < |s.program.files|
  {
    EvaluatePath(TableOf(jobs), s.program, s.depth, FileScope(s.program, file), path, ignored)
  }

  /** The answer to the name is to wait for what job `j` finds out. */
  predicate NameNeeds(s: Source, jobs: seq<Job<Work>>, file: nat, path: Path, ignored: Ignored, j: nat)
    requires j < |jobs|
  {
    file < |s.program.files| && AnswerTo(s, jobs, file, path, ignored).Wait? &&
    PendingOf(jobs[j].content) == Some(AnswerTo(s, jobs, file, path, ignored).job)
  }

  predicate UseNeeds(s: Source, jobs: seq<Job<Work>>, file: nat, u: Use, j: nat)
    requires j < |jobs|
  {
    match u
    case UseName(path) => NameNeeds(s, jobs, file, path, Nothing, j)
    case UseVariable(of, id) => IsVariableJob(jobs[j].content, of, id)
  }

  ghost predicate NamesNeed(s: Source, jobs: seq<Job<Work>>, file: nat, names: seq<Path>, ignored: Ignored, j: nat)
    requires j < |jobs|
  {
    exists path :: path in names && NameNeeds(s, jobs, file, path, ignored, j)
  }

  ghost predicate BodyNeeds(s: Source, jobs: seq<Job<Work>>, file: nat, uses: seq<Use>, j: nat)
    requires j < |jobs|
  {
    exists u :: u in uses && UseNeeds(s, jobs, file, u, j)
  }

  /** Something that job `i` has to evaluate needs what job `j` finds out, or its variable. */
  ghost predicate Needs(s: Source, jobs: seq<Job<Work>>, i: nat, j: nat)
    requires i < |jobs| && j < |jobs|
  {
    match jobs[i].content
    case OtherWork(Parse(_)) => false
    case OtherWork(Decide(file, id, _)) => NamesNeed(s, jobs, file, s.conditionNames(id), TheStaticIf(id), j)
    case OtherWork(Define(file, id, _)) => NamesNeed(s, jobs, file, s.definitionNames(id), Nothing, j)
    case FunctionWork(key, _, _) => BodyNeeds(s, jobs, s.fileOf(key), s.body(key), j)
    case VariableWork(file, id, _) => NamesNeed(s, jobs, file, s.variableNames(id), Nothing, j)
  }

  /** A job that waits for one that is not done needs it. */
  ghost predicate WaitsRightly(s: Source, jobs: seq<Job<Work>>, i: nat)
    requires i < |jobs|
  {
    jobs[i].state.Waiting? ==>
      var j := jobs[i].state.waitingFor; j < |jobs| && (jobs[j].state.Done? || Needs(s, jobs, i, j))
  }

  ghost predicate AllWaitRightly(s: Source, jobs: seq<Job<Work>>) {
    forall i :: 0 <= i < |jobs| ==> WaitsRightly(s, jobs, i)
  }

  // ----- A run waits for what it needs -----

  lemma {:induction false} StoppedValuesNeed(s: Source, jobs: seq<Job<Work>>, file: nat, names: seq<Path>, ignored: Ignored)
    requires file < |s.program.files|
    ensures var (_, stop) := Values(s, TableOf(jobs), Contents(jobs), file, names, ignored);
            stop.WaitsOn? ==> stop.job < |jobs| && NamesNeed(s, jobs, file, names, ignored, stop.job)
    decreases |names|
  {
    if names != [] {
      StoppedValuesNeed(s, jobs, file, names[1..], ignored);
      var (_, stop) := Values(s, TableOf(jobs), Contents(jobs), file, names, ignored);
      if stop.WaitsOn? && !AnswerTo(s, jobs, file, names[0], ignored).Found? {
        assert NameNeeds(s, jobs, file, names[0], ignored, stop.job);
      }
    }
  }

  lemma {:induction false} StoppedPassNeeds(s: Source, jobs: seq<Job<Work>>, file: nat, uses: seq<Use>)
    requires file < |s.program.files|
    ensures var stop := PassOver(s, jobs, file, uses).stop;
            stop.WaitsOn? ==> stop.job < |jobs| && BodyNeeds(s, jobs, file, uses, stop.job)
    decreases |uses|
  {
    if uses != [] {
      StoppedPassNeeds(s, jobs, file, uses[1..]);
      var stop := PassOver(s, jobs, file, uses).stop;
      if stop.WaitsOn? && stop != PassOver(s, jobs, file, uses[1..]).stop {
        assert UseNeeds(s, jobs, file, uses[0], stop.job);
      }
    }
  }

  lemma RunNeeds(s: Source, jobs: seq<Job<Work>>, i: nat)
    requires i < |jobs| && Run(s, jobs, i).Waits?
    ensures Run(s, jobs, i).on < |jobs| && Needs(s, jobs, i, Run(s, jobs, i).on)
  {
    match jobs[i].content
    case OtherWork(Decide(file, id, _)) => StoppedValuesNeed(s, jobs, file, s.conditionNames(id), TheStaticIf(id));
    case OtherWork(Define(file, id, _)) => StoppedValuesNeed(s, jobs, file, s.definitionNames(id), Nothing);
    case FunctionWork(key, _, _) => StoppedPassNeeds(s, jobs, s.fileOf(key), s.body(key));
    case VariableWork(file, id, _) => StoppedValuesNeed(s, jobs, file, s.variableNames(id), Nothing);
    case _ =>
  }

  // ----- What is needed is needed until it is done -----

  lemma NameStillNeeds(s: Source, jobs: seq<Job<Work>>, jobs': seq<Job<Work>>, file: nat, path: Path, ignored: Ignored, j: nat)
    requires Grows(jobs, jobs') && EachOnce(Contents(jobs')) && j < |jobs| && !jobs'[j].state.Done?
    requires NameNeeds(s, jobs, file, path, ignored, j) && IgnoredIsLive(TableOf(jobs), s.program.files[file], ignored)
    ensures NameNeeds(s, jobs', file, path, ignored, j)
  {
    var p := AnswerTo(s, jobs, file, path, ignored).job;
    assert SameWork(jobs[j].content, jobs'[j].content);
    OnlyJob(jobs', j, p);
    TableDone(jobs', p);
    TableGrows(jobs, jobs');
    EvaluationStays(s, TableOf(jobs), TableOf(jobs'), file, path, ignored);
  }

  lemma NamesStillNeed(s: Source, jobs: seq<Job<Work>>, jobs': seq<Job<Work>>, file: nat, names: seq<Path>, ignored: Ignored, j: nat)
    requires Grows(jobs, jobs') && EachOnce(Contents(jobs')) && j < |jobs| && !jobs'[j].state.Done?
    requires NamesNeed(s, jobs, file, names, ignored, j)
    requires file < |s.program.files| ==> IgnoredIsLive(TableOf(jobs), s.program.files[file], ignored)
    ensures NamesNeed(s, jobs', file, names, ignored, j)
  {
    var path :| path in names && NameNeeds(s, jobs, file, path, ignored, j);
    NameStillNeeds(s, jobs, jobs', file, path, ignored, j);
  }

  lemma BodyStillNeeds(s: Source, jobs: seq<Job<Work>>, jobs': seq<Job<Work>>, file: nat, uses: seq<Use>, j: nat)
    requires Grows(jobs, jobs') && EachOnce(Contents(jobs')) && j < |jobs| && !jobs'[j].state.Done?
    requires BodyNeeds(s, jobs, file, uses, j)
    ensures BodyNeeds(s, jobs', file, uses, j)
  {
    var u :| u in uses && UseNeeds(s, jobs, file, u, j);
    assert SameWork(jobs[j].content, jobs'[j].content);
    if u.UseName? {
      NameStillNeeds(s, jobs, jobs', file, u.path, Nothing, j);
    }
    assert UseNeeds(s, jobs', file, u, j);
  }

  lemma StillNeeds(s: Source, jobs: seq<Job<Work>>, jobs': seq<Job<Work>>, i: nat, j: nat)
    requires Grows(jobs, jobs') && EachOnce(Contents(jobs')) && i < |jobs| && j < |jobs| && !jobs'[j].state.Done?
    requires IsPlaced(s, jobs, i) && Needs(s, jobs, i, j)
    ensures Needs(s, jobs', i, j)
  {
    assert SameWork(jobs[i].content, jobs'[i].content);
    match jobs[i].content
    case OtherWork(Decide(file, id, _)) => NamesStillNeed(s, jobs, jobs', file, s.conditionNames(id), TheStaticIf(id), j);
    case OtherWork(Define(file, id, _)) => NamesStillNeed(s, jobs, jobs', file, s.definitionNames(id), Nothing, j);
    case FunctionWork(key, _, _) => BodyStillNeeds(s, jobs, jobs', s.fileOf(key), s.body(key), j);
    case VariableWork(file, id, _) => NamesStillNeed(s, jobs, jobs', file, s.variableNames(id), Nothing, j);
  }

  lemma RunGrows(s: Source, jobs: seq<Job<Work>>, i: nat)
    requires WellFormed(s) && Ready(s, jobs) && i < |jobs| && Runnable(jobs, i) && !Run(s, Resumed(jobs, i), i).RunFailed?
    ensures Grows(jobs, AfterRun(Resumed(jobs, i), i, Run(s, Resumed(jobs, i), i)))
  {
    ResumedIsReady(s, jobs, i);
    RunsAreGood(s, Resumed(jobs, i), i);
    AfterGrows(Resumed(jobs, i), i, Run(s, Resumed(jobs, i), i));
  }

  /** After a run all jobs, the one that ran too, wait for what they need. */
  lemma RunsWaitRightly(s: Source, jobs: seq<Job<Work>>, i: nat)
    requires WellFormed(s) && Ready(s, jobs) && AllWaitRightly(s, jobs) && i < |jobs| && Runnable(jobs, i)
    requires !Run(s, Resumed(jobs, i), i).RunFailed?
    ensures AllWaitRightly(s, AfterRun(Resumed(jobs, i), i, Run(s, Resumed(jobs, i), i)))
  {
    var resumed := Resumed(jobs, i);
    var result := Run(s, resumed, i);
    var after := AfterRun(resumed, i, result);
    ResumedIsReady(s, jobs, i);
    RunsAreGood(s, resumed, i);
    AfterGrows(resumed, i, result);
    RunGrows(s, jobs, i);
    forall k | 0 <= k < |after| && after[k].state.Waiting?
      ensures WaitsRightly(s, after, k)
    {
      var j := after[k].state.waitingFor;
      if k == i {
        RunNeeds(s, resumed, i);
        assert IsReady(s, resumed, i);
        StillNeeds(s, resumed, after, i, j);
      } else {
        assert k < |jobs| && after[k] == jobs[k] && WaitsRightly(s, jobs, k) && IsReady(s, jobs, k);
        if !after[j].state.Done? {
          StillNeeds(s, jobs, after, k, j);
        }
      }
    }
  }

  // ----- Why a run fails -----

  /** Whatever else is done, the name has no value. */
  predicate NameFails(s: Source, jobs: seq<Job<Work>>, file: nat, path: Path, ignored: Ignored)
    requires file < |s.program.files|
  {
    !AnswerTo(s, jobs, file, path, ignored).Found? && !AnswerTo(s, jobs, file, path, ignored).Wait?
  }

  /** The names before one without a value have one. */
  ghost predicate NamesFail(s: Source, jobs: seq<Job<Work>>, file: nat, names: seq<Path>, ignored: Ignored)
    requires file < |s.program.files|
  {
    exists k: nat :: k < |names| && NameFails(s, jobs, file, names[k], ignored) &&
      forall m: nat :: m < k ==> AnswerTo(s, jobs, file, names[m], ignored).Found?
  }

  predicate UseGoesThrough(s: Source, jobs: seq<Job<Work>>, file: nat, u: Use)
    requires file < |s.program.files|
  {
    match u
    case UseName(path) => AnswerTo(s, jobs, file, path, Nothing).Found?
    case UseVariable(of, id) => FindVariable(Contents(jobs), of, id).Some? && jobs[FindVariable(Contents(jobs), of, id).value].state.Done?
  }

  predicate UseFails(s: Source, jobs: seq<Job<Work>>, file: nat, u: Use)
    requires file < |s.program.files|
  {
    match u
    case UseName(path) => NameFails(s, jobs, file, path, Nothing)
    case UseVariable(of, id) => !HasVariableJob(Contents(jobs), of, id)
  }

  ghost predicate BodyFails(s: Source, jobs: seq<Job<Work>>, file: nat, uses: seq<Use>)
    requires file < |s.program.files|
  {
    exists k: nat :: k < |uses| && UseFails(s, jobs, file, uses[k]) && forall m: nat :: m < k ==> UseGoesThrough(s, jobs, file, uses[m])
  }

  /** The job is for something wrong in the program: an import of a file that does not exist, a name
      without a value, or an expression that has none. */
  ghost predicate IsAtFault(s: Source, jobs: seq<Job<Work>>, i: nat)
    requires i < |jobs|
  {
    match jobs[i].content
    case OtherWork(Parse(file)) => file >= |s.program.files|
    case OtherWork(Decide(file, id, _)) =>
      file < |s.program.files| &&
      (NamesFail(s, jobs, file, s.conditionNames(id), TheStaticIf(id)) ||
       exists values :: AreValues(s, TableOf(jobs), file, s.conditionNames(id), TheStaticIf(id), values) && s.decide(id, values) == None)
    case OtherWork(Define(file, id, _)) =>
      file < |s.program.files| &&
      (NamesFail(s, jobs, file, s.definitionNames(id), Nothing) ||
       exists values :: AreValues(s, TableOf(jobs), file, s.definitionNames(id), Nothing, values) && s.define(id, values) == None)
    case FunctionWork(key, _, _) =>
      !InParsedFile(s, jobs, s.fileOf(key)) || BodyFails(s, jobs, s.fileOf(key), s.body(key))
    case VariableWork(file, id, _) => file < |s.program.files| && NamesFail(s, jobs, file, s.variableNames(id), Nothing)
  }

  lemma {:induction false} ValuesFailExactly(s: Source, jobs: seq<Job<Work>>, file: nat, names: seq<Path>, ignored: Ignored)
    requires WellFormed(s) && Ready(s, jobs) && InParsedFile(s, jobs, file)
    ensures var (_, stop) := Values(s, TableOf(jobs), Contents(jobs), file, names, ignored);
            stop.Fails? <==> NamesFail(s, jobs, file, names, ignored)
    decreases |names|
  {
    if names != [] {
      NameStopsWell(s, jobs, file, names[0], ignored);
      ValuesFailExactly(s, jobs, file, names[1..], ignored);
      if AnswerTo(s, jobs, file, names[0], ignored).Found? {
        FirstNameFound(s, jobs, file, names, ignored);
      } else if NameFails(s, jobs, file, names[0], ignored) {
        assert NamesFail(s, jobs, file, names, ignored);
      }
    }
  }

  lemma FirstNameFound(s: Source, jobs: seq<Job<Work>>, file: nat, names: seq<Path>, ignored: Ignored)
    requires file < |s.program.files| && names != [] && AnswerTo(s, jobs, file, names[0], ignored).Found?
    ensures NamesFail(s, jobs, file, names, ignored) <==> NamesFail(s, jobs, file, names[1..], ignored)
  {
    if k: nat :| k < |names| && NameFails(s, jobs, file, names[k], ignored) &&
                 forall m: nat :: m < k ==> AnswerTo(s, jobs, file, names[m], ignored).Found? {
      assert names[1..][k - 1] == names[k];
      assert forall m: nat :: m < k - 1 ==> names[1..][m] == names[m + 1];
    }
    if k: nat :| k < |names[1..]| && NameFails(s, jobs, file, names[1..][k], ignored) &&
                 forall m: nat :: m < k ==> AnswerTo(s, jobs, file, names[1..][m], ignored).Found? {
      assert names[k + 1] == names[1..][k];
      assert forall m: nat :: 0 < m < k + 1 ==> names[m] == names[1..][m - 1];
    }
  }

  lemma {:induction false} PassFailsExactly(s: Source, jobs: seq<Job<Work>>, file: nat, uses: seq<Use>)
    requires WellFormed(s) && Ready(s, jobs) && InParsedFile(s, jobs, file)
    ensures PassOver(s, jobs, file, uses).stop.Fails? <==> BodyFails(s, jobs, file, uses)
    decreases |uses|
  {
    if uses != [] {
      if uses[0].UseName? {
        NameStopsWell(s, jobs, file, uses[0].path, Nothing);
      } else {
        VariableFound(Contents(jobs), uses[0].file, uses[0].id);
      }
      PassFailsExactly(s, jobs, file, uses[1..]);
      if UseGoesThrough(s, jobs, file, uses[0]) {
        FirstUseGoesThrough(s, jobs, file, uses);
      } else if UseFails(s, jobs, file, uses[0]) {
        assert BodyFails(s, jobs, file, uses);
      }
    }
  }

  lemma {:induction false} VariableFound(work: seq<Work>, file: nat, id: nat)
    ensures FindVariable(work, file, id).Some? <==> HasVariableJob(work, file, id)
  {
    if work != [] {
      VariableFound(work[..|work| - 1], file, id);
    }
  }

  lemma FirstUseGoesThrough(s: Source, jobs: seq<Job<Work>>, file: nat, uses: seq<Use>)
    requires file < |s.program.files| && uses != [] && UseGoesThrough(s, jobs, file, uses[0])
    ensures BodyFails(s, jobs, file, uses) <==> BodyFails(s, jobs, file, uses[1..])
  {
    if k: nat :| k < |uses| && UseFails(s, jobs, file, uses[k]) && forall m: nat :: m < k ==> UseGoesThrough(s, jobs, file, uses[m]) {
      assert uses[1..][k - 1] == uses[k];
      assert forall m: nat :: m < k - 1 ==> uses[1..][m] == uses[m + 1];
    }
    if k: nat :| k < |uses[1..]| && UseFails(s, jobs, file, uses[1..][k]) && forall m: nat :: m < k ==> UseGoesThrough(s, jobs, file, uses[1..][m]) {
      assert uses[k + 1] == uses[1..][k];
      assert forall m: nat :: 0 < m < k + 1 ==> uses[m] == uses[1..][m - 1];
    }
  }

  lemma DecisionFailsExactly(s: Source, jobs: seq<Job<Work>>, file: nat, id: nat)
    requires WellFormed(s) && Ready(s, jobs) && InParsedFile(s, jobs, file)
    ensures forall content :: RunDecision(s, TableOf(jobs), Contents(jobs), content, file, id).RunFailed? <==>
              NamesFail(s, jobs, file, s.conditionNames(id), TheStaticIf(id)) ||
              exists values :: AreValues(s, TableOf(jobs), file, s.conditionNames(id), TheStaticIf(id), values) && s.decide(id, values) == None
  {
    var names := s.conditionNames(id);
    var (values, stop) := Values(s, TableOf(jobs), Contents(jobs), file, names, TheStaticIf(id));
    ValuesFailExactly(s, jobs, file, names, TheStaticIf(id));
    ValuesAreOnly(s, jobs, file, names, TheStaticIf(id));
  }

  lemma DefinitionFailsExactly(s: Source, jobs: seq<Job<Work>>, file: nat, id: nat)
    requires WellFormed(s) && Ready(s, jobs) && InParsedFile(s, jobs, file)
    ensures forall content :: RunDefinition(s, TableOf(jobs), Contents(jobs), content, file, id).RunFailed? <==>
              NamesFail(s, jobs, file, s.definitionNames(id), Nothing) ||
              exists values :: AreValues(s, TableOf(jobs), file, s.definitionNames(id), Nothing, values) && s.define(id, values) == None
  {
    var names := s.definitionNames(id);
    var (values, stop) := Values(s, TableOf(jobs), Contents(jobs), file, names, Nothing);
    ValuesFailExactly(s, jobs, file, names, Nothing);
    ValuesAreOnly(s, jobs, file, names, Nothing);
  }

  /** Names have values exactly if evaluation goes through, and then these only. */
  lemma {:induction false} ValuesAreOnly(s: Source, jobs: seq<Job<Work>>, file: nat, names: seq<Path>, ignored: Ignored)
    requires file < |s.program.files|
    ensures var (values, stop) := Values(s, TableOf(jobs), Contents(jobs), file, names, ignored);
            forall others :: AreValues(s, TableOf(jobs), file, names, ignored, others) <==> stop.Through? && others == values
    decreases |names|
  {
    var (values, stop) := Values(s, TableOf(jobs), Contents(jobs), file, names, ignored);
    ValuesAreRight(s, TableOf(jobs), Contents(jobs), file, names, ignored);
    if names != [] {
      ValuesAreOnly(s, jobs, file, names[1..], ignored);
      forall others | AreValues(s, TableOf(jobs), file, names, ignored, others)
        ensures stop.Through? && others == values
      {
        assert AreValues(s, TableOf(jobs), file, names[1..], ignored, others[1..]);
        assert others == [others[0]] + others[1..];
      }
    }
  }

  /** A run fails exactly if its job is at fault. */
  lemma RunFailsExactly(s: Source, jobs: seq<Job<Work>>, i: nat)
    requires WellFormed(s) && Ready(s, jobs) && i < |jobs|
    ensures Run(s, jobs, i).RunFailed? <==> IsAtFault(s, jobs, i)
  {
    assert IsReady(s, jobs, i);
    match jobs[i].content
    case OtherWork(Parse(_)) =>
    case OtherWork(Decide(file, id, _)) => DecisionFailsExactly(s, jobs, file, id);
    case OtherWork(Define(file, id, _)) => DefinitionFailsExactly(s, jobs, file, id);
    case FunctionWork(key, _, _) =>
      TableDone(jobs, ParseJob(s.fileOf(key)));
      if InParsedFile(s, jobs, s.fileOf(key)) {
        PassFailsExactly(s, jobs, s.fileOf(key), s.body(key));
      }
    case VariableWork(file, id, _) => ValuesFailExactly(s, jobs, file, s.variableNames(id), Nothing);
  }

  /** `main` is not there, or is no function as it has to be. */
  predicate MainIsAtFault(s: Source, jobs: seq<Job<Work>>) {
    var a := MainAnswer(s, jobs);
    !a.Wait? && (a.Found? ==> !a.value.FunctionValue? || s.functionOf(a.value.declaration).None? || !IsMainFunction(s.functionOf(a.value.declaration).value))
  }

  lemma SearchFailsExactly(s: Source, jobs: seq<Job<Work>>)
    requires WellFormed(s) && Ready(s, jobs) && jobs != [] && jobs[0] == Job(OtherWork(Parse(0)), Done)
    ensures SearchForMain(s, jobs).SearchFailed? <==> MainIsAtFault(s, jobs)
  {
    OnlyJob(jobs, 0, ParseJob(0));
    ParsedIsCovered(s, jobs, 0);
    TableIsPrepared(s, jobs);
    SearchSensible(TableOf(jobs), s.program, KnownJobs(Contents(jobs)), s.depth, FileScope(s.program, 0), s.program.files[0], false, Query("main", Nothing));
    if MainAnswer(s, jobs).Wait? {
      InKnownJobs(Contents(jobs), MainAnswer(s, jobs).job);
    }
  }

  // ----- The whole program -----

  ghost function TableProperties(s: Source): Properties<Work> {
    Properties((jobs: seq<Job<Work>>) => Ready(s, jobs) && AllWaitRightly(s, jobs) && jobs != [] && jobs[0].content == OtherWork(Parse(0)),
               (jobs: seq<Job<Work>>) => MainFound(s, jobs))
  }

  function Runs(s: Source): Runner<Work> {
    (jobs: seq<Job<Work>>, i: nat) => Run(s, jobs, i)
  }

  function Searches(s: Source): Searcher<Work> {
    (jobs: seq<Job<Work>>) => SearchForMain(s, jobs)
  }

  lemma RunsAreHonest(s: Source)
    requires WellFormed(s)
    ensures Honest(Runs(s), TableProperties(s))
  {
    var p := TableProperties(s);
    forall jobs: seq<Job<Work>>, i: nat | p.keeps(jobs) && i < |jobs| && Runnable(jobs, i)
      ensures HonestAt(Runs(s), p, jobs, i)
    {
      ResumedIsReady(s, jobs, i);
      RunsAreGood(s, Resumed(jobs, i), i);
      if !Run(s, Resumed(jobs, i), i).RunFailed? {
        RunGrows(s, jobs, i);
        RunsWaitRightly(s, jobs, i);
        if MainFound(s, jobs) {
          MainStays(s, jobs, AfterRun(Resumed(jobs, i), i, Run(s, Resumed(jobs, i), i)));
        }
      }
    }
  }

  lemma SearchIsHonest(s: Source)
    requires WellFormed(s)
    ensures HonestSearch(Searches(s), TableProperties(s))
  {
    var p := TableProperties(s);
    forall jobs: seq<Job<Work>> | p.keeps(jobs) && jobs != [] && jobs[0].state.Done?
      ensures HonestSearchAt(Searches(s), p, jobs)
    {
      MainStopsWell(s, jobs);
      assert jobs + NewJobs<Work>([]) == jobs;
    }
  }

  /** The driver on this program after `n` iterations of its loop. */
  function DriverAfter(s: Source, n: nat): Option<State<Work>> {
    Iterations(Runs(s), Searches(s), Start(OtherWork(Parse(0))), n)
  }

  /** As long as nothing is cut off, how deep usings may be followed changes nothing. */
  lemma DeeperIsSame(s: Source, depth: nat, n: nat)
    requires s.depth <= depth && DriverAfter(s, n).Some?
    ensures DriverAfter(s.(depth := depth), n) == DriverAfter(s, n)
  {
    var s' := s.(depth := depth);
    forall jobs: seq<Job<Work>>, i: nat | i < |jobs| && !Runs(s)(jobs, i).RunFailed?
      ensures Runs(s')(jobs, i) == Runs(s)(jobs, i)
    {
      RunDeeper(s, depth, jobs, i);
    }
    forall jobs: seq<Job<Work>> | !Searches(s)(jobs).SearchFailed?
      ensures Searches(s')(jobs) == Searches(s)(jobs)
    {
      SearchForMainDeeper(s, depth, jobs);
    }
    IterationsRefined(Runs(s), Searches(s), Runs(s'), Searches(s'), Start(OtherWork(Parse(0))), n);
  }

  /** The finished table is a solution of the program: every condition, value and reference in it is the one
      that the table itself gives; exactly the statements of parsed files and taken static-ifs have jobs; and
      every resolved function is generated. */
  ghost predicate IsSolved(s: Source, jobs: seq<Job<Work>>) {
    (forall i :: 0 <= i < |jobs| ==> ResultStands(s, TableOf(jobs), Contents(jobs), i)) &&
    (forall f: nat :: Processed(jobs, OfFile(f)) ==>
       f < |s.program.files| && HasJobs(Contents(jobs), s.program.files[f]) && HasVariableJobs(s, Contents(jobs), f, s.program.files[f])) &&
    (forall i :: 0 <= i < |jobs| ==> IsPlaced(s, jobs, i) && IsHandled(s, jobs, jobs[i].content))
  }

  /** The statements of a taken static-if have jobs, and a resolved function is generated. */
  ghost predicate IsHandled(s: Source, jobs: seq<Job<Work>>, w: Work) {
    match w
    case OtherWork(Decide(file, id, taken)) =>
      taken ==> HasJobs(Contents(jobs), s.statements(id)) && HasVariableJobs(s, Contents(jobs), file, s.statements(id))
    case OtherWork(Define(_, id, _)) => HasFunctionJob(s, Contents(jobs), id)
    case FunctionWork(key, _, _) => IsResolvedFunction(s, TableOf(jobs), key)
    case _ => true
  }

  lemma ReadyIsSolved(s: Source, jobs: seq<Job<Work>>)
    requires Ready(s, jobs) && AllFinished(jobs)
    ensures IsSolved(s, jobs)
  {
    forall i | 0 <= i < |jobs|
      ensures ResultStands(s, TableOf(jobs), Contents(jobs), i) && IsPlaced(s, jobs, i) && IsHandled(s, jobs, jobs[i].content)
    {
      assert IsReady(s, jobs, i);
    }
    forall f: nat | Processed(jobs, OfFile(f))
      ensures f < |s.program.files| && HasJobs(Contents(jobs), s.program.files[f]) && HasVariableJobs(s, Contents(jobs), f, s.program.files[f])
    {
      var j :| 0 <= j < |jobs| && Processes(jobs[j], OfFile(f));
      assert IsReady(s, jobs, j);
    }
  }

  /** Something is wrong in the program: a job is at fault, or `main` is once its file is parsed. */
  ghost predicate HasFault(s: Source, jobs: seq<Job<Work>>) {
    (exists i :: 0 <= i < |jobs| && IsAtFault(s, jobs, i)) || (jobs != [] && jobs[0].state.Done? && MainIsAtFault(s, jobs))
  }

  lemma SameTable(t: Table, t': Table)
    requires NameLookup.Extends(t, t') && NameLookup.Extends(t', t)
    ensures t' == t
  {
    assert t'.declarations == t.declarations && t'.conditions == t.conditions;
  }

  /** Whether an unfinished job waits is not in the table. */
  lemma ResumedTable(jobs: seq<Job<Work>>, i: nat)
    requires i < |jobs| && !jobs[i].state.Done?
    ensures TableOf(Resumed(jobs, i)) == TableOf(jobs)
  {
    TableGrows(jobs, Resumed(jobs, i));
    TableGrows(Resumed(jobs, i), jobs);
    SameTable(TableOf(jobs), TableOf(Resumed(jobs, i)));
  }

  lemma BodyFailsResumed(s: Source, jobs: seq<Job<Work>>, i: nat, file: nat, uses: seq<Use>)
    requires i < |jobs| && !jobs[i].state.Done? && file < |s.program.files|
    ensures BodyFails(s, Resumed(jobs, i), file, uses) ==> BodyFails(s, jobs, file, uses)
  {
    var jobs' := Resumed(jobs, i);
    assert Contents(jobs') == Contents(jobs);
    ResumedTable(jobs, i);
    assert forall u :: UseFails(s, jobs', file, u) == UseFails(s, jobs, file, u) && UseGoesThrough(s, jobs', file, u) == UseGoesThrough(s, jobs, file, u);
  }

  lemma NamesFailResumed(s: Source, jobs: seq<Job<Work>>, i: nat, file: nat, names: seq<Path>, ignored: Ignored)
    requires i < |jobs| && !jobs[i].state.Done? && file < |s.program.files|
    ensures NamesFail(s, Resumed(jobs, i), file, names, ignored) ==> NamesFail(s, jobs, file, names, ignored)
  {
    ResumedTable(jobs, i);
  }

  lemma ResumedIsAtFault(s: Source, jobs: seq<Job<Work>>, i: nat)
    requires i < |jobs| && !jobs[i].state.Done? && IsAtFault(s, Resumed(jobs, i), i)
    ensures IsAtFault(s, jobs, i)
  {
    var jobs' := Resumed(jobs, i);
    ResumedTable(jobs, i);
    match jobs[i].content
    case OtherWork(Parse(_)) =>
    case OtherWork(Decide(file, id, _)) => NamesFailResumed(s, jobs, i, file, s.conditionNames(id), TheStaticIf(id));
    case OtherWork(Define(file, id, _)) => NamesFailResumed(s, jobs, i, file, s.definitionNames(id), Nothing);
    case FunctionWork(key, _, _) =>
      assert Contents(jobs') == Contents(jobs);
      assert InParsedFile(s, jobs', s.fileOf(key)) == InParsedFile(s, jobs, s.fileOf(key));
      if InParsedFile(s, jobs, s.fileOf(key)) {
        BodyFailsResumed(s, jobs, i, s.fileOf(key), s.body(key));
      }
    case VariableWork(file, id, _) => NamesFailResumed(s, jobs, i, file, s.variableNames(id), Nothing);
  }

  /** Where the driver fails, the program is at fault. */
  lemma FailureHasFault(s: Source, st: State<Work>)
    requires WellFormed(s) && TableProperties(s).keeps(st.jobs) && FailsAt(Runs(s), Searches(s), st)
    ensures HasFault(s, st.jobs)
  {
    var i := FirstRunnable(st.jobs, 0);
    if i.Some? && Run(s, Resumed(st.jobs, i.value), i.value).RunFailed? {
      ResumedIsReady(s, st.jobs, i.value);
      RunFailsExactly(s, Resumed(st.jobs, i.value), i.value);
      ResumedIsAtFault(s, st.jobs, i.value);
    } else {
      SearchFailsExactly(s, st.jobs);
    }
  }

  /** Success, from the main file on: every reference is to a static that is registered exactly once, the job
      of `main` was found, no function whose key is the same as itself was generated twice and no statement
      handled twice, and the table is a solution of the program. */
  ghost predicate IsSuccess(s: Source, jobs: seq<Job<Work>>, finished: seq<nat>) {
    jobs != [] && jobs[0].content == OtherWork(Parse(0)) && AllFinished(jobs) && MainFound(s, jobs) &&
    OneJobEach(Contents(jobs)) && EachOnce(Contents(jobs)) && IsSolved(s, jobs) &&
    (forall k :: 0 <= k < |finished| ==> finished[k] < |jobs|) &&
    var statics := RuntimeStatics(jobs, finished, Products);
    Linked(jobs, statics) && forall r: Static :: r in statics <==> IsProduced(Contents(jobs), r)
  }

  /** A circular dependency: a deadlock in which every job that is not done needs what it waits for. */
  ghost predicate IsCircular(s: Source, jobs: seq<Job<Work>>) {
    Deadlocked(jobs) && !AllFinished(jobs) &&
    forall i :: 0 <= i < |jobs| && !jobs[i].state.Done? ==> Needs(s, jobs, i, jobs[i].state.waitingFor)
  }

  lemma SuccessIsRight(s: Source, jobs: seq<Job<Work>>, finished: seq<nat>)
    requires Ready(s, jobs) && MainFound(s, jobs) && AllFinished(jobs) && Records(finished, jobs)
    requires jobs != [] && jobs[0].content == OtherWork(Parse(0))
    ensures IsSuccess(s, jobs, finished)
  {
    EveryReferenceResolves(jobs, finished);
    OneJobForEach(Contents(jobs));
    ReadyIsSolved(s, jobs);
  }

  lemma CircleIsRight(s: Source, jobs: seq<Job<Work>>)
    requires AllWaitRightly(s, jobs) && Deadlocked(jobs) && !AllFinished(jobs)
    ensures IsCircular(s, jobs)
  {
    forall i | 0 <= i < |jobs| && !jobs[i].state.Done?
      ensures Needs(s, jobs, i, jobs[i].state.waitingFor)
    {
      assert WaitsRightly(s, jobs, i);
    }
  }

  lemma StartIsKept(s: Source)
    ensures TableProperties(s).keeps([Job(OtherWork(Parse(0)), Working)])
  {
    assert Ready(s, [Job(OtherWork(Parse(0)), Working)]);
  }

  /** The compiler on a whole program. However many jobs the program makes, with n of them there have been
      at most n * n + n runs and searches. It fails only if something in the program is at fault, reports a
      circular dependency only if there is one, and on success has solved the program. Unless it failed, the
      result is the same however much deeper usings are followed. */
  method CompileProgram(s: Source, limit: nat) returns (outcome: Outcome, jobs: seq<Job<Work>>, finished: seq<nat>, ghost work: nat, ghost iterations: nat)
    requires WellFormed(s)
    ensures work <= |jobs| * |jobs| + |jobs|
    ensures outcome.TooManyJobs? ==> |jobs| > limit
    ensures outcome.Failed? ==> DriverAfter(s, iterations) == None && FailsIn(s, iterations, jobs) && HasFault(s, jobs)
    ensures !outcome.Failed? ==> forall depth: nat :: depth >= s.depth ==> EndsWith(s.(depth := depth), iterations, jobs, finished)
    ensures outcome.CircularDependency? ==> IsCircular(s, jobs)
    ensures outcome.Completed? ==> IsSuccess(s, jobs, finished)
  {
    RunsAreHonest(s);
    SearchIsHonest(s);
    StartIsKept(s);
    var st;
    outcome, st, work, iterations := RunJobs(OtherWork(Parse(0)), Runs(s), Searches(s), limit, TableProperties(s));
    jobs, finished := st.jobs, st.finished;
    match outcome {
      case Failed => FailureHasFault(s, st);
      case CircularDependency => CircleIsRight(s, jobs);
      case Completed => SuccessIsRight(s, jobs, finished);
      case TooManyJobs =>
    }
    if !outcome.Failed? {
      EndsSameDeeper(s, iterations, st);
    }
  }

  lemma EndsSameDeeper(s: Source, n: nat, st: State<Work>)
    requires DriverAfter(s, n) == Some(st)
    ensures forall depth: nat :: depth >= s.depth ==> EndsWith(s.(depth := depth), n, st.jobs, st.finished)
  {
    forall depth: nat | depth >= s.depth
      ensures EndsWith(s.(depth := depth), n, st.jobs, st.finished)
    {
      DeeperIsSame(s, depth, n);
    }
  }

  /** The table in which the driver fails in its last iteration: the one after the iterations before it, or
      after the run of that iteration. */
  ghost predicate FailsIn(s: Source, n: nat, jobs: seq<Job<Work>>) {
    n > 0 && DriverAfter(s, n - 1).Some? &&
    exists st: State<Work> :: IsWithin(Runs(s), DriverAfter(s, n - 1).value, st) && st.jobs == jobs
  }

  predicate EndsWith(s: Source, n: nat, jobs: seq<Job<Work>>, finished: seq<nat>) {
    var st := DriverAfter(s, n);
    st.Some? && st.value.jobs == jobs && st.value.finished == finished
  }

  /** As runs go on, the answers of lookups stay: tables only grow. */
  lemma RunsGrowTable(s: Source, jobs: seq<Job<Work>>, i: nat)
    requires WellFormed(s) && Ready(s, jobs) && i < |jobs| && Runnable(jobs, i) && !Run(s, Resumed(jobs, i), i).RunFailed?
    ensures NameLookup.Extends(TableOf(jobs), TableOf(AfterRun(Resumed(jobs, i), i, Run(s, Resumed(jobs, i), i))))
  {
    RunGrows(s, jobs, i);
    TableGrows(jobs, AfterRun(Resumed(jobs, i), i, Run(s, Resumed(jobs, i), i)));
  }

  /** What a name of a file stands for does not change while the driver runs. */
  lemma AnswersStayOverRuns(s: Source, jobs: seq<Job<Work>>, i: nat, file: nat, name: string)
    requires WellFormed(s) && Ready(s, jobs) && i < |jobs| && Runnable(jobs, i) && !Run(s, Resumed(jobs, i), i).RunFailed?
    requires file < |s.program.files| && !LookUp(TableOf(jobs), s.program, s.depth, FileScope(s.program, file), Query(name, Nothing)).Wait?
    ensures var jobs' := AfterRun(Resumed(jobs, i), i, Run(s, Resumed(jobs, i), i));
            LookUp(TableOf(jobs'), s.program, s.depth, FileScope(s.program, file), Query(name, Nothing)) ==
            LookUp(TableOf(jobs), s.program, s.depth, FileScope(s.program, file), Query(name, Nothing))
  {
    RunsGrowTable(s, jobs, i);
    AvoidsNothing(s.program.files[file]);
    AnswerIsStable(TableOf(jobs), TableOf(AfterRun(Resumed(jobs, i), i, Run(s, Resumed(jobs, i), i))), s.program, s.depth,
                   FileScope(s.program, file), {}, Query(name, Nothing));
  }
}
