/** The job loop of the compiler driver: progress, a bound on the work, and the circular-dependency report. */
module Scheduler {
  import opened Options

  datatype JobState = Working | Waiting(waitingFor: nat) | Done

  /** A job is what it works on and how far it is. */
  datatype Job<T> = Job(content: T, state: JobState)

  /** A run of a job fails, finishes the job or waits for another job; it may append jobs. */
  datatype RunResult<T> = RunFailed | Finished(content: T, appended: seq<T>) | Waits(on: nat, content: T, appended: seq<T>)

  type Runner<!T> = (seq<Job<T>>, nat) -> RunResult<T>

  function NewJobs<T>(contents: seq<T>): seq<Job<T>> {
    seq(|contents|, i requires 0 <= i < |contents| => Job(contents[i], Working))
  }

  function Contents<T>(jobs: seq<Job<T>>): seq<T> {
    seq(|jobs|, i requires 0 <= i < |jobs| => jobs[i].content)
  }

  /** The jobs after a run of job `i`. */
  function AfterRun<T>(jobs: seq<Job<T>>, i: nat, result: RunResult<T>): seq<Job<T>>
    requires i < |jobs| && !result.RunFailed?
  {
    var state := if result.Finished? then Done else Waiting(result.on);
    jobs[i := Job(result.content, state)] + NewJobs(result.appended)
  }

  /** Not done, and not waiting for a job that is not done. */
  predicate Runnable<T>(jobs: seq<Job<T>>, i: nat)
    requires i < |jobs|
  {
    match jobs[i].state
    case Done => false
    case Working => true
    case Waiting(on) => on < |jobs| && jobs[on].state.Done?
  }

  function Resumed<T>(jobs: seq<Job<T>>, i: nat): seq<Job<T>>
    requires i < |jobs|
  {
    jobs[i := Job(jobs[i].content, Working)]
  }

  /** What every wait in the compiler guarantees: the awaited job exists and is not done when it is
      awaited. It may be the waiting job itself. */
  predicate IsWait<T>(jobs: seq<Job<T>>, on: nat, appended: seq<T>) {
    on < |jobs| + |appended| && (on < |jobs| ==> !jobs[on].state.Done?)
  }

  /** Properties of a table: what every run keeps, and what the search for `main` establishes and every
      run keeps from then on. */
  datatype Properties<!T> = Properties(keeps: seq<Job<T>> -> bool, succeeds: seq<Job<T>> -> bool)

  /** The runs of a job that can run keep the properties, and wait only as they may. */
  ghost predicate Honest<T(!new)>(run: Runner<T>, p: Properties<T>) {
    forall jobs: seq<Job<T>>, i: nat :: p.keeps(jobs) && i < |jobs| && Runnable(jobs, i) ==> HonestAt(run, p, jobs, i)
  }

  ghost predicate HonestAt<T(!new)>(run: Runner<T>, p: Properties<T>, jobs: seq<Job<T>>, i: nat)
    requires i < |jobs|
  {
    var resumed := Resumed(jobs, i);
    var result := run(resumed, i);
    !result.RunFailed? ==>
      p.keeps(AfterRun(resumed, i, result)) && (p.succeeds(jobs) ==> p.succeeds(AfterRun(resumed, i, result))) &&
      (result.Waits? ==> IsWait(resumed, result.on, result.appended))
  }

  /** The search for `main`, which is not a job but waits like one. */
  datatype SearchResult<T> = SearchFailed | Found(appended: seq<T>) | SearchWaits(on: nat, appended: seq<T>)

  type Searcher<!T> = seq<Job<T>> -> SearchResult<T>

  /** The search starts when the first job, which parses the main file, is done. */
  ghost predicate HonestSearch<T(!new)>(search: Searcher<T>, p: Properties<T>) {
    forall jobs: seq<Job<T>> :: p.keeps(jobs) && jobs != [] && jobs[0].state.Done? ==> HonestSearchAt(search, p, jobs)
  }

  ghost predicate HonestSearchAt<T(!new)>(search: Searcher<T>, p: Properties<T>, jobs: seq<Job<T>>) {
    var result := search(jobs);
    !result.SearchFailed? ==>
      p.keeps(jobs + NewJobs(result.appended)) && (result.Found? ==> p.succeeds(jobs + NewJobs(result.appended))) &&
      (result.SearchWaits? ==> IsWait(jobs, result.on, result.appended))
  }

  // ----- Counting runs by what was awaited -----

  /** For each job the jobs it has waited for; and how often it has run. */
  datatype History = History(awaited: seq<set<nat>>, runs: seq<nat>)

  /** A job that is not done has run once for every job it has waited for, and all of those but the
      one it waits for now are done. A done job has run once more. */
  ghost predicate JobAccounted<T>(jobs: seq<Job<T>>, h: History, i: nat)
    requires i < |jobs| == |h.awaited| == |h.runs|
  {
    (forall j :: j in h.awaited[i] ==> j < |jobs|) &&
    match jobs[i].state
    case Working => h.runs[i] == |h.awaited[i]| && AllDone(jobs, h.awaited[i])
    case Waiting(on) => h.runs[i] == |h.awaited[i]| && on in h.awaited[i] && AllDone(jobs, h.awaited[i] - {on})
    case Done => h.runs[i] == |h.awaited[i]| + 1 && i !in h.awaited[i]
  }

  ghost predicate AllDone<T>(jobs: seq<Job<T>>, s: set<nat>) {
    forall j :: j in s ==> j < |jobs| && jobs[j].state.Done?
  }

  ghost predicate Accounted<T>(jobs: seq<Job<T>>, h: History) {
    |h.awaited| == |h.runs| == |jobs| && forall i :: 0 <= i < |jobs| ==> JobAccounted(jobs, h, i)
  }

  lemma {:induction false} SmallSet(s: set<nat>, n: nat)
    requires forall j :: j in s ==> j < n
    ensures |s| <= n
    decreases n
  {
    if n > 0 {
      SmallSet(s - {n - 1}, n - 1);
      assert |s| <= |s - {n - 1}| + 1;
    } else {
      assert s == {};
    }
  }

  /** No job runs more often than there are jobs. */
  lemma RunsBounded<T>(jobs: seq<Job<T>>, h: History, i: nat)
    requires Accounted(jobs, h) && i < |jobs|
    ensures h.runs[i] <= |jobs|
  {
    assert JobAccounted(jobs, h, i);
    if jobs[i].state.Done? {
      var others := h.awaited[i] + {i};
      SmallSet(others, |jobs|);
      assert |others| == |h.awaited[i]| + 1;
    } else {
      SmallSet(h.awaited[i], |jobs|);
    }
  }

  function Sum(s: seq<nat>): nat {
    if s == [] then 0 else Sum(s[..|s| - 1]) + s[|s| - 1]
  }

  lemma {:induction false} SumBounded(s: seq<nat>, n: nat)
    requires forall i :: 0 <= i < |s| ==> s[i] <= n
    ensures Sum(s) <= |s| * n
  {
    if s != [] {
      SumBounded(s[..|s| - 1], n);
      assert |s| * n == (|s| - 1) * n + n;
    }
  }

  lemma {:induction false} SumIncrements(s: seq<nat>, i: nat)
    requires i < |s|
    ensures Sum(s[i := s[i] + 1]) == Sum(s) + 1
  {
    var last := |s| - 1;
    var s' := s[i := s[i] + 1];
    if i < last {
      SumIncrements(s[..last], i);
      assert s'[..last] == s[..last][i := s[i] + 1];
    } else {
      assert s'[..last] == s[..last];
    }
  }

  lemma {:induction false} SumOfZeros(s: seq<nat>, n: nat)
    ensures Sum(s + Zeros(n)) == Sum(s)
    decreases n
  {
    if n > 0 {
      SumOfZeros(s, n - 1);
      assert (s + Zeros(n))[..|s| + n - 1] == s + Zeros(n - 1);
    } else {
      assert s + Zeros(0) == s;
    }
  }

  function Zeros(n: nat): seq<nat> {
    seq(n, _ => 0)
  }

  lemma TotalBounded<T>(jobs: seq<Job<T>>, h: History)
    requires Accounted(jobs, h)
    ensures Sum(h.runs) <= |jobs| * |jobs|
  {
    forall i | 0 <= i < |h.runs|
      ensures h.runs[i] <= |jobs|
    {
      RunsBounded(jobs, h, i);
    }
    SumBounded(h.runs, |jobs|);
  }

  lemma SquareMonotone(a: nat, b: nat)
    requires a <= b
    ensures a * a <= b * b
  {
    var d := b - a;
    assert (a + d) * (a + d) == a * a + a * d + d * a + d * d;
  }

  // ----- One run -----

  function AfterAccount(h: History, i: nat, on: Option<nat>, appended: nat): History
    requires i < |h.awaited| == |h.runs|
  {
    History(h.awaited[i := h.awaited[i] + if on.Some? then {on.value} else {}] + seq(appended, _ => {}), h.runs[i := h.runs[i] + 1] + Zeros(appended))
  }

  /** A job that others have waited for stays done, and one that is awaited now was not done before:
      so it is a new member of the set. */
  lemma RunAccounted<T(!new)>(jobs: seq<Job<T>>, h: History, i: nat, result: RunResult<T>) returns (h': History)
    requires Accounted(jobs, h) && i < |jobs| && jobs[i].state.Working? && !result.RunFailed?
    requires result.Waits? ==> IsWait(jobs, result.on, result.appended)
    ensures Accounted(AfterRun(jobs, i, result), h') && Sum(h'.runs) == Sum(h.runs) + 1
  {
    var on := if result.Waits? then Some(result.on) else None;
    h' := AfterAccount(h, i, on, |result.appended|);
    var jobs' := AfterRun(jobs, i, result);
    SumIncrements(h.runs, i);
    SumOfZeros(h.runs[i := h.runs[i] + 1], |result.appended|);
    forall j | 0 <= j < |jobs'|
      ensures JobAccounted(jobs', h', j)
    {
      if j < |jobs| {
        assert JobAccounted(jobs, h, j);
        if j == i && on.Some? {
          assert h'.awaited[i] - {on.value} == h.awaited[i];
        }
      }
    }
  }

  // ----- The search for main -----

  /** The search has waited for these jobs, all done but the one it waits for now; it has run once
      for every wait after the first, which was set up before it ran. */
  ghost predicate MainAccounted<T>(jobs: seq<Job<T>>, state: JobState, awaited: set<nat>, searches: nat) {
    (forall j :: j in awaited ==> j < |jobs|) &&
    match state
    case Working => false
    case Waiting(on) => |awaited| == searches + 1 && on in awaited && AllDone(jobs, awaited - {on})
    case Done => |awaited| == searches
  }

  // ----- The loop -----

  /** The state of the driver between two iterations of its loop. */
  datatype State<T> = State(jobs: seq<Job<T>>, finished: seq<nat>, main: JobState)

  function FirstRunnable<T>(jobs: seq<Job<T>>, from: nat): (found: Option<nat>)
    requires from <= |jobs|
    ensures match found
            case Some(i) => from <= i < |jobs| && Runnable(jobs, i) && forall j :: from <= j < i ==> !Runnable(jobs, j)
            case None => forall j :: from <= j < |jobs| ==> !Runnable(jobs, j)
    decreases |jobs| - from
  {
    if from == |jobs| then None
    else if Runnable(jobs, from) then Some(from)
    else FirstRunnable(jobs, from + 1)
  }

  method FindRunnable<T>(jobs: seq<Job<T>>) returns (found: Option<nat>)
    ensures found == FirstRunnable(jobs, 0)
  {
    var i := 0;
    while i < |jobs|
      invariant 0 <= i <= |jobs|
      invariant FirstRunnable(jobs, 0) == FirstRunnable(jobs, i)
    {
      if Runnable(jobs, i) {
        return Some(i);
      }
      i := i + 1;
    }
    found := None;
  }

  /** Run the first job that can run, if there is one; None if it fails. */
  function JobStep<T>(run: Runner<T>, st: State<T>): Option<State<T>> {
    match FirstRunnable(st.jobs, 0)
    case None => Some(st)
    case Some(i) =>
      var resumed := Resumed(st.jobs, i);
      var result := run(resumed, i);
      if result.RunFailed? then None
      else Some(st.(jobs := AfterRun(resumed, i, result), finished := if result.Finished? then st.finished + [i] else st.finished))
  }

  /** Look for `main` if what the search waits for is done. */
  function MainStep<T>(search: Searcher<T>, st: State<T>): Option<State<T>> {
    if !st.main.Waiting? || st.main.waitingFor >= |st.jobs| || !st.jobs[st.main.waitingFor].state.Done? then Some(st) else
    match search(st.jobs)
    case SearchFailed => None
    case Found(appended) => Some(st.(jobs := st.jobs + NewJobs(appended), main := Done))
    case SearchWaits(on, appended) => Some(st.(jobs := st.jobs + NewJobs(appended), main := Waiting(on)))
  }

  function Iteration<T>(run: Runner<T>, search: Searcher<T>, st: State<T>): Option<State<T>> {
    match JobStep(run, st)
    case None => None
    case Some(st1) => MainStep(search, st1)
  }

  /** The state after `n` iterations; None if one of them fails. */
  function Iterations<T>(run: Runner<T>, search: Searcher<T>, st: State<T>, n: nat): Option<State<T>> {
    if n == 0 then Some(st) else
    match Iterations(run, search, st, n - 1)
    case None => None
    case Some(st1) => Iteration(run, search, st1)
  }

  function Start<T>(first: T): State<T> {
    State([Job(first, Working)], [], Waiting(0))
  }

  /** Other runs and another search that do the same wherever these do not fail. */
  ghost predicate Refines<T(!new)>(run: Runner<T>, search: Searcher<T>, run': Runner<T>, search': Searcher<T>) {
    (forall jobs: seq<Job<T>>, i: nat :: i < |jobs| && !run(jobs, i).RunFailed? ==> run'(jobs, i) == run(jobs, i)) &&
    forall jobs: seq<Job<T>> :: !search(jobs).SearchFailed? ==> search'(jobs) == search(jobs)
  }

  lemma {:induction false} IterationsRefined<T(!new)>(
    run: Runner<T>, search: Searcher<T>, run': Runner<T>, search': Searcher<T>, st: State<T>, n: nat
  )
    requires Refines(run, search, run', search') && Iterations(run, search, st, n).Some?
    ensures Iterations(run', search', st, n) == Iterations(run, search, st, n)
  {
    if n > 0 {
      IterationsRefined(run, search, run', search', st, n - 1);
    }
  }

  predicate AllFinished<T>(jobs: seq<Job<T>>) {
    forall i :: 0 <= i < |jobs| ==> jobs[i].state.Done?
  }

  /** Every unfinished job waits for an unfinished job. */
  predicate Deadlocked<T>(jobs: seq<Job<T>>) {
    forall i :: 0 <= i < |jobs| ==>
      match jobs[i].state
      case Done => true
      case Working => false
      case Waiting(on) => on < |jobs| && !jobs[on].state.Done?
  }

  /** The finished jobs in the order they finished: each once. */
  ghost predicate Records<T>(finished: seq<nat>, jobs: seq<Job<T>>) {
    (forall i :: 0 <= i < |jobs| ==> (i in finished <==> jobs[i].state.Done?)) &&
    (forall i :: i in finished ==> i < |jobs|) &&
    forall i, j :: 0 <= i < j < |finished| ==> finished[i] != finished[j]
  }

  lemma RecordsRun<T>(finished: seq<nat>, jobs: seq<Job<T>>, i: nat, result: RunResult<T>)
    requires Records(finished, jobs) && i < |jobs| && jobs[i].state.Working? && !result.RunFailed?
    ensures Records(if result.Finished? then finished + [i] else finished, AfterRun(jobs, i, result))
  {
    var finished' := if result.Finished? then finished + [i] else finished;
    var jobs' := AfterRun(jobs, i, result);
    forall j | 0 <= j < |jobs'|
      ensures j in finished' <==> jobs'[j].state.Done?
    {
    }
  }

  /** `TooManyJobs`: the loop was not followed any further. */
  datatype Outcome = Failed | Completed | CircularDependency | TooManyJobs

  /** What holds between two iterations, with accounts of what has run. */
  ghost predicate LoopInvariant<T>(st: State<T>, p: Properties<T>, h: History, mainAwaited: set<nat>, searches: nat) {
    p.keeps(st.jobs) && (st.main.Done? ==> p.succeeds(st.jobs)) && Accounted(st.jobs, h) &&
    MainAccounted(st.jobs, st.main, mainAwaited, searches) && 0 in mainAwaited && Records(st.finished, st.jobs)
  }

  lemma WorkBounded<T>(st: State<T>, h: History, mainAwaited: set<nat>, searches: nat)
    requires Accounted(st.jobs, h) && MainAccounted(st.jobs, st.main, mainAwaited, searches)
    ensures Sum(h.runs) + searches <= |st.jobs| * |st.jobs| + |st.jobs|
  {
    TotalBounded(st.jobs, h);
    SmallSet(mainAwaited, |st.jobs|);
  }

  /** A job resumed: what it waited for is done. */
  lemma ResumeAccounted<T>(jobs: seq<Job<T>>, h: History, i: nat)
    requires Accounted(jobs, h) && i < |jobs| && Runnable(jobs, i)
    ensures Accounted(Resumed(jobs, i), h)
  {
    var jobs' := Resumed(jobs, i);
    forall j | 0 <= j < |jobs'|
      ensures JobAccounted(jobs', h, j)
    {
      assert JobAccounted(jobs, h, j);
    }
  }

  lemma SearchAccounted<T>(jobs: seq<Job<T>>, contents: seq<T>, h: History) returns (h': History)
    requires Accounted(jobs, h)
    ensures Accounted(jobs + NewJobs(contents), h') && Sum(h'.runs) == Sum(h.runs)
  {
    h' := History(h.awaited + seq(|contents|, _ => {}), h.runs + Zeros(|contents|));
    SumOfZeros(h.runs, |contents|);
    var jobs' := jobs + NewJobs(contents);
    forall j | 0 <= j < |jobs'|
      ensures JobAccounted(jobs', h', j)
    {
      if j < |jobs| {
        assert JobAccounted(jobs, h, j);
      }
    }
  }

  /** Run one job, resuming it first if it was waiting. */
  method RunJob<T(!new)>(st: State<T>, i: nat, run: Runner<T>, ghost p: Properties<T>, ghost h: History, ghost mainAwaited: set<nat>, ghost searches: nat)
    returns (st': Option<State<T>>, ghost h': History)
    requires LoopInvariant(st, p, h, mainAwaited, searches) && Honest(run, p) && FirstRunnable(st.jobs, 0) == Some(i)
    ensures st' == JobStep(run, st)
    ensures st'.Some? ==> LoopInvariant(st'.value, p, h', mainAwaited, searches) && Sum(h'.runs) == Sum(h.runs) + 1
    ensures st'.Some? ==> |st.jobs| <= |st'.value.jobs|
    ensures st'.Some? ==> forall j :: 0 <= j < |st.jobs| && st.jobs[j].state.Done? ==> st'.value.jobs[j] == st.jobs[j]
    ensures st'.None? ==> h' == h
  {
    var working := Resumed(st.jobs, i);
    ResumeAccounted(st.jobs, h, i);
    var result := run(working, i);
    assert HonestAt(run, p, st.jobs, i);
    var jobs, finished;
    match result {
      case RunFailed => return None, h;
      case Finished(content, appended) =>
        jobs, finished := working[i := Job(content, Done)] + NewJobs(appended), st.finished + [i];
      case Waits(on, content, appended) =>
        jobs, finished := working[i := Job(content, Waiting(on))] + NewJobs(appended), st.finished;
    }
    st' := Some(State(jobs, finished, st.main));
    assert Records(st.finished, working);
    RecordsRun(st.finished, working, i, result);
    h' := RunAccounted(working, h, i, result);
  }

  /** When `main` is looked for, the first job is done. */
  lemma FirstIsDone<T>(st: State<T>, p: Properties<T>, h: History, mainAwaited: set<nat>, searches: nat)
    requires LoopInvariant(st, p, h, mainAwaited, searches)
    requires st.main.Waiting? && st.main.waitingFor < |st.jobs| && st.jobs[st.main.waitingFor].state.Done?
    ensures st.jobs != [] && st.jobs[0].state.Done?
  {
    assert 0 in mainAwaited;
  }

  /** Look for `main` once what the search waits for is done. */
  method SearchMain<T(!new)>(st: State<T>, search: Searcher<T>, ghost p: Properties<T>, ghost h: History, ghost mainAwaited: set<nat>, ghost searches: nat)
    returns (st': Option<State<T>>, ghost h': History, ghost mainAwaited': set<nat>)
    requires LoopInvariant(st, p, h, mainAwaited, searches) && HonestSearch(search, p)
    requires st.main.Waiting? && st.main.waitingFor < |st.jobs| && st.jobs[st.main.waitingFor].state.Done?
    ensures st' == MainStep(search, st)
    ensures st'.Some? ==> LoopInvariant(st'.value, p, h', mainAwaited', searches + 1) && Sum(h'.runs) == Sum(h.runs)
    ensures st'.Some? ==> st.jobs <= st'.value.jobs
    ensures st'.None? ==> h' == h && mainAwaited' == mainAwaited
  {
    FirstIsDone(st, p, h, mainAwaited, searches);
    var result := search(st.jobs);
    assert HonestSearchAt(search, p, st.jobs);
    match result
    case SearchFailed => st', h', mainAwaited' := None, h, mainAwaited;
    case Found(appended) =>
      h' := SearchAccounted(st.jobs, appended, h);
      st', mainAwaited' := Some(State(st.jobs + NewJobs(appended), st.finished, Done)), mainAwaited;
    case SearchWaits(on, appended) =>
      h' := SearchAccounted(st.jobs, appended, h);
      st', mainAwaited' := Some(State(st.jobs + NewJobs(appended), st.finished, Waiting(on))), mainAwaited + {on};
      assert mainAwaited' - {on} == mainAwaited;
  }

  /** Nothing can be done. */
  predicate Stuck<T>(st: State<T>) {
    FirstRunnable(st.jobs, 0).None? && (st.main.Waiting? ==> st.main.waitingFor < |st.jobs| && !st.jobs[st.main.waitingFor].state.Done?)
  }

  /** The next run, or the next search, fails. */
  predicate FailsAt<T>(run: Runner<T>, search: Searcher<T>, st: State<T>) {
    JobStep(run, st).None? || (MainStep(search, st).None? && st.jobs != [] && st.jobs[0].state.Done?)
  }

  /** A state from which an iteration starts, or the one in the middle of it. */
  ghost predicate IsWithin<T>(run: Runner<T>, start: State<T>, st: State<T>) {
    st == start || JobStep(run, start) == Some(st)
  }

  /** One iteration of the loop, which may fail at the state it starts from or at the one after its run. */
  method Iterate<T(!new)>(
    st: State<T>, run: Runner<T>, search: Searcher<T>, ghost p: Properties<T>, ghost h: History, ghost mainAwaited: set<nat>, ghost searches: nat
  ) returns (next: Option<State<T>>, last: State<T>, didWork: bool, ghost h': History, ghost mainAwaited': set<nat>, ghost searches': nat)
    requires LoopInvariant(st, p, h, mainAwaited, searches) && Honest(run, p) && HonestSearch(search, p)
    ensures next == Iteration(run, search, st)
    ensures next.None? ==> FailsAt(run, search, last) && IsWithin(run, st, last) && p.keeps(last.jobs) && |st.jobs| <= |last.jobs|
    ensures next.Some? ==> LoopInvariant(next.value, p, h', mainAwaited', searches')
    ensures next.Some? ==> Sum(h'.runs) + searches' >= Sum(h.runs) + searches + (if didWork then 1 else 0)
    ensures next.Some? && !didWork ==> next.value == st && Stuck(st)
  {
    didWork, h', mainAwaited', searches' := false, h, mainAwaited, searches;
    next, last := Some(st), st;
    var i := FindRunnable(st.jobs);
    if i.Some? {
      next, h' := RunJob(st, i.value, run, p, h, mainAwaited, searches);
      if next.None? {
        return;
      }
      didWork := true;
    }
    last := next.value;
    if last.main.Waiting? && last.jobs[last.main.waitingFor].state.Done? {
      FirstIsDone(last, p, h', mainAwaited, searches);
      next, h', mainAwaited' := SearchMain(last, search, p, h', mainAwaited, searches);
      if next.Some? {
        didWork, searches' := true, searches + 1;
      }
    }
  }

  /** The whole loop, from the job that parses the main file, followed as long as there are at most
      `limit` jobs. With n jobs it has made at most n * n + n runs and searches, not counting an iteration
      that fails, so it stops by itself unless more than `limit` jobs are created. It reports success only if
      every job and the search for `main` are finished, each job once, a circular dependency only if there is
      a deadlock, and failure only where a run or search fails. What every run keeps holds at the end, and
      the state is that after `iterations` iterations, or where the last of them fails. */
  method RunJobs<T(!new)>(first: T, run: Runner<T>, search: Searcher<T>, limit: nat, ghost p: Properties<T>)
    returns (outcome: Outcome, st: State<T>, ghost work: nat, ghost iterations: nat)
    requires p.keeps([Job(first, Working)]) && Honest(run, p) && HonestSearch(search, p)
    ensures work <= |st.jobs| * |st.jobs| + |st.jobs|
    ensures outcome.TooManyJobs? ==> |st.jobs| > limit
    ensures Iterations(run, search, Start(first), iterations) == if outcome.Failed? then None else Some(st)
    ensures p.keeps(st.jobs) && (!outcome.Failed? ==> Records(st.finished, st.jobs))
    ensures outcome.Failed? ==>
              FailsAt(run, search, st) && iterations > 0 && Iterations(run, search, Start(first), iterations - 1).Some? &&
              IsWithin(run, Iterations(run, search, Start(first), iterations - 1).value, st)
    ensures outcome.Completed? ==> AllFinished(st.jobs) && st.main.Done? && p.succeeds(st.jobs)
    ensures outcome.CircularDependency? ==> Deadlocked(st.jobs) && !AllFinished(st.jobs)
  {
    st := State([Job(first, Working)], [], Waiting(0));
    ghost var h, mainAwaited, searches := History([{}], [0]), {0}, 0;
    work, iterations := 0, 0;
    var didWork := true;
    assert Sum(h.runs) == 0 by {
      assert h.runs[..0] == [];
    }
    while didWork && |st.jobs| <= limit
      invariant LoopInvariant(st, p, h, mainAwaited, searches) && work == Sum(h.runs) + searches
      invariant work <= |st.jobs| * |st.jobs| + |st.jobs|
      invariant Iterations(run, search, Start(first), iterations) == Some(st)
      invariant !didWork ==> Stuck(st)
      decreases limit * limit + limit - work + if didWork then 1 else 0
    {
      SquareMonotone(|st.jobs|, limit);
      var next, last;
      next, last, didWork, h, mainAwaited, searches := Iterate(st, run, search, p, h, mainAwaited, searches);
      iterations := iterations + 1;
      if next.None? {
        SquareMonotone(|st.jobs|, |last.jobs|);
        return Failed, last, work, iterations;
      }
      st := next.value;
      work := Sum(h.runs) + searches;
      WorkBounded(st, h, mainAwaited, searches);
    }
    if didWork {
      return TooManyJobs, st, work, iterations;
    }
    NothingRunnable(st.jobs, h);
    var done := CheckAllFinished(st.jobs);
    outcome := if done then Completed else CircularDependency;
  }

  lemma NothingRunnable<T>(jobs: seq<Job<T>>, h: History)
    requires Accounted(jobs, h) && forall j :: 0 <= j < |jobs| ==> !Runnable(jobs, j)
    ensures Deadlocked(jobs)
  {
    forall i | 0 <= i < |jobs|
      ensures !jobs[i].state.Working? && (jobs[i].state.Waiting? ==> jobs[i].state.waitingFor < |jobs| && !jobs[jobs[i].state.waitingFor].state.Done?)
    {
      assert JobAccounted(jobs, h, i) && !Runnable(jobs, i);
    }
  }

  method CheckAllFinished<T>(jobs: seq<Job<T>>) returns (done: bool)
    ensures done == AllFinished(jobs)
  {
    done := true;
    var i := 0;
    while i < |jobs|
      invariant 0 <= i <= |jobs|
      invariant done == forall j :: 0 <= j < i ==> jobs[j].state.Done?
    {
      if !jobs[i].state.Done? {
        done := false;
      }
      i := i + 1;
    }
  }

  // ----- The report is true -----

  /** The job reached from `i` after `k` steps along what is waited for. */
  function Follow<T>(jobs: seq<Job<T>>, i: nat, k: nat): nat {
    if k == 0 then i else
    var j := Follow(jobs, i, k - 1);
    if j < |jobs| && jobs[j].state.Waiting? then jobs[j].state.waitingFor else j
  }

  lemma {:induction false} FollowStaysUnfinished<T>(jobs: seq<Job<T>>, i: nat, k: nat)
    requires Deadlocked(jobs) && i < |jobs| && !jobs[i].state.Done?
    ensures var j := Follow(jobs, i, k); j < |jobs| && jobs[j].state.Waiting?
    decreases k
  {
    if k > 0 {
      FollowStaysUnfinished(jobs, i, k - 1);
    }
  }

  /** More numbers below `n` than `n` contain one twice. */
  lemma {:induction false} Pigeonhole(s: seq<nat>, n: nat) returns (i: nat, j: nat)
    requires |s| > n && forall k :: 0 <= k < |s| ==> s[k] < n
    ensures i < j < |s| && s[i] == s[j]
    decreases n
  {
    assert s[0] < n;
    if k: nat :| k < |s| && s[k] == n - 1 {
      if l: nat :| l < |s| && l != k && s[l] == n - 1 {
        i, j := if k < l then k else l, if k < l then l else k;
      } else {
        var rest := s[..k] + s[k + 1..];
        var a, b := Pigeonhole(rest, n - 1);
        i, j := if a < k then a else a + 1, if b < k then b else b + 1;
      }
    } else {
      i, j := Pigeonhole(s, n - 1);
    }
  }

  /** From any job of a deadlock, following what is waited for comes back to an unfinished job: the
      report of a circular dependency is true. */
  lemma DeadlockHasCycle<T>(jobs: seq<Job<T>>, i: nat) returns (start: nat, length: nat)
    requires Deadlocked(jobs) && i < |jobs| && !jobs[i].state.Done?
    ensures start + length <= |jobs| && length > 0
    ensures Follow(jobs, i, start + length) == Follow(jobs, i, start)
    ensures forall k: nat :: var j := Follow(jobs, i, k); j < |jobs| && !jobs[j].state.Done?
  {
    var visited := seq(|jobs| + 1, k requires 0 <= k => Follow(jobs, i, k));
    forall k: nat
      ensures var j := Follow(jobs, i, k); j < |jobs| && !jobs[j].state.Done?
    {
      FollowStaysUnfinished(jobs, i, k);
    }
    var a, b := Pigeonhole(visited, |jobs|);
    start, length := a, b - a;
  }

  // ----- The statics of the program -----

  /** The static a job produces, part 0, or one of the constants registered beside it. */
  datatype Static = Static(job: nat, part: nat)

  /** What the jobs produced, in the order in which they finished and registered it. */
  function RuntimeStatics<T>(jobs: seq<Job<T>>, finished: seq<nat>, products: T -> nat): seq<Static>
    requires forall k :: 0 <= k < |finished| ==> finished[k] < |jobs|
  {
    if finished == [] then [] else
    var last := finished[|finished| - 1];
    RuntimeStatics(jobs, finished[..|finished| - 1], products) + PartsOf(last, products(jobs[last].content))
  }

  function PartsOf(job: nat, count: nat): seq<Static> {
    seq(count, k requires 0 <= k => Static(job, k))
  }

  predicate NoDuplicates<S(==)>(s: seq<S>) {
    forall i, j :: 0 <= i < j < |s| ==> s[i] != s[j]
  }

  lemma {:induction false} StaticsAreFinished<T>(jobs: seq<Job<T>>, finished: seq<nat>, products: T -> nat)
    requires (forall k :: 0 <= k < |finished| ==> finished[k] < |jobs|) && NoDuplicates(finished)
    ensures var statics := RuntimeStatics(jobs, finished, products);
            (forall r: Static :: r in statics <==> r.job in finished && r.job < |jobs| && r.part < products(jobs[r.job].content)) &&
            NoDuplicates(statics)
  {
    if finished != [] {
      var rest, last := finished[..|finished| - 1], finished[|finished| - 1];
      StaticsAreFinished(jobs, rest, products);
      var before, parts := RuntimeStatics(jobs, rest, products), PartsOf(last, products(jobs[last].content));
      assert forall i :: i in finished <==> i in rest || i == last;
      assert last !in rest;
      forall r: Static
        ensures r in parts <==> r.job == last && r.part < |parts|
      {
        if r.job == last && r.part < |parts| {
          assert parts[r.part] == r;
        }
      }
      assert forall i :: 0 <= i < |before| ==> before[i] in before;
      assert forall i :: 0 <= i < |parts| ==> parts[i] in parts;
    }
  }

  /** When all jobs are finished, everything a job produced is registered exactly once, and nothing else is. */
  lemma StaticsRegisteredOnce<T>(jobs: seq<Job<T>>, finished: seq<nat>, products: T -> nat)
    requires AllFinished(jobs) && Records(finished, jobs)
    ensures forall k :: 0 <= k < |finished| ==> finished[k] < |jobs|
    ensures var statics := RuntimeStatics(jobs, finished, products);
            (forall r: Static :: r in statics <==> r.job < |jobs| && r.part < products(jobs[r.job].content)) && NoDuplicates(statics)
  {
    assert forall k :: 0 <= k < |finished| ==> finished[k] in finished;
    StaticsAreFinished(jobs, finished, products);
  }
}
