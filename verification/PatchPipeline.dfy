/**
 * The patch builder: one goroutine per query sends jobs, a pool of workers turns each job into a
 * result, a closer closes both channels and the caller collects. A state holds the two channels,
 * the two wait groups and the program point of every goroutine; a run is any interleaving of steps.
 */
module PatchPipeline {
  import opened Sums

  const JOB_BUFFER := 6

  datatype Creator = Creator(left: seq<nat>, finished: bool)
  datatype Worker = Idle | Busy(job: nat) | Exited
  datatype Closer = NotStarted | AwaitingCreators | AwaitingWorkers | Stopped
  datatype Caller = Spawning | Collecting | Returned

  /** `queries` lists the jobs each creator sends; `patch` is what a worker makes of a job. */
  datatype Config = Config(queries: seq<seq<nat>>, workers: int, patch: nat -> nat)

  datatype State = State(
    caller: Caller, creators: seq<Creator>, workers: seq<Worker>, closer: Closer,
    jobs: seq<nat>, jobsClosed: bool, resultsClosed: bool,
    creatorsGroup: int, workersGroup: int,
    patches: seq<nat>, panicked: bool)

  datatype Step =
    | SpawnCreator | SpawnWorker | SpawnCloser
    | SendJob(c: nat) | FinishCreator(c: nat)
    | TakeJob(w: nat) | DeliverResult(w: nat) | ExitWorker(w: nat)
    | CloseJobs | CloseResults | Return

  /** Fewer than one worker is taken as one. */
  function PoolSize(requested: int): nat {
    if requested < 1 then 1 else requested
  }

  function Init(): State {
    State(Spawning, [], [], NotStarted, [], false, false, 0, 0, [], false)
  }

  predicate Enabled(cfg: Config, s: State, step: Step) {
    && !s.panicked
    && match step
       case SpawnCreator => s.caller.Spawning? && |s.creators| < |cfg.queries|
       case SpawnWorker => s.caller.Spawning? && |s.creators| == |cfg.queries| && |s.workers| < PoolSize(cfg.workers)
       case SpawnCloser =>
         s.caller.Spawning? && |s.creators| == |cfg.queries| && |s.workers| == PoolSize(cfg.workers)
       case SendJob(c) =>
         c < |s.creators| && s.creators[c].left != [] && (s.jobsClosed || |s.jobs| < JOB_BUFFER)
       case FinishCreator(c) => c < |s.creators| && s.creators[c].left == [] && !s.creators[c].finished
       case TakeJob(w) => w < |s.workers| && s.workers[w].Idle? && s.jobs != []
       case DeliverResult(w) => w < |s.workers| && s.workers[w].Busy? && (s.resultsClosed || s.caller.Collecting?)
       case ExitWorker(w) => w < |s.workers| && s.workers[w].Idle? && s.jobs == [] && s.jobsClosed
       case CloseJobs => s.closer.AwaitingCreators? && s.creatorsGroup == 0
       case CloseResults => s.closer.AwaitingWorkers? && s.workersGroup == 0
       case Return => s.caller.Collecting? && s.resultsClosed
  }

  /** Sending on a closed channel, closing one twice and a negative wait group all panic. */
  function Apply(cfg: Config, s: State, step: Step): State
    requires Enabled(cfg, s, step)
  {
    match step
    case SpawnCreator =>
      s.(creatorsGroup := s.creatorsGroup + 1, creators := s.creators + [Creator(cfg.queries[|s.creators|], false)])
    case SpawnWorker =>
      s.(workersGroup := s.workersGroup + 1, workers := s.workers + [Idle])
    case SpawnCloser =>
      s.(closer := AwaitingCreators, caller := Collecting)
    case SendJob(c) =>
      if s.jobsClosed then s.(panicked := true) else
        s.(jobs := s.jobs + [s.creators[c].left[0]],
           creators := s.creators[c := Creator(s.creators[c].left[1..], false)])
    case FinishCreator(c) =>
      s.(creatorsGroup := s.creatorsGroup - 1, creators := s.creators[c := Creator([], true)],
         panicked := s.creatorsGroup <= 0)
    case TakeJob(w) =>
      s.(workers := s.workers[w := Busy(s.jobs[0])], jobs := s.jobs[1..])
    case DeliverResult(w) =>
      if s.resultsClosed then s.(panicked := true) else
        s.(workers := s.workers[w := Idle], patches := s.patches + [cfg.patch(s.workers[w].job)])
    case ExitWorker(w) =>
      s.(workersGroup := s.workersGroup - 1, workers := s.workers[w := Exited], panicked := s.workersGroup <= 0)
    case CloseJobs =>
      s.(jobsClosed := true, closer := AwaitingWorkers, panicked := s.jobsClosed)
    case CloseResults =>
      s.(resultsClosed := true, closer := Stopped, panicked := s.resultsClosed)
    case Return =>
      s.(caller := Returned)
  }

  ghost predicate CanMove(cfg: Config, s: State) {
    exists step :: Enabled(cfg, s, step)
  }

  ghost predicate Next(cfg: Config, s: State, s': State) {
    exists step :: Enabled(cfg, s, step) && s' == Apply(cfg, s, step)
  }

  ghost predicate IsRun(cfg: Config, run: seq<State>) {
    run != [] && run[0] == Init() && forall i :: 0 < i < |run| ==> Next(cfg, run[i - 1], run[i])
  }

  // ---------------------------------------------------------------- counting

  function Unfinished(creators: seq<Creator>): seq<int> {
    seq(|creators|, i requires 0 <= i < |creators| => if creators[i].finished then 0 else 1)
  }

  function Running(workers: seq<Worker>): seq<int> {
    seq(|workers|, i requires 0 <= i < |workers| => if workers[i].Exited? then 0 else 1)
  }

  /** How many of the jobs give the result `r`. */
  function Occurs(patch: nat -> nat, jobs: seq<nat>, r: nat): int {
    if jobs == [] then 0 else (if patch(jobs[0]) == r then 1 else 0) + Occurs(patch, jobs[1..], r)
  }

  function Unsent(patch: nat -> nat, creators: seq<Creator>, r: nat): seq<int> {
    seq(|creators|, i requires 0 <= i < |creators| => Occurs(patch, creators[i].left, r))
  }

  function Held(patch: nat -> nat, workers: seq<Worker>, r: nat): seq<int> {
    seq(|workers|, i requires 0 <= i < |workers| => if workers[i].Busy? && patch(workers[i].job) == r then 1 else 0)
  }

  function Wanted(patch: nat -> nat, queries: seq<seq<nat>>, r: nat): seq<int> {
    seq(|queries|, i requires 0 <= i < |queries| => Occurs(patch, queries[i], r))
  }

  /** Where the results equal to `r` are: not sent, queued, being built or collected. */
  function Everywhere(cfg: Config, s: State, r: nat): int {
    Sum(Unsent(cfg.patch, s.creators, r)) + Occurs(cfg.patch, s.jobs, r) + Sum(Held(cfg.patch, s.workers, r))
      + multiset(s.patches)[r]
  }

  lemma {:induction false} OccursSnoc(patch: nat -> nat, jobs: seq<nat>, j: nat, r: nat)
    ensures Occurs(patch, jobs + [j], r) == Occurs(patch, jobs, r) + if patch(j) == r then 1 else 0
  {
    if jobs == [] {
      assert [j][1..] == [];
    } else {
      OccursSnoc(patch, jobs[1..], j, r);
      assert (jobs + [j])[1..] == jobs[1..] + [j];
    }
  }

  // ---------------------------------------------------------------- the invariant

  ghost predicate Balanced(cfg: Config, s: State, r: nat) {
    |s.creators| <= |cfg.queries| &&
    Everywhere(cfg, s, r) == Sum(Wanted(cfg.patch, cfg.queries[..|s.creators|], r))
  }

  ghost predicate Conserved(cfg: Config, s: State) {
    forall r :: Balanced(cfg, s, r)
  }

  ghost predicate Coordinated(cfg: Config, s: State) {
    && !s.panicked
    && |s.creators| <= |cfg.queries| && |s.workers| <= PoolSize(cfg.workers)
    && (|s.workers| > 0 || !s.caller.Spawning? ==> |s.creators| == |cfg.queries|)
    && (!s.caller.Spawning? ==> |s.workers| == PoolSize(cfg.workers))
    && |s.jobs| <= JOB_BUFFER
    && s.creatorsGroup == Sum(Unfinished(s.creators))
    && s.workersGroup == Sum(Running(s.workers))
    && (s.closer.NotStarted? <==> s.caller.Spawning?)
    && (s.jobsClosed <==> s.closer.AwaitingWorkers? || s.closer.Stopped?)
    && (s.resultsClosed <==> s.closer.Stopped?)
    && (s.caller.Returned? ==> s.resultsClosed)
    && (forall c :: 0 <= c < |s.creators| && s.creators[c].finished ==> s.creators[c].left == [])
    && (s.jobsClosed ==> forall c :: 0 <= c < |s.creators| ==> s.creators[c].finished)
    && (forall w :: 0 <= w < |s.workers| && s.workers[w].Exited? ==> s.jobsClosed && s.jobs == [])
    && (s.resultsClosed ==> forall w :: 0 <= w < |s.workers| ==> s.workers[w].Exited?)
  }

  ghost predicate Inv(cfg: Config, s: State) {
    Coordinated(cfg, s) && Conserved(cfg, s)
  }

  lemma GroupCounts(s: State)
    ensures Sum(Unfinished(s.creators)) >= 0 && Sum(Running(s.workers)) >= 0
    ensures Sum(Unfinished(s.creators)) == 0 <==> forall c :: 0 <= c < |s.creators| ==> s.creators[c].finished
    ensures Sum(Running(s.workers)) == 0 <==> forall w :: 0 <= w < |s.workers| ==> s.workers[w].Exited?
  {
    SumZero(Unfinished(s.creators));
    SumZero(Running(s.workers));
    assert forall c :: 0 <= c < |s.creators| ==> (Unfinished(s.creators)[c] == 0 <==> s.creators[c].finished);
    assert forall w :: 0 <= w < |s.workers| ==> (Running(s.workers)[w] == 0 <==> s.workers[w].Exited?);
  }

  predicate OfCaller(step: Step) { step.SpawnCreator? || step.SpawnWorker? || step.SpawnCloser? || step.Return? }
  predicate OfCreator(step: Step) { step.SendJob? || step.FinishCreator? }
  predicate OfWorker(step: Step) { step.TakeJob? || step.DeliverResult? || step.ExitWorker? }

  lemma CallerCoordinated(cfg: Config, s: State, step: Step)
    requires Coordinated(cfg, s) && Enabled(cfg, s, step) && OfCaller(step)
    ensures Coordinated(cfg, Apply(cfg, s, step))
  {
    var s' := Apply(cfg, s, step);
    if step.SpawnCreator? {
      SumSnoc(Unfinished(s.creators), 1);
      assert Unfinished(s'.creators) == Unfinished(s.creators) + [1];
    } else if step.SpawnWorker? {
      SumSnoc(Running(s.workers), 1);
      assert Running(s'.workers) == Running(s.workers) + [1];
    }
  }

  lemma CreatorCoordinated(cfg: Config, s: State, step: Step)
    requires Coordinated(cfg, s) && Enabled(cfg, s, step) && OfCreator(step)
    ensures Coordinated(cfg, Apply(cfg, s, step))
  {
    var s' := Apply(cfg, s, step);
    GroupCounts(s);
    if step.SendJob? {
      assert Unfinished(s'.creators) == Unfinished(s.creators);
    } else {
      SumUpdate(Unfinished(s.creators), step.c, 0);
      assert Unfinished(s'.creators) == Unfinished(s.creators)[step.c := 0];
    }
  }

  lemma WorkerCoordinated(cfg: Config, s: State, step: Step)
    requires Coordinated(cfg, s) && Enabled(cfg, s, step) && OfWorker(step)
    ensures Coordinated(cfg, Apply(cfg, s, step))
  {
    var s' := Apply(cfg, s, step);
    GroupCounts(s);
    if step.ExitWorker? {
      SumUpdate(Running(s.workers), step.w, 0);
      assert Running(s'.workers) == Running(s.workers)[step.w := 0];
    } else {
      assert Running(s'.workers) == Running(s.workers);
    }
  }

  lemma StepCoordinated(cfg: Config, s: State, step: Step)
    requires Coordinated(cfg, s) && Enabled(cfg, s, step)
    ensures Coordinated(cfg, Apply(cfg, s, step))
  {
    if OfCaller(step) {
      CallerCoordinated(cfg, s, step);
    } else if OfCreator(step) {
      CreatorCoordinated(cfg, s, step);
    } else if OfWorker(step) {
      WorkerCoordinated(cfg, s, step);
    } else {
      GroupCounts(s);
    }
  }

  lemma SpawnBalanced(cfg: Config, s: State, step: Step, r: nat)
    requires Balanced(cfg, s, r) && Enabled(cfg, s, step) && OfCaller(step)
    ensures Balanced(cfg, Apply(cfg, s, step), r)
  {
    hide Sum, Occurs;
    var s' := Apply(cfg, s, step);
    if step.SpawnCreator? {
      var n := |s.creators|;
      var more := Occurs(cfg.patch, cfg.queries[n], r);
      SumSnoc(Unsent(cfg.patch, s.creators, r), more);
      assert Unsent(cfg.patch, s'.creators, r) == Unsent(cfg.patch, s.creators, r) + [more];
      SumSnoc(Wanted(cfg.patch, cfg.queries[..n], r), more);
      assert Wanted(cfg.patch, cfg.queries[..n + 1], r) == Wanted(cfg.patch, cfg.queries[..n], r) + [more];
    } else if step.SpawnWorker? {
      SumSnoc(Held(cfg.patch, s.workers, r), 0);
      assert Held(cfg.patch, s'.workers, r) == Held(cfg.patch, s.workers, r) + [0];
    }
  }

  lemma CreatorBalanced(cfg: Config, s: State, step: Step, r: nat)
    requires Balanced(cfg, s, r) && Enabled(cfg, s, step) && OfCreator(step) && !s.jobsClosed
    ensures Balanced(cfg, Apply(cfg, s, step), r)
  {
    var s' := Apply(cfg, s, step);
    if step.SendJob? {
      var left := s.creators[step.c].left;
      var less := Occurs(cfg.patch, left[1..], r);
      OccursSnoc(cfg.patch, s.jobs, left[0], r);
      SumUpdate(Unsent(cfg.patch, s.creators, r), step.c, less);
      assert Unsent(cfg.patch, s'.creators, r) == Unsent(cfg.patch, s.creators, r)[step.c := less];
    } else {
      assert Unsent(cfg.patch, s'.creators, r) == Unsent(cfg.patch, s.creators, r);
    }
  }

  lemma WorkerBalanced(cfg: Config, s: State, step: Step, r: nat)
    requires Balanced(cfg, s, r) && Enabled(cfg, s, step) && OfWorker(step) && !s.resultsClosed
    ensures Balanced(cfg, Apply(cfg, s, step), r)
  {
    hide Sum, Occurs, Held, Unsent, Wanted;
    var s' := Apply(cfg, s, step);
    HeldUpdate(cfg.patch, s.workers, step.w, s'.workers[step.w], r);
    if step.TakeJob? {
      OccursFirst(cfg.patch, s.jobs, r);
    }
  }

  lemma HeldUpdate(patch: nat -> nat, workers: seq<Worker>, w: nat, now: Worker, r: nat)
    requires w < |workers|
    ensures Sum(Held(patch, workers[w := now], r)) ==
            Sum(Held(patch, workers, r)) - (if workers[w].Busy? && patch(workers[w].job) == r then 1 else 0)
              + if now.Busy? && patch(now.job) == r then 1 else 0
  {
    hide Sum;
    var x := if now.Busy? && patch(now.job) == r then 1 else 0;
    SumUpdate(Held(patch, workers, r), w, x);
    assert Held(patch, workers[w := now], r) == Held(patch, workers, r)[w := x];
  }

  lemma OccursFirst(patch: nat -> nat, jobs: seq<nat>, r: nat)
    requires jobs != []
    ensures Occurs(patch, jobs, r) == (if patch(jobs[0]) == r then 1 else 0) + Occurs(patch, jobs[1..], r)
  {
  }

  lemma StepBalanced(cfg: Config, s: State, step: Step, r: nat)
    requires Coordinated(cfg, s) && Balanced(cfg, s, r) && Enabled(cfg, s, step)
    ensures Balanced(cfg, Apply(cfg, s, step), r)
  {
    if OfCaller(step) {
      SpawnBalanced(cfg, s, step, r);
    } else if OfCreator(step) {
      CreatorBalanced(cfg, s, step, r);
    } else if OfWorker(step) {
      WorkerBalanced(cfg, s, step, r);
    }
  }

  /** Every step of every goroutine keeps the invariant. */
  lemma StepInv(cfg: Config, s: State, s': State)
    requires Inv(cfg, s) && Next(cfg, s, s')
    ensures Inv(cfg, s')
  {
    hide Apply, Balanced;
    var step :| Enabled(cfg, s, step) && s' == Apply(cfg, s, step);
    StepCoordinated(cfg, s, step);
    forall r: nat ensures Balanced(cfg, s', r) {
      StepBalanced(cfg, s, step, r);
    }
  }

  lemma {:induction false} RunInv(cfg: Config, run: seq<State>)
    requires IsRun(cfg, run)
    ensures Inv(cfg, run[|run| - 1])
  {
    if |run| > 1 {
      RunInv(cfg, run[..|run| - 1]);
      StepInv(cfg, run[|run| - 2], run[|run| - 1]);
    } else {
      forall r: nat ensures Balanced(cfg, run[0], r) {
        assert Everywhere(cfg, run[0], r) == 0 && Wanted(cfg.patch, cfg.queries[..0], r) == [];
      }
    }
  }

  // ---------------------------------------------------------------- what every run does

  /** No goroutine ever panics: nothing is sent on a closed channel and nothing is closed twice. */
  lemma NeverPanics(cfg: Config, run: seq<State>, i: int)
    requires IsRun(cfg, run) && 0 <= i < |run|
    ensures !run[i].panicked && |run[i].jobs| <= 6
  {
    RunInv(cfg, run[..i + 1]);
  }

  /** A creator with jobs left finds the channel open and waits exactly while six jobs wait in it. */
  lemma SendsExact(cfg: Config, run: seq<State>, c: nat)
    requires IsRun(cfg, run)
    ensures var s := run[|run| - 1];
            c < |s.creators| && s.creators[c].left != [] ==>
              !s.jobsClosed && (Enabled(cfg, s, SendJob(c)) <==> |s.jobs| != 6)
  {
    RunInv(cfg, run);
    hide IsRun, Conserved;
  }

  /** The results of all the jobs of all the queries. */
  function AllResults(patch: nat -> nat, queries: seq<seq<nat>>): seq<nat> {
    if queries == [] then [] else Patched(patch, queries[0]) + AllResults(patch, queries[1..])
  }

  function Patched(patch: nat -> nat, jobs: seq<nat>): seq<nat> {
    seq(|jobs|, i requires 0 <= i < |jobs| => patch(jobs[i]))
  }

  lemma {:induction false} PatchedOccurs(patch: nat -> nat, jobs: seq<nat>, r: nat)
    ensures multiset(Patched(patch, jobs))[r] == Occurs(patch, jobs, r)
  {
    if jobs != [] {
      PatchedOccurs(patch, jobs[1..], r);
      assert Patched(patch, jobs) == [patch(jobs[0])] + Patched(patch, jobs[1..]);
    }
  }

  lemma {:induction false} AllResultsWanted(patch: nat -> nat, queries: seq<seq<nat>>, r: nat)
    ensures multiset(AllResults(patch, queries))[r] == Sum(Wanted(patch, queries, r))
  {
    if queries != [] {
      AllResultsWanted(patch, queries[1..], r);
      PatchedOccurs(patch, queries[0], r);
      assert Wanted(patch, queries, r)[1..] == Wanted(patch, queries[1..], r);
    }
  }

  /** When the caller returns it holds exactly one result for every job of every query. */
  lemma OneResultPerJob(cfg: Config, run: seq<State>)
    requires IsRun(cfg, run) && run[|run| - 1].caller.Returned?
    ensures multiset(run[|run| - 1].patches) == multiset(AllResults(cfg.patch, cfg.queries))
  {
    RunInv(cfg, run);
    var s := run[|run| - 1];
    assert s.workers[0].Exited?;
    assert cfg.queries[..|s.creators|] == cfg.queries;
    forall r ensures multiset(s.patches)[r] == multiset(AllResults(cfg.patch, cfg.queries))[r] {
      AllResultsWanted(cfg.patch, cfg.queries, r);
      SumZero(Unsent(cfg.patch, s.creators, r));
      SumZero(Held(cfg.patch, s.workers, r));
      assert Balanced(cfg, s, r);
    }
  }

  lemma PoolMoves(cfg: Config, s: State, w: nat)
    requires Coordinated(cfg, s) && s.caller.Collecting? && w < |s.workers| && !s.workers[w].Exited?
    requires s.jobs != [] || s.jobsClosed
    ensures CanMove(cfg, s)
  {
    if s.workers[w].Busy? {
      assert Enabled(cfg, s, DeliverResult(w));
    } else if s.jobs != [] {
      assert Enabled(cfg, s, TakeJob(w));
    } else {
      assert Enabled(cfg, s, ExitWorker(w));
    }
  }

  lemma CollectingMoves(cfg: Config, s: State)
    requires Coordinated(cfg, s) && s.caller.Collecting?
    ensures CanMove(cfg, s)
  {
    GroupCounts(s);
    if s.jobs != [] {
      PoolMoves(cfg, s, 0);
    } else if c :| 0 <= c < |s.creators| && !s.creators[c].finished {
      assert Enabled(cfg, s, if s.creators[c].left != [] then SendJob(c) else FinishCreator(c));
    } else if s.closer.AwaitingCreators? {
      assert Enabled(cfg, s, CloseJobs);
    } else if w :| 0 <= w < |s.workers| && !s.workers[w].Exited? {
      PoolMoves(cfg, s, w);
    } else if s.closer.AwaitingWorkers? {
      assert Enabled(cfg, s, CloseResults);
    } else {
      assert Enabled(cfg, s, Return);
    }
  }

  /** Whatever happened so far, some goroutine can move until the caller has returned. */
  lemma NeverStuck(cfg: Config, run: seq<State>)
    requires IsRun(cfg, run) && !run[|run| - 1].caller.Returned?
    ensures CanMove(cfg, run[|run| - 1])
  {
    RunInv(cfg, run);
    var s := run[|run| - 1];
    if s.caller.Collecting? {
      CollectingMoves(cfg, s);
    } else {
      assert Enabled(cfg, s, if |s.creators| < |cfg.queries| then SpawnCreator
                             else if |s.workers| < PoolSize(cfg.workers) then SpawnWorker else SpawnCloser);
    }
  }

  // ---------------------------------------------------------------- how long a run is

  function CreatorSteps(creators: seq<Creator>): seq<int> {
    seq(|creators|, i requires 0 <= i < |creators| => 3 * |creators[i].left| + if creators[i].finished then 0 else 1)
  }

  function WorkerSteps(workers: seq<Worker>): seq<int> {
    seq(|workers|, i requires 0 <= i < |workers| =>
      match workers[i] case Exited => 0 case Idle => 1 case Busy(_) => 2)
  }

  function QuerySteps(queries: seq<seq<nat>>): seq<int> {
    seq(|queries|, i requires 0 <= i < |queries| => 2 + 3 * |queries[i]|)
  }

  function CloserSteps(c: Closer): nat {
    match c case NotStarted => 3 case AwaitingCreators => 2 case AwaitingWorkers => 1 case Stopped => 0
  }

  /** How many steps are left: a job takes three, a goroutine one to start and one to end. */
  function StepsLeft(cfg: Config, s: State): int
    requires |s.creators| <= |cfg.queries|
  {
    Sum(QuerySteps(cfg.queries[|s.creators|..])) + Sum(CreatorSteps(s.creators)) + 2 * |s.jobs|
      + 2 * (PoolSize(cfg.workers) - |s.workers|) + Sum(WorkerSteps(s.workers))
      + CloserSteps(s.closer) + if s.caller.Returned? then 0 else 1
  }

  lemma CallerCounts(cfg: Config, s: State, step: Step)
    requires Coordinated(cfg, s) && Enabled(cfg, s, step) && OfCaller(step)
    ensures |Apply(cfg, s, step).creators| <= |cfg.queries|
    ensures StepsLeft(cfg, Apply(cfg, s, step)) == StepsLeft(cfg, s) - 1
  {
    hide Sum;
    var s' := Apply(cfg, s, step);
    if step.SpawnCreator? {
      var n := |s.creators|;
      SumSnoc(CreatorSteps(s.creators), 3 * |cfg.queries[n]| + 1);
      assert CreatorSteps(s'.creators) == CreatorSteps(s.creators) + [3 * |cfg.queries[n]| + 1];
      SumFirst(QuerySteps(cfg.queries[n..]));
      assert QuerySteps(cfg.queries[n..])[1..] == QuerySteps(cfg.queries[n + 1..]);
    } else if step.SpawnWorker? {
      SumSnoc(WorkerSteps(s.workers), 1);
      assert WorkerSteps(s'.workers) == WorkerSteps(s.workers) + [1];
    }
  }

  lemma CreatorCounts(cfg: Config, s: State, step: Step)
    requires Coordinated(cfg, s) && Enabled(cfg, s, step) && OfCreator(step)
    ensures StepsLeft(cfg, Apply(cfg, s, step)) == StepsLeft(cfg, s) - 1
  {
    hide Sum, QuerySteps, WorkerSteps;
    var s' := Apply(cfg, s, step);
    var left := CreatorSteps(s'.creators)[step.c];
    SumUpdate(CreatorSteps(s.creators), step.c, left);
    assert CreatorSteps(s'.creators) == CreatorSteps(s.creators)[step.c := left];
  }

  lemma WorkerCounts(cfg: Config, s: State, step: Step)
    requires Coordinated(cfg, s) && Enabled(cfg, s, step) && OfWorker(step)
    ensures StepsLeft(cfg, Apply(cfg, s, step)) == StepsLeft(cfg, s) - 1
  {
    var s' := Apply(cfg, s, step);
    var left := WorkerSteps(s'.workers)[step.w];
    SumUpdate(WorkerSteps(s.workers), step.w, left);
    assert WorkerSteps(s'.workers) == WorkerSteps(s.workers)[step.w := left];
  }

  lemma StepCounts(cfg: Config, s: State, step: Step)
    requires Coordinated(cfg, s) && Enabled(cfg, s, step)
    ensures |Apply(cfg, s, step).creators| <= |cfg.queries|
    ensures StepsLeft(cfg, Apply(cfg, s, step)) == StepsLeft(cfg, s) - 1
  {
    if OfCaller(step) {
      CallerCounts(cfg, s, step);
    } else if OfCreator(step) {
      CreatorCounts(cfg, s, step);
    } else if OfWorker(step) {
      WorkerCounts(cfg, s, step);
    }
  }

  lemma {:induction false} RunCounts(cfg: Config, run: seq<State>)
    requires IsRun(cfg, run)
    ensures |run[|run| - 1].creators| <= |cfg.queries|
    ensures |run| - 1 + StepsLeft(cfg, run[|run| - 1]) == StepsLeft(cfg, Init())
  {
    if |run| > 1 {
      var before := run[..|run| - 1];
      RunCounts(cfg, before);
      RunInv(cfg, before);
      var s := run[|run| - 2];
      var step :| Enabled(cfg, s, step) && run[|run| - 1] == Apply(cfg, s, step);
      StepCounts(cfg, s, step);
    }
  }

  /**
   * Every run is finite, and every run in which the caller returns has the same number of steps:
   * three for each job, two for each creator and worker, and four for the closer and the caller.
   */
  lemma RunLength(cfg: Config, run: seq<State>)
    requires IsRun(cfg, run)
    ensures var workers := if cfg.workers < 1 then 1 else cfg.workers;
            && |run| - 1 <= Sum(QuerySteps(cfg.queries)) + 2 * workers + 4
            && (run[|run| - 1].caller.Returned? ==> |run| - 1 == Sum(QuerySteps(cfg.queries)) + 2 * workers + 4)
  {
    RunCounts(cfg, run);
    RunInv(cfg, run);
    var s := run[|run| - 1];
    assert cfg.queries[0..] == cfg.queries;
    SumZero(QuerySteps(cfg.queries[|s.creators|..]));
    SumZero(CreatorSteps(s.creators));
    SumZero(WorkerSteps(s.workers));
    if s.caller.Returned? {
      assert s.workers[0].Exited?;
    }
  }
}
