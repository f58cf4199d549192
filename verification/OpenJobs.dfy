/** Target-open jobs: lock regions of workers and callers, interleaved in any order. */
module OpenJobs {
  import opened Prelude

  const MAX_OPEN_JOBS := 256
  const BOUNDED_PIPELINE_IMAGE_BYTES := 512 * 1024 * 1024
  const BOUNDED_PIPELINE_EXECUTABLE_BYTES := 64 * 1024 * 1024

  datatype Catalog = Catalog(bytes: u64, executableBytes: u64)

  /** `uses_bounded_pipeline`. */
  predicate Bounded(c: Catalog) {
    c.bytes >= BOUNDED_PIPELINE_IMAGE_BYTES || c.executableBytes >= BOUNDED_PIPELINE_EXECUTABLE_BYTES
  }

  /** Half a gigabyte of image or 64 MiB of code is what a job is bounded from, either of them. */
  lemma BoundedIff(c: Catalog)
    ensures !Bounded(c) <==> c.bytes < 0x2000_0000 && c.executableBytes < 0x400_0000
  {
  }

  datatype Stage = Opening | Sketching | Analysing

  datatype JobState =
    | Running(stage: Stage)
    | CatalogReady(catalog: Catalog)
    | SketchReady(catalog: Catalog)
    | Ready(target: nat)
    | Failed

  /** Paths are compared without regard to ASCII case; here they are folded already. */
  datatype Job = Job(path: string, started: nat, state: JobState)

  /** A background task, from the lock region that launches it to the one that stores its result. */
  datatype Worker = CatalogWorker(job: nat) | SketchWorker(job: nat, catalog: Catalog) | AnalysisWorker(job: nat)

  /** Where a caller stands between two lock regions. */
  datatype Caller =
    | Checked(path: string)
    | Saw(job: nat, state: JobState, wantsFull: bool)
    | PromoteCheck(job: nat)
    | PromoteCommit(job: nat)
    | SketchPromote(job: nat)

  datatype State = State(
    jobs: map<nat, Job>,
    workers: map<nat, Worker>,
    callers: map<nat, Caller>,
    /** Identifiers ever given out; they are random and never repeat. */
    used: set<nat>,
    /** The catalog each job once had: history only. */
    catalogs: map<nat, Catalog>,
    clock: nat)

  const INITIAL := State(map[], map[], map[], {}, map[], 0)

  datatype Step =
    | Prune(gone: set<nat>)
    | Close(job: nat)
    | StartCheck(caller: nat, path: string)
    | StartInsert(caller: nat, job: nat, worker: nat, victim: Option<nat>)
    | CatalogDone(worker: nat, result: Option<Catalog>)
    | SketchDone(worker: nat, ok: bool)
    | Progress(worker: nat)
    | AnalysisDone(worker: nat, target: Option<nat>)
    | Poll(caller: nat, job: nat, wantsFull: bool)
    | Decide(caller: nat)
    | Check(caller: nat)
    | Commit(caller: nat, worker: nat)
    | Sketch(caller: nat, worker: nat)

  predicate IsRunning(j: Job) { j.state.Running? }

  predicate Live(j: Job) { !j.state.Failed? }

  /** The oldest job that is not running: what a full table gives up. */
  predicate Victim(jobs: map<nat, Job>, victim: Option<nat>) {
    if |jobs| >= MAX_OPEN_JOBS && exists id :: id in jobs && !IsRunning(jobs[id]) then
      victim.Some? && victim.value in jobs && !IsRunning(jobs[victim.value]) &&
      forall id :: id in jobs && !IsRunning(jobs[id]) ==> jobs[victim.value].started <= jobs[id].started
    else victim.None?
  }

  predicate At(s: State, caller: nat, c: Caller) {
    caller in s.callers && s.callers[caller] == c
  }

  function StateOf(s: State, job: nat): Option<JobState> {
    if job in s.jobs then Some(s.jobs[job].state) else None
  }

  predicate Enabled(s: State, step: Step) {
    match step
    case Prune(gone) => forall id :: id in gone ==> id in s.jobs && !IsRunning(s.jobs[id])
    case Close(job) => job in s.jobs
    case StartCheck(caller, path) => caller !in s.callers
    case StartInsert(caller, job, worker, victim) =>
      && caller in s.callers && s.callers[caller].Checked?
      && job !in s.used && worker !in s.workers && Victim(s.jobs, victim)
    case CatalogDone(worker, _) => worker in s.workers && s.workers[worker].CatalogWorker?
    case SketchDone(worker, _) => worker in s.workers && s.workers[worker].SketchWorker?
    case Progress(worker) => worker in s.workers && s.workers[worker].AnalysisWorker?
    case AnalysisDone(worker, _) => worker in s.workers && s.workers[worker].AnalysisWorker?
    case Poll(caller, job, _) => caller !in s.callers && job in s.jobs
    case Decide(caller) => caller in s.callers && s.callers[caller].Saw?
    case Check(caller) => caller in s.callers && s.callers[caller].PromoteCheck?
    case Commit(caller, worker) =>
      caller in s.callers && s.callers[caller].PromoteCommit? && worker !in s.workers
    case Sketch(caller, worker) =>
      caller in s.callers && s.callers[caller].SketchPromote? && worker !in s.workers
  }

  // ---------------------------------------------------------------- pieces of a step

  /** Every write to a job goes through a lookup: a job that is gone stays gone. */
  function SetState(s: State, job: nat, state: JobState): State {
    if job in s.jobs then s.(jobs := s.jobs[job := s.jobs[job].(state := state)]) else s
  }

  function Launch(s: State, id: nat, w: Worker): State {
    s.(workers := s.workers[id := w])
  }

  function Retire(s: State, id: nat): State {
    s.(workers := s.workers - {id})
  }

  function Leave(s: State, caller: nat): State {
    s.(callers := s.callers - {caller})
  }

  function Go(s: State, caller: nat, c: Caller): State {
    s.(callers := s.callers[caller := c])
  }

  function Inserted(s: State, job: nat, path: string, victim: Option<nat>): State {
    var kept := if victim.Some? then s.jobs - {victim.value} else s.jobs;
    s.(jobs := kept[job := Job(path, s.clock, Running(Opening))], used := s.used + {job}, clock := s.clock + 1)
  }

  /** What a continuation does with the job state it has a copy of, before it answers. */
  function Decided(s: State, caller: nat, saw: Caller): State
    requires saw.Saw?
  {
    match saw.state
    case SketchReady(_) =>
      // The bound is looked up again; a job that has moved on counts as not bounded.
      var now := StateOf(s, saw.job);
      var bounded := now.Some? && now.value.SketchReady? && Bounded(now.value.catalog);
      if saw.wantsFull && !bounded then Go(s, caller, PromoteCheck(saw.job)) else Leave(s, caller)
    case CatalogReady(catalog) =>
      if saw.wantsFull && !Bounded(catalog) then Go(s, caller, PromoteCheck(saw.job))
      else Go(s, caller, SketchPromote(saw.job))
    case _ => Leave(s, caller)
  }

  predicate BoundedNow(s: State, job: nat) {
    var now := StateOf(s, job);
    now.Some? && (now.value.CatalogReady? || now.value.SketchReady?) && Bounded(now.value.catalog)
  }

  function Next(s: State, step: Step): State
    requires Enabled(s, step)
  {
    match step
    case Prune(gone) => s.(jobs := s.jobs - gone)
    case Close(job) => s.(jobs := s.jobs - {job})
    case StartCheck(caller, path) =>
      if exists id :: id in s.jobs && s.jobs[id].path == path && Live(s.jobs[id]) then s
      else Go(s, caller, Checked(path))
    case StartInsert(caller, job, worker, victim) =>
      Leave(Launch(Inserted(s, job, s.callers[caller].path, victim), worker, CatalogWorker(job)), caller)
    case CatalogDone(worker, result) =>
      var job := s.workers[worker].job;
      var next := SetState(Retire(s, worker), job, if result.Some? then CatalogReady(result.value) else Failed);
      if result.Some? then next.(catalogs := s.catalogs[job := result.value]) else next
    case SketchDone(worker, ok) =>
      var w := s.workers[worker];
      SetState(Retire(s, worker), w.job, if ok then SketchReady(w.catalog) else Failed)
    case Progress(worker) => SetState(s, s.workers[worker].job, Running(Analysing))
    case AnalysisDone(worker, target) =>
      SetState(Retire(s, worker), s.workers[worker].job, if target.Some? then Ready(target.value) else Failed)
    case Poll(caller, job, wantsFull) => Go(s, caller, Saw(job, s.jobs[job].state, wantsFull))
    case Decide(caller) => Decided(s, caller, s.callers[caller])
    case Check(caller) =>
      var job := s.callers[caller].job;
      Go(s, caller, if BoundedNow(s, job) then SketchPromote(job) else PromoteCommit(job))
    case Commit(caller, worker) =>
      var job := s.callers[caller].job;
      var now := StateOf(s, job);
      if now.Some? && (now.value.CatalogReady? || now.value.SketchReady?) then
        Launch(Leave(SetState(s, job, Running(Analysing)), caller), worker, AnalysisWorker(job))
      else Leave(s, caller)
    case Sketch(caller, worker) =>
      var job := s.callers[caller].job;
      var now := StateOf(s, job);
      if now.Some? && now.value.CatalogReady? then
        Launch(Leave(SetState(s, job, Running(Sketching)), caller), worker, SketchWorker(job, now.value.catalog))
      else Leave(s, caller)
  }

  function Run(s: State, steps: seq<Step>): State {
    if steps == [] then s
    else
      var before := Run(s, steps[..|steps| - 1]);
      if Enabled(before, steps[|steps| - 1]) then Next(before, steps[|steps| - 1]) else before
  }

  // ---------------------------------------------------------------- the invariant

  /** The stage a job is in while this worker runs for it. */
  function StageOf(w: Worker): Stage {
    match w
    case CatalogWorker(_) => Opening
    case SketchWorker(_, _) => Sketching
    case AnalysisWorker(_) => Analysing
  }

  function CatalogOf(s: State, job: nat): Option<Catalog> {
    if job in s.catalogs then Some(s.catalogs[job]) else None
  }

  predicate Unbounded(catalog: Option<Catalog>) {
    catalog.Some? && !Bounded(catalog.value)
  }

  predicate HasWorker(s: State, job: nat) {
    exists w :: w in s.workers && s.workers[w].job == job
  }

  /** A settled job carries its catalog, and only an unbounded one is analysed. */
  predicate JobFits(state: JobState, catalog: Option<Catalog>, working: bool) {
    && (state.Running? ==> working)
    && (state.CatalogReady? || state.SketchReady? ==> catalog == Some(state.catalog))
    && (state.Ready? || state == Running(Analysing) ==> Unbounded(catalog))
  }

  /** A job still in the table shows the stage of its worker. */
  predicate WorkerFits(w: Worker, state: Option<JobState>, catalog: Option<Catalog>) {
    && (state.Some? ==> state.value == Running(StageOf(w)))
    && match w
       case CatalogWorker(_) => catalog.None?
       case SketchWorker(_, c) => catalog == Some(c)
       case AnalysisWorker(_) => Unbounded(catalog)
  }

  /** Nobody is about to take a job with a bounded catalog to analysis. */
  predicate CallerFits(c: Caller, state: Option<JobState>, catalog: Option<Catalog>) {
    match c
    case Checked(_) => true
    case Saw(_, saw, _) =>
      && (saw.CatalogReady? || saw.SketchReady? ==> catalog == Some(saw.catalog))
      && (saw.SketchReady? && Bounded(saw.catalog) && state.Some? ==> state.value.SketchReady?)
    case PromoteCheck(_) => state.Some? ==> Unbounded(catalog)
    case PromoteCommit(_) => state.Some? ==> Unbounded(catalog)
    case SketchPromote(_) => true
  }

  ghost predicate Jobs(s: State) {
    forall id :: id in s.jobs ==> id in s.used && JobFits(s.jobs[id].state, CatalogOf(s, id), HasWorker(s, id))
  }

  ghost predicate Workers(s: State) {
    && (forall w :: w in s.workers ==>
         && s.workers[w].job in s.used
         && WorkerFits(s.workers[w], StateOf(s, s.workers[w].job), CatalogOf(s, s.workers[w].job)))
    && (forall v, w :: v in s.workers && w in s.workers && s.workers[v].job == s.workers[w].job ==> v == w)
  }

  ghost predicate Callers(s: State) {
    forall c :: c in s.callers && !s.callers[c].Checked? ==>
      && s.callers[c].job in s.used
      && CallerFits(s.callers[c], StateOf(s, s.callers[c].job), CatalogOf(s, s.callers[c].job))
  }

  ghost predicate Invariant(s: State) {
    && Jobs(s) && Workers(s) && Callers(s)
    && forall id :: id in s.catalogs ==> id in s.used
  }

  // ---------------------------------------------------------------- every step keeps it

  lemma SameWorker(s: State, n: State, job: nat)
    requires forall w :: w in s.workers && s.workers[w].job == job ==> w in n.workers && n.workers[w].job == job
    requires forall w :: w in n.workers && n.workers[w].job == job ==> w in s.workers && s.workers[w].job == job
    ensures HasWorker(s, job) <==> HasWorker(n, job)
  {
  }

  /** Nothing more is asked about a job that is gone. */
  lemma GoneFits(state: Option<JobState>, catalog: Option<Catalog>)
    ensures forall w :: WorkerFits(w, state, catalog) ==> WorkerFits(w, None, catalog)
    ensures forall c :: CallerFits(c, state, catalog) ==> CallerFits(c, None, catalog)
  {
  }

  /** Removing jobs takes nothing else away. */
  lemma RemovalKeeps(s: State, gone: set<nat>)
    requires Invariant(s)
    ensures Invariant(s.(jobs := s.jobs - gone))
  {
    hide JobFits, WorkerFits, CallerFits, HasWorker;
    var n := s.(jobs := s.jobs - gone);
    forall id | id in n.jobs ensures HasWorker(n, id) == HasWorker(s, id) {
      SameWorker(s, n, id);
    }
    forall w | w in s.workers
      ensures WorkerFits(n.workers[w], StateOf(n, n.workers[w].job), CatalogOf(n, n.workers[w].job))
    {
      GoneFits(StateOf(s, s.workers[w].job), CatalogOf(s, s.workers[w].job));
    }
    forall c | c in s.callers && !s.callers[c].Checked?
      ensures CallerFits(n.callers[c], StateOf(n, n.callers[c].job), CatalogOf(n, n.callers[c].job))
    {
      GoneFits(StateOf(s, s.callers[c].job), CatalogOf(s, s.callers[c].job));
    }
  }

  /** A caller moving on its own changes nothing for jobs and workers. */
  lemma CallerKeeps(s: State, n: State, caller: nat)
    requires Invariant(s) && n == s.(callers := n.callers)
    requires forall c :: c in n.callers && c != caller ==> c in s.callers && n.callers[c] == s.callers[c]
    requires caller in n.callers && !n.callers[caller].Checked? ==>
      && n.callers[caller].job in s.used
      && CallerFits(n.callers[caller], StateOf(s, n.callers[caller].job), CatalogOf(s, n.callers[caller].job))
    ensures Invariant(n)
  {
    hide JobFits, WorkerFits, CallerFits, HasWorker;
    forall id | id in s.jobs ensures HasWorker(n, id) == HasWorker(s, id) {
      SameWorker(s, n, id);
    }
  }

  /** Between `s` and `n` only `job` changes; others may at most leave the table. */
  ghost predicate OnlyChanges(s: State, n: State, job: nat) {
    && job in n.used && s.used <= n.used
    && (forall id :: id in n.catalogs ==> id in n.used)
    && (forall id :: id in n.jobs && id != job ==> id in s.jobs && n.jobs[id].state == s.jobs[id].state)
    && (forall id :: id != job ==> CatalogOf(n, id) == CatalogOf(s, id))
    && (forall w :: w in s.workers && s.workers[w].job != job ==> w in n.workers && n.workers[w] == s.workers[w])
    && (forall w :: w in n.workers && n.workers[w].job != job ==> w in s.workers && n.workers[w] == s.workers[w])
    && (forall c :: c in n.callers ==> c in s.callers && n.callers[c] == s.callers[c])
  }

  /** Everything that concerns `job` is in order. */
  ghost predicate JobInOrder(n: State, job: nat) {
    && (forall v, w :: v in n.workers && w in n.workers && n.workers[v].job == job == n.workers[w].job ==> v == w)
    && (forall w :: w in n.workers && n.workers[w].job == job ==>
         WorkerFits(n.workers[w], StateOf(n, job), CatalogOf(n, job)))
    && (job in n.jobs ==> JobFits(n.jobs[job].state, CatalogOf(n, job), HasWorker(n, job)))
    && (forall c :: c in n.callers && !n.callers[c].Checked? && n.callers[c].job == job ==>
         CallerFits(n.callers[c], StateOf(n, job), CatalogOf(n, job)))
  }

  lemma JobChanges(s: State, n: State, job: nat)
    requires Invariant(s) && OnlyChanges(s, n, job) && JobInOrder(n, job)
    ensures Invariant(n)
  {
    hide JobFits, WorkerFits, CallerFits, HasWorker;
    assert Jobs(n) by {
      forall id | id in n.jobs && id != job ensures HasWorker(n, id) == HasWorker(s, id) {
        SameWorker(s, n, id);
      }
    }
    forall w | w in n.workers && n.workers[w].job != job
      ensures WorkerFits(n.workers[w], StateOf(n, n.workers[w].job), CatalogOf(n, n.workers[w].job))
    {
      GoneFits(StateOf(s, s.workers[w].job), CatalogOf(s, s.workers[w].job));
    }
    forall c | c in n.callers && !n.callers[c].Checked? && n.callers[c].job != job
      ensures CallerFits(n.callers[c], StateOf(n, n.callers[c].job), CatalogOf(n, n.callers[c].job))
    {
      GoneFits(StateOf(s, s.callers[c].job), CatalogOf(s, s.callers[c].job));
    }
  }

  lemma InsertKeeps(s: State, step: Step)
    requires Invariant(s) && step.StartInsert? && Enabled(s, step)
    ensures Invariant(Next(s, step))
  {
    hide Victim, Bounded, CallerFits;
    var n, job := Next(s, step), step.job;
    assert n.workers[step.worker] == CatalogWorker(job);
    assert HasWorker(n, job);
    InsertOnly(s, step);
    hide OnlyChanges, Jobs;
    JobChanges(s, n, job);
  }

  lemma InsertOnly(s: State, step: Step)
    requires Invariant(s) && step.StartInsert? && Enabled(s, step)
    ensures OnlyChanges(s, Next(s, step), step.job)
  {
    hide Victim, Bounded, CallerFits, JobFits, WorkerFits, HasWorker, Jobs, Callers;
  }

  /** While a job has no catalog nobody holds a copy of one or is about to promote it. */
  lemma CatalogArrives(c: Caller, before: Option<JobState>, after: Option<JobState>, catalog: Option<Catalog>)
    requires CallerFits(c, before, None) && (before.None? <==> after.None?)
    ensures CallerFits(c, after, catalog)
  {
  }

  /** A finished worker was the only one of its job, and nothing else moves. */
  lemma RetireOnly(s: State, n: State, worker: nat, state: JobState)
    requires Invariant(s) && worker in s.workers
    requires n == SetState(Retire(s, worker), s.workers[worker].job, state).(catalogs := n.catalogs)
    requires forall id :: id != s.workers[worker].job ==> CatalogOf(n, id) == CatalogOf(s, id)
    ensures OnlyChanges(s, n, s.workers[worker].job)
    ensures forall w :: w in n.workers ==> n.workers[w].job != s.workers[worker].job
  {
    hide JobFits, WorkerFits, CallerFits, HasWorker, Jobs, Callers;
    forall id | id in n.catalogs ensures id in n.used {
      assert id == s.workers[worker].job || CatalogOf(n, id) == CatalogOf(s, id);
    }
  }

  lemma CatalogDoneKeeps(s: State, step: Step)
    requires Invariant(s) && step.CatalogDone? && Enabled(s, step)
    ensures Invariant(Next(s, step))
  {
    hide Bounded, HasWorker, CallerFits, Jobs, OnlyChanges;
    var n, job := Next(s, step), s.workers[step.worker].job;
    RetireOnly(s, n, step.worker, if step.result.Some? then CatalogReady(step.result.value) else Failed);
    assert CatalogOf(s, job).None?;
    hide Workers, WorkerFits;
    forall c | c in n.callers && !n.callers[c].Checked? && n.callers[c].job == job
      ensures CallerFits(n.callers[c], StateOf(n, job), CatalogOf(n, job))
    {
      CatalogArrives(s.callers[c], StateOf(s, job), StateOf(n, job), CatalogOf(n, job));
    }
    JobChanges(s, n, job);
  }

  lemma SketchDoneKeeps(s: State, step: Step)
    requires Invariant(s) && step.SketchDone? && Enabled(s, step)
    ensures Invariant(Next(s, step))
  {
    hide Bounded, HasWorker, OnlyChanges;
    var n, job := Next(s, step), s.workers[step.worker].job;
    RetireOnly(s, n, step.worker, if step.ok then SketchReady(s.workers[step.worker].catalog) else Failed);
    JobChanges(s, n, job);
  }

  lemma AnalysisDoneKeeps(s: State, step: Step)
    requires Invariant(s) && step.AnalysisDone? && Enabled(s, step)
    ensures Invariant(Next(s, step))
  {
    hide HasWorker, OnlyChanges;
    var n, job := Next(s, step), s.workers[step.worker].job;
    RetireOnly(s, n, step.worker, if step.target.Some? then Ready(step.target.value) else Failed);
    JobChanges(s, n, job);
  }

  lemma LaunchOnly(s: State, n: State, caller: nat, worker: nat, job: nat, w: Worker)
    requires Invariant(s) && worker !in s.workers && job in s.jobs && w.job == job
    requires n == Launch(Leave(SetState(s, job, Running(StageOf(w))), caller), worker, w)
    ensures OnlyChanges(s, n, job)
  {
    hide JobFits, WorkerFits, HasWorker, Callers, CallerFits, Workers;
  }

  lemma SettledHasNoWorker(s: State, job: nat)
    requires Invariant(s) && job in s.jobs && !IsRunning(s.jobs[job])
    ensures !HasWorker(s, job)
    ensures JobFits(s.jobs[job].state, CatalogOf(s, job), false)
  {
    hide Bounded, CallerFits, Callers;
  }

  /** A promotion is one the job's catalog allows. */
  ghost predicate Promotes(state: JobState, catalog: Option<Catalog>, w: Worker) {
    && !state.Running? && !w.CatalogWorker?
    && (w.SketchWorker? ==> state == CatalogReady(w.catalog))
    && (w.AnalysisWorker? ==> Unbounded(catalog))
  }

  lemma LaunchFits(state: JobState, catalog: Option<Catalog>, w: Worker)
    requires JobFits(state, catalog, false) && Promotes(state, catalog, w)
    ensures WorkerFits(w, Some(Running(StageOf(w))), catalog) && JobFits(Running(StageOf(w)), catalog, true)
  {
  }

  lemma CallerStays(c: Caller, state: JobState, catalog: Option<Catalog>, w: Worker)
    requires CallerFits(c, Some(state), catalog) && JobFits(state, catalog, false) && Promotes(state, catalog, w)
    ensures CallerFits(c, Some(Running(StageOf(w))), catalog)
  {
  }

  /** A promotion takes a settled job, which has no worker, and gives it one. */
  lemma LaunchKeeps(s: State, n: State, caller: nat, worker: nat, job: nat, w: Worker)
    requires Invariant(s) && worker !in s.workers && job in s.jobs && !IsRunning(s.jobs[job]) && w.job == job
    requires n == Launch(Leave(SetState(s, job, Running(StageOf(w))), caller), worker, w)
    requires w.SketchWorker? ==> s.jobs[job].state == CatalogReady(w.catalog)
    requires w.AnalysisWorker? ==> Unbounded(CatalogOf(s, job))
    requires !w.CatalogWorker?
    ensures Invariant(n)
  {
    assert n.workers[worker] == w && HasWorker(n, job);
    LaunchOnly(s, n, caller, worker, job, w);
    SettledHasNoWorker(s, job);
    var state, catalog := s.jobs[job].state, CatalogOf(s, job);
    assert Callers(s) && JobFits(state, catalog, false);
    LaunchFits(state, catalog, w);
    hide Bounded, Invariant, OnlyChanges, IsRunning, Workers, Jobs, JobFits, WorkerFits, CallerFits, HasWorker;
    forall c | c in n.callers && !n.callers[c].Checked? && n.callers[c].job == job
      ensures CallerFits(n.callers[c], StateOf(n, job), CatalogOf(n, job))
    {
      CallerStays(s.callers[c], state, catalog, w);
    }
    JobChanges(s, n, job);
  }

  lemma PromoteKeeps(s: State, step: Step)
    requires Invariant(s) && (step.Commit? || step.Sketch?) && Enabled(s, step)
    ensures Invariant(Next(s, step))
  {
    hide JobFits, WorkerFits, HasWorker, Bounded, Workers;
    var job, now := s.callers[step.caller].job, StateOf(s, s.callers[step.caller].job);
    assert CallerFits(s.callers[step.caller], now, CatalogOf(s, job));
    var n := Next(s, step);
    if step.Commit? && now.Some? && (now.value.CatalogReady? || now.value.SketchReady?) {
      LaunchKeeps(s, n, step.caller, step.worker, job, AnalysisWorker(job));
    } else if step.Sketch? && now.Some? && now.value.CatalogReady? {
      LaunchKeeps(s, n, step.caller, step.worker, job, SketchWorker(job, now.value.catalog));
    } else {
      CallerKeeps(s, n, step.caller);
    }
  }

  lemma ProgressKeeps(s: State, step: Step)
    requires Invariant(s) && step.Progress? && Enabled(s, step)
    ensures Next(s, step) == s
  {
    hide JobFits, CallerFits, HasWorker, Bounded;
    var job := s.workers[step.worker].job;
    if job in s.jobs {
      assert s.jobs[job].(state := Running(Analysing)) == s.jobs[job];
    }
  }

  lemma PollKeeps(s: State, step: Step)
    requires Invariant(s) && (step.Poll? || step.StartCheck?) && Enabled(s, step)
    ensures Invariant(Next(s, step))
  {
    hide WorkerFits, HasWorker, Bounded, Workers;
    CallerKeeps(s, Next(s, step), step.caller);
  }

  lemma DecideKeeps(s: State, step: Step)
    requires Invariant(s) && (step.Decide? || step.Check?) && Enabled(s, step)
    ensures Invariant(Next(s, step))
  {
    hide WorkerFits, HasWorker, Bounded, Workers;
    var c := s.callers[step.caller];
    assert CallerFits(c, StateOf(s, c.job), CatalogOf(s, c.job));
    assert c.job in s.jobs ==> JobFits(s.jobs[c.job].state, CatalogOf(s, c.job), HasWorker(s, c.job));
    CallerKeeps(s, Next(s, step), step.caller);
  }

  lemma StepKeeps(s: State, step: Step)
    requires Invariant(s) && Enabled(s, step)
    ensures Invariant(Next(s, step))
  {
    match step
    case Prune(gone) => RemovalKeeps(s, gone);
    case Close(job) => RemovalKeeps(s, {job});
    case StartInsert(_, _, _, _) => InsertKeeps(s, step);
    case CatalogDone(_, _) => CatalogDoneKeeps(s, step);
    case SketchDone(_, _) => SketchDoneKeeps(s, step);
    case Progress(_) => ProgressKeeps(s, step);
    case AnalysisDone(_, _) => AnalysisDoneKeeps(s, step);
    case Poll(_, _, _) => PollKeeps(s, step);
    case StartCheck(_, _) => PollKeeps(s, step);
    case Decide(_) => DecideKeeps(s, step);
    case Check(_) => DecideKeeps(s, step);
    case Commit(_, _) => PromoteKeeps(s, step);
    case Sketch(_, _) => PromoteKeeps(s, step);
  }

  // ---------------------------------------------------------------- every interleaving

  lemma {:induction false} RunKeeps(steps: seq<Step>)
    ensures Invariant(Run(INITIAL, steps))
    decreases |steps|
  {
    hide Next, Enabled;
    if steps != [] {
      hide Invariant;
      RunKeeps(steps[..|steps| - 1]);
      if Enabled(Run(INITIAL, steps[..|steps| - 1]), steps[|steps| - 1]) {
        StepKeeps(Run(INITIAL, steps[..|steps| - 1]), steps[|steps| - 1]);
      }
    }
  }

  /** A job in the table is running exactly when one worker for it, of that stage, is in flight. */
  lemma RunningIffWorker(steps: seq<Step>, id: nat)
    requires id in Run(INITIAL, steps).jobs
    ensures var s := Run(INITIAL, steps);
      && (IsRunning(s.jobs[id]) <==> HasWorker(s, id))
      && (forall w :: w in s.workers && s.workers[w].job == id ==> s.jobs[id].state == Running(StageOf(s.workers[w])))
      && (forall v, w :: v in s.workers && w in s.workers && s.workers[v].job == id == s.workers[w].job ==> v == w)
  {
    RunKeeps(steps);
    hide Run, Callers;
  }

  /** A job whose catalog is bounded never becomes, and never is on its way to, a full project. */
  lemma BoundedNeverAnalysed(steps: seq<Step>, id: nat)
    requires var s := Run(INITIAL, steps); id in s.catalogs && Bounded(s.catalogs[id])
    ensures var s := Run(INITIAL, steps);
      && (id in s.jobs ==> !s.jobs[id].state.Ready? && s.jobs[id].state != Running(Analysing))
      && (forall w :: w in s.workers && s.workers[w].job == id ==> !s.workers[w].AnalysisWorker?)
  {
    RunKeeps(steps);
    hide Run, Callers, Bounded;
  }

  function Rank(state: JobState): nat {
    match state
    case Running(Opening) => 0
    case CatalogReady(_) => 1
    case Running(Sketching) => 2
    case SketchReady(_) => 3
    case Running(Analysing) => 4
    case Ready(_) => 5
    case Failed => 5
  }

  /** A step leaves a job as it is, moves it forward, or removes it; its catalog never changes. */
  lemma StepForward(s: State, step: Step, id: nat)
    requires Invariant(s) && Enabled(s, step)
    ensures var n := Next(s, step);
      && (id in s.jobs && id in n.jobs ==>
           n.jobs[id] == s.jobs[id] || Rank(n.jobs[id].state) > Rank(s.jobs[id].state))
      && (id in s.used ==> id in n.used && (id in n.jobs ==> id in s.jobs))
      && (id in s.catalogs ==> id in n.catalogs && n.catalogs[id] == s.catalogs[id])
  {
    hide JobFits, CallerFits, HasWorker, Bounded, Victim, Jobs, Callers;
    if id in s.jobs {
      UsedJobs(s, id);
    }
  }

  lemma UsedJobs(s: State, id: nat)
    requires Invariant(s) && (id in s.jobs || id in s.catalogs)
    ensures id in s.used
  {
    hide JobFits, HasWorker;
  }

  /** Along any run a job's stage never goes back, and a job that left the table never returns. */
  lemma {:induction false} RunForward(steps: seq<Step>, more: seq<Step>, id: nat)
    requires id in Run(INITIAL, steps).used
    ensures var s, n := Run(INITIAL, steps), Run(INITIAL, steps + more);
      && id in n.used
      && (id in n.jobs ==>
           && id in s.jobs
           && (n.jobs[id] == s.jobs[id] || Rank(n.jobs[id].state) > Rank(s.jobs[id].state)))
      && (id in s.catalogs ==> id in n.catalogs && n.catalogs[id] == s.catalogs[id])
    decreases |more|
  {
    hide Next, Enabled, Invariant, Rank;
    if more == [] {
      assert steps + more == steps;
    } else {
      var before := more[..|more| - 1];
      RunForward(steps, before, id);
      assert (steps + more)[..|steps + more| - 1] == steps + before;
      RunKeeps(steps + before);
      if Enabled(Run(INITIAL, steps + before), more[|more| - 1]) {
        StepForward(Run(INITIAL, steps + before), more[|more| - 1], id);
      }
    }
  }

  // ---------------------------------------------------------------- what the guards are worth

  /** Taken without interruption, the promotion's own check is enough. */
  lemma CheckSuffices(s: State, caller: nat, worker: nat, job: nat)
    requires At(s, caller, PromoteCheck(job)) && worker !in s.workers
    requires job in s.jobs && JobFits(s.jobs[job].state, CatalogOf(s, job), true)
    requires CatalogOf(s, job).Some? && Bounded(CatalogOf(s, job).value)
    ensures var n := Next(s, Check(caller));
      Enabled(n, Commit(caller, worker)) ==> StateOf(Next(n, Commit(caller, worker)), job) == StateOf(s, job)
  {
    hide Bounded;
  }

  /** A run that opens a target with this catalog and starts to sketch it. */
  function Sketches(path: string, catalog: Catalog): seq<Step> {
    [StartCheck(0, path), StartInsert(0, 0, 0, None), CatalogDone(0, Some(catalog)), Poll(0, 0, false), Decide(0),
     Sketch(0, 0)]
  }

  function BeingSketched(path: string, catalog: Catalog): State {
    State(map[0 := Job(path, 0, Running(Sketching))], map[0 := SketchWorker(0, catalog)], map[], {0},
      map[0 := catalog], 1)
  }

  /** The job once its catalog is there. */
  function Catalogued(path: string, catalog: Catalog, callers: map<nat, Caller>): State {
    State(map[0 := Job(path, 0, CatalogReady(catalog))], map[], callers, {0}, map[0 := catalog], 1)
  }

  lemma SketchesOpens(path: string, catalog: Catalog)
    ensures Run(INITIAL, Sketches(path, catalog)[..3]) == Catalogued(path, catalog, map[])
  {
    hide Bounded, Run;
    var steps := Sketches(path, catalog);
    RunStep(INITIAL, steps, 0);
    assert Run(INITIAL, steps[..1]) == INITIAL.(callers := map[0 := Checked(path)]);
    RunStep(INITIAL, steps, 1);
    assert Run(INITIAL, steps[..2]) ==
      State(map[0 := Job(path, 0, Running(Opening))], map[0 := CatalogWorker(0)], map[], {0}, map[], 1);
    RunStep(INITIAL, steps, 2);
  }

  lemma SketchesAsks(path: string, catalog: Catalog)
    ensures Run(INITIAL, Sketches(path, catalog)[..5]) == Catalogued(path, catalog, map[0 := SketchPromote(0)])
  {
    hide Bounded, Run;
    var steps := Sketches(path, catalog);
    SketchesOpens(path, catalog);
    RunStep(INITIAL, steps, 3);
    assert Run(INITIAL, steps[..4]) == Catalogued(path, catalog, map[0 := Saw(0, CatalogReady(catalog), false)]);
    RunStep(INITIAL, steps, 4);
  }

  lemma SketchesRun(path: string, catalog: Catalog)
    ensures Run(INITIAL, Sketches(path, catalog)) == BeingSketched(path, catalog)
  {
    hide Bounded, Run;
    var steps := Sketches(path, catalog);
    SketchesAsks(path, catalog);
    RunStep(INITIAL, steps, 5);
    assert steps[..6] == steps;
  }

  /**
   * Interrupted, it is not, and only what callers look at before they come to it makes up for that: let
   * one in at the promotion that did not look, in the middle of a run, and it checks while the sketch
   * is being built, finds nothing to check, and promotes a bounded job once the sketch is there.
   */
  lemma CheckAloneIsNotEnough(path: string, catalog: Catalog)
    requires Bounded(catalog)
    ensures
      var s := Go(Run(INITIAL, Sketches(path, catalog)), 1, PromoteCheck(0));
      && 0 in s.catalogs && Bounded(s.catalogs[0])
      && StateOf(Run(s, [Check(1), SketchDone(0, true), Commit(1, 1)]), 0) == Some(Running(Analysing))
  {
    hide Bounded, Run;
    SketchesRun(path, catalog);
    var s := Go(BeingSketched(path, catalog), 1, PromoteCheck(0));
    var steps := [Check(1), SketchDone(0, true), Commit(1, 1)];
    RunStep(s, steps, 0);
    assert Run(s, steps[..1]) == s.(callers := map[1 := PromoteCommit(0)]);
    RunStep(s, steps, 1);
    assert Run(s, steps[..2]).jobs == map[0 := Job(path, 0, SketchReady(catalog))];
    RunStep(s, steps, 2);
    assert steps[..3] == steps;
  }

  lemma RunStep(s: State, steps: seq<Step>, k: nat)
    requires k < |steps|
    ensures Run(s, steps[..k + 1]) ==
      if Enabled(Run(s, steps[..k]), steps[k]) then Next(Run(s, steps[..k]), steps[k]) else Run(s, steps[..k])
    ensures k == 0 ==> Run(s, steps[..k]) == s
  {
    hide Enabled, Next;
    assert steps[..k + 1][..k] == steps[..k];
  }

  // ---------------------------------------------------------------- the table

  predicate PathsDistinct(jobs: map<nat, Job>) {
    forall a, b :: a in jobs && b in jobs && Live(jobs[a]) && Live(jobs[b]) && jobs[a].path == jobs[b].path ==> a == b
  }

  predicate PathLive(jobs: map<nat, Job>, path: string) {
    exists id :: id in jobs && Live(jobs[id]) && jobs[id].path == path
  }

  /** Inserting keeps live paths distinct exactly when no live job that stays has the path. */
  lemma InsertKeepsPathsIff(s: State, job: nat, path: string, victim: Option<nat>)
    requires PathsDistinct(s.jobs) && job !in s.jobs
    ensures var kept := if victim.Some? then s.jobs - {victim.value} else s.jobs;
      PathsDistinct(Inserted(s, job, path, victim).jobs) <==> !PathLive(kept, path)
  {
    var kept := if victim.Some? then s.jobs - {victim.value} else s.jobs;
    var jobs := Inserted(s, job, path, victim).jobs;
    assert job in jobs && Live(jobs[job]) && jobs[job].path == path;
    assert forall id :: id in jobs && id != job ==> id in kept && jobs[id] == s.jobs[id];
    if PathLive(kept, path) {
      var id :| id in kept && Live(kept[id]) && kept[id].path == path;
      assert id in jobs && jobs[id] == kept[id];
    }
  }

  /** Every other step keeps live paths distinct: jobs only leave, and a failed one stays failed. */
  lemma OthersKeepPaths(s: State, step: Step)
    requires Invariant(s) && Enabled(s, step) && !step.StartInsert? && PathsDistinct(s.jobs)
    ensures PathsDistinct(Next(s, step).jobs)
  {
    hide JobFits, CallerFits, HasWorker, Bounded, Victim, Workers, Callers;
    var n := Next(s, step);
    forall id | id in n.jobs
      ensures id in s.jobs && n.jobs[id].path == s.jobs[id].path && (Live(n.jobs[id]) ==> Live(s.jobs[id]))
    {
      LiveBefore(s, step, id);
    }
  }

  lemma LiveBefore(s: State, step: Step, id: nat)
    requires Invariant(s) && Enabled(s, step) && !step.StartInsert? && id in Next(s, step).jobs
    ensures id in s.jobs && Next(s, step).jobs[id].path == s.jobs[id].path
    ensures Live(Next(s, step).jobs[id]) ==> Live(s.jobs[id])
  {
    hide JobFits, CallerFits, HasWorker, Bounded, Victim, Jobs, Callers;
    if id in s.jobs {
      UsedJobs(s, id);
    }
  }

  /** Two callers that both check before either inserts open the same path twice. */
  lemma StartsRace(path: string)
    ensures var s := Run(INITIAL, [StartCheck(0, path), StartCheck(1, path), StartInsert(0, 0, 0, None),
                                   StartInsert(1, 1, 1, None)]);
      !PathsDistinct(s.jobs)
  {
    hide Run;
    var steps := [StartCheck(0, path), StartCheck(1, path), StartInsert(0, 0, 0, None), StartInsert(1, 1, 1, None)];
    RunStep(INITIAL, steps, 0);
    assert Run(INITIAL, steps[..1]) == INITIAL.(callers := map[0 := Checked(path)]);
    RunStep(INITIAL, steps, 1);
    assert Run(INITIAL, steps[..2]) == INITIAL.(callers := map[0 := Checked(path), 1 := Checked(path)]);
    RunStep(INITIAL, steps, 2);
    var b := Run(INITIAL, steps[..3]);
    assert b.jobs == map[0 := Job(path, 0, Running(Opening))];
    RunStep(INITIAL, steps, 3);
    assert steps[..4] == steps;
    var s := Run(INITIAL, steps);
    assert 0 in s.jobs && 1 in s.jobs && s.jobs[0].path == path == s.jobs[1].path;
  }

  /** The table grows past its cap only while every job in it is running. */
  lemma GrowsPastCapIff(s: State, step: Step)
    requires step.StartInsert? && Enabled(s, step) && step.job !in s.jobs && |s.jobs| >= MAX_OPEN_JOBS
    ensures |Next(s, step).jobs| == |s.jobs| + 1 <==> forall id :: id in s.jobs ==> IsRunning(s.jobs[id])
    ensures |Next(s, step).jobs| <= |s.jobs| + 1
  {
    var kept := if step.victim.Some? then s.jobs - {step.victim.value} else s.jobs;
    var n := Next(s, step);
    assert n.jobs == kept[step.job := n.jobs[step.job]];
    MapGrows(kept, step.job, n.jobs[step.job]);
    if step.victim.Some? {
      MapShrinks(s.jobs, step.victim.value);
    }
  }

  /** At the cap, if any job is settled, one left that no settled job is older than; the rest are as they were. */
  ghost predicate Oldest(jobs: map<nat, Job>, after: map<nat, Job>) {
    && (forall id :: id in jobs && id !in after ==>
         && !IsRunning(jobs[id])
         && forall other :: other in jobs && !IsRunning(jobs[other]) ==> jobs[id].started <= jobs[other].started)
    && (forall id :: id in jobs && id in after ==> after[id] == jobs[id])
    && |jobs.Keys - after.Keys| ==
         if |jobs| >= MAX_OPEN_JOBS && exists id :: id in jobs && !IsRunning(jobs[id]) then 1 else 0
  }

  /** There is always a victim, or there need not be one: a start never has to wait for room. */
  lemma {:induction false} VictimExists(jobs: map<nat, Job>) returns (victim: Option<nat>)
    ensures Victim(jobs, victim)
  {
    var settled := set id | id in jobs && !IsRunning(jobs[id]);
    if |jobs| >= MAX_OPEN_JOBS && settled != {} {
      var id := OldestOf(jobs, settled);
      victim := Some(id);
    } else {
      victim := None;
      assert forall id :: id in jobs && !IsRunning(jobs[id]) ==> id in settled;
    }
  }

  lemma {:induction false} OldestOf(jobs: map<nat, Job>, ids: set<nat>) returns (id: nat)
    requires ids != {} && ids <= jobs.Keys
    ensures id in ids && forall other :: other in ids ==> jobs[id].started <= jobs[other].started
    decreases |ids|
  {
    var first :| first in ids;
    var rest := ids - {first};
    assert forall other :: other in ids ==> other == first || other in rest;
    if rest == {} {
      id := first;
    } else {
      var older := OldestOf(jobs, rest);
      id := if jobs[older].started < jobs[first].started then older else first;
    }
  }

  /** On any run a start gives up the oldest settled job of a full table, and no other job. */
  lemma OldestGivenUp(steps: seq<Step>, step: Step)
    requires step.StartInsert? && Enabled(Run(INITIAL, steps), step)
    ensures Oldest(Run(INITIAL, steps).jobs, Next(Run(INITIAL, steps), step).jobs)
  {
    var s := Run(INITIAL, steps);
    RunKeeps(steps);
    if step.job in s.jobs {
      UsedJobs(s, step.job);
      assert false by { hide Run, Invariant; }
    }
    hide Run, Invariant, Oldest, Victim;
    OldestRemoved(s.jobs, step.victim, step.job, Next(s, step).jobs[step.job]);
  }

  /** Giving up a victim and inserting another job. */
  lemma OldestRemoved(jobs: map<nat, Job>, victim: Option<nat>, id: nat, job: Job)
    requires Victim(jobs, victim) && id !in jobs
    ensures Oldest(jobs, (if victim.Some? then jobs - {victim.value} else jobs)[id := job])
  {
    hide IsRunning;
    var after := (if victim.Some? then jobs - {victim.value} else jobs)[id := job];
    if victim.Some? {
      assert jobs.Keys - after.Keys == {victim.value};
    } else {
      assert jobs.Keys - after.Keys == {};
    }
  }

  /** `n` jobs started one after another by one caller, none of which has got anywhere. */
  function Starts(n: nat): seq<Step> {
    if n == 0 then []
    else Starts(n - 1) + [StartCheck(0, Name(n - 1)), StartInsert(0, n - 1, n - 1, None)]
  }

  /** A path of its own for every number. */
  function Name(n: nat): string { seq(n, _ => 'a') }

  /** `n` jobs are in the table, the first ones, all running, and nothing else is going on. */
  ghost predicate Started(s: State, n: nat) {
    && s.callers == map[] && |s.jobs| == n
    && (forall id :: id in s.used || id in s.workers ==> id < n)
    && forall id :: id in s.jobs ==> id < n && s.jobs[id].path == Name(id) && s.jobs[id].state == Running(Opening)
  }

  /** Nobody has opened the next path yet, so it is checked and inserted. */
  lemma OneMoreStarts(s: State, n: nat)
    requires Started(s, n)
    ensures var checked := s.(callers := map[0 := Checked(Name(n))]);
      && Enabled(s, StartCheck(0, Name(n))) && Next(s, StartCheck(0, Name(n))) == checked
      && Enabled(checked, StartInsert(0, n, n, None))
      && Started(Next(checked, StartInsert(0, n, n, None)), n + 1)
  {
    var path := Name(n);
    var checked, insert := s.(callers := map[0 := Checked(path)]), StartInsert(0, n, n, None);
    assert |Name(n)| == n && forall id :: id in s.jobs ==> |s.jobs[id].path| == id;
    assert Victim(checked.jobs, None);
    assert Enabled(checked, insert) && Next(s, StartCheck(0, path)) == checked by { hide Started, Name; }
    var next := Leave(Launch(Inserted(checked, n, path, None), n, CatalogWorker(n)), 0);
    assert Next(checked, insert) == next by { hide Started, Name; }
    hide Next, Enabled, Victim, Name, Inserted, Launch, Leave;
    InsertedOnly(s, n, path);
    InsertedStarts(s, n, CatalogWorker(n));
  }

  /** What the insertion leaves once its caller is gone. */
  lemma InsertedOnly(s: State, n: nat, path: string)
    requires s.callers == map[]
    ensures
      Leave(Launch(Inserted(s.(callers := map[0 := Checked(path)]), n, path, None), n, CatalogWorker(n)), 0) ==
        s.(jobs := s.jobs[n := Job(path, s.clock, Running(Opening))], workers := s.workers[n := CatalogWorker(n)],
           used := s.used + {n}, clock := s.clock + 1)
  {
  }

  lemma InsertedStarts(s: State, n: nat, w: Worker)
    requires Started(s, n)
    ensures Started(s.(jobs := s.jobs[n := Job(Name(n), s.clock, Running(Opening))], workers := s.workers[n := w],
                       used := s.used + {n}, clock := s.clock + 1), n + 1)
  {
    hide Name;
    MapGrows(s.jobs, n, Job(Name(n), s.clock, Running(Opening)));
  }

  lemma {:induction false} StartsRun(n: nat)
    ensures Started(Run(INITIAL, Starts(n)), n)
  {
    hide Next, Enabled, Started;
    if n == 0 {
      assert Started(INITIAL, 0) by { NothingStarted(); }
    } else {
      StartsRun(n - 1);
      OneMoreStarts(Run(INITIAL, Starts(n - 1)), n - 1);
      var check, insert := StartCheck(0, Name(n - 1)), StartInsert(0, n - 1, n - 1, None);
      assert (Starts(n - 1) + [check, insert])[..|Starts(n - 1)| + 1] == Starts(n - 1) + [check];
      assert (Starts(n - 1) + [check])[..|Starts(n - 1)|] == Starts(n - 1);
    }
  }

  lemma NothingStarted()
    ensures Started(INITIAL, 0)
  {
  }

  /** 257 targets opened before the first catalog is there are all in the table. */
  lemma TableOutgrowsCap()
    ensures |Run(INITIAL, Starts(MAX_OPEN_JOBS + 1)).jobs| == MAX_OPEN_JOBS + 1
  {
    hide Run;
    StartsRun(MAX_OPEN_JOBS + 1);
  }

  lemma MapGrows<V>(m: map<nat, V>, k: nat, v: V)
    requires k !in m
    ensures |m[k := v]| == |m| + 1
  {
    assert m[k := v].Keys == m.Keys + {k};
    assert |m[k := v]| == |m[k := v].Keys|;
  }

  lemma MapShrinks<V>(m: map<nat, V>, k: nat)
    requires k in m
    ensures |m - {k}| == |m| - 1
  {
    assert (m - {k}).Keys == m.Keys - {k};
    assert |m - {k}| == |(m - {k}).Keys|;
  }
}
