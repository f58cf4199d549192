/** What becomes of a target-open job: exactly what its workers reported. */
module JobReports {
  import opened OpenJobs
  import opened Prelude

  /** What a background task of a job came back with. */
  datatype Report = Catalogued(catalog: Option<Catalog>) | Sketched(ok: bool) | Analysed(target: Option<nat>)

  /** The job whose worker this step ends, and what it reports. */
  function Reported(s: State, step: Step): Option<(nat, Report)> {
    if !Enabled(s, step) then None
    else
      match step
      case CatalogDone(worker, result) => Some((s.workers[worker].job, Catalogued(result)))
      case SketchDone(worker, ok) => Some((s.workers[worker].job, Sketched(ok)))
      case AnalysisDone(worker, target) => Some((s.workers[worker].job, Analysed(target)))
      case _ => None
  }

  function ReportOf(s: State, step: Step, id: nat): seq<Report> {
    var r := Reported(s, step);
    if r.Some? && r.value.0 == id then [r.value.1] else []
  }

  /** Everything a job's workers reported along a run, in order. */
  function Reports(steps: seq<Step>, id: nat): seq<Report> {
    if steps == [] then []
    else
      var before := steps[..|steps| - 1];
      Reports(before, id) + ReportOf(Run(INITIAL, before), steps[|steps| - 1], id)
  }

  /** Reports of a job that nothing has gone wrong with yet: its catalog, and its sketch if it was built. */
  predicate Good(reports: seq<Report>) {
    && |reports| <= 2
    && (|reports| > 0 ==> reports[0].Catalogued? && reports[0].catalog.Some?)
    && (|reports| > 1 ==> reports[1] == Sketched(true))
  }

  predicate Fails(r: Report) { r == Catalogued(None) || r == Sketched(false) || r == Analysed(None) }

  /** The state of a job and what its workers reported. */
  predicate Shows(state: JobState, reports: seq<Report>) {
    match state
    case Running(Opening) => reports == []
    case CatalogReady(c) => reports == [Catalogued(Some(c))]
    case Running(Sketching) => |reports| == 1 && Good(reports)
    case SketchReady(c) => reports == [Catalogued(Some(c)), Sketched(true)]
    case Running(Analysing) => reports != [] && Good(reports)
    case Ready(t) => |reports| > 1 && Good(reports[..|reports| - 1]) && reports[|reports| - 1] == Analysed(Some(t))
    case Failed => reports != [] && Good(reports[..|reports| - 1]) && Fails(reports[|reports| - 1])
  }

  /** What a run keeps for one identifier. */
  ghost predicate Tracks(s: State, id: nat, reports: seq<Report>) {
    && (id !in s.used ==> reports == [])
    && (id in s.jobs ==> Shows(s.jobs[id].state, reports))
    && (id in s.jobs && reports != [] && reports[0].Catalogued? && reports[0].catalog.Some? ==>
         CatalogOf(s, id) == reports[0].catalog)
  }

  /** A worker in flight for a job in the table is what the job waits for. */
  lemma WorkerShows(s: State, worker: nat)
    requires Invariant(s) && worker in s.workers
    ensures var w := s.workers[worker];
      && w.job in s.used
      && (w.job in s.jobs ==> s.jobs[w.job].state == Running(StageOf(w)))
      && (w.SketchWorker? ==> CatalogOf(s, w.job) == Some(w.catalog))
  {
    hide Jobs, Callers, Unbounded;
    assert WorkerFits(s.workers[worker], StateOf(s, s.workers[worker].job), CatalogOf(s, s.workers[worker].job));
  }

  lemma DoneTracks(s: State, step: Step, id: nat, reports: seq<Report>)
    requires Invariant(s) && Enabled(s, step) && (step.CatalogDone? || step.SketchDone? || step.AnalysisDone?)
    requires Tracks(s, id, reports)
    ensures Tracks(Next(s, step), id, reports + ReportOf(s, step, id))
  {
    WorkerShows(s, step.worker);
    hide Invariant;
    assert reports + [] == reports;
  }

  /** A promotion starts the next worker of a job that waits with its catalog, and reports nothing. */
  lemma PromotionTracks(s: State, step: Step, id: nat, reports: seq<Report>)
    requires Enabled(s, step) && (step.Commit? || step.Sketch?) && Tracks(s, id, reports)
    ensures Tracks(Next(s, step), id, reports)
  {
    hide Bounded;
  }

  /** A new job has reported nothing. */
  lemma InsertTracks(s: State, step: Step, id: nat, reports: seq<Report>)
    requires Enabled(s, step) && step.StartInsert? && Tracks(s, id, reports)
    ensures Tracks(Next(s, step), id, reports)
  {
    hide Bounded, Victim, Shows;
    assert Shows(Running(Opening), []) by { OpeningShows(); }
    assert id == step.job ==> id !in s.catalogs || reports == [];
  }

  lemma OpeningShows()
    ensures Shows(Running(Opening), [])
  {
  }

  /** Every other step leaves the jobs that stay as they are. */
  lemma RestTracks(s: State, step: Step, id: nat, reports: seq<Report>)
    requires Enabled(s, step) && Tracks(s, id, reports)
    requires step.Prune? || step.Close? || step.StartCheck? || step.Poll? || step.Decide? || step.Check?
    ensures Tracks(Next(s, step), id, reports)
  {
    hide Bounded, Shows;
  }

  lemma OthersTrack(s: State, step: Step, id: nat, reports: seq<Report>)
    requires Invariant(s) && Enabled(s, step) && !step.CatalogDone? && !step.SketchDone? && !step.AnalysisDone?
    requires Tracks(s, id, reports)
    ensures Tracks(Next(s, step), id, reports + ReportOf(s, step, id))
  {
    assert reports + ReportOf(s, step, id) == reports;
    hide Next, Enabled, Tracks, Invariant;
    match step
    case Progress(_) => ProgressKeeps(s, step);
    case Commit(_, _) => PromotionTracks(s, step, id, reports);
    case Sketch(_, _) => PromotionTracks(s, step, id, reports);
    case StartInsert(_, _, _, _) => InsertTracks(s, step, id, reports);
    case _ => RestTracks(s, step, id, reports);
  }

  /** Along any run every job in the table shows what its workers reported. */
  lemma {:induction false} RunTracks(steps: seq<Step>, id: nat)
    ensures Tracks(Run(INITIAL, steps), id, Reports(steps, id))
    decreases |steps|
  {
    hide Next, Enabled, ReportOf, Shows;
    if steps != [] {
      hide Tracks;
      var before, step := steps[..|steps| - 1], steps[|steps| - 1];
      RunTracks(before, id);
      RunKeeps(before);
      var s := Run(INITIAL, before);
      if Enabled(s, step) {
        if step.CatalogDone? || step.SketchDone? || step.AnalysisDone? {
          DoneTracks(s, step, id, Reports(before, id));
        } else {
          OthersTrack(s, step, id, Reports(before, id));
        }
      } else {
        assert ReportOf(s, step, id) == [] by { NothingReported(s, step, id); }
        assert Reports(before, id) + [] == Reports(before, id);
      }
    }
  }

  lemma NothingReported(s: State, step: Step, id: nat)
    requires !Enabled(s, step)
    ensures ReportOf(s, step, id) == []
  {
  }

  /**
   * Along any run a job in the table is ready with a target exactly when its analysis came back with that
   * target, has failed exactly when one of its workers reported so, and waits with a catalog only once its
   * catalog, or its catalog and its sketch, are all that was reported.
   */
  lemma SettledIff(steps: seq<Step>, id: nat)
    requires id in Run(INITIAL, steps).jobs
    ensures
      var state, reports := Run(INITIAL, steps).jobs[id].state, Reports(steps, id);
      && (forall t :: state == Ready(t) <==> Analysed(Some(t)) in reports)
      && (state.Failed? <==> exists r :: r in reports && Fails(r))
      && (forall c :: state == CatalogReady(c) ==> reports == [Catalogued(Some(c))])
      && (forall c :: state == SketchReady(c) ==> reports == [Catalogued(Some(c)), Sketched(true)])
      && (state.Running? ==> Good(reports))
  {
    RunTracks(steps, id);
    var state, reports := Run(INITIAL, steps).jobs[id].state, Reports(steps, id);
    assert Shows(state, reports);
    hide Run, Reports, Shows, Good, Fails;
    forall t ensures state == Ready(t) <==> Analysed(Some(t)) in reports {
      ReadyIff(state, reports, t);
    }
    FailedIff(state, reports);
    SettledMeans(state, reports);
  }

  lemma SettledMeans(state: JobState, reports: seq<Report>)
    requires Shows(state, reports)
    ensures state.CatalogReady? ==> reports == [Catalogued(Some(state.catalog))]
    ensures state.SketchReady? ==> reports == [Catalogued(Some(state.catalog)), Sketched(true)]
    ensures state.Running? ==> Good(reports)
  {
  }

  /** Nothing good reported is a failure or an analysis. */
  lemma GoodMeans(reports: seq<Report>, r: Report)
    requires Good(reports) && r in reports
    ensures !Fails(r) && !r.Analysed?
  {
    assert r == reports[0] || (|reports| > 1 && r == reports[1]);
  }

  lemma FrontAndLast(reports: seq<Report>, r: Report)
    requires reports != []
    ensures r in reports <==> r in reports[..|reports| - 1] || r == reports[|reports| - 1]
  {
    assert reports == reports[..|reports| - 1] + [reports[|reports| - 1]];
  }

  lemma ReadyIff(state: JobState, reports: seq<Report>, t: nat)
    requires Shows(state, reports)
    ensures state == Ready(t) <==> Analysed(Some(t)) in reports
  {
    var r := Analysed(Some(t));
    if r in reports {
      FrontAndLast(reports, r);
      if Good(reports) {
        GoodMeans(reports, r);
      } else if r in reports[..|reports| - 1] {
        GoodMeans(reports[..|reports| - 1], r);
      }
    }
  }

  lemma FailedIff(state: JobState, reports: seq<Report>)
    requires Shows(state, reports)
    ensures state.Failed? <==> exists r :: r in reports && Fails(r)
  {
    if state.Failed? {
      assert reports[|reports| - 1] in reports;
    } else if r :| r in reports && Fails(r) {
      FrontAndLast(reports, r);
      if Good(reports) {
        GoodMeans(reports, r);
      } else if r in reports[..|reports| - 1] {
        GoodMeans(reports[..|reports| - 1], r);
      }
    }
  }

  // ---------------------------------------------------------------- requests taken to their end

  lemma RunTwo(s: State, a: Step, b: Step)
    requires Enabled(s, a) && Enabled(Next(s, a), b)
    ensures Run(s, [a, b]) == Next(Next(s, a), b)
  {
    hide Enabled, Next;
    assert [a, b][..1] == [a] && [a][..0] == [];
    assert Run(s, []) == s && Run(s, [a]) == Next(s, a);
  }

  lemma RunMore(s: State, steps: seq<Step>, step: Step)
    ensures Run(s, steps + [step]) ==
      if Enabled(Run(s, steps), step) then Next(Run(s, steps), step) else Run(s, steps)
  {
    hide Enabled, Next;
    assert (steps + [step])[..|steps|] == steps;
  }

  /**
   * A caller that asks for the full project of a settled, unbounded job, and is not interrupted, gets it
   * analysed: the job is then what the analysis returns.
   */
  lemma FullRequestAnalyses(s: State, caller: nat, job: nat, worker: nat, target: Option<nat>)
    requires job in s.jobs && (s.jobs[job].state.CatalogReady? || s.jobs[job].state.SketchReady?)
    requires !Bounded(s.jobs[job].state.catalog) && caller !in s.callers && worker !in s.workers
    ensures
      var asked := Run(s, [Poll(caller, job, true), Decide(caller)] + [Check(caller)] + [Commit(caller, worker)]);
      && job in asked.jobs && asked.jobs[job].state == Running(Analysing)
      && asked.workers == s.workers[worker := AnalysisWorker(job)]
    ensures
      var done := Run(s, [Poll(caller, job, true), Decide(caller)] + [Check(caller)] + [Commit(caller, worker)]
                         + [AnalysisDone(worker, target)]);
      && job in done.jobs
      && done.jobs[job].state == (if target.Some? then Ready(target.value) else Failed)
      && done.workers == s.workers
  {
    hide Run;
    var steps := [Poll(caller, job, true), Decide(caller)];
    FullRequestAsks(s, caller, job);
    var asking := Go(s, caller, PromoteCheck(job));
    RunMore(s, steps, Check(caller));
    RunMore(s, steps + [Check(caller)], Commit(caller, worker));
    RunMore(s, steps + [Check(caller)] + [Commit(caller, worker)], AnalysisDone(worker, target));
    CheckPasses(asking, caller, job);
    assert Go(asking, caller, PromoteCommit(job)) == Go(s, caller, PromoteCommit(job));
    CommitAnalyses(s, caller, job, worker, target);
  }

  lemma FullRequestAsks(s: State, caller: nat, job: nat)
    requires job in s.jobs && (s.jobs[job].state.CatalogReady? || s.jobs[job].state.SketchReady?)
    requires !Bounded(s.jobs[job].state.catalog) && caller !in s.callers
    ensures Run(s, [Poll(caller, job, true), Decide(caller)]) == Go(s, caller, PromoteCheck(job))
  {
    hide Bounded, Run;
    RunTwo(s, Poll(caller, job, true), Decide(caller));
  }

  lemma CheckPasses(s: State, caller: nat, job: nat)
    requires At(s, caller, PromoteCheck(job)) && job in s.jobs
    requires s.jobs[job].state.CatalogReady? || s.jobs[job].state.SketchReady?
    requires !Bounded(s.jobs[job].state.catalog)
    ensures Enabled(s, Check(caller)) && Next(s, Check(caller)) == Go(s, caller, PromoteCommit(job))
  {
    hide Bounded;
  }

  lemma CommitAnalyses(s: State, caller: nat, job: nat, worker: nat, target: Option<nat>)
    requires job in s.jobs && (s.jobs[job].state.CatalogReady? || s.jobs[job].state.SketchReady?)
    requires worker !in s.workers
    ensures var checked := Go(s, caller, PromoteCommit(job));
      && Enabled(checked, Commit(caller, worker))
      && var asked := Next(checked, Commit(caller, worker));
         && job in asked.jobs && asked.jobs[job].state == Running(Analysing)
         && asked.workers == s.workers[worker := AnalysisWorker(job)]
         && Enabled(asked, AnalysisDone(worker, target))
         && var done := Next(asked, AnalysisDone(worker, target));
            && job in done.jobs
            && done.jobs[job].state == (if target.Some? then Ready(target.value) else Failed)
            && done.workers == s.workers
  {
    assert s.workers[worker := AnalysisWorker(job)] - {worker} == s.workers;
  }

  /** Any other request for a job with its catalog has it sketched. */
  lemma RequestSketches(s: State, caller: nat, job: nat, worker: nat, wantsFull: bool, ok: bool)
    requires job in s.jobs && s.jobs[job].state.CatalogReady? && (!wantsFull || Bounded(s.jobs[job].state.catalog))
    requires caller !in s.callers && worker !in s.workers
    ensures
      var asked := Run(s, [Poll(caller, job, wantsFull), Decide(caller)] + [Sketch(caller, worker)]);
      && job in asked.jobs && asked.jobs[job].state == Running(Sketching)
      && asked.workers == s.workers[worker := SketchWorker(job, s.jobs[job].state.catalog)]
    ensures
      var done := Run(s, [Poll(caller, job, wantsFull), Decide(caller)] + [Sketch(caller, worker)] + [SketchDone(worker, ok)]);
      && job in done.jobs
      && done.jobs[job].state == (if ok then SketchReady(s.jobs[job].state.catalog) else Failed)
      && done.workers == s.workers
  {
    hide Run;
    var steps := [Poll(caller, job, wantsFull), Decide(caller)];
    RequestAsks(s, caller, job, wantsFull);
    RunMore(s, steps, Sketch(caller, worker));
    RunMore(s, steps + [Sketch(caller, worker)], SketchDone(worker, ok));
    SketchSketches(s, caller, job, worker, ok);
  }

  lemma RequestAsks(s: State, caller: nat, job: nat, wantsFull: bool)
    requires job in s.jobs && s.jobs[job].state.CatalogReady? && (!wantsFull || Bounded(s.jobs[job].state.catalog))
    requires caller !in s.callers
    ensures Run(s, [Poll(caller, job, wantsFull), Decide(caller)]) == Go(s, caller, SketchPromote(job))
  {
    hide Bounded, Run;
    RunTwo(s, Poll(caller, job, wantsFull), Decide(caller));
  }

  lemma SketchSketches(s: State, caller: nat, job: nat, worker: nat, ok: bool)
    requires job in s.jobs && s.jobs[job].state.CatalogReady? && worker !in s.workers
    ensures var asking, catalog := Go(s, caller, SketchPromote(job)), s.jobs[job].state.catalog;
      && Enabled(asking, Sketch(caller, worker))
      && var asked := Next(asking, Sketch(caller, worker));
         && job in asked.jobs && asked.jobs[job].state == Running(Sketching)
         && asked.workers == s.workers[worker := SketchWorker(job, catalog)]
         && Enabled(asked, SketchDone(worker, ok))
         && var done := Next(asked, SketchDone(worker, ok));
            && job in done.jobs
            && done.jobs[job].state == (if ok then SketchReady(catalog) else Failed)
            && done.workers == s.workers
  {
    assert s.workers[worker := SketchWorker(job, s.jobs[job].state.catalog)] - {worker} == s.workers;
  }

  /** Where there is nothing more to do for it a request changes nothing. */
  lemma RequestAnswered(s: State, caller: nat, job: nat, wantsFull: bool)
    requires job in s.jobs && caller !in s.callers
    requires !s.jobs[job].state.CatalogReady?
    requires s.jobs[job].state.SketchReady? ==> !wantsFull || Bounded(s.jobs[job].state.catalog)
    ensures Run(s, [Poll(caller, job, wantsFull), Decide(caller)]) == s
  {
    hide Bounded, Run;
    RunTwo(s, Poll(caller, job, wantsFull), Decide(caller));
    assert s.callers[caller := Saw(job, s.jobs[job].state, wantsFull)] - {caller} == s.callers;
  }

  /** A path nobody has open is opened as a job of its own, which gets the catalog its worker finds. */
  lemma StartCatalogs(s: State, caller: nat, path: string, job: nat, worker: nat, result: Option<Catalog>)
    returns (victim: Option<nat>)
    requires !PathLive(s.jobs, path) && caller !in s.callers && job !in s.used && worker !in s.workers
    ensures
      var done := Run(s, [StartCheck(caller, path), StartInsert(caller, job, worker, victim)] + [CatalogDone(worker, result)]);
      && job in done.jobs && done.jobs[job].path == path
      && done.jobs[job].state == (if result.Some? then CatalogReady(result.value) else Failed)
      && done.workers == s.workers
  {
    hide Run;
    victim := VictimExists(s.jobs);
    var steps := [StartCheck(caller, path), StartInsert(caller, job, worker, victim)];
    Checks(s, caller, path);
    var checked := Go(s, caller, Checked(path));
    RunTwo(s, steps[0], steps[1]);
    RunMore(s, steps, CatalogDone(worker, result));
    Catalogues(checked, caller, path, job, worker, victim, result);
    assert s.callers[caller := Checked(path)] - {caller} == s.callers;
  }

  lemma Checks(s: State, caller: nat, path: string)
    requires !PathLive(s.jobs, path) && caller !in s.callers
    ensures Enabled(s, StartCheck(caller, path)) && Next(s, StartCheck(caller, path)) == Go(s, caller, Checked(path))
  {
  }

  lemma Catalogues(
    s: State, caller: nat, path: string, job: nat, worker: nat, victim: Option<nat>, result: Option<Catalog>)
    requires At(s, caller, Checked(path)) && job !in s.used && worker !in s.workers && Victim(s.jobs, victim)
    ensures Enabled(s, StartInsert(caller, job, worker, victim))
    ensures
      var started := Next(s, StartInsert(caller, job, worker, victim));
      && Enabled(started, CatalogDone(worker, result))
      && var done := Next(started, CatalogDone(worker, result));
         && job in done.jobs && done.jobs[job].path == path
         && done.jobs[job].state == (if result.Some? then CatalogReady(result.value) else Failed)
         && done.workers == s.workers
  {
    hide Victim;
    assert s.workers[worker := CatalogWorker(job)] - {worker} == s.workers;
  }

  /** A path that is open already is not opened again. */
  lemma StartFinds(s: State, caller: nat, path: string)
    requires PathLive(s.jobs, path) && caller !in s.callers
    ensures Next(s, StartCheck(caller, path)) == s
  {
  }
}
