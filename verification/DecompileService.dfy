/** Guarded decompilation: requests, edits and at most two background workers, interleaved. */
module DecompileService {
  import opened Prelude
  import opened DecompileCaches

  datatype Outcome = Ready(artifact: Artifact) | NotFound | StillRunning

  /** A request, from fixing its key to its answer. */
  datatype Phase = Keyed | Queued | Awaiting | Answered(outcome: Outcome)

  datatype Request = Request(key: Key, options: Options, phase: Phase)

  /** A blocking task. It holds its permit until it is finished, whether or not anyone still waits. */
  datatype Worker = Spawned | Computing(version: nat) | Finished(result: Option<Artifact>)

  datatype State = State(
    published: nat,
    cache: seq<Entry>,
    requests: map<nat, Request>,
    workers: map<nat, Worker>,
    permits: nat)

  const DECOMPILE_PERMITS := 2

  datatype Step =
    | Edit
    | Begin(id: nat, va: u64, options: Options, present: bool)
    | LookUp(id: nat)
    | Acquire(id: nat)
    | Read(id: nat)
    | Finish(id: nat, present: bool)
    | Panic(id: nat)
    | Deliver(id: nat)
    | TimeOut(id: nat)

  function Initial(opSeq: nat): State {
    State(opSeq, [], map[], map[], DECOMPILE_PERMITS)
  }

  predicate InPhase(s: State, id: nat, phase: Phase) {
    id in s.requests && s.requests[id].phase == phase
  }

  function Moved(s: State, id: nat, phase: Phase): State
    requires id in s.requests
  {
    s.(requests := s.requests[id := s.requests[id].(phase := phase)])
  }

  predicate Enabled(s: State, step: Step) {
    match step
    case Edit => true
    case Begin(id, _, _, _) => id !in s.requests && id !in s.workers
    case LookUp(id) => InPhase(s, id, Keyed)
    case Acquire(id) => InPhase(s, id, Queued) && s.permits > 0 && id !in s.workers
    case Read(id) => id in s.requests && id in s.workers && s.workers[id].Spawned?
    case Finish(id, _) => id in s.requests && id in s.workers && s.workers[id].Computing?
    case Panic(id) => id in s.requests && id in s.workers && s.workers[id].Computing?
    case Deliver(id) => InPhase(s, id, Awaiting) && id in s.workers && s.workers[id].Finished?
    case TimeOut(id) => InPhase(s, id, Awaiting)
  }

  /** One atomic step; the worker reads the project again after the key is fixed. */
  function Next(s: State, step: Step): State
    requires Enabled(s, step)
  {
    match step
    case Edit => s.(published := s.published + 1)
    case Begin(id, va, options, present) =>
      var key := Key(s.published, va, Lane(options));
      s.(requests := s.requests[id := Request(key, options, if present then Keyed else Answered(NotFound))])
    case LookUp(id) =>
      var key := s.requests[id].key;
      var at := Find(s.cache, key);
      if at.None? then Moved(s, id, Queued)
      else Moved(s, id, Answered(Ready(s.cache[at.value].artifact))).(cache := Got(s.cache, key))
    case Acquire(id) => Moved(s, id, Awaiting).(permits := s.permits - 1, workers := s.workers[id := Spawned])
    case Read(id) => s.(workers := s.workers[id := Computing(s.published)])
    case Finish(id, present) =>
      var r := s.requests[id];
      var artifact := Artifact(s.workers[id].version, r.key.va, r.options);
      s.(workers := s.workers[id := Finished(if present then Some(artifact) else None)],
         permits := s.permits + 1,
         cache := if present then Put(s.cache, r.key, artifact) else s.cache)
    case Panic(id) => s.(workers := s.workers[id := Finished(None)], permits := s.permits + 1)
    case Deliver(id) =>
      var result := s.workers[id].result;
      Moved(s, id, Answered(if result.Some? then Ready(result.value) else NotFound))
    case TimeOut(id) => Moved(s, id, Answered(StillRunning))
  }

  /** Any interleaving; steps that are not possible where they stand are skipped. */
  function Run(s: State, steps: seq<Step>): State {
    if steps == [] then s
    else
      var before := Run(s, steps[..|steps| - 1]);
      if Enabled(before, steps[|steps| - 1]) then Next(before, steps[|steps| - 1]) else before
  }

  // ---------------------------------------------------------------- what every interleaving keeps

  /** The artifact answers the key: right function, right lane, and a version no older than the key's. */
  predicate Answers(artifact: Artifact, key: Key, published: nat) {
    && artifact.va == key.va
    && Lane(artifact.options) == key.lane
    && key.opSeq <= artifact.version <= published
  }

  function Active(s: State): (r: set<nat>)
    ensures forall id :: id in r <==> id in s.workers && !s.workers[id].Finished?
  {
    set id | id in s.workers && !s.workers[id].Finished?
  }

  predicate WorkerFits(w: Worker, r: Request, published: nat) {
    && (w.Computing? ==> r.key.opSeq <= w.version <= published)
    && (w.Finished? && w.result.Some? ==>
         Answers(w.result.value, r.key, published) && w.result.value.options == r.options)
  }

  predicate RequestFits(r: Request, published: nat) {
    && r.key.opSeq <= published && r.key.lane == Lane(r.options)
    && (r.phase.Answered? && r.phase.outcome.Ready? ==> Answers(r.phase.outcome.artifact, r.key, published))
  }

  ghost predicate CacheFits(cache: seq<Entry>, published: nat) {
    && Distinct(cache) && |cache| <= DECOMPILE_CACHE_CAP
    && forall e :: e in cache ==> Answers(e.artifact, e.key, published)
  }

  /** Requests and workers agree: a worker exists exactly for a request that was let through. */
  predicate TablesFit(requests: map<nat, Request>, workers: map<nat, Worker>, published: nat) {
    && (forall id :: id in requests ==>
         && RequestFits(requests[id], published)
         && (requests[id].phase in {Keyed, Queued} ==> id !in workers)
         && (requests[id].phase.Awaiting? ==> id in workers))
    && (forall id :: id in workers ==> id in requests && WorkerFits(workers[id], requests[id], published))
  }

  ghost predicate Invariant(s: State) {
    && CacheFits(s.cache, s.published)
    && TablesFit(s.requests, s.workers, s.published)
    && |Active(s)| + s.permits == DECOMPILE_PERMITS
  }

  lemma ActiveChanges(s: State, id: nat, w: Worker)
    ensures Active(s.(workers := s.workers[id := w])) ==
      if w.Finished? then Active(s) - {id} else Active(s) + {id}
  {
  }

  lemma CacheStep(s: State, id: nat, artifact: Artifact)
    requires CacheFits(s.cache, s.published) && id in s.requests
    requires Answers(artifact, s.requests[id].key, s.published)
    ensures CacheFits(Got(s.cache, s.requests[id].key), s.published)
    ensures CacheFits(Put(s.cache, s.requests[id].key, artifact), s.published)
  {
    hide Got, Put, Distinct, Lane;
    CacheKept(s.cache, s.requests[id].key, artifact);
  }

  lemma SameActive(a: State, b: State)
    requires a.workers == b.workers
    ensures Active(a) == Active(b)
  {
  }

  lemma WorkerKnown(s: State, id: nat)
    requires TablesFit(s.requests, s.workers, s.published) && id in s.workers
    ensures id in s.requests && RequestFits(s.requests[id], s.published)
    ensures WorkerFits(s.workers[id], s.requests[id], s.published)
  {
  }

  /** Changing one request and its worker together keeps the tables in agreement. */
  lemma TableChanges(s: State, id: nat, r: Request, w: Option<Worker>, published: nat)
    requires TablesFit(s.requests, s.workers, published)
    requires RequestFits(r, published)
    requires w.Some? ==> WorkerFits(w.value, r, published)
    requires r.phase in {Keyed, Queued} ==> w.None?
    requires r.phase.Awaiting? ==> w.Some?
    requires w.None? ==> id !in s.workers
    ensures TablesFit(s.requests[id := r], if w.Some? then s.workers[id := w.value] else s.workers, published)
  {
    hide WorkerFits, RequestFits;
  }

  lemma LookUpKeeps(s: State, id: nat)
    requires Invariant(s) && Enabled(s, LookUp(id))
    ensures Invariant(Next(s, LookUp(id)))
  {
    hide Got, Put, Lane, Active, Distinct, TablesFit;
    var next, r := Next(s, LookUp(id)), s.requests[id];
    assert Active(next) == Active(s) by { SameActive(next, s); }
    assert RequestFits(r, s.published) && id !in s.workers by { RequestKnown(s, id); }
    var at := Find(s.cache, r.key);
    if at.Some? {
      assert s.cache[at.value] in s.cache;
      CacheStep(s, id, s.cache[at.value].artifact);
    }
    TableChanges(s, id, next.requests[id], None, s.published);
  }

  lemma RequestKnown(s: State, id: nat)
    requires TablesFit(s.requests, s.workers, s.published) && id in s.requests
    ensures RequestFits(s.requests[id], s.published)
    ensures s.requests[id].phase in {Keyed, Queued} ==> id !in s.workers
    ensures s.requests[id].phase.Awaiting? ==> id in s.workers
  {
  }

  lemma AcquireKeeps(s: State, id: nat)
    requires Invariant(s) && Enabled(s, Acquire(id))
    ensures Invariant(Next(s, Acquire(id)))
  {
    hide CacheFits, Lane, Active, TablesFit;
    var next := Next(s, Acquire(id));
    RequestKnown(s, id);
    ActiveChanges(s, id, Spawned);
    assert Active(next) == Active(s) + {id} by { SameActive(next, s.(workers := next.workers)); }
    TableChanges(s, id, next.requests[id], Some(Spawned), s.published);
  }

  lemma ReadKeeps(s: State, id: nat)
    requires Invariant(s) && Enabled(s, Read(id))
    ensures Invariant(Next(s, Read(id)))
  {
    hide CacheFits, Lane, Active, TablesFit;
    var next := Next(s, Read(id));
    WorkerKnown(s, id);
    ActiveChanges(s, id, next.workers[id]);
    assert Active(next) == Active(s) + {id} == Active(s) by { SameActive(next, s.(workers := next.workers)); }
    RequestKnown(s, id);
    TableChanges(s, id, s.requests[id], Some(next.workers[id]), s.published);
    assert s.requests[id := s.requests[id]] == s.requests;
  }

  lemma FinishKeeps(s: State, step: Step)
    requires Invariant(s) && Enabled(s, step) && (step.Finish? || step.Panic?)
    ensures Invariant(Next(s, step))
  {
    hide CacheFits, Got, Put, Active, Lane, Find, TablesFit;
    var next, id := Next(s, step), step.id;
    WorkerKnown(s, id);
    RequestKnown(s, id);
    ActiveChanges(s, id, next.workers[id]);
    assert Active(next) == Active(s) - {id} by { SameActive(next, s.(workers := next.workers)); }
    TableChanges(s, id, s.requests[id], Some(next.workers[id]), s.published);
    assert s.requests[id := s.requests[id]] == s.requests;
    if step.Finish? && step.present {
      CacheStep(s, id, next.workers[id].result.value);
    }
  }

  lemma EditKeeps(s: State)
    requires Invariant(s)
    ensures Invariant(Next(s, Edit))
  {
    hide Distinct, Lane, Active;
    assert Active(Next(s, Edit)) == Active(s) by { SameActive(Next(s, Edit), s); }
  }

  lemma CallerKeeps(s: State, step: Step)
    requires Invariant(s) && Enabled(s, step)
    requires step.Begin? || step.Deliver? || step.TimeOut?
    ensures Invariant(Next(s, step))
  {
    hide CacheFits, Lane, Active, TablesFit;
    var next, id := Next(s, step), step.id;
    assert Active(next) == Active(s) by { SameActive(next, s); }
    if step.Begin? {
      TableChanges(s, id, next.requests[id], None, s.published);
    } else {
      RequestKnown(s, id);
      WorkerKnown(s, id);
      TableChanges(s, id, next.requests[id], Some(s.workers[id]), s.published);
      assert s.workers[id := s.workers[id]] == s.workers;
    }
  }

  lemma StepKeeps(s: State, step: Step)
    requires Invariant(s) && Enabled(s, step)
    ensures Invariant(Next(s, step))
    ensures s.published <= Next(s, step).published
  {
    hide Invariant, Got, Put, Find;
    match step
    case LookUp(id) => LookUpKeeps(s, id);
    case Acquire(id) => AcquireKeeps(s, id);
    case Read(id) => ReadKeeps(s, id);
    case Finish(_, _) => FinishKeeps(s, step);
    case Panic(_) => FinishKeeps(s, step);
    case Edit => EditKeeps(s);
    case _ => CallerKeeps(s, step);
  }

  /** Whatever interleaves: a full cache at most, fresh enough answers, and at most two computations. */
  lemma {:induction false} RunKeeps(opSeq: nat, steps: seq<Step>)
    ensures Invariant(Run(Initial(opSeq), steps))
    decreases |steps|
  {
    hide Next, Enabled;
    if steps == [] {
      assert Active(Initial(opSeq)) == {};
    } else {
      hide Invariant;
      var before := steps[..|steps| - 1];
      RunKeeps(opSeq, before);
      if Enabled(Run(Initial(opSeq), before), steps[|steps| - 1]) {
        StepKeeps(Run(Initial(opSeq), before), steps[|steps| - 1]);
      }
    }
  }

  /** Every artifact handed out is from a version the request had already seen or a later one. */
  lemma AnswersAreFresh(opSeq: nat, steps: seq<Step>, id: nat)
    requires var s := Run(Initial(opSeq), steps);
      id in s.requests && s.requests[id].phase.Answered? && s.requests[id].phase.outcome.Ready?
    ensures var s := Run(Initial(opSeq), steps);
      var r := s.requests[id];
      var artifact := r.phase.outcome.artifact;
      && r.key.opSeq <= artifact.version <= s.published
      && artifact.va == r.key.va
      && artifact.options.mode == r.options.mode
      && artifact.options.allowLegacyFallback == r.options.allowLegacyFallback
      && (s.published == r.key.opSeq ==> artifact.version == r.key.opSeq)
  {
    RunKeeps(opSeq, steps);
    hide Run, Active, CacheFits, Lane;
    var s := Run(Initial(opSeq), steps);
    LaneIff(s.requests[id].phase.outcome.artifact.options, s.requests[id].options);
  }

  /** Never more than two computations in flight, those nobody waits for any more included. */
  lemma AtMostTwo(opSeq: nat, steps: seq<Step>)
    ensures |Active(Run(Initial(opSeq), steps))| <= DECOMPILE_PERMITS
    ensures |Run(Initial(opSeq), steps).cache| <= DECOMPILE_CACHE_CAP
    ensures Distinct(Run(Initial(opSeq), steps).cache)
  {
    RunKeeps(opSeq, steps);
  }

  /** A request made after an edit never gets an artifact from before it. */
  lemma EditsAreSeen(opSeq: nat, steps: seq<Step>, id: nat, va: u64, options: Options, more: seq<Step>)
    requires var s := Run(Initial(opSeq), steps); id !in s.requests
    requires
      var s := Run(Initial(opSeq), steps + [Begin(id, va, options, true)] + more);
      && id in s.requests && s.requests[id].phase.Answered? && s.requests[id].phase.outcome.Ready?
    ensures
      var s := Run(Initial(opSeq), steps + [Begin(id, va, options, true)] + more);
      s.requests[id].phase.outcome.artifact.version >= Run(Initial(opSeq), steps).published
  {
    var begun := steps + [Begin(id, va, options, true)];
    RunKeeps(opSeq, steps);
    assert begun[..|begun| - 1] == steps;
    KeyStays(Initial(opSeq), begun, more, id);
    AnswersAreFresh(opSeq, begun + more, id);
  }

  lemma {:induction false} KeyStays(s: State, steps: seq<Step>, more: seq<Step>, id: nat)
    requires id in Run(s, steps).requests
    ensures id in Run(s, steps + more).requests
    ensures Run(s, steps + more).requests[id].key == Run(s, steps).requests[id].key
    ensures Run(s, steps + more).requests[id].options == Run(s, steps).requests[id].options
    decreases |more|
  {
    hide Got, Put, Find, Lane;
    if more == [] {
      assert steps + more == steps;
    } else {
      KeyStays(s, steps, more[..|more| - 1], id);
      assert (steps + more)[..|steps + more| - 1] == steps + more[..|more| - 1];
    }
  }

  // ---------------------------------------------------------------- when key and version agree

  function Edits(steps: seq<Step>): nat {
    if steps == [] then 0 else Edits(steps[..|steps| - 1]) + (if steps[|steps| - 1].Edit? then 1 else 0)
  }

  lemma RunAppend(s: State, steps: seq<Step>, step: Step)
    ensures Run(s, steps + [step]) ==
      if Enabled(Run(s, steps), step) then Next(Run(s, steps), step) else Run(s, steps)
  {
    hide Enabled, Next;
    assert (steps + [step])[..|steps|] == steps;
  }

  lemma RunLast(s: State, steps: seq<Step>, more: seq<Step>)
    requires more != []
    ensures var before, last := Run(s, steps + more[..|more| - 1]), more[|more| - 1];
      Run(s, steps + more) == if Enabled(before, last) then Next(before, last) else before
  {
    hide Enabled, Next;
    assert steps + more == (steps + more[..|more| - 1]) + [more[|more| - 1]];
    RunAppend(s, steps + more[..|more| - 1], more[|more| - 1]);
  }

  /** The published version counts edits and nothing else. */
  lemma {:induction false} PublishedCounts(s: State, steps: seq<Step>, more: seq<Step>)
    ensures Run(s, steps + more).published == Run(s, steps).published + Edits(more)
    decreases |more|
  {
    hide Got, Put, Find, Lane;
    if more == [] {
      assert steps + more == steps;
    } else {
      PublishedCounts(s, steps, more[..|more| - 1]);
      RunLast(s, steps, more);
    }
  }

  /** Once a worker has read the project, its version stays what it read until it finishes. */
  lemma {:induction false} ReadStays(s: State, steps: seq<Step>, more: seq<Step>, id: nat)
    requires id in Run(s, steps).workers && Run(s, steps).workers[id].Computing?
    ensures id in Run(s, steps + more).workers
    ensures Run(s, steps + more).workers[id] == Run(s, steps).workers[id] || Run(s, steps + more).workers[id].Finished?
    decreases |more|
  {
    hide Got, Put, Find, Lane, Run;
    if more == [] {
      assert steps + more == steps;
    } else {
      RunLast(s, steps, more);
      ReadStays(s, steps, more[..|more| - 1], id);
    }
  }

  /**
   * The entry a worker stores carries its key's version exactly when no edit was published between
   * the request fixing its key and the worker reading the project.
   */
  lemma StoredVersionIff(
    opSeq: nat, before: seq<Step>, id: nat, va: u64, options: Options, wait: seq<Step>, work: seq<Step>)
    returns (e: Entry)
    requires Enabled(Run(Initial(opSeq), before), Begin(id, va, options, true))
    requires Enabled(Run(Initial(opSeq), before + [Begin(id, va, options, true)] + wait), Read(id))
    requires Enabled(Run(Initial(opSeq), before + [Begin(id, va, options, true)] + wait + [Read(id)] + work),
                     Finish(id, true))
    ensures var steps := before + [Begin(id, va, options, true)] + wait + [Read(id)] + work + [Finish(id, true)];
      && e in Run(Initial(opSeq), steps).cache
      && e.key == Key(Run(Initial(opSeq), before).published, va, Lane(options))
      && e.artifact == Artifact(e.key.opSeq + Edits(wait), va, options)
    ensures e.artifact.version == e.key.opSeq <==> Edits(wait) == 0
  {
    hide Run, Lane, Edits, Put, Got, Find;
    var s := Initial(opSeq);
    var begun := before + [Begin(id, va, options, true)];
    RunAppend(s, before, Begin(id, va, options, true));
    KeyStays(s, begun, wait, id);
    PublishedCounts(s, begun, wait);
    RunAppend(s, begun + wait, Read(id));
    var read := begun + wait + [Read(id)];
    KeyStays(s, read, work, id);
    ReadStays(s, read, work, id);
    RunAppend(s, read + work, Finish(id, true));
    var last, r := Run(s, read + work), Run(s, read + work).requests[id];
    assert before + [Begin(id, va, options, true)] + wait + [Read(id)] + work + [Finish(id, true)]
        == read + work + [Finish(id, true)];
    RunKeeps(opSeq, read + work);
    assert CacheFits(last.cache, last.published);
    e := Entry(r.key, Artifact(last.workers[id].version, r.key.va, r.options));
    CacheKept(last.cache, r.key, e.artifact);
  }

  /**
   * The cache can hold a newer artifact than its key says: an edit between fixing the key and the
   * worker's read of the project is enough.
   */
  lemma KeyMayLag(opSeq: nat, va: u64, options: Options)
    ensures
      var s := Run(Initial(opSeq), [Begin(0, va, options, true), LookUp(0), Acquire(0), Edit, Read(0), Finish(0, true)]);
      s.cache == [Entry(Key(opSeq, va, Lane(options)), Artifact(opSeq + 1, va, options))]
  {
    hide Lane, Run;
    var all := [Begin(0, va, options, true), LookUp(0), Acquire(0), Edit, Read(0), Finish(0, true)];
    var i, key := Initial(opSeq), Key(opSeq, va, Lane(options));
    RunStep(i, all, 0);
    RunStep(i, all, 1);
    RunStep(i, all, 2);
    assert all[..3] == [Begin(0, va, options, true), LookUp(0), Acquire(0)];
    var r := Request(key, options, Awaiting);
    assert Run(i, all[..3]) == State(opSeq, [], map[0 := r], map[0 := Spawned], 1);
    RunStep(i, all, 3);
    RunStep(i, all, 4);
    RunStep(i, all, 5);
    assert all[..6] == all;
    assert Run(i, all[..5]) == State(opSeq + 1, [], map[0 := r], map[0 := Computing(opSeq + 1)], 1);
  }

  /**
   * The search budget is not in the key: the artifact that one request had computed answers a later one
   * whose options differ in the budget alone, as it was computed for the first.
   */
  lemma BudgetIgnored(opSeq: nat, va: u64, first: Options, second: Options)
    requires first.mode == second.mode && first.allowLegacyFallback == second.allowLegacyFallback
    ensures
      var s := Run(Initial(opSeq), [Begin(0, va, first, true), LookUp(0), Acquire(0), Read(0), Finish(0, true),
                                    Begin(1, va, second, true), LookUp(1)]);
      && 1 in s.requests && s.requests[1].options == second
      && s.requests[1].phase == Answered(Ready(Artifact(opSeq, va, first)))
  {
    hide Lane, Run;
    var work := [Begin(0, va, first, true), LookUp(0), Acquire(0), Read(0), Finish(0, true)];
    var more := [Begin(1, va, second, true), LookUp(1)];
    var i, s := Initial(opSeq), Computed(opSeq, va, first);
    LaneIff(first, second);
    ComputedOnce(opSeq, va, first);
    RunAppend(i, work, more[0]);
    RunAppend(i, work + [more[0]], more[1]);
    assert work + [more[0]] + [more[1]] ==
      [Begin(0, va, first, true), LookUp(0), Acquire(0), Read(0), Finish(0, true), more[0], more[1]];
  }

  /** One request computed and stored, and not yet answered. */
  function Computed(opSeq: nat, va: u64, options: Options): State {
    var key, artifact := Key(opSeq, va, Lane(options)), Artifact(opSeq, va, options);
    State(opSeq, [Entry(key, artifact)], map[0 := Request(key, options, Awaiting)],
          map[0 := Finished(Some(artifact))], DECOMPILE_PERMITS)
  }

  lemma ComputedOnce(opSeq: nat, va: u64, options: Options)
    ensures Run(Initial(opSeq), [Begin(0, va, options, true), LookUp(0), Acquire(0), Read(0), Finish(0, true)]) ==
      Computed(opSeq, va, options)
  {
    hide Lane, Run;
    var all := [Begin(0, va, options, true), LookUp(0), Acquire(0), Read(0), Finish(0, true)];
    var i, r := Initial(opSeq), Request(Key(opSeq, va, Lane(options)), options, Awaiting);
    RunStep(i, all, 0);
    RunStep(i, all, 1);
    RunStep(i, all, 2);
    assert Run(i, all[..3]) == State(opSeq, [], map[0 := r], map[0 := Spawned], 1);
    RunStep(i, all, 3);
    RunStep(i, all, 4);
    assert all[..5] == all;
  }

  lemma RunStep(s: State, steps: seq<Step>, k: nat)
    requires k < |steps|
    ensures Run(s, steps[..k + 1]) ==
      if Enabled(Run(s, steps[..k]), steps[k]) then Next(Run(s, steps[..k]), steps[k]) else Run(s, steps[..k])
    ensures k == 0 ==> Run(s, steps[..k]) == s
  {
    assert steps[..k + 1][..k] == steps[..k];
  }
}
