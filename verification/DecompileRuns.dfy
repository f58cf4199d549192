/** Decompile requests taken to their end without anything in between. */
module DecompileRuns {
  import opened DecompileCaches
  import opened DecompileService
  import opened Prelude

  /** Two steps one after the other. */
  lemma RunMore(s: State, steps: seq<Step>, step: Step)
    ensures Run(s, steps + [step]) ==
      if Enabled(Run(s, steps), step) then Next(Run(s, steps), step) else Run(s, steps)
  {
    RunAppend(s, steps, step);
  }

  lemma RunOne(s: State, step: Step)
    ensures Run(s, [step]) == if Enabled(s, step) then Next(s, step) else s
  {
    hide Enabled, Next;
    assert [] + [step] == [step] && Run(s, []) == s;
    RunAppend(s, [], step);
  }

  /** A function that is not there is not looked for in the cache. */
  lemma MissingAnswered(s: State, id: nat, va: u64, options: Options)
    requires id !in s.requests && id !in s.workers
    ensures var done := Run(s, [Begin(id, va, options, false)]);
      && id in done.requests && done.requests[id].phase == Answered(NotFound)
      && done == s.(requests := done.requests)
  {
    hide Lane;
    RunOne(s, Begin(id, va, options, false));
  }

  /** The request is keyed to the version published when it is made, and has looked into the cache. */
  lemma Asked(s: State, id: nat, va: u64, options: Options)
    requires id !in s.requests && id !in s.workers
    ensures
      var key := Key(s.published, va, Lane(options));
      var asked, at := Run(s, [Begin(id, va, options, true)] + [LookUp(id)]), Find(s.cache, key);
      asked ==
        if at.Some? then
          s.(requests := s.requests[id := Request(key, options, Answered(Ready(s.cache[at.value].artifact)))],
             cache := Got(s.cache, key))
        else s.(requests := s.requests[id := Request(key, options, Queued)])
  {
    hide Lane, Find, Got, Run;
    RunOne(s, Begin(id, va, options, true));
    RunMore(s, [Begin(id, va, options, true)], LookUp(id));
  }

  /** A request whose key is cached gets what the cache has, and no worker. */
  lemma CachedAnswered(s: State, id: nat, va: u64, options: Options, e: Entry)
    requires id !in s.requests && id !in s.workers && Distinct(s.cache)
    requires e in s.cache && e.key == Key(s.published, va, Lane(options))
    ensures
      var done := Run(s, [Begin(id, va, options, true)] + [LookUp(id)]);
      && id in done.requests && done.requests[id].phase == Answered(Ready(e.artifact))
      && done.workers == s.workers && done.permits == s.permits
  {
    hide Lane, Got, Run;
    Asked(s, id, va, options);
    var k :| 0 <= k < |s.cache| && s.cache[k] == e;
    assert Find(s.cache, e.key).Some?;
  }

  /** What a computation can come to: an artifact, nothing, or a panic. */
  datatype Work = Done(present: bool) | Panicked

  function EndOf(work: Work, id: nat): Step {
    match work
    case Done(present) => Finish(id, present)
    case Panicked => Panic(id)
  }

  /** The state of a request that waits for its worker, which has read the project. */
  predicate Waiting(s: State, id: nat, r: Request, version: nat) {
    && id in s.requests && s.requests[id] == r && r.phase.Awaiting?
    && id in s.workers && s.workers[id] == Computing(version)
  }

  /** A request that is not cached waits for a worker of its own, which reads the version published then. */
  lemma Worked(s: State, id: nat, va: u64, options: Options)
    requires id !in s.requests && id !in s.workers && s.permits > 0
    requires Find(s.cache, Key(s.published, va, Lane(options))).None?
    ensures
      var r := Request(Key(s.published, va, Lane(options)), options, Awaiting);
      var working := Run(s, [Begin(id, va, options, true)] + [LookUp(id)] + [Acquire(id)] + [Read(id)]);
      && Waiting(working, id, r, s.published)
      && working.cache == s.cache && working.permits == s.permits - 1 && working.published == s.published
  {
    hide Lane, Find, Got, Run;
    var begun := [Begin(id, va, options, true)] + [LookUp(id)];
    Asked(s, id, va, options);
    RunMore(s, begun, Acquire(id));
    RunMore(s, begun + [Acquire(id)], Read(id));
  }

  /**
   * Its answer is what the worker came back with: the artifact of that version, function and options, or
   * that there is none; the permit is free again, and an artifact is in the cache under the request's key.
   */
  lemma WorkDelivered(s: State, id: nat, r: Request, version: nat, work: Work)
    requires Waiting(s, id, r, version)
    ensures
      var artifact := Artifact(version, r.key.va, r.options);
      var done := Run(s, [EndOf(work, id)] + [Deliver(id)]);
      && id in done.requests
      && done.requests[id].phase == Answered(if work == Done(true) then Ready(artifact) else NotFound)
      && done.permits == s.permits + 1
      && done.cache == if work == Done(true) then Put(s.cache, r.key, artifact) else s.cache
  {
    hide Put, Run;
    RunOne(s, EndOf(work, id));
    RunMore(s, [EndOf(work, id)], Deliver(id));
  }

  /** Or that it is still running, once its time is out; the work goes on and is cached all the same. */
  lemma TimedOut(s: State, id: nat, r: Request, version: nat)
    requires Waiting(s, id, r, version)
    ensures
      var out := Run(s, [TimeOut(id)]);
      && id in out.requests && out.requests[id].phase == Answered(StillRunning)
      && out.workers == s.workers && out.permits == s.permits
    ensures
      var done := Run(s, [TimeOut(id)] + [Finish(id, true)]);
      && id in done.requests && done.requests[id].phase == Answered(StillRunning)
      && done.permits == s.permits + 1 && done.cache == Put(s.cache, r.key, Artifact(version, r.key.va, r.options))
  {
    hide Put, Run;
    RunOne(s, TimeOut(id));
    RunMore(s, [TimeOut(id)], Finish(id, true));
  }
}
