/** Commit calls that overlap: between its checks and its edit a call holds no lock. */
module CommitRaces {
  import opened Prelude
  import opened Ops
  import opened Writer
  import opened Commits

  /** The server and the calls that have passed their checks and not reached the writer. */
  datatype Racing = Racing(server: Server, pending: map<nat, Call>)

  datatype RaceStep = Other(step: Step) | Begin(caller: nat, call: Call) | Finish(caller: nat)

  predicate Accepted(s: Server, c: Call) {
    CommitChange(s, c.id, c.expected, c.key, c.expired).Accept?
  }

  /** The edit of a call that passed its checks earlier, on the server as it is now. */
  function Finished(s: Server, c: Call): Server
    requires c.id in s.proposals
  {
    var p := s.proposals[c.id];
    if p.target !in s.targets then s
    else
      var (next, reply) := Executed(s, c.id, p, c.appended);
      Remembered(next, CacheKey(p.target, c.key), reply, c.evicted)
  }

  predicate CanRace(r: Racing, step: RaceStep) {
    match step
    case Other(step) => !step.CommitCall? && Commits.Enabled(r.server, step)
    case Begin(caller, call) => caller !in r.pending && Accepted(r.server, call)
    case Finish(caller) =>
      && caller in r.pending && r.pending[caller].id in r.server.proposals
      && Commits.Enabled(r.server, CommitCall(r.pending[caller]))
  }

  function RaceNext(r: Racing, step: RaceStep): Racing {
    if !CanRace(r, step) then r
    else
      match step
      case Other(step) => r.(server := Commits.Next(r.server, step))
      case Begin(caller, call) => r.(pending := r.pending[caller := call])
      case Finish(caller) => Racing(Finished(r.server, r.pending[caller]), r.pending - {caller})
  }

  function Race(r: Racing, steps: seq<RaceStep>): Racing {
    if steps == [] then r else RaceNext(Race(r, steps[..|steps| - 1]), steps[|steps| - 1])
  }

  const START := Racing(Commits.INITIAL, map[])

  lemma AcceptedFinishes(s: Server, c: Call)
    requires Accepted(s, c)
    ensures c.id in s.proposals && Commit(s, c).0 == Finished(s, c)
  {
    hide Executed, Remembered;
  }

  /** A call whose edit directly follows its checks is a whole commit call. */
  lemma UninterruptedIsCommit(r: Racing, caller: nat, c: Call)
    requires Accepted(r.server, c) && caller !in r.pending && Commits.Enabled(r.server, CommitCall(c))
    ensures RaceNext(RaceNext(r, Begin(caller, c)), Finish(caller)) == Racing(Commit(r.server, c).0, r.pending)
  {
    hide Accepted, Finished, Commit, Commits.Enabled;
    AcceptedFinishes(r.server, c);
    assert RaceNext(r, Begin(caller, c)) == r.(pending := r.pending[caller := c]);
    assert r.pending[caller := c] - {caller} == r.pending;
  }

  // ---------------------------------------------------------------- two calls for one proposal

  /** Two calls for one proposal, both checked before either is finished. */
  function TwoCalls(state: Writer.State, ops: seq<Op>, a: string, b: string): seq<RaceStep> {
    var revision, evicted := state.project.opSeq, CacheKey(0, "");
    [Other(Commits.Open(0, state)), Other(Propose(0, Proposal(0, revision, Some(ops)))),
     Begin(0, Call(0, revision, a, false, true, evicted)), Begin(1, Call(0, revision, b, false, true, evicted)),
     Finish(0), Finish(1)]
  }

  lemma RaceStepped(r: Racing, steps: seq<RaceStep>, k: nat)
    requires k < |steps|
    ensures Race(r, steps[..k + 1]) == RaceNext(Race(r, steps[..k]), steps[k])
    ensures k == 0 ==> Race(r, steps[..k]) == r
  {
    hide RaceNext;
    assert steps[..k + 1][..k] == steps[..k];
  }

  lemma FewResults(s: Server, c: Call)
    requires c.id in s.proposals
    ensures |Finished(s, c).results| <= |s.results| + 1
  {
    hide Handled;
    var p := s.proposals[c.id];
    if p.target in s.targets {
      var (next, reply) := Executed(s, c.id, p, c.appended);
      var key := CacheKey(p.target, c.key);
      if reply.Committed? {
        var kept := if |s.results| >= MAX_EDIT_RESULTS then s.results - {c.evicted} else s.results;
        assert kept.Keys <= s.results.Keys;
        SubsetSize(kept.Keys, s.results.Keys);
        assert |kept| == |kept.Keys| && |s.results| == |s.results.Keys|;
        assert kept[key := reply].Keys == kept.Keys + {key} && |kept[key := reply]| == |kept[key := reply].Keys|;
      }
    }
  }

  lemma SubsetSize<T>(a: set<T>, b: set<T>)
    requires a <= b
    ensures |a| <= |b|
  {
    assert b == a + (b - a);
  }

  function Offered(state: Writer.State, ops: seq<Op>): Server {
    Server(map[0 := state], map[0 := Proposal(0, state.project.opSeq, Some(ops))], map[], {0}, {0}, [])
  }

  lemma OfferAccepted(state: Writer.State, ops: seq<Op>, c: Call)
    requires c.id == 0 && c.expected == state.project.opSeq && KeyOk(c.key) && !c.expired
    ensures Accepted(Offered(state, ops), c)
  {
  }

  lemma OfferMade(state: Writer.State, ops: seq<Op>, a: string, b: string)
    ensures Race(START, TwoCalls(state, ops, a, b)[..2]) == Racing(Offered(state, ops), map[])
  {
    hide Race, Handled, Accepted, Finished, KeyOk;
    var steps := TwoCalls(state, ops, a, b);
    RaceStepped(START, steps, 0);
    RaceStepped(START, steps, 1);
  }

  /** Both calls pass their checks. */
  lemma BothBegin(state: Writer.State, ops: seq<Op>, a: string, b: string)
    requires KeyOk(a) && KeyOk(b)
    ensures var steps := TwoCalls(state, ops, a, b);
      Race(START, steps[..4]) == Racing(Offered(state, ops), map[0 := steps[2].call, 1 := steps[3].call])
  {
    hide Race, Handled, Accepted, Finished, KeyOk;
    var steps := TwoCalls(state, ops, a, b);
    OfferMade(state, ops, a, b);
    RaceStepped(START, steps, 2);
    OfferAccepted(state, ops, steps[2].call);
    assert Race(START, steps[..3]) == Racing(Offered(state, ops), map[0 := steps[2].call]);
    RaceStepped(START, steps, 3);
    OfferAccepted(state, ops, steps[3].call);
  }

  /** The first call is finished. */
  lemma OneFinishes(state: Writer.State, ops: seq<Op>, a: string, b: string)
    requires KeyOk(a) && KeyOk(b)
    ensures var steps, s := TwoCalls(state, ops, a, b), Offered(state, ops);
      && steps[2].call.id in s.proposals
      && Race(START, steps[..5]) == Racing(Finished(s, steps[2].call), map[1 := steps[3].call])
  {
    hide Race, Finished, Accepted, Handled, KeyOk;
    var steps := TwoCalls(state, ops, a, b);
    BothBegin(state, ops, a, b);
    RaceStepped(START, steps, 4);
    var pending: map<nat, Call> := map[0 := steps[2].call, 1 := steps[3].call];
    assert pending - {0} == map[1 := steps[3].call];
  }

  /** They both run the proposal, even with one and the same key. */
  lemma RacingCallsApplyTwice(state: Writer.State, ops: seq<Op>, a: string, b: string)
    requires KeyOk(a) && KeyOk(b)
    ensures Race(START, TwoCalls(state, ops, a, b)).server.applied == [0, 0]
  {
    hide Race, Finished, Accepted, Handled, KeyOk;
    var steps, s := TwoCalls(state, ops, a, b), Offered(state, ops);
    var first, second := steps[2].call, steps[3].call;
    OneFinishes(state, ops, a, b);
    RaceStepped(START, steps, 5);
    RememberedOnly(s, first);
    FewResults(s, first);
    RememberedOnly(Finished(s, first), second);
    assert steps[..6] == steps;
  }

  // ---------------------------------------------------------------- when a proposal is applied twice

  /** The proposal this step hands to the writer. */
  function Reaches(r: Racing, step: RaceStep): Option<nat> {
    if CanRace(r, step) && step.Finish? then
      var p := r.server.proposals[r.pending[step.caller].id];
      if p.target in r.server.targets && p.ops.Some? then Some(r.pending[step.caller].id) else None
    else None
  }

  /** While this caller's call has been in flight another one for its proposal reached the writer. */
  predicate Overtaken(steps: seq<RaceStep>, caller: nat) {
    && steps != []
    && var before, last := steps[..|steps| - 1], steps[|steps| - 1];
       var r := Race(START, before);
       && caller in r.pending && caller in Race(START, steps).pending
       && (Overtaken(before, caller) || Reaches(r, last) == Some(r.pending[caller].id))
  }

  /** Two calls for one proposal were in flight together and both reached the writer. */
  predicate Overlapped(steps: seq<RaceStep>) {
    && steps != []
    && var before, last := steps[..|steps| - 1], steps[|steps| - 1];
       || Overlapped(before)
       || (Reaches(Race(START, before), last).Some? && Overtaken(before, last.caller))
  }

  /** The proposal is there, and its target is not behind it or is closed for good. */
  predicate Reached(s: Server, id: nat) {
    && id in s.proposals
    && s.proposals[id].target in s.usedTargets
    && (s.proposals[id].target in s.targets ==>
         s.targets[s.proposals[id].target].project.opSeq >= s.proposals[id].revision)
  }

  ghost predicate RaceInvariant(r: Racing) {
    Settled(r.server) && forall c :: c in r.pending ==> Reached(r.server, r.pending[c].id)
  }

  lemma OtherReached(s: Server, step: Step, id: nat)
    requires Settled(s) && !step.CommitCall? && Commits.Enabled(s, step) && Reached(s, id)
    ensures Reached(Commits.Next(s, step), id)
  {
    hide Handled;
    if step.Write? {
      HandledSeq(s.targets[step.target], step.request, step.appended);
    }
  }

  /** An accepted call is for a proposal that was never applied. */
  lemma AcceptedIsNew(s: Server, c: Call)
    requires Settled(s) && Accepted(s, c)
    ensures Reached(s, c.id) && c.id !in s.applied
  {
  }

  lemma FinishedReached(s: Server, c: Call, id: nat)
    requires Settled(s) && Reached(s, c.id) && Reached(s, id)
    ensures Reached(Finished(s, c), id)
  {
    hide Handled, Remembered, Settled;
    var p := s.proposals[c.id];
    RememberedOnly(s, c);
    if p.target in s.targets && p.ops.Some? {
      HandledSeq(s.targets[p.target], ApplyOp(CLIENT, Batch(p.ops.value)), c.appended);
    }
  }

  /** What finishing changes apart from the results. */
  lemma RememberedOnly(s: Server, c: Call)
    requires c.id in s.proposals
    ensures
      var p, n := s.proposals[c.id], Finished(s, c);
      && n.proposals == s.proposals && n.usedTargets == s.usedTargets && n.usedProposals == s.usedProposals
      && n.targets == (
        if p.target !in s.targets || p.ops.None? then s.targets
        else s.targets[p.target := Handled(s.targets[p.target], ApplyOp(CLIENT, Batch(p.ops.value)), c.appended).0])
      && n.applied == if p.target !in s.targets || p.ops.None? then s.applied else s.applied + [c.id]
  {
    hide Handled;
  }

  lemma FinishedKeeps(s: Server, c: Call)
    requires Settled(s) && Commits.Enabled(s, CommitCall(c)) && Reached(s, c.id)
    ensures Settled(Finished(s, c))
  {
    hide Handled, Remembered;
    var p := s.proposals[c.id];
    if p.target in s.targets {
      var (next, reply) := Executed(s, c.id, p, c.appended);
      if p.ops.Some? {
        var request := ApplyOp(CLIENT, Batch(p.ops.value));
        MovedTarget(s, p.target, request, c.appended);
        HandledSeq(s.targets[p.target], request, c.appended);
        assert LoggedOp(s.targets[p.target], request).Some?;
        assert Past(next, c.id);
        assert forall id :: id in s.applied ==> Past(next, id) by {
          var moved := s.(targets := next.targets);
          assert forall id :: Past(moved, id) ==> Past(next, id);
        }
      }
      RememberedKeeps(next, CacheKey(p.target, c.key), reply, c.evicted);
    }
  }

  /** A step keeps the invariant and applies what it hands to the writer. */
  lemma RaceStepKeeps(r: Racing, step: RaceStep)
    requires RaceInvariant(r)
    ensures RaceInvariant(RaceNext(r, step))
    ensures RaceNext(r, step).server.applied ==
      r.server.applied + (if Reaches(r, step).Some? then [Reaches(r, step).value] else [])
  {
    hide Commits.Next, Commits.Enabled, Settled, Reached, Finished, Accepted;
    if CanRace(r, step) {
      match step
      case Other(other) =>
        OtherKeeps(r.server, other);
        forall c | c in r.pending ensures Reached(Commits.Next(r.server, other), r.pending[c].id) {
          OtherReached(r.server, other, r.pending[c].id);
        }
      case Begin(_, call) => AcceptedIsNew(r.server, call);
      case Finish(caller) =>
        var c := r.pending[caller];
        FinishedKeeps(r.server, c);
        RememberedOnly(r.server, c);
        forall other | other in r.pending && other != caller
          ensures Reached(Finished(r.server, c), r.pending[other].id)
        {
          FinishedReached(r.server, c, r.pending[other].id);
        }
    }
  }

  /** A call in flight is for a proposal that was applied exactly when it was overtaken. */
  lemma OvertakenStep(steps: seq<RaceStep>, caller: nat)
    requires steps != [] && caller in Race(START, steps).pending
    requires RaceInvariant(Race(START, steps[..|steps| - 1]))
    requires
      var r := Race(START, steps[..|steps| - 1]);
      caller in r.pending ==>
        (r.pending[caller].id in r.server.applied <==> Overtaken(steps[..|steps| - 1], caller))
    ensures var r := Race(START, steps); r.pending[caller].id in r.server.applied <==> Overtaken(steps, caller)
  {
    var r, step := Race(START, steps[..|steps| - 1]), steps[|steps| - 1];
    RaceStepKeeps(r, step);
    hide RaceInvariant, Finished, Accepted, Commits.Enabled, Commits.Next, Race, Reaches;
    if caller !in r.pending {
      AcceptedIsNew(r.server, step.call);
    }
  }

  /**
   * Whatever interleaves, a proposal is applied twice exactly when two calls for it were in flight
   * together and both reached the writer.
   */
  lemma {:induction false} AppliedOnceIff(steps: seq<RaceStep>)
    ensures RaceInvariant(Race(START, steps))
    ensures forall c :: c in Race(START, steps).pending ==>
      (Race(START, steps).pending[c].id in Race(START, steps).server.applied <==> Overtaken(steps, c))
    ensures Distinct(Race(START, steps).server.applied) <==> !Overlapped(steps)
    decreases |steps|
  {
    hide RaceNext;
    if steps != [] {
      var before, step := steps[..|steps| - 1], steps[|steps| - 1];
      var r := Race(START, before);
      AppliedOnceIff(before);
      RaceStepKeeps(r, step);
      forall c | c in Race(START, steps).pending
        ensures Race(START, steps).pending[c].id in Race(START, steps).server.applied <==> Overtaken(steps, c)
      {
        OvertakenStep(steps, c);
      }
      assert Reaches(r, step).Some? ==> step.Finish? && Reaches(r, step) == Some(r.pending[step.caller].id);
      DistinctGrows(r.server.applied, Reaches(r, step));
    }
  }

  /** No two calls in flight are for the same proposal. */
  predicate OneEach(r: Racing) {
    forall a, b :: a in r.pending && b in r.pending && r.pending[a].id == r.pending[b].id ==> a == b
  }

  predicate AlwaysOneEach(steps: seq<RaceStep>) {
    OneEach(Race(START, steps)) && (steps == [] || AlwaysOneEach(steps[..|steps| - 1]))
  }

  lemma {:induction false} NeverOvertaken(steps: seq<RaceStep>, caller: nat)
    requires AlwaysOneEach(steps)
    ensures !Overtaken(steps, caller)
    decreases |steps|
  {
    hide Finished, Accepted, Commits.Enabled, Commits.Next;
    if steps != [] && caller in Race(START, steps[..|steps| - 1]).pending {
      NeverOvertaken(steps[..|steps| - 1], caller);
    }
  }

  /** As long as no proposal ever has two calls in flight, none is applied twice. */
  lemma {:induction false} OneEachAppliesOnce(steps: seq<RaceStep>)
    requires AlwaysOneEach(steps)
    ensures !Overlapped(steps) && Distinct(Race(START, steps).server.applied)
    decreases |steps|
  {
    hide RaceNext, OneEach, Overtaken;
    AppliedOnceIff(steps);
    if steps != [] {
      var before, step := steps[..|steps| - 1], steps[|steps| - 1];
      OneEachAppliesOnce(before);
      if step.Finish? {
        NeverOvertaken(before, step.caller);
      }
    }
  }

  lemma DistinctGrows(ids: seq<nat>, id: Option<nat>)
    ensures Distinct(ids + (if id.Some? then [id.value] else [])) <==>
      Distinct(ids) && (id.Some? ==> id.value !in ids)
  {
    var all := ids + (if id.Some? then [id.value] else []);
    assert forall i :: 0 <= i < |ids| ==> all[i] == ids[i];
    if id.Some? {
      assert all[|ids|] == id.value;
    }
  }
}
