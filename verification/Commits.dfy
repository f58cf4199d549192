/** Revision-guarded commits of server-issued proposals, with an idempotency cache. */
module Commits {
  import opened Prelude
  import opened Ops
  import opened Recovery
  import opened Writer

  const MAX_EDIT_RESULTS := 1024
  const CLIENT := "mcp"

  /** An edit offered at `revision`; `ops` is missing when its arguments turn out not to be usable. */
  datatype Proposal = Proposal(target: nat, revision: nat, ops: Option<seq<Op>>)

  datatype Error = InvalidArgument | ProposalNotFound | ProposalExpired | RevisionConflict | EditRejected

  datatype Reply = Committed(proposal: nat, applied: Op) | Refused(error: Error)

  /** Results are cached under the target and the caller's key, whatever the proposal was. */
  datatype CacheKey = CacheKey(target: nat, key: string)

  datatype Server = Server(
    targets: map<nat, Writer.State>,
    proposals: map<nat, Proposal>,
    results: map<CacheKey, Reply>,
    /** Identifiers ever given out; they are random and never repeat. */
    usedTargets: set<nat>,
    usedProposals: set<nat>,
    /** History only: proposals whose operations reached a writer, oldest first. */
    applied: seq<nat>)

  predicate KeyOk(key: string) { 8 <= |key| <= 128 }

  function RevisionOf(s: Server, target: nat): Option<nat> {
    if target in s.targets then Some(s.targets[target].project.opSeq) else None
  }

  datatype Verdict = Accept(proposal: Proposal) | Cached(reply: Reply) | Deny(error: Error)

  /** `commit_change`: the checks, in their order. */
  function CommitChange(s: Server, id: nat, expected: nat, key: string, expired: bool): Verdict {
    if !KeyOk(key) then Deny(InvalidArgument)
    else if id !in s.proposals then Deny(ProposalNotFound)
    else if expired then Deny(ProposalExpired)
    else
      var proposal := s.proposals[id];
      var cacheKey := CacheKey(proposal.target, key);
      if cacheKey in s.results then Cached(s.results[cacheKey])
      else if expected != proposal.revision || RevisionOf(s, proposal.target) != Some(expected) then
        Deny(RevisionConflict)
      else Accept(proposal)
  }

  /** What the edit tool does to the target: one batch through the writer, if it gets that far. */
  function Executed(s: Server, id: nat, proposal: Proposal, appended: bool): (Server, Reply)
    requires proposal.target in s.targets
  {
    if proposal.ops.None? then (s, Refused(EditRejected))
    else
      var (next, r) := Handled(s.targets[proposal.target], ApplyOp(CLIENT, Batch(proposal.ops.value)), appended);
      (s.(targets := s.targets[proposal.target := next], applied := s.applied + [id]),
       if r.Some? then Committed(id, r.value) else Refused(EditRejected))
  }

  /** Successful results are remembered; a full cache first forgets one, no matter which. */
  function Remembered(s: Server, key: CacheKey, reply: Reply, evicted: CacheKey): Server {
    if reply.Refused? then s
    else
      var kept := if |s.results| >= MAX_EDIT_RESULTS then s.results - {evicted} else s.results;
      s.(results := kept[key := reply])
  }

  datatype Call = Call(id: nat, expected: nat, key: string, expired: bool, appended: bool, evicted: CacheKey)

  /** A whole commit call, taken without interruption. */
  function Commit(s: Server, c: Call): (Server, Reply) {
    match CommitChange(s, c.id, c.expected, c.key, c.expired)
    case Deny(error) => (s, Refused(error))
    case Cached(reply) => (s, reply)
    case Accept(proposal) =>
      var (next, reply) := Executed(s, c.id, proposal, c.appended);
      (Remembered(next, CacheKey(proposal.target, c.key), reply, c.evicted), reply)
  }

  datatype Step =
    | Open(target: nat, state: Writer.State)
    | CloseTarget(target: nat)
    | Propose(id: nat, proposal: Proposal)
    | Write(target: nat, request: Request, appended: bool)
    | CommitCall(call: Call)

  predicate Enabled(s: Server, step: Step) {
    match step
    case Open(target, _) => target !in s.usedTargets
    case CloseTarget(target) => target in s.targets
    case Propose(id, proposal) =>
      && id !in s.usedProposals && proposal.target in s.targets
      && proposal.revision <= s.targets[proposal.target].project.opSeq
    case Write(target, _, _) => target in s.targets
    case CommitCall(call) => call.evicted in s.results || |s.results| < MAX_EDIT_RESULTS
  }

  function Next(s: Server, step: Step): Server {
    if !Enabled(s, step) then s
    else
      match step
      case Open(target, state) =>
        s.(targets := s.targets[target := state], usedTargets := s.usedTargets + {target})
      case CloseTarget(target) => s.(targets := s.targets - {target})
      case Propose(id, proposal) =>
        s.(proposals := s.proposals[id := proposal], usedProposals := s.usedProposals + {id})
      case Write(target, request, appended) =>
        s.(targets := s.targets[target := Handled(s.targets[target], request, appended).0])
      case CommitCall(call) => Commit(s, call).0
  }

  function Run(s: Server, steps: seq<Step>): Server {
    if steps == [] then s else Next(Run(s, steps[..|steps| - 1]), steps[|steps| - 1])
  }

  const INITIAL := Server(map[], map[], map[], {}, {}, [])

  // ---------------------------------------------------------------- at most once

  /** The call names a live proposal and a usable key. */
  predicate Addressed(s: Server, id: nat, key: string, expired: bool) {
    8 <= |key| <= 128 && id in s.proposals && !expired
  }

  /** The caller saw the proposal's revision and the target still has it. */
  predicate Unmoved(s: Server, id: nat, expected: nat)
    requires id in s.proposals
  {
    expected == s.proposals[id].revision && RevisionOf(s, s.proposals[id].target) == Some(expected)
  }

  /**
   * What each verdict means: an accepted call is a well addressed one with nothing cached under its key
   * and an unmoved revision; a cached answer is given whatever the revision, and only then; a conflict
   * is a moved revision and nothing else; anything else is wrong with the address.
   */
  lemma VerdictIff(s: Server, id: nat, expected: nat, key: string, expired: bool)
    ensures var v := CommitChange(s, id, expected, key, expired);
      && (forall p :: v == Accept(p) <==>
           && Addressed(s, id, key, expired) && p == s.proposals[id]
           && CacheKey(p.target, key) !in s.results && Unmoved(s, id, expected))
      && (forall r :: v == Cached(r) <==>
           && Addressed(s, id, key, expired) && CacheKey(s.proposals[id].target, key) in s.results
           && r == s.results[CacheKey(s.proposals[id].target, key)])
      && (v == Deny(RevisionConflict) <==>
           && Addressed(s, id, key, expired) && CacheKey(s.proposals[id].target, key) !in s.results
           && !Unmoved(s, id, expected))
      && (v in {Deny(InvalidArgument), Deny(ProposalNotFound), Deny(ProposalExpired)} <==>
           !Addressed(s, id, key, expired))
  {
  }

  /** Handling a request never moves a target's revision back; logging one moves it by one. */
  lemma HandledSeq(s: Writer.State, request: Request, appended: bool)
    ensures Handled(s, request, appended).0.project.opSeq ==
      s.project.opSeq + (if LoggedOp(s, request).Some? then 1 else 0)
  {
    hide Handled, LoggedOp, Apply;
    HandledLogs(s, request, appended);
    var op := LoggedOp(s, request);
    if op.Some? {
      AfterKeepsSeq(op.value, Moved(s.project));
    }
  }

  predicate Distinct(ids: seq<nat>) {
    forall i, j :: 0 <= i < j < |ids| ==> ids[i] != ids[j]
  }

  /** The target of an applied proposal is past the proposal's revision, or closed for good. */
  predicate Past(s: Server, id: nat) {
    && id in s.proposals
    && s.proposals[id].target in s.usedTargets
    && (s.proposals[id].target in s.targets ==>
         s.targets[s.proposals[id].target].project.opSeq > s.proposals[id].revision)
  }

  /** What every server keeps, also one whose commit calls overlap. */
  ghost predicate Settled(s: Server) {
    && (forall t :: t in s.targets ==> t in s.usedTargets)
    && (forall id :: id in s.proposals ==> id in s.usedProposals && s.proposals[id].target in s.usedTargets)
    && (forall id :: id in s.applied ==> Past(s, id))
    && |s.results| <= MAX_EDIT_RESULTS
  }

  ghost predicate Invariant(s: Server) {
    Settled(s) && Distinct(s.applied)
  }

  lemma MovedTarget(s: Server, target: nat, request: Request, appended: bool)
    requires Settled(s) && target in s.targets
    ensures Settled(s.(targets := s.targets[target := Handled(s.targets[target], request, appended).0]))
  {
    hide Handled;
    HandledSeq(s.targets[target], request, appended);
  }

  lemma CacheBounded(results: map<CacheKey, Reply>, key: CacheKey, reply: Reply, evicted: CacheKey)
    requires |results| <= MAX_EDIT_RESULTS && (evicted in results || |results| < MAX_EDIT_RESULTS)
    ensures var kept := if |results| >= MAX_EDIT_RESULTS then results - {evicted} else results;
      |kept[key := reply]| <= MAX_EDIT_RESULTS
  {
    var kept := if |results| >= MAX_EDIT_RESULTS then results - {evicted} else results;
    assert |results| == |results.Keys| && |kept| == |kept.Keys|;
    if |results| >= MAX_EDIT_RESULTS {
      assert kept.Keys == results.Keys - {evicted};
    }
    assert |kept[key := reply]| == |kept[key := reply].Keys| && kept[key := reply].Keys == kept.Keys + {key};
  }

  lemma RememberedKeeps(s: Server, key: CacheKey, reply: Reply, evicted: CacheKey)
    requires Settled(s) && (evicted in s.results || |s.results| < MAX_EDIT_RESULTS)
    ensures Settled(Remembered(s, key, reply, evicted)) && Remembered(s, key, reply, evicted).applied == s.applied
  {
    CacheBounded(s.results, key, reply, evicted);
    var n := Remembered(s, key, reply, evicted);
    assert n == s.(results := n.results);
    assert forall id :: Past(s, id) ==> Past(n, id);
  }

  lemma CommitKeeps(s: Server, c: Call)
    requires Invariant(s) && Enabled(s, CommitCall(c))
    ensures Invariant(Commit(s, c).0)
  {
    hide Handled, Remembered;
    var verdict := CommitChange(s, c.id, c.expected, c.key, c.expired);
    if verdict.Accept? {
      var p := verdict.proposal;
      var (next, reply) := Executed(s, c.id, p, c.appended);
      if p.ops.Some? {
        var request := ApplyOp(CLIENT, Batch(p.ops.value));
        MovedTarget(s, p.target, request, c.appended);
        HandledSeq(s.targets[p.target], request, c.appended);
        assert LoggedOp(s.targets[p.target], request).Some?;
        assert c.id !in s.applied;
        assert Past(next, c.id);
        assert forall id :: id in s.applied ==> Past(next, id) by {
          var moved := s.(targets := next.targets);
          assert forall id :: Past(moved, id) ==> Past(next, id);
        }
      }
      RememberedKeeps(next, CacheKey(p.target, c.key), reply, c.evicted);
    }
  }

  lemma OpenKeeps(s: Server, step: Step)
    requires Settled(s) && Enabled(s, step) && (step.Open? || step.CloseTarget?)
    ensures Settled(Next(s, step))
  {
    hide Commit, Handled;
    var n := Next(s, step);
    forall id | id in s.applied ensures Past(n, id) {
      assert Past(s, id);
    }
  }

  lemma ProposeKeeps(s: Server, step: Step)
    requires Settled(s) && Enabled(s, step) && step.Propose?
    ensures Settled(Next(s, step))
  {
    hide Commit, Handled;
    var n := Next(s, step);
    forall id | id in s.applied ensures Past(n, id) {
      assert Past(s, id);
    }
  }

  /** Only commit calls apply proposals. */
  lemma OtherKeeps(s: Server, step: Step)
    requires Settled(s) && Enabled(s, step) && !step.CommitCall?
    ensures Settled(Next(s, step)) && Next(s, step).applied == s.applied
  {
    hide Commit, Handled, Settled;
    match step
    case Write(target, request, appended) => MovedTarget(s, target, request, appended);
    case Propose(_, _) => ProposeKeeps(s, step);
    case _ => OpenKeeps(s, step);
  }

  lemma StepKeeps(s: Server, step: Step)
    requires Invariant(s)
    ensures Invariant(Next(s, step))
  {
    hide Commit, Handled, Settled;
    if Enabled(s, step) {
      match step
      case CommitCall(call) => CommitKeeps(s, call);
      case _ => OtherKeeps(s, step);
    }
  }

  lemma {:induction false} RunKeeps(steps: seq<Step>)
    ensures Invariant(Run(INITIAL, steps))
    decreases |steps|
  {
    hide Next;
    if steps != [] {
      RunKeeps(steps[..|steps| - 1]);
      StepKeeps(Run(INITIAL, steps[..|steps| - 1]), steps[|steps| - 1]);
    }
  }

  /** No sequence of calls applies a proposal twice, whatever keys they use and whatever was forgotten. */
  lemma AppliedAtMostOnce(steps: seq<Step>)
    ensures Distinct(Run(INITIAL, steps).applied)
    ensures |Run(INITIAL, steps).results| <= MAX_EDIT_RESULTS
  {
    RunKeeps(steps);
  }

  /** The call names a live proposal, nothing is cached under its key, and its target has not moved. */
  predicate Acceptable(s: Server, c: Call) {
    && Addressed(s, c.id, c.key, c.expired) && Unmoved(s, c.id, c.expected)
    && CacheKey(s.proposals[c.id].target, c.key) !in s.results
  }

  /**
   * An accepted commit whose record reaches the journal applies the proposal's operations to its target as
   * one batch, undoable by the server's own client, replies with what was applied and remembers the reply;
   * no other target and, as long as there is room, no other reply changes.
   */
  lemma AcceptedApplies(s: Server, c: Call)
    requires Acceptable(s, c) && s.proposals[c.id].ops.Some? && c.appended
    ensures
      var (next, reply) := Commit(s, c);
      var target, batch := s.proposals[c.id].target, Batch(s.proposals[c.id].ops.value);
      && target in s.targets && next.targets.Keys == s.targets.Keys
      && (forall t :: t in s.targets && t != target ==> next.targets[t] == s.targets[t])
      && var before, after := s.targets[target], next.targets[target];
         && after.project == After(batch, before.project.(opSeq := before.project.opSeq + 1))
         && reply == Committed(c.id, Applied(batch, before.project.(opSeq := before.project.opSeq + 1)))
         && StackOf(after, "mcp").undo == StackOf(before, "mcp").undo + [reply.applied]
         && next.applied == s.applied + [c.id] && next.proposals == s.proposals
         && CacheKey(target, c.key) in next.results && next.results[CacheKey(target, c.key)] == reply
         && forall k :: k in s.results && (k != c.evicted || |s.results| < 1024) ==>
              k in next.results && next.results[k] == s.results[k]
  {
    hide Apply;
  }

  /** One whose record does not reach it is refused and not remembered, although the edit stays in memory. */
  lemma LostEditRefused(s: Server, c: Call)
    requires Acceptable(s, c) && s.proposals[c.id].ops.Some? && !c.appended
    ensures
      var (next, reply) := Commit(s, c);
      && reply == Refused(EditRejected) && next.results == s.results && next.proposals == s.proposals
      && var target, batch := s.proposals[c.id].target, Batch(s.proposals[c.id].ops.value);
         && target in s.targets && target in next.targets
         && next.targets[target].history == s.targets[target].history
         && next.targets[target].disk == s.targets[target].disk
         && next.targets[target].project ==
              After(batch, s.targets[target].project.(opSeq := s.targets[target].project.opSeq + 1))
  {
    hide Apply;
  }

  /** One whose operations are not usable changes nothing. */
  lemma UnusableRefused(s: Server, c: Call)
    requires Acceptable(s, c) && s.proposals[c.id].ops.None?
    ensures Commit(s, c) == (s, Refused(EditRejected))
  {
  }

  /** Once applied, committing a proposal again changes nothing and never runs it. */
  lemma RetryIsHarmless(steps: seq<Step>, c: Call)
    requires c.id in Run(INITIAL, steps).applied
    ensures var s := Run(INITIAL, steps);
      && Commit(s, c).0 == s && c.id in s.proposals
      && (KeyOk(c.key) && !c.expired ==>
           var cacheKey := CacheKey(s.proposals[c.id].target, c.key);
           Commit(s, c).1 == if cacheKey in s.results then s.results[cacheKey] else Refused(RevisionConflict))
  {
    RunKeeps(steps);
    hide Run, Executed, Remembered;
    assert Past(Run(INITIAL, steps), c.id);
  }

  /** Until it is forgotten, the same call gets the same reply. */
  lemma RetryRepeats(s: Server, c: Call, again: Call)
    requires Commit(s, c).1.Committed? && CommitChange(s, c.id, c.expected, c.key, c.expired).Accept?
    requires again.id == c.id && again.key == c.key && !again.expired
    ensures Commit(Commit(s, c).0, again) == (Commit(s, c).0, Commit(s, c).1)
  {
    hide Handled;
  }

  /** The cache does not look at the proposal: a key used before answers for another proposal of the target. */
  lemma KeyReuseSkips(s: Server, c: Call, other: Call)
    requires Commit(s, c).1.Committed? && CommitChange(s, c.id, c.expected, c.key, c.expired).Accept?
    requires other.id in s.proposals && s.proposals[other.id].target == s.proposals[c.id].target
    requires other.key == c.key && !other.expired
    ensures Commit(Commit(s, c).0, other).1 == Commit(s, c).1
    ensures Commit(Commit(s, c).0, other).0 == Commit(s, c).0
  {
    hide Handled;
  }

  // ---------------------------------------------------------------- the shared state

  class Desk {
    var targets: map<nat, Writer.State>
    var proposals: map<nat, Proposal>
    var results: map<CacheKey, Reply>
    ghost var usedTargets: set<nat>
    ghost var usedProposals: set<nat>
    ghost var applied: seq<nat>

    ghost function View(): Server
      reads this
    {
      Server(targets, proposals, results, usedTargets, usedProposals, applied)
    }

    constructor ()
      ensures View() == INITIAL
    {
      targets, proposals, results := map[], map[], map[];
      usedTargets, usedProposals, applied := {}, {}, [];
    }

    /** The checks only read. */
    method Check(id: nat, expected: nat, key: string, expired: bool) returns (verdict: Verdict)
      ensures verdict == CommitChange(View(), id, expected, key, expired)
    {
      if !KeyOk(key) {
        return Deny(InvalidArgument);
      }
      if id !in proposals {
        return Deny(ProposalNotFound);
      }
      if expired {
        return Deny(ProposalExpired);
      }
      var proposal := proposals[id];
      var cacheKey := CacheKey(proposal.target, key);
      if cacheKey in results {
        return Cached(results[cacheKey]);
      }
      var current := if proposal.target in targets then Some(targets[proposal.target].project.opSeq) else None;
      if expected != proposal.revision || current != Some(expected) {
        return Deny(RevisionConflict);
      }
      verdict := Accept(proposal);
    }

    /** One commit call: check, run the edit, remember a success. */
    method Serve(c: Call) returns (reply: Reply)
      requires Invariant(View()) && Enabled(View(), CommitCall(c))
      modifies this
      ensures (View(), reply) == Commit(old(View()), c)
      ensures Invariant(View())
    {
      hide Handled, Invariant;
      CommitKeeps(View(), c);
      var verdict := Check(c.id, c.expected, c.key, c.expired);
      match verdict {
        case Deny(error) => reply := Refused(error);
        case Cached(cached) => reply := cached;
        case Accept(proposal) =>
          if proposal.ops.None? {
            reply := Refused(EditRejected);
          } else {
            var (next, r) := Handled(targets[proposal.target], ApplyOp(CLIENT, Batch(proposal.ops.value)), c.appended);
            targets := targets[proposal.target := next];
            applied := applied + [c.id];
            reply := if r.Some? then Committed(c.id, r.value) else Refused(EditRejected);
          }
          if !reply.Refused? {
            if |results| >= MAX_EDIT_RESULTS {
              results := results - {c.evicted};
            }
            results := results[CacheKey(proposal.target, c.key) := reply];
          }
      }
    }
  }
}
