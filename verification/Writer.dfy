/** The single writer of a project: apply, undo and redo per client over one journaled state. */
module Writer {
  import opened Prelude
  import opened Ops
  import opened Undo
  import opened Recovery

  datatype Stack = Stack(undo: seq<Op>, redo: seq<Op>)

  datatype Request = ApplyOp(client: string, op: Op) | UndoLast(client: string) | RedoLast(client: string)

  /** What the writer owns: the project, its durable state and every client's history. */
  datatype State = State(project: Project, disk: Disk, history: map<string, Stack>)

  function StackOf(s: State, client: string): Stack {
    if client in s.history then s.history[client] else Stack([], [])
  }

  function Moved(p: Project): Project { p.(opSeq := p.opSeq + 1) }

  /** The project after `op` with the counter moved, and the disk once its record is appended. */
  function Logged(s: State, op: Op, appended: bool): State {
    var (applied, after) := Apply(op, Moved(s.project));
    s.(project := after,
       disk := if appended then s.disk.(journal := s.disk.journal + [Record(s.project.opSeq + 1, applied)]) else s.disk)
  }

  /** `apply_one`. A failed append leaves the effect in memory but neither on disk nor in the history. */
  function ApplyStep(s: State, client: string, op: Op, appended: bool): (State, Option<Op>) {
    var next, applied := Logged(s, op, appended), Applied(op, Moved(s.project));
    if !appended then (next, None)
    else
      var stack := StackOf(s, client);
      (next.(history := s.history[client := Stack(stack.undo + [applied], [])]), Some(applied))
  }

  /** `undo_one`. An operation without an inverse is dropped from the history. */
  function UndoStep(s: State, client: string, appended: bool): (State, Option<Op>) {
    var stack := StackOf(s, client);
    if stack.undo == [] then (s, None)
    else
      var last, rest := stack.undo[|stack.undo| - 1], stack.undo[..|stack.undo| - 1];
      var inverse := Inverse(last);
      var popped := s.(history := s.history[client := Stack(rest, stack.redo)]);
      if inverse.None? then (popped, None)
      else
        var next, applied := Logged(popped, inverse.value, appended), Applied(inverse.value, Moved(s.project));
        if !appended then (next, None)
        else (next.(history := s.history[client := Stack(rest, stack.redo + [last])]), Some(applied))
  }

  /** `redo_one`. */
  function RedoStep(s: State, client: string, appended: bool): (State, Option<Op>) {
    var stack := StackOf(s, client);
    if stack.redo == [] then (s, None)
    else
      var op, rest := stack.redo[|stack.redo| - 1], stack.redo[..|stack.redo| - 1];
      var popped := s.(history := s.history[client := Stack(stack.undo, rest)]);
      var next, applied := Logged(popped, op, appended), Applied(op, Moved(s.project));
      if !appended then (next, None)
      else (next.(history := s.history[client := Stack(stack.undo + [applied], rest)]), Some(applied))
  }

  function Handled(s: State, request: Request, appended: bool): (State, Option<Op>) {
    match request
    case ApplyOp(client, op) => ApplyStep(s, client, op, appended)
    case UndoLast(client) => UndoStep(s, client, appended)
    case RedoLast(client) => RedoStep(s, client, appended)
  }

  /** The operation a request logs, if it gets that far. */
  function LoggedOp(s: State, request: Request): Option<Op> {
    match request
    case ApplyOp(_, op) => Some(op)
    case UndoLast(client) =>
      var undo := StackOf(s, client).undo;
      if undo == [] then None else Inverse(undo[|undo| - 1])
    case RedoLast(client) =>
      var redo := StackOf(s, client).redo;
      if redo == [] then None else Some(redo[|redo| - 1])
  }

  /** Every request changes project and disk by logging one operation, or not at all. */
  lemma HandledLogs(s: State, request: Request, appended: bool)
    ensures var (next, r) := Handled(s, request, appended);
      var op := LoggedOp(s, request);
      && (if op.None? then next.project == s.project && next.disk == s.disk && r.None?
          else next.project == Logged(s, op.value, appended).project
               && next.disk == Logged(s, op.value, appended).disk
               && r == if appended then Some(Applied(op.value, Moved(s.project))) else None)
  {
    hide Apply, Inverse;
  }

  // ---------------------------------------------------------------- durability

  /**
   * Reopening the disk gives the live project up to stamps after `cut`; `cut` is the counter of the
   * last snapshot, or where the session started.
   */
  ghost predicate Recoverable(base: Project, s: State, cut: nat) {
    cut <= s.project.opSeq && Open(base, s.disk) == Lowered(s.project, cut)
  }

  /** What every reachable state satisfies, whether or not its appends succeeded. */
  ghost predicate Sound(base: Project, s: State) {
    && GrownFrom(base, s.project)
    && StampsBelow(s.project, s.project.opSeq + 2)
    && RecordsUpTo(s.disk.journal, s.project.opSeq)
    && Increasing(s.disk.journal)
    && SnapshotSeq(base, s.disk) <= s.project.opSeq
  }

  lemma LoggedSound(base: Project, s: State, op: Op, appended: bool)
    requires Sound(base, s)
    ensures Sound(base, Logged(s, op, appended))
    ensures Logged(s, op, appended).project.opSeq == s.project.opSeq + 1
  {
    hide Apply, GrownFrom, StampsBelow;
    var moved := Moved(s.project);
    assert GrownFrom(base, moved) by { MovedGrows(base, s.project); }
    assert StampsBelow(moved, moved.opSeq + 2) by { MovedStamps(s.project); }
    AfterGrows(op, base, moved);
    AfterStamps(op, moved);
    AfterKeepsSeq(op, moved);
    var journal := s.disk.journal;
    assert forall k :: 0 <= k < |journal| ==> journal[k] in journal;
  }

  lemma MovedStamps(p: Project)
    requires StampsBelow(p, p.opSeq + 2)
    ensures StampsBelow(Moved(p), Moved(p).opSeq + 2)
  {
  }

  lemma MovedGrows(base: Project, p: Project)
    requires GrownFrom(base, p)
    ensures GrownFrom(base, Moved(p))
  {
  }

  lemma LoggedRecoverable(base: Project, s: State, op: Op, cut: nat)
    requires Recoverable(base, s, cut)
    ensures Recoverable(base, Logged(s, op, true), cut)
    ensures TailLength(Logged(s, op, true).disk.journal, cut) == TailLength(s.disk.journal, cut) + 1
  {
    hide Apply, Open, Lowered;
    RecordedStep(base, s.disk, s.project, op, cut);
    AfterKeepsSeq(op, Moved(s.project));
    var r := Record(s.project.opSeq + 1, Applied(op, Moved(s.project)));
    assert (s.disk.journal + [r])[..|s.disk.journal|] == s.disk.journal;
  }

  /** An accepted request moves the counter by exactly one and keeps the state recoverable. */
  lemma HandledRecoverable(base: Project, s: State, request: Request, appended: bool, cut: nat)
    requires Sound(base, s)
    ensures var (next, r) := Handled(s, request, appended);
      && Sound(base, next)
      && next.disk.snapshot == s.disk.snapshot
      && next.project.opSeq == s.project.opSeq + (if LoggedOp(s, request).Some? then 1 else 0)
      && (Recoverable(base, s, cut) && appended ==> Recoverable(base, next, cut))
      && (Recoverable(base, s, cut) && LoggedOp(s, request).None? ==> Recoverable(base, next, cut))
      && (cut <= s.project.opSeq ==>
           TailLength(next.disk.journal, cut) ==
             TailLength(s.disk.journal, cut) + (if LoggedOp(s, request).Some? && appended then 1 else 0))
  {
    hide Handled, LoggedOp, Open, GrownFrom, StampsBelow, Increasing, Apply;
    HandledLogs(s, request, appended);
    var op := LoggedOp(s, request);
    if op.Some? {
      LoggedSound(base, s, op.value, appended);
      LoggedTail(s, op.value, appended, cut);
      if Recoverable(base, s, cut) && appended {
        LoggedRecoverable(base, s, op.value, cut);
      }
    }
  }

  lemma LoggedTail(s: State, op: Op, appended: bool, cut: nat)
    ensures cut <= s.project.opSeq ==>
      TailLength(Logged(s, op, appended).disk.journal, cut) ==
        TailLength(s.disk.journal, cut) + (if appended then 1 else 0)
  {
    hide Apply;
    var r := Record(s.project.opSeq + 1, Applied(op, Moved(s.project)));
    assert (s.disk.journal + [r])[..|s.disk.journal|] == s.disk.journal;
  }

  // ---------------------------------------------------------------- whole runs

  const CHECKPOINT_OPS := 256

  /** One turn of the loop: a request, and how its journal append and a checkpoint's save turn out. */
  datatype Event = Event(request: Request, appended: bool, save: SaveResult)

  /** The loop between turns; `cut` is the counter of the last snapshot, or where the run started. */
  datatype Loop = Loop(state: State, opsSinceSave: nat, cut: nat)

  function TurnStep(l: Loop, e: Event): (Loop, Option<Op>) {
    var (next, r) := Handled(l.state, e.request, e.appended);
    if l.opsSinceSave + 1 < CHECKPOINT_OPS then (Loop(next, l.opsSinceSave + 1, l.cut), r)
    else
      (Loop(next.(disk := SavedDisk(next.disk, next.project, e.save)), 0,
            if e.save.SnapshotFailed? then l.cut else next.project.opSeq), r)
  }

  function RunTurns(l: Loop, events: seq<Event>): Loop {
    if events == [] then l else TurnStep(RunTurns(l, events[..|events| - 1]), events[|events| - 1]).0
  }

  /** One if the request logs an operation, zero if there was nothing to undo or redo. */
  function Logs(l: Loop, e: Event): (r: nat)
    ensures r <= 1
  {
    if LoggedOp(l.state, e.request).Some? then 1 else 0
  }

  /** How many of the requests logged an operation. */
  function Accepted(l: Loop, events: seq<Event>): nat {
    if events == [] then 0
    else
      var before := events[..|events| - 1];
      Accepted(l, before) + Logs(RunTurns(l, before), events[|events| - 1])
  }

  /** Records a reopening replays: those above the snapshot on disk, whichever session wrote them. */
  function Tail(base: Project, disk: Disk): nat {
    TailLength(disk.journal, SnapshotSeq(base, disk))
  }

  /** Reopening now loses nothing but stamps. */
  ghost predicate Durable(base: Project, l: Loop) {
    && Sound(base, l.state)
    && Recoverable(base, l.state, l.cut)
    && l.opsSinceSave < CHECKPOINT_OPS
  }

  /** A successful snapshot covers everything, whether or not the journal was truncated. */
  lemma SavedSound(base: Project, s: State, save: SaveResult)
    requires Sound(base, s) && !save.SnapshotFailed?
    ensures var disk := SavedDisk(s.disk, s.project, save);
      && Sound(base, s.(disk := disk)) && Open(base, disk) == s.project
      && SnapshotSeq(base, disk) == s.project.opSeq && Tail(base, disk) == 0
      && Lowered(s.project, s.project.opSeq) == s.project
  {
    hide Open, Lowered, GrownFrom, StampsBelow, Newer;
    SavedOpens(base, s.disk, s.project, save);
    LoweredIff(s.project, s.project.opSeq);
    TailEmpty(s.disk.journal, s.project.opSeq);
    TailEmpty(SavedDisk(s.disk, s.project, save).journal, s.project.opSeq);
  }

  lemma TurnDurable(base: Project, l: Loop, e: Event)
    requires Durable(base, l) && e.appended && !e.save.SnapshotFailed?
    ensures var next := TurnStep(l, e).0;
      && Durable(base, next)
      && next.state.project.opSeq == l.state.project.opSeq + Logs(l, e)
      && next.opsSinceSave == (if l.opsSinceSave + 1 < CHECKPOINT_OPS then l.opsSinceSave + 1 else 0)
      && Tail(base, next.state.disk) ==
           if l.opsSinceSave + 1 < CHECKPOINT_OPS then Tail(base, l.state.disk) + Logs(l, e) else 0
  {
    hide Handled, LoggedOp, Open, Lowered, Sound, TailLength, SavedDisk;
    HandledRecoverable(base, l.state, e.request, true, l.cut);
    assert SnapshotSeq(base, l.state.disk) <= l.state.project.opSeq by { SoundSnapshot(base, l.state); }
    HandledRecoverable(base, l.state, e.request, true, SnapshotSeq(base, l.state.disk));
    var next := Handled(l.state, e.request, true).0;
    if l.opsSinceSave + 1 >= CHECKPOINT_OPS {
      SavedSound(base, next, e.save);
    }
  }

  lemma SoundSnapshot(base: Project, s: State)
    requires Sound(base, s)
    ensures SnapshotSeq(base, s.disk) <= s.project.opSeq
  {
  }

  ghost predicate Succeeds(events: seq<Event>) {
    forall e :: e in events ==> e.appended && !e.save.SnapshotFailed?
  }

  /**
   * With every append and snapshot succeeding, whatever the clients interleave: the counter moves by
   * one per accepted request, and the disk reopens to the live project up to the stamps after the
   * last snapshot (exactly, if there are none).
   */
  lemma {:induction false} RunDurable(base: Project, l: Loop, events: seq<Event>)
    requires Durable(base, l) && Succeeds(events)
    ensures var end := RunTurns(l, events);
      && Durable(base, end)
      && end.state.project.opSeq == l.state.project.opSeq + Accepted(l, events)
      && Open(base, end.state.disk) == Lowered(end.state.project, end.cut)
      && (Open(base, end.state.disk) == end.state.project <==> StampsBelow(end.state.project, end.cut + 2))
    decreases |events|
  {
    hide TurnStep, Logs, Open, Lowered, Sound, StampsBelow, TailLength;
    if events != [] {
      RunDurable(base, l, events[..|events| - 1]);
      assert events[|events| - 1] in events;
      TurnDurable(base, RunTurns(l, events[..|events| - 1]), events[|events| - 1]);
    }
    LoweredIff(RunTurns(l, events).state.project, RunTurns(l, events).cut);
  }

  /** How many of the last `k` requests logged an operation. */
  function AcceptedLast(l: Loop, events: seq<Event>, k: nat): (r: nat)
    requires k <= |events|
    ensures r <= k
  {
    if k == 0 then 0
    else
      var before := events[..|events| - 1];
      AcceptedLast(l, before, k - 1) + Logs(RunTurns(l, before), events[|events| - 1])
  }

  /** Until the session's first checkpoint the tail is what it found on disk and everything it logged. */
  lemma {:induction false} TailBefore(base: Project, l: Loop, events: seq<Event>)
    requires Durable(base, l) && Succeeds(events) && l.opsSinceSave + |events| < CHECKPOINT_OPS
    ensures RunTurns(l, events).opsSinceSave == l.opsSinceSave + |events|
    ensures Tail(base, RunTurns(l, events).state.disk) == Tail(base, l.state.disk) + Accepted(l, events)
    decreases |events|
  {
    hide Durable, Succeeds, Tail, TurnStep, Logs, Open, Lowered, StampsBelow;
    if events != [] {
      var before := events[..|events| - 1];
      SucceedsStep(events);
      TailBefore(base, l, before);
      RunDurable(base, l, before);
      TurnDurable(base, RunTurns(l, before), events[|events| - 1]);
    }
  }

  /** What is left to replay is what the last turns since a checkpoint logged. */
  ghost predicate TailIsRecent(base: Project, l: Loop, events: seq<Event>) {
    var end := RunTurns(l, events);
    && end.opsSinceSave <= |events| && end.opsSinceSave < CHECKPOINT_OPS
    && Tail(base, end.state.disk) == AcceptedLast(l, events, end.opsSinceSave)
  }

  lemma LastTurn(l: Loop, before: seq<Event>, e: Event)
    ensures RunTurns(l, before + [e]) == TurnStep(RunTurns(l, before), e).0
    ensures AcceptedLast(l, before + [e], 0) == 0
    ensures forall k :: 0 <= k <= |before| ==>
      AcceptedLast(l, before + [e], k + 1) == AcceptedLast(l, before, k) + Logs(RunTurns(l, before), e)
  {
    hide TurnStep, Logs;
    assert (before + [e])[..|before|] == before;
  }

  /** A turn that reaches a checkpoint leaves nothing to replay. */
  lemma CheckpointTail(base: Project, l: Loop, before: seq<Event>, e: Event)
    requires Durable(base, RunTurns(l, before)) && e.appended && !e.save.SnapshotFailed?
    requires RunTurns(l, before).opsSinceSave + 1 == CHECKPOINT_OPS
    ensures TailIsRecent(base, l, before + [e])
  {
    hide Durable, Tail, TurnStep, RunTurns, AcceptedLast, Logs;
    TurnDurable(base, RunTurns(l, before), e);
    LastTurn(l, before, e);
  }

  lemma RecentTail(base: Project, l: Loop, before: seq<Event>, e: Event)
    requires Durable(base, RunTurns(l, before)) && e.appended && !e.save.SnapshotFailed?
    requires TailIsRecent(base, l, before) && RunTurns(l, before).opsSinceSave + 1 < CHECKPOINT_OPS
    ensures TailIsRecent(base, l, before + [e])
  {
    hide Durable, Tail, TurnStep, RunTurns, AcceptedLast, Logs;
    TurnDurable(base, RunTurns(l, before), e);
    LastTurn(l, before, e);
  }

  /** From then on it is what was logged since the last checkpoint. */
  lemma {:induction false} TailAfter(base: Project, l: Loop, events: seq<Event>)
    requires Durable(base, l) && Succeeds(events) && l.opsSinceSave + |events| >= CHECKPOINT_OPS
    ensures TailIsRecent(base, l, events)
    decreases |events|
  {
    assert l.opsSinceSave < CHECKPOINT_OPS;
    hide Durable, Succeeds, Tail, RunTurns, Accepted, AcceptedLast;
    SucceedsStep(events);
    var before, e := events[..|events| - 1], events[|events| - 1];
    assert before + [e] == events;
    RunDurable(base, l, before);
    if l.opsSinceSave + |before| < CHECKPOINT_OPS {
      TailBefore(base, l, before);
      CheckpointTail(base, l, before, e);
    } else {
      TailAfter(base, l, before);
      if RunTurns(l, before).opsSinceSave + 1 == CHECKPOINT_OPS {
        CheckpointTail(base, l, before, e);
      } else {
        hide TailIsRecent;
        RecentTail(base, l, before, e);
      }
    }
  }

  lemma SucceedsStep(events: seq<Event>)
    requires Succeeds(events) && events != []
    ensures Succeeds(events[..|events| - 1])
    ensures events[|events| - 1].appended && !events[|events| - 1].save.SnapshotFailed?
  {
    assert events[|events| - 1] in events;
  }

  /** Fewer than 256 records are replayed exactly when a checkpoint was reached or little was found. */
  lemma RunTailIff(base: Project, l: Loop, events: seq<Event>)
    requires Durable(base, l) && Succeeds(events)
    ensures Tail(base, RunTurns(l, events).state.disk) < CHECKPOINT_OPS <==>
      || l.opsSinceSave + |events| >= CHECKPOINT_OPS
      || Tail(base, l.state.disk) + Accepted(l, events) < CHECKPOINT_OPS
  {
    hide Durable, RunTurns, Accepted, Tail;
    if l.opsSinceSave + |events| < CHECKPOINT_OPS {
      TailBefore(base, l, events);
    } else {
      TailAfter(base, l, events);
    }
  }

  // ---------------------------------------------------------------- sessions

  /** The loop of a session that opens this disk. */
  function Reopened(base: Project, disk: Disk): Loop {
    Loop(State(Open(base, disk), disk, map[]), 0, Open(base, disk).opSeq)
  }

  lemma LoweredSound(base: Project, s: State, cut: nat)
    requires Sound(base, s)
    ensures Sound(base, s.(project := Lowered(s.project, cut), history := map[]))
  {
    var p, q := s.project, Lowered(s.project, cut);
    forall e | e in q.aliases ensures e.seqNo < q.opSeq + 2 {
      var i :| 0 <= i < |q.aliases| && q.aliases[i] == e;
      assert p.aliases[i] in p.aliases;
    }
  }

  /** Reopening a durable disk starts a durable session, with the tail that was left on it. */
  lemma ReopenDurable(base: Project, l: Loop)
    requires Durable(base, l)
    ensures Durable(base, Reopened(base, l.state.disk))
    ensures ReplayCount(if l.state.disk.snapshot.Some? then Restore(base, l.state.disk.snapshot.value) else base,
                        l.state.disk.journal) == Tail(base, l.state.disk)
  {
    hide Open, Lowered, GrownFrom, StampsBelow, Restore, TailLength, ReplayCount;
    var disk := l.state.disk;
    assert Increasing(disk.journal);
    var p := if disk.snapshot.Some? then Restore(base, disk.snapshot.value) else base;
    assert p.opSeq == SnapshotSeq(base, disk) by { RestoreSeq(base, disk); }
    ReplaysTail(p, disk.journal);
    LoweredSound(base, l.state, l.cut);
    LoweredKeepsSeq(l.state.project, l.cut);
    var q := Open(base, disk);
    assert Sound(base, State(q, disk, map[]));
    assert Lowered(q, q.opSeq) == q by { LoweredIff(q, q.opSeq); }
  }

  lemma LoweredKeepsSeq(p: Project, cut: nat)
    ensures Lowered(p, cut).opSeq == p.opSeq
  {
  }

  lemma RestoreSeq(base: Project, disk: Disk)
    ensures disk.snapshot.Some? ==> Restore(base, disk.snapshot.value).opSeq == SnapshotSeq(base, disk)
  {
  }

  /** A session: its turns, and whether it ends in a crash or in a close that saves. */
  datatype Session = Session(events: seq<Event>, closing: Option<SaveResult>)

  /** What a session leaves on disk. */
  function AfterSession(base: Project, disk: Disk, session: Session): Disk {
    var end := RunTurns(Reopened(base, disk), session.events).state;
    if session.closing.Some? then SavedDisk(end.disk, end.project, session.closing.value) else end.disk
  }

  function AfterSessions(base: Project, disk: Disk, sessions: seq<Session>): Disk {
    if sessions == [] then disk
    else AfterSession(base, AfterSessions(base, disk, sessions[..|sessions| - 1]), sessions[|sessions| - 1])
  }

  /** Everything the sessions log. */
  function TotalAccepted(base: Project, disk: Disk, sessions: seq<Session>): nat {
    if sessions == [] then 0
    else
      var before := sessions[..|sessions| - 1];
      TotalAccepted(base, disk, before) +
        Accepted(Reopened(base, AfterSessions(base, disk, before)), sessions[|sessions| - 1].events)
  }

  ghost predicate AllSucceed(sessions: seq<Session>) {
    forall s :: s in sessions ==> Succeeds(s.events) && (s.closing.Some? ==> !s.closing.value.SnapshotFailed?)
  }

  lemma SessionDurable(base: Project, disk: Disk, session: Session)
    requires Durable(base, Reopened(base, disk)) && AllSucceed([session])
    ensures Durable(base, Reopened(base, AfterSession(base, disk, session)))
    ensures var end := RunTurns(Reopened(base, disk), session.events);
      if session.closing.Some? then
        Tail(base, AfterSession(base, disk, session)) == 0 && Open(base, AfterSession(base, disk, session)) == end.state.project
      else
        AfterSession(base, disk, session) == end.state.disk
  {
    hide Reopened, RunTurns, Sound, Recoverable, Tail, SavedDisk, Open, Lowered, Increasing;
    assert session in [session];
    var l := Reopened(base, disk);
    RunDurable(base, l, session.events);
    var end := RunTurns(l, session.events);
    if session.closing.Some? {
      SavedSound(base, end.state, session.closing.value);
      var saved := Loop(end.state.(disk := SavedDisk(end.state.disk, end.state.project, session.closing.value)), 0,
                        end.state.project.opSeq);
      assert Recoverable(base, saved.state, saved.cut) by { RecoveredSaved(base, saved); }
      ReopenDurable(base, saved);
    } else {
      ReopenDurable(base, end);
    }
  }

  lemma RecoveredSaved(base: Project, l: Loop)
    requires Open(base, l.state.disk) == l.state.project == Lowered(l.state.project, l.state.project.opSeq)
    requires l.cut == l.state.project.opSeq
    ensures Recoverable(base, l.state, l.cut)
  {
  }

  /** Any number of sessions, crashed or closed, leave a disk that reopens to a durable session. */
  lemma {:induction false} SessionsDurable(base: Project, disk: Disk, sessions: seq<Session>)
    requires Durable(base, Reopened(base, disk)) && AllSucceed(sessions)
    ensures Durable(base, Reopened(base, AfterSessions(base, disk, sessions)))
    decreases |sessions|
  {
    hide Durable, Reopened, AfterSession;
    if sessions != [] {
      SessionsDurable(base, disk, sessions[..|sessions| - 1]);
      assert sessions[|sessions| - 1] in sessions;
      SessionDurable(base, AfterSessions(base, disk, sessions[..|sessions| - 1]), sessions[|sessions| - 1]);
    }
  }

  /** Short sessions that end in crashes pile up: no checkpoint, and every record stays to be replayed. */
  lemma {:induction false} CrashesAddUp(base: Project, disk: Disk, sessions: seq<Session>)
    requires Durable(base, Reopened(base, disk)) && AllSucceed(sessions)
    requires forall s :: s in sessions ==> s.closing.None? && |s.events| < CHECKPOINT_OPS
    ensures Tail(base, AfterSessions(base, disk, sessions)) == Tail(base, disk) + TotalAccepted(base, disk, sessions)
    decreases |sessions|
  {
    hide Durable, RunTurns, Accepted, Tail, Open;
    if sessions != [] {
      var before, last := sessions[..|sessions| - 1], sessions[|sessions| - 1];
      CrashesAddUp(base, disk, before);
      SessionsDurable(base, disk, before);
      assert last in sessions;
      TailBefore(base, Reopened(base, AfterSessions(base, disk, before)), last.events);
    }
  }

  /** `n` turns that each apply an operation. */
  function Edits(client: string, op: Op, n: nat): seq<Event> {
    seq(n, _ => Event(ApplyOp(client, op), true, Saved))
  }

  lemma {:induction false} EditsAccepted(l: Loop, client: string, op: Op, n: nat)
    ensures Accepted(l, Edits(client, op, n)) == n && Succeeds(Edits(client, op, n))
  {
    hide RunTurns;
    if n > 0 {
      assert Edits(client, op, n)[..n - 1] == Edits(client, op, n - 1);
      EditsAccepted(l, client, op, n - 1);
    }
  }

  /** Two sessions of 200 edits that each end in a crash leave 400 records to replay. */
  lemma TailOutgrowsCheckpoint(base: Project, client: string, op: Op)
    requires base.memory == map[] && base.aliases == []
    ensures var session := Session(Edits(client, op, 200), None);
      Tail(base, AfterSessions(base, Disk(None, []), [session, session])) == 400
  {
    hide Durable, RunTurns, Accepted, AfterSession, AfterSessions, Tail, Reopened, TotalAccepted, Edits;
    var disk, session := Disk(None, []), Session(Edits(client, op, 200), None);
    var sessions := [session, session];
    FreshDurable(base);
    assert sessions[..1] == [session] && [session][..0] == [];
    EditsAccepted(Reopened(base, disk), client, op, 200);
    EditsAccepted(Reopened(base, AfterSessions(base, disk, [session])), client, op, 200);
    assert |session.events| == 200 < CHECKPOINT_OPS && AllSucceed(sessions) by { EditsLength(client, op, 200); }
    CrashesAddUp(base, disk, sessions);
    TwoSessions(base, disk, session);
    NothingLeft(base);
  }

  lemma TwoSessions(base: Project, disk: Disk, session: Session)
    ensures TotalAccepted(base, disk, [session, session]) ==
      Accepted(Reopened(base, disk), session.events) +
      Accepted(Reopened(base, AfterSessions(base, disk, [session])), session.events)
  {
    hide Accepted, AfterSession, Reopened;
    var sessions := [session, session];
    assert sessions[..1] == [session] && [session][..0] == [];
    assert TotalAccepted(base, disk, [session]) == Accepted(Reopened(base, disk), session.events) by {
      assert AfterSessions(base, disk, [session][..0]) == disk;
      assert TotalAccepted(base, disk, [session][..0]) == 0;
    }
  }

  lemma NothingLeft(base: Project)
    ensures Tail(base, Disk(None, [])) == 0
  {
  }

  lemma EditsLength(client: string, op: Op, n: nat)
    ensures |Edits(client, op, n)| == n
  {
  }

  lemma FreshDurable(base: Project)
    requires base.memory == map[] && base.aliases == []
    ensures Durable(base, Reopened(base, Disk(None, [])))
  {
    LoweredIff(base, base.opSeq);
  }

  // ---------------------------------------------------------------- the writer

  class WriterLoop {
    var project: Project
    var disk: Disk
    var history: map<string, Stack>
    var opsSinceSave: nat
    /** The freshly analysed project every reopening starts from. */
    ghost const base: Project
    /** Counter of the last snapshot of this session, or of its start. */
    ghost var cut: nat
    /** Records above the snapshot that the session found on disk and has not covered since. */
    ghost var found: nat
    /** No append failed since `cut`. */
    ghost var clean: bool
    /** Checkpoints since `cut` whose snapshot failed. */
    ghost var missed: nat

    ghost function View(): State
      reads this
    {
      State(project, disk, history)
    }

    ghost function Now(): Loop
      reads this
    {
      Loop(View(), opsSinceSave, cut)
    }

    ghost predicate Valid()
      reads this
    {
      && Sound(base, View())
      && cut <= project.opSeq
      && (clean ==> Recoverable(base, View(), cut))
      && opsSinceSave < CHECKPOINT_OPS
      && Tail(base, disk) <= found + CHECKPOINT_OPS * missed + opsSinceSave
    }

    /** A session starts from what reopening gives. */
    constructor (base: Project, disk: Disk)
      requires Sound(base, State(Open(base, disk), disk, map[]))
      ensures Valid() && this.base == base && this.disk == disk
      ensures Now() == Reopened(base, disk) && clean && missed == 0 && found == Tail(base, disk)
    {
      hide Open, GrownFrom, Lowered;
      this.base := base;
      this.disk := disk;
      project := Open(base, disk);
      history := map[];
      opsSinceSave := 0;
      cut := Open(base, disk).opSeq;
      clean := true;
      missed := 0;
      found := Tail(base, disk);
      new;
      LoweredIff(project, cut);
    }

    method ApplyOne(client: string, op: Op, appended: bool) returns (r: Option<Op>)
      modifies this`project, this`disk, this`history
      ensures (View(), r) == ApplyStep(old(View()), client, op, appended)
    {
      project := project.(opSeq := project.opSeq + 1);
      var (applied, after) := Apply(op, project);
      project := after;
      if !appended {
        AfterKeepsSeq(op, Moved(old(project)));
        return None;
      }
      AfterKeepsSeq(op, Moved(old(project)));
      disk := disk.(journal := disk.journal + [Record(project.opSeq, applied)]);
      var stack := if client in history then history[client] else Stack([], []);
      history := history[client := Stack(stack.undo + [applied], [])];
      r := Some(applied);
    }

    method UndoOne(client: string, appended: bool) returns (r: Option<Op>)
      modifies this`project, this`disk, this`history
      ensures (View(), r) == UndoStep(old(View()), client, appended)
    {
      hide Inverse;
      if client !in history || history[client].undo == [] {
        return None;
      }
      var stack := history[client];
      var last := stack.undo[|stack.undo| - 1];
      stack := Stack(stack.undo[..|stack.undo| - 1], stack.redo);
      history := history[client := stack];
      var inverse := Inverse(last);
      if inverse.None? {
        return None;
      }
      project := project.(opSeq := project.opSeq + 1);
      var (applied, after) := Apply(inverse.value, project);
      project := after;
      AfterKeepsSeq(inverse.value, Moved(old(project)));
      if !appended {
        return None;
      }
      disk := disk.(journal := disk.journal + [Record(project.opSeq, applied)]);
      history := history[client := Stack(stack.undo, stack.redo + [last])];
      assert history == old(history)[client := Stack(stack.undo, stack.redo + [last])];
      r := Some(applied);
    }

    method RedoOne(client: string, appended: bool) returns (r: Option<Op>)
      modifies this`project, this`disk, this`history
      ensures (View(), r) == RedoStep(old(View()), client, appended)
    {
      if client !in history || history[client].redo == [] {
        return None;
      }
      var stack := history[client];
      var op := stack.redo[|stack.redo| - 1];
      stack := Stack(stack.undo, stack.redo[..|stack.redo| - 1]);
      history := history[client := stack];
      project := project.(opSeq := project.opSeq + 1);
      var (applied, after) := Apply(op, project);
      project := after;
      AfterKeepsSeq(op, Moved(old(project)));
      if !appended {
        return None;
      }
      disk := disk.(journal := disk.journal + [Record(project.opSeq, applied)]);
      history := history[client := Stack(stack.undo + [applied], stack.redo)];
      assert history == old(history)[client := Stack(stack.undo + [applied], stack.redo)];
      r := Some(applied);
    }

    /** One turn of `writer_loop`: the request, then a checkpoint every 256 requests. */
    method Turn(request: Request, appended: bool, save: SaveResult) returns (r: Option<Op>)
      requires Valid()
      modifies this
      ensures Valid()
      ensures (Now(), r) == TurnStep(old(Now()), Event(request, appended, save))
      ensures project.opSeq == old(project).opSeq + (if LoggedOp(old(View()), request).Some? then 1 else 0)
      ensures appended && old(clean) ==> clean
      ensures missed <= old(missed) + (if save.SnapshotFailed? then 1 else 0)
      ensures !save.SnapshotFailed? && old(missed) == 0 ==> missed == 0
      ensures found == old(found) || found == 0
    {
      hide LoggedOp, ApplyStep, UndoStep, RedoStep, Sound, Recoverable, TailLength;
      HandledRecoverable(base, View(), request, appended, cut);
      SoundSnapshot(base, View());
      HandledRecoverable(base, View(), request, appended, SnapshotSeq(base, disk));
      match request {
        case ApplyOp(client, op) => r := ApplyOne(client, op, appended);
        case UndoLast(client) => r := UndoOne(client, appended);
        case RedoLast(client) => r := RedoOne(client, appended);
      }
      clean := clean && (appended || LoggedOp(old(View()), request).None?);
      opsSinceSave := opsSinceSave + 1;
      if opsSinceSave >= CHECKPOINT_OPS {
        Checkpoint(save);
        opsSinceSave := 0;
      }
    }

    /** `project.save()` at a checkpoint. */
    method Checkpoint(save: SaveResult)
      requires Sound(base, View()) && cut <= project.opSeq && opsSinceSave == CHECKPOINT_OPS
      requires clean ==> Recoverable(base, View(), cut)
      requires Tail(base, disk) <= found + CHECKPOINT_OPS * missed + opsSinceSave
      modifies this`disk, this`cut, this`clean, this`missed, this`found
      ensures Sound(base, View()) && cut <= project.opSeq
      ensures clean ==> Recoverable(base, View(), cut)
      ensures old(clean) ==> clean
      ensures disk == SavedDisk(old(disk), project, save)
      ensures cut == if save.SnapshotFailed? then old(cut) else project.opSeq
      ensures Tail(base, disk) <= found + CHECKPOINT_OPS * missed
      ensures missed == if save.SnapshotFailed? then old(missed) + 1 else 0
      ensures found == if save.SnapshotFailed? then old(found) else 0
    {
      hide Open, Lowered, Sound, SavedDisk, TailLength;
      if save.SnapshotFailed? {
        assert SavedDisk(disk, project, save) == disk by { FailedDisk(disk, project, save); }
        missed := missed + 1;
      } else {
        SavedSound(base, View(), save);
        disk := SavedDisk(disk, project, save);
        cut := project.opSeq;
        clean := true;
        missed := 0;
        found := 0;
      }
    }
  }

  lemma FailedDisk(disk: Disk, p: Project, save: SaveResult)
    requires save.SnapshotFailed?
    ensures SavedDisk(disk, p, save) == disk
  {
  }
}
