/** One client's history: undo and redo move a cursor along a fixed timeline. */
module Session {
  import opened Batches
  import opened Leaves
  import opened Ops
  import opened Prelude
  import opened Restores
  import opened Undo
  import opened Writer

  // ---------------------------------------------------------------- recorded operations

  /** Applied in turn from `p`, the operations have nothing left to capture and each is undoable. */
  predicate Recorded(ops: seq<Op>, p: Project) {
    ops == [] || (Applied(ops[0], p) == ops[0] && Undoable(ops[0], p) && Recorded(ops[1..], After(ops[0], p)))
  }

  function Folded(ops: seq<Op>, p: Project): Project { ApplyAll(ops, p).1 }

  lemma FoldedStep(ops: seq<Op>, p: Project)
    requires ops != []
    ensures Folded(ops, p) == Folded(ops[1..], After(ops[0], p))
  {
    hide Captured, Effect;
  }

  lemma {:induction false} RecordedSplit(a: seq<Op>, b: seq<Op>, p: Project)
    ensures Recorded(a + b, p) <==> Recorded(a, p) && Recorded(b, Folded(a, p))
    ensures Folded(a + b, p) == Folded(b, Folded(a, p))
    decreases |a|
  {
    hide Apply, Undoable;
    ApplyAllSplit(a, b, p);
    if a == [] {
      assert a + b == b;
    } else {
      assert (a + b)[1..] == a[1..] + b;
      FoldedStep(a, p);
      RecordedSplit(a[1..], b, After(a[0], p));
    }
  }

  lemma RecordedOne(op: Op, p: Project)
    ensures Recorded([op], p) <==> Applied(op, p) == op && Undoable(op, p)
    ensures Folded([op], p) == After(op, p)
  {
    hide Apply, Undoable;
    Undo.ApplyOne(op, p);
    assert [op][1..] == [];
    assert Recorded([op][1..], After(op, p));
  }

  lemma SameMoved(p: Project)
    ensures Same(p, Moved(p))
  {
    hide AllUnstamped;
  }

  /** An operation undoable from `p`, once applied there, is recorded from equal content. */
  lemma AppliedRecorded(op: Op, p: Project, q: Project)
    requires Undoable(op, p) && Same(p, q)
    ensures Recorded([Applied(op, p)], q) && Same(Folded([Applied(op, p)], q), After(op, p))
  {
    hide Captured, Effect, Content;
    var applied := Applied(op, p);
    Replay(op, p, q);
    Replay(Inverse(applied).value, After(op, p), After(applied, q));
    RecordedOne(applied, q);
  }

  /** Undoing the last recorded operation gives the content before it. */
  lemma RecordedUndone(op: Op, q: Project, p: Project)
    requires Recorded([op], q) && Same(p, After(op, q))
    ensures Inverse(op).Some? && Same(After(Inverse(op).value, p), q)
  {
    hide Captured, Effect, Content;
    RecordedOne(op, q);
    Replay(Inverse(op).value, After(op, q), p);
  }

  /** Redoing a recorded operation repeats it and its effect. */
  lemma RecordedRedone(op: Op, q: Project, p: Project)
    requires Recorded([op], q) && Same(p, q)
    ensures Applied(op, p) == op && Same(After(op, p), After(op, q))
  {
    hide Captured, Effect, Content;
    RecordedOne(op, q);
    Replay(op, q, p);
  }

  // ---------------------------------------------------------------- the timeline

  function Reverse<T>(s: seq<T>): (r: seq<T>)
    ensures |r| == |s|
    ensures forall k :: 0 <= k < |s| ==> r[k] == s[|s| - 1 - k]
  {
    seq(|s|, i requires 0 <= i < |s| => s[|s| - 1 - i])
  }

  /** What the client did and still can redo, oldest first. */
  function Timeline(stack: Stack): seq<Op> {
    stack.undo + Reverse(stack.redo)
  }

  /** The client's undo stack, folded over the content it started from, is the current content. */
  predicate Tracked(start: Project, s: State, client: string) {
    && Recorded(Timeline(StackOf(s, client)), start)
    && Same(s.project, Folded(StackOf(s, client).undo, start))
  }

  lemma LastSplit<T>(s: seq<T>)
    requires s != []
    ensures s == s[..|s| - 1] + [s[|s| - 1]]
    ensures Reverse(s) == [s[|s| - 1]] + Reverse(s[..|s| - 1])
  {
  }

  /** The operation is as submitted, has something in it, and had something to go back to. */
  predicate Accepts(p: Project, op: Op) {
    FlatSingles(op);
    Fresh(op) && !Hollow(op) && FoundBefore(Flat(op), p)
  }

  lemma AcceptsUndoable(p: Project, op: Op)
    requires WellKept(p) && Accepts(p, op)
    ensures Undoable(op, Moved(p))
  {
    hide Undoable, Fresh, Hollow, Content, FoundBefore, Flat;
    SameMoved(p);
    MovedWellKept(p);
    BatchUndoIff(op, Moved(p));
    FoundBeforeSame(Flat(op), p, Moved(p));
  }

  lemma ApplyTracked(start: Project, s: State, client: string, op: Op)
    requires Tracked(start, s, client) && WellKept(s.project) && Accepts(s.project, op)
    ensures var next := ApplyStep(s, client, op, true).0;
      && Tracked(start, next, client)
      && StackOf(next, client) == Stack(StackOf(s, client).undo + [Applied(op, Moved(s.project))], [])
  {
    hide Apply, Undoable, Content, Recorded, Folded, WellKept, Accepts;
    var stack := StackOf(s, client);
    var q := Folded(stack.undo, start);
    SameMoved(s.project);
    AcceptsUndoable(s.project, op);
    var applied := Applied(op, Moved(s.project));
    RecordedSplit(stack.undo, Reverse(stack.redo), start);
    AppliedRecorded(op, Moved(s.project), q);
    RecordedSplit(stack.undo, [applied], start);
    assert Timeline(Stack(stack.undo + [applied], [])) == stack.undo + [applied];
  }

  lemma UndoTracked(start: Project, s: State, client: string)
    requires Tracked(start, s, client) && StackOf(s, client).undo != []
    ensures var (next, r) := UndoStep(s, client, true);
      var stack := StackOf(s, client);
      var last := |stack.undo| - 1;
      && r.Some? && Tracked(start, next, client)
      && StackOf(next, client) == Stack(stack.undo[..last], stack.redo + [stack.undo[last]])
      && Timeline(StackOf(next, client)) == Timeline(stack)
      && Same(next.project, Folded(stack.undo[..last], start))
  {
    hide Apply, Inverse, Undoable, Content, Recorded, Folded;
    var stack := StackOf(s, client);
    var rest, last := stack.undo[..|stack.undo| - 1], stack.undo[|stack.undo| - 1];
    LastSplit(stack.undo);
    RecordedSplit(stack.undo, Reverse(stack.redo), start);
    RecordedSplit(rest, [last], start);
    var q := Folded(rest, start);
    RecordedOne(last, q);
    SameMoved(s.project);
    RecordedUndone(last, q, Moved(s.project));
    LastSplit(stack.redo + [last]);
    assert (stack.redo + [last])[..|stack.redo|] == stack.redo;
    assert Timeline(Stack(rest, stack.redo + [last])) == Timeline(stack);
  }

  lemma RedoTracked(start: Project, s: State, client: string)
    requires Tracked(start, s, client) && StackOf(s, client).redo != []
    ensures var (next, r) := RedoStep(s, client, true);
      var stack := StackOf(s, client);
      var last := |stack.redo| - 1;
      && r == Some(stack.redo[last]) && Tracked(start, next, client)
      && StackOf(next, client) == Stack(stack.undo + [stack.redo[last]], stack.redo[..last])
      && Timeline(StackOf(next, client)) == Timeline(stack)
      && Same(next.project, Folded(stack.undo + [stack.redo[last]], start))
  {
    hide Apply, Inverse, Undoable, Content, Recorded, Folded;
    var stack := StackOf(s, client);
    var rest, op := stack.redo[..|stack.redo| - 1], stack.redo[|stack.redo| - 1];
    LastSplit(stack.redo);
    assert Timeline(stack) == (stack.undo + [op]) + Reverse(rest);
    RecordedSplit(stack.undo + [op], Reverse(rest), start);
    RecordedSplit(stack.undo, [op], start);
    var q := Folded(stack.undo, start);
    RecordedOne(op, q);
    SameMoved(s.project);
    RecordedRedone(op, q, Moved(s.project));
    assert Timeline(Stack(stack.undo + [op], rest)) == Timeline(stack);
  }

  // ---------------------------------------------------------------- whole sessions

  /** Requests handled in turn, every append succeeding. */
  function Run(s: State, requests: seq<Request>): State
    decreases |requests|
  {
    if requests == [] then s else Run(Handled(s, requests[0], true).0, requests[1..])
  }

  /** Only `client` writes, and the guard holds of what it applies where it is applied. */
  predicate Alone(s: State, client: string, requests: seq<Request>)
    decreases |requests|
  {
    requests == [] || (
      && requests[0].client == client
      && (requests[0].ApplyOp? ==> Accepts(s.project, requests[0].op))
      && Alone(Handled(s, requests[0], true).0, client, requests[1..]))
  }

  lemma HandledTracked(start: Project, s: State, client: string, request: Request)
    requires Tracked(start, s, client) && request.client == client && WellKept(s.project)
    requires request.ApplyOp? ==> Accepts(s.project, request.op)
    ensures Tracked(start, Handled(s, request, true).0, client)
  {
    match request
    case ApplyOp(_, op) =>
      hide *;
      assert Handled(s, request, true) == ApplyStep(s, client, op, true) by { HandledCase(s, request, client); }
      ApplyTracked(start, s, client, op);
    case UndoLast(_) =>
      if StackOf(s, client).undo != [] {
        hide *;
        assert Handled(s, request, true) == UndoStep(s, client, true) by { HandledCase(s, request, client); }
        UndoTracked(start, s, client);
      }
    case RedoLast(_) =>
      if StackOf(s, client).redo != [] {
        hide *;
        assert Handled(s, request, true) == RedoStep(s, client, true) by { HandledCase(s, request, client); }
        RedoTracked(start, s, client);
      }
  }

  lemma HandledCase(s: State, request: Request, client: string)
    requires request.client == client
    ensures request.ApplyOp? ==> Handled(s, request, true) == ApplyStep(s, client, request.op, true)
    ensures request.UndoLast? ==> Handled(s, request, true) == UndoStep(s, client, true)
    ensures request.RedoLast? ==> Handled(s, request, true) == RedoStep(s, client, true)
  {
    hide ApplyStep, UndoStep, RedoStep;
  }

  /** Through any session of one client the undo stack folded over the start is the content. */
  lemma {:induction false} SessionTracked(start: Project, s: State, client: string, requests: seq<Request>)
    requires Tracked(start, s, client) && Alone(s, client, requests) && WellKept(s.project)
    ensures Tracked(start, Run(s, requests), client) && WellKept(Run(s, requests).project)
    decreases |requests|
  {
    hide Tracked, Handled, Accepts, WellKept;
    if requests != [] {
      HandledTracked(start, s, client, requests[0]);
      HandledWellKept(s, requests[0], true);
      SessionTracked(start, Handled(s, requests[0], true).0, client, requests[1..]);
    }
  }

  /** A session that starts with an empty history is tracked from where it started. */
  lemma FreshTracked(s: State, client: string)
    requires client !in s.history
    ensures Tracked(s.project, s, client)
  {
    hide Content;
    assert Timeline(Stack([], [])) == [];
  }

  /**
   * A client's whole session, from an empty history on: whatever it applied, undid and redid, undoing
   * everything that is left gives back the content it started from.
   */
  lemma SessionUndone(s: State, client: string, requests: seq<Request>)
    requires client !in s.history && Alone(s, client, requests) && WellKept(s.project)
    ensures var end := Run(s, requests);
      Same(Run(end, Undos(client, |StackOf(end, client).undo|)).project, s.project)
  {
    hide Content, Alone, Run, Recorded, WellKept, StackOf;
    FreshTracked(s, client);
    SessionTracked(s.project, s, client, requests);
    var end := Run(s, requests);
    var k := |StackOf(end, client).undo|;
    UndosMove(s.project, end, client, k);
    var last := Run(end, Undos(client, k));
    assert StackOf(last, client).undo == [];
    assert Folded([], s.project) == s.project;
  }

  function Undos(client: string, k: nat): (r: seq<Request>)
    ensures |r| == k
  {
    seq(k, _ => UndoLast(client))
  }

  function Redos(client: string, k: nat): (r: seq<Request>)
    ensures |r| == k
  {
    seq(k, _ => RedoLast(client))
  }

  lemma {:induction false} RunSplit(s: State, a: seq<Request>, b: seq<Request>)
    ensures Run(s, a + b) == Run(Run(s, a), b)
    decreases |a|
  {
    hide Handled;
    if a == [] {
      assert a + b == b;
    } else {
      assert (a + b)[1..] == a[1..] + b;
      RunSplit(Handled(s, a[0], true).0, a[1..], b);
    }
  }

  /** `k` undos move the cursor back `k` operations. */
  lemma {:induction false} UndosMove(start: Project, s: State, client: string, k: nat)
    requires Tracked(start, s, client) && k <= |StackOf(s, client).undo|
    ensures var next := Run(s, Undos(client, k));
      && Tracked(start, next, client)
      && Timeline(StackOf(next, client)) == Timeline(StackOf(s, client))
      && |StackOf(next, client).undo| == |StackOf(s, client).undo| - k
    decreases k
  {
    hide UndoStep, StackOf, Tracked, Timeline;
    if k != 0 {
      UndoTracked(start, s, client);
      assert Undos(client, k)[1..] == Undos(client, k - 1);
      UndosMove(start, UndoStep(s, client, true).0, client, k - 1);
    }
  }

  lemma {:induction false} RedosMove(start: Project, s: State, client: string, k: nat)
    requires Tracked(start, s, client) && k <= |StackOf(s, client).redo|
    ensures var next := Run(s, Redos(client, k));
      && Tracked(start, next, client)
      && Timeline(StackOf(next, client)) == Timeline(StackOf(s, client))
      && |StackOf(next, client).undo| == |StackOf(s, client).undo| + k
    decreases k
  {
    hide RedoStep, StackOf, Tracked, Timeline;
    if k != 0 {
      RedoTracked(start, s, client);
      assert Redos(client, k)[1..] == Redos(client, k - 1);
      RedosMove(start, RedoStep(s, client, true).0, client, k - 1);
    }
  }

  lemma TimelineFixes(a: Stack, b: Stack)
    requires Timeline(a) == Timeline(b) && |a.undo| == |b.undo|
    ensures a == b
  {
    assert a.undo == Timeline(a)[..|a.undo|] == b.undo;
    assert Reverse(a.redo) == Timeline(a)[|a.undo|..] == Reverse(b.redo);
    assert a.redo == Reverse(Reverse(a.redo)) == Reverse(Reverse(b.redo)) == b.redo;
  }

  /** Any `k` undos followed by `k` redos change neither the content nor the history. */
  lemma UndosRedos(start: Project, s: State, client: string, k: nat)
    requires Tracked(start, s, client) && k <= |StackOf(s, client).undo|
    ensures var next := Run(s, Undos(client, k) + Redos(client, k));
      Same(next.project, s.project) && StackOf(next, client) == StackOf(s, client)
  {
    hide StackOf, Timeline, Run, Folded, Recorded, Content;
    var mid := Run(s, Undos(client, k));
    RunSplit(s, Undos(client, k), Redos(client, k));
    UndosMove(start, s, client, k);
    TimelineLength(StackOf(s, client));
    TimelineLength(StackOf(mid, client));
    RedosMove(start, mid, client, k);
    TimelineFixes(StackOf(Run(mid, Redos(client, k)), client), StackOf(s, client));
  }

  lemma TimelineLength(stack: Stack)
    ensures |Timeline(stack)| == |stack.undo| + |stack.redo|
  {
  }

  function Applies(client: string, ops: seq<Op>): seq<Request> {
    seq(|ops|, i requires 0 <= i < |ops| => ApplyOp(client, ops[i]))
  }

  /** Applying only pushes: the operations that were there stay, and redo is empty. */
  lemma {:induction false} AppliesPush(start: Project, s: State, client: string, ops: seq<Op>)
    requires Tracked(start, s, client) && Alone(s, client, Applies(client, ops)) && ops != [] && WellKept(s.project)
    ensures var next := Run(s, Applies(client, ops));
      && Tracked(start, next, client) && StackOf(next, client).redo == []
      && |StackOf(next, client).undo| == |StackOf(s, client).undo| + |ops|
      && StackOf(s, client).undo <= StackOf(next, client).undo
    decreases |ops|
  {
    hide ApplyStep, StackOf, Tracked, Accepts, WellKept, Apply;
    var next := ApplyStep(s, client, ops[0], true).0;
    ApplyTracked(start, s, client, ops[0]);
    HandledWellKept(s, ApplyOp(client, ops[0]), true);
    assert Applies(client, ops)[1..] == Applies(client, ops[1..]);
    if |ops| > 1 {
      AppliesPush(start, next, client, ops[1..]);
    } else {
      assert Applies(client, ops[1..]) == [];
    }
  }

  /** `n` undos after `n` applications restore the content and the undo stack. */
  lemma AppliesUndone(start: Project, s: State, client: string, ops: seq<Op>)
    requires Tracked(start, s, client) && Alone(s, client, Applies(client, ops)) && WellKept(s.project)
    ensures var next := Run(s, Applies(client, ops) + Undos(client, |ops|));
      Same(next.project, s.project) && StackOf(next, client).undo == StackOf(s, client).undo
  {
    hide StackOf, Run, Folded, Recorded, Content, Alone, WellKept;
    RunSplit(s, Applies(client, ops), Undos(client, |ops|));
    if ops == [] {
      assert Applies(client, ops) + Undos(client, 0) == [];
      RunNothing(s);
    } else {
      var mid := Run(s, Applies(client, ops));
      AppliesPush(start, s, client, ops);
      UndosMove(start, mid, client, |ops|);
      var a, b := StackOf(s, client), StackOf(Run(mid, Undos(client, |ops|)), client);
      var all := StackOf(mid, client).undo;
      assert Timeline(b) == all + Reverse<Op>([]) == all;
      assert b.undo == Timeline(b)[..|b.undo|] == all[..|a.undo|] == a.undo;
    }
  }

  lemma RunNothing(s: State)
    ensures Run(s, []) == s
  {
  }

  // ---------------------------------------------------------------- when a single undo restores

  /** Every request keeps cards stored under their own address. */
  lemma HandledWellKept(s: State, request: Request, appended: bool)
    requires WellKept(s.project)
    ensures WellKept(Handled(s, request, appended).0.project)
  {
    hide Apply, WellKept, Handled, LoggedOp;
    HandledLogs(s, request, appended);
    var op := LoggedOp(s, request);
    if op.Some? {
      MovedWellKept(s.project);
      AfterWellKept(op.value, Moved(s.project));
    }
  }

  lemma MovedWellKept(p: Project)
    requires WellKept(p)
    ensures WellKept(Moved(p))
  {
  }

  lemma RestorableMoved(op: Op, p: Project)
    requires !op.Batch?
    ensures Restorable(op, Moved(p)) <==> Restorable(op, p)
  {
    hide FindVar, IndexOf;
  }

  /** One undo right after an operation restores the content exactly when the operation can be undone. */
  lemma OneUndo(s: State, client: string, op: Op)
    requires !Hollow(op)
    ensures var next := Run(s, [ApplyOp(client, op), UndoLast(client)]);
      Same(next.project, s.project) <==> Undoable(op, Moved(s.project))
  {
    hide Apply, Inverse, Content, Hollow;
    var p := Moved(s.project);
    var mid := ApplyStep(s, client, op, true).0;
    var applied := Applied(op, p);
    assert StackOf(mid, client).undo == StackOf(s, client).undo + [applied];
    InverseIff(op, p);
    var inverse := Inverse(applied).value;
    var next := UndoStep(mid, client, true).0;
    assert next.project == After(inverse, Moved(After(op, p)));
    SameMoved(After(op, p));
    SameMoved(s.project);
    Replay(inverse, After(op, p), Moved(After(op, p)));
    var requests := [ApplyOp(client, op), UndoLast(client)];
    assert requests[1..] == [UndoLast(client)] && requests[1..][1..] == [];
    assert Run(s, requests) == Run(mid, requests[1..]) == Run(next, []) == next;
  }

  /** ... that is, for a single operation, when there was something to go back to, */
  lemma UndoRestoresIff(s: State, client: string, op: Op)
    requires !op.Batch? && Fresh(op) && WellKept(s.project)
    ensures var next := Run(s, [ApplyOp(client, op), UndoLast(client)]);
      Same(next.project, s.project) <==> Restorable(op, s.project)
  {
    hide Run, Undoable, Restorable, WellKept, Content, Fresh;
    MovedWellKept(s.project);
    UndoIff(op, Moved(s.project));
    RestorableMoved(op, s.project);
    OneUndo(s, client, op);
  }

  /** ... and for any other, when there was for each single operation in it that is not shadowed. */
  lemma BatchRestoresIff(s: State, client: string, op: Op)
    requires Fresh(op) && !Hollow(op) && WellKept(s.project)
    ensures Singles(Flat(op))
    ensures var next := Run(s, [ApplyOp(client, op), UndoLast(client)]);
      Same(next.project, s.project) <==> FoundBefore(Flat(op), s.project)
  {
    hide Run, Undoable, WellKept, Content, Fresh, Hollow, FoundBefore, Flat;
    FlatSingles(op);
    SameMoved(s.project);
    MovedWellKept(s.project);
    BatchUndoIff(op, Moved(s.project));
    FoundBeforeSame(Flat(op), s.project, Moved(s.project));
    OneUndo(s, client, op);
  }
}
