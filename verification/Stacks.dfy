/** Histories side by side: a client's stacks depend on its own requests only. */
module Stacks {
  import opened Ops
  import opened Prelude
  import opened Undo
  import opened Writer

  // ---------------------------------------------------------------- operations without what they captured

  /** The operation as somebody would submit it: without old values. */
  function Bare(op: Op): Op {
    match op
    case RenameSymbol(va, name, kind, _, _) => RenameSymbol(va, name, kind, None, None)
    case SetComment(va, scope, text, _) => SetComment(va, scope, text, None)
    case SetFocus(va, _) => SetFocus(va, None)
    case SetGlobalType(va, ty, _) => SetGlobalType(va, ty, None)
    case SetFunctionSignature(va, signature, _) => SetFunctionSignature(va, signature, None)
    case SetStackLocalType(va, offset, ty, _) => SetStackLocalType(va, offset, ty, None)
    case SetStackLocalName(va, offset, name, _) => SetStackLocalName(va, offset, name, None)
    case SetParamName(va, index, name, _) => SetParamName(va, index, name, None)
    case SetFunctionMemory(va, card, _) => SetFunctionMemory(va, card, None)
    case Batch(ops) => Batch(AllBare(ops))
  }

  function AllBare(ops: seq<Op>): (r: seq<Op>)
    ensures |r| == |ops|
    ensures forall i :: 0 <= i < |ops| ==> r[i] == Bare(ops[i])
  {
    if ops == [] then [] else [Bare(ops[0])] + AllBare(ops[1..])
  }

  /** Whatever project it is applied to, an operation captures old values and changes in nothing else. */
  lemma {:induction false} AppliedBare(op: Op, p: Project)
    ensures Bare(Applied(op, p)) == Bare(op)
    decreases op
  {
    if op.Batch? {
      hide Captured, Effect;
      AllAppliedBare(op.ops, p);
    } else {
      hide Padded, FindVar, Effect;
    }
  }

  lemma {:induction false} AllAppliedBare(ops: seq<Op>, p: Project)
    ensures AllBare(ApplyAll(ops, p).0) == AllBare(ops)
    decreases ops
  {
    hide Captured, Effect, Bare;
    if ops != [] {
      AppliedBare(ops[0], p);
      AllAppliedBare(ops[1..], After(ops[0], p));
      ApplyAllNext(ops, p);
      var applied := ApplyAll(ops, p).0;
      assert applied[1..] == ApplyAll(ops[1..], After(ops[0], p)).0;
    }
  }

  lemma ApplyAllNext(ops: seq<Op>, p: Project)
    requires ops != []
    ensures ApplyAll(ops, p).0 == [Applied(ops[0], p)] + ApplyAll(ops[1..], After(ops[0], p)).0
  {
    hide Captured, Effect;
  }

  /** Only a batch with nothing but such batches in it has no inverse. */
  lemma {:induction false} InverseIff(op: Op)
    ensures Inverse(op).Some? <==> !Hollow(op)
    decreases op
  {
    hide InverseSimple;
    if op.Batch? {
      InverseAllIff(op.ops);
    }
  }

  lemma {:induction false} InverseAllIff(ops: seq<Op>)
    ensures InverseAll(ops) != [] <==> exists o :: o in ops && !Hollow(o)
    decreases ops
  {
    hide InverseSimple, Hollow;
    if ops != [] {
      InverseIff(ops[0]);
      InverseAllIff(ops[1..]);
      assert forall o :: o in ops <==> o == ops[0] || o in ops[1..];
    }
  }

  lemma {:induction false} HollowBare(op: Op)
    ensures Hollow(Bare(op)) <==> Hollow(op)
    decreases op
  {
    if op.Batch? {
      forall i | 0 <= i < |op.ops| ensures Hollow(Bare(op.ops[i])) <==> Hollow(op.ops[i]) {
        HollowBare(op.ops[i]);
      }
      var bare := AllBare(op.ops);
      if Hollow(op) {
        forall o | o in bare ensures Hollow(o) {
          var i :| 0 <= i < |bare| && bare[i] == o;
        }
      }
      if Hollow(Bare(op)) {
        forall o | o in op.ops ensures Hollow(o) {
          var i :| 0 <= i < |op.ops| && op.ops[i] == o;
          assert bare[i] in bare;
        }
      }
    }
  }

  function BareStack(s: Stack): Stack { Stack(AllBare(s.undo), AllBare(s.redo)) }

  // ---------------------------------------------------------------- one client by itself

  /**
   * What a request does to the stacks of the client that makes it, with no project in sight: an operation
   * is recorded once its record is on disk, and what is undone can be redone unless the append failed or
   * there was nothing in it.
   */
  function Turned(s: Stack, request: Request, appended: bool): Stack {
    match request
    case ApplyOp(_, op) => if appended then Stack(s.undo + [Bare(op)], []) else s
    case UndoLast(_) =>
      if s.undo == [] then s
      else
        var last, rest := s.undo[|s.undo| - 1], s.undo[..|s.undo| - 1];
        Stack(rest, if appended && !Hollow(last) then s.redo + [last] else s.redo)
    case RedoLast(_) =>
      if s.redo == [] then s
      else
        var last, rest := s.redo[|s.redo| - 1], s.redo[..|s.redo| - 1];
        Stack(if appended then s.undo + [last] else s.undo, rest)
  }

  lemma ApplyStacks(s: State, client: string, op: Op, appended: bool)
    ensures BareStack(StackOf(ApplyStep(s, client, op, appended).0, client)) ==
      Turned(BareStack(StackOf(s, client)), ApplyOp(client, op), appended)
  {
    hide Apply, Bare, AllBare;
    AppliedBare(op, Moved(s.project));
    AllBareAppend(StackOf(s, client).undo, Applied(op, Moved(s.project)));
    assert AllBare([]) == [] by { NothingBare(); }
  }

  lemma NothingBare()
    ensures AllBare([]) == []
  {
  }

  lemma FrontAndTop<T>(all: seq<T>, front: seq<T>, top: T)
    requires all == front + [top]
    ensures |all| > 0 && all[|all| - 1] == top && all[..|all| - 1] == front
  {
  }

  lemma TopApart<T>(all: seq<T>)
    requires all != []
    ensures all == all[..|all| - 1] + [all[|all| - 1]]
  {
  }

  /** The stack without its top, without old values. */
  lemma BareTop(ops: seq<Op>)
    requires ops != []
    ensures AllBare(ops) != []
    ensures AllBare(ops)[..|AllBare(ops)| - 1] == AllBare(ops[..|ops| - 1])
    ensures AllBare(ops)[|AllBare(ops)| - 1] == Bare(ops[|ops| - 1])
  {
    hide *;
    TopApart(ops);
    AllBareAppend(ops[..|ops| - 1], ops[|ops| - 1]);
    FrontAndTop(AllBare(ops), AllBare(ops[..|ops| - 1]), Bare(ops[|ops| - 1]));
  }

  lemma UndoStacks(s: State, client: string, appended: bool)
    ensures BareStack(StackOf(UndoStep(s, client, appended).0, client)) ==
      Turned(BareStack(StackOf(s, client)), UndoLast(client), appended)
  {
    hide Apply, Inverse, Bare, Hollow, AllBare;
    var stack := StackOf(s, client);
    if stack.undo == [] {
      NothingBare();
    } else {
      var last := stack.undo[|stack.undo| - 1];
      BareTop(stack.undo);
      InverseIff(last);
      HollowBare(last);
      AllBareAppend(stack.redo, last);
    }
  }

  lemma RedoStacks(s: State, client: string, appended: bool)
    ensures BareStack(StackOf(RedoStep(s, client, appended).0, client)) ==
      Turned(BareStack(StackOf(s, client)), RedoLast(client), appended)
  {
    hide Apply, Bare, AllBare;
    var stack := StackOf(s, client);
    if stack.redo == [] {
      NothingBare();
    } else {
      var last := stack.redo[|stack.redo| - 1];
      BareTop(stack.redo);
      AppliedBare(last, Moved(s.project));
      AllBareAppend(stack.undo, Applied(last, Moved(s.project)));
    }
  }

  /** A request moves its client's stacks as if nobody else were there, and leaves all others alone. */
  lemma HandledStacks(s: State, request: Request, appended: bool, client: string)
    ensures var next := Handled(s, request, appended).0;
      if client != request.client then StackOf(next, client) == StackOf(s, client)
      else BareStack(StackOf(next, client)) == Turned(BareStack(StackOf(s, client)), request, appended)
  {
    if client != request.client {
      hide Apply, Inverse;
    } else {
      hide ApplyStep, UndoStep, RedoStep, BareStack, Turned;
      match request
      case ApplyOp(_, op) => ApplyStacks(s, client, op, appended);
      case UndoLast(_) => UndoStacks(s, client, appended);
      case RedoLast(_) => RedoStacks(s, client, appended);
    }
  }

  lemma AllBareAppend(ops: seq<Op>, op: Op)
    ensures AllBare(ops + [op]) == AllBare(ops) + [Bare(op)]
  {
    hide Bare;
    var all := AllBare(ops + [op]);
    assert |all| == |ops| + 1 && forall i :: 0 <= i < |ops| ==> (ops + [op])[i] == ops[i];
  }

  // ---------------------------------------------------------------- any interleaving

  /** The stacks of a client that makes its own requests among these, alone. */
  function Alone(client: string, s: Stack, events: seq<Event>): Stack {
    if events == [] then s
    else
      var before, last := Alone(client, s, events[..|events| - 1]), events[|events| - 1];
      if last.request.client == client then Turned(before, last.request, last.appended) else before
  }

  /** The requests of one client, in order. */
  function Own(client: string, events: seq<Event>): seq<Event> {
    if events == [] then []
    else
      Own(client, events[..|events| - 1]) +
      (if events[|events| - 1].request.client == client then [events[|events| - 1]] else [])
  }

  /** Whatever the others do in between, a client's stacks are what its own requests make them. */
  lemma {:induction false} StacksAlone(l: Loop, events: seq<Event>, client: string)
    ensures BareStack(StackOf(RunTurns(l, events).state, client)) ==
      Alone(client, BareStack(StackOf(l.state, client)), events)
    decreases |events|
  {
    hide Handled, Turned, BareStack;
    if events != [] {
      var front, last := events[..|events| - 1], events[|events| - 1];
      StacksAlone(l, front, client);
      HandledStacks(RunTurns(l, front).state, last.request, last.appended, client);
    }
  }

  lemma {:induction false} OwnAlone(client: string, s: Stack, events: seq<Event>)
    ensures Alone(client, s, Own(client, events)) == Alone(client, s, events)
    decreases |events|
  {
    hide Turned;
    if events != [] {
      var front, last := events[..|events| - 1], events[|events| - 1];
      OwnAlone(client, s, front);
      if last.request.client == client {
        assert Own(client, events) == Own(client, front) + [last];
        assert (Own(client, front) + [last])[..|Own(client, front)|] == Own(client, front);
      } else {
        assert Own(client, events) == Own(client, front) + [] == Own(client, front);
      }
    }
  }

  /**
   * In any interleaving, appends that fail included, a client ends with the stacks it would have if nobody
   * else had made a request; only the old values it found can differ.
   */
  lemma OthersDoNotMatter(l: Loop, events: seq<Event>, client: string)
    ensures BareStack(StackOf(RunTurns(l, events).state, client)) ==
      BareStack(StackOf(RunTurns(l, Own(client, events)).state, client))
  {
    hide BareStack, RunTurns, Alone, Own;
    StacksAlone(l, events, client);
    StacksAlone(l, Own(client, events), client);
    OwnAlone(client, BareStack(StackOf(l.state, client)), events);
  }
}
