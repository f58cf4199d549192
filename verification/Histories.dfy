/** Whole histories of one client: what undoing and redoing any number of applications gives back. */
module Histories {
  import opened Batches
  import opened Leaves
  import opened Ops
  import opened Prelude
  import opened Repeats
  import opened Restores
  import opened Session
  import opened Undo
  import opened Writer

  // ---------------------------------------------------------------- what applications record

  /** The records of operations applied in turn, each after the counter moved, and the project after them. */
  function Taken(ops: seq<Op>, p: Project): (seq<Op>, Project) {
    if ops == [] then ([], p)
    else
      var (first, mid) := Apply(ops[0], Moved(p));
      var (rest, after) := Taken(ops[1..], mid);
      ([first] + rest, after)
  }

  lemma TakenNext(ops: seq<Op>, p: Project)
    requires ops != []
    ensures var rest := Taken(ops[1..], After(ops[0], Moved(p)));
      Taken(ops, p) == ([Applied(ops[0], Moved(p))] + rest.0, rest.1)
  {
    hide Apply;
  }

  lemma {:induction false} AppliesRun(s: State, client: string, ops: seq<Op>)
    ensures var n := Run(s, Applies(client, ops));
      && n.project == Taken(ops, s.project).1
      && StackOf(n, client).undo == StackOf(s, client).undo + Taken(ops, s.project).0
      && StackOf(n, client).redo == if ops == [] then StackOf(s, client).redo else []
    decreases |ops|
  {
    hide Apply, Taken;
    if ops == [] {
      assert Applies(client, ops) == [];
      assert Taken([], s.project) == ([], s.project) by { TakenNothing(s.project); }
    } else {
      var next := Writer.ApplyStep(s, client, ops[0], true).0;
      assert Applies(client, ops)[1..] == Applies(client, ops[1..]);
      TakenNext(ops, s.project);
      AppliesRun(next, client, ops[1..]);
      assert next.project == After(ops[0], Moved(s.project));
    }
  }

  lemma TakenNothing(p: Project)
    ensures Taken([], p) == ([], p)
  {
  }

  lemma {:induction false} FitsAppend(a: seq<Op>, b: seq<Op>, p: Project)
    requires Singles(a) && Singles(b)
    ensures Singles(a + b)
    ensures FitsAll(a + b, p) <==> FitsAll(a, p) && FitsAll(b, ApplyAll(a, p).1)
    decreases |a|
  {
    hide Apply, Fits;
    if a == [] {
      assert a + b == b;
    } else {
      assert (a + b)[0] == a[0] && (a + b)[1..] == a[1..] + b;
      assert forall o :: o in a[1..] ==> o in a;
      FitsAppend(a[1..], b, After(a[0], p));
    }
  }

  /** The leaf is no card, or a card that remembers what was there. */
  predicate CardKnown(o: Op) { o.SetFunctionMemory? ==> o.oldCard.Some? }

  predicate CardsKnown(ops: seq<Op>) {
    forall o :: o in ops ==> CardKnown(o)
  }

  lemma {:induction false} RunKnowsCards(ops: seq<Op>, p: Project)
    requires Singles(ops)
    ensures CardsKnown(ApplyAll(ops, p).0)
    decreases |ops|
  {
    hide Apply;
    if ops != [] {
      ApplyNext(ops, p);
      assert CardKnown(Applied(ops[0], p)) by { CapturedKnows(ops[0], p); }
      RunKnowsCards(ops[1..], After(ops[0], p));
    }
  }

  lemma CapturedKnows(o: Op, p: Project)
    requires !o.Batch?
    ensures CardKnown(Applied(o, p))
  {
    hide FindVar, Padded;
  }

  /** From equal content the records, applied, repeat themselves and fit. */
  lemma {:induction false} TakenFits(ops: seq<Op>, p: Project, q: Project)
    requires (forall o :: o in ops ==> Fresh(o) && !Hollow(o)) && Same(p, q)
    ensures var records := Taken(ops, p).0;
      && |records| == |ops|
      && ApplyAll(records, q).0 == records && Same(ApplyAll(records, q).1, Taken(ops, p).1)
      && Singles(FlatAll(records)) && FitsAll(FlatAll(records), q) && CardsKnown(FlatAll(records))
      && forall r :: r in records ==> Inverse(r).Some?
    decreases |ops|
  {
    hide Apply, Content, Fresh, Hollow, Fits, FitsAll, Inverse, Flat, ApplyAll, CardKnown;
    if ops == [] {
      TakenNothing(p);
      ApplyNothing(q);
      assert FitsAll([], q) by { FitsNothing(q); }
    } else {
      var op, records := ops[0], Taken(ops, p).0;
      assert op in ops && forall o :: o in ops[1..] ==> o in ops;
      SameMoved(p);
      TakenNext(ops, p);
      var record, after := Applied(op, Moved(p)), After(op, Moved(p));
      Replay(op, Moved(p), q);
      TakenFits(ops[1..], after, After(record, q));
      ApplyNext(records, q);
      assert records[0] == record && records[1..] == Taken(ops[1..], after).0;
      FlatSingles(op);
      FlatApplies(op, Moved(p));
      AppliedFits(Flat(op), Moved(p), q);
      RunKnowsCards(Flat(op), Moved(p));
      FlatApplies(record, q);
      FitsAppend(Flat(record), FlatAll(records[1..]), q);
      InverseIff(op, Moved(p));
    }
  }

  lemma FitsNothing(p: Project)
    ensures FitsAll([], p)
  {
  }

  // ---------------------------------------------------------------- undos and redos

  lemma UndoTaken(s: State, client: string, undo: seq<Op>, op: Op)
    requires StackOf(s, client).undo == undo + [op] && Inverse(op).Some?
    ensures var next := Handled(s, UndoLast(client), true).0;
      && StackOf(next, client) == Stack(undo, StackOf(s, client).redo + [op])
      && next.project == After(Inverse(op).value, Moved(s.project))
  {
    hide Apply, Inverse;
    assert (undo + [op])[..|undo|] == undo;
  }

  lemma RedoTaken(s: State, client: string, redo: seq<Op>, op: Op)
    requires StackOf(s, client).redo == redo + [op]
    ensures var next := Handled(s, RedoLast(client), true).0;
      && StackOf(next, client) == Stack(StackOf(s, client).undo + [Applied(op, Moved(s.project))], redo)
      && next.project == After(op, Moved(s.project))
  {
    hide Apply;
    assert (redo + [op])[..|redo|] == redo;
  }

  lemma RunNext(s: State, requests: seq<Request>)
    requires requests != []
    ensures Run(s, requests) == Run(Handled(s, requests[0], true).0, requests[1..])
  {
    hide Handled;
  }

  /** Undoing the newest records takes them off the undo stack and applies their inverses. */
  lemma {:induction false} UndosRun(s: State, client: string, older: seq<Op>, records: seq<Op>, q: Project)
    requires StackOf(s, client).undo == older + records && Same(s.project, q)
    requires forall r :: r in records ==> Inverse(r).Some?
    ensures var n := Run(s, Undos(client, |records|));
      && StackOf(n, client) == Stack(older, StackOf(s, client).redo + Reverse(records))
      && Same(n.project, ApplyAll(InverseAll(records), q).1)
    decreases |records|
  {
    hide Apply, Inverse, Content, ApplyAll, InverseAll, Run, Handled, StackOf;
    if records == [] {
      NoInverses();
      ApplyNothing(q);
      RunNothing(s);
      assert older + records == older && Undos(client, 0) == [];
      assert StackOf(s, client).redo + Reverse<Op>([]) == StackOf(s, client).redo;
    } else {
      var k := |records| - 1;
      var front, last := records[..k], records[k];
      LastSplit(records);
      assert last in records && forall r :: r in front ==> r in records;
      assert older + records == (older + front) + [last];
      UndoTaken(s, client, older + front, last);
      var next, inverse := Handled(s, UndoLast(client), true).0, Inverse(last).value;
      SameMoved(s.project);
      Replay(inverse, Moved(s.project), q);
      assert Undos(client, |records|)[1..] == Undos(client, k);
      RunNext(s, Undos(client, |records|));
      UndosRun(next, client, older, front, After(inverse, q));
      InverseAllAppend(front, [last]);
      InverseOne(last);
      ApplyAllAppend([inverse], InverseAll(front), q);
      ApplySingle(inverse, q);
      assert (StackOf(s, client).redo + [last]) + Reverse(front) == StackOf(s, client).redo + Reverse(records);
    }
  }

  /** What an operation captures beside cards depends on the content. */
  lemma {:induction false} AppliedExact(op: Op, p: Project, q: Project)
    requires Same(p, q) && CardsKnown(Flat(op))
    ensures Applied(op, p) == Applied(op, q)
    decreases op
  {
    hide Captured, Effect, Content, CardKnown;
    if op.Batch? {
      AppliedAllExact(op.ops, p, q);
    } else {
      assert op in Flat(op);
      CapturedExact(op, p, q);
    }
  }

  lemma {:induction false} AppliedAllExact(ops: seq<Op>, p: Project, q: Project)
    requires Same(p, q) && CardsKnown(FlatAll(ops))
    ensures ApplyAll(ops, p).0 == ApplyAll(ops, q).0
    decreases ops
  {
    hide Captured, Effect, Content, CardKnown, Flat;
    if ops != [] {
      assert forall o :: o in Flat(ops[0]) ==> o in FlatAll(ops);
      assert forall o :: o in FlatAll(ops[1..]) ==> o in FlatAll(ops);
      AppliedExact(ops[0], p, q);
      Replay(ops[0], p, q);
      AppliedAllExact(ops[1..], After(ops[0], p), After(ops[0], q));
    }
  }

  lemma CapturedExact(o: Op, p: Project, q: Project)
    requires !o.Batch? && Same(p, q) && CardKnown(o)
    ensures Captured(o, p) == Captured(o, q)
  {
    hide FindVar, Padded, Content;
    SameParts(p, q);
  }

  /** Redoing undone records applies them again, oldest first. */
  lemma {:induction false} RedosRun(s: State, client: string, older: seq<Op>, records: seq<Op>, redo: seq<Op>, q: Project)
    requires StackOf(s, client) == Stack(older, redo + Reverse(records)) && Same(s.project, q)
    requires CardsKnown(FlatAll(records))
    ensures var n := Run(s, Redos(client, |records|));
      && StackOf(n, client) == Stack(older + ApplyAll(records, q).0, redo)
      && Same(n.project, ApplyAll(records, q).1)
    decreases |records|
  {
    hide Apply, Content, ApplyAll, CardKnown, Flat, Run, Handled, StackOf;
    if records == [] {
      ApplyNothing(q);
      RunNothing(s);
      assert older + [] == older && Redos(client, 0) == [];
      assert redo + Reverse(records) == redo;
    } else {
      var first, rest := records[0], records[1..];
      var stack := StackOf(s, client);
      assert Reverse(records) == Reverse(rest) + [first];
      assert stack.redo == (redo + Reverse(rest)) + [first];
      RedoTaken(s, client, redo + Reverse(rest), first);
      assert forall o :: o in Flat(first) ==> o in FlatAll(records);
      assert forall o :: o in FlatAll(rest) ==> o in FlatAll(records);
      var next := Handled(s, RedoLast(client), true).0;
      SameMoved(s.project);
      AppliedExact(first, Moved(s.project), q);
      Replay(first, Moved(s.project), q);
      var again := Applied(first, q);
      assert StackOf(next, client) == Stack(older + [again], redo + Reverse(rest));
      assert Redos(client, |records|)[1..] == Redos(client, |rest|);
      RunNext(s, Redos(client, |records|));
      RedosRun(next, client, older + [again], rest, redo, After(first, q));
      ApplyNext(records, q);
      assert (older + [again]) + ApplyAll(rest, After(first, q)).0 == older + ([again] + ApplyAll(rest, After(first, q)).0);
    }
  }

  /** A run repeats its records exactly when its leaves repeat theirs. */
  lemma {:induction false} RepeatsFlat(op: Op, p: Project)
    ensures Applied(op, p) == op <==> ApplyAll(Flat(op), p).0 == Flat(op)
    decreases op
  {
    hide Captured, Effect;
    if op.Batch? {
      RepeatsAllFlat(op.ops, p);
    } else {
      ApplySingle(op, p);
    }
  }

  lemma {:induction false} RepeatsAllFlat(ops: seq<Op>, p: Project)
    ensures ApplyAll(ops, p).0 == ops <==> ApplyAll(FlatAll(ops), p).0 == FlatAll(ops)
    decreases ops
  {
    hide Apply, Flat, ApplyAll;
    if ops == [] {
      ApplyNothing(p);
    } else {
      var rest, mid := ops[1..], After(ops[0], p);
      RepeatsFlat(ops[0], p);
      RepeatsAllFlat(rest, mid);
      ApplyNext(ops, p);
      FlatApplies(ops[0], p);
      ApplyAllAppend(Flat(ops[0]), FlatAll(rest), p);
      RunLength(Flat(ops[0]), p);
      assert ops == [ops[0]] + rest;
      ConsSame(ops[0], rest, Applied(ops[0], p), ApplyAll(rest, mid).0);
      AppendSame(Flat(ops[0]), FlatAll(rest), ApplyAll(Flat(ops[0]), p).0, ApplyAll(FlatAll(rest), mid).0);
    }
  }

  lemma {:induction false} RunLength(ops: seq<Op>, p: Project)
    ensures |ApplyAll(ops, p).0| == |ops|
    decreases |ops|
  {
    hide Apply;
    if ops != [] {
      RunLength(ops[1..], After(ops[0], p));
    }
  }

  lemma AppendSame<T>(a: seq<T>, s: seq<T>, b: seq<T>, t: seq<T>)
    requires |a| == |b|
    ensures b + t == a + s <==> b == a && t == s
  {
    if b + t == a + s {
      assert (b + t)[..|a|] == b && (a + s)[..|a|] == a;
      assert (b + t)[|a|..] == t && (a + s)[|a|..] == s;
    }
  }

  // ---------------------------------------------------------------- n applications, n undos, n redos

  /** The operations were submitted fresh and have something in them. */
  predicate Submitted(ops: seq<Op>) {
    forall o :: o in ops ==> Fresh(o) && !Hollow(o)
  }

  lemma SubmittedFlat(ops: seq<Op>)
    requires Submitted(ops)
    ensures Singles(FlatAll(ops)) && forall o :: o in FlatAll(ops) ==> Fresh(o)
  {
    hide Fresh, Hollow, FlatAll;
    FlatAllSingles(ops);
  }

  /** Same kinds and payloads, one by one. */
  predicate Alike(a: seq<Op>, b: seq<Op>) {
    |a| == |b| && forall i :: 0 <= i < |a| ==> !a[i].Batch? && !b[i].Batch? && SamePayload(a[i], b[i])
  }

  lemma {:induction false} RunAlike(ops: seq<Op>, p: Project)
    requires Singles(ops)
    ensures Alike(ApplyAll(ops, p).0, ops)
    decreases |ops|
  {
    hide Captured, Effect, SamePayload;
    if ops != [] {
      CapturedPayload(ops[0], p);
      ApplyNext(ops, p);
      RunAlike(ops[1..], After(ops[0], p));
      var applied := ApplyAll(ops, p).0;
      forall i | 0 <= i < |ops| ensures !applied[i].Batch? && !ops[i].Batch? && SamePayload(applied[i], ops[i]) {
        if i > 0 {
          assert applied[i] == applied[1..][i - 1] && ops[i] == ops[1..][i - 1];
        }
      }
    }
  }

  lemma AlikeAppend(a: seq<Op>, b: seq<Op>, c: seq<Op>, d: seq<Op>)
    requires Alike(a, b) && Alike(c, d)
    ensures Alike(a + c, b + d)
  {
    hide SamePayload;
  }

  lemma {:induction false} TakenAlike(ops: seq<Op>, p: Project)
    ensures Alike(FlatAll(Taken(ops, p).0), FlatAll(ops))
    decreases |ops|
  {
    hide Apply, Flat, Alike;
    if ops == [] {
      assert Alike([], []) by { NoneAlike(); }
    } else {
      TakenNext(ops, p);
      FlatSingles(ops[0]);
      FlatApplies(ops[0], Moved(p));
      RunAlike(Flat(ops[0]), Moved(p));
      TakenAlike(ops[1..], After(ops[0], Moved(p)));
      var records := Taken(ops, p).0;
      assert records[0] == Applied(ops[0], Moved(p)) && records[1..] == Taken(ops[1..], After(ops[0], Moved(p))).0;
      AlikeAppend(Flat(records[0]), Flat(ops[0]), FlatAll(records[1..]), FlatAll(ops[1..]));
    }
  }

  lemma NoneAlike()
    ensures Alike([], [])
  {
  }

  lemma AlikeRestorable(a: Op, b: Op, p: Project)
    requires !a.Batch? && !b.Batch? && SamePayload(a, b)
    ensures Restorable(a, p) == Restorable(b, p) && SignedAt(a) == SignedAt(b)
    ensures forall va :: Replaces(a, va) == Replaces(b, va)
  {
    hide FindVar, IndexOf;
  }

  /** The guard does not look at old values. */
  lemma AlikeFound(a: seq<Op>, b: seq<Op>, p: Project)
    requires Singles(a) && Singles(b) && Alike(a, b)
    ensures FoundBefore(a, p) <==> FoundBefore(b, p)
  {
    hide Restorable, SamePayload, SignedAt, Replaces;
    forall i | 0 <= i < |a|
      ensures Restorable(a[i], p) == Restorable(b[i], p) && SignedAt(a[i]) == SignedAt(b[i])
      ensures forall va :: Replaces(a[i], va) == Replaces(b[i], va)
    {
      AlikeRestorable(a[i], b[i], p);
    }
    forall i | 0 <= i < |a| ensures Shadowed(a, i) <==> Shadowed(b, i) {
    }
  }

  /** Undoing all the records of a run of applications is undoing their leaves. */
  lemma RecordsUndone(records: seq<Op>, q: Project)
    requires ApplyAll(records, q).0 == records && Singles(FlatAll(records))
    ensures ApplyAll(FlatAll(records), q).0 == FlatAll(records)
    ensures ApplyAll(FlatAll(records), q).1 == ApplyAll(records, q).1
    ensures ApplyAll(InverseAll(records), ApplyAll(records, q).1).1 == Undone(FlatAll(records), q)
  {
    hide Apply, ApplyAll, Inverse, InverseAll, FlatAll, Undone;
    FlatAllApplies(records, q);
    FlatInverses(records);
    UndoneIs(FlatAll(records), q);
    FlatAllApplies(InverseAll(records), ApplyAll(records, q).1);
  }

  /**
   * `n` undos after `n` applications give the undo stack back, and the content exactly when every
   * single operation among them had something to go back to before the first, those aside that write
   * a signature which an earlier one replaces.
   */
  lemma AppliesUndoneIff(s: State, client: string, ops: seq<Op>)
    requires Submitted(ops) && WellKept(s.project)
    ensures Singles(FlatAll(ops))
    ensures var next := Run(s, Applies(client, ops) + Undos(client, |ops|));
      && StackOf(next, client).undo == StackOf(s, client).undo
      && (Same(next.project, s.project) <==> FoundBefore(FlatAll(ops), s.project))
  {
    hide Apply, Run, StackOf, Content, Same, WellKept, FoundBefore, FlatAll, Taken, ApplyAll, InverseAll, Undone, FitsAll,
      Inverse, Alike, Fresh, Hollow, CardsKnown;
    var p, mid := s.project, Run(s, Applies(client, ops));
    var records := Taken(ops, p).0;
    SubmittedFlat(ops);
    RunSplit(s, Applies(client, ops), Undos(client, |ops|));
    AppliesRun(s, client, ops);
    SameItself(p);
    TakenFits(ops, p, p);
    var end := ApplyAll(records, p).1;
    SameTurned(end, mid.project);
    UndosRun(mid, client, StackOf(s, client).undo, records, end);
    RecordsUndone(records, p);
    UndoneIff(FlatAll(records), p);
    TakenAlike(ops, p);
    AlikeFound(FlatAll(records), FlatAll(ops), p);
    SameLink(Run(mid, Undos(client, |ops|)).project, Undone(FlatAll(records), p), p);
  }

  lemma SameItself(p: Project)
    ensures Same(p, p)
  {
  }

  lemma SameTurned(p: Project, q: Project)
    requires Same(p, q)
    ensures Same(q, p)
  {
  }

  lemma SameLink(p: Project, q: Project, r: Project)
    requires Same(p, q)
    ensures Same(p, r) <==> Same(q, r)
  {
  }

  /** What the newest records of a history are, leaf by leaf. */
  function Newest(s: State, client: string, n: nat): seq<Op>
    requires n <= |StackOf(s, client).undo|
  {
    var undo := StackOf(s, client).undo;
    FlatAll(undo[|undo| - n..])
  }

  /**
   * After `n` applications `n` undos and `n` redos give the content back, whatever the operations found
   * and whatever came before them, and the history back exactly when each single record keeps its old
   * value: it has one, or it is a focus that nothing among them moved.
   */
  lemma AppliesRepeated(s: State, client: string, ops: seq<Op>)
    requires Submitted(ops)
    ensures var mid := Run(s, Applies(client, ops));
      var next := Run(mid, Undos(client, |ops|) + Redos(client, |ops|));
      && |ops| <= |StackOf(mid, client).undo|
      && Same(next.project, mid.project)
      && Singles(Newest(mid, client, |ops|))
      && (StackOf(next, client) == StackOf(mid, client) <==>
           forall o :: o in Newest(mid, client, |ops|) ==>
             Keeps(Newest(mid, client, |ops|), o, s.project.functionEntries))
  {
    hide Apply, Run, StackOf, Content, Same, FlatAll, Taken, ApplyAll, InverseAll, Undone, FitsAll, Inverse, Fresh, Hollow,
      CardsKnown, Keeps;
    var p, n, mid := s.project, |ops|, Run(s, Applies(client, ops));
    var records, older := Taken(ops, p).0, StackOf(s, client).undo;
    AppliesRun(s, client, ops);
    SameItself(p);
    TakenFits(ops, p, p);
    var leaves, end := FlatAll(records), ApplyAll(records, p).1;
    assert StackOf(mid, client).undo == older + records;
    assert (older + records)[|older + records| - n..] == records;
    var redo := StackOf(mid, client).redo;
    RunSplit(mid, Undos(client, n), Redos(client, n));
    SameTurned(end, mid.project);
    UndosRun(mid, client, older, records, end);
    var undone := Run(mid, Undos(client, n));
    RecordsUndone(records, p);
    RedosRun(undone, client, older, records, redo, Undone(leaves, p));
    FlatAllApplies(records, Undone(leaves, p));
    RepeatSame(leaves, p);
    RecapturedIff(leaves, p);
    RepeatsAllFlat(records, Undone(leaves, p));
    var next := Run(undone, Redos(client, n));
    SameLink(next.project, ApplyAll(leaves, Undone(leaves, p)).1, end);
    SameLink(mid.project, end, next.project);
    SameTurned(next.project, end);
    SameTurned(mid.project, next.project);
    StackBack(older, records, ApplyAll(records, Undone(leaves, p)).0, redo);
  }

  lemma StackBack(older: seq<Op>, records: seq<Op>, again: seq<Op>, redo: seq<Op>)
    ensures Stack(older + again, redo) == Stack(older + records, redo) <==> again == records
  {
    if older + again == older + records {
      assert (older + again)[|older|..] == again && (older + records)[|older|..] == records;
    }
  }

  lemma {:induction false} EntriesTaken(ops: seq<Op>, p: Project)
    ensures Taken(ops, p).1.functionEntries == p.functionEntries
    decreases |ops|
  {
    hide Apply;
    if ops != [] {
      EntriesAfter(ops[0], Moved(p));
      EntriesTaken(ops[1..], After(ops[0], Moved(p)));
    }
  }

  lemma {:induction false} EntriesAfter(op: Op, p: Project)
    ensures After(op, p).functionEntries == p.functionEntries
    decreases op
  {
    hide Captured, Effect;
    if op.Batch? {
      EntriesAfterAll(op.ops, p);
    } else {
      AfterFocus(op, p);
    }
  }

  lemma {:induction false} EntriesAfterAll(ops: seq<Op>, p: Project)
    ensures ApplyAll(ops, p).1.functionEntries == p.functionEntries
    decreases ops
  {
    hide Captured, Effect;
    if ops != [] {
      EntriesAfter(ops[0], p);
      EntriesAfterAll(ops[1..], After(ops[0], p));
    }
  }

  /** The same for any number of the newest applications. */
  lemma NewestRepeated(s: State, client: string, ops: seq<Op>, k: nat)
    requires Submitted(ops) && k <= |ops|
    ensures var mid := Run(s, Applies(client, ops));
      var next := Run(mid, Undos(client, k) + Redos(client, k));
      && k <= |StackOf(mid, client).undo|
      && Same(next.project, mid.project)
      && Singles(Newest(mid, client, k))
      && (StackOf(next, client) == StackOf(mid, client) <==>
           forall o :: o in Newest(mid, client, k) ==> Keeps(Newest(mid, client, k), o, s.project.functionEntries))
  {
    hide Run, StackOf, Same, Keeps, Fresh, Hollow, FlatAll, Taken;
    var n := |ops| - k;
    var first, last := ops[..n], ops[n..];
    assert Applies(client, ops) == Applies(client, first) + Applies(client, last);
    RunSplit(s, Applies(client, first), Applies(client, last));
    var begun := Run(s, Applies(client, first));
    AppliesRun(s, client, first);
    EntriesTaken(first, s.project);
    AppliesRepeated(begun, client, last);
  }

  // ---------------------------------------------------------------- inputs

  /** A first comment comes back by undo and redo, but its record then says there was an empty one. */
  lemma FirstCommentIsRecaptured(s: State, client: string, va: u64, text: string)
    requires (va, AddressScope) !in s.project.comments
    ensures
      var mid := Run(s, Applies(client, [SetComment(va, AddressScope, text, None)]));
      var next := Run(mid, Undos(client, 1) + Redos(client, 1));
      Same(next.project, mid.project) && StackOf(next, client) != StackOf(mid, client)
  {
    hide Run, StackOf, Same, Keeps;
    var op := SetComment(va, AddressScope, text, None);
    var mid := Run(s, Applies(client, [op]));
    AppliesRepeated(s, client, [op]);
    AppliesRun(s, client, [op]);
    OneTaken(op, s.project);
    var older := StackOf(s, client).undo;
    assert (older + [op])[|older + [op]| - 1..] == [op];
    FlatOne(op);
    assert Newest(mid, client, 1) == [op];
    assert !Keeps([op], op, s.project.functionEntries) by { NotKept(op, s.project.functionEntries); }
  }

  lemma OneTaken(op: Op, p: Project)
    requires op.SetComment? && Fresh(op) && (op.va, op.scope) !in p.comments
    ensures Taken([op], p).0 == [op]
  {
    assert [op][1..] == [];
    TakenNothing(After(op, Moved(p)));
  }

  lemma NotKept(op: Op, entries: set<u64>)
    requires op.SetComment? && Fresh(op)
    ensures !Keeps([op], op, entries)
  {
  }

  /**
   * The content comes back after applications, not after an undo: once a parameter added to a new
   * signature is undone, undoing and redoing the signature too drops the placeholder that was left.
   */
  lemma RedoAfterUndoDiffers(s: State, client: string, va: u64, signature: Signature, name: string)
    ensures
      var ops := [SetFunctionSignature(va, signature, None), SetParamName(va, |signature.params|, name, None)];
      var mid := Run(Run(s, Applies(client, ops)), Undos(client, 1));
      var next := Run(mid, Undos(client, 1) + Redos(client, 1));
      !Same(next.project, mid.project)
  {
    hide Run, StackOf, Same, Apply, Handled, WithParam;
    var a, b := SetFunctionSignature(va, signature, None), SetParamName(va, |signature.params|, name, None);
    var begun := Run(s, Applies(client, [a, b]));
    var ra, rb := Applied(a, Moved(s.project)), Applied(b, Moved(After(a, Moved(s.project))));
    TwoTaken(a, b, s.project);
    AppliesRun(s, client, [a, b]);
    var older := StackOf(s, client).undo;
    assert older + [ra, rb] == (older + [ra]) + [rb];
    SingleRecords(a, b, Moved(s.project), Moved(After(a, Moved(s.project))));
    UndoTaken(begun, client, older + [ra], rb);
    var mid := Run(begun, Undos(client, 1));
    OneRequest(begun, UndoLast(client));
    assert Undos(client, 1) == [UndoLast(client)] && Redos(client, 1) == [RedoLast(client)];
    UndoTaken(mid, client, older, ra);
    var undone := Run(mid, Undos(client, 1));
    OneRequest(mid, UndoLast(client));
    RunSplit(mid, Undos(client, 1), Redos(client, 1));
    RedoTaken(undone, client, StackOf(mid, client).redo, ra);
    OneRequest(undone, RedoLast(client));
    var next := Run(undone, Redos(client, 1));
    SignaturesDiffer(s.project, va, signature, name, mid.project, next.project, begun.project, undone.project, ra, rb);
    DifferentSignatures(mid.project, next.project, va);
  }

  lemma OneRequest(s: State, request: Request)
    ensures Run(s, [request]) == Handled(s, request, true).0
  {
    hide Handled;
    RunNext(s, [request]);
    assert [request][1..] == [];
    RunNothing(Handled(s, request, true).0);
  }

  lemma TwoTaken(a: Op, b: Op, p: Project)
    ensures Taken([a, b], p) ==
      ([Applied(a, Moved(p)), Applied(b, Moved(After(a, Moved(p))))], After(b, Moved(After(a, Moved(p)))))
  {
    hide Apply, Taken;
    assert [a, b][1..] == [b] && [b][1..] == [];
    TakenNext([a, b], p);
    var mid := After(a, Moved(p));
    TakenNext([b], mid);
    TakenNothing(After(b, Moved(mid)));
    assert [Applied(b, Moved(mid))] + [] == [Applied(b, Moved(mid))];
    assert [Applied(a, Moved(p))] + [Applied(b, Moved(mid))] == [Applied(a, Moved(p)), Applied(b, Moved(mid))];
  }

  lemma SingleRecords(a: Op, b: Op, p: Project, q: Project)
    requires a.SetFunctionSignature? && b.SetParamName?
    ensures Applied(a, p).SetFunctionSignature? && Applied(a, p).va == a.va && Applied(a, p).signature == a.signature
    ensures Applied(b, q).SetParamName? && Applied(b, q).functionVa == b.functionVa && Applied(b, q).index == b.index
    ensures Inverse(Applied(a, p)).Some? && Inverse(Applied(b, q)).Some?
    ensures var back := Inverse(Applied(b, q)).value;
      back.SetParamName? && back.functionVa == b.functionVa && back.index == b.index
  {
    hide Padded, SignatureOf;
  }

  lemma SignaturesDiffer(
    p: Project, va: u64, signature: Signature, name: string,
    mid: Project, next: Project, begun: Project, undone: Project, ra: Op, rb: Op)
    requires ra.SetFunctionSignature? && ra.va == va && ra.signature == signature
    requires Inverse(rb).Some? && Inverse(rb).value.SetParamName?
    requires Inverse(rb).value.functionVa == va && Inverse(rb).value.index == |signature.params|
    requires mid == After(Inverse(rb).value, Moved(begun)) && next == After(ra, Moved(undone))
    ensures va in mid.signatures && |mid.signatures[va].params| > |signature.params|
    ensures va in next.signatures && next.signatures[va] == signature
  {
    hide Apply, Inverse, WithParam, SignatureOf;
    AfterSignatures(Inverse(rb).value, Moved(begun));
    AfterSignatures(ra, Moved(undone));
    WithParamAt(SignatureOf(Moved(begun), va), |signature.params|, Inverse(rb).value.name);
  }

  lemma DifferentSignatures(p: Project, q: Project, va: u64)
    requires va in p.signatures && va in q.signatures && p.signatures[va] != q.signatures[va]
    ensures !Same(q, p)
  {
    hide Content;
    if Same(q, p) {
      SameParts(q, p);
    }
  }
}
