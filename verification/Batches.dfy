/** When a whole batch is undone: exactly when what it writes was there before, whatever it writes twice. */
module Batches {
  import opened Prelude
  import opened Leaves
  import opened Ops
  import opened Repeats
  import opened Restores
  import opened Undo

  /**
   * Any operation with something in it, batches within batches included, is undone exactly when every
   * single operation in it had something to go back to before it, those aside that write a signature
   * which an earlier one replaces.
   */
  lemma BatchUndoIff(op: Op, p: Project)
    requires Fresh(op) && !Hollow(op) && WellKept(p)
    ensures Singles(Flat(op))
    ensures Undoable(op, p) <==> FoundBefore(Flat(op), p)
  {
    hide Apply, Undoable, Fresh, Hollow, WellKept, Content, FoundBefore, Flat, FitsAll, Undone;
    FlatSingles(op);
    FreshFitsAll(Flat(op), p);
    UndoableFlat(op, p);
    UndoneIff(Flat(op), p);
  }

  /** Undoing such an operation and redoing it gives its effect back, whether or not undo restored anything. */
  lemma BatchRedoes(op: Op, p: Project)
    requires Fresh(op) && !Hollow(op)
    ensures Redoes(op, p)
  {
    hide Apply, Fresh, Hollow, Content, Flat, FitsAll, Undone, ApplyAll, Redoes;
    FlatSingles(op);
    FreshFitsAll(Flat(op), p);
    RedoesFlat(op, p);
    RepeatSame(Flat(op), p);
    ReplayAll(Flat(op), p, p);
    PayloadRuns(Flat(op), p, Undone(Flat(op), p));
  }

  /** Applied operations do, from anywhere, what the operations do they come from. */
  lemma PayloadRuns(ops: seq<Op>, p: Project, x: Project)
    requires Singles(ops)
    ensures Same(ApplyAll(ApplyAll(ops, p).0, x).1, ApplyAll(ops, x).1)
  {
    PayloadRunsSame(ops, p, x, x);
  }

  lemma {:induction false} PayloadRunsSame(ops: seq<Op>, p: Project, x: Project, y: Project)
    requires Singles(ops) && Same(x, y)
    ensures Same(ApplyAll(ApplyAll(ops, p).0, x).1, ApplyAll(ops, y).1)
    decreases |ops|
  {
    hide Captured, Effect, Content, ApplyAll;
    if ops == [] {
      ApplyNothing(p);
      ApplyNothing(x);
      ApplyNothing(y);
    } else {
      var o, applied := ops[0], ApplyAll(ops, p).0;
      ApplyNext(ops, p);
      ApplyNext(ops, y);
      ApplyNext(applied, x);
      CapturedPayload(o, p);
      CapturedPayload(applied[0], x);
      CapturedPayload(o, y);
      PayloadsLink(Captured(applied[0], x), applied[0], o, Captured(o, y));
      EffectSame(Captured(applied[0], x), Captured(o, y), x, y);
      PayloadRunsSame(ops[1..], After(o, p), After(applied[0], x), After(o, y));
    }
  }

  lemma PayloadsLink(a: Op, b: Op, c: Op, d: Op)
    requires !a.Batch? && !b.Batch? && !c.Batch? && !d.Batch?
    requires SamePayload(a, b) && SamePayload(b, c) && SamePayload(d, c)
    ensures SamePayload(a, d)
  {
  }

  /**
   * A signature that is replaced and then given one parameter more comes back whole, although undoing
   * the parameter alone would leave a placeholder behind: asking each operation where it is applied
   * asks too much.
   */
  lemma GuardNotNeeded(p: Project, va: u64, s: Signature, name: string)
    requires va in p.signatures && WellKept(p)
    ensures
      var op := Batch([SetFunctionSignature(va, s, None), SetParamName(va, |s.params|, name, None)]);
      Fresh(op) && !Guarded(op, p) && Undoable(op, p)
  {
    hide Undoable, Guarded, Apply, WellKept;
    var a, b := SetFunctionSignature(va, s, None), SetParamName(va, |s.params|, name, None);
    SignatureApplied(p, va, s);
    NotGuarded(a, b, p);
    var op := Batch([a, b]);
    FlatTwo(a, b);
    BatchUndoIff(op, p);
    forall i | 0 <= i < 2 ensures Shadowed([a, b], i) || Restorable([a, b][i], p) {
      assert Replaces([a, b][0], va);
    }
  }

  lemma SignatureApplied(p: Project, va: u64, s: Signature)
    ensures After(SetFunctionSignature(va, s, None), p) == p.(signatures := p.signatures[va := s])
  {
  }

  lemma FlatTwo(a: Op, b: Op)
    requires !a.Batch? && !b.Batch?
    ensures Flat(Batch([a, b])) == [a, b] && !Hollow(Batch([a, b]))
  {
    assert [a, b][1..] == [b] && [b][1..] == [];
    FlatOne(b);
    assert FlatAll([a, b]) == Flat(a) + FlatAll([b]) == [a] + [b];
    assert a in [a, b] && !Hollow(a);
  }

  lemma NotGuarded(a: Op, b: Op, p: Project)
    requires !b.Batch? && !Restorable(b, After(a, p))
    ensures !Guarded(Batch([a, b]), p)
  {
    hide Apply, Restorable;
    assert [a, b][1..] == [b];
    assert !AllGuarded([b], After(a, p));
  }

  /**
   * For instance the pair that names and types one local variable is undone exactly when the variable
   * was there with a name other than the empty one, or none.
   */
  lemma NamedAndTyped(p: Project, va: u64, offset: int, name: string, ty: DataType)
    requires WellKept(p) && offset <= 0
    ensures
      var op := Batch([SetStackLocalName(va, offset, name, None), SetStackLocalType(va, offset, ty, None)]);
      Undoable(op, p) <==>
        && va in p.frames && VarAt(p.frames[va], offset).Some?
        && VarAt(p.frames[va], offset).value.name != Some("")
  {
    hide Undoable, Apply, WellKept, IndexOf, First;
    var a, b := SetStackLocalName(va, offset, name, None), SetStackLocalType(va, offset, ty, None);
    FlatTwo(a, b);
    BatchUndoIff(Batch([a, b]), p);
    assert !Shadowed([a, b], 0) && !Shadowed([a, b], 1);
    assert FoundBefore([a, b], p) <==> Restorable([a, b][0], p) && Restorable([a, b][1], p);
    if va in p.frames {
      VarAtIs(p.frames[va], offset);
    }
  }
}
