/** Operations as lists of single steps: what a batch does, undoes and redoes, without its nesting. */
module Leaves {
  import opened Prelude
  import opened Ops
  import opened Slots
  import opened Undo

  // ---------------------------------------------------------------- flattening

  /** The single operations of an operation, in the order they are applied. */
  function Flat(op: Op): seq<Op> {
    match op
    case Batch(ops) => FlatAll(ops)
    case _ => [op]
  }

  function FlatAll(ops: seq<Op>): seq<Op> {
    if ops == [] then [] else Flat(ops[0]) + FlatAll(ops[1..])
  }

  /** A list of single operations. */
  predicate Singles(ops: seq<Op>) {
    forall o :: o in ops ==> !o.Batch?
  }

  lemma {:induction false} FlatSingles(op: Op)
    ensures Singles(Flat(op)) && (Fresh(op) <==> forall o :: o in Flat(op) ==> Fresh(o))
    ensures Hollow(op) <==> Flat(op) == []
    decreases op
  {
    if op.Batch? {
      FlatAllSingles(op.ops);
    }
  }

  lemma {:induction false} FlatAllSingles(ops: seq<Op>)
    ensures Singles(FlatAll(ops))
    ensures (forall o :: o in ops ==> Fresh(o)) <==> forall o :: o in FlatAll(ops) ==> Fresh(o)
    ensures (forall o :: o in ops ==> Hollow(o)) <==> FlatAll(ops) == []
    decreases ops
  {
    if ops != [] {
      FlatSingles(ops[0]);
      FlatAllSingles(ops[1..]);
      assert forall o :: o in ops <==> o == ops[0] || o in ops[1..];
    }
  }

  lemma ApplyNext(ops: seq<Op>, p: Project)
    requires ops != []
    ensures var rest := ApplyAll(ops[1..], After(ops[0], p));
      ApplyAll(ops, p) == ([Applied(ops[0], p)] + rest.0, rest.1)
  {
    hide Captured, Effect;
  }

  lemma {:induction false} ApplyAllAppend(a: seq<Op>, b: seq<Op>, p: Project)
    ensures var first := ApplyAll(a, p);
      var second := ApplyAll(b, first.1);
      ApplyAll(a + b, p) == (first.0 + second.0, second.1)
    decreases |a|
  {
    hide Apply, ApplyAll;
    if a == [] {
      assert a + b == b;
      ApplyNothing(p);
      assert [] + ApplyAll(b, p).0 == ApplyAll(b, p).0;
    } else {
      assert (a + b)[1..] == a[1..] + b && (a + b)[0] == a[0];
      ApplyNext(a + b, p);
      ApplyNext(a, p);
      ApplyAllAppend(a[1..], b, After(a[0], p));
      var rest := ApplyAll(a[1..], After(a[0], p));
      assert [Applied(a[0], p)] + (rest.0 + ApplyAll(b, rest.1).0) == ([Applied(a[0], p)] + rest.0) + ApplyAll(b, rest.1).0;
    }
  }

  lemma ApplyNothing(p: Project)
    ensures ApplyAll([], p) == ([], p)
  {
  }

  lemma ApplySingle(op: Op, p: Project)
    ensures ApplyAll([op], p) == ([Applied(op, p)], After(op, p))
  {
    hide Apply, ApplyAll;
    ApplyNext([op], p);
    assert [op][1..] == [];
    ApplyNothing(After(op, p));
    assert [Applied(op, p)] + [] == [Applied(op, p)];
  }

  /** Applying an operation is applying its leaves. */
  lemma {:induction false} FlatApplies(op: Op, p: Project)
    ensures ApplyAll(Flat(op), p) == (Flat(Applied(op, p)), After(op, p))
    decreases op
  {
    hide Captured, Effect;
    if op.Batch? {
      FlatAllApplies(op.ops, p);
    } else {
      CapturedPayload(op, p);
      ApplySingle(op, p);
    }
  }

  lemma {:induction false} FlatAllApplies(ops: seq<Op>, p: Project)
    ensures ApplyAll(FlatAll(ops), p) == (FlatAll(ApplyAll(ops, p).0), ApplyAll(ops, p).1)
    decreases ops
  {
    hide Captured, Effect, Flat;
    if ops != [] {
      var mid := After(ops[0], p);
      FlatApplies(ops[0], p);
      FlatAllApplies(ops[1..], mid);
      ApplyAllAppend(Flat(ops[0]), FlatAll(ops[1..]), p);
      var applied := ApplyAll(ops, p).0;
      assert applied[0] == Applied(ops[0], p) && applied[1..] == ApplyAll(ops[1..], mid).0;
    }
  }

  lemma {:induction false} FlatAllAppend(a: seq<Op>, b: seq<Op>)
    ensures FlatAll(a + b) == FlatAll(a) + FlatAll(b)
    decreases |a|
  {
    hide Flat;
    if a == [] {
      assert a + b == b;
    } else {
      assert (a + b)[1..] == a[1..] + b && (a + b)[0] == a[0];
      FlatAllAppend(a[1..], b);
    }
  }

  lemma FlatOne(op: Op)
    ensures FlatAll([op]) == Flat(op)
  {
    hide Flat;
    assert [op][1..] == [];
  }

  lemma {:induction false} InverseAllAppend(a: seq<Op>, b: seq<Op>)
    ensures InverseAll(a + b) == InverseAll(b) + InverseAll(a)
    decreases |a|
  {
    hide Inverse;
    if a == [] {
      assert a + b == b;
    } else {
      assert (a + b)[1..] == a[1..] + b && (a + b)[0] == a[0];
      InverseAllAppend(a[1..], b);
    }
  }

  lemma InverseOne(op: Op)
    ensures InverseAll([op]) == if Inverse(op).Some? then [Inverse(op).value] else []
  {
    hide Inverse;
    assert [op][1..] == [];
  }

  /** The leaves of an inverse are the inverses of the leaves, last to first. */
  lemma {:induction false} FlatInverse(op: Op)
    ensures InverseAll(Flat(op)) == if Inverse(op).Some? then Flat(Inverse(op).value) else []
    decreases op
  {
    hide InverseSimple;
    if op.Batch? {
      FlatInverses(op.ops);
    } else {
      InverseOne(op);
      assert !InverseSimple(op).Batch? by { InverseIsSingle(op); }
    }
  }

  lemma InverseIsSingle(op: Op)
    requires !op.Batch?
    ensures !InverseSimple(op).Batch?
  {
  }

  lemma {:induction false} FlatInverses(ops: seq<Op>)
    ensures InverseAll(FlatAll(ops)) == FlatAll(InverseAll(ops))
    decreases ops
  {
    hide InverseSimple, Flat;
    if ops != [] {
      var first := Inverse(ops[0]);
      FlatInverse(ops[0]);
      FlatInverses(ops[1..]);
      InverseAllAppend(Flat(ops[0]), FlatAll(ops[1..]));
      FlatAllAppend(InverseAll(ops[1..]), if first.Some? then [first.value] else []);
      if first.Some? {
        FlatOne(first.value);
      }
    }
  }

  // ---------------------------------------------------------------- undoing a list of single operations

  /** The project once the operations are applied first to last and undone last to first. */
  function Undone(ops: seq<Op>, p: Project): Project
    requires Singles(ops)
  {
    if ops == [] then p
    else
      CapturedPayload(ops[0], p);
      After(InverseSimple(Applied(ops[0], p)), Undone(ops[1..], After(ops[0], p)))
  }

  lemma {:induction false} UndoneIs(ops: seq<Op>, p: Project)
    requires Singles(ops)
    ensures ApplyAll(InverseAll(ApplyAll(ops, p).0), ApplyAll(ops, p).1).1 == Undone(ops, p)
    decreases |ops|
  {
    hide Captured, Effect, InverseSimple, ApplyAll, InverseAll;
    if ops == [] {
      ApplyNothing(p);
      NoInverses();
      ApplyNothing(p);
    } else {
      var mid := After(ops[0], p);
      UndoneIs(ops[1..], mid);
      ApplyNext(ops, p);
      CapturedPayload(ops[0], p);
      var rest := ApplyAll(ops[1..], mid);
      InverseAllAppend([Applied(ops[0], p)], rest.0);
      InverseOne(Applied(ops[0], p));
      ApplyAllAppend(InverseAll(rest.0), [InverseSimple(Applied(ops[0], p))], rest.1);
      ApplySingle(InverseSimple(Applied(ops[0], p)), Undone(ops[1..], mid));
    }
  }

  lemma NoInverses()
    ensures InverseAll([]) == []
  {
  }

  /** Undoing any operation is undoing its leaves. */
  lemma UndoableFlat(op: Op, p: Project)
    ensures Singles(Flat(op))
    ensures Undoable(op, p) <==> Flat(op) != [] && Same(Undone(Flat(op), p), p)
    ensures Inverse(Applied(op, p)).Some? ==> After(Inverse(Applied(op, p)).value, After(op, p)) == Undone(Flat(op), p)
  {
    hide Apply, ApplyAll, Inverse, InverseAll, Undone, Hollow, Content, Flat;
    FlatSingles(op);
    InverseIff(op, p);
    FlatApplies(op, p);
    FlatInverse(Applied(op, p));
    UndoneIs(Flat(op), p);
    if Inverse(Applied(op, p)).Some? {
      FlatApplies(Inverse(Applied(op, p)).value, After(op, p));
    }
  }

  /** Redoing any operation is applying its leaves again. */
  lemma RedoesFlat(op: Op, p: Project)
    ensures Singles(Flat(op))
    ensures
      var applied, after := ApplyAll(Flat(op), p).0, ApplyAll(Flat(op), p).1;
      Redoes(op, p) <==> Flat(op) != [] && Same(ApplyAll(applied, Undone(Flat(op), p)).1, after)
  {
    hide Apply, ApplyAll, Inverse, InverseAll, Undone, Hollow, Content, Flat, Undoable;
    UndoableFlat(op, p);
    FlatSingles(op);
    InverseIff(op, p);
    FlatApplies(op, p);
    FlatApplies(Applied(op, p), Undone(Flat(op), p));
  }

  // ---------------------------------------------------------------- old values

  /** The operation without the old values it may have captured. */
  function Bare(op: Op): Op
    requires !op.Batch?
  {
    match op
    case RenameSymbol(va, name, kind, _, _) => RenameSymbol(va, name, kind, None, None)
    case SetComment(va, scope, text, _) => SetComment(va, scope, text, None)
    case SetFocus(va, _) => SetFocus(va, None)
    case SetGlobalType(va, ty, _) => SetGlobalType(va, ty, None)
    case SetFunctionSignature(va, signature, _) => SetFunctionSignature(va, signature, None)
    case SetStackLocalType(va, offset, ty, _) => SetStackLocalType(va, offset, ty, None)
    case SetStackLocalName(va, offset, name, _) => SetStackLocalName(va, offset, name, None)
    case SetParamName(va, index, name, _) => SetParamName(va, index, name, None)
    case SetFunctionMemory(va, card, _) => SetFunctionMemory(va, card, None)
  }

  /** The operation with the stamp of a captured card erased. */
  function UnstampedOld(op: Op): Op {
    if op.SetFunctionMemory? && op.oldCard.Some? && op.oldCard.value.Some? then
      op.(oldCard := Some(Some(Unstamped(op.oldCard.value.value))))
    else op
  }

  /** What the operation holds as old, or captures in `p`, is what `p` has, stamps aside. */
  predicate Fits(op: Op, p: Project)
    requires !op.Batch?
  {
    UnstampedOld(Captured(op, p)) == UnstampedOld(Captured(Bare(op), p))
  }

  predicate FitsAll(ops: seq<Op>, p: Project)
    requires Singles(ops)
  {
    ops == [] || (Fits(ops[0], p) && FitsAll(ops[1..], After(ops[0], p)))
  }

  lemma FreshFits(op: Op, p: Project)
    requires !op.Batch? && Fresh(op)
    ensures Bare(op) == op && Fits(op, p)
  {
  }

  lemma {:induction false} FreshFitsAll(ops: seq<Op>, p: Project)
    requires Singles(ops) && forall o :: o in ops ==> Fresh(o)
    ensures FitsAll(ops, p)
    decreases |ops|
  {
    hide Apply, Fits, Fresh;
    if ops != [] {
      FreshFits(ops[0], p);
      FreshFitsAll(ops[1..], After(ops[0], p));
    }
  }

  /** What is captured depends on the content, stamps aside. */
  lemma CapturedSame(op: Op, p: Project, q: Project)
    requires !op.Batch? && Same(p, q)
    ensures UnstampedOld(Captured(op, p)) == UnstampedOld(Captured(op, q))
  {
    hide FindVar, Padded, Unstamped, Content;
    SameParts(p, q);
    if op.SetFunctionMemory? {
      SameHasSlots(p, q, MemoryAt(op.va));
    }
  }

  lemma CapturedBare(op: Op, p: Project)
    requires !op.Batch? && Fresh(op)
    ensures !Captured(op, p).Batch? && Bare(Captured(op, p)) == op
  {
    hide FindVar, Padded;
  }

  /** Operations applied in one project fit every project of equal content, and repeat there. */
  lemma {:induction false} AppliedFits(ops: seq<Op>, p: Project, q: Project)
    requires Singles(ops) && (forall o :: o in ops ==> Fresh(o)) && Same(p, q)
    ensures Singles(ApplyAll(ops, p).0) && FitsAll(ApplyAll(ops, p).0, q)
    decreases |ops|
  {
    hide Captured, Effect, Content, Fresh, Fits;
    if ops != [] {
      var o, a := ops[0], Captured(ops[0], p);
      CapturedBare(o, p);
      CapturedStable(o, p, q);
      CapturedSame(o, p, q);
      assert Fits(a, q) by { FitsMeans(a, q); }
      Replay(o, p, q);
      assert Same(After(o, p), After(a, q));
      AppliedFits(ops[1..], After(o, p), After(a, q));
      ApplyNext(ops, p);
      var applied := ApplyAll(ops, p).0;
      assert applied[0] == a && applied[1..] == ApplyAll(ops[1..], After(o, p)).0;
    }
  }

  lemma FitsMeans(op: Op, p: Project)
    requires !op.Batch?
    ensures Fits(op, p) <==> UnstampedOld(Captured(op, p)) == UnstampedOld(Captured(Bare(op), p))
  {
  }
}
