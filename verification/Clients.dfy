/** Undo among several clients: what it leaves of the others' edits, down to one variable or parameter. */
module Clients {
  import opened Leaves
  import opened Ops
  import opened Prelude
  import opened Repeats
  import opened Restores
  import opened Undo
  import opened Writer

  /** A variable with the field that the operation edits taken from another. */
  function FieldFrom(o: Op, v: StackVar, from: StackVar): StackVar
    requires o.SetStackLocalType? || o.SetStackLocalName?
  {
    if o.SetStackLocalType? then v.(ty := from.ty) else v.(name := from.name)
  }

  /**
   * Undoing the edit of a variable in a project that others have gone on changing writes that field of
   * that variable and nothing else; and it writes what was there exactly if there was something.
   */
  lemma VarUndoIsLocal(o: Op, p: Project, now: Project)
    requires (o.SetStackLocalType? || o.SetStackLocalName?) && Fresh(o)
    requires o.functionVa in now.frames && VarAt(now.frames[o.functionVa], o.offset).Some?
    ensures Inverse(Applied(o, p)).Some?
    ensures
      var va, undone := o.functionVa, After(Inverse(Applied(o, p)).value, now);
      && va in undone.frames && undone == now.(frames := now.frames[va := undone.frames[va]])
      && (forall offset :: offset != o.offset ==>
           VarAt(undone.frames[va], offset) == VarAt(now.frames[va], offset))
      && VarAt(undone.frames[va], o.offset).Some?
      && var v, found := VarAt(undone.frames[va], o.offset).value, VarAt(now.frames[va], o.offset).value;
         && v == FieldFrom(o, found, v)
         && (Restorable(o, p) <==>
              va in p.frames && VarAt(p.frames[va], o.offset).Some?
              && v == FieldFrom(o, found, VarAt(p.frames[va], o.offset).value))
  {
    hide Apply, Upsert, VarAt, TypeBack, NameBack, FrameOf, Fresh, Fits, InverseSimple;
    var va := o.functionVa;
    FreshFits(o, p);
    OldFrame(o, p);
    var b := InverseSimple(Applied(o, p));
    OnlyFrames(b, now);
    FrameThere(now, va);
    AfterFrames(b, now);
    forall offset ensures VarAt(Upsert(now.frames[va], o.offset, EditOf(b)), offset) ==
      if offset != o.offset then VarAt(now.frames[va], offset)
      else Some(Edited(VarAt(now.frames[va], o.offset).value, EditOf(b)))
    {
      VarAtUpsert(now.frames[va], o.offset, EditOf(b), offset);
    }
    VarFoundMeans(o, p);
    if va in p.frames {
      FrameThere(p, va);
      VarAtIs(p.frames[va], o.offset);
    }
  }

  /** A frame edit changes nothing but the frame. */
  lemma OnlyFrames(o: Op, p: Project)
    requires o.SetStackLocalType? || o.SetStackLocalName?
    ensures var after := After(o, p);
      o.functionVa in after.frames && after == p.(frames := p.frames[o.functionVa := after.frames[o.functionVa]])
  {
    hide Upsert, FindVar;
  }

  /** The same for the name of one parameter. */
  lemma ParamUndoIsLocal(o: Op, p: Project, now: Project)
    requires o.SetParamName? && Fresh(o)
    requires o.functionVa in now.signatures && o.index < |now.signatures[o.functionVa].params|
    ensures Inverse(Applied(o, p)).Some?
    ensures
      var va, undone := o.functionVa, After(Inverse(Applied(o, p)).value, now);
      && va in undone.signatures && undone == now.(signatures := now.signatures[va := undone.signatures[va]])
      && var s, found := undone.signatures[va], now.signatures[va];
         && |s.params| == |found.params| && s.(params := found.params) == found
         && (forall i :: 0 <= i < |s.params| && i != o.index ==> s.params[i] == found.params[i])
         && s.params[o.index].1 == found.params[o.index].1
         && (Restorable(o, p) ==> s.params[o.index].0 == p.signatures[va].params[o.index].0)
  {
    hide Apply, WithParam, SignatureOf, Fresh, Fits, InverseSimple, Padded;
    var va := o.functionVa;
    FreshFits(o, p);
    OldSignature(o, p);
    var b := InverseSimple(Applied(o, p));
    OnlySignatures(b, now);
    SignatureThere(now, va);
    AfterSignatures(b, now);
    WithParamAt(now.signatures[va], b.index, b.name);
    if Restorable(o, p) {
      SignatureThere(p, va);
    }
  }

  lemma OnlySignatures(o: Op, p: Project)
    requires o.SetParamName?
    ensures var after := After(o, p);
      && o.functionVa in after.signatures
      && after == p.(signatures := p.signatures[o.functionVa := after.signatures[o.functionVa]])
  {
    hide Padded, WithParam, SignatureOf;
  }

  /** A client that undoes its comment takes another client's later comment there away with it. */
  lemma UndoOverwritesOthers(s: State, mine: string, yours: string, va: u64, text: string, other: string)
    requires mine != yours && (va, AddressScope) in s.project.comments
    ensures
      var was := s.project.comments[(va, AddressScope)];
      var a := Handled(s, ApplyOp(mine, SetComment(va, AddressScope, text, None)), true).0;
      var b := Handled(a, ApplyOp(yours, SetComment(va, AddressScope, other, None)), true).0;
      var c := Handled(b, UndoLast(mine), true).0;
      && Lookup(b.project.comments, (va, AddressScope)) == Some(other)
      && Lookup(c.project.comments, (va, AddressScope)) == Some(was)
  {
  }
}
