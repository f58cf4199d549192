/** Which entry of a project an operation writes, and why other clients' edits survive its undo. */
module Slots {
  import opened Prelude
  import opened Ops
  import opened Undo

  /** One entry of a project that an operation can write. */
  datatype Slot =
    | SymbolAt(va: u64)
    | CommentAt(va: u64, scope: CommentScope)
    | FocusSlot
    | GlobalAt(va: u64)
    | SignatureAt(va: u64)
    | FrameAt(va: u64)
    | MemoryAt(va: u64)

  function SlotOf(op: Op): Slot
    requires !op.Batch?
  {
    match op
    case RenameSymbol(va, _, _, _, _) => SymbolAt(va)
    case SetComment(va, scope, _, _) => CommentAt(va, scope)
    case SetFocus(_, _) => FocusSlot
    case SetGlobalType(va, _, _) => GlobalAt(va)
    case SetFunctionSignature(va, _, _) => SignatureAt(va)
    case SetStackLocalType(va, _, _, _) => FrameAt(va)
    case SetStackLocalName(va, _, _, _) => FrameAt(va)
    case SetParamName(va, _, _, _) => SignatureAt(va)
    case SetFunctionMemory(va, _, _) => MemoryAt(va)
  }

  function UnstampedAt(p: Project, va: u64): Option<Card> {
    if va in p.memory then Some(Unstamped(p.memory[va])) else None
  }

  /** Two projects hold the same in one slot, sequence stamps aside. */
  predicate SameSlot(p: Project, q: Project, slot: Slot) {
    match slot
    case SymbolAt(va) => Lookup(p.symbols, va) == Lookup(q.symbols, va)
    case CommentAt(va, scope) => Lookup(p.comments, (va, scope)) == Lookup(q.comments, (va, scope))
    case FocusSlot => p.focus == q.focus
    case GlobalAt(va) => Lookup(p.globals, va) == Lookup(q.globals, va)
    case SignatureAt(va) => Lookup(p.signatures, va) == Lookup(q.signatures, va)
    case FrameAt(va) => Lookup(p.frames, va) == Lookup(q.frames, va)
    case MemoryAt(va) => UnstampedAt(p, va) == UnstampedAt(q, va)
  }

  /** An operation writes its own slot and no other. */
  lemma OnlyOwnSlot(op: Op, p: Project, slot: Slot)
    requires !op.Batch? && slot != SlotOf(op)
    ensures SameSlot(p, After(op, p), slot)
    ensures After(op, p).functionEntries == p.functionEntries && After(op, p).opSeq == p.opSeq
  {
    hide Captured, Effect;
    CapturedPayload(op, p);
    EffectOnlyOwn(Captured(op, p), p, slot);
  }

  // Each field of a project, after one operation.

  lemma SymbolsAfter(op: Op, p: Project)
    requires !op.Batch?
    ensures Effect(op, p).symbols ==
      if op.RenameSymbol? then p.symbols[op.va := Symbol(op.name, op.kind)] else p.symbols
  {
    hide Upsert, WithParam, FrameOf, SignatureOf, NameEdit, Card.IsClear;
  }

  lemma CommentsAfter(op: Op, p: Project)
    requires !op.Batch?
    ensures Effect(op, p).comments ==
      if op.SetComment? then p.comments[(op.va, op.scope) := op.text] else p.comments
  {
    hide Upsert, WithParam, FrameOf, SignatureOf, NameEdit, Card.IsClear;
  }

  lemma FocusAfter(op: Op, p: Project)
    requires !op.Batch?
    ensures Effect(op, p).focus == if op.SetFocus? && op.va in p.functionEntries then Some(op.va) else p.focus
  {
    hide Upsert, WithParam, FrameOf, SignatureOf, NameEdit, Card.IsClear;
  }

  lemma GlobalsAfter(op: Op, p: Project)
    requires !op.Batch?
    ensures Effect(op, p).globals == if op.SetGlobalType? then p.globals[op.va := op.ty] else p.globals
  {
    hide Upsert, WithParam, FrameOf, SignatureOf, NameEdit, Card.IsClear;
  }

  lemma SignaturesAfter(op: Op, p: Project)
    requires !op.Batch?
    ensures Effect(op, p).signatures ==
      if op.SetFunctionSignature? then p.signatures[op.va := op.signature]
      else if op.SetParamName? then
        p.signatures[op.functionVa := WithParam(SignatureOf(p, op.functionVa), op.index, op.name)]
      else p.signatures
  {
    hide Upsert, WithParam, FrameOf, SignatureOf, NameEdit, Card.IsClear;
  }

  lemma FramesAfter(op: Op, p: Project)
    requires !op.Batch?
    ensures Effect(op, p).frames ==
      if op.SetStackLocalType? then
        p.frames[op.functionVa := Upsert(FrameOf(p, op.functionVa), op.offset, SetTy(op.ty))]
      else if op.SetStackLocalName? then
        p.frames[op.functionVa := Upsert(FrameOf(p, op.functionVa), op.offset, NameEdit(op.name))]
      else p.frames
  {
    hide Upsert, WithParam, FrameOf, SignatureOf, NameEdit, Card.IsClear;
  }

  lemma FieldsAfter(op: Op, p: Project, slot: Slot)
    requires !op.Batch?
    ensures var q := Effect(op, p);
      match slot
      case SymbolAt(va) => Lookup(q.symbols, va) ==
        if op.RenameSymbol? && op.va == va then Some(Symbol(op.name, op.kind)) else Lookup(p.symbols, va)
      case CommentAt(va, scope) => Lookup(q.comments, (va, scope)) ==
        if op.SetComment? && op.va == va && op.scope == scope then Some(op.text) else Lookup(p.comments, (va, scope))
      case FocusSlot => q.focus == if op.SetFocus? && op.va in p.functionEntries then Some(op.va) else p.focus
      case GlobalAt(va) => Lookup(q.globals, va) ==
        if op.SetGlobalType? && op.va == va then Some(op.ty) else Lookup(p.globals, va)
      case SignatureAt(va) => Lookup(q.signatures, va) ==
        if op.SetFunctionSignature? && op.va == va then Some(op.signature)
        else if op.SetParamName? && op.functionVa == va then Some(WithParam(SignatureOf(p, va), op.index, op.name))
        else Lookup(p.signatures, va)
      case FrameAt(va) => Lookup(q.frames, va) ==
        if op.SetStackLocalType? && op.functionVa == va then Some(Upsert(FrameOf(p, va), op.offset, SetTy(op.ty)))
        else if op.SetStackLocalName? && op.functionVa == va then
          Some(Upsert(FrameOf(p, va), op.offset, NameEdit(op.name)))
        else Lookup(p.frames, va)
      case MemoryAt(va) =>
        var card := if op.SetFunctionMemory? then Some(op.card.(va := va)) else None;
        UnstampedAt(q, va) == (
          if !op.SetFunctionMemory? || op.va != va then UnstampedAt(p, va)
          else if op.card.IsClear() then None
          else Some(Unstamped(card.value)))
  {
    hide Effect, Upsert, WithParam, FrameOf, SignatureOf, NameEdit, Card.IsClear;
    match slot
    case SymbolAt(_) => SymbolsAfter(op, p);
    case CommentAt(_, _) => CommentsAfter(op, p);
    case FocusSlot => FocusAfter(op, p);
    case GlobalAt(_) => GlobalsAfter(op, p);
    case SignatureAt(_) => SignaturesAfter(op, p);
    case FrameAt(_) => FramesAfter(op, p);
    case MemoryAt(_) => EffectParts(op, p);
  }

  lemma EffectOnlyOwn(op: Op, p: Project, slot: Slot)
    requires !op.Batch? && slot != SlotOf(op)
    ensures SameSlot(p, Effect(op, p), slot)
    ensures Effect(op, p).functionEntries == p.functionEntries && Effect(op, p).opSeq == p.opSeq
  {
    hide Effect, Upsert, WithParam, FrameOf, SignatureOf, NameEdit, Card.IsClear, Unstamped;
    FieldsAfter(op, p, slot);
    EffectParts(op, p);
  }

  /** What an operation writes there is what it says. */
  predicate Carries(op: Op, p: Project, q: Project)
    requires !op.Batch?
  {
    match op
    case RenameSymbol(va, name, kind, _, _) => Lookup(q.symbols, va) == Some(Symbol(name, kind))
    case SetComment(va, scope, text, _) => Lookup(q.comments, (va, scope)) == Some(text)
    case SetFocus(va, _) => q.focus == if va in p.functionEntries then Some(va) else p.focus
    case SetGlobalType(va, ty, _) => Lookup(q.globals, va) == Some(ty)
    case SetFunctionSignature(va, signature, _) => Lookup(q.signatures, va) == Some(signature)
    case SetStackLocalType(va, offset, ty, _) => va in q.frames && VarAt(q.frames[va], offset, SetTy(ty))
    case SetStackLocalName(va, offset, name, _) => va in q.frames && VarAt(q.frames[va], offset, NameEdit(name))
    case SetParamName(va, index, name, _) =>
      va in q.signatures && index < |q.signatures[va].params| && q.signatures[va].params[index].0 == name
    case SetFunctionMemory(va, card, _) =>
      UnstampedAt(q, va) == if card.IsClear() then None else Some(Unstamped(card.(va := va)))
  }

  lemma WritesPayload(op: Op, p: Project)
    requires !op.Batch?
    ensures Carries(op, p, After(op, p))
  {
    hide Captured, Effect, Upsert, FrameOf, SignatureOf, NameEdit, Card.IsClear, VarAt, WithParam, Unstamped;
    CapturedPayload(op, p);
    FieldsAfter(Captured(op, p), p, SlotOf(op));
    if op.SetStackLocalType? {
      UpsertWrites(FrameOf(p, op.functionVa), op.offset, SetTy(op.ty));
    } else if op.SetStackLocalName? {
      UpsertWrites(FrameOf(p, op.functionVa), op.offset, NameEdit(op.name));
    } else if op.SetParamName? {
      ParamWritten(SignatureOf(p, op.functionVa), op.index, op.name);
    }
  }

  lemma ParamWritten(s: Signature, index: nat, name: string)
    ensures var t := WithParam(s, index, name);
      && index < |t.params| && t.params[index].0 == name
      && forall k :: 0 <= k < |s.params| && k != index ==> t.params[k] == s.params[k]
  {
    hide Padded;
  }

  /** The variable an edit of `offset` addresses is there and carries the edit. */
  predicate VarAt(frame: Frame, offset: int, edit: VarEdit) {
    var list := ListFor(frame, offset);
    var at := IndexOf(list, offset);
    at.Some? && Edited(list[at.value], edit) == list[at.value]
  }

  lemma UpsertWrites(frame: Frame, offset: int, edit: VarEdit)
    ensures VarAt(Upsert(frame, offset, edit), offset, edit)
  {
    UpsertFinds(frame, offset, edit);
  }

  /**
   * What ends up in the slot depends on the payload and on what was in the slot. The one other thing
   * that matters is the name a parameter rename gives the signature where there is none.
   */
  lemma SlotDecidesIff(op: Op, a: Project, b: Project)
    requires !op.Batch? && SameSlot(a, b, SlotOf(op)) && a.functionEntries == b.functionEntries
    ensures SameSlot(Effect(op, a), Effect(op, b), SlotOf(op)) <==>
      (op.SetParamName? ==> SignatureOf(a, op.functionVa).name == SignatureOf(b, op.functionVa).name)
  {
    hide Effect, Upsert, Padded, NameEdit, Card.IsClear, Unstamped;
    FieldsAfter(op, a, SlotOf(op));
    FieldsAfter(op, b, SlotOf(op));
    if op.SetParamName? {
      var s, t := SignatureOf(a, op.functionVa), SignatureOf(b, op.functionVa);
      assert s.(name := t.name) == t;
      assert WithParam(s, op.index, op.name).name == s.name && WithParam(t, op.index, op.name).name == t.name;
    }
  }

  /** In particular, a parameter rename of a signature that is there depends on that signature alone. */
  lemma SlotDecides(op: Op, a: Project, b: Project)
    requires !op.Batch? && SameSlot(a, b, SlotOf(op)) && a.functionEntries == b.functionEntries
    requires op.SetParamName? ==> op.functionVa in a.signatures
    ensures SameSlot(Effect(op, a), Effect(op, b), SlotOf(op))
  {
    hide Effect, Unstamped;
    SlotDecidesIff(op, a, b);
  }

  /** An inverse has nothing left to capture. */
  lemma InverseComplete(op: Op, p: Project, q: Project)
    requires !op.Batch?
    ensures var inverse := InverseSimple(Applied(op, p));
      !inverse.Batch? && SlotOf(inverse) == SlotOf(op) && After(inverse, q) == Effect(inverse, q)
  {
    hide Effect, FindVar, Padded, FrameOf, SignatureOf;
  }

  lemma SameHasSlots(p: Project, q: Project, slot: Slot)
    requires Same(p, q)
    ensures SameSlot(p, q, slot)
  {
    SameParts(p, q);
    if slot.MemoryAt? {
      assert AllUnstamped(p.memory) == Content(p).memory == Content(q).memory == AllUnstamped(q.memory);
      if slot.va in p.memory {
        assert AllUnstamped(p.memory)[slot.va] == Unstamped(p.memory[slot.va]);
        assert slot.va in AllUnstamped(q.memory);
      }
      if slot.va in q.memory {
        assert slot.va in AllUnstamped(p.memory);
      }
    }
  }

  /**
   * Undo among several clients: as long as nobody else wrote the operation's slot, undoing it puts
   * back what was there, and leaves every other slot as the others left it.
   */
  lemma UndoIsLocal(op: Op, p: Project, now: Project)
    requires !op.Batch? && Fresh(op) && WellKept(p) && Restorable(op, p)
    requires SameSlot(After(op, p), now, SlotOf(op)) && now.functionEntries == p.functionEntries
    ensures Inverse(Applied(op, p)).Some?
    ensures var undone := After(Inverse(Applied(op, p)).value, now);
      && SameSlot(undone, p, SlotOf(op))
      && forall slot :: slot != SlotOf(op) ==> SameSlot(undone, now, slot)
  {
    hide Effect, Captured, Restorable, WellKept, Fresh, Content, SameSlot;
    CapturedPayload(op, p);
    var inverse, after := InverseSimple(Applied(op, p)), After(op, p);
    UndoIff(op, p);
    InverseComplete(op, p, now);
    InverseComplete(op, p, after);
    EntriesKept(op, p);
    ParamSigned(op, p);
    SlotDecides(inverse, after, now);
    SameHasSlots(After(inverse, after), p, SlotOf(op));
    SlotTransitive(Effect(inverse, now), Effect(inverse, after), p, SlotOf(op));
    forall slot | slot != SlotOf(op) ensures SameSlot(After(inverse, now), now, slot) {
      OnlyOwnSlot(inverse, now, slot);
      SlotSymmetric(now, After(inverse, now), slot);
    }
  }

  lemma EntriesKept(op: Op, p: Project)
    requires !op.Batch?
    ensures After(op, p).functionEntries == p.functionEntries
  {
    hide Captured, Effect;
    CapturedPayload(op, p);
    EffectParts(Captured(op, p), p);
  }

  lemma ParamSigned(op: Op, p: Project)
    requires !op.Batch?
    ensures var inverse := InverseSimple(Applied(op, p));
      inverse.SetParamName? ==> inverse.functionVa in After(op, p).signatures
  {
    hide Padded, WithParam, SignatureOf;
  }

  lemma SlotTransitive(a: Project, b: Project, c: Project, slot: Slot)
    requires SameSlot(b, a, slot) && SameSlot(b, c, slot)
    ensures SameSlot(a, c, slot)
  {
  }

  lemma SlotSymmetric(a: Project, b: Project, slot: Slot)
    requires SameSlot(a, b, slot)
    ensures SameSlot(b, a, slot)
  {
  }
}
