/** What undoing a list of operations leaves in every field of a project, and when that is what was there. */
module Restores {
  import opened Prelude
  import Decimals
  import opened Leaves
  import opened Ops
  import opened Slots
  import opened Undo

  // ---------------------------------------------------------------- symbols, comments, globals

  predicate Renames(o: Op, va: u64) { o.RenameSymbol? && o.va == va }

  predicate Comments(o: Op, va: u64, scope: CommentScope) { o.SetComment? && o.va == va && o.scope == scope }

  predicate TypesGlobal(o: Op, va: u64) { o.SetGlobalType? && o.va == va }

  /** An entry that was there is there again; one that was not is there exactly if something wrote it. */
  predicate EntryBack<V(==)>(was: Option<V>, now: Option<V>, written: bool) {
    if was.Some? then now == was else now.Some? == written
  }

  lemma AfterSymbols(o: Op, p: Project)
    requires !o.Batch?
    ensures After(o, p).symbols ==
      if o.RenameSymbol? then p.symbols[o.va := Symbol(o.name, o.kind)] else p.symbols
  {
    hide Captured, Effect;
    CapturedPayload(o, p);
    SymbolsAfter(Captured(o, p), p);
  }

  lemma OldSymbol(o: Op, p: Project)
    requires !o.Batch? && Fits(o, p)
    ensures var b := InverseSimple(Applied(o, p));
      && !Applied(o, p).Batch? && !b.Batch? && (b.RenameSymbol? <==> o.RenameSymbol?)
      && (o.RenameSymbol? ==> b.va == o.va && (o.va in p.symbols ==> Symbol(b.name, b.kind) == p.symbols[o.va]))
  {
    hide FindVar, Padded;
  }

  lemma {:induction false} SymbolBack(ops: seq<Op>, p: Project, va: u64)
    requires Singles(ops) && FitsAll(ops, p)
    ensures EntryBack(Lookup(p.symbols, va), Lookup(Undone(ops, p).symbols, va), exists o :: o in ops && Renames(o, va))
    decreases |ops|
  {
    hide Apply, Fits, InverseSimple;
    if ops != [] {
      var o, mid := ops[0], After(ops[0], p);
      SymbolBack(ops[1..], mid, va);
      OldSymbol(o, p);
      AfterSymbols(o, p);
      AfterSymbols(InverseSimple(Applied(o, p)), Undone(ops[1..], mid));
      assert forall x :: x in ops <==> x == o || x in ops[1..];
    }
  }

  lemma AfterComments(o: Op, p: Project)
    requires !o.Batch?
    ensures After(o, p).comments == if o.SetComment? then p.comments[(o.va, o.scope) := o.text] else p.comments
  {
    hide Captured, Effect;
    CapturedPayload(o, p);
    CommentsAfter(Captured(o, p), p);
  }

  lemma OldComment(o: Op, p: Project)
    requires !o.Batch? && Fits(o, p)
    ensures var b := InverseSimple(Applied(o, p));
      && !Applied(o, p).Batch? && !b.Batch? && (b.SetComment? <==> o.SetComment?)
      && (o.SetComment? ==>
           && b.va == o.va && b.scope == o.scope
           && ((o.va, o.scope) in p.comments ==> b.text == p.comments[(o.va, o.scope)]))
  {
    hide FindVar, Padded;
  }

  lemma {:induction false} CommentBack(ops: seq<Op>, p: Project, va: u64, scope: CommentScope)
    requires Singles(ops) && FitsAll(ops, p)
    ensures EntryBack(Lookup(p.comments, (va, scope)), Lookup(Undone(ops, p).comments, (va, scope)),
                      exists o :: o in ops && Comments(o, va, scope))
    decreases |ops|
  {
    hide Apply, Fits, InverseSimple;
    if ops != [] {
      var o, mid := ops[0], After(ops[0], p);
      CommentBack(ops[1..], mid, va, scope);
      OldComment(o, p);
      AfterComments(o, p);
      AfterComments(InverseSimple(Applied(o, p)), Undone(ops[1..], mid));
      assert forall x :: x in ops <==> x == o || x in ops[1..];
    }
  }

  lemma AfterGlobals(o: Op, p: Project)
    requires !o.Batch?
    ensures After(o, p).globals == if o.SetGlobalType? then p.globals[o.va := o.ty] else p.globals
  {
    hide Captured, Effect;
    CapturedPayload(o, p);
    GlobalsAfter(Captured(o, p), p);
  }

  lemma OldGlobal(o: Op, p: Project)
    requires !o.Batch? && Fits(o, p)
    ensures var b := InverseSimple(Applied(o, p));
      && !Applied(o, p).Batch? && !b.Batch? && (b.SetGlobalType? <==> o.SetGlobalType?)
      && (o.SetGlobalType? ==> b.va == o.va && (o.va in p.globals ==> b.ty == p.globals[o.va]))
  {
    hide FindVar, Padded;
  }

  lemma {:induction false} GlobalBack(ops: seq<Op>, p: Project, va: u64)
    requires Singles(ops) && FitsAll(ops, p)
    ensures EntryBack(Lookup(p.globals, va), Lookup(Undone(ops, p).globals, va), exists o :: o in ops && TypesGlobal(o, va))
    decreases |ops|
  {
    hide Apply, Fits, InverseSimple;
    if ops != [] {
      var o, mid := ops[0], After(ops[0], p);
      GlobalBack(ops[1..], mid, va);
      OldGlobal(o, p);
      AfterGlobals(o, p);
      AfterGlobals(InverseSimple(Applied(o, p)), Undone(ops[1..], mid));
      assert forall x :: x in ops <==> x == o || x in ops[1..];
    }
  }

  // ---------------------------------------------------------------- focus

  lemma AfterFocus(o: Op, p: Project)
    requires !o.Batch?
    ensures After(o, p).focus == if o.SetFocus? && o.va in p.functionEntries then Some(o.va) else p.focus
    ensures After(o, p).functionEntries == p.functionEntries
  {
    hide Captured, Effect;
    CapturedPayload(o, p);
    FocusAfter(Captured(o, p), p);
    EffectParts(Captured(o, p), p);
  }

  lemma OldFocus(o: Op, p: Project)
    requires !o.Batch? && Fits(o, p)
    ensures var b := InverseSimple(Applied(o, p));
      && !Applied(o, p).Batch? && !b.Batch? && (b.SetFocus? <==> o.SetFocus?)
      && (o.SetFocus? ==> b.va == Or(p.focus, o.va))
  {
    hide FindVar, Padded;
  }

  /** The operation moves the focus. */
  predicate Focuses(o: Op, entries: set<u64>) { o.SetFocus? && o.va in entries }

  predicate FocusValid(p: Project) { p.focus.Some? && p.focus.value in p.functionEntries }

  /** A valid focus is back; another one is back unless it was moved, and then some function has it. */
  lemma {:induction false} FocusBack(ops: seq<Op>, p: Project)
    requires Singles(ops) && FitsAll(ops, p)
    ensures var q := Undone(ops, p);
      && q.functionEntries == p.functionEntries
      && (if FocusValid(p) || !(exists o :: o in ops && Focuses(o, p.functionEntries)) then q.focus == p.focus
          else FocusValid(q))
    decreases |ops|
  {
    hide Apply, Fits, InverseSimple;
    if ops != [] {
      var o, mid := ops[0], After(ops[0], p);
      AfterFocus(o, p);
      FocusBack(ops[1..], mid);
      OldFocus(o, p);
      AfterFocus(InverseSimple(Applied(o, p)), Undone(ops[1..], mid));
      assert forall x :: x in ops <==> x == o || x in ops[1..];
    }
  }

  // ---------------------------------------------------------------- memory

  lemma AfterMemory(o: Op, p: Project)
    requires !o.Batch?
    ensures After(o, p).memory == if o.SetFunctionMemory? then MemoryAfter(p.memory, o.va, o.card, p.opSeq + 1) else p.memory
  {
    hide Captured, Effect;
    CapturedPayload(o, p);
    EffectParts(Captured(o, p), p);
  }

  lemma OldMemory(o: Op, p: Project)
    requires !o.Batch? && Fits(o, p)
    ensures var b := InverseSimple(Applied(o, p));
      && !Applied(o, p).Batch? && !b.Batch? && (b.SetFunctionMemory? <==> o.SetFunctionMemory?)
      && (o.SetFunctionMemory? ==>
           && b.va == o.va
           && if o.va in p.memory then Unstamped(b.card) == Unstamped(p.memory[o.va]) else b.card == ClearCard(o.va))
  {
    hide FindVar, Padded;
  }

  lemma SameCardAfter(memory: map<u64, Card>, va: u64, a: Card, b: Card, stamp: nat)
    requires Unstamped(a) == Unstamped(b)
    ensures MemoryAfter(memory, va, a, stamp) == MemoryAfter(memory, va, b, stamp)
  {
    assert a.(updatedSeq := stamp) == b.(updatedSeq := stamp);
    assert a.(va := va, updatedSeq := stamp) == b.(va := va, updatedSeq := stamp);
    assert a.IsClear() == Unstamped(a).IsClear() == b.IsClear();
  }

  /** Cards come back, stamps aside. */
  lemma {:induction false} MemoryBack(ops: seq<Op>, p: Project)
    requires Singles(ops) && FitsAll(ops, p) && WellKept(p)
    ensures AllUnstamped(Undone(ops, p).memory) == AllUnstamped(p.memory)
    decreases |ops|
  {
    hide Apply, Fits, InverseSimple, AllUnstamped, MemoryAfter, Unstamped, WellKept;
    if ops != [] {
      var o, mid := ops[0], After(ops[0], p);
      AfterWellKept(o, p);
      MemoryBack(ops[1..], mid);
      OldMemory(o, p);
      AfterMemory(o, p);
      var b, u := InverseSimple(Applied(o, p)), Undone(ops[1..], mid);
      AfterMemory(b, u);
      if o.SetFunctionMemory? {
        MemoryStepBack(p, o.va, o.card, p.opSeq + 1, b.card, u.memory, u.opSeq + 1);
      }
    }
  }

  lemma MemoryStepBack(p: Project, va: u64, card: Card, stamp: nat, back: Card, found: map<u64, Card>, later: nat)
    requires WellKept(p)
    requires if va in p.memory then Unstamped(back) == Unstamped(p.memory[va]) else back == ClearCard(va)
    requires AllUnstamped(found) == AllUnstamped(MemoryAfter(p.memory, va, card, stamp))
    ensures AllUnstamped(MemoryAfter(found, va, back, later)) == AllUnstamped(p.memory)
  {
    hide AllUnstamped, MemoryAfter, Unstamped;
    var mid := MemoryAfter(p.memory, va, card, stamp);
    var was := if va in p.memory then p.memory[va] else ClearCard(va);
    SameCardAfter(found, va, back, was, later);
    UnstampedAfter(found, va, was, later, stamp);
    UnstampedAfter(mid, va, was, stamp, stamp);
    MemoryRestored(p.memory, va, card, was, stamp);
  }

  // ---------------------------------------------------------------- signatures

  predicate Replaces(o: Op, va: u64) { o.SetFunctionSignature? && o.va == va }

  predicate NamesParam(o: Op, va: u64) { o.SetParamName? && o.functionVa == va }

  /** The operation writes the signature of `va`. */
  predicate Signs(o: Op, va: u64) { Replaces(o, va) || NamesParam(o, va) }

  /** Until the signature is replaced only parameters below `n` are named. */
  predicate ParamsBelow(ops: seq<Op>, va: u64, n: nat) {
    ops == [] || (
      if Replaces(ops[0], va) then true
      else (NamesParam(ops[0], va) ==> ops[0].index < n) && ParamsBelow(ops[1..], va, n))
  }

  lemma AfterSignatures(o: Op, p: Project)
    requires !o.Batch?
    ensures After(o, p).signatures ==
      if o.SetFunctionSignature? then p.signatures[o.va := o.signature]
      else if o.SetParamName? then
        p.signatures[o.functionVa := WithParam(SignatureOf(p, o.functionVa), o.index, o.name)]
      else p.signatures
  {
    hide Captured, Effect, WithParam, SignatureOf;
    CapturedPayload(o, p);
    SignaturesAfter(Captured(o, p), p);
  }

  lemma OldSignature(o: Op, p: Project)
    requires !o.Batch? && Fits(o, p)
    ensures var b := InverseSimple(Applied(o, p));
      && !Applied(o, p).Batch? && !b.Batch?
      && (b.SetFunctionSignature? <==> o.SetFunctionSignature?) && (b.SetParamName? <==> o.SetParamName?)
      && (o.SetFunctionSignature? ==>
           b.va == o.va && (o.va in p.signatures ==> b.signature == p.signatures[o.va]))
      && (o.SetParamName? ==>
           && b.functionVa == o.functionVa && b.index == o.index
           && b.name == Padded(SignatureOf(p, o.functionVa).params, o.index)[o.index].0)
  {
    hide FindVar, Padded, SignatureOf;
  }

  lemma WithParamLength(s: Signature, index: nat, name: string)
    ensures |WithParam(s, index, name).params| == if index < |s.params| then |s.params| else index + 1
  {
    PaddedCount(s.params, index);
  }

  lemma {:induction false} PaddedCount(params: seq<(string, DataType)>, index: nat)
    ensures |Padded(params, index)| == if index < |params| then |params| else index + 1
    decreases index + 1 - |params|
  {
    if |params| <= index {
      PaddedCount(params + [("arg" + Decimals.Decimal(|params|), Unknown(0))], index);
    }
  }

  /** What undoing leaves of the signature at `va`. */
  predicate SignatureBack(ops: seq<Op>, p: Project, q: Project, va: u64) {
    if va in p.signatures then
      && va in q.signatures
      && if ParamsBelow(ops, va, |p.signatures[va].params|) then q.signatures[va] == p.signatures[va]
         else |q.signatures[va].params| > |p.signatures[va].params|
    else va in q.signatures <==> exists o :: o in ops && Signs(o, va)
  }

  lemma {:induction false} SignatureIsBack(ops: seq<Op>, p: Project, va: u64)
    requires Singles(ops) && FitsAll(ops, p)
    ensures SignatureBack(ops, p, Undone(ops, p), va)
    decreases |ops|
  {
    hide Apply, Fits, InverseSimple, WithParam, SignatureOf, Padded;
    if ops != [] {
      var o, mid := ops[0], After(ops[0], p);
      SignatureIsBack(ops[1..], mid, va);
      OldSignature(o, p);
      AfterSignatures(o, p);
      var b, u := InverseSimple(Applied(o, p)), Undone(ops[1..], mid);
      AfterSignatures(b, u);
      assert forall x :: x in ops <==> x == o || x in ops[1..];
      if NamesParam(o, va) && va in p.signatures {
        SignatureThere(u, va);
        ParamStepBack(p, va, o.index, o.name, ops[1..], u.signatures[va], b.name);
      } else if Signs(o, va) {
        assert va in mid.signatures && va in u.signatures && va in After(b, u).signatures;
        assert o in ops;
      } else {
        assert Lookup(mid.signatures, va) == Lookup(p.signatures, va);
        assert Lookup(After(b, u).signatures, va) == Lookup(u.signatures, va);
        assert (exists x :: x in ops && Signs(x, va)) <==> exists x :: x in ops[1..] && Signs(x, va);
      }
    }
  }

  lemma SignatureThere(p: Project, va: u64)
    requires va in p.signatures
    ensures SignatureOf(p, va) == p.signatures[va]
  {
  }

  lemma ParamStepBack(
    p: Project, va: u64, index: nat, name: string, rest: seq<Op>, found: Signature, back: string)
    requires va in p.signatures
    requires back == Padded(SignatureOf(p, va).params, index)[index].0
    requires var s1 := WithParam(SignatureOf(p, va), index, name);
      if ParamsBelow(rest, va, |s1.params|) then found == s1 else |found.params| > |s1.params|
    ensures var s, t := p.signatures[va], WithParam(found, index, back);
      if index < |s.params| && ParamsBelow(rest, va, |s.params|) then t == s else |t.params| > |s.params|
  {
    hide ParamsBelow;
    var s := p.signatures[va];
    assert SignatureOf(p, va) == s;
    WithParamLength(s, index, name);
    WithParamLength(found, index, back);
    if index < |s.params| {
      var s1 := WithParam(s, index, name);
      if found == s1 {
        assert s1.params[index := (back, s1.params[index].1)] == s.params;
      }
    }
  }

  // ---------------------------------------------------------------- frames

  predicate TypesVar(o: Op, va: u64, offset: int) { o.SetStackLocalType? && o.functionVa == va && o.offset == offset }

  predicate NamesVar(o: Op, va: u64, offset: int) { o.SetStackLocalName? && o.functionVa == va && o.offset == offset }

  /** The operation writes the frame of `va`. */
  predicate Frames(o: Op, va: u64) { (o.SetStackLocalType? || o.SetStackLocalName?) && o.functionVa == va }

  function EditOf(o: Op): VarEdit
    requires o.SetStackLocalType? || o.SetStackLocalName?
  {
    if o.SetStackLocalType? then SetTy(o.ty) else NameEdit(o.name)
  }

  predicate Present(frame: Frame, offset: int) { IndexOf(ListFor(frame, offset), offset).Some? }

  /** The type an undo writes back at `offset`: that of the variable the operation read. */
  function TypeBack(frame: Frame, offset: int): DataType {
    var v := FindVar(frame, offset);
    if v.Some? then v.value.ty else Unknown(0)
  }

  /** The name an undo writes back: an empty one means none. */
  function NameBack(frame: Frame, offset: int): Option<string> {
    var v := FindVar(frame, offset);
    NameEdit(Or(if v.Some? then v.value.name else None, "")).name
  }

  function BackEdit(o: Op, frame: Frame): VarEdit
    requires o.SetStackLocalType? || o.SetStackLocalName?
  {
    if o.SetStackLocalType? then SetTy(TypeBack(frame, o.offset)) else SetName(NameBack(frame, o.offset))
  }

  /** The variable that edits at its offset reach: the first of that offset in the list for its sign. */
  predicate Addressed(list: seq<StackVar>, k: nat, positive: bool)
    requires k < |list|
  {
    (list[k].offset > 0) == positive && IndexOf(list, list[k].offset) == Some(k)
  }

  predicate AnyTypes(ops: seq<Op>, va: u64, offset: int) {
    exists o :: o in ops && TypesVar(o, va, offset)
  }

  predicate AnyNames(ops: seq<Op>, va: u64, offset: int) {
    exists o :: o in ops && NamesVar(o, va, offset)
  }

  lemma AnyStep(ops: seq<Op>, va: u64, offset: int)
    requires ops != []
    ensures AnyTypes(ops, va, offset) <==> TypesVar(ops[0], va, offset) || AnyTypes(ops[1..], va, offset)
    ensures AnyNames(ops, va, offset) <==> NamesVar(ops[0], va, offset) || AnyNames(ops[1..], va, offset)
  {
    assert forall x :: x in ops <==> x == ops[0] || x in ops[1..];
  }

  function VarBack(ops: seq<Op>, va: u64, frame: Frame, v: StackVar, addressed: bool): StackVar {
    v.(ty := if addressed && AnyTypes(ops, va, v.offset) then TypeBack(frame, v.offset) else v.ty,
       name := if addressed && AnyNames(ops, va, v.offset) then NameBack(frame, v.offset) else v.name)
  }

  function ListBack(ops: seq<Op>, va: u64, frame: Frame, list: seq<StackVar>, positive: bool): (r: seq<StackVar>)
    ensures |r| == |list|
    ensures forall k :: 0 <= k < |r| ==> r[k] == VarBack(ops, va, frame, list[k], Addressed(list, k, positive))
    ensures forall k :: 0 <= k < |r| ==> r[k].offset == list[k].offset
  {
    seq(|list|, k requires 0 <= k < |list| => VarBack(ops, va, frame, list[k], Addressed(list, k, positive)))
  }

  /** The frame with every variable that was edited as undoing the edits leaves it. */
  function FrameBack(ops: seq<Op>, va: u64, frame: Frame): Frame {
    frame.(locals := ListBack(ops, va, frame, frame.locals, false), args := ListBack(ops, va, frame, frame.args, true))
  }

  lemma {:induction false} SameIndex(a: seq<StackVar>, b: seq<StackVar>, offset: int)
    requires |a| == |b| && forall k :: 0 <= k < |a| ==> a[k].offset == b[k].offset
    ensures IndexOf(a, offset) == IndexOf(b, offset)
    decreases |a|
  {
    if a != [] && a[0].offset != offset {
      SameIndex(a[1..], b[1..], offset);
    }
  }

  /** An edit of a variable that is there changes that field of that variable. */
  lemma UpsertThere(frame: Frame, offset: int, edit: VarEdit)
    requires Present(frame, offset)
    ensures var list := ListFor(frame, offset);
      var at := IndexOf(list, offset).value;
      && Upsert(frame, offset, edit) == WithList(frame, offset, list[at := Edited(list[at], edit)])
      && forall o :: Present(Upsert(frame, offset, edit), o) == Present(frame, o)
  {
    var list := ListFor(frame, offset);
    var at := IndexOf(list, offset).value;
    var after := Upsert(frame, offset, edit);
    forall o ensures Present(after, o) == Present(frame, o) {
      SameIndex(ListFor(frame, o), ListFor(after, o), o);
    }
  }

  /** What is read back elsewhere does not depend on the edit, and at its offset the other field does not. */
  lemma BackElsewhere(frame: Frame, offset: int, edit: VarEdit, o: int)
    requires Present(frame, offset)
    ensures var after := Upsert(frame, offset, edit);
      && (o != offset || edit.SetName? ==> TypeBack(after, o) == TypeBack(frame, o))
      && (o != offset || edit.SetTy? ==> NameBack(after, o) == NameBack(frame, o))
  {
    hide NameEdit;
    var after := Upsert(frame, offset, edit);
    UpsertThere(frame, offset, edit);
    SameIndex(frame.locals, after.locals, o);
    SameIndex(frame.args, after.args, o);
  }

  lemma BackStep(ops: seq<Op>, va: u64, frame: Frame)
    requires ops != [] && Frames(ops[0], va) && Present(frame, ops[0].offset)
    ensures var o := ops[0];
      Upsert(FrameBack(ops[1..], va, Upsert(frame, o.offset, EditOf(o))), o.offset, BackEdit(o, frame))
        == FrameBack(ops, va, frame)
  {
    hide Upsert, TypeBack, NameBack, IndexOf;
    var o, rest := ops[0], ops[1..];
    var offset, positive := o.offset, o.offset > 0;
    var list := ListFor(frame, offset);
    var at := IndexOf(list, offset).value;
    var edited := Upsert(frame, offset, EditOf(o));
    UpsertThere(frame, offset, EditOf(o));
    var back := FrameBack(rest, va, edited);
    var whole := FrameBack(ops, va, frame);
    assert ListFor(edited, offset) == list[at := Edited(list[at], EditOf(o))];
    SameIndex(ListFor(back, offset), list, offset);
    UpsertThere(back, offset, BackEdit(o, frame));
    assert EditedList(frame, o, frame.locals, edited.locals, false);
    assert EditedList(frame, o, frame.args, edited.args, true);
    ListStep(ops, va, frame, frame.locals, edited.locals, false);
    ListStep(ops, va, frame, frame.args, edited.args, true);
  }

  /** One side of the frame, before the edit and after it. */
  predicate EditedList(frame: Frame, o: Op, list: seq<StackVar>, edited: seq<StackVar>, positive: bool)
    requires (o.SetStackLocalType? || o.SetStackLocalName?) && Present(frame, o.offset)
  {
    && list == (if positive then frame.args else frame.locals)
    && edited == (
      if (o.offset > 0) == positive then
        list[IndexOf(list, o.offset).value := Edited(list[IndexOf(list, o.offset).value], EditOf(o))]
      else list)
  }

  /** The list of one side, once the rest and then the first edit are undone. */
  lemma ListStep(ops: seq<Op>, va: u64, frame: Frame, list: seq<StackVar>, edited: seq<StackVar>, positive: bool)
    requires ops != [] && Frames(ops[0], va) && Present(frame, ops[0].offset)
    requires EditedList(frame, ops[0], list, edited, positive)
    ensures var o := ops[0];
      var found := ListBack(ops[1..], va, Upsert(frame, o.offset, EditOf(o)), edited, positive);
      ListBack(ops, va, frame, list, positive) ==
        if (o.offset > 0) == positive then
          found[IndexOf(list, o.offset).value := Edited(found[IndexOf(list, o.offset).value], BackEdit(o, frame))]
        else found
  {
    hide Upsert, TypeBack, NameBack, NameEdit, VarBack, Addressed, EditOf, BackEdit, Edited;
    var o, rest := ops[0], ops[1..];
    var after := Upsert(frame, o.offset, EditOf(o));
    var found, whole := ListBack(rest, va, after, edited, positive), ListBack(ops, va, frame, list, positive);
    forall k | 0 <= k < |list|
      ensures whole[k] ==
        if (o.offset > 0) == positive && Some(k) == IndexOf(list, o.offset) then Edited(found[k], BackEdit(o, frame))
        else found[k]
    {
      VarStep(ops, va, frame, list, edited, positive, k);
    }
  }

  lemma VarStep(ops: seq<Op>, va: u64, frame: Frame, list: seq<StackVar>, edited: seq<StackVar>, positive: bool, k: nat)
    requires ops != [] && Frames(ops[0], va) && Present(frame, ops[0].offset)
    requires EditedList(frame, ops[0], list, edited, positive) && k < |list|
    ensures |edited| == |list|
    ensures var o := ops[0];
      var found := VarBack(ops[1..], va, Upsert(frame, o.offset, EditOf(o)), edited[k], Addressed(edited, k, positive));
      VarBack(ops, va, frame, list[k], Addressed(list, k, positive)) ==
        if (o.offset > 0) == positive && Some(k) == IndexOf(list, o.offset) then Edited(found, BackEdit(o, frame))
        else found
  {
    hide Upsert, TypeBack, NameBack, AnyTypes, AnyNames, IndexOf;
    var o := ops[0];
    AnyStep(ops, va, list[k].offset);
    assert forall j :: 0 <= j < |list| ==> edited[j].offset == list[j].offset;
    SameIndex(list, edited, list[k].offset);
    BackElsewhere(frame, o.offset, EditOf(o), list[k].offset);
  }

  lemma AfterFrames(o: Op, p: Project)
    requires !o.Batch?
    ensures After(o, p).frames ==
      if o.SetStackLocalType? || o.SetStackLocalName? then
        p.frames[o.functionVa := Upsert(FrameOf(p, o.functionVa), o.offset, EditOf(o))]
      else p.frames
  {
    hide Captured, Effect, Upsert, FrameOf, NameEdit;
    CapturedPayload(o, p);
    FramesAfter(Captured(o, p), p);
  }

  lemma OldFrame(o: Op, p: Project)
    requires !o.Batch? && Fits(o, p)
    ensures var b := InverseSimple(Applied(o, p));
      && !Applied(o, p).Batch? && !b.Batch?
      && (b.SetStackLocalType? <==> o.SetStackLocalType?) && (b.SetStackLocalName? <==> o.SetStackLocalName?)
      && (o.SetStackLocalType? || o.SetStackLocalName? ==>
           b.functionVa == o.functionVa && b.offset == o.offset && EditOf(b) == BackEdit(o, FrameOf(p, o.functionVa)))
  {
    hide FindVar, Padded, FrameOf;
  }

  function Vars(frame: Frame): nat { |frame.locals| + |frame.args| }

  lemma VarsGrow(frame: Frame, offset: int, edit: VarEdit)
    ensures Vars(Upsert(frame, offset, edit)) == Vars(frame) + (if Present(frame, offset) then 0 else 1)
  {
    hide IndexOf;
    UpsertLength(frame, offset, edit);
  }

  predicate AllPresent(ops: seq<Op>, va: u64, frame: Frame) {
    forall o :: o in ops && Frames(o, va) ==> Present(frame, o.offset)
  }

  /** What undoing leaves of the frame at `va`. */
  predicate FrameIsBack(ops: seq<Op>, p: Project, q: Project, va: u64) {
    if va in p.frames then
      && va in q.frames
      && if AllPresent(ops, va, p.frames[va]) then q.frames[va] == FrameBack(ops, va, p.frames[va])
         else Vars(q.frames[va]) > Vars(p.frames[va])
    else va in q.frames <==> exists o :: o in ops && Frames(o, va)
  }

  /** Operations elsewhere do not matter. */
  lemma BackSkip(ops: seq<Op>, va: u64, frame: Frame)
    requires ops != [] && !Frames(ops[0], va)
    ensures FrameBack(ops, va, frame) == FrameBack(ops[1..], va, frame)
    ensures AllPresent(ops, va, frame) <==> AllPresent(ops[1..], va, frame)
  {
    hide TypeBack, NameBack, AnyTypes, AnyNames, Addressed, Present;
    forall offset ensures AnyTypes(ops, va, offset) == AnyTypes(ops[1..], va, offset)
      && AnyNames(ops, va, offset) == AnyNames(ops[1..], va, offset)
    {
      AnyStep(ops, va, offset);
    }
    assert FrameBack(ops, va, frame).locals == FrameBack(ops[1..], va, frame).locals;
    assert FrameBack(ops, va, frame).args == FrameBack(ops[1..], va, frame).args;
    assert forall x :: x in ops <==> x == ops[0] || x in ops[1..];
  }

  lemma BackNothing(va: u64, frame: Frame)
    ensures FrameBack([], va, frame) == frame && AllPresent([], va, frame)
  {
    hide TypeBack, NameBack, Addressed;
    assert FrameBack([], va, frame).locals == frame.locals;
    assert FrameBack([], va, frame).args == frame.args;
  }

  lemma {:induction false} FramesBack(ops: seq<Op>, p: Project, va: u64)
    requires Singles(ops) && FitsAll(ops, p)
    ensures FrameIsBack(ops, p, Undone(ops, p), va)
    decreases |ops|
  {
    hide Apply, Fits, InverseSimple, FrameBack, Upsert, Present, AllPresent, EditOf, BackEdit;
    if ops == [] {
      if va in p.frames {
        BackNothing(va, p.frames[va]);
      }
    } else {
      var o, mid := ops[0], After(ops[0], p);
      FramesBack(ops[1..], mid, va);
      OldFrame(o, p);
      AfterFrames(o, p);
      var b, u := InverseSimple(Applied(o, p)), Undone(ops[1..], mid);
      AfterFrames(b, u);
      assert forall x :: x in ops <==> x == o || x in ops[1..];
      if Frames(o, va) && va in p.frames {
        FrameStepBack(ops, va, p.frames[va], u.frames[va]);
      } else if Frames(o, va) {
        assert va in mid.frames && va in u.frames && va in After(b, u).frames;
        assert o in ops;
      } else {
        assert Lookup(mid.frames, va) == Lookup(p.frames, va);
        assert Lookup(After(b, u).frames, va) == Lookup(u.frames, va);
        assert (exists x :: x in ops && Frames(x, va)) <==> exists x :: x in ops[1..] && Frames(x, va);
        if va in p.frames {
          BackSkip(ops, va, p.frames[va]);
        }
      }
    }
  }

  lemma FrameStepBack(ops: seq<Op>, va: u64, frame: Frame, found: Frame)
    requires ops != [] && Frames(ops[0], va)
    requires var f1 := Upsert(frame, ops[0].offset, EditOf(ops[0]));
      if AllPresent(ops[1..], va, f1) then found == FrameBack(ops[1..], va, f1) else Vars(found) > Vars(f1)
    ensures var q := Upsert(found, ops[0].offset, BackEdit(ops[0], frame));
      if AllPresent(ops, va, frame) then q == FrameBack(ops, va, frame) else Vars(q) > Vars(frame)
  {
    hide Upsert, EditOf, BackEdit, Present, TypeBack, NameBack, VarBack;
    var o := ops[0];
    var f1 := Upsert(frame, o.offset, EditOf(o));
    VarsGrow(frame, o.offset, EditOf(o));
    VarsGrow(found, o.offset, BackEdit(o, frame));
    assert forall x :: x in ops <==> x == o || x in ops[1..];
    if Present(frame, o.offset) {
      UpsertThere(frame, o.offset, EditOf(o));
      if AllPresent(ops, va, frame) {
        BackStep(ops, va, frame);
      }
    }
  }

  // ---------------------------------------------------------------- the guard

  /** The function whose signature the operation writes. */
  function SignedAt(o: Op): Option<u64> {
    if o.SetFunctionSignature? then Some(o.va) else if o.SetParamName? then Some(o.functionVa) else None
  }

  /** Operation `i` writes a signature that an earlier one replaces as a whole. */
  predicate Shadowed(ops: seq<Op>, i: nat)
    requires i < |ops|
  {
    SignedAt(ops[i]).Some? && exists j :: 0 <= j < i && Replaces(ops[j], SignedAt(ops[i]).value)
  }

  /** Every operation that is not shadowed had something to go back to before the first of them. */
  predicate FoundBefore(ops: seq<Op>, p: Project)
    requires Singles(ops)
  {
    forall i :: 0 <= i < |ops| ==> Shadowed(ops, i) || Restorable(ops[i], p)
  }

  lemma MapSame<V>(m: map<u64, V>, n: map<u64, V>)
    requires forall va: u64 :: Lookup(m, va) == Lookup(n, va)
    ensures m == n
  {
    forall va: u64 ensures va in m <==> va in n {
      assert Lookup(m, va) == Lookup(n, va);
    }
    forall va: u64 | va in m ensures m[va] == n[va] {
      assert Lookup(m, va) == Lookup(n, va);
    }
  }

  lemma CommentsSame(m: map<(u64, CommentScope), string>, n: map<(u64, CommentScope), string>)
    requires forall va: u64, scope :: Lookup(m, (va, scope)) == Lookup(n, (va, scope))
    ensures m == n
  {
    forall key: (u64, CommentScope) ensures key in m <==> key in n {
      assert Lookup(m, (key.0, key.1)) == Lookup(n, (key.0, key.1));
    }
    forall key: (u64, CommentScope) | key in m ensures m[key] == n[key] {
      assert Lookup(m, (key.0, key.1)) == Lookup(n, (key.0, key.1));
    }
  }

  lemma SymbolsIff(ops: seq<Op>, p: Project)
    requires Singles(ops) && FitsAll(ops, p)
    ensures Undone(ops, p).symbols == p.symbols <==> forall o :: o in ops && o.RenameSymbol? ==> Restorable(o, p)
  {
    hide Undone, FitsAll;
    forall va: u64
      ensures EntryBack(Lookup(p.symbols, va), Lookup(Undone(ops, p).symbols, va), exists o :: o in ops && Renames(o, va))
    {
      SymbolBack(ops, p, va);
    }
    if forall o :: o in ops && o.RenameSymbol? ==> Restorable(o, p) {
      forall va: u64 ensures Lookup(Undone(ops, p).symbols, va) == Lookup(p.symbols, va) {
        assert forall o :: o in ops && Renames(o, va) ==> va in p.symbols;
      }
      MapSame(Undone(ops, p).symbols, p.symbols);
    } else {
      var o :| o in ops && o.RenameSymbol? && !Restorable(o, p);
      assert Renames(o, o.va);
      assert Lookup(Undone(ops, p).symbols, o.va).Some?;
    }
  }

  lemma CommentsIff(ops: seq<Op>, p: Project)
    requires Singles(ops) && FitsAll(ops, p)
    ensures Undone(ops, p).comments == p.comments <==> forall o :: o in ops && o.SetComment? ==> Restorable(o, p)
  {
    hide Undone, FitsAll;
    forall va: u64, scope
      ensures EntryBack(Lookup(p.comments, (va, scope)), Lookup(Undone(ops, p).comments, (va, scope)),
                        exists o :: o in ops && Comments(o, va, scope))
    {
      CommentBack(ops, p, va, scope);
    }
    if forall o :: o in ops && o.SetComment? ==> Restorable(o, p) {
      forall va: u64, scope ensures Lookup(Undone(ops, p).comments, (va, scope)) == Lookup(p.comments, (va, scope)) {
        assert forall o :: o in ops && Comments(o, va, scope) ==> (va, scope) in p.comments;
      }
      CommentsSame(Undone(ops, p).comments, p.comments);
    } else {
      var o :| o in ops && o.SetComment? && !Restorable(o, p);
      assert Comments(o, o.va, o.scope);
      assert Lookup(Undone(ops, p).comments, (o.va, o.scope)).Some?;
    }
  }

  lemma GlobalsIff(ops: seq<Op>, p: Project)
    requires Singles(ops) && FitsAll(ops, p)
    ensures Undone(ops, p).globals == p.globals <==> forall o :: o in ops && o.SetGlobalType? ==> Restorable(o, p)
  {
    hide Undone, FitsAll;
    forall va: u64
      ensures EntryBack(Lookup(p.globals, va), Lookup(Undone(ops, p).globals, va), exists o :: o in ops && TypesGlobal(o, va))
    {
      GlobalBack(ops, p, va);
    }
    if forall o :: o in ops && o.SetGlobalType? ==> Restorable(o, p) {
      forall va: u64 ensures Lookup(Undone(ops, p).globals, va) == Lookup(p.globals, va) {
        assert forall o :: o in ops && TypesGlobal(o, va) ==> va in p.globals;
      }
      MapSame(Undone(ops, p).globals, p.globals);
    } else {
      var o :| o in ops && o.SetGlobalType? && !Restorable(o, p);
      assert TypesGlobal(o, o.va);
      assert Lookup(Undone(ops, p).globals, o.va).Some?;
    }
  }

  lemma FocusIff(ops: seq<Op>, p: Project)
    requires Singles(ops) && FitsAll(ops, p)
    ensures Undone(ops, p).focus == p.focus <==> forall o :: o in ops && o.SetFocus? ==> Restorable(o, p)
  {
    hide Undone, FitsAll;
    FocusBack(ops, p);
    if !FocusValid(p) && exists o :: o in ops && Focuses(o, p.functionEntries) {
      var o :| o in ops && Focuses(o, p.functionEntries);
      assert !Restorable(o, p);
    }
  }

  /** The signature at `va` is back, in terms of the guard. */
  predicate SignatureFound(ops: seq<Op>, p: Project, va: u64) {
    ops == [] || (
      if Replaces(ops[0], va) then va in p.signatures
      else
        && (NamesParam(ops[0], va) ==> va in p.signatures && ops[0].index < |p.signatures[va].params|)
        && SignatureFound(ops[1..], p, va))
  }

  lemma {:induction false} SignatureFoundMeans(ops: seq<Op>, p: Project, va: u64)
    ensures SignatureFound(ops, p, va) <==>
      if va in p.signatures then ParamsBelow(ops, va, |p.signatures[va].params|)
      else !exists o :: o in ops && Signs(o, va)
  {
    if ops != [] {
      SignatureFoundMeans(ops[1..], p, va);
      assert ops[0] in ops && (Signs(ops[0], va) ==> exists o :: o in ops && Signs(o, va));
      assert forall x :: x in ops <==> x == ops[0] || x in ops[1..];
    }
  }

  lemma ShadowedRest(ops: seq<Op>, i: nat)
    requires 0 < i < |ops|
    ensures Shadowed(ops, i) <==>
      || (SignedAt(ops[i]).Some? && Replaces(ops[0], SignedAt(ops[i]).value))
      || Shadowed(ops[1..], i - 1)
  {
    if SignedAt(ops[i]).Some? {
      var va := SignedAt(ops[i]).value;
      assert ops[1..][i - 1] == ops[i];
      if j :| 0 <= j < i - 1 && Replaces(ops[1..][j], va) {
        assert Replaces(ops[j + 1], va);
      }
      if j :| 0 < j < i && Replaces(ops[j], va) {
        assert Replaces(ops[1..][j - 1], va);
      }
    }
  }

  /** Operation `i` had something to go back to at `va`, is shadowed there, or is elsewhere. */
  predicate SignFound(ops: seq<Op>, p: Project, va: u64, i: nat)
    requires i < |ops|
  {
    || !Signs(ops[i], va)
    || Shadowed(ops, i)
    || (va in p.signatures && (ops[i].SetParamName? ==> ops[i].index < |p.signatures[va].params|))
  }

  lemma {:induction false} SignatureFoundIff(ops: seq<Op>, p: Project, va: u64)
    ensures SignatureFound(ops, p, va) <==> forall i :: 0 <= i < |ops| ==> SignFound(ops, p, va, i)
  {
    hide Shadowed;
    if ops != [] {
      var rest := ops[1..];
      SignatureFoundIff(rest, p, va);
      assert !Shadowed(ops, 0) by { NoneBefore(ops); }
      if Replaces(ops[0], va) {
        forall i | 0 < i < |ops| ensures SignFound(ops, p, va, i) {
          ShadowedRest(ops, i);
        }
        assert SignFound(ops, p, va, 0) <==> va in p.signatures;
      } else {
        forall i | 0 < i < |ops| ensures SignFound(ops, p, va, i) <==> SignFound(rest, p, va, i - 1) {
          ShadowedRest(ops, i);
        }
        if forall i :: 0 <= i < |ops| ==> SignFound(ops, p, va, i) {
          assert SignFound(ops, p, va, 0);
          forall i | 0 <= i < |rest| ensures SignFound(rest, p, va, i) {
            assert SignFound(ops, p, va, i + 1);
          }
        }
        if SignatureFound(ops, p, va) {
          assert SignFound(ops, p, va, 0);
          forall i | 0 < i < |ops| ensures SignFound(ops, p, va, i) {
            assert SignFound(rest, p, va, i - 1);
          }
        }
      }
    }
  }

  lemma NoneBefore(ops: seq<Op>)
    requires ops != []
    ensures !Shadowed(ops, 0)
  {
  }

  lemma SignatureAtIff(ops: seq<Op>, p: Project, va: u64)
    requires Singles(ops) && FitsAll(ops, p)
    ensures Lookup(Undone(ops, p).signatures, va) == Lookup(p.signatures, va) <==>
      forall i :: 0 <= i < |ops| ==> SignFound(ops, p, va, i)
  {
    hide Undone, FitsAll, ParamsBelow, SignFound, SignatureFound;
    SignatureIsBack(ops, p, va);
    SignatureFoundMeans(ops, p, va);
    SignatureFoundIff(ops, p, va);
  }

  lemma SignFoundMeans(ops: seq<Op>, p: Project, i: nat)
    requires Singles(ops) && i < |ops| && SignedAt(ops[i]).Some?
    ensures SignFound(ops, p, SignedAt(ops[i]).value, i) <==> Shadowed(ops, i) || Restorable(ops[i], p)
  {
    hide Shadowed;
  }

  lemma SignaturesIff(ops: seq<Op>, p: Project)
    requires Singles(ops) && FitsAll(ops, p)
    ensures Undone(ops, p).signatures == p.signatures <==>
      forall i :: 0 <= i < |ops| && SignedAt(ops[i]).Some? ==> Shadowed(ops, i) || Restorable(ops[i], p)
  {
    hide Undone, FitsAll, Shadowed, Restorable;
    forall va: u64
      ensures Lookup(Undone(ops, p).signatures, va) == Lookup(p.signatures, va) <==>
        forall i :: 0 <= i < |ops| ==> SignFound(ops, p, va, i)
    {
      SignatureAtIff(ops, p, va);
    }
    forall i | 0 <= i < |ops| && SignedAt(ops[i]).Some?
      ensures SignFound(ops, p, SignedAt(ops[i]).value, i) <==> Shadowed(ops, i) || Restorable(ops[i], p)
    {
      SignFoundMeans(ops, p, i);
    }
    if forall i :: 0 <= i < |ops| && SignedAt(ops[i]).Some? ==> Shadowed(ops, i) || Restorable(ops[i], p) {
      forall va: u64 ensures Lookup(Undone(ops, p).signatures, va) == Lookup(p.signatures, va) {
        forall i | 0 <= i < |ops| ensures SignFound(ops, p, va, i) {
          assert Signs(ops[i], va) ==> SignedAt(ops[i]) == Some(va);
        }
      }
      MapSame(Undone(ops, p).signatures, p.signatures);
    } else {
      var i :| 0 <= i < |ops| && SignedAt(ops[i]).Some? && !(Shadowed(ops, i) || Restorable(ops[i], p));
      var va := SignedAt(ops[i]).value;
      assert !SignFound(ops, p, va, i);
      assert Lookup(Undone(ops, p).signatures, va) != Lookup(p.signatures, va);
    }
  }

  /** The operation edits a variable of the frame and had something to go back to. */
  predicate VarFound(o: Op, frame: Frame)
    requires o.SetStackLocalType? || o.SetStackLocalName?
  {
    var list := ListFor(frame, o.offset);
    var at := IndexOf(list, o.offset);
    && at.Some?
    && (o.SetStackLocalType? ==> TypeBack(frame, o.offset) == list[at.value].ty)
    && (o.SetStackLocalName? ==> NameBack(frame, o.offset) == list[at.value].name)
  }

  lemma VarFoundMeans(o: Op, p: Project)
    requires o.SetStackLocalType? || o.SetStackLocalName?
    ensures Restorable(o, p) <==> o.functionVa in p.frames && VarFound(o, p.frames[o.functionVa])
  {
    hide IndexOf;
  }

  lemma FrameBackIff(ops: seq<Op>, va: u64, frame: Frame)
    ensures AllPresent(ops, va, frame) && FrameBack(ops, va, frame) == frame <==>
      forall o :: o in ops && Frames(o, va) ==> VarFound(o, frame)
  {
    hide TypeBack, NameBack, IndexOf;
    var back := FrameBack(ops, va, frame);
    if forall o :: o in ops && Frames(o, va) ==> VarFound(o, frame) {
      ListUnchanged(ops, va, frame, frame.locals, false);
      ListUnchanged(ops, va, frame, frame.args, true);
    } else if AllPresent(ops, va, frame) {
      var o :| o in ops && Frames(o, va) && !VarFound(o, frame);
      var list := ListFor(frame, o.offset);
      var at := IndexOf(list, o.offset).value;
      var v := list[at];
      assert v.offset == o.offset && Addressed(list, at, o.offset > 0);
      assert ListFor(back, o.offset)[at] == VarBack(ops, va, frame, v, true);
      assert TypesVar(o, va, v.offset) || NamesVar(o, va, v.offset);
      assert ListFor(back, o.offset)[at] != v;
    }
  }

  lemma ListUnchanged(ops: seq<Op>, va: u64, frame: Frame, list: seq<StackVar>, positive: bool)
    requires forall o :: o in ops && Frames(o, va) ==> VarFound(o, frame)
    requires list == if positive then frame.args else frame.locals
    ensures ListBack(ops, va, frame, list, positive) == list
  {
    hide TypeBack, NameBack, IndexOf;
    forall k | 0 <= k < |list|
      ensures VarBack(ops, va, frame, list[k], Addressed(list, k, positive)) == list[k]
    {
      if Addressed(list, k, positive) {
        assert list == ListFor(frame, list[k].offset);
      }
    }
  }

  lemma FrameAtIff(ops: seq<Op>, p: Project, va: u64)
    requires Singles(ops) && FitsAll(ops, p)
    ensures Lookup(Undone(ops, p).frames, va) == Lookup(p.frames, va) <==>
      forall o :: o in ops && Frames(o, va) ==> Restorable(o, p)
  {
    hide Undone, FitsAll, FrameBack, AllPresent, VarFound, Restorable;
    FramesBack(ops, p, va);
    forall o | o in ops && Frames(o, va)
      ensures Restorable(o, p) <==> va in p.frames && VarFound(o, p.frames[va])
    {
      VarFoundMeans(o, p);
    }
    if va in p.frames {
      FrameBackIff(ops, va, p.frames[va]);
    }
  }

  lemma FramesIff(ops: seq<Op>, p: Project)
    requires Singles(ops) && FitsAll(ops, p)
    ensures Undone(ops, p).frames == p.frames <==>
      forall o :: o in ops && (o.SetStackLocalType? || o.SetStackLocalName?) ==> Restorable(o, p)
  {
    hide Undone, FitsAll, Restorable;
    forall va: u64
      ensures Lookup(Undone(ops, p).frames, va) == Lookup(p.frames, va) <==>
        forall o :: o in ops && Frames(o, va) ==> Restorable(o, p)
    {
      FrameAtIff(ops, p, va);
    }
    if forall o :: o in ops && (o.SetStackLocalType? || o.SetStackLocalName?) ==> Restorable(o, p) {
      forall va: u64 ensures Lookup(Undone(ops, p).frames, va) == Lookup(p.frames, va) {
        assert forall o :: o in ops && Frames(o, va) ==> Restorable(o, p);
      }
      MapSame(Undone(ops, p).frames, p.frames);
    } else {
      var o :| o in ops && (o.SetStackLocalType? || o.SetStackLocalName?) && !Restorable(o, p);
      assert Frames(o, o.functionVa);
      assert Lookup(Undone(ops, p).frames, o.functionVa) != Lookup(p.frames, o.functionVa);
    }
  }

  /** Two projects have the same content exactly when they agree in every field, stamps aside. */
  lemma SameFields(p: Project, q: Project)
    ensures Same(p, q) <==>
      && p.functionEntries == q.functionEntries && p.symbols == q.symbols && p.comments == q.comments
      && p.focus == q.focus && p.globals == q.globals && p.signatures == q.signatures && p.frames == q.frames
      && AllUnstamped(p.memory) == AllUnstamped(q.memory)
  {
    hide AllUnstamped;
    if Same(p, q) {
      SameParts(p, q);
      assert Content(p).memory == AllUnstamped(p.memory) && Content(q).memory == AllUnstamped(q.memory);
    }
  }

  /** Undoing a list of operations restores the content exactly under the guard. */
  lemma UndoneIff(ops: seq<Op>, p: Project)
    requires Singles(ops) && FitsAll(ops, p) && WellKept(p)
    ensures Same(Undone(ops, p), p) <==> FoundBefore(ops, p)
  {
    hide Undone, FitsAll, WellKept, Content, Same, Restorable, Shadowed;
    SameFields(Undone(ops, p), p);
    SymbolsIff(ops, p);
    CommentsIff(ops, p);
    GlobalsIff(ops, p);
    FocusIff(ops, p);
    FocusBack(ops, p);
    SignaturesIff(ops, p);
    FramesIff(ops, p);
    MemoryBack(ops, p);
    FoundBeforeParts(ops, p);
  }

  /** The guard, field by field. */
  lemma FoundBeforeParts(ops: seq<Op>, p: Project)
    requires Singles(ops)
    ensures FoundBefore(ops, p) <==>
      && (forall o :: o in ops && o.RenameSymbol? ==> Restorable(o, p))
      && (forall o :: o in ops && o.SetComment? ==> Restorable(o, p))
      && (forall o :: o in ops && o.SetGlobalType? ==> Restorable(o, p))
      && (forall o :: o in ops && o.SetFocus? ==> Restorable(o, p))
      && (forall o :: o in ops && (o.SetStackLocalType? || o.SetStackLocalName?) ==> Restorable(o, p))
      && (forall i :: 0 <= i < |ops| && SignedAt(ops[i]).Some? ==> Shadowed(ops, i) || Restorable(ops[i], p))
  {
    hide Shadowed, Restorable;
    forall i | 0 <= i < |ops| && SignedAt(ops[i]).None? ensures !Shadowed(ops, i) {
      UnsignedNotShadowed(ops, i);
    }
    forall o | o in ops && o.SetFunctionMemory? ensures Restorable(o, p) {
      MemoryAlways(o, p);
    }
    if FoundBefore(ops, p) {
      forall o | o in ops && SignedAt(o).None? ensures Restorable(o, p) {
        var i :| 0 <= i < |ops| && ops[i] == o;
      }
    }
  }

  lemma UnsignedNotShadowed(ops: seq<Op>, i: nat)
    requires i < |ops| && SignedAt(ops[i]).None?
    ensures !Shadowed(ops, i)
  {
  }

  lemma MemoryAlways(o: Op, p: Project)
    requires o.SetFunctionMemory?
    ensures Restorable(o, p)
  {
  }

  /** The guard looks at the content only. */
  lemma FoundBeforeSame(ops: seq<Op>, p: Project, q: Project)
    requires Singles(ops) && Same(p, q)
    ensures FoundBefore(ops, p) <==> FoundBefore(ops, q)
  {
    hide Shadowed, Restorable, Same;
    forall i | 0 <= i < |ops| ensures Restorable(ops[i], p) <==> Restorable(ops[i], q) {
      RestorableSame(ops[i], p, q);
    }
  }
}
