/** When undoing an operation restores the project, and what redo gives back. */
module Undo {
  import opened Prelude
  import opened Ops
  import opened Sorting

  function Unstamped(c: Card): Card { c.(updatedSeq := 0) }

  /** What a user sees of a project: everything but the append-only alias log and sequence stamps. */
  function Content(p: Project): Project {
    p.(aliases := [], opSeq := 0, memory := AllUnstamped(p.memory))
  }

  function AllUnstamped(memory: map<u64, Card>): map<u64, Card> {
    map k | k in memory :: Unstamped(memory[k])
  }

  lemma UnstampedUpdate(memory: map<u64, Card>, va: u64, card: Card)
    ensures AllUnstamped(memory[va := card]) == AllUnstamped(memory)[va := Unstamped(card)]
    ensures AllUnstamped(memory - {va}) == AllUnstamped(memory) - {va}
    ensures AllUnstamped(AllUnstamped(memory)) == AllUnstamped(memory)
  {
  }

  predicate Same(p: Project, q: Project) {
    Content(p) == Content(q)
  }

  /** Cards are stored under their own address and never as the sentinel that means "no card". */
  predicate WellKept(p: Project) {
    forall k :: k in p.memory ==> p.memory[k].va == k && !p.memory[k].IsClear()
  }

  /** No old value is filled in yet: how every caller submits an operation. */
  predicate Fresh(op: Op) {
    match op
    case RenameSymbol(_, _, _, oldName, oldKind) => oldName.None? && oldKind.None?
    case SetComment(_, _, _, oldText) => oldText.None?
    case SetFocus(_, oldFocus) => oldFocus.None?
    case SetGlobalType(_, _, oldTy) => oldTy.None?
    case SetFunctionSignature(_, _, oldSignature) => oldSignature.None?
    case SetStackLocalType(_, _, _, oldTy) => oldTy.None?
    case SetStackLocalName(_, _, _, oldLocal) => oldLocal.None?
    case SetParamName(_, _, _, oldParam) => oldParam.None?
    case SetFunctionMemory(_, _, oldCard) => oldCard.None?
    case Batch(ops) => forall o :: o in ops ==> Fresh(o)
  }

  /** Undoing `op`, applied in `p`, gives the content of `p` back. */
  predicate Undoable(op: Op, p: Project) {
    var (applied, after) := Apply(op, p);
    var inverse := Inverse(applied);
    inverse.Some? && Same(After(inverse.value, after), p)
  }

  /** The name an inverse can put back: clearing and the empty name are the same thing. */
  predicate NameRestores(was: Option<string>, now: Option<string>) {
    now == (if was == Some("") then None else was)
  }

  /** The guard: there is an old value to go back to. */
  predicate Restorable(op: Op, p: Project)
    requires !op.Batch?
  {
    match op
    case RenameSymbol(va, _, _, _, _) => va in p.symbols
    case SetComment(va, scope, _, _) => (va, scope) in p.comments
    case SetFocus(va, _) =>
      || va !in p.functionEntries
      || (p.focus.Some? && (p.focus.value in p.functionEntries || p.focus.value == va))
    case SetGlobalType(va, _, _) => va in p.globals
    case SetFunctionSignature(va, _, _) => va in p.signatures
    case SetStackLocalType(va, offset, _, _) =>
      && va in p.frames
      && var at := IndexOf(ListFor(p.frames[va], offset), offset);
         at.Some? && FindVar(p.frames[va], offset).value.ty == ListFor(p.frames[va], offset)[at.value].ty
    case SetStackLocalName(va, offset, _, _) =>
      && va in p.frames
      && var at := IndexOf(ListFor(p.frames[va], offset), offset);
         at.Some? && NameRestores(FindVar(p.frames[va], offset).value.name, ListFor(p.frames[va], offset)[at.value].name)
    case SetParamName(va, index, _, _) => va in p.signatures && index < |p.signatures[va].params|
    case SetFunctionMemory(_, _, _) => true
  }

  // ---------------------------------------------------------------- one operation

  lemma FoundInList(frame: Frame, offset: int)
    ensures IndexOf(ListFor(frame, offset), offset).Some? ==> FindVar(frame, offset).Some?
  {
  }

  lemma {:induction false} IndexOfUpdate(list: seq<StackVar>, offset: int, v: StackVar)
    requires IndexOf(list, offset).Some? && v.offset == offset
    ensures IndexOf(list[IndexOf(list, offset).value := v], offset) == IndexOf(list, offset)
  {
    if list[0].offset != offset {
      IndexOfUpdate(list[1..], offset, v);
      var at := IndexOf(list, offset).value;
      assert list[at := v][1..] == list[1..][at - 1 := v];
    }
  }

  /** Two edits of an existing variable compose in place. */
  lemma UpsertTwice(frame: Frame, offset: int, first: VarEdit, second: VarEdit)
    requires IndexOf(ListFor(frame, offset), offset).Some?
    ensures var list := ListFor(frame, offset);
      var at := IndexOf(list, offset).value;
      Upsert(Upsert(frame, offset, first), offset, second) ==
        WithList(frame, offset, list[at := Edited(Edited(list[at], first), second)])
  {
    var list := ListFor(frame, offset);
    var at := IndexOf(list, offset).value;
    IndexOfUpdate(list, offset, Edited(list[at], first));
    assert list[at := Edited(list[at], first)][at := Edited(Edited(list[at], first), second)]
        == list[at := Edited(Edited(list[at], first), second)];
  }

  /** Inserting a variable makes the list longer, and no edit makes it shorter. */
  lemma UpsertLength(frame: Frame, offset: int, edit: VarEdit)
    ensures var list := ListFor(frame, offset);
      |ListFor(Upsert(frame, offset, edit), offset)| ==
        |list| + (if IndexOf(list, offset).Some? then 0 else 1)
  {
    var list := ListFor(frame, offset);
    if IndexOf(list, offset).None? {
      var grown := list + [Edited(StackVar(None, Unknown(0), offset, 0), edit)];
      assert OffsetsOrdered();
      SortSorts(OffsetLe, grown);
      assert |Sort(OffsetLe, grown)| == |multiset(Sort(OffsetLe, grown))| == |multiset(grown)| == |grown|;
    }
  }

  ghost predicate OffsetsOrdered() {
    TotalPreorder(OffsetLe)
  }

  lemma ListEq(a: seq<StackVar>, at: nat, v: StackVar)
    requires at < |a|
    ensures a[at := v] == a <==> v == a[at]
  {
    if a[at := v] == a {
      assert a[at := v][at] == a[at];
    }
  }

  lemma StackTypeUndo(p: Project, va: u64, offset: int, ty: DataType)
    ensures Undoable(SetStackLocalType(va, offset, ty, None), p) <==>
      Restorable(SetStackLocalType(va, offset, ty, None), p)
  {
    hide Upsert, FindVar, IndexOf;
    var frame := FrameOf(p, va);
    var list := ListFor(frame, offset);
    var seen := FindVar(frame, offset);
    var back := Or(if seen.Some? then Some(seen.value.ty) else None, Unknown(0));
    var final := Upsert(Upsert(frame, offset, SetTy(ty)), offset, SetTy(back));
    StackUndoShape(p, SetStackLocalType(va, offset, ty, None), va, final);
    FoundInList(frame, offset);
    if IndexOf(list, offset).Some? {
      var at := IndexOf(list, offset).value;
      UpsertTwice(frame, offset, SetTy(ty), SetTy(back));
      ListEq(list, at, list[at].(ty := back));
    } else {
      UpsertLength(frame, offset, SetTy(ty));
      UpsertLength(Upsert(frame, offset, SetTy(ty)), offset, SetTy(back));
    }
  }

  lemma FrameShape(p: Project, va: u64, final: Frame)
    ensures Same(p.(frames := p.frames[va := final]), p) <==> va in p.frames && final == p.frames[va]
  {
    hide AllUnstamped;
    var undone := p.(frames := p.frames[va := final]);
    if va in p.frames && final == p.frames[va] {
      assert undone.frames == p.frames;
    }
    assert va in Content(undone).frames && Content(undone).frames[va] == final;
  }

  /** Undoing a stack edit is visible exactly in the frame it touched. */
  lemma StackUndoShape(p: Project, op: Op, va: u64, final: Frame)
    requires op.SetStackLocalType? || op.SetStackLocalName?
    requires Fresh(op) && op.functionVa == va
    requires final == After(Inverse(Applied(op, p)).value, After(op, p)).frames[va]
    ensures Undoable(op, p) <==> va in p.frames && final == p.frames[va]
  {
    hide Upsert, FindVar, Content, IndexOf;
    var after := After(op, p);
    assert After(Inverse(Applied(op, p)).value, after) == p.(frames := p.frames[va := final]);
    FrameShape(p, va, final);
  }

  lemma StackNameUndo(p: Project, va: u64, offset: int, name: string)
    ensures Undoable(SetStackLocalName(va, offset, name, None), p) <==>
      Restorable(SetStackLocalName(va, offset, name, None), p)
  {
    hide Upsert, FindVar, IndexOf;
    var frame := FrameOf(p, va);
    var list := ListFor(frame, offset);
    var seen := FindVar(frame, offset);
    var was := if seen.Some? then seen.value.name else None;
    var back := NameEdit(Or(was, ""));
    var final := Upsert(Upsert(frame, offset, NameEdit(name)), offset, back);
    StackUndoShape(p, SetStackLocalName(va, offset, name, None), va, final);
    FoundInList(frame, offset);
    if IndexOf(list, offset).Some? {
      var at := IndexOf(list, offset).value;
      UpsertTwice(frame, offset, NameEdit(name), back);
      ListEq(list, at, list[at].(name := back.name));
    } else {
      UpsertLength(frame, offset, NameEdit(name));
      UpsertLength(Upsert(frame, offset, NameEdit(name)), offset, back);
    }
  }

  lemma PaddedLength(params: seq<(string, DataType)>, index: nat)
    requires |params| <= index
    ensures |Padded(params, index)| > |params|
  {
  }

  lemma ParamUndo(p: Project, va: u64, index: nat, name: string)
    ensures Undoable(SetParamName(va, index, name, None), p) <==> Restorable(SetParamName(va, index, name, None), p)
  {
    hide Padded;
    var op := SetParamName(va, index, name, None);
    var s := SignatureOf(p, va);
    var padded := Padded(s.params, index);
    var once := WithParam(s, index, name);
    var final := WithParam(once, index, padded[index].0);
    var undone := After(Inverse(Applied(op, p)).value, After(op, p));
    assert once.params == padded[index := (name, padded[index].1)];
    assert final.params == padded;
    assert undone.signatures == p.signatures[va := final];
    assert va in Content(undone).signatures && Content(undone).signatures[va] == final;
    if va in p.signatures {
      if index < |s.params| {
        assert final == s;
        assert p.signatures[va := s] == p.signatures;
      } else {
        PaddedLength(s.params, index);
      }
    }
  }

  lemma MemoryUndo(p: Project, va: u64, card: Card)
    requires WellKept(p)
    ensures Undoable(SetFunctionMemory(va, card, None), p)
  {
    hide AllUnstamped;
    var op := SetFunctionMemory(va, card, None);
    var back := if va in p.memory then p.memory[va] else ClearCard(va);
    var stamp := p.opSeq + 1;
    var once := MemoryAfter(p.memory, va, card, stamp);
    assert After(op, p) == p.(memory := once);
    assert Inverse(Applied(op, p)) == Some(SetFunctionMemory(va, back, Some(Some(card))));
    assert After(SetFunctionMemory(va, back, Some(Some(card))), p.(memory := once))
        == p.(memory := MemoryAfter(once, va, back, stamp));
    MemoryRestored(p.memory, va, card, back, stamp);
  }

  /** Writing an old card back, or removing a new one, restores the map up to the stamp. */
  lemma MemoryRestored(before: map<u64, Card>, va: u64, card: Card, back: Card, stamp: nat)
    requires if va in before then back == before[va] && back.va == va && !back.IsClear() else back.IsClear()
    ensures AllUnstamped(MemoryAfter(MemoryAfter(before, va, card, stamp), va, back, stamp)) == AllUnstamped(before)
  {
    var mid := MemoryAfter(before, va, card, stamp);
    assert forall k :: k in before && k != va ==> k in mid && mid[k] == before[k];
    assert forall k :: k in mid && k != va ==> k in before;
  }

  lemma MapUndo<K, V>(m: map<K, V>, k: K, v: V, back: V)
    ensures k in m[k := v][k := back] && m[k := v][k := back][k] == back
    ensures m[k := v][k := back] == m <==> k in m && m[k] == back
  {
    if k in m && m[k] == back {
      assert m[k := v][k := back] == m;
    }
  }

  lemma RenameUndo(p: Project, op: Op)
    requires op.RenameSymbol? && Fresh(op)
    ensures Undoable(op, p) <==> Restorable(op, p)
  {
    hide AllUnstamped;
    var was := Lookup(p.symbols, op.va);
    MapUndo(p.symbols, op.va, Symbol(op.name, op.kind), if was.Some? then was.value else Symbol("", op.kind));
  }

  lemma MapUndone(p: Project, op: Op)
    requires op.SetComment? || op.SetGlobalType? || op.SetFunctionSignature?
    requires Fresh(op)
    ensures Undoable(op, p) <==> Restorable(op, p)
  {
    hide AllUnstamped;
    match op
    case SetComment(va, scope, text, _) =>
      MapUndo(p.comments, (va, scope), text, Or(Lookup(p.comments, (va, scope)), ""));
    case SetGlobalType(va, ty, _) =>
      MapUndo(p.globals, va, ty, Or(Lookup(p.globals, va), Unknown(0)));
    case SetFunctionSignature(va, signature, _) =>
      MapUndo(p.signatures, va, signature, Or(Lookup(p.signatures, va), Signature("", [], Void, None)));
  }

  lemma FocusUndo(p: Project, va: u64)
    ensures Undoable(SetFocus(va, None), p) <==> Restorable(SetFocus(va, None), p)
  {
    hide AllUnstamped;
  }

  /** Undo restores the content exactly when the operation had something to go back to. */
  lemma UndoIff(op: Op, p: Project)
    requires !op.Batch? && Fresh(op) && WellKept(p)
    ensures Undoable(op, p) <==> Restorable(op, p)
  {
    hide Undoable, Restorable;
    match op
    case SetStackLocalType(va, offset, ty, _) => StackTypeUndo(p, va, offset, ty);
    case SetStackLocalName(va, offset, name, _) => StackNameUndo(p, va, offset, name);
    case SetParamName(va, index, name, _) => ParamUndo(p, va, index, name);
    case SetFunctionMemory(va, card, _) =>
      MemoryUndo(p, va, card);
      assert Restorable(op, p) by { MemoryRestorable(p, va, card); }
    case SetFocus(va, _) => FocusUndo(p, va);
    case RenameSymbol(_, _, _, _, _) => RenameUndo(p, op);
    case _ => MapUndone(p, op);
  }

  lemma MemoryRestorable(p: Project, va: u64, card: Card)
    ensures Restorable(SetFunctionMemory(va, card, None), p)
  {
  }

  /** A first comment cannot be undone to "no comment": an empty one stays behind. */
  lemma FirstCommentStays(p: Project, va: u64, text: string)
    requires (va, AddressScope) !in p.comments
    ensures
      var op := SetComment(va, AddressScope, text, None);
      var undone := After(Inverse(Applied(op, p)).value, After(op, p));
      (va, AddressScope) in undone.comments && undone.comments[(va, AddressScope)] == ""
  {
  }

  // ---------------------------------------------------------------- content decides behaviour

  lemma SameParts(p: Project, q: Project)
    requires Same(p, q)
    ensures p.functionEntries == q.functionEntries && p.symbols == q.symbols && p.comments == q.comments
    ensures p.focus == q.focus && p.globals == q.globals && p.signatures == q.signatures && p.frames == q.frames
  {
    hide AllUnstamped;
    var a, b := Content(p), Content(q);
    assert a.functionEntries == p.functionEntries && b.functionEntries == q.functionEntries;
    assert a.symbols == p.symbols && b.symbols == q.symbols;
  }

  /** The operations of the same kind and payload, whatever they captured. */
  predicate SamePayload(a: Op, b: Op)
    requires !a.Batch? && !b.Batch?
  {
    match (a, b)
    case (RenameSymbol(va, name, kind, _, _), RenameSymbol(vb, nameB, kindB, _, _)) =>
      va == vb && name == nameB && kind == kindB
    case (SetComment(va, scope, text, _), SetComment(vb, scopeB, textB, _)) =>
      va == vb && scope == scopeB && text == textB
    case (SetFocus(va, _), SetFocus(vb, _)) => va == vb
    case (SetGlobalType(va, ty, _), SetGlobalType(vb, tyB, _)) => va == vb && ty == tyB
    case (SetFunctionSignature(va, s, _), SetFunctionSignature(vb, sB, _)) => va == vb && s == sB
    case (SetStackLocalType(va, o, ty, _), SetStackLocalType(vb, oB, tyB, _)) => va == vb && o == oB && ty == tyB
    case (SetStackLocalName(va, o, n, _), SetStackLocalName(vb, oB, nB, _)) => va == vb && o == oB && n == nB
    case (SetParamName(va, i, n, _), SetParamName(vb, iB, nB, _)) => va == vb && i == iB && n == nB
    case (SetFunctionMemory(va, c, _), SetFunctionMemory(vb, cB, _)) => va == vb && c == cB
    case _ => false
  }

  lemma CapturedPayload(op: Op, p: Project)
    requires !op.Batch?
    ensures SamePayload(Captured(op, p), op) && SamePayload(op, op) && !Captured(op, p).Batch?
  {
  }

  /** An effect, seen as content, needs nothing but the content it starts from. */
  lemma EffectOnContent(a: Op, b: Op, p: Project)
    requires !a.Batch? && !b.Batch? && SamePayload(a, b)
    ensures Content(Effect(a, p)) == Content(Effect(b, Content(p)))
  {
    hide Upsert, WithParam, AllUnstamped, NameEdit;
    if a.SetFunctionMemory? {
      MemoryOnContent(a, b, p);
    } else {
      UnstampedUpdate(p.memory, 0, ClearCard(0));
    }
  }

  /** The stamp a card gets is not content. */
  lemma UnstampedAfter(memory: map<u64, Card>, va: u64, card: Card, s: nat, r: nat)
    ensures AllUnstamped(MemoryAfter(memory, va, card, s)) ==
      AllUnstamped(MemoryAfter(AllUnstamped(memory), va, card, r))
  {
    hide AllUnstamped, Card.IsClear;
    UnstampedUpdate(memory, va, card.(va := va, updatedSeq := s));
    UnstampedUpdate(AllUnstamped(memory), va, card.(va := va, updatedSeq := r));
  }

  lemma MemoryOnContent(a: Op, b: Op, p: Project)
    requires a.SetFunctionMemory? && b.SetFunctionMemory? && a.va == b.va && a.card == b.card
    ensures Content(Effect(a, p)) == Content(Effect(b, Content(p)))
  {
    hide AllUnstamped, MemoryAfter;
    var c := Content(p);
    UnstampedAfter(p.memory, a.va, a.card, p.opSeq + 1, c.opSeq + 1);
    MemoryEffect(a, p);
    MemoryEffect(b, c);
  }

  lemma MemoryEffect(op: Op, p: Project)
    requires op.SetFunctionMemory?
    ensures Effect(op, p) == p.(memory := MemoryAfter(p.memory, op.va, op.card, p.opSeq + 1))
  {
  }

  /** The content after an operation depends only on the content before and on its payload. */
  lemma EffectSame(a: Op, b: Op, p: Project, q: Project)
    requires !a.Batch? && !b.Batch? && SamePayload(a, b) && Same(p, q)
    ensures Same(Effect(a, p), Effect(b, q))
  {
    hide Effect, Content;
    assert SamePayload(b, b);
    EffectOnContent(a, b, p);
    EffectOnContent(b, b, q);
  }

  /** What is captured once stays captured: re-applying an applied operation changes nothing in it. */
  lemma CapturedStable(op: Op, p: Project, q: Project)
    requires !op.Batch? && Same(p, q)
    ensures Captured(Captured(op, p), q) == Captured(op, p)
  {
    hide FindVar, Padded;
    SameParts(p, q);
  }

  /** Replaying an applied operation from equal content repeats it and its effect. */
  lemma {:induction false} Replay(op: Op, p: Project, q: Project)
    requires Same(p, q)
    ensures Same(After(op, p), After(op, q))
    ensures Applied(Applied(op, p), q) == Applied(op, p)
    ensures Same(After(Applied(op, p), q), After(op, p))
    decreases op
  {
    hide Captured, Effect, Content;
    if op.Batch? {
      ReplayAll(op.ops, p, q);
    } else {
      CapturedPayload(op, p);
      CapturedPayload(op, q);
      EffectSame(Captured(op, p), Captured(op, q), p, q);
      CapturedStable(op, p, q);
      EffectSame(Captured(op, p), Captured(op, p), q, p);
    }
  }

  lemma {:induction false} ReplayAll(ops: seq<Op>, p: Project, q: Project)
    requires Same(p, q)
    ensures Same(ApplyAll(ops, p).1, ApplyAll(ops, q).1)
    ensures ApplyAll(ApplyAll(ops, p).0, q).0 == ApplyAll(ops, p).0
    ensures Same(ApplyAll(ApplyAll(ops, p).0, q).1, ApplyAll(ops, p).1)
    decreases ops
  {
    hide Captured, Effect, Content;
    if ops != [] {
      Replay(ops[0], p, q);
      var mid, midQ := After(ops[0], p), After(ops[0], q);
      ReplayAll(ops[1..], mid, midQ);
      var again := After(Applied(ops[0], p), q);
      ReplayAll(ops[1..], mid, again);
      var applied := ApplyAll(ops, p).0;
      assert applied[1..] == ApplyAll(ops[1..], mid).0;
    }
  }

  // ---------------------------------------------------------------- batches

  lemma {:induction false} ApplyAllSplit(a: seq<Op>, b: seq<Op>, p: Project)
    ensures ApplyAll(a + b, p).1 == ApplyAll(b, ApplyAll(a, p).1).1
    decreases |a|
  {
    hide Captured, Effect;
    if a == [] {
      assert a + b == b;
    } else {
      assert (a + b)[1..] == a[1..] + b;
      ApplyAllSplit(a[1..], b, After(a[0], p));
    }
  }

  /** Undoing `op`, applied in `p`, where it has an inverse at all, gives the content of `p` back. */
  predicate Reverts(op: Op, p: Project) {
    var (applied, after) := Apply(op, p);
    var inverse := Inverse(applied);
    Same(if inverse.Some? then After(inverse.value, after) else after, p)
  }

  /** Each operation of the list reverts at the point where it is applied. */
  predicate ChainReverts(ops: seq<Op>, p: Project) {
    ops == [] || (Reverts(ops[0], p) && ChainReverts(ops[1..], After(ops[0], p)))
  }

  /** Undoing last to first what was applied first to last restores the content. */
  lemma {:induction false} ChainUndone(ops: seq<Op>, p: Project, after: Project)
    requires ChainReverts(ops, p) && Same(after, ApplyAll(ops, p).1)
    ensures Same(ApplyAll(InverseAll(ApplyAll(ops, p).0), after).1, p)
    decreases |ops|
  {
    hide Captured, Effect, Content;
    if ops != [] {
      var mid, first := After(ops[0], p), Inverse(Applied(ops[0], p));
      var applied := ApplyAll(ops, p).0;
      ChainUndone(ops[1..], mid, after);
      assert applied[1..] == ApplyAll(ops[1..], mid).0;
      var back := InverseAll(applied[1..]);
      if first.Some? {
        ApplyAllSplit(back, [first.value], after);
        Replay(first.value, ApplyAll(back, after).1, mid);
        ApplyOne(first.value, ApplyAll(back, after).1);
      } else {
        assert back + [] == back;
      }
    }
  }

  lemma ApplyOne(op: Op, p: Project)
    ensures ApplyAll([op], p).1 == After(op, p)
  {
    hide Captured, Effect;
    assert [op][1..] == [];
  }

  // ---------------------------------------------------------------- the guard, batches included

  lemma {:induction false} AfterWellKept(op: Op, p: Project)
    requires WellKept(p)
    ensures WellKept(After(op, p))
    decreases op
  {
    hide Captured, Effect, WellKept;
    if op.Batch? {
      AfterAllWellKept(op.ops, p);
    } else {
      CapturedPayload(op, p);
      EffectWellKept(Captured(op, p), p);
    }
  }

  lemma EffectWellKept(op: Op, p: Project)
    requires !op.Batch? && WellKept(p)
    ensures WellKept(Effect(op, p))
  {
    hide Effect;
    EffectParts(op, p);
  }

  lemma {:induction false} AfterAllWellKept(ops: seq<Op>, p: Project)
    requires WellKept(p)
    ensures WellKept(ApplyAll(ops, p).1)
    decreases ops
  {
    hide Captured, Effect, WellKept;
    if ops != [] {
      AfterWellKept(ops[0], p);
      AfterAllWellKept(ops[1..], After(ops[0], p));
    }
  }

  /** A batch with nothing but such batches in it: the one operation without an inverse. */
  predicate Hollow(op: Op) {
    op.Batch? && forall o :: o in op.ops ==> Hollow(o)
  }

  /** The guard, threaded through the children of a batch. */
  predicate Guarded(op: Op, p: Project) {
    match op
    case Batch(ops) => AllGuarded(ops, p)
    case _ => Restorable(op, p)
  }

  predicate AllGuarded(ops: seq<Op>, p: Project) {
    ops == [] || (Guarded(ops[0], p) && AllGuarded(ops[1..], After(ops[0], p)))
  }

  /** Exactly the hollow operations have no inverse. */
  lemma {:induction false} InverseIff(op: Op, p: Project)
    ensures Inverse(Applied(op, p)).None? <==> Hollow(op)
    decreases op
  {
    hide Captured, Effect;
    if op.Batch? {
      InversesIff(op.ops, p);
    } else {
      CapturedPayload(op, p);
    }
  }

  lemma {:induction false} InversesIff(ops: seq<Op>, p: Project)
    ensures InverseAll(ApplyAll(ops, p).0) == [] <==> forall o :: o in ops ==> Hollow(o)
    decreases ops
  {
    hide Captured, Effect;
    if ops != [] {
      InverseIff(ops[0], p);
      InversesIff(ops[1..], After(ops[0], p));
      var applied := ApplyAll(ops, p).0;
      assert applied[1..] == ApplyAll(ops[1..], After(ops[0], p)).0;
      assert forall o :: o in ops <==> o == ops[0] || o in ops[1..];
    }
  }

  /** What the guard lets through reverts, batches within batches included. */
  lemma {:induction false} GuardReverts(op: Op, p: Project)
    requires Fresh(op) && WellKept(p) && Guarded(op, p)
    ensures Reverts(op, p)
    decreases op
  {
    hide Captured, Effect, Content, Restorable, WellKept;
    if op.Batch? {
      GuardsRevert(op.ops, p);
      ChainUndone(op.ops, p, ApplyAll(op.ops, p).1);
    } else {
      UndoIff(op, p);
    }
  }

  lemma {:induction false} GuardsRevert(ops: seq<Op>, p: Project)
    requires (forall o :: o in ops ==> Fresh(o)) && WellKept(p) && AllGuarded(ops, p)
    ensures ChainReverts(ops, p)
    decreases ops
  {
    hide Captured, Effect, Content, Restorable, WellKept, Reverts;
    if ops != [] {
      GuardReverts(ops[0], p);
      AfterWellKept(ops[0], p);
      GuardsRevert(ops[1..], After(ops[0], p));
    }
  }

  /** Under the guard undo restores the content, unless there is nothing in the operation to undo. */
  lemma GuardUndoes(op: Op, p: Project)
    requires Fresh(op) && WellKept(p) && Guarded(op, p)
    ensures Undoable(op, p) <==> !Hollow(op)
  {
    hide Captured, Effect, Content, Guarded, WellKept;
    GuardReverts(op, p);
    InverseIff(op, p);
  }

  /** A batch of steps that each revert where they are applied is undone as a whole, unless hollow. */
  lemma BatchUndoable(ops: seq<Op>, p: Project)
    requires ChainReverts(ops, p)
    ensures Undoable(Batch(ops), p) <==> !Hollow(Batch(ops))
  {
    hide Captured, Effect, Content;
    ChainUndone(ops, p, ApplyAll(ops, p).1);
    InverseIff(Batch(ops), p);
  }

  lemma RestorableSame(op: Op, p: Project, q: Project)
    requires !op.Batch? && Same(p, q)
    ensures Restorable(op, p) <==> Restorable(op, q)
  {
    hide FindVar, IndexOf, Content;
    SameParts(p, q);
  }

  /** The guard looks at the content only. */
  lemma {:induction false} GuardedSame(op: Op, p: Project, q: Project)
    requires Same(p, q)
    ensures Guarded(op, p) <==> Guarded(op, q)
    decreases op
  {
    hide Captured, Effect, Content, Restorable;
    if op.Batch? {
      AllGuardedSame(op.ops, p, q);
    } else {
      RestorableSame(op, p, q);
    }
  }

  lemma {:induction false} AllGuardedSame(ops: seq<Op>, p: Project, q: Project)
    requires Same(p, q)
    ensures AllGuarded(ops, p) <==> AllGuarded(ops, q)
    decreases ops
  {
    hide Captured, Effect, Content, Restorable;
    if ops != [] {
      GuardedSame(ops[0], p, q);
      Replay(ops[0], p, q);
      AllGuardedSame(ops[1..], After(ops[0], p), After(ops[0], q));
    }
  }

  // ---------------------------------------------------------------- undo, then redo

  /** Redoing `op` right after undoing it gives back the content that applying it gave. */
  predicate Redoes(op: Op, p: Project) {
    var (applied, after) := Apply(op, p);
    var inverse := Inverse(applied);
    inverse.Some? && Same(After(applied, After(inverse.value, after)), after)
  }

  /** After an edit the variable is there and carries it. */
  lemma UpsertFinds(frame: Frame, offset: int, edit: VarEdit)
    ensures var list := ListFor(Upsert(frame, offset, edit), offset);
      var at := IndexOf(list, offset);
      at.Some? && Edited(list[at.value], edit) == list[at.value]
  {
    var list := ListFor(frame, offset);
    var at := IndexOf(list, offset);
    if at.Some? {
      IndexOfUpdate(list, offset, Edited(list[at.value], edit));
    } else {
      var v := Edited(StackVar(None, Unknown(0), offset, 0), edit);
      var grown := list + [v];
      assert OffsetsOrdered();
      SortSorts(OffsetLe, grown);
      var sorted := Sort(OffsetLe, grown);
      assert v in multiset(grown);
      assert v in sorted;
      forall w | w in sorted && w.offset == offset ensures w == v {
        assert w in multiset(sorted);
        assert w in grown;
      }
    }
  }

  lemma UpsertThrice(frame: Frame, offset: int, edit: VarEdit, back: VarEdit)
    requires edit.SetTy? <==> back.SetTy?
    ensures Upsert(Upsert(Upsert(frame, offset, edit), offset, back), offset, edit) == Upsert(frame, offset, edit)
  {
    hide Upsert, IndexOf;
    var once := Upsert(frame, offset, edit);
    UpsertFinds(frame, offset, edit);
    UpsertTwice(once, offset, back, edit);
    var list := ListFor(once, offset);
    var at := IndexOf(list, offset).value;
    assert Edited(Edited(list[at], back), edit) == list[at];
    assert list[at := list[at]] == list;
  }

  /** A redo is exact when writing, restoring and writing again is the same as writing once. */
  lemma StackTypeRedo(p: Project, va: u64, offset: int, ty: DataType)
    ensures Redoes(SetStackLocalType(va, offset, ty, None), p)
  {
    hide Upsert, FindVar, AllUnstamped;
    var seen := FindVar(FrameOf(p, va), offset);
    var back := Or(if seen.Some? then Some(seen.value.ty) else None, Unknown(0));
    UpsertThrice(FrameOf(p, va), offset, SetTy(ty), SetTy(back));
    MapThrice(p.frames, va, Upsert(FrameOf(p, va), offset, SetTy(ty)),
      Upsert(Upsert(FrameOf(p, va), offset, SetTy(ty)), offset, SetTy(back)));
  }

  lemma StackNameRedo(p: Project, va: u64, offset: int, name: string)
    ensures Redoes(SetStackLocalName(va, offset, name, None), p)
  {
    hide Upsert, FindVar, AllUnstamped;
    var seen := FindVar(FrameOf(p, va), offset);
    var back := NameEdit(Or(if seen.Some? then seen.value.name else None, ""));
    UpsertThrice(FrameOf(p, va), offset, NameEdit(name), back);
    MapThrice(p.frames, va, Upsert(FrameOf(p, va), offset, NameEdit(name)),
      Upsert(Upsert(FrameOf(p, va), offset, NameEdit(name)), offset, back));
  }

  lemma MapThrice<K, V>(m: map<K, V>, k: K, v: V, back: V)
    ensures m[k := v][k := back][k := v] == m[k := v]
  {
  }

  lemma ParamThrice(s: Signature, index: nat, name: string, back: string)
    ensures WithParam(WithParam(WithParam(s, index, name), index, back), index, name) == WithParam(s, index, name)
  {
    hide Padded;
    var once := WithParam(s, index, name);
    assert once.params[index := (back, once.params[index].1)][index := (name, once.params[index].1)] == once.params;
  }

  lemma MemoryRedone(before: map<u64, Card>, va: u64, card: Card, back: Card, stamp: nat)
    ensures MemoryAfter(MemoryAfter(MemoryAfter(before, va, card, stamp), va, back, stamp), va, card, stamp)
         == MemoryAfter(before, va, card, stamp)
  {
  }

  lemma MemoryRedo(p: Project, va: u64, card: Card)
    ensures Redoes(SetFunctionMemory(va, card, None), p)
  {
    hide AllUnstamped;
    var back := if va in p.memory then p.memory[va] else ClearCard(va);
    var stamp := p.opSeq + 1;
    var once := MemoryAfter(p.memory, va, card, stamp);
    var twice := MemoryAfter(once, va, back, stamp);
    var applied := SetFunctionMemory(va, card, Some(Lookup(p.memory, va)));
    assert Apply(SetFunctionMemory(va, card, None), p) == (applied, p.(memory := once));
    assert Inverse(applied) == Some(SetFunctionMemory(va, back, Some(Some(card))));
    assert After(SetFunctionMemory(va, back, Some(Some(card))), p.(memory := once)) == p.(memory := twice);
    assert After(applied, p.(memory := twice)) == p.(memory := MemoryAfter(twice, va, card, stamp));
    MemoryRedone(p.memory, va, card, back, stamp);
  }

  lemma RenameRedo(p: Project, va: u64, name: string, kind: SymbolKind)
    ensures Redoes(RenameSymbol(va, name, kind, None, None), p)
  {
    hide AllUnstamped;
    var was := Lookup(p.symbols, va);
    MapThrice(p.symbols, va, Symbol(name, kind), if was.Some? then was.value else Symbol("", kind));
  }

  lemma CommentRedo(p: Project, va: u64, scope: CommentScope, text: string)
    ensures Redoes(SetComment(va, scope, text, None), p)
  {
    hide AllUnstamped;
    MapThrice(p.comments, (va, scope), text, Or(Lookup(p.comments, (va, scope)), ""));
  }

  lemma GlobalRedo(p: Project, va: u64, ty: DataType)
    ensures Redoes(SetGlobalType(va, ty, None), p)
  {
    hide AllUnstamped;
    MapThrice(p.globals, va, ty, Or(Lookup(p.globals, va), Unknown(0)));
  }

  lemma SignatureRedo(p: Project, va: u64, signature: Signature)
    ensures Redoes(SetFunctionSignature(va, signature, None), p)
  {
    hide AllUnstamped;
    MapThrice(p.signatures, va, signature, Or(Lookup(p.signatures, va), Signature("", [], Void, None)));
  }

  function Focused(p: Project, va: u64): Project {
    if va in p.functionEntries then p.(focus := Some(va)) else p
  }

  lemma FocusApplied(p: Project, va: u64, was: Option<u64>)
    ensures Apply(SetFocus(va, was), p) == (SetFocus(va, if was.Some? then was else p.focus), Focused(p, va))
    ensures Inverse(SetFocus(va, was)) == Some(SetFocus(Or(was, va), Some(va)))
  {
  }

  lemma FocusRedo(p: Project, va: u64)
    ensures Redoes(SetFocus(va, None), p)
  {
    hide Content, Apply, Inverse;
    FocusApplied(p, va, None);
    FocusApplied(p, va, p.focus);
    var after, back := Focused(p, va), Or(p.focus, va);
    FocusApplied(after, back, Some(va));
    FocusApplied(Focused(after, back), va, p.focus);
    assert Focused(Focused(after, back), va) == after;
  }

  /** Undo and redo of any single operation is the identity, whether or not undo alone restored the content. */
  lemma UndoRedo(op: Op, p: Project)
    requires !op.Batch? && Fresh(op)
    ensures Redoes(op, p)
  {
    hide Redoes;
    match op
    case RenameSymbol(va, name, kind, _, _) => RenameRedo(p, va, name, kind);
    case SetComment(va, scope, text, _) => CommentRedo(p, va, scope, text);
    case SetFocus(va, _) => FocusRedo(p, va);
    case SetGlobalType(va, ty, _) => GlobalRedo(p, va, ty);
    case SetFunctionSignature(va, signature, _) => SignatureRedo(p, va, signature);
    case SetStackLocalType(va, offset, ty, _) => StackTypeRedo(p, va, offset, ty);
    case SetStackLocalName(va, offset, name, _) => StackNameRedo(p, va, offset, name);
    case SetParamName(va, index, name, _) => ParamRedo(p, va, index, name);
    case SetFunctionMemory(va, card, _) => MemoryRedo(p, va, card);
  }

  lemma ParamRedo(p: Project, va: u64, index: nat, name: string)
    ensures Redoes(SetParamName(va, index, name, None), p)
  {
    hide Padded, WithParam, AllUnstamped;
    var s := SignatureOf(p, va);
    ParamThrice(s, index, name, Padded(s.params, index)[index].0);
  }

  /** An undoable operation, batch or not, is redone exactly. */
  lemma UndoableRedoes(op: Op, p: Project)
    requires Undoable(op, p)
    ensures Redoes(op, p)
  {
    hide Captured, Effect, Content;
    var (applied, after) := Apply(op, p);
    Replay(op, p, After(Inverse(applied).value, after));
  }
}
