/** Applying a list of operations again once it was undone: the content it gives, and what it captures. */
module Repeats {
  import opened Prelude
  import opened Leaves
  import opened Ops
  import opened Restores
  import opened Slots
  import opened Sorting
  import opened Undo

  // ---------------------------------------------------------------- symbols, comments, globals, focus, memory

  /** Runs that agree in an entry, or write it, agree in it afterwards. */
  lemma {:induction false} SymbolFollows(ops: seq<Op>, x: Project, y: Project, va: u64)
    requires Singles(ops)
    requires (exists o :: o in ops && Renames(o, va)) || Lookup(x.symbols, va) == Lookup(y.symbols, va)
    ensures Lookup(ApplyAll(ops, x).1.symbols, va) == Lookup(ApplyAll(ops, y).1.symbols, va)
    decreases |ops|
  {
    hide Apply;
    if ops != [] {
      AfterSymbols(ops[0], x);
      AfterSymbols(ops[0], y);
      assert forall o :: o in ops <==> o == ops[0] || o in ops[1..];
      SymbolFollows(ops[1..], After(ops[0], x), After(ops[0], y), va);
    }
  }

  lemma {:induction false} CommentFollows(ops: seq<Op>, x: Project, y: Project, va: u64, scope: CommentScope)
    requires Singles(ops)
    requires (exists o :: o in ops && Comments(o, va, scope)) ||
      Lookup(x.comments, (va, scope)) == Lookup(y.comments, (va, scope))
    ensures Lookup(ApplyAll(ops, x).1.comments, (va, scope)) == Lookup(ApplyAll(ops, y).1.comments, (va, scope))
    decreases |ops|
  {
    hide Apply;
    if ops != [] {
      AfterComments(ops[0], x);
      AfterComments(ops[0], y);
      assert forall o :: o in ops <==> o == ops[0] || o in ops[1..];
      CommentFollows(ops[1..], After(ops[0], x), After(ops[0], y), va, scope);
    }
  }

  lemma {:induction false} GlobalFollows(ops: seq<Op>, x: Project, y: Project, va: u64)
    requires Singles(ops)
    requires (exists o :: o in ops && TypesGlobal(o, va)) || Lookup(x.globals, va) == Lookup(y.globals, va)
    ensures Lookup(ApplyAll(ops, x).1.globals, va) == Lookup(ApplyAll(ops, y).1.globals, va)
    decreases |ops|
  {
    hide Apply;
    if ops != [] {
      AfterGlobals(ops[0], x);
      AfterGlobals(ops[0], y);
      assert forall o :: o in ops <==> o == ops[0] || o in ops[1..];
      GlobalFollows(ops[1..], After(ops[0], x), After(ops[0], y), va);
    }
  }

  lemma {:induction false} FocusFollows(ops: seq<Op>, x: Project, y: Project)
    requires Singles(ops) && x.functionEntries == y.functionEntries
    requires (exists o :: o in ops && Focuses(o, x.functionEntries)) || x.focus == y.focus
    ensures ApplyAll(ops, x).1.focus == ApplyAll(ops, y).1.focus
    ensures ApplyAll(ops, x).1.functionEntries == ApplyAll(ops, y).1.functionEntries == x.functionEntries
    decreases |ops|
  {
    hide Apply;
    if ops != [] {
      AfterFocus(ops[0], x);
      AfterFocus(ops[0], y);
      assert forall o :: o in ops <==> o == ops[0] || o in ops[1..];
      FocusFollows(ops[1..], After(ops[0], x), After(ops[0], y));
    }
  }

  predicate Remembers(o: Op, va: u64) { o.SetFunctionMemory? && o.va == va }

  lemma CardAfter(memory: map<u64, Card>, va: u64, card: Card, stamp: nat, k: u64)
    ensures var after := MemoryAfter(memory, va, card, stamp);
      (if k in after then Some(Unstamped(after[k])) else None) ==
        if k != va then (if k in memory then Some(Unstamped(memory[k])) else None)
        else if card.IsClear() then None
        else Some(Unstamped(card.(va := va)))
  {
    hide Card.IsClear;
  }

  lemma {:induction false} MemoryFollows(ops: seq<Op>, x: Project, y: Project, va: u64)
    requires Singles(ops)
    requires (exists o :: o in ops && Remembers(o, va)) || UnstampedAt(x, va) == UnstampedAt(y, va)
    ensures UnstampedAt(ApplyAll(ops, x).1, va) == UnstampedAt(ApplyAll(ops, y).1, va)
    decreases |ops|
  {
    hide Apply, MemoryAfter, Unstamped, Card.IsClear;
    if ops != [] {
      var o := ops[0];
      AfterMemory(o, x);
      AfterMemory(o, y);
      if o.SetFunctionMemory? {
        CardAfter(x.memory, o.va, o.card, x.opSeq + 1, va);
        CardAfter(y.memory, o.va, o.card, y.opSeq + 1, va);
      }
      assert forall o :: o in ops <==> o == ops[0] || o in ops[1..];
      MemoryFollows(ops[1..], After(o, x), After(o, y), va);
    }
  }

  /** Undoing leaves cards alone that were not written. */
  lemma {:induction false} MemoryUntouched(ops: seq<Op>, p: Project, va: u64)
    requires Singles(ops) && FitsAll(ops, p) && !(exists o :: o in ops && Remembers(o, va))
    ensures UnstampedAt(Undone(ops, p), va) == UnstampedAt(p, va)
    decreases |ops|
  {
    hide Apply, Fits, InverseSimple, MemoryAfter, Unstamped, Card.IsClear;
    if ops != [] {
      var o, mid := ops[0], After(ops[0], p);
      assert o in ops && forall x :: x in ops[1..] ==> x in ops;
      MemoryUntouched(ops[1..], mid, va);
      OldMemory(o, p);
      AfterMemory(o, p);
      var b, u := InverseSimple(Applied(o, p)), Undone(ops[1..], mid);
      AfterMemory(b, u);
      if o.SetFunctionMemory? {
        CardAfter(p.memory, o.va, o.card, p.opSeq + 1, va);
        CardAfter(u.memory, b.va, b.card, u.opSeq + 1, va);
      }
    }
  }

  // ---------------------------------------------------------------- signatures

  /** Runs that agree in a signature that is there, or that nothing writes, go on agreeing. */
  lemma {:induction false} SignatureFollows(ops: seq<Op>, x: Project, y: Project, va: u64)
    requires Singles(ops) && Lookup(x.signatures, va) == Lookup(y.signatures, va)
    requires va in x.signatures || !(exists o :: o in ops && Signs(o, va))
    ensures Lookup(ApplyAll(ops, x).1.signatures, va) == Lookup(ApplyAll(ops, y).1.signatures, va)
    decreases |ops|
  {
    hide Apply, WithParam, SignatureOf;
    if ops != [] {
      var o := ops[0];
      AfterSignatures(o, x);
      AfterSignatures(o, y);
      if NamesParam(o, va) && va in x.signatures {
        SignatureThere(x, va);
        SignatureThere(y, va);
      }
      assert o in ops && forall z :: z in ops[1..] ==> z in ops;
      SignatureFollows(ops[1..], After(o, x), After(o, y), va);
    }
  }

  /** Once the signature is replaced, what was there before does not matter. */
  lemma {:induction false} ReplacedFollows(ops: seq<Op>, x: Project, y: Project, va: u64)
    requires Singles(ops) && exists o :: o in ops && Replaces(o, va)
    ensures Lookup(ApplyAll(ops, x).1.signatures, va) == Lookup(ApplyAll(ops, y).1.signatures, va)
    decreases |ops|
  {
    hide Apply, WithParam, SignatureOf;
    var o := ops[0];
    AfterSignatures(o, x);
    AfterSignatures(o, y);
    assert forall z :: z in ops <==> z == o || z in ops[1..];
    if Replaces(o, va) {
      SignatureFollows(ops[1..], After(o, x), After(o, y), va);
    } else {
      ReplacedFollows(ops[1..], After(o, x), After(o, y), va);
    }
  }

  predicate NoReplace(ops: seq<Op>, va: u64) {
    forall o :: o in ops ==> !Replaces(o, va)
  }

  predicate AnyParam(ops: seq<Op>, va: u64, index: nat) {
    exists o :: o in ops && NamesParam(o, va) && o.index == index
  }

  lemma AnyParamStep(ops: seq<Op>, va: u64, index: nat)
    requires ops != []
    ensures AnyParam(ops, va, index) <==> (NamesParam(ops[0], va) && ops[0].index == index) || AnyParam(ops[1..], va, index)
  {
    assert forall x :: x in ops <==> x == ops[0] || x in ops[1..];
  }

  /** The name the last rename of the parameter gives it. */
  function LastParam(ops: seq<Op>, va: u64, index: nat): string
    requires AnyParam(ops, va, index)
  {
    AnyParamStep(ops, va, index);
    if AnyParam(ops[1..], va, index) then LastParam(ops[1..], va, index) else ops[0].name
  }

  /** The parameter renames among the operations, applied to a signature. */
  function Renamed(ops: seq<Op>, va: u64, s: Signature): Signature {
    if ops == [] then s
    else Renamed(ops[1..], va, if NamesParam(ops[0], va) then WithParam(s, ops[0].index, ops[0].name) else s)
  }

  lemma {:induction false} RenamedRuns(ops: seq<Op>, x: Project, va: u64)
    requires Singles(ops) && NoReplace(ops, va) && va in x.signatures
    ensures Lookup(ApplyAll(ops, x).1.signatures, va) == Some(Renamed(ops, va, x.signatures[va]))
    decreases |ops|
  {
    hide Apply, WithParam, SignatureOf;
    if ops != [] {
      var o := ops[0];
      AfterSignatures(o, x);
      SignatureThere(x, va);
      assert o in ops && forall z :: z in ops[1..] ==> z in ops;
      RenamedRuns(ops[1..], After(o, x), va);
    }
  }

  /** What one rename does to a parameter that is there. */
  lemma WithParamAt(s: Signature, index: nat, name: string)
    ensures var t := WithParam(s, index, name);
      && t.(params := s.params) == s && |t.params| >= |s.params| && index < |t.params|
      && (index < |s.params| ==> |t.params| == |s.params|)
      && t.params[index].0 == name
      && forall i :: 0 <= i < |s.params| ==>
           t.params[i].1 == s.params[i].1 && (i != index ==> t.params[i].0 == s.params[i].0)
  {
    hide Padded;
  }

  lemma {:induction false} RenamedMeans(ops: seq<Op>, va: u64, s: Signature)
    ensures var r := Renamed(ops, va, s);
      && r.(params := s.params) == s && |r.params| >= |s.params|
      && ((forall o :: o in ops && NamesParam(o, va) ==> o.index < |s.params|) ==> |r.params| == |s.params|)
      && forall i :: 0 <= i < |s.params| ==>
           && r.params[i].1 == s.params[i].1
           && r.params[i].0 == if AnyParam(ops, va, i) then LastParam(ops, va, i) else s.params[i].0
    decreases |ops|
  {
    hide WithParam, AnyParam;
    if ops == [] {
      assert forall i :: 0 <= i < |s.params| ==> !AnyParam(ops, va, i) by { NoParams(va); }
    } else {
      var o := ops[0];
      var t := if NamesParam(o, va) then WithParam(s, o.index, o.name) else s;
      if NamesParam(o, va) {
        WithParamAt(s, o.index, o.name);
      }
      RenamedMeans(ops[1..], va, t);
      assert forall z :: z in ops <==> z == o || z in ops[1..];
      var r := Renamed(ops, va, s);
      forall i | 0 <= i < |s.params|
        ensures r.params[i].0 == if AnyParam(ops, va, i) then LastParam(ops, va, i) else s.params[i].0
      {
        AnyParamStep(ops, va, i);
      }
    }
  }

  lemma NoParams(va: u64)
    ensures forall i :: !AnyParam([], va, i)
  {
  }

  /** After a run every renamed parameter is there and has its last name. */
  lemma {:induction false} ParamsCarried(ops: seq<Op>, p: Project, va: u64)
    requires Singles(ops) && NoReplace(ops, va)
    ensures var e := ApplyAll(ops, p).1;
      forall i: nat :: AnyParam(ops, va, i) ==>
        va in e.signatures && i < |e.signatures[va].params| && e.signatures[va].params[i].0 == LastParam(ops, va, i)
    decreases |ops|
  {
    hide Apply, WithParam, SignatureOf, AnyParam;
    if ops == [] {
      NoParams(va);
    } else {
      var o, rest, mid := ops[0], ops[1..], After(ops[0], p);
      assert o in ops && forall z :: z in rest ==> z in ops;
      ParamsCarried(rest, mid, va);
      AfterSignatures(o, p);
      var e := ApplyAll(ops, p).1;
      forall i: nat | AnyParam(ops, va, i)
        ensures va in e.signatures && i < |e.signatures[va].params| && e.signatures[va].params[i].0 == LastParam(ops, va, i)
      {
        AnyParamStep(ops, va, i);
        if !AnyParam(rest, va, i) {
          WithParamAt(SignatureOf(p, va), o.index, o.name);
          RenamedRuns(rest, mid, va);
          RenamedMeans(rest, va, mid.signatures[va]);
        }
      }
    }
  }

  /** Two signatures that differ only in names of parameters the operations rename. */
  predicate NearSignature(ops: seq<Op>, va: u64, s: Signature, t: Signature) {
    && s.(params := t.params) == t && |s.params| == |t.params|
    && forall i :: 0 <= i < |s.params| ==>
         s.params[i].1 == t.params[i].1 && (!AnyParam(ops, va, i) ==> s.params[i].0 == t.params[i].0)
  }

  lemma {:induction false} SignatureUntouched(ops: seq<Op>, p: Project, va: u64)
    requires Singles(ops) && FitsAll(ops, p) && !(exists o :: o in ops && Signs(o, va))
    ensures Lookup(Undone(ops, p).signatures, va) == Lookup(p.signatures, va)
    ensures Lookup(ApplyAll(ops, p).1.signatures, va) == Lookup(p.signatures, va)
    decreases |ops|
  {
    hide Apply, Fits, InverseSimple, WithParam, SignatureOf;
    if ops != [] {
      var o, mid := ops[0], After(ops[0], p);
      assert o in ops && forall x :: x in ops[1..] ==> x in ops;
      SignatureUntouched(ops[1..], mid, va);
      OldSignature(o, p);
      AfterSignatures(o, p);
      AfterSignatures(InverseSimple(Applied(o, p)), Undone(ops[1..], mid));
    }
  }

  lemma NearMore(ops: seq<Op>, va: u64, s: Signature, t: Signature)
    requires ops != [] && (s == t || NearSignature(ops[1..], va, s, t))
    ensures NearSignature(ops, va, s, t)
  {
    hide AnyParam;
    forall i: nat ensures AnyParam(ops[1..], va, i) ==> AnyParam(ops, va, i) {
      AnyParamStep(ops, va, i);
    }
  }

  lemma NearWrite(ops: seq<Op>, va: u64, s: Signature, t: Signature, index: nat, name: string)
    requires NearSignature(ops, va, s, t) && AnyParam(ops, va, index) && index < |t.params|
    ensures NearSignature(ops, va, WithParam(s, index, name), t)
  {
    hide AnyParam, WithParam;
    WithParamAt(s, index, name);
  }

  /** Undoing renames leaves the signature as it came out of the run, those names apart. */
  lemma {:induction false} UndoneIsNear(ops: seq<Op>, p: Project, va: u64)
    requires Singles(ops) && FitsAll(ops, p) && NoReplace(ops, va) && exists o :: o in ops && NamesParam(o, va)
    ensures var u, e := Undone(ops, p), ApplyAll(ops, p).1;
      && va in u.signatures && va in e.signatures && NearSignature(ops, va, u.signatures[va], e.signatures[va])
    decreases |ops|
  {
    hide Apply, Fits, InverseSimple, WithParam, SignatureOf, AnyParam, NearSignature;
    var o, rest, mid := ops[0], ops[1..], After(ops[0], p);
    assert forall z :: z in ops <==> z == o || z in rest;
    AfterSignatures(o, p);
    OldSignature(o, p);
    var b, u, e := InverseSimple(Applied(o, p)), Undone(rest, mid), ApplyAll(ops, p).1;
    AfterSignatures(b, u);
    if exists x :: x in rest && NamesParam(x, va) {
      UndoneIsNear(rest, mid, va);
    } else {
      assert forall x :: x in rest ==> !Signs(x, va);
      SignatureUntouched(rest, mid, va);
    }
    assert e == ApplyAll(rest, mid).1;
    NearMore(ops, va, u.signatures[va], e.signatures[va]);
    if NamesParam(o, va) {
      AnyParamStep(ops, va, o.index);
      ParamsCarried(ops, p, va);
      SignatureThere(u, va);
      assert b.index < |e.signatures[va].params|;
      NearWrite(ops, va, u.signatures[va], e.signatures[va], b.index, b.name);
      assert After(b, u).signatures[va] == WithParam(u.signatures[va], b.index, b.name);
    } else {
      assert !Replaces(o, va);
      assert Lookup(After(b, u).signatures, va) == Lookup(u.signatures, va);
    }
    assert Undone(ops, p) == After(b, u);
  }

  lemma SignatureRepeats(ops: seq<Op>, p: Project, va: u64)
    requires Singles(ops) && FitsAll(ops, p)
    ensures Lookup(ApplyAll(ops, Undone(ops, p)).1.signatures, va) == Lookup(ApplyAll(ops, p).1.signatures, va)
  {
    hide Undone, ApplyAll, FitsAll, AnyParam;
    var u, e := Undone(ops, p), ApplyAll(ops, p).1;
    if exists o :: o in ops && Replaces(o, va) {
      ReplacedFollows(ops, u, p, va);
    } else if exists o :: o in ops && NamesParam(o, va) {
      UndoneIsNear(ops, p, va);
      RenamedRuns(ops, u, va);
      RenamedMeans(ops, va, u.signatures[va]);
      ParamsCarried(ops, p, va);
      var r, s, t := Renamed(ops, va, u.signatures[va]), u.signatures[va], e.signatures[va];
      forall o | o in ops && NamesParam(o, va) ensures o.index < |s.params| {
        assert AnyParam(ops, va, o.index) by { ParamNamed(ops, va, o); }
      }
      assert r.params == t.params;
      assert r == t;
    } else {
      SignatureUntouched(ops, p, va);
      SignatureFollows(ops, u, p, va);
    }
  }

  lemma ParamNamed(ops: seq<Op>, va: u64, o: Op)
    requires o in ops && NamesParam(o, va)
    ensures AnyParam(ops, va, o.index)
  {
  }

  // ---------------------------------------------------------------- frames

  /** The first variable at an offset. */
  function First(list: seq<StackVar>, offset: int): Option<StackVar> {
    if list == [] then None
    else if list[0].offset == offset then Some(list[0])
    else First(list[1..], offset)
  }

  lemma {:induction false} FirstIs(list: seq<StackVar>, offset: int)
    ensures First(list, offset) ==
      if IndexOf(list, offset).Some? then Some(list[IndexOf(list, offset).value]) else None
  {
    if list != [] && list[0].offset != offset {
      FirstIs(list[1..], offset);
    }
  }

  lemma {:induction false} FirstInserted(list: seq<StackVar>, v: StackVar, offset: int)
    ensures First(Insert(OffsetLe, list, v), offset) == if v.offset == offset then Some(v) else First(list, offset)
  {
    if list != [] && !OffsetLe(v, list[0]) {
      FirstInserted(list[1..], v, offset);
      var r := Insert(OffsetLe, list, v);
      assert r[0] == list[0] && r[1..] == Insert(OffsetLe, list[1..], v);
    } else {
      var r := Insert(OffsetLe, list, v);
      assert r[0] == v && r[1..] == list;
    }
  }

  /** Sorting is stable: the first variable at an offset stays the first. */
  lemma {:induction false} FirstSorted(list: seq<StackVar>, offset: int)
    ensures First(Sort(OffsetLe, list), offset) == First(list, offset)
  {
    if list != [] {
      FirstSorted(list[1..], offset);
      FirstInserted(Sort(OffsetLe, list[1..]), list[0], offset);
    }
  }

  lemma {:induction false} FirstAppended(list: seq<StackVar>, v: StackVar, offset: int)
    ensures First(list + [v], offset) ==
      if First(list, offset).Some? then First(list, offset) else if v.offset == offset then Some(v) else None
  {
    if list == [] {
      assert list + [v] == [v] && [v][1..] == [];
    } else {
      assert (list + [v])[1..] == list[1..] + [v];
      FirstAppended(list[1..], v, offset);
    }
  }

  /** The variable edits at this offset reach. */
  function VarAt(frame: Frame, offset: int): Option<StackVar> { First(ListFor(frame, offset), offset) }

  lemma VarAtIs(frame: Frame, offset: int)
    ensures VarAt(frame, offset).Some? <==> Present(frame, offset)
    ensures Present(frame, offset) ==>
      VarAt(frame, offset) == Some(ListFor(frame, offset)[IndexOf(ListFor(frame, offset), offset).value])
  {
    FirstIs(ListFor(frame, offset), offset);
  }

  lemma FirstUpdated(list: seq<StackVar>, offset: int, v: StackVar, o: int)
    requires IndexOf(list, offset).Some? && v.offset == offset
    ensures First(list[IndexOf(list, offset).value := v], o) == if o == offset then Some(v) else First(list, o)
  {
    var after := list[IndexOf(list, offset).value := v];
    SameIndex(after, list, o);
    FirstIs(after, o);
    FirstIs(list, o);
  }

  /** An edit changes the variable at its offset, or puts one there, and no other. */
  lemma VarAtUpsert(frame: Frame, offset: int, edit: VarEdit, o: int)
    ensures VarAt(Upsert(frame, offset, edit), o) ==
      if o != offset then VarAt(frame, o)
      else
        var v := VarAt(frame, o);
        Some(Edited(if v.Some? then v.value else StackVar(None, Unknown(0), offset, 0), edit))
  {
    hide IndexOf, Sort, First;
    var list := ListFor(frame, offset);
    FirstIs(list, offset);
    if Present(frame, offset) {
      var at := IndexOf(list, offset).value;
      FirstUpdated(list, offset, Edited(list[at], edit), o);
    } else {
      var v := Edited(StackVar(None, Unknown(0), offset, 0), edit);
      FirstSorted(list + [v], o);
      FirstAppended(list, v, o);
    }
  }

  function LastType(ops: seq<Op>, va: u64, offset: int): DataType
    requires AnyTypes(ops, va, offset)
  {
    AnyStep(ops, va, offset);
    if AnyTypes(ops[1..], va, offset) then LastType(ops[1..], va, offset) else ops[0].ty
  }

  function LastName(ops: seq<Op>, va: u64, offset: int): Option<string>
    requires AnyNames(ops, va, offset)
  {
    AnyStep(ops, va, offset);
    if AnyNames(ops[1..], va, offset) then LastName(ops[1..], va, offset) else NameEdit(ops[0].name).name
  }

  /** The variable with the last type and name that the operations give it. */
  function Written(ops: seq<Op>, va: u64, v: StackVar): StackVar {
    v.(ty := if AnyTypes(ops, va, v.offset) then LastType(ops, va, v.offset) else v.ty,
       name := if AnyNames(ops, va, v.offset) then LastName(ops, va, v.offset) else v.name)
  }

  lemma WrittenStep(ops: seq<Op>, va: u64, v: StackVar)
    requires ops != []
    ensures Written(ops, va, v) == Written(ops[1..], va,
      if Frames(ops[0], va) && ops[0].offset == v.offset then Edited(v, EditOf(ops[0])) else v)
  {
    hide AnyTypes, AnyNames;
    AnyStep(ops, va, v.offset);
  }

  lemma WrittenNothing(va: u64, v: StackVar)
    ensures Written([], va, v) == v
  {
  }

  lemma {:induction false} FirstHas(list: seq<StackVar>, offset: int)
    ensures First(list, offset).Some? ==> First(list, offset).value.offset == offset
  {
    if list != [] {
      FirstHas(list[1..], offset);
    }
  }

  /** A run writes the variables that are there. */
  lemma {:induction false} VarRuns(ops: seq<Op>, x: Project, va: u64, offset: int)
    requires Singles(ops) && va in x.frames && VarAt(x.frames[va], offset).Some?
    ensures var y := ApplyAll(ops, x).1;
      va in y.frames && VarAt(y.frames[va], offset) == Some(Written(ops, va, VarAt(x.frames[va], offset).value))
    decreases |ops|
  {
    hide Apply, VarAt, Written, Upsert, EditOf;
    var v := VarAt(x.frames[va], offset).value;
    assert v.offset == offset by { VarHasOffset(x.frames[va], offset); }
    if ops == [] {
      WrittenNothing(va, v);
    } else {
      var o := ops[0];
      AfterFrames(o, x);
      WrittenStep(ops, va, v);
      if Frames(o, va) {
        FrameThere(x, va);
        VarAtUpsert(x.frames[va], o.offset, EditOf(o), offset);
      }
      VarRuns(ops[1..], After(o, x), va, offset);
    }
  }

  lemma VarHasOffset(frame: Frame, offset: int)
    ensures VarAt(frame, offset).Some? ==> VarAt(frame, offset).value.offset == offset
  {
    FirstHas(ListFor(frame, offset), offset);
  }

  lemma FrameThere(p: Project, va: u64)
    requires va in p.frames
    ensures FrameOf(p, va) == p.frames[va]
  {
  }

  /** After a run every edited variable is there, as it was last written. */
  lemma {:induction false} VarsCarried(ops: seq<Op>, p: Project, va: u64, offset: int)
    requires Singles(ops) && (AnyTypes(ops, va, offset) || AnyNames(ops, va, offset))
    ensures var e := ApplyAll(ops, p).1;
      && va in e.frames && VarAt(e.frames[va], offset).Some?
      && var v := VarAt(e.frames[va], offset).value;
         Written(ops, va, v) == v
    decreases |ops|
  {
    hide Apply, VarAt, Upsert, EditOf, AnyTypes, AnyNames, Written;
    AnyOfNothing(va, offset);
    var o, mid := ops[0], After(ops[0], p);
    AnyStep(ops, va, offset);
    AfterFrames(o, p);
    if Frames(o, va) && o.offset == offset {
      VarAtUpsert(FrameOf(p, va), offset, EditOf(o), offset);
      VarRuns(ops[1..], mid, va, offset);
      var v := VarAt(mid.frames[va], offset).value;
      VarHasOffset(mid.frames[va], offset);
      WrittenTwice(ops, va, v) by { assert Edited(v, EditOf(o)) == v by { EditedTwice(FrameOf(p, va), offset, EditOf(o)); } }
    } else {
      VarsCarried(ops[1..], mid, va, offset);
      var v := VarAt(ApplyAll(ops, p).1.frames[va], offset).value;
      VarHasOffset(ApplyAll(ops, p).1.frames[va], offset);
      WrittenStep(ops, va, v);
    }
  }

  lemma AnyOfNothing(va: u64, offset: int)
    ensures !AnyTypes([], va, offset) && !AnyNames([], va, offset)
  {
  }

  lemma EditedTwice(frame: Frame, offset: int, edit: VarEdit)
    ensures var v := VarAt(Upsert(frame, offset, edit), offset);
      v.Some? && Edited(v.value, edit) == v.value
  {
    hide Upsert, VarAt;
    VarAtUpsert(frame, offset, edit, offset);
  }

  /** A variable that already carries the first edit is written by the rest, and that is all there is to write. */
  lemma WrittenTwice(ops: seq<Op>, va: u64, v: StackVar)
    requires ops != [] && Frames(ops[0], va) && ops[0].offset == v.offset && Edited(v, EditOf(ops[0])) == v
    ensures Written(ops, va, Written(ops[1..], va, v)) == Written(ops[1..], va, v)
  {
    hide AnyTypes, AnyNames;
    AnyStep(ops, va, v.offset);
  }

  /** The variable is as in the other list, the fields apart that the operations write. */
  predicate NearVar(ops: seq<Op>, va: u64, v: StackVar, w: StackVar, addressed: bool) {
    && v.(ty := w.ty, name := w.name) == w
    && (v.ty == w.ty || (addressed && AnyTypes(ops, va, w.offset)))
    && (v.name == w.name || (addressed && AnyNames(ops, va, w.offset)))
  }

  predicate NearList(ops: seq<Op>, va: u64, a: seq<StackVar>, b: seq<StackVar>, positive: bool) {
    |a| == |b| && forall k :: 0 <= k < |b| ==> NearVar(ops, va, a[k], b[k], Addressed(b, k, positive))
  }

  /** Two frames that differ only in fields of variables the operations edit. */
  predicate NearFrame(ops: seq<Op>, va: u64, f: Frame, g: Frame) {
    && f.(locals := g.locals, args := g.args) == g
    && NearList(ops, va, f.locals, g.locals, false)
    && NearList(ops, va, f.args, g.args, true)
  }

  lemma NearFrameMore(ops: seq<Op>, va: u64, f: Frame, g: Frame)
    requires ops != [] && (f == g || NearFrame(ops[1..], va, f, g))
    ensures NearFrame(ops, va, f, g)
  {
    hide AnyTypes, AnyNames, Addressed;
    forall offset
      ensures AnyTypes(ops[1..], va, offset) ==> AnyTypes(ops, va, offset)
      ensures AnyNames(ops[1..], va, offset) ==> AnyNames(ops, va, offset)
    {
      AnyStep(ops, va, offset);
    }
  }

  lemma NearPresent(ops: seq<Op>, va: u64, f: Frame, g: Frame, offset: int)
    requires NearFrame(ops, va, f, g)
    ensures IndexOf(ListFor(f, offset), offset) == IndexOf(ListFor(g, offset), offset)
  {
    hide AnyTypes, AnyNames, Addressed;
    var a, b := ListFor(f, offset), ListFor(g, offset);
    forall k | 0 <= k < |b| ensures a[k].offset == b[k].offset {
      assert NearVar(ops, va, a[k], b[k], Addressed(b, k, offset > 0));
    }
    SameIndex(a, b, offset);
  }

  /** An edit whose field the operations write keeps the frame near. */
  lemma NearEdited(ops: seq<Op>, va: u64, f: Frame, g: Frame, offset: int, edit: VarEdit)
    requires NearFrame(ops, va, f, g) && Present(g, offset)
    requires if edit.SetTy? then AnyTypes(ops, va, offset) else AnyNames(ops, va, offset)
    ensures NearFrame(ops, va, Upsert(f, offset, edit), g)
  {
    hide AnyTypes, AnyNames, Upsert, IndexOf;
    NearPresent(ops, va, f, g, offset);
    UpsertThere(f, offset, edit);
    var list, at := ListFor(g, offset), IndexOf(ListFor(g, offset), offset).value;
    assert list[at].offset == offset && Addressed(list, at, offset > 0);
    var a := ListFor(f, offset);
    assert NearVar(ops, va, a[at], list[at], true);
    assert NearList(ops, va, a[at := Edited(a[at], edit)], list, offset > 0);
  }

  lemma {:induction false} FrameUntouched(ops: seq<Op>, p: Project, va: u64)
    requires Singles(ops) && FitsAll(ops, p) && !(exists o :: o in ops && Frames(o, va))
    ensures Lookup(Undone(ops, p).frames, va) == Lookup(p.frames, va)
    ensures Lookup(ApplyAll(ops, p).1.frames, va) == Lookup(p.frames, va)
    decreases |ops|
  {
    hide Apply, Fits, InverseSimple, Upsert, FrameOf, EditOf, BackEdit;
    if ops != [] {
      var o, mid := ops[0], After(ops[0], p);
      assert o in ops && forall x :: x in ops[1..] ==> x in ops;
      FrameUntouched(ops[1..], mid, va);
      OldFrame(o, p);
      AfterFrames(o, p);
      AfterFrames(InverseSimple(Applied(o, p)), Undone(ops[1..], mid));
    }
  }

  lemma AnyOf(ops: seq<Op>, va: u64, o: Op)
    requires o in ops && Frames(o, va)
    ensures if EditOf(o).SetTy? then AnyTypes(ops, va, o.offset) else AnyNames(ops, va, o.offset)
  {
    assert TypesVar(o, va, o.offset) || NamesVar(o, va, o.offset);
  }

  lemma EditedPresent(ops: seq<Op>, p: Project, va: u64, o: Op)
    requires Singles(ops) && o in ops && Frames(o, va)
    ensures var e := ApplyAll(ops, p).1; va in e.frames && Present(e.frames[va], o.offset)
  {
    hide ApplyAll, AnyTypes, AnyNames, EditOf;
    AnyOf(ops, va, o);
    VarsCarried(ops, p, va, o.offset);
    VarAtIs(ApplyAll(ops, p).1.frames[va], o.offset);
  }

  /** Undoing edits leaves the frame as it came out of the run, the edited fields apart. */
  lemma {:induction false} UndoneFrameNear(ops: seq<Op>, p: Project, va: u64)
    requires Singles(ops) && FitsAll(ops, p) && exists o :: o in ops && Frames(o, va)
    ensures var u, e := Undone(ops, p), ApplyAll(ops, p).1;
      && va in u.frames && va in e.frames && NearFrame(ops, va, u.frames[va], e.frames[va])
    decreases |ops|
  {
    hide Apply, Fits, InverseSimple, Upsert, EditOf, AnyTypes, AnyNames, NearFrame, Present, BackEdit;
    var o, rest, mid := ops[0], ops[1..], After(ops[0], p);
    assert forall z :: z in ops <==> z == o || z in rest;
    AfterFrames(o, p);
    OldFrame(o, p);
    var b, u, e := InverseSimple(Applied(o, p)), Undone(rest, mid), ApplyAll(ops, p).1;
    AfterFrames(b, u);
    if exists x :: x in rest && Frames(x, va) {
      UndoneFrameNear(rest, mid, va);
    } else {
      FrameUntouched(rest, mid, va);
    }
    assert e == ApplyAll(rest, mid).1;
    NearFrameMore(ops, va, u.frames[va], e.frames[va]);
    if Frames(o, va) {
      EditedPresent(ops, p, va, o);
      AnyOf(ops, va, o);
      FrameThere(u, va);
      assert EditOf(b).SetTy? == EditOf(o).SetTy? by { EditKinds(b, o); }
      NearEdited(ops, va, u.frames[va], e.frames[va], b.offset, EditOf(b));
      assert After(b, u).frames[va] == Upsert(u.frames[va], b.offset, EditOf(b));
    } else {
      assert Lookup(After(b, u).frames, va) == Lookup(u.frames, va);
    }
    assert Undone(ops, p) == After(b, u);
  }

  lemma EditKinds(a: Op, b: Op)
    requires (a.SetStackLocalType? && b.SetStackLocalType?) || (a.SetStackLocalName? && b.SetStackLocalName?)
    ensures EditOf(a).SetTy? == EditOf(b).SetTy?
  {
  }

  /** Running some of the operations keeps the frame near. */
  lemma {:induction false} RunStaysNear(part: seq<Op>, ops: seq<Op>, x: Project, va: u64, g: Frame)
    requires Singles(part) && (forall o :: o in part ==> o in ops)
    requires va in x.frames && NearFrame(ops, va, x.frames[va], g)
    requires forall o :: o in ops && Frames(o, va) ==> Present(g, o.offset)
    ensures var y := ApplyAll(part, x).1;
      va in y.frames && NearFrame(ops, va, y.frames[va], g)
    decreases |part|
  {
    hide Apply, Upsert, EditOf, AnyTypes, AnyNames, NearFrame, Present;
    if part != [] {
      var o := part[0];
      assert o in part && forall z :: z in part[1..] ==> z in part;
      AfterFrames(o, x);
      if Frames(o, va) {
        AnyOf(ops, va, o);
        FrameThere(x, va);
        NearEdited(ops, va, x.frames[va], g, o.offset, EditOf(o));
      }
      RunStaysNear(part[1..], ops, After(o, x), va, g);
    }
  }

  lemma NearVarAt(ops: seq<Op>, va: u64, f: Frame, g: Frame, offset: int)
    requires NearFrame(ops, va, f, g) && Present(g, offset)
    ensures VarAt(f, offset).Some? && VarAt(g, offset).Some?
    ensures Written(ops, va, VarAt(f, offset).value) == Written(ops, va, VarAt(g, offset).value)
  {
    hide AnyTypes, AnyNames, IndexOf, First;
    NearPresent(ops, va, f, g, offset);
    VarAtIs(f, offset);
    VarAtIs(g, offset);
    var at := IndexOf(ListFor(g, offset), offset).value;
    assert NearVar(ops, va, ListFor(f, offset)[at], ListFor(g, offset)[at], Addressed(ListFor(g, offset), at, offset > 0));
  }

  /** Near frames that agree in the variables the operations edit are equal. */
  lemma NearEqual(ops: seq<Op>, va: u64, f: Frame, g: Frame)
    requires NearFrame(ops, va, f, g)
    requires forall offset :: AnyTypes(ops, va, offset) || AnyNames(ops, va, offset) ==> VarAt(f, offset) == VarAt(g, offset)
    ensures f == g
  {
    hide NearFrame;
    NearListEqual(ops, va, f, g, false);
    NearListEqual(ops, va, f, g, true);
    assert f.(locals := g.locals, args := g.args) == g by { NearRest(ops, va, f, g); }
  }

  lemma NearRest(ops: seq<Op>, va: u64, f: Frame, g: Frame)
    requires NearFrame(ops, va, f, g)
    ensures f.(locals := g.locals, args := g.args) == g
  {
  }

  lemma NearListEqual(ops: seq<Op>, va: u64, f: Frame, g: Frame, positive: bool)
    requires NearFrame(ops, va, f, g)
    requires forall offset :: AnyTypes(ops, va, offset) || AnyNames(ops, va, offset) ==> VarAt(f, offset) == VarAt(g, offset)
    ensures (if positive then f.args else f.locals) == if positive then g.args else g.locals
  {
    hide AnyTypes, AnyNames, IndexOf, VarAt;
    var a, b := if positive then f.args else f.locals, if positive then g.args else g.locals;
    forall k | 0 <= k < |b| ensures a[k] == b[k] {
      assert NearVar(ops, va, a[k], b[k], Addressed(b, k, positive));
      if Addressed(b, k, positive) {
        var offset := b[k].offset;
        NearPresent(ops, va, f, g, offset);
        VarAtIs(f, offset);
        VarAtIs(g, offset);
      }
    }
  }

  lemma FrameRepeats(ops: seq<Op>, p: Project, va: u64)
    requires Singles(ops) && FitsAll(ops, p)
    ensures Lookup(ApplyAll(ops, Undone(ops, p)).1.frames, va) == Lookup(ApplyAll(ops, p).1.frames, va)
  {
    hide Undone, ApplyAll, FitsAll, AnyTypes, AnyNames, NearFrame, Present, VarAt, Written;
    var u, e := Undone(ops, p), ApplyAll(ops, p).1;
    if exists o :: o in ops && Frames(o, va) {
      UndoneFrameNear(ops, p, va);
      forall o | o in ops && Frames(o, va) ensures Present(e.frames[va], o.offset) {
        EditedPresent(ops, p, va, o);
      }
      RunStaysNear(ops, ops, u, va, e.frames[va]);
      var r := ApplyAll(ops, u).1;
      forall offset | AnyTypes(ops, va, offset) || AnyNames(ops, va, offset)
        ensures VarAt(r.frames[va], offset) == VarAt(e.frames[va], offset)
      {
        VarsCarried(ops, p, va, offset);
        VarAtIs(e.frames[va], offset);
        NearVarAt(ops, va, u.frames[va], e.frames[va], offset);
        VarRuns(ops, u, va, offset);
      }
      NearEqual(ops, va, r.frames[va], e.frames[va]);
    } else {
      FrameUntouched(ops, p, va);
      FrameUntouchedRun(ops, u, va);
    }
  }

  lemma {:induction false} FrameUntouchedRun(ops: seq<Op>, x: Project, va: u64)
    requires Singles(ops) && !(exists o :: o in ops && Frames(o, va))
    ensures Lookup(ApplyAll(ops, x).1.frames, va) == Lookup(x.frames, va)
    decreases |ops|
  {
    hide Apply, Upsert, FrameOf, EditOf;
    if ops != [] {
      assert ops[0] in ops && forall z :: z in ops[1..] ==> z in ops;
      AfterFrames(ops[0], x);
      FrameUntouchedRun(ops[1..], After(ops[0], x), va);
    }
  }

  // ---------------------------------------------------------------- the content

  /** Applying a list of operations again once it was undone gives the content it gave. */
  lemma RepeatSame(ops: seq<Op>, p: Project)
    requires Singles(ops) && FitsAll(ops, p)
    ensures Same(ApplyAll(ops, Undone(ops, p)).1, ApplyAll(ops, p).1)
  {
    hide Undone, ApplyAll, FitsAll, Content, Same, UnstampedAt;
    var u, e := Undone(ops, p), ApplyAll(ops, p).1;
    var r := ApplyAll(ops, u).1;
    FocusBack(ops, p);
    FocusFollows(ops, u, p);
    forall va: u64
      ensures Lookup(r.symbols, va) == Lookup(e.symbols, va) && Lookup(r.globals, va) == Lookup(e.globals, va)
      ensures Lookup(r.signatures, va) == Lookup(e.signatures, va) && Lookup(r.frames, va) == Lookup(e.frames, va)
      ensures UnstampedAt(r, va) == UnstampedAt(e, va)
    {
      SymbolBack(ops, p, va);
      SymbolFollows(ops, u, p, va);
      GlobalBack(ops, p, va);
      GlobalFollows(ops, u, p, va);
      SignatureRepeats(ops, p, va);
      FrameRepeats(ops, p, va);
      if !(exists o :: o in ops && Remembers(o, va)) {
        MemoryUntouched(ops, p, va);
      }
      MemoryFollows(ops, u, p, va);
    }
    forall va: u64, scope ensures Lookup(r.comments, (va, scope)) == Lookup(e.comments, (va, scope)) {
      CommentBack(ops, p, va, scope);
      CommentFollows(ops, u, p, va, scope);
    }
    MapSame(r.symbols, e.symbols);
    MapSame(r.globals, e.globals);
    MapSame(r.signatures, e.signatures);
    MapSame(r.frames, e.frames);
    CommentsSame(r.comments, e.comments);
    CardsSame(r, e);
    SameFields(r, e);
  }

  lemma CardsSame(p: Project, q: Project)
    requires forall va: u64 :: UnstampedAt(p, va) == UnstampedAt(q, va)
    ensures AllUnstamped(p.memory) == AllUnstamped(q.memory)
  {
    forall va: u64 ensures va in p.memory <==> va in q.memory {
      assert UnstampedAt(p, va) == UnstampedAt(q, va);
    }
    forall va: u64 | va in p.memory ensures Unstamped(p.memory[va]) == Unstamped(q.memory[va]) {
      assert UnstampedAt(p, va) == UnstampedAt(q, va);
    }
  }

  // ---------------------------------------------------------------- what is captured

  /** The operation was applied where it found nothing to keep as old. */
  predicate Lacks(o: Op)
    requires !o.Batch?
  {
    match o
    case RenameSymbol(_, _, _, oldName, _) => oldName.None?
    case SetComment(_, _, _, oldText) => oldText.None?
    case SetFocus(_, oldFocus) => oldFocus.None?
    case SetGlobalType(_, _, oldTy) => oldTy.None?
    case SetFunctionSignature(_, _, oldSignature) => oldSignature.None?
    case SetStackLocalType(_, _, _, oldTy) => oldTy.None?
    case SetStackLocalName(_, _, _, oldLocal) => oldLocal.None?
    case SetParamName(_, _, _, oldParam) => oldParam.None?
    case SetFunctionMemory(_, _, oldCard) => oldCard.None?
  }

  /** Something is there for the operation to capture. */
  predicate Finds(o: Op, x: Project)
    requires !o.Batch?
  {
    match o
    case RenameSymbol(va, _, _, _, _) => va in x.symbols
    case SetComment(va, scope, _, _) => (va, scope) in x.comments
    case SetFocus(_, _) => x.focus.Some?
    case SetGlobalType(va, _, _) => va in x.globals
    case SetFunctionSignature(va, _, _) => va in x.signatures
    case SetStackLocalType(va, offset, _, _) => va in x.frames && Present(x.frames[va], offset)
    case _ => true
  }

  lemma CapturesIff(o: Op, x: Project)
    requires !o.Batch? && (Finds(o, x) || o.SetFocus?)
    ensures Captured(o, x) == o <==> !Lacks(o) || (o.SetFocus? && x.focus.None?)
  {
    hide Padded, IndexOf;
    if o.SetStackLocalType? {
      FoundInList(x.frames[o.functionVa], o.offset);
    }
  }

  /** Nothing that is there goes away. */
  lemma FindsStays(o: Op, next: Op, x: Project)
    requires !o.Batch? && !next.Batch? && Finds(o, x)
    ensures Finds(o, After(next, x))
  {
    hide Apply, Upsert, EditOf, WithParam, SignatureOf, Present;
    AfterSymbols(next, x);
    AfterComments(next, x);
    AfterGlobals(next, x);
    AfterFocus(next, x);
    AfterSignatures(next, x);
    AfterFrames(next, x);
    if o.SetStackLocalType? && Frames(next, o.functionVa) {
      var frame := x.frames[o.functionVa];
      FrameThere(x, o.functionVa);
      VarAtIs(frame, o.offset);
      VarAtUpsert(frame, next.offset, EditOf(next), o.offset);
      VarAtIs(Upsert(frame, next.offset, EditOf(next)), o.offset);
    }
  }

  /** Once the operations are undone everything they wrote is still there to be found. */
  lemma UndoneFinds(ops: seq<Op>, p: Project, o: Op)
    requires Singles(ops) && FitsAll(ops, p) && o in ops && !o.SetFocus?
    ensures Finds(o, Undone(ops, p))
  {
    hide Undone, ApplyAll, FitsAll, ParamsBelow, FrameBack, NearFrame, Present;
    match o
    case RenameSymbol(va, _, _, _, _) =>
      SymbolBack(ops, p, va);
      assert Renames(o, va);
    case SetComment(va, scope, _, _) =>
      CommentBack(ops, p, va, scope);
      assert Comments(o, va, scope);
    case SetGlobalType(va, _, _) =>
      GlobalBack(ops, p, va);
      assert TypesGlobal(o, va);
    case SetFunctionSignature(va, _, _) =>
      SignatureIsBack(ops, p, va);
      assert Signs(o, va);
    case SetStackLocalType(va, offset, _, _) =>
      assert Frames(o, va);
      UndoneFrameNear(ops, p, va);
      EditedPresent(ops, p, va, o);
      var f, g := Undone(ops, p).frames[va], ApplyAll(ops, p).1.frames[va];
      assert Present(f, offset) by { NearPresent(ops, va, f, g, offset); PresentMeans(f, g, offset); }
    case _ =>
  }

  lemma PresentMeans(f: Frame, g: Frame, offset: int)
    requires IndexOf(ListFor(f, offset), offset) == IndexOf(ListFor(g, offset), offset)
    ensures Present(f, offset) == Present(g, offset)
  {
  }

  /** The operations that come back as they were recorded. */
  predicate Keeps(ops: seq<Op>, o: Op, entries: set<u64>)
    requires !o.Batch?
  {
    !Lacks(o) || (o.SetFocus? && !exists x :: x in ops && Focuses(x, entries))
  }

  lemma {:induction false} FocusStaysNone(ops: seq<Op>, p: Project, o: Op)
    requires Singles(ops) && ApplyAll(ops, p).0 == ops && !(exists x :: x in ops && Focuses(x, p.functionEntries))
    requires o in ops && o.SetFocus? && Lacks(o)
    ensures p.focus.None?
    decreases |ops|
  {
    hide Effect, Apply;
    var first, mid := ops[0], After(ops[0], p);
    ApplyNext(ops, p);
    assert first in ops && forall z :: z in ops[1..] ==> z in ops;
    AfterFocus(first, p);
    if first == o {
      AppliedIs(first, p);
    } else {
      assert ApplyAll(ops[1..], mid).0 == ops[1..];
      FocusStaysNone(ops[1..], mid, o);
    }
  }

  lemma AppliedIs(o: Op, p: Project)
    requires !o.Batch?
    ensures Applied(o, p) == Captured(o, p)
  {
  }

  lemma ConsSame<T>(a: T, s: seq<T>, b: T, t: seq<T>)
    ensures [b] + t == [a] + s <==> b == a && t == s
  {
    if [b] + t == [a] + s {
      assert ([b] + t)[0] == ([a] + s)[0] && ([b] + t)[1..] == ([a] + s)[1..];
    }
  }

  /** A run captures nothing new exactly when every operation in it keeps its record. */
  lemma {:induction false} RunKeepsIff(part: seq<Op>, ops: seq<Op>, x: Project)
    requires Singles(part) && Singles(ops) && forall o :: o in part ==> o in ops
    requires forall o :: o in part && !o.SetFocus? ==> Finds(o, x)
    requires (exists o :: o in ops && Focuses(o, x.functionEntries)) ==> x.focus.Some?
    requires (exists o :: o in ops && Focuses(o, x.functionEntries)) || x.focus.None?
      || !exists o :: o in part && o.SetFocus? && Lacks(o)
    ensures ApplyAll(part, x).0 == part <==> forall o :: o in part ==> Keeps(ops, o, x.functionEntries)
    decreases |part|
  {
    hide Apply, Finds, Lacks, Captured;
    if part != [] {
      var o, rest, mid := part[0], part[1..], After(part[0], x);
      assert forall z :: z in part <==> z == o || z in rest;
      AppliedIs(o, x);
      CapturesIff(o, x);
      AfterFocus(o, x);
      forall z | z in rest && !z.SetFocus? ensures Finds(z, mid) {
        FindsStays(z, o, x);
      }
      assert Focuses(o, x.functionEntries) ==> o in ops;
      RunKeepsIff(rest, ops, mid);
      ApplyNext(part, x);
      ConsSame(o, rest, Applied(o, x), ApplyAll(rest, mid).0);
      assert part == [o] + rest;
      assert Applied(o, x) == o <==> Keeps(ops, o, x.functionEntries);
    }
  }

  /** Applied again once undone, recorded operations are recorded the same exactly when each keeps its record. */
  lemma RecapturedIff(ops: seq<Op>, p: Project)
    requires Singles(ops) && FitsAll(ops, p) && ApplyAll(ops, p).0 == ops
    ensures ApplyAll(ops, Undone(ops, p)).0 == ops <==> forall o :: o in ops ==> Keeps(ops, o, p.functionEntries)
  {
    hide Undone, ApplyAll, FitsAll, Finds, Lacks;
    var u := Undone(ops, p);
    forall o | o in ops && !o.SetFocus? ensures Finds(o, u) {
      UndoneFinds(ops, p, o);
    }
    FocusBack(ops, p);
    if o :| o in ops && o.SetFocus? && Lacks(o) && !exists x :: x in ops && Focuses(x, p.functionEntries) {
      FocusStaysNone(ops, p, o);
    }
    RunKeepsIff(ops, ops, u);
  }
}
