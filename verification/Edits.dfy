/** What a single edit leaves behind, field by field, and the order it keeps. */
module Edits {
  import opened Decimals
  import opened Ops
  import opened Prelude
  import opened Sorting
  import opened Undo
  import opened Writer

  // ---------------------------------------------------------------- variables

  /** The variable with another type, or another name; an empty name means none. */
  function VarWith(v: StackVar, ty: Option<DataType>, name: string): StackVar {
    if ty.Some? then v.(ty := ty.value) else v.(name := if name == "" then None else Some(name))
  }

  /** No offset comes after a greater one. */
  predicate InOrder(list: seq<StackVar>) {
    forall i, j :: 0 <= i < j < |list| ==> list[i].offset <= list[j].offset
  }

  /** The first variable at the offset was edited, or, where there was none, a new one was and all are in order. */
  ghost predicate ListEdited(was: seq<StackVar>, now: seq<StackVar>, offset: int, ty: Option<DataType>, name: string) {
    if exists v :: v in was && v.offset == offset then
      exists i :: 0 <= i < |was| && was[i].offset == offset && (forall k :: 0 <= k < i ==> was[k].offset != offset)
        && now == was[i := VarWith(was[i], ty, name)]
    else
      InOrder(now) && multiset(now) == multiset(was) + multiset{VarWith(StackVar(None, Unknown(0), offset, 0), ty, name)}
  }

  /** Above the frame pointer lie arguments, and locals elsewhere. */
  ghost predicate FrameEdited(was: Frame, now: Frame, offset: int, ty: Option<DataType>, name: string) {
    && now.(locals := was.locals, args := was.args) == was
    && if offset > 0 then now.locals == was.locals && ListEdited(was.args, now.args, offset, ty, name)
       else now.args == was.args && ListEdited(was.locals, now.locals, offset, ty, name)
  }

  /** The frame of a function, empty as long as nothing is known of it. */
  function FrameBefore(p: Project, va: u64): Frame {
    if va in p.frames then p.frames[va] else Frame(0, 0, 0, [], [])
  }

  lemma SortedInOrder(list: seq<StackVar>)
    requires SortedBy(OffsetLe, list)
    ensures InOrder(list)
  {
  }

  lemma ListEdits(list: seq<StackVar>, offset: int, edit: VarEdit, ty: Option<DataType>, name: string)
    requires edit == if ty.Some? then SetTy(ty.value) else NameEdit(name)
    ensures
      var at, added := IndexOf(list, offset), Edited(StackVar(None, Unknown(0), offset, 0), edit);
      var now := if at.Some? then list[at.value := Edited(list[at.value], edit)] else Sort(OffsetLe, list + [added]);
      ListEdited(list, now, offset, ty, name)
  {
    hide IndexOf, Sort;
    var at, added := IndexOf(list, offset), Edited(StackVar(None, Unknown(0), offset, 0), edit);
    if at.Some? {
      assert list[at.value] in list;
    } else {
      SortSorts(OffsetLe, list + [added]);
      SortedInOrder(Sort(OffsetLe, list + [added]));
      assert multiset(list + [added]) == multiset(list) + multiset{added};
    }
  }

  lemma UpsertEdits(frame: Frame, offset: int, ty: Option<DataType>, name: string)
    ensures FrameEdited(frame, Upsert(frame, offset, if ty.Some? then SetTy(ty.value) else NameEdit(name)), offset, ty, name)
  {
    var edit := if ty.Some? then SetTy(ty.value) else NameEdit(name);
    ListEdits(ListFor(frame, offset), offset, edit, ty, name);
    hide IndexOf, Sort, ListEdited, Edited;
  }

  /** Typing a variable edits its frame, and nothing else of the project. */
  lemma TypeEdits(p: Project, va: u64, offset: int, ty: DataType, was: Option<DataType>)
    ensures var q := After(SetStackLocalType(va, offset, ty, was), p);
      && va in q.frames && q == p.(frames := p.frames[va := q.frames[va]])
      && FrameEdited(FrameBefore(p, va), q.frames[va], offset, Some(ty), "")
  {
    hide Upsert, FrameEdited, FindVar;
    UpsertEdits(FrameBefore(p, va), offset, Some(ty), "");
  }

  /** Naming one does. */
  lemma NameEdits(p: Project, va: u64, offset: int, name: string, was: Option<Option<string>>)
    ensures var q := After(SetStackLocalName(va, offset, name, was), p);
      && va in q.frames && q == p.(frames := p.frames[va := q.frames[va]])
      && FrameEdited(FrameBefore(p, va), q.frames[va], offset, None, name)
  {
    hide Upsert, FrameEdited, FindVar;
    UpsertEdits(FrameBefore(p, va), offset, None, name);
  }

  // ---------------------------------------------------------------- parameters

  /**
   * The signature with one parameter named. Where there are fewer, the ones in between are placeholders
   * called after their position; where there is no signature it has the function's name.
   */
  ghost predicate SignatureEdited(p: Project, va: u64, now: Signature, index: nat, name: string) {
    var was := if va in p.signatures then Some(p.signatures[va]) else None;
    var params := if was.Some? then was.value.params else [];
    && now.name == (if was.Some? then was.value.name else if va in p.symbols then p.symbols[va].name else "sub")
    && now.ret == (if was.Some? then was.value.ret else Unknown(0))
    && now.callingConv == (if was.Some? then was.value.callingConv else None)
    && |now.params| == (if index < |params| then |params| else index + 1)
    && forall k :: 0 <= k < |now.params| ==>
         && now.params[k].1 == (if k < |params| then params[k].1 else Unknown(0))
         && now.params[k].0 ==
              if k == index then name else if k < |params| then params[k].0 else "arg" + Decimal(k)
  }

  lemma {:induction false} PaddedIs(params: seq<(string, DataType)>, index: nat)
    ensures var padded := Padded(params, index);
      && |padded| == (if index < |params| then |params| else index + 1)
      && forall k :: 0 <= k < |padded| ==>
           padded[k] == if k < |params| then params[k] else ("arg" + Decimal(k), Unknown(0))
    decreases index + 1 - |params|
  {
    hide Decimal;
    if |params| <= index {
      PaddedIs(params + [("arg" + Decimal(|params|), Unknown(0))], index);
    }
  }

  lemma ParamEdits(p: Project, va: u64, index: nat, name: string, was: Option<string>)
    ensures var q := After(SetParamName(va, index, name, was), p);
      && va in q.signatures && q == p.(signatures := p.signatures[va := q.signatures[va]])
      && SignatureEdited(p, va, q.signatures[va], index, name)
  {
    hide Padded, Decimal;
    PaddedIs(SignatureOf(p, va).params, index);
  }

  // ---------------------------------------------------------------- cards and names

  /** A card is stored under its own address with a new stamp; the clearing one takes what is there away. */
  lemma CardEdits(p: Project, va: u64, card: Card, was: Option<Option<Card>>)
    ensures After(SetFunctionMemory(va, card, was), p) ==
      if card.tags == ["__clear__"] && card.purpose == None then p.(memory := p.memory - {va})
      else p.(memory := p.memory[va := card.(va := va, updatedSeq := p.opSeq + 1)])
  {
  }

  /** A renamed symbol leaves its old name in the alias log, if it had one. */
  lemma RenameEdits(p: Project, va: u64, name: string, kind: SymbolKind)
    ensures After(RenameSymbol(va, name, kind, None, None), p) ==
      p.(symbols := p.symbols[va := Symbol(name, kind)],
         aliases := if va in p.symbols then p.aliases + [AliasEvent(va, p.symbols[va].name, name, "user", p.opSeq + 1)]
                    else p.aliases)
  {
  }

  // ---------------------------------------------------------------- frames in order

  /** Every list has each offset at most once, in ascending order. */
  predicate Tidy(list: seq<StackVar>) {
    forall i, j :: 0 <= i < j < |list| ==> list[i].offset < list[j].offset
  }

  predicate FramesTidy(p: Project) {
    forall va :: va in p.frames ==> Tidy(p.frames[va].locals) && Tidy(p.frames[va].args)
  }

  lemma ListTidy(was: seq<StackVar>, now: seq<StackVar>, offset: int, ty: Option<DataType>, name: string)
    requires Tidy(was) && ListEdited(was, now, offset, ty, name)
    ensures Tidy(now)
  {
    if !exists v :: v in was && v.offset == offset {
      var added := VarWith(StackVar(None, Unknown(0), offset, 0), ty, name);
      forall i, j | 0 <= i < j < |now| ensures now[i].offset < now[j].offset {
        OffsetsApart(was, now, added, i, j);
      }
    }
  }

  /** Two variables of a tidy list and one at another offset are not at one offset. */
  lemma OffsetsApart(was: seq<StackVar>, now: seq<StackVar>, added: StackVar, i: nat, j: nat)
    requires Tidy(was) && multiset(now) == multiset(was) + multiset{added}
    requires forall v :: v in was ==> v.offset != added.offset
    requires i < j < |now|
    ensures now[i].offset != now[j].offset
  {
    var a, b := now[i], now[j];
    assert a in multiset(now) && b in multiset(now);
    assert a == added || a in was;
    assert b == added || b in was;
    if a == b {
      TwiceIn(now, i, j);
      if a in was {
        var k :| 0 <= k < |was| && was[k] == a;
        OnceIn(was, k);
      }
    } else if a in was && b in was {
      var k, l :| 0 <= k < |was| && was[k] == a && 0 <= l < |was| && was[l] == b;
      assert k < l || l < k;
    }
  }

  lemma TwiceIn(list: seq<StackVar>, i: nat, j: nat)
    requires i < j < |list| && list[i] == list[j]
    ensures multiset(list)[list[i]] >= 2
  {
    assert list == list[..j] + [list[j]] + list[j + 1..];
    assert list[..j][i] == list[i];
  }

  lemma OnceIn(list: seq<StackVar>, k: nat)
    requires Tidy(list) && k < |list|
    ensures multiset(list)[list[k]] == 1
  {
    assert list == list[..k] + [list[k]] + list[k + 1..];
    assert list[k] !in list[..k] && list[k] !in list[k + 1..];
  }

  lemma FrameTidy(was: Frame, now: Frame, offset: int, ty: Option<DataType>, name: string)
    requires Tidy(was.locals) && Tidy(was.args) && FrameEdited(was, now, offset, ty, name)
    ensures Tidy(now.locals) && Tidy(now.args)
  {
    hide Tidy, ListEdited;
    if offset > 0 {
      ListTidy(was.args, now.args, offset, ty, name);
    } else {
      ListTidy(was.locals, now.locals, offset, ty, name);
    }
  }

  /** No operation, batch or not, brings the variables of a frame out of order or two of them to one offset. */
  lemma {:induction false} AppliedTidy(op: Op, p: Project)
    requires FramesTidy(p)
    ensures FramesTidy(After(op, p))
    decreases op
  {
    hide Captured, Effect, FrameEdited, Tidy;
    match op
    case Batch(ops) => AllAppliedTidy(ops, p);
    case SetStackLocalType(va, offset, ty, was) =>
      TypeEdits(p, va, offset, ty, was);
      FrameTidyAt(p, After(op, p), va, offset, Some(ty), "");
    case SetStackLocalName(va, offset, name, was) =>
      NameEdits(p, va, offset, name, was);
      FrameTidyAt(p, After(op, p), va, offset, None, name);
    case _ => FramesStay(op, p);
  }

  lemma FrameTidyAt(p: Project, q: Project, va: u64, offset: int, ty: Option<DataType>, name: string)
    requires FramesTidy(p) && va in q.frames && q == p.(frames := p.frames[va := q.frames[va]])
    requires FrameEdited(FrameBefore(p, va), q.frames[va], offset, ty, name)
    ensures FramesTidy(q)
  {
    hide FrameEdited;
    FrameTidy(FrameBefore(p, va), q.frames[va], offset, ty, name);
  }

  predicate OfFrames(op: Op) { op.SetStackLocalType? || op.SetStackLocalName? }

  lemma EffectKeepsFrames(op: Op, p: Project)
    requires !op.Batch? && !OfFrames(op)
    ensures Effect(op, p).frames == p.frames
  {
    hide Padded, WithParam, SignatureOf, Upsert, FrameOf, NameEdit, Card.IsClear;
  }

  lemma CapturedKind(op: Op, p: Project)
    requires !op.Batch?
    ensures !Captured(op, p).Batch? && (OfFrames(Captured(op, p)) <==> OfFrames(op))
  {
    hide FindVar;
  }

  lemma FramesStay(op: Op, p: Project)
    requires !op.Batch? && !OfFrames(op)
    ensures After(op, p).frames == p.frames
  {
    hide Captured, Effect, OfFrames;
    CapturedKind(op, p);
    EffectKeepsFrames(Captured(op, p), p);
  }

  lemma {:induction false} AllAppliedTidy(ops: seq<Op>, p: Project)
    requires FramesTidy(p)
    ensures FramesTidy(ApplyAll(ops, p).1)
    decreases ops
  {
    hide Captured, Effect, FramesTidy;
    if ops != [] {
      AppliedTidy(ops[0], p);
      AllAppliedTidy(ops[1..], After(ops[0], p));
    }
  }

  /** So no request does. */
  lemma HandledTidy(s: State, request: Request, appended: bool)
    requires FramesTidy(s.project)
    ensures FramesTidy(Handled(s, request, appended).0.project)
  {
    hide Apply, Handled, LoggedOp;
    HandledLogs(s, request, appended);
    var op := LoggedOp(s, request);
    if op.Some? {
      AppliedTidy(op.value, Moved(s.project));
    }
  }

  // ---------------------------------------------------------------- undoing where there was nothing

  /** What an undo leaves of an operation that found nothing: an entry that says nothing. */
  lemma UndoneFromNothing(op: Op, p: Project)
    requires !op.Batch? && Fresh(op)
    ensures Inverse(Applied(op, p)).Some?
    ensures
      var q := After(Inverse(Applied(op, p)).value, After(op, p));
      match op
      case RenameSymbol(va, _, kind, _, _) => va !in p.symbols ==> va in q.symbols && q.symbols[va] == Symbol("", kind)
      case SetComment(va, scope, _, _) =>
        (va, scope) !in p.comments ==> (va, scope) in q.comments && q.comments[(va, scope)] == ""
      case SetFocus(va, _) => p.focus.None? ==> q.focus == After(op, p).focus
      case SetGlobalType(va, _, _) => va !in p.globals ==> va in q.globals && q.globals[va] == Unknown(0)
      case SetFunctionSignature(va, _, _) =>
        va !in p.signatures ==> va in q.signatures && q.signatures[va] == Signature("", [], Void, None)
      case SetFunctionMemory(va, _, _) => va !in p.memory ==> va !in q.memory
      case _ => true
  {
    hide Upsert, Padded, WithParam, FindVar;
  }
}
