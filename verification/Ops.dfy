/** Reversible project mutations: how an operation captures, applies and inverts. */
module Ops {
  import opened Decimals
  import opened Prelude
  import opened Sorting

  datatype SymbolKind = Import | Export | FunctionSymbol | Data | User

  datatype Symbol = Symbol(name: string, kind: SymbolKind)

  datatype CommentScope = AddressScope | FunctionScope

  datatype DataType =
    | Void
    | Bool
    | Int(bits: nat)
    | Uint(bits: nat)
    | Float
    | Double
    | Ptr(element: DataType)
    | Array(element: DataType, count: nat)
    | FuncPtr(params: seq<DataType>, result: DataType)
    | Named(name: string)
    | Unknown(width: nat)

  datatype Signature = Signature(
    name: string, params: seq<(string, DataType)>, ret: DataType, callingConv: Option<string>)

  datatype StackVar = StackVar(name: Option<string>, ty: DataType, offset: int, size: nat)

  datatype Frame = Frame(
    localSize: nat, argSize: nat, returnAddrOffset: int, locals: seq<StackVar>, args: seq<StackVar>)

  const EMPTY_FRAME := Frame(0, 0, 0, [], [])

  datatype Card = Card(
    va: u64,
    purpose: Option<string>,
    tags: seq<string>,
    keyApis: seq<string>,
    keyStrings: seq<string>,
    purity: Option<string>,
    confidence: nat,
    updatedSeq: nat)
  {
    /** The card that means "no card" to `apply`. */
    predicate IsClear() { tags == ["__clear__"] && purpose.None? }
  }

  datatype AliasEvent = AliasEvent(va: u64, oldName: string, newName: string, source: string, seqNo: nat)

  /** The mutable part of a project, and the function entries its analysis knows. */
  datatype Project = Project(
    functionEntries: set<u64>,
    symbols: map<u64, Symbol>,
    comments: map<(u64, CommentScope), string>,
    focus: Option<u64>,
    globals: map<u64, DataType>,
    signatures: map<u64, Signature>,
    frames: map<u64, Frame>,
    memory: map<u64, Card>,
    aliases: seq<AliasEvent>,
    opSeq: nat)

  datatype Op =
    | RenameSymbol(va: u64, name: string, kind: SymbolKind, oldName: Option<string>, oldKind: Option<SymbolKind>)
    | SetComment(va: u64, scope: CommentScope, text: string, oldText: Option<string>)
    | SetFocus(va: u64, oldFocus: Option<u64>)
    | SetGlobalType(va: u64, ty: DataType, oldTy: Option<DataType>)
    | SetFunctionSignature(va: u64, signature: Signature, oldSignature: Option<Signature>)
    | SetStackLocalType(functionVa: u64, offset: int, ty: DataType, oldTy: Option<DataType>)
    | SetStackLocalName(functionVa: u64, offset: int, name: string, oldLocal: Option<Option<string>>)
    | SetParamName(functionVa: u64, index: nat, name: string, oldParam: Option<string>)
    | SetFunctionMemory(va: u64, card: Card, oldCard: Option<Option<Card>>)
    | Batch(ops: seq<Op>)

  function Or<T>(a: Option<T>, b: T): T {
    if a.Some? then a.value else b
  }

  function Lookup<K, V>(m: map<K, V>, k: K): Option<V> {
    if k in m then Some(m[k]) else None
  }

  // ---------------------------------------------------------------- stack variables

  predicate OffsetLe(a: StackVar, b: StackVar) { a.offset <= b.offset }

  /** First variable at `offset`. */
  function IndexOf(list: seq<StackVar>, offset: int): (r: Option<nat>)
    ensures r.Some? ==> r.value < |list| && list[r.value].offset == offset
    ensures r.Some? ==> forall k :: 0 <= k < r.value ==> list[k].offset != offset
    ensures r.None? ==> forall v :: v in list ==> v.offset != offset
  {
    if list == [] then None
    else if list[0].offset == offset then Some(0)
    else
      var rest := IndexOf(list[1..], offset);
      if rest.None? then None else Some(rest.value + 1)
  }

  /** The variable an operation reads: locals first, then arguments. */
  function FindVar(frame: Frame, offset: int): Option<StackVar> {
    var local, arg := IndexOf(frame.locals, offset), IndexOf(frame.args, offset);
    if local.Some? then Some(frame.locals[local.value])
    else if arg.Some? then Some(frame.args[arg.value])
    else None
  }

  /** The list an operation writes: arguments above the frame pointer, locals otherwise. */
  function ListFor(frame: Frame, offset: int): seq<StackVar> {
    if offset > 0 then frame.args else frame.locals
  }

  function WithList(frame: Frame, offset: int, list: seq<StackVar>): Frame {
    if offset > 0 then frame.(args := list) else frame.(locals := list)
  }

  datatype VarEdit = SetTy(ty: DataType) | SetName(name: Option<string>)

  function Edited(v: StackVar, edit: VarEdit): StackVar {
    match edit
    case SetTy(ty) => v.(ty := ty)
    case SetName(name) => v.(name := name)
  }

  /** `upsert_stack_var`. */
  function Upsert(frame: Frame, offset: int, edit: VarEdit): Frame {
    var list := ListFor(frame, offset);
    var at := IndexOf(list, offset);
    WithList(frame, offset,
      if at.Some? then list[at.value := Edited(list[at.value], edit)]
      else Sort(OffsetLe, list + [Edited(StackVar(None, Unknown(0), offset, 0), edit)]))
  }

  function FrameOf(p: Project, va: u64): Frame {
    if va in p.frames then p.frames[va] else EMPTY_FRAME
  }

  function NameEdit(name: string): VarEdit {
    SetName(if name == "" then None else Some(name))
  }

  // ---------------------------------------------------------------- parameters

  /** Parameters padded with placeholders until `index` exists. */
  function Padded(params: seq<(string, DataType)>, index: nat): (r: seq<(string, DataType)>)
    ensures |r| > index && params <= r
    ensures |params| > index ==> r == params
    decreases index + 1 - |params|
  {
    if |params| > index then params
    else Padded(params + [("arg" + Decimal(|params|), Unknown(0))], index)
  }

  function SignatureOf(p: Project, va: u64): Signature {
    if va in p.signatures then p.signatures[va]
    else Signature(if va in p.symbols then p.symbols[va].name else "sub", [], Unknown(0), None)
  }

  function WithParam(s: Signature, index: nat, name: string): Signature {
    var params := Padded(s.params, index);
    s.(params := params[index := (name, params[index].1)])
  }

  // ---------------------------------------------------------------- apply

  /** Captures the old values that are still missing. */
  function Captured(op: Op, p: Project): Op
    requires !op.Batch?
  {
    match op
    case RenameSymbol(va, name, kind, oldName, oldKind) =>
      if oldName.Some? then op
      else
        var was := Lookup(p.symbols, va);
        RenameSymbol(va, name, kind,
          if was.Some? then Some(was.value.name) else None, if was.Some? then Some(was.value.kind) else None)
    case SetComment(va, scope, text, oldText) =>
      if oldText.Some? then op else SetComment(va, scope, text, Lookup(p.comments, (va, scope)))
    case SetFocus(va, oldFocus) => if oldFocus.Some? then op else SetFocus(va, p.focus)
    case SetGlobalType(va, ty, oldTy) => if oldTy.Some? then op else SetGlobalType(va, ty, Lookup(p.globals, va))
    case SetFunctionSignature(va, signature, oldSignature) =>
      if oldSignature.Some? then op else SetFunctionSignature(va, signature, Lookup(p.signatures, va))
    case SetStackLocalType(va, offset, ty, oldTy) =>
      if oldTy.Some? then op
      else
        var v := FindVar(FrameOf(p, va), offset);
        SetStackLocalType(va, offset, ty, if v.Some? then Some(v.value.ty) else None)
    case SetStackLocalName(va, offset, name, oldLocal) =>
      if oldLocal.Some? then op
      else
        var v := FindVar(FrameOf(p, va), offset);
        SetStackLocalName(va, offset, name, Some(if v.Some? then v.value.name else None))
    case SetParamName(va, index, name, oldParam) =>
      if oldParam.Some? then op
      else SetParamName(va, index, name, Some(Padded(SignatureOf(p, va).params, index)[index].0))
    case SetFunctionMemory(va, card, oldCard) =>
      if oldCard.Some? then op else SetFunctionMemory(va, card, Some(Lookup(p.memory, va)))
  }

  /** The effect of an operation whose old values are captured. */
  function Effect(op: Op, p: Project): Project
    requires !op.Batch?
  {
    match op
    case RenameSymbol(va, name, kind, oldName, _) =>
      p.(symbols := p.symbols[va := Symbol(name, kind)],
         aliases := if oldName.None? then p.aliases
                    else p.aliases + [AliasEvent(va, oldName.value, name, "user", p.opSeq + 1)])
    case SetComment(va, scope, text, _) => p.(comments := p.comments[(va, scope) := text])
    case SetFocus(va, _) => if va in p.functionEntries then p.(focus := Some(va)) else p
    case SetGlobalType(va, ty, _) => p.(globals := p.globals[va := ty])
    case SetFunctionSignature(va, signature, _) => p.(signatures := p.signatures[va := signature])
    case SetStackLocalType(va, offset, ty, _) =>
      p.(frames := p.frames[va := Upsert(FrameOf(p, va), offset, SetTy(ty))])
    case SetStackLocalName(va, offset, name, _) =>
      p.(frames := p.frames[va := Upsert(FrameOf(p, va), offset, NameEdit(name))])
    case SetParamName(va, index, name, _) =>
      p.(signatures := p.signatures[va := WithParam(SignatureOf(p, va), index, name)])
    case SetFunctionMemory(va, card, _) =>
      if card.IsClear() then p.(memory := p.memory - {va})
      else p.(memory := p.memory[va := card.(va := va, updatedSeq := p.opSeq + 1)])
  }

  /** Which parts of a project an operation can touch besides its keyed map. */
  lemma EffectParts(op: Op, p: Project)
    requires !op.Batch?
    ensures Effect(op, p).memory == if op.SetFunctionMemory? then MemoryAfter(p.memory, op.va, op.card, p.opSeq + 1)
                                    else p.memory
    ensures Effect(op, p).aliases == p.aliases || (op.RenameSymbol? && op.oldName.Some? &&
      Effect(op, p).aliases == p.aliases + [AliasEvent(op.va, op.oldName.value, op.name, "user", p.opSeq + 1)])
    ensures Effect(op, p).opSeq == p.opSeq && Effect(op, p).functionEntries == p.functionEntries
  {
    hide Upsert, WithParam, Card.IsClear, FrameOf, SignatureOf, NameEdit;
    match op
    case SetFunctionMemory(_, card, _) =>
    case _ =>
  }

  /** Memory after one card operation. */
  function MemoryAfter(memory: map<u64, Card>, va: u64, card: Card, stamp: nat): map<u64, Card> {
    if card.IsClear() then memory - {va} else memory[va := card.(va := va, updatedSeq := stamp)]
  }

  /** `apply_to`: the operation with its old values captured, and the project after it. */
  function Apply(op: Op, p: Project): (Op, Project) {
    match op
    case Batch(ops) =>
      var (applied, after) := ApplyAll(ops, p);
      (Batch(applied), after)
    case _ =>
      var applied := Captured(op, p);
      (applied, Effect(applied, p))
  }

  /** The children of a batch, first to last. */
  function ApplyAll(ops: seq<Op>, p: Project): (seq<Op>, Project) {
    if ops == [] then ([], p)
    else
      var (first, mid) := Apply(ops[0], p);
      var (rest, after) := ApplyAll(ops[1..], mid);
      ([first] + rest, after)
  }

  function After(op: Op, p: Project): Project { Apply(op, p).1 }

  function Applied(op: Op, p: Project): Op { Apply(op, p).0 }

  // ---------------------------------------------------------------- inverse

  function ClearCard(va: u64): Card {
    Card(va, None, ["__clear__"], [], [], None, 0, 0)
  }

  function InverseSimple(op: Op): Op
    requires !op.Batch?
  {
    match op
    case RenameSymbol(va, name, kind, oldName, oldKind) =>
      RenameSymbol(va, Or(oldName, ""), Or(oldKind, kind), Some(name), Some(kind))
    case SetComment(va, scope, text, oldText) => SetComment(va, scope, Or(oldText, ""), Some(text))
    case SetFocus(va, oldFocus) => SetFocus(Or(oldFocus, va), Some(va))
    case SetGlobalType(va, ty, oldTy) => SetGlobalType(va, Or(oldTy, Unknown(0)), Some(ty))
    case SetFunctionSignature(va, signature, oldSignature) =>
      SetFunctionSignature(va, Or(oldSignature, Signature("", [], Void, None)), Some(signature))
    case SetStackLocalType(va, offset, ty, oldTy) => SetStackLocalType(va, offset, Or(oldTy, Unknown(0)), Some(ty))
    case SetStackLocalName(va, offset, name, oldLocal) =>
      SetStackLocalName(va, offset, Or(Or(oldLocal, None), ""), Some(Some(name)))
    case SetParamName(va, index, name, oldParam) => SetParamName(va, index, Or(oldParam, ""), Some(name))
    case SetFunctionMemory(va, card, oldCard) =>
      SetFunctionMemory(va, Or(Or(oldCard, None), ClearCard(va)), Some(Some(card)))
  }

  /** `inverse`: the compensating operation; only a batch with nothing in it has none. */
  function Inverse(op: Op): Option<Op> {
    match op
    case Batch(ops) =>
      var inverses := InverseAll(ops);
      if inverses == [] then None else Some(Batch(inverses))
    case _ => Some(InverseSimple(op))
  }

  /** Inverses of the children, last to first, without those that have none. */
  function InverseAll(ops: seq<Op>): seq<Op> {
    if ops == [] then []
    else
      var first := Inverse(ops[0]);
      InverseAll(ops[1..]) + (if first.Some? then [first.value] else [])
  }
}
