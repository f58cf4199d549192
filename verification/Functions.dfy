/** Basic blocks, edges and the pure rules by which discovery decodes one block. */
module Functions {
  import opened Prelude
  import opened AddressSpaces
  import opened CodeIndexes

  datatype EdgeKind = Fallthrough | Unconditional | Conditional | Call | TailCall | Indirect | Return

  datatype Edge = Edge(target: u64, kind: EdgeKind)
  {
    /** Edges that stay inside the function: their targets are claimed as its blocks. */
    predicate IsFlow() {
      kind.Fallthrough? || kind.Unconditional? || kind.Conditional?
    }
  }

  datatype BasicBlock = BasicBlock(
    entryVa: u64,
    exitVa: u64,
    instrCount: nat,
    successors: seq<Edge>,
    predecessors: seq<Edge>)

  datatype Function = Function(entryVa: u64, blocks: seq<BasicBlock>)

  /** What discovery reads and never changes. */
  datatype Code = Code(index: CodeIndex, space: AddressSpace, hardEntries: set<u64>)
  {
    ghost predicate Valid() {
      index.WellFormed()
    }

    predicate IsTarget(va: u64) {
      va != 0 && space.IsExecutableVa(va)
    }

    predicate IsForeignHard(va: u64, f: u64) {
      va in hardEntries && va != f
    }

    /** Every address discovery can ever queue: branch targets and fallthroughs. */
    ghost function Reachable(): set<u64> {
      (set d | d in index.instrs :: d.target) + (set d | d in index.instrs :: d.NextIp())
    }
  }

  // ---------------------------------------------------------------- decoding one block

  /** The walk inside one block stops before decoding `va`. */
  predicate Stops(code: Code, owners: map<u64, u64>, known: set<u64>, f: u64, start: u64, va: u64)
    requires code.Valid()
  {
    || code.index.AtVa(va).None?
    || (va != start && code.IsForeignHard(va, f))
    || (va in owners && owners[va] != f)
    || (va != start && va in known)
  }

  /** The instructions a block walk collects from `va` on. */
  function StraightRun(code: Code, owners: map<u64, u64>, known: set<u64>, f: u64, start: u64, va: u64): (r: seq<Instr>)
    requires code.Valid()
    decreases U64_LIMIT - va
  {
    if Stops(code, owners, known, f, start, va) then []
    else
      var dec := code.index.AtVa(va).value;
      if dec.flow.Next? then [dec] + StraightRun(code, owners, known, f, start, dec.NextIp()) else [dec]
  }

  /** The edge left behind when the walk stops before `va`. */
  function StopEdges(code: Code, owners: map<u64, u64>, known: set<u64>, f: u64, start: u64, va: u64): seq<Edge>
    requires code.Valid()
  {
    if code.index.AtVa(va).None? then []
    else if va != start && code.IsForeignHard(va, f) then [Edge(va, TailCall)]
    else if va in owners && owners[va] != f then []
    else if va != start && va in known then [Edge(va, Fallthrough)]
    else []
  }

  /** The edge to the next instruction after a conditional branch or a direct call. */
  function FallEdges(code: Code, f: u64, next: u64): seq<Edge> {
    if !code.IsTarget(next) then []
    else [Edge(next, if code.IsForeignHard(next, f) then TailCall else Fallthrough)]
  }

  /** The edges of a block that ends in the control transfer `dec`. */
  function TerminatorEdges(code: Code, entries: set<u64>, f: u64, dec: Instr): seq<Edge>
    requires !dec.flow.Next?
  {
    match dec.flow
    case UnconditionalBranch =>
      if !code.IsTarget(dec.target) then []
      else if (dec.target in entries && dec.target != f) || dec.target < f then [Edge(dec.target, TailCall)]
      else [Edge(dec.target, Unconditional)]
    case ConditionalBranch =>
      FallEdges(code, f, dec.NextIp()) +
      (if !code.IsTarget(dec.target) then []
       else [Edge(dec.target, if code.IsForeignHard(dec.target, f) then TailCall else Conditional)])
    case Call =>
      FallEdges(code, f, dec.NextIp()) +
      (if code.IsTarget(dec.target) then [Edge(dec.target, EdgeKind.Call)] else [])
    case IndirectBranch => [Edge(0, Indirect)]
    case IndirectCall =>
      (if code.IsTarget(dec.NextIp()) then [Edge(dec.NextIp(), Fallthrough)] else []) + [Edge(0, Indirect)]
    case Return | Interrupt | Exception => [Edge(0, EdgeKind.Return)]
    case XbeginXabortXend => []
  }

  /** First address after a non-empty straight run that starts at `start`. */
  function RunEnd(start: u64, run: seq<Instr>): u64 {
    if run == [] then start else run[|run| - 1].NextIp()
  }

  function RunEdges(
    code: Code, owners: map<u64, u64>, known: set<u64>, entries: set<u64>, f: u64, start: u64, run: seq<Instr>
  ): seq<Edge>
    requires code.Valid()
  {
    if run != [] && !run[|run| - 1].flow.Next? then TerminatorEdges(code, entries, f, run[|run| - 1])
    else StopEdges(code, owners, known, f, start, RunEnd(start, run))
  }

  /** The block decoded at `start` for function `f` in the given discovery state. */
  function DecodedBlock(
    code: Code, owners: map<u64, u64>, known: set<u64>, entries: set<u64>, f: u64, start: u64
  ): BasicBlock
    requires code.Valid()
  {
    var run := StraightRun(code, owners, known, f, start, start);
    BasicBlock(
      start,
      if run == [] then start else run[|run| - 1].ip,
      |run|,
      RunEdges(code, owners, known, entries, f, start, run),
      [])
  }

  // ---------------------------------------------------------------- claiming and queueing

  ghost function FlowTargets(edges: seq<Edge>): set<u64> {
    set e | e in edges && e.IsFlow() :: e.target
  }

  ghost function CallTargets(edges: seq<Edge>): set<u64> {
    set e | e in edges && e.kind.Call? :: e.target
  }

  /** The maps and queues a decoded block feeds. */
  datatype Books = Books(owners: map<u64, u64>, blockQueue: seq<u64>, entries: set<u64>, worklist: seq<u64>)

  /** Books after one edge of `f`: unowned flow targets are claimed, new callees recorded. */
  ghost function Entered(books: Books, f: u64, e: Edge): Books {
    if e.IsFlow() && e.target !in books.owners then
      books.(owners := books.owners[e.target := f], blockQueue := books.blockQueue + [e.target])
    else if e.kind.Call? && e.target !in books.entries then
      books.(entries := books.entries + {e.target}, worklist := books.worklist + [e.target])
    else books
  }

  ghost function AllEntered(books: Books, f: u64, edges: seq<Edge>): Books {
    if edges == [] then books
    else Entered(AllEntered(books, f, edges[..|edges| - 1]), f, edges[|edges| - 1])
  }

  lemma EnteredAppend(books: Books, f: u64, edges: seq<Edge>, e: Edge)
    ensures AllEntered(books, f, edges + [e]) == Entered(AllEntered(books, f, edges), f, e)
  {
    assert (edges + [e])[..|edges|] == edges;
  }

  lemma EnteredOne(books: Books, f: u64, e: Edge)
    ensures AllEntered(books, f, []) == books
    ensures AllEntered(books, f, [e]) == Entered(books, f, e)
  {
    EnteredAppend(books, f, [], e);
    assert [] + [e] == [e];
  }

  /** `after` is `before` plus new elements, each queued once it is recorded. */
  ghost predicate QueuedNew(before: seq<u64>, after: seq<u64>, added: set<u64>) {
    && before <= after
    && (forall a :: a in after ==> a in before || a in added)
    && (forall a :: a in added ==> a in after)
    && (added == {} ==> after == before)
  }

  /** The unowned addresses of `flows` became blocks of `f` and were queued; the rest stands. */
  ghost predicate ClaimEffect(before: Books, after: Books, f: u64, flows: set<u64>) {
    && after.owners.Keys == before.owners.Keys + flows
    && (forall a :: a in after.owners ==> after.owners[a] == if a in before.owners then before.owners[a] else f)
    && QueuedNew(before.blockQueue, after.blockQueue, flows - before.owners.Keys)
  }

  /** The unrecorded addresses of `calls` became function entries and were queued; the rest stands. */
  ghost predicate CallEffect(before: Books, after: Books, calls: set<u64>) {
    && after.entries == before.entries + calls
    && QueuedNew(before.worklist, after.worklist, calls - before.entries)
  }

  /** Entering edges claims exactly the unowned flow targets. */
  lemma {:induction false} EnteredClaims(books: Books, f: u64, edges: seq<Edge>)
    ensures ClaimEffect(books, AllEntered(books, f, edges), f, FlowTargets(edges))
  {
    hide QueuedNew, CallTargets, ClaimEffect;
    if edges == [] {
      assert FlowTargets(edges) == {};
      ClaimNone(books, f);
    } else {
      var front, e := edges[..|edges| - 1], edges[|edges| - 1];
      EnteredClaims(books, f, front);
      assert edges == front + [e];
      assert FlowTargets(edges) == FlowTargets(front) + (if e.IsFlow() then {e.target} else {});
      ClaimOne(books, AllEntered(books, f, front), f, FlowTargets(front), e);
    }
  }

  lemma ClaimNone(books: Books, f: u64)
    ensures ClaimEffect(books, books, f, {})
  {
    QueuedNone(books.blockQueue, {} - books.owners.Keys);
  }

  lemma ClaimOne(books: Books, mid: Books, f: u64, flows: set<u64>, e: Edge)
    requires ClaimEffect(books, mid, f, flows)
    ensures ClaimEffect(books, Entered(mid, f, e), f, flows + (if e.IsFlow() then {e.target} else {}))
  {
    hide QueuedNew;
    var more := flows + (if e.IsFlow() then {e.target} else {});
    if e.IsFlow() && e.target !in mid.owners {
      QueuedOne(books.blockQueue, mid.blockQueue, flows - books.owners.Keys, e.target);
      assert more - books.owners.Keys == (flows - books.owners.Keys) + {e.target};
    } else {
      assert more - books.owners.Keys == flows - books.owners.Keys;
    }
  }

  /** Entering edges records exactly the new callees. */
  lemma {:induction false} EnteredCalls(books: Books, f: u64, edges: seq<Edge>)
    ensures CallEffect(books, AllEntered(books, f, edges), CallTargets(edges))
  {
    hide QueuedNew, FlowTargets;
    if edges == [] {
      assert CallTargets(edges) == {};
      QueuedNone(books.worklist, CallTargets(edges) - books.entries);
    } else {
      var front, e := edges[..|edges| - 1], edges[|edges| - 1];
      var mid := AllEntered(books, f, front);
      EnteredCalls(books, f, front);
      assert edges == front + [e];
      assert CallTargets(edges) == CallTargets(front) + (if e.kind.Call? then {e.target} else {});
      if e.kind.Call? && e.target !in mid.entries {
        QueuedOne(books.worklist, mid.worklist, CallTargets(front) - books.entries, e.target);
        assert CallTargets(edges) - books.entries == (CallTargets(front) - books.entries) + {e.target};
      } else {
        assert CallTargets(edges) - books.entries == CallTargets(front) - books.entries;
      }
    }
  }

  lemma QueuedNone(queue: seq<u64>, added: set<u64>)
    requires added == {}
    ensures QueuedNew(queue, queue, added)
  {
  }

  lemma QueuedOne(before: seq<u64>, mid: seq<u64>, added: set<u64>, a: u64)
    requires QueuedNew(before, mid, added)
    ensures QueuedNew(before, mid + [a], added + {a})
  {
  }

  // ---------------------------------------------------------------- what a block means

  /** Instruction count, exit and interior of `b` as the sorted index shows them. */
  ghost predicate RunFaithful(code: Code, f: u64, b: BasicBlock)
    requires code.Valid()
  {
    var w := code.index.Window(b.entryVa, b.instrCount);
    && |w| == b.instrCount
    && (b.instrCount == 0 ==> b.exitVa == b.entryVa)
    && (b.instrCount > 0 ==> w[0].ip == b.entryVa && w[b.instrCount - 1].ip == b.exitVa)
    && (forall k :: 0 <= k < b.instrCount - 1 ==> w[k].flow.Next? && w[k + 1].ip == w[k].ip + w[k].len)
    && (forall k :: 1 <= k < b.instrCount ==> !code.IsForeignHard(w[k].ip, f))
  }

  /** The control transfer that ends `b`, if it does not just run into something. */
  ghost function LastInstr(code: Code, b: BasicBlock): Option<Instr>
    requires code.Valid()
  {
    if b.instrCount == 0 then None else code.index.AtVa(b.exitVa)
  }

  ghost function EndVa(code: Code, b: BasicBlock): u64
    requires code.Valid()
  {
    var last := LastInstr(code, b);
    if last.Some? then last.value.NextIp() else b.entryVa
  }

  /** What an edge of each kind says about the instruction that ends its block. */
  predicate EdgeMeaning(code: Code, entries: set<u64>, f: u64, last: Instr, e: Edge) {
    match e.kind
    case Fallthrough =>
      && (last.flow.Next? || last.flow.ConditionalBranch? || last.flow.Call? || last.flow.IndirectCall?)
      && e.target == last.NextIp()
      && (code.IsForeignHard(e.target, f) ==> last.flow.IndirectCall?)
    case Conditional =>
      last.flow.ConditionalBranch? && e.target == last.target && !code.IsForeignHard(e.target, f)
    case Unconditional =>
      last.flow.UnconditionalBranch? && e.target == last.target && e.target >= f
    case Call =>
      last.flow.Call? && e.target == last.target && e.target in entries
    case TailCall =>
      if last.flow.UnconditionalBranch?
      then e.target == last.target && ((e.target in entries && e.target != f) || e.target < f)
      else
        && code.IsForeignHard(e.target, f)
        && (e.target == last.NextIp() || (last.flow.ConditionalBranch? && e.target == last.target))
    case Indirect => (last.flow.IndirectBranch? || last.flow.IndirectCall?) && e.target == 0
    case Return => (last.flow.Return? || last.flow.Interrupt? || last.flow.Exception?) && e.target == 0
  }

  /** The addresses a block ending in `dec` must have edges to, in order. */
  function OutTargets(code: Code, dec: Instr): seq<u64>
    requires !dec.flow.Next?
  {
    var next := if code.IsTarget(dec.NextIp()) then [dec.NextIp()] else [];
    var taken := if code.IsTarget(dec.target) then [dec.target] else [];
    match dec.flow
    case UnconditionalBranch => taken
    case ConditionalBranch | Call => next + taken
    case IndirectCall => next + [0]
    case IndirectBranch | Return | Interrupt | Exception => [0]
    case XbeginXabortXend => []
  }

  function Targets(edges: seq<Edge>): seq<u64> {
    seq(|edges|, i requires 0 <= i < |edges| => edges[i].target)
  }

  /** No successor is missing: the edge targets are those of the ending instruction. */
  ghost predicate EdgesComplete(code: Code, b: BasicBlock)
    requires code.Valid()
  {
    var last := LastInstr(code, b);
    if last.Some? && !last.value.flow.Next?
    then Targets(b.successors) == OutTargets(code, last.value)
    else |b.successors| <= 1
  }

  /** A freshly decoded block, before edges below the function entry are rewritten. */
  ghost predicate BlockFaithful(code: Code, entries: set<u64>, f: u64, b: BasicBlock)
    requires code.Valid()
  {
    && RunFaithful(code, f, b)
    && EdgesComplete(code, b)
    && (forall e :: e in b.successors ==>
         LastInstr(code, b).Some? && EdgeMeaning(code, entries, f, LastInstr(code, b).value, e))
  }

  // ---------------------------------------------------------------- lemmas about decoding

  /** A contiguous stretch of straight-line code: only its last instruction may transfer control. */
  ghost predicate Straight(run: seq<Instr>) {
    forall k :: 0 <= k < |run| - 1 ==> run[k].flow.Next? && run[k + 1].ip == run[k].ip + run[k].len
  }

  ghost predicate SliceAt(index: CodeIndex, i: nat, run: seq<Instr>) {
    i + |run| <= |index.instrs| && run == index.instrs[i..i + |run|]
  }

  /** A walk from element `i` collects a contiguous, straight slice of the index. */
  lemma {:induction false} RunIsSlice(
    code: Code, owners: map<u64, u64>, known: set<u64>, f: u64, start: u64, i: nat)
    requires code.Valid() && i < |code.index.instrs|
    ensures SliceAt(code.index, i, StraightRun(code, owners, known, f, start, code.index.instrs[i].ip))
    ensures Straight(StraightRun(code, owners, known, f, start, code.index.instrs[i].ip))
    decreases |code.index.instrs| - i
  {
    var dec := code.index.instrs[i];
    code.index.IndexedLookup(i);
    if !Stops(code, owners, known, f, start, dec.ip) && dec.flow.Next? {
      var rest := StraightRun(code, owners, known, f, start, dec.NextIp());
      var j := code.index.IdxForVa(dec.NextIp());
      if j.None? {
        assert rest == [];
      } else {
        code.index.NextIsAdjacent(i, j.value);
        RunIsSlice(code, owners, known, f, start, i + 1);
        SliceCons(code.index, i, rest);
      }
    }
  }

  lemma SliceCons(index: CodeIndex, i: nat, rest: seq<Instr>)
    requires index.WellFormed() && i + 1 < |index.instrs| && index.instrs[i].flow.Next?
    requires index.instrs[i + 1].ip == index.instrs[i].NextIp()
    requires SliceAt(index, i + 1, rest) && Straight(rest)
    ensures SliceAt(index, i, [index.instrs[i]] + rest)
    ensures Straight([index.instrs[i]] + rest)
  {
    assert index.Sized(i);
    StraightCons(index.instrs[i], rest);
  }

  lemma StraightCons(dec: Instr, rest: seq<Instr>)
    requires dec.flow.Next? && Straight(rest)
    requires rest != [] ==> rest[0].ip == dec.ip + dec.len
    ensures Straight([dec] + rest)
  {
    var run := [dec] + rest;
    forall k | 0 <= k < |run| - 1 ensures run[k].flow.Next? && run[k + 1].ip == run[k].ip + run[k].len {
      if k > 0 {
        assert run[k] == rest[k - 1] && run[k + 1] == rest[k];
      }
    }
  }

  /** No instruction a walk collects after `start` is a hard entry of another function. */
  lemma {:induction false} RunAvoidsHard(
    code: Code, owners: map<u64, u64>, known: set<u64>, f: u64, start: u64, va: u64)
    requires code.Valid()
    ensures forall d :: d in StraightRun(code, owners, known, f, start, va) && d.ip != start ==> !code.IsForeignHard(d.ip, f)
    decreases U64_LIMIT - va
  {
    if !Stops(code, owners, known, f, start, va) {
      var dec := code.index.AtVa(va).value;
      if dec.flow.Next? {
        RunAvoidsHard(code, owners, known, f, start, dec.NextIp());
      }
    }
  }

  /** The window a consumer reads back for a decoded block is the walk that decoded it. */
  lemma RunIsWindow(code: Code, owners: map<u64, u64>, known: set<u64>, f: u64, start: u64)
    requires code.Valid()
    ensures var run := StraightRun(code, owners, known, f, start, start);
      code.index.Window(start, |run|) == run && Straight(run) && (run != [] ==> run[0].ip == start)
  {
    var i := code.index.IdxForVa(start);
    if i.Some? {
      RunIsSlice(code, owners, known, f, start, i.value);
      code.index.IndexedLookup(i.value);
    }
  }

  /** The instruction at a decoded block's exit is the last one its walk collected. */
  lemma DecodedLast(
    code: Code, owners: map<u64, u64>, known: set<u64>, entries: set<u64>, f: u64, start: u64)
    requires code.Valid()
    ensures var run := StraightRun(code, owners, known, f, start, start);
      var b := DecodedBlock(code, owners, known, entries, f, start);
      && LastInstr(code, b) == (if run == [] then None else Some(run[|run| - 1]))
      && EndVa(code, b) == RunEnd(start, run)
  {
    hide StopEdges, TerminatorEdges, Straight, CodeIndex.Search, CodeIndex.WellFormed;
    var run := StraightRun(code, owners, known, f, start, start);
    var i := code.index.IdxForVa(start);
    if i.Some? {
      RunIsSlice(code, owners, known, f, start, i.value);
      if run != [] {
        code.index.IndexedLookup(i.value + |run| - 1);
      }
    }
  }

  lemma DecodedRunFaithful(
    code: Code, owners: map<u64, u64>, known: set<u64>, entries: set<u64>, f: u64, start: u64)
    requires code.Valid()
    ensures RunFaithful(code, f, DecodedBlock(code, owners, known, entries, f, start))
  {
    hide StraightRun, RunEdges, CodeIndex.Search, CodeIndex.WellFormed, CodeIndex.Window, CodeIndex.AtVa;
    var run := StraightRun(code, owners, known, f, start, start);
    RunIsWindow(code, owners, known, f, start);
    RunAvoidsHard(code, owners, known, f, start, start);
    forall d | d in run ensures d.len >= 1 {
      RunDecoded(code, owners, known, f, start, start, d);
    }
    StraightAscends(run);
  }

  lemma {:induction false} RunDecoded(
    code: Code, owners: map<u64, u64>, known: set<u64>, f: u64, start: u64, va: u64, d: Instr)
    requires code.Valid() && d in StraightRun(code, owners, known, f, start, va)
    ensures d.len >= 1 && d in code.index.instrs
    decreases U64_LIMIT - va
  {
    var dec := code.index.AtVa(va).value;
    if d != dec {
      RunDecoded(code, owners, known, f, start, dec.NextIp(), d);
    }
  }

  /** The edges of a control transfer go exactly where the instruction goes, with the right kinds. */
  lemma TerminatorMeaning(code: Code, entries: set<u64>, f: u64, dec: Instr)
    requires !dec.flow.Next?
    ensures var edges := TerminatorEdges(code, entries, f, dec);
      && Targets(edges) == OutTargets(code, dec)
      && forall e :: e in edges ==> EdgeMeaning(code, entries + CallTargets(edges), f, dec, e)
  {
    hide Code.IsTarget, Code.IsForeignHard;
    var edges := TerminatorEdges(code, entries, f, dec);
    var known := entries + CallTargets(edges);
    match dec.flow
    case UnconditionalBranch =>
    case ConditionalBranch =>
      assert forall e :: e in edges ==> e in FallEdges(code, f, dec.NextIp()) || e.target == dec.target;
    case Call =>
      forall e | e in edges ensures EdgeMeaning(code, known, f, dec, e) {
        if e.kind.Call? {
          assert e.target in CallTargets(edges);
        }
      }
    case _ =>
  }

  /** Stopping short leaves at most one edge, to the address the walk stopped at. */
  lemma StopMeaning(
    code: Code, owners: map<u64, u64>, known: set<u64>, entries: set<u64>, f: u64, start: u64, last: Instr)
    requires code.Valid() && last.flow.Next?
    ensures var edges := StopEdges(code, owners, known, f, start, last.NextIp());
      |edges| <= 1 && forall e :: e in edges ==> EdgeMeaning(code, entries, f, last, e)
  {
  }

  /** Every decoded block is a window of the index and its edges say what the code does. */
  lemma DecodedBlockFaithful(
    code: Code, owners: map<u64, u64>, known: set<u64>, entries: set<u64>, f: u64, start: u64)
    requires code.Valid()
    ensures var b := DecodedBlock(code, owners, known, entries, f, start);
      BlockFaithful(code, entries + CallTargets(b.successors), f, b)
  {
    var run := StraightRun(code, owners, known, f, start, start);
    var b := DecodedBlock(code, owners, known, entries, f, start);
    var recorded := entries + CallTargets(b.successors);
    DecodedRunFaithful(code, owners, known, entries, f, start);
    DecodedLast(code, owners, known, entries, f, start);
    if run == [] {
      assert b.successors == [];
    } else if run[|run| - 1].flow.Next? {
      StopMeaning(code, owners, known, recorded, f, start, run[|run| - 1]);
    } else {
      TerminatorMeaning(code, entries, f, run[|run| - 1]);
    }
  }

  // ---------------------------------------------------------------- exactly where a block goes

  /** Nothing a walk collects belongs to another function, or past its start to a block decoded before. */
  lemma {:induction false} RunStaysOff(
    code: Code, owners: map<u64, u64>, known: set<u64>, f: u64, start: u64, va: u64)
    requires code.Valid()
    ensures forall d :: d in StraightRun(code, owners, known, f, start, va) ==>
      && (d.ip in owners ==> owners[d.ip] == f)
      && (d.ip != start ==> d.ip !in known)
    decreases U64_LIMIT - va
  {
    if !Stops(code, owners, known, f, start, va) {
      var dec := code.index.AtVa(va).value;
      if dec.flow.Next? {
        RunStaysOff(code, owners, known, f, start, dec.NextIp());
      }
    }
  }

  /** A walk that does not end in a control transfer ends where nothing more may be collected. */
  lemma {:induction false} RunGoesOn(
    code: Code, owners: map<u64, u64>, known: set<u64>, f: u64, start: u64, va: u64)
    requires code.Valid()
    ensures
      var run := StraightRun(code, owners, known, f, start, va);
      var next := RunEnd(va, run);
      (run == [] || run[|run| - 1].flow.Next?) && code.index.AtVa(next).Some? ==>
        || (next in owners && owners[next] != f)
        || (next != start && (next in known || code.IsForeignHard(next, f)))
    ensures
      var run := StraightRun(code, owners, known, f, start, va);
      run != [] && run[|run| - 1].flow.Next? ==> RunEnd(va, run) > va
    decreases U64_LIMIT - va
  {
    if !Stops(code, owners, known, f, start, va) {
      var dec := code.index.AtVa(va).value;
      if dec.flow.Next? {
        RunGoesOn(code, owners, known, f, start, dec.NextIp());
      }
    }
  }

  /** Where control can go after `last` inside the function: targets that are code and nobody else's entry. */
  predicate Continues(code: Code, entries: set<u64>, f: u64, last: Instr, t: u64)
    requires !last.flow.Next?
  {
    && code.IsTarget(t)
    && match last.flow
       case UnconditionalBranch => t == last.target && t >= f && (t == f || t !in entries)
       case ConditionalBranch => (t == last.NextIp() || t == last.target) && (t == f || t !in code.hardEntries)
       case Call => t == last.NextIp() && (t == f || t !in code.hardEntries)
       case IndirectCall => t == last.NextIp()
       case _ => false
  }

  /** The flow edges of a control transfer lead exactly there, judged by the entries recorded so far. */
  lemma TerminatorFlowsIff(code: Code, entries: set<u64>, f: u64, dec: Instr, t: u64)
    requires !dec.flow.Next?
    ensures t in FlowTargets(TerminatorEdges(code, entries, f, dec)) <==> Continues(code, entries, f, dec, t)
  {
    hide Code.IsTarget;
    var edges := TerminatorEdges(code, entries, f, dec);
    if Continues(code, entries, f, dec, t) {
      assert exists e :: e in edges && e.IsFlow() && e.target == t by {
        assert Edge(t, Unconditional) in edges || Edge(t, Fallthrough) in edges || Edge(t, Conditional) in edges;
      }
    }
  }

  /**
   * A block flows to `t` exactly when its last instruction can go there, or, where it just runs on, when
   * `t` is the next instruction and neither another function's nor another hard entry.
   */
  lemma BlockFlowsIff(
    code: Code, owners: map<u64, u64>, known: set<u64>, entries: set<u64>, f: u64, start: u64, t: u64)
    requires code.Valid()
    ensures
      var run := StraightRun(code, owners, known, f, start, start);
      t in FlowTargets(DecodedBlock(code, owners, known, entries, f, start).successors) <==>
        && run != []
        && var last := run[|run| - 1];
           if !last.flow.Next? then Continues(code, entries, f, last, t)
           else
             && t == last.NextIp() && code.index.AtVa(t).Some?
             && (t in owners ==> owners[t] == f) && (t == f || t !in code.hardEntries)
  {
    hide StraightRun, Stops, CodeIndex.Search, CodeIndex.AtVa, CodeIndex.WellFormed, Continues, TerminatorEdges;
    var run := StraightRun(code, owners, known, f, start, start);
    RunGoesOn(code, owners, known, f, start, start);
    if run == [] {
      assert RunEnd(start, run) == start;
    } else if run[|run| - 1].flow.Next? {
      RunEndsLater(code, owners, known, f, start);
      var va := RunEnd(start, run);
      var edges := StopEdges(code, owners, known, f, start, va);
      assert edges == [] || edges == [edges[0]];
    } else {
      TerminatorFlowsIff(code, entries, f, run[|run| - 1], t);
    }
  }

  lemma RunEndsLater(code: Code, owners: map<u64, u64>, known: set<u64>, f: u64, start: u64)
    requires code.Valid()
    requires var run := StraightRun(code, owners, known, f, start, start); run != [] && run[|run| - 1].flow.Next?
    ensures RunEnd(start, StraightRun(code, owners, known, f, start, start)) > start
  {
    hide Stops;
    var run := StraightRun(code, owners, known, f, start, start);
    RunGoesOn(code, owners, known, f, start, start);
  }

  /** A block that just runs into another function's hard entry calls it last of all. */
  lemma RunsIntoHardIff(
    code: Code, owners: map<u64, u64>, known: set<u64>, entries: set<u64>, f: u64, start: u64)
    requires code.Valid()
    requires var run := StraightRun(code, owners, known, f, start, start); run != [] && run[|run| - 1].flow.Next?
    ensures
      var run := StraightRun(code, owners, known, f, start, start);
      var next := run[|run| - 1].NextIp();
      Edge(next, TailCall) in DecodedBlock(code, owners, known, entries, f, start).successors <==>
        code.index.AtVa(next).Some? && code.IsForeignHard(next, f)
  {
    hide StraightRun, Stops, CodeIndex.Search, CodeIndex.AtVa, CodeIndex.WellFormed;
    RunEndsLater(code, owners, known, f, start);
  }

  lemma StraightAscends(run: seq<Instr>)
    requires Straight(run) && forall d :: d in run ==> d.len >= 1
    ensures forall k :: 1 <= k < |run| ==> run[k].ip > run[0].ip
  {
    if |run| > 1 {
      var front := run[..|run| - 1];
      StraightAscends(front);
      assert run[|run| - 2] == front[|run| - 2] && run[0] == front[0];
    }
  }

  /** No indirect call ends directly before a hard entry: the one fallthrough that is not checked. */
  ghost predicate NoIndirectCallBeforeHard(code: Code) {
    forall d :: d in code.index.instrs && d.flow.IndirectCall? ==> d.NextIp() !in code.hardEntries
  }

  /**
   * With every hard entry recorded, a block claims one for another function exactly when it ends in an
   * indirect call whose return address is such an entry.
   */
  lemma ClaimsHardIff(
    code: Code, owners: map<u64, u64>, known: set<u64>, entries: set<u64>, f: u64, start: u64)
    requires code.Valid() && code.hardEntries <= entries
    ensures
      var run := StraightRun(code, owners, known, f, start, start);
      var edges := DecodedBlock(code, owners, known, entries, f, start).successors;
      (exists e :: e in edges && e.IsFlow() && code.IsForeignHard(e.target, f)) <==>
        && run != [] && run[|run| - 1].flow.IndirectCall?
        && code.IsTarget(run[|run| - 1].NextIp()) && code.IsForeignHard(run[|run| - 1].NextIp(), f)
  {
    hide StraightRun, Stops, CodeIndex.Search, CodeIndex.AtVa, Code.IsTarget;
    var run := StraightRun(code, owners, known, f, start, start);
    if run != [] && !run[|run| - 1].flow.Next? {
      TerminatorClaimsHardIff(code, entries, f, run[|run| - 1]);
    }
  }

  lemma TerminatorClaimsHardIff(code: Code, entries: set<u64>, f: u64, dec: Instr)
    requires !dec.flow.Next? && code.hardEntries <= entries
    ensures (exists e :: e in TerminatorEdges(code, entries, f, dec) && e.IsFlow() && code.IsForeignHard(e.target, f)) <==>
      dec.flow.IndirectCall? && code.IsTarget(dec.NextIp()) && code.IsForeignHard(dec.NextIp(), f)
  {
    hide Code.IsTarget;
    if dec.flow.IndirectCall? && code.IsTarget(dec.NextIp()) {
      assert Edge(dec.NextIp(), Fallthrough) in TerminatorEdges(code, entries, f, dec);
    }
  }

  /** So where no indirect call ends directly before a hard entry none is claimed for another function. */
  lemma FlowAvoidsHard(
    code: Code, owners: map<u64, u64>, known: set<u64>, entries: set<u64>, f: u64, start: u64, e: Edge)
    requires code.Valid() && code.hardEntries <= entries && NoIndirectCallBeforeHard(code)
    requires e in DecodedBlock(code, owners, known, entries, f, start).successors && e.IsFlow()
    ensures !code.IsForeignHard(e.target, f)
  {
    hide StraightRun, DecodedBlock, Code.IsTarget;
    ClaimsHardIff(code, owners, known, entries, f, start);
    var run := StraightRun(code, owners, known, f, start, start);
    if run != [] {
      RunDecoded(code, owners, known, f, start, start, run[|run| - 1]);
    }
  }

  /** A control transfer only leads to its own two addresses or to the placeholder 0. */
  lemma TerminatorTargets(code: Code, entries: set<u64>, f: u64, dec: Instr, e: Edge)
    requires !dec.flow.Next? && e in TerminatorEdges(code, entries, f, dec) && (e.IsFlow() || e.kind.Call?)
    ensures e.target != 0 && (e.target == dec.target || e.target == dec.NextIp())
  {
  }

  /** An edge out of a decoded block is claimed or called inside the reachable addresses. */
  lemma EdgesReachable(
    code: Code, owners: map<u64, u64>, known: set<u64>, entries: set<u64>, f: u64, start: u64, e: Edge)
    requires code.Valid()
    requires e in DecodedBlock(code, owners, known, entries, f, start).successors
    requires e.IsFlow() || e.kind.Call?
    ensures e.target in code.Reachable()
    ensures e.IsFlow() ==> e.target != 0
  {
    hide StraightRun, Stops, CodeIndex.Search, CodeIndex.WellFormed, CodeIndex.AtVa, TerminatorEdges;
    var run := StraightRun(code, owners, known, f, start, start);
    if run != [] {
      var last := run[|run| - 1];
      RunDecoded(code, owners, known, f, start, start, last);
      if !last.flow.Next? {
        TerminatorTargets(code, entries, f, last, e);
      }
      assert last.target in code.Reachable() && last.NextIp() in code.Reachable();
    }
  }
}
