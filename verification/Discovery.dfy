/** Function discovery by recursive descent: nested worklists over shared ownership maps. */
module Discovery {
  import opened Prelude
  import opened CodeIndexes
  import opened Functions
  import opened Predecessors
  import opened TailCalls
  import opened Worklists

  // ---------------------------------------------------------------- invariants

  ghost function Starts(blocks: seq<BasicBlock>): set<u64> {
    set b | b in blocks :: b.entryVa
  }

  ghost function OwnedBy(owners: map<u64, u64>, f: u64): set<u64> {
    set a | a in owners && owners[a] == f
  }

  ghost function FromEntry(starts: set<u64>, f: u64): set<u64> {
    set a | a in starts && a >= f
  }

  /** The blocks of `f` ascend strictly and none starts below `f`. */
  ghost predicate WellPlaced(f: u64, fn: Function) {
    fn.entryVa == f && Ascending(fn.blocks) && forall b :: b in fn.blocks ==> b.entryVa >= f
  }

  /**
   * Ownership and block lists agree: every owned address belongs to a known function, and a
   * function lists exactly the addresses it owns at or above its entry.
   */
  ghost predicate Partitioned(s: State) {
    && (forall a :: a in s.owners ==> s.owners[a] in s.functions)
    && (forall f :: f in s.functions ==>
         WellPlaced(f, s.functions[f]) && Starts(s.functions[f].blocks) == FromEntry(OwnedBy(s.owners, f), f))
  }

  /** An edge of a finished block: what it meant when decoded, retargeted below the entry. */
  ghost predicate FinalMeaning(code: Code, entries: set<u64>, f: u64, last: Instr, e: Edge) {
    exists k: EdgeKind :: EdgeMeaning(code, entries, f, last, Edge(e.target, k)) && e == Retargeted(f, Edge(e.target, k))
  }

  /** A flow edge of `f` leads to a block of `f` or to an address another function owns. */
  ghost predicate FlowClosed(owners: map<u64, u64>, f: u64, e: Edge) {
    e.IsFlow() ==> e.target in owners && (owners[e.target] == f ==> e.target >= f)
  }

  ghost predicate BlockSound(code: Code, entries: set<u64>, owners: map<u64, u64>, f: u64, b: BasicBlock)
    requires code.Valid()
  {
    && RunFaithful(code, f, b)
    && EdgesComplete(code, b)
    && forall e :: e in b.successors ==>
         && LastInstr(code, b).Some?
         && FinalMeaning(code, entries, f, LastInstr(code, b).value, e)
         && FlowClosed(owners, f, e)
  }

  ghost predicate FunctionSound(code: Code, entries: set<u64>, owners: map<u64, u64>, fn: Function)
    requires code.Valid()
  {
    && fn.entryVa in owners && owners[fn.entryVa] == fn.entryVa
    && (forall b :: b in fn.blocks ==> BlockSound(code, entries, owners, fn.entryVa, b))
    && Agree(fn.blocks)
  }

  ghost predicate AllSound(code: Code, s: State)
    requires code.Valid()
  {
    forall f :: f in s.functions ==> FunctionSound(code, s.entries, s.owners, s.functions[f])
  }

  /** Nothing recorded is forgotten, once the addresses in `pending` are dealt with. */
  ghost predicate Accounted(code: Code, s: State, pending: seq<u64>) {
    forall e :: e in s.entries && code.space.IsExecutableVa(e) ==> e in pending || Settled(s, e)
  }

  /** `e` became a function, or another function owns it as a block start. */
  ghost predicate Settled(s: State, e: u64) {
    e in s.functions || (e in s.owners && s.owners[e] != e)
  }

  /** No function other than `h` itself owns a hard entry `h`. */
  ghost predicate HardKept(code: Code, owners: map<u64, u64>) {
    forall h :: h in code.hardEntries && h in owners ==> owners[h] == h
  }

  /** Ownership is only added to, never reassigned. */
  ghost predicate Extends(before: map<u64, u64>, after: map<u64, u64>) {
    forall a :: a in before ==> a in after && after[a] == before[a]
  }

  /** A discovery step only adds: entries, owners and functions all survive unchanged. */
  ghost predicate Grows(before: State, after: State) {
    && before.entries <= after.entries
    && Extends(before.owners, after.owners)
    && forall f :: f in before.functions ==> f in after.functions && after.functions[f] == before.functions[f]
  }

  // ---------------------------------------------------------------- consequences

  /** No two functions list the same block start. */
  lemma StartsAreDisjoint(s: State, f: u64, g: u64)
    requires Partitioned(s) && f in s.functions && g in s.functions && f != g
    ensures Starts(s.functions[f].blocks) !! Starts(s.functions[g].blocks)
  {
    var mine, theirs := Starts(s.functions[f].blocks), Starts(s.functions[g].blocks);
    forall a | a in mine ensures a !in theirs {
      assert s.owners[a] == f;
    }
  }

  /** A sound function starts with the block at its own entry. */
  lemma EntryBlockFirst(code: Code, s: State, f: u64)
    requires code.Valid() && Partitioned(s) && AllSound(code, s) && f in s.functions
    ensures var blocks := s.functions[f].blocks; blocks != [] && blocks[0].entryVa == f
  {
    var blocks := s.functions[f].blocks;
    assert f in Starts(blocks);
    var b :| b in blocks && b.entryVa == f;
    var i :| 0 <= i < |blocks| && blocks[i] == b;
    assert blocks[0] in blocks;
  }

  /** Every flow edge of a sound function ends at a block of some function. */
  lemma FlowLeadsToBlock(code: Code, s: State, f: u64, b: BasicBlock, e: Edge)
    requires code.Valid() && Partitioned(s) && AllSound(code, s)
    requires f in s.functions && b in s.functions[f].blocks && e in b.successors && e.IsFlow()
    ensures e.target in s.owners
    ensures s.owners[e.target] != f || e.target in Starts(s.functions[f].blocks)
  {
    assert BlockSound(code, s.entries, s.owners, f, b);
    assert FlowClosed(s.owners, f, e);
    if s.owners[e.target] == f {
      assert e.target in FromEntry(OwnedBy(s.owners, f), f);
    }
  }

  /** Edges of a finished function that lead below its entry are tail calls; the others are as they were decoded. */
  lemma EdgesBelow(code: Code, s: State, f: u64, b: BasicBlock, e: Edge)
    requires code.Valid() && AllSound(code, s) && f in s.functions && s.functions[f].entryVa == f
    requires b in s.functions[f].blocks && e in b.successors
    ensures LastInstr(code, b).Some?
    ensures
      var last := LastInstr(code, b).value;
      if 0 < e.target < f then e.kind == TailCall && exists k: EdgeKind :: EdgeMeaning(code, s.entries, f, last, Edge(e.target, k))
      else EdgeMeaning(code, s.entries, f, last, e)
  {
    hide EdgeMeaning, RunFaithful, EdgesComplete, LastInstr;
    assert FunctionSound(code, s.entries, s.owners, s.functions[f]);
    assert BlockSound(code, s.entries, s.owners, f, b);
    assert FinalMeaning(code, s.entries, f, LastInstr(code, b).value, e);
    var k: EdgeKind :| EdgeMeaning(code, s.entries, f, LastInstr(code, b).value, Edge(e.target, k))
      && e == Retargeted(f, Edge(e.target, k));
  }

  /** When hard entries are kept and accounted for, every executable one is its own function. */
  lemma HardEntriesAreFunctions(code: Code, s: State, h: u64)
    requires HardKept(code, s.owners) && Accounted(code, s, [])
    requires h in code.hardEntries && h in s.entries && code.space.IsExecutableVa(h)
    ensures h in s.functions
  {
    assert Settled(s, h);
  }

  /** ... and no other function has a block that starts at a hard entry. */
  lemma NoBlockStartsAtHard(code: Code, s: State, f: u64, b: BasicBlock)
    requires Partitioned(s) && HardKept(code, s.owners) && f in s.functions && b in s.functions[f].blocks
    ensures !code.IsForeignHard(b.entryVa, f)
  {
    assert b.entryVa in Starts(s.functions[f].blocks);
    assert b.entryVa in OwnedBy(s.owners, f);
  }

  lemma MeaningMonotone(code: Code, small: set<u64>, large: set<u64>, f: u64, last: Instr, e: Edge)
    requires small <= large && FinalMeaning(code, small, f, last, e)
    ensures FinalMeaning(code, large, f, last, e)
  {
    var k: EdgeKind :| EdgeMeaning(code, small, f, last, Edge(e.target, k)) && e == Retargeted(f, Edge(e.target, k));
    assert EdgeMeaning(code, large, f, last, Edge(e.target, k));
  }

  /** A function stays sound while discovery only adds. */
  lemma SoundMonotone(code: Code, before: State, after: State, fn: Function)
    requires code.Valid() && before.entries <= after.entries && Extends(before.owners, after.owners)
    requires FunctionSound(code, before.entries, before.owners, fn)
    ensures FunctionSound(code, after.entries, after.owners, fn)
  {
    forall b | b in fn.blocks ensures BlockSound(code, after.entries, after.owners, fn.entryVa, b) {
      assert BlockSound(code, before.entries, before.owners, fn.entryVa, b);
      forall e | e in b.successors
        ensures FinalMeaning(code, after.entries, fn.entryVa, LastInstr(code, b).value, e)
        ensures FlowClosed(after.owners, fn.entryVa, e)
      {
        assert FlowClosed(before.owners, fn.entryVa, e);
        MeaningMonotone(code, before.entries, after.entries, fn.entryVa, LastInstr(code, b).value, e);
      }
    }
  }

  // ---------------------------------------------------------------- the algorithm

  class Discovery {
    const code: Code
    var functionEntries: set<u64>
    var blockOwners: map<u64, u64>
    var functions: map<u64, Function>

    constructor (code: Code, seeds: seq<u64>)
      ensures this.code == code
      ensures View() == State(set s | s in seeds, map[], map[])
    {
      this.code := code;
      functionEntries := set s | s in seeds;
      blockOwners := map[];
      functions := map[];
    }

    ghost function View(): State
      reads this
    {
      State(functionEntries, blockOwners, functions)
    }

    ghost function Now(blockQueue: seq<u64>, worklist: seq<u64>): Books
      reads this
    {
      Books(blockOwners, blockQueue, functionEntries, worklist)
    }

    /** Claims `va` for `f` and queues it, unless some function owns it already. */
    method ClaimOrQueueBlock(va: u64, f: u64, blockQueue: seq<u64>) returns (queue: seq<u64>)
      modifies this`blockOwners
      ensures blockOwners == if va in old(blockOwners) then old(blockOwners) else old(blockOwners)[va := f]
      ensures queue == if va in old(blockOwners) then blockQueue else blockQueue + [va]
    {
      queue := blockQueue;
      if va !in blockOwners {
        blockOwners := blockOwners[va := f];
        queue := queue + [va];
      }
    }

    /** Emits the fallthrough edge after a conditional branch or direct call, claiming its target. */
    method FallThrough(next: u64, f: u64, blockQueue: seq<u64>, ghost worklist: seq<u64>)
      returns (successors: seq<Edge>, queue: seq<u64>)
      modifies this`blockOwners
      ensures successors == FallEdges(code, f, next)
      ensures Now(queue, worklist) == AllEntered(old(Now(blockQueue, worklist)), f, successors)
    {
      successors, queue := [], blockQueue;
      if code.IsTarget(next) {
        if code.IsForeignHard(next, f) {
          successors := [Edge(next, TailCall)];
        } else {
          queue := ClaimOrQueueBlock(next, f, queue);
          successors := [Edge(next, Fallthrough)];
        }
        EnteredOne(old(Now(blockQueue, worklist)), f, successors[0]);
      }
    }

    /** The arms of `decode_block` for an instruction that ends the block. */
    method EndBlock(dec: Instr, f: u64, blockQueue: seq<u64>, functionWorklist: seq<u64>)
      returns (successors: seq<Edge>, queue: seq<u64>, worklist: seq<u64>)
      requires !dec.flow.Next?
      modifies this`blockOwners, this`functionEntries
      ensures successors == TerminatorEdges(code, old(functionEntries), f, dec)
      ensures Now(queue, worklist) == AllEntered(old(Now(blockQueue, functionWorklist)), f, successors)
    {
      hide AllEntered, Code.IsTarget;
      successors, queue, worklist := [], blockQueue, functionWorklist;
      EnteredOne(Now(blockQueue, functionWorklist), f, Edge(0, Indirect));
      ghost var books := Now(blockQueue, functionWorklist);
      match dec.flow
      case UnconditionalBranch =>
        if code.IsTarget(dec.target) {
          if (dec.target in functionEntries && dec.target != f) || dec.target < f {
            successors := [Edge(dec.target, TailCall)];
          } else {
            queue := ClaimOrQueueBlock(dec.target, f, queue);
            successors := [Edge(dec.target, Unconditional)];
          }
          EnteredOne(books, f, successors[0]);
        }
      case ConditionalBranch =>
        successors, queue := FallThrough(dec.NextIp(), f, queue, worklist);
        if code.IsTarget(dec.target) {
          var edge := Edge(dec.target, if code.IsForeignHard(dec.target, f) then TailCall else Conditional);
          if !code.IsForeignHard(dec.target, f) {
            queue := ClaimOrQueueBlock(dec.target, f, queue);
          }
          EnteredAppend(books, f, successors, edge);
          successors := successors + [edge];
        }
      case Call =>
        successors, queue := FallThrough(dec.NextIp(), f, queue, worklist);
        if code.IsTarget(dec.target) {
          if dec.target !in functionEntries {
            functionEntries := functionEntries + {dec.target};
            worklist := worklist + [dec.target];
          }
          EnteredAppend(books, f, successors, Edge(dec.target, EdgeKind.Call));
          successors := successors + [Edge(dec.target, EdgeKind.Call)];
        }
      case IndirectBranch =>
        successors := [Edge(0, Indirect)];
        EnteredOne(books, f, successors[0]);
      case IndirectCall =>
        if code.IsTarget(dec.NextIp()) {
          queue := ClaimOrQueueBlock(dec.NextIp(), f, queue);
          successors := [Edge(dec.NextIp(), Fallthrough)];
          EnteredOne(books, f, successors[0]);
        }
        EnteredAppend(books, f, successors, Edge(0, Indirect));
        successors := successors + [Edge(0, Indirect)];
      case Return | Interrupt | Exception =>
        successors := [Edge(0, EdgeKind.Return)];
        EnteredOne(books, f, successors[0]);
      case XbeginXabortXend =>
    }

    /**
     * The loop of `decode_block`: collects straight-line code from `start` until a control
     * transfer, a gap in the index, a foreign boundary or a block that is already decoded.
     */
    method WalkBlock(start: u64, f: u64, known: set<u64>) returns (instrs: seq<Instr>, exitVa: u64, stop: seq<Edge>)
      requires code.Valid()
      ensures instrs == StraightRun(code, blockOwners, known, f, start, start)
      ensures exitVa == if instrs == [] then start else instrs[|instrs| - 1].ip
      ensures stop == if instrs != [] && !instrs[|instrs| - 1].flow.Next? then []
                      else StopEdges(code, blockOwners, known, f, start, RunEnd(start, instrs))
    {
      var va := start;
      instrs, exitVa, stop := [], start, [];
      ghost var run := StraightRun(code, blockOwners, known, f, start, start);
      while code.index.AtVa(va).Some?
        invariant Walked(run, instrs, StraightRun(code, blockOwners, known, f, start, va), start, va, exitVa)
        invariant stop == []
        decreases U64_LIMIT - va
      {
        var dec := code.index.AtVa(va).value;
        if va != start && code.IsForeignHard(va, f) {
          stop := [Edge(va, TailCall)];
          break;
        }
        if va in blockOwners && blockOwners[va] != f {
          break;
        }
        if va != start && va in known {
          stop := [Edge(va, Fallthrough)];
          break;
        }
        exitVa := va;
        instrs := instrs + [dec];
        if !dec.flow.Next? {
          break;
        }
        WalkedNext(run, instrs[..|instrs| - 1], dec,
                   StraightRun(code, blockOwners, known, f, start, dec.NextIp()), start, va);
        va := dec.NextIp();
      }
    }

    /**
     * Decodes the block at `start` for function `f` and enters it into `blocks`, claiming its flow
     * targets and recording its callees.
     */
    method DecodeBlock(
      start: u64, f: u64, blocks: map<u64, BasicBlock>, blockQueue: seq<u64>, functionWorklist: seq<u64>
    ) returns (decoded: map<u64, BasicBlock>, queue: seq<u64>, worklist: seq<u64>)
      requires code.Valid()
      requires blocks.Keys <= blockOwners.Keys
      modifies this`blockOwners, this`functionEntries
      ensures
        var b := DecodedBlock(code, old(blockOwners), blocks.Keys, old(functionEntries), f, start);
        && decoded == blocks[start := b]
        && Now(queue, worklist) == AllEntered(old(Now(blockQueue, functionWorklist)), f, b.successors)
    {
      queue, worklist := blockQueue, functionWorklist;
      ghost var books := Now(blockQueue, functionWorklist);
      ghost var edges := DecodedBlock(code, blockOwners, blocks.Keys, functionEntries, f, start).successors;
      var instrs, exitVa, successors := WalkBlock(start, f, blocks.Keys);
      if instrs != [] && !instrs[|instrs| - 1].flow.Next? {
        successors, queue, worklist := EndBlock(instrs[|instrs| - 1], f, queue, worklist);
        assert successors == edges;
      } else {
        assert successors == edges;
        StopEntersNothing(code, blocks.Keys, f, start, RunEnd(start, instrs), books);
      }
      decoded := blocks[start := BasicBlock(start, exitVa, |instrs|, successors, [])];
    }

    /** Turns edges that leave the function downwards into tail calls, block by block. */
    method RewriteForeignEdges(blocks: seq<BasicBlock>, f: u64) returns (r: seq<BasicBlock>)
      ensures |r| == |blocks|
      ensures forall i :: 0 <= i < |r| ==> r[i] == blocks[i].(successors := AllRetargeted(f, blocks[i].successors))
    {
      r := blocks;
      var n := 0;
      while n < |r|
        invariant n <= |r| == |blocks|
        invariant forall i :: 0 <= i < n ==> r[i] == blocks[i].(successors := AllRetargeted(f, blocks[i].successors))
        invariant forall i :: n <= i < |r| ==> r[i] == blocks[i]
      {
        var edges := r[n].successors;
        var k := 0;
        while k < |edges|
          invariant k <= |edges| == |r[n].successors|
          invariant forall i :: 0 <= i < k ==> edges[i] == Retargeted(f, r[n].successors[i])
          invariant forall i :: k <= i < |edges| ==> edges[i] == r[n].successors[i]
        {
          if edges[k].target != 0 && edges[k].target < f {
            edges := edges[k := edges[k].(kind := TailCall)];
          }
          k := k + 1;
        }
        assert edges == AllRetargeted(f, r[n].successors);
        r := r[n := r[n].(successors := edges)];
        n := n + 1;
      }
    }

    /** The block worklist of one function: decodes until nothing it owns is left undecoded. */
    method Descend(entry: u64, functionWorklist: seq<u64>)
      returns (blocks: map<u64, BasicBlock>, worklist: seq<u64>)
      requires code.Valid()
      requires Descent(code, View(), View(), entry, map[], [entry], functionWorklist, functionWorklist)
      modifies this`blockOwners, this`functionEntries
      ensures Descent(code, old(View()), View(), entry, blocks, [], functionWorklist, worklist)
      ensures Decoding(blocks, Now([], worklist)) ==
        Descended(code, entry, map[], old(Now([entry], functionWorklist)))
    {
      hide Descent, DecodedBlock, AllEntered, StraightRun, Code.Reachable, Descended;
      ghost var before := View();
      blocks, worklist := map[], functionWorklist;
      var blockQueue := [entry];
      while blockQueue != []
        invariant Descent(code, before, View(), entry, blocks, blockQueue, functionWorklist, worklist)
        invariant Descended(code, entry, blocks, Now(blockQueue, worklist)) ==
          Descended(code, entry, map[], old(Now([entry], functionWorklist)))
        decreases code.Reachable() - blockOwners.Keys, |blockQueue|
      {
        var start := blockQueue[0];
        assert blockQueue == [start] + blockQueue[1..];
        DescendedNext(code, entry, blocks, Now(blockQueue, worklist), start, blockQueue[1..]);
        blockQueue := blockQueue[1..];
        DescentOwns(code, before, View(), entry, blocks, start, blockQueue, functionWorklist, worklist);
        if start in blocks {
          continue;
        }
        if start in blockOwners && blockOwners[start] != entry {
          continue;
        }
        blockOwners := if start in blockOwners then blockOwners else blockOwners[start := entry];
        DescentStep(code, before, View(), entry, blocks, start, Now(blockQueue, worklist), functionWorklist);
        blocks, blockQueue, worklist := DecodeBlock(start, entry, blocks, blockQueue, worklist);
      }
      DescendedEnd(code, entry, blocks, Now([], worklist));
    }

    /** Discovers the function at `entry`, unless another function owns that address. */
    method DiscoverFunction(entry: u64, functionWorklist: seq<u64>) returns (worklist: seq<u64>)
      requires code.Valid() && Partitioned(View()) && entry !in functions
      modifies this
      ensures Partitioned(View()) && Grows(old(View()), View())
      ensures QueuedNew(functionWorklist, worklist, functionEntries - old(functionEntries))
      ensures functionEntries <= old(functionEntries) + code.Reachable()
      ensures Settled(View(), entry)
      ensures functions.Keys <= old(functions).Keys + {entry}
      ensures entry in functions ==> FunctionSound(code, functionEntries, blockOwners, functions[entry])
      ensures HardSafe(code, old(functionEntries)) && HardKept(code, old(blockOwners)) ==> HardKept(code, blockOwners)
      ensures Pass(View(), worklist) == WithFunction(code, old(View()), entry, functionWorklist)
    {
      hide Descended, Descent, Partitioned, FunctionSound, HardKept, HardSafe, WellPlaced, Ascending, AllReady, Starts, Gained;
      worklist := functionWorklist;
      if entry in blockOwners {
        if blockOwners[entry] != entry {
          NothingDiscovered(View(), functionWorklist);
          return;
        }
      } else {
        blockOwners := blockOwners[entry := entry];
      }
      ghost var claimed := View();
      EntryClaimed(code, old(View()), View(), entry, functionWorklist);
      var blocks;
      blocks, worklist := Descend(entry, functionWorklist);
      ghost var descended := View();
      DescentDone(code, claimed, descended, entry, blocks, functionWorklist, worklist);
      var listed := Listed(blocks, entry);
      var retargeted := RewriteForeignEdges(listed, entry);
      RetargetedAscends(blocks, entry, retargeted);
      var finished := ComputePredecessors(retargeted);
      FinishedSound(code, functionEntries, blockOwners, entry, blocks, retargeted, finished);
      assert Function(entry, finished) == Finished(entry, blocks) by {
        FinishedIs(entry, blocks, retargeted, finished);
      }
      functions := functions[entry := Function(entry, finished)];
      FunctionAdded(code, old(View()), claimed, descended, entry, blocks, Function(entry, finished),
        functionWorklist, worklist);
    }

    /** Discovers every function on the worklist and everything those discoveries record. */
    method Drain(seeds: seq<u64>)
      requires code.Valid() && Partitioned(View())
      modifies this
      ensures Drained(code, old(View()), View(), seeds, [])
      ensures View() == AllFound(code, old(View()), seeds)
    {
      hide AllFound, WithFunction, Drained, Partitioned, Grows, Settled, Code.Reachable;
      ghost var before := View();
      DrainStart(code, before, seeds);
      var worklist := seeds;
      while worklist != []
        invariant Drained(code, before, View(), seeds, worklist)
        invariant AllFound(code, View(), worklist) == AllFound(code, before, seeds)
        decreases code.Reachable() - functionEntries, |worklist|
      {
        var entry := worklist[0];
        assert worklist == [entry] + worklist[1..];
        worklist := worklist[1..];
        ghost var mid, pending := View(), worklist;
        AllFoundNext(code, mid, entry, worklist);
        DrainPartitioned(code, before, mid, seeds, [entry] + worklist);
        if entry in functions {
          DrainSkip(code, before, mid, seeds, entry, worklist);
          continue;
        }
        if !code.space.IsExecutableVa(entry) {
          DrainSkip(code, before, mid, seeds, entry, worklist);
          continue;
        }
        worklist := DiscoverFunction(entry, worklist);
        DrainStep(code, before, mid, View(), seeds, entry, pending, worklist);
      }
      AllFoundEnd(code, View());
    }

    /** Main pass: recursive descent from the seeds and their direct callees. */
    method Run(seeds: seq<u64>)
      requires code.Valid()
      requires View() == State(set s | s in seeds, map[], map[])
      modifies this
      ensures Complete(code, View())
      ensures old(functionEntries) <= functionEntries
      ensures HardSafe(code, old(functionEntries)) ==> HardKept(code, blockOwners)
      ensures View() == MainPass(code, seeds)
    {
      Drain(seeds);
    }

    /** Records candidates as function entries; the new ones are what is left to discover. */
    method Record(candidates: seq<u64>) returns (worklist: seq<u64>)
      modifies this`functionEntries
      ensures functionEntries == old(functionEntries) + set c | c in candidates
      ensures forall c :: c in worklist <==> c in candidates && c !in old(functionEntries)
      ensures Pass(View(), worklist) == Recorded(old(View()), candidates)
    {
      worklist := [];
      var n := 0;
      while n < |candidates|
        invariant n <= |candidates|
        invariant functionEntries == old(functionEntries) + set c | c in candidates[..n]
        invariant forall c :: c in worklist <==> c in candidates[..n] && c !in old(functionEntries)
        invariant Pass(View(), worklist) == Recorded(old(View()), candidates[..n])
      {
        assert candidates[..n + 1] == candidates[..n] + [candidates[n]];
        assert candidates[..n + 1][..n] == candidates[..n];
        if candidates[n] !in functionEntries {
          functionEntries := functionEntries + {candidates[n]};
          worklist := worklist + [candidates[n]];
        }
        n := n + 1;
      }
      assert candidates[..n] == candidates;
    }

    /** Unclaimed executable instructions that directly follow `int3` padding. */
    method GapCandidates() returns (candidates: seq<u64>)
      ensures forall i :: AfterPadding(code.index.instrs, i) ==>
        var va := code.index.instrs[i].ip;
        va in functions || va in blockOwners || !code.space.IsExecutableVa(va) || va in candidates
      ensures forall va :: va in candidates ==>
        && va !in functions && va !in blockOwners && code.space.IsExecutableVa(va)
        && exists i :: AfterPadding(code.index.instrs, i) && code.index.instrs[i].ip == va
      ensures candidates == GapList(code, View(), |code.index.instrs|)
    {
      candidates := [];
      var prevWasInt3 := false;
      var n := 0;
      while n < |code.index.instrs|
        invariant n <= |code.index.instrs|
        invariant prevWasInt3 == (n > 0 && code.index.instrs[n - 1].isInt3)
        invariant candidates == GapList(code, View(), n)
        invariant forall i :: i < n && AfterPadding(code.index.instrs, i) ==>
          var va := code.index.instrs[i].ip;
          va in functions || va in blockOwners || !code.space.IsExecutableVa(va) || va in candidates
        invariant forall va :: va in candidates ==>
          && va !in functions && va !in blockOwners && code.space.IsExecutableVa(va)
          && exists i :: AfterPadding(code.index.instrs, i) && code.index.instrs[i].ip == va
      {
        var dec := code.index.instrs[n];
        if dec.isInt3 {
          prevWasInt3 := true;
        } else {
          if prevWasInt3 && dec.ip !in functions && dec.ip !in blockOwners && code.space.IsExecutableVa(dec.ip) {
            assert AfterPadding(code.index.instrs, n);
            candidates := candidates + [dec.ip];
          }
          prevWasInt3 := false;
        }
        n := n + 1;
      }
    }

    /** Second pass: leaf functions behind `int3` padding that nothing calls. */
    method SeedInt3GapLeaves()
      requires code.Valid() && Complete(code, View())
      modifies this
      ensures Complete(code, View()) && Grows(old(View()), View())
      ensures GapsCovered(code, View())
      ensures HardSafe(code, old(functionEntries)) && HardKept(code, old(blockOwners)) ==> HardKept(code, blockOwners)
      ensures View() == PaddingPass(code, old(View()))
    {
      hide AllFound, Recorded, GapList;
      var candidates := GapCandidates();
      var worklist := Record(candidates);
      ghost var recorded := View();
      Drain(worklist);
      GapsClosed(code, old(View()), recorded, View(), candidates, worklist);
    }

    /** Walks back from instruction `idx` to the start of the code behind the nearest padding. */
    method FilterStart(idx: nat) returns (k: nat)
      requires idx < |code.index.instrs|
      ensures IsFilterStart(code.index.instrs, idx, k)
    {
      k := idx;
      var j := idx;
      while j > 0
        invariant j == k <= idx
        invariant forall i :: k <= i < idx ==> !code.index.instrs[i].isInt3
      {
        j := j - 1;
        if code.index.instrs[j].isInt3 {
          k := j + 1;
          break;
        }
        k := j;
      }
    }

    /** Start addresses of the leaves that compare against the access-violation code. */
    method FilterCandidates() returns (candidates: seq<u64>)
      ensures forall va :: va in candidates <==> IsFilterCandidate(code, va)
      ensures forall i, j :: 0 <= i < j < |candidates| ==> candidates[i] < candidates[j]
      ensures candidates == AscendingSeq(FilterSet(code))
      ensures forall va :: va in candidates ==> code.space.IsExecutableVa(va)
    {
      var found: set<u64> := {};
      var n := 0;
      while n < |code.index.instrs|
        invariant n <= |code.index.instrs|
        invariant forall va :: va in found <==> IsFilterCandidateBelow(code, va, n)
      {
        if code.index.instrs[n].hasAvImmediate {
          var k := FilterStart(n);
          FilterStartUnique(code.index.instrs, n, k);
          if code.space.IsExecutableVa(code.index.instrs[k].ip) {
            found := found + {code.index.instrs[k].ip};
          }
        }
        n := n + 1;
      }
      assert found == FilterSet(code);
      candidates := AscendingSeq(found);
    }

    /** Takes everything at or above `entry` away from the function that swallowed it. */
    method Carve(entry: u64)
      modifies this`blockOwners, this`functions
      ensures View() == Carved(old(View()), entry)
    {
      if entry !in functions && entry in blockOwners && blockOwners[entry] != entry {
        var owner := blockOwners[entry];
        blockOwners := map a | a in blockOwners && !(blockOwners[a] == owner && a >= entry) :: blockOwners[a];
        if owner in functions {
          functions := functions[owner := functions[owner].(blocks := Below(functions[owner].blocks, entry))];
        }
      }
    }

    /** Third pass: carve out and discover exception filters that only scope tables refer to. */
    method SeedAccessViolationFilterLeaves()
      requires code.Valid() && Partitioned(View()) && AllReadable(code, View())
      modifies this
      ensures Partitioned(View()) && AllReadable(code, View())
      ensures old(functions).Keys <= functions.Keys && old(functionEntries) <= functionEntries
      ensures forall va :: IsFilterCandidate(code, va) ==> va in functionEntries
      ensures forall va :: IsFilterCandidate(code, va) && va !in old(functionEntries) ==> Settled(View(), va)
      ensures HardSafe(code, old(functionEntries)) && HardKept(code, old(blockOwners)) ==> HardKept(code, blockOwners)
      ensures View() == FilterPass(code, old(View()))
      ensures Complete(code, old(View())) && (forall va :: IsFilterCandidate(code, va) ==> !Swallowed(old(View()), va)) ==>
        Complete(code, View()) && Grows(old(View()), View())
      ensures Complete(code, View()) <==>
        Unharmed(code, AllCarved(old(View()), AscendingSeq(FilterSet(code))), View())
      ensures Harmless(code, AllCarved(old(View()), AscendingSeq(FilterSet(code)))) ==> Complete(code, View())
    {
      hide Harmless, Unharmed, AllFound, Recorded, AllCarved, Carved, Partitioned, AllReadable, Drained, Complete, HardKept, IsFilterCandidate;
      var candidates := FilterCandidates();
      NoneCarved(View(), candidates[..0]);
      var n := 0;
      while n < |candidates|
        invariant n <= |candidates|
        invariant Partitioned(View()) && AllReadable(code, View())
        invariant functionEntries == old(functionEntries) && functions.Keys == old(functions).Keys
        invariant HardKept(code, old(blockOwners)) ==> HardKept(code, blockOwners)
        invariant View() == AllCarved(old(View()), candidates[..n])
      {
        AllCarvedNext(old(View()), candidates, n);
        CarveKeepsPartition(code, View(), candidates[n]);
        Carve(candidates[n]);
        n := n + 1;
      }
      assert candidates[..n] == candidates;
      ghost var carved := View();
      var worklist := Record(candidates);
      ghost var recorded := View();
      assert carved == recorded.(entries := old(functionEntries));
      RecordReadable(code, old(functionEntries), recorded);
      Drain(worklist);
      FiltersDrained(code, old(View()), carved, recorded, View(), candidates, worklist);
      DrainedFacts(code, recorded, View(), worklist);
    }
  }

  /** What draining the carved candidates does to completeness. */
  lemma FiltersDrained(
    code: Code, before: State, carved: State, recorded: State, end: State, candidates: seq<u64>, worklist: seq<u64>)
    requires code.Valid() && Partitioned(carved) && AllReadable(code, carved)
    requires carved == AllCarved(before, candidates) && carved.entries == before.entries
    requires forall va :: va in candidates <==> IsFilterCandidate(code, va)
    requires recorded == carved.(entries := before.entries + set c | c in candidates)
    requires forall c :: c in worklist <==> c in candidates && c !in before.entries
    requires Drained(code, recorded, end, worklist, [])
    ensures AllReadable(code, end) && (Complete(code, end) <==> Unharmed(code, carved, end))
    ensures Harmless(code, carved) ==> Complete(code, end)
    ensures Complete(code, before) && (forall va :: IsFilterCandidate(code, va) ==> !Swallowed(before, va)) ==>
      Complete(code, end) && Grows(before, end)
  {
    hide Harmless, Unharmed, AllCarved, Partitioned, AllReadable, Drained, Complete, IsFilterCandidate, Grows, Swallowed;
    assert carved == recorded.(entries := before.entries);
    RecordReadable(code, before.entries, recorded);
    DrainedReadable(code, recorded, end, worklist);
    CompleteAgainIff(code, carved, recorded, end, worklist);
    if Harmless(code, carved) {
      HarmlessSuffices(code, carved, recorded, end, worklist);
    }
    if forall va :: IsFilterCandidate(code, va) ==> !Swallowed(before, va) {
      NoneCarved(before, candidates);
      if Complete(code, before) {
        DrainedComplete(code, before, recorded, end, worklist);
      }
    }
  }

  /** The flow edges of every listed block still lead to owned addresses. */
  ghost predicate FlowsStay(owners: map<u64, u64>, f: u64, blocks: seq<BasicBlock>) {
    forall b, e :: b in blocks && e in b.successors ==> FlowClosed(owners, f, e)
  }

  /**
   * What carving left intact, judged once its candidates are discovered: every function of the carved
   * table has its entry and predecessor lists that agree, its flow edges lead to owned addresses, and
   * every recorded entry is a function or owned.
   */
  ghost predicate Unharmed(code: Code, carved: State, end: State) {
    && (forall f :: f in carved.functions ==>
         && f in carved.owners && carved.owners[f] == f
         && Agree(carved.functions[f].blocks)
         && FlowsStay(end.owners, f, carved.functions[f].blocks))
    && (forall e :: e in carved.entries && code.space.IsExecutableVa(e) ==> e in carved.functions || e in end.owners)
  }

  lemma SoundAgainIff(code: Code, carved: State, end: State, f: u64)
    requires code.Valid() && Partitioned(carved) && Partitioned(end) && AllReadable(code, carved) && Grows(carved, end)
    requires f in carved.functions
    ensures FunctionSound(code, end.entries, end.owners, end.functions[f]) <==>
      && f in carved.owners && carved.owners[f] == f
      && Agree(carved.functions[f].blocks)
      && FlowsStay(end.owners, f, carved.functions[f].blocks)
  {
    hide RunFaithful, EdgesComplete, LastInstr, FinalMeaning, Agree, FlowClosed;
    var fn := carved.functions[f];
    assert end.functions[f] == fn && fn.entryVa == f;
    if f in end.owners && end.owners[f] == f {
      assert f in FromEntry(OwnedBy(end.owners, f), f);
      assert f in Starts(fn.blocks);
      assert f in FromEntry(OwnedBy(carved.owners, f), f);
    }
    forall b | b in fn.blocks ensures BlockReadable(code, end.entries, f, b) {
      assert BlockReadable(code, carved.entries, f, b);
      ReadableMonotone(code, carved.entries, end.entries, f, b);
    }
  }

  /** After the filter pass the table is complete exactly when carving harmed nothing. */
  lemma CompleteAgainIff(code: Code, carved: State, recorded: State, end: State, worklist: seq<u64>)
    requires code.Valid() && Partitioned(carved) && AllReadable(code, carved)
    requires recorded == carved.(entries := recorded.entries) && carved.entries <= recorded.entries
    requires forall e :: e in recorded.entries && e !in carved.entries ==> e in worklist
    requires Drained(code, recorded, end, worklist, [])
    ensures Complete(code, end) <==> Unharmed(code, carved, end)
  {
    hide Partitioned, FunctionSound, AllReadable, Agree, FlowsStay, HardKept;
    forall f | f in carved.functions
      ensures FunctionSound(code, end.entries, end.owners, end.functions[f]) <==>
        && f in carved.owners && carved.owners[f] == f
        && Agree(carved.functions[f].blocks)
        && FlowsStay(end.owners, f, carved.functions[f].blocks)
    {
      SoundAgainIff(code, carved, end, f);
    }
    if AllSound(code, end) {
      EntriesOwned(code, end);
    }
  }

  /** A candidate that discovery is about to see for the first time. */
  ghost predicate Unrecorded(code: Code, carved: State, va: u64) {
    va !in carved.entries && IsFilterCandidate(code, va)
  }

  /**
   * What carving left intact, judged before its candidates are discovered: every function has its entry
   * and predecessor lists that agree, its flow edges lead to owned addresses or to candidates above its
   * entry that are not recorded yet, and every recorded entry is a function or owned.
   */
  ghost predicate Harmless(code: Code, carved: State) {
    && (forall f :: f in carved.functions ==>
         && f in carved.owners && carved.owners[f] == f
         && Agree(carved.functions[f].blocks)
         && forall b, e :: b in carved.functions[f].blocks && e in b.successors ==>
              FlowClosed(carved.owners, f, e) || (e.target >= f && Unrecorded(code, carved, e.target)))
    && (forall e :: e in carved.entries && code.space.IsExecutableVa(e) ==> e in carved.functions || e in carved.owners)
  }

  /** What is harmless before the candidates are discovered is unharmed afterwards. */
  lemma HarmlessSuffices(code: Code, carved: State, recorded: State, end: State, worklist: seq<u64>)
    requires code.Valid() && Harmless(code, carved)
    requires recorded == carved.(entries := recorded.entries)
    requires forall va :: Unrecorded(code, carved, va) ==> va in worklist
    requires Drained(code, recorded, end, worklist, [])
    ensures Unharmed(code, carved, end)
  {
    hide Partitioned, Agree, HardKept, BlockSound, IsFilterCandidate;
    forall va | Unrecorded(code, carved, va) ensures va in end.owners {
      CandidateExecutable(code, va);
      assert Settled(end, va);
      if va in end.functions && va !in carved.functions {
        assert FunctionSound(code, end.entries, end.owners, end.functions[va]);
        DrainedNamed(code, recorded, end, worklist, va);
      }
    }
    forall f | f in carved.functions ensures FlowsStay(end.owners, f, carved.functions[f].blocks) {
      forall b, e | b in carved.functions[f].blocks && e in b.successors ensures FlowClosed(end.owners, f, e) {
      }
    }
  }

  lemma CandidateExecutable(code: Code, va: u64)
    requires IsFilterCandidate(code, va)
    ensures code.space.IsExecutableVa(va)
  {
  }

  lemma DrainedNamed(code: Code, before: State, now: State, seeds: seq<u64>, f: u64)
    requires code.Valid() && Drained(code, before, now, seeds, []) && f in now.functions
    ensures now.functions[f].entryVa == f
  {
  }

  lemma EntriesOwned(code: Code, s: State)
    requires code.Valid() && Partitioned(s) && AllSound(code, s)
    ensures forall e :: Settled(s, e) <==> e in s.owners
  {
    forall e | e in s.functions ensures e in s.owners {
      assert FunctionSound(code, s.entries, s.owners, s.functions[e]);
    }
  }

  lemma AllCarvedNext(s: State, candidates: seq<u64>, n: nat)
    requires n < |candidates|
    ensures AllCarved(s, candidates[..n + 1]) == Carved(AllCarved(s, candidates[..n]), candidates[n])
  {
    assert candidates[..n + 1][..n] == candidates[..n];
  }

  lemma {:induction false} NoneCarved(s: State, candidates: seq<u64>)
    requires forall va :: va in candidates ==> !Swallowed(s, va)
    ensures AllCarved(s, candidates) == s
  {
    if candidates != [] {
      NoneCarved(s, candidates[..|candidates| - 1]);
      assert candidates[|candidates| - 1] in candidates;
    }
  }

  lemma DrainedFacts(code: Code, before: State, now: State, seeds: seq<u64>)
    requires code.Valid() && Drained(code, before, now, seeds, [])
    ensures Partitioned(now) && before.functions.Keys <= now.functions.Keys && before.entries <= now.entries
    ensures forall e :: e in seeds && code.space.IsExecutableVa(e) ==> Settled(now, e)
    ensures HardSafe(code, before.entries) && HardKept(code, before.owners) ==> HardKept(code, now.owners)
  {
    hide Partitioned, FunctionSound, HardKept;
  }

  lemma FilterStartUnique(instrs: seq<Instr>, idx: nat, k: nat)
    requires idx < |instrs| && IsFilterStart(instrs, idx, k)
    ensures forall j: nat :: IsFilterStart(instrs, idx, j) ==> j == k
  {
  }

  /** Every executable instruction behind padding belongs to some function. */
  ghost predicate GapsCovered(code: Code, s: State) {
    forall i :: AfterPadding(code.index.instrs, i) && code.space.IsExecutableVa(code.index.instrs[i].ip) ==>
      code.index.instrs[i].ip in s.owners
  }

  /** The state the main pass and the padding pass both end in. */
  ghost predicate Complete(code: Code, s: State)
    requires code.Valid()
  {
    Partitioned(s) && AllSound(code, s) && Accounted(code, s, [])
  }

  lemma FinishedIs(f: u64, blocks: map<u64, BasicBlock>, retargeted: seq<BasicBlock>, finished: seq<BasicBlock>)
    requires |retargeted| == |Listed(blocks, f)|
    requires forall i :: 0 <= i < |retargeted| ==>
      retargeted[i] == Listed(blocks, f)[i].(successors := AllRetargeted(f, Listed(blocks, f)[i].successors))
    requires Gained(retargeted, finished, (to: u64) => AllInto(retargeted, to))
    ensures Function(f, finished) == Finished(f, blocks)
  {
    hide AllInto, Listed;
    assert retargeted == RetargetedBlocks(f, Listed(blocks, f));
    assert finished == WithPredecessors(retargeted);
  }

  // ---------------------------------------------------------------- one descent, step by step

  /** Hard entries are recorded entries and no indirect call falls into one. */
  ghost predicate HardSafe(code: Code, entries: set<u64>) {
    code.hardEntries <= entries && NoIndirectCallBeforeHard(code)
  }

  /** A block as decoded: faithful, with every flow target owned by someone. */
  ghost predicate BlockReady(code: Code, entries: set<u64>, owners: map<u64, u64>, f: u64, b: BasicBlock)
    requires code.Valid()
  {
    && b.predecessors == []
    && BlockFaithful(code, entries, f, b)
    && forall e :: e in b.successors && e.IsFlow() ==> e.target != 0 && e.target in owners
  }

  /** `f` owns exactly the addresses it has decoded or queued, on top of what others owned. */
  ghost predicate Frontier(before: map<u64, u64>, owners: map<u64, u64>, f: u64, decoded: set<u64>, queue: seq<u64>) {
    && Extends(before, owners)
    && (forall a :: a in owners && a !in before ==> owners[a] == f)
    && (forall a :: a in decoded || a in queue <==> a in owners && owners[a] == f)
  }

  ghost predicate AllReady(
    code: Code, entries: set<u64>, owners: map<u64, u64>, f: u64, blocks: map<u64, BasicBlock>)
    requires code.Valid()
  {
    forall s :: s in blocks ==> blocks[s].entryVa == s && BlockReady(code, entries, owners, f, blocks[s])
  }

  /**
   * The state in the middle of discovering `f`, which claimed its entry in `before`: everything it
   * owns is decoded or queued, and every newly recorded entry is on the function worklist.
   */
  ghost predicate Descent(
    code: Code, before: State, now: State, f: u64, blocks: map<u64, BasicBlock>, queue: seq<u64>,
    worklist0: seq<u64>, worklist: seq<u64>)
    requires code.Valid()
  {
    && before.entries <= now.entries <= before.entries + code.Reachable()
    && now.functions == before.functions
    && Frontier(before.owners, now.owners, f, blocks.Keys, queue)
    && AllReady(code, now.entries, now.owners, f, blocks)
    && QueuedNew(worklist0, worklist, now.entries - before.entries)
    && (HardSafe(code, before.entries) && HardKept(code, before.owners) ==> HardKept(code, now.owners))
  }

  lemma ReadyMonotone(
    code: Code, entries: set<u64>, owners: map<u64, u64>, after: Books, f: u64, blocks: map<u64, BasicBlock>)
    requires code.Valid() && entries <= after.entries && owners.Keys <= after.owners.Keys
    requires AllReady(code, entries, owners, f, blocks)
    ensures AllReady(code, after.entries, after.owners, f, blocks)
  {
    hide RunFaithful, EdgesComplete, LastInstr;
    forall s | s in blocks ensures BlockReady(code, after.entries, after.owners, f, blocks[s]) {
      assert BlockReady(code, entries, owners, f, blocks[s]);
    }
  }

  lemma FrontierStep(
    before: map<u64, u64>, books: Books, after: Books, f: u64, decoded: set<u64>, start: u64, flows: set<u64>)
    requires Frontier(before, books.owners, f, decoded, [start] + books.blockQueue)
    requires ClaimEffect(books, after, f, flows)
    ensures Frontier(before, after.owners, f, decoded + {start}, after.blockQueue)
  {
    forall a
      ensures a in decoded + {start} || a in after.blockQueue <==> a in after.owners && after.owners[a] == f
    {
      assert a in [start] + books.blockQueue <==> a == start || a in books.blockQueue;
      if a in books.blockQueue {
        assert a in after.blockQueue;
      }
    }
  }

  lemma NewBlockReady(code: Code, mid: State, blocks: map<u64, BasicBlock>, f: u64, start: u64, after: Books)
    requires code.Valid() && AllReady(code, mid.entries, mid.owners, f, blocks)
    requires
      var b := DecodedBlock(code, mid.owners, blocks.Keys, mid.entries, f, start);
      && after.owners.Keys == mid.owners.Keys + FlowTargets(b.successors)
      && after.entries == mid.entries + CallTargets(b.successors)
    ensures
      var b := DecodedBlock(code, mid.owners, blocks.Keys, mid.entries, f, start);
      AllReady(code, after.entries, after.owners, f, blocks[start := b])
  {
    hide BlockFaithful, AllEntered;
    var b := DecodedBlock(code, mid.owners, blocks.Keys, mid.entries, f, start);
    DecodedBlockFaithful(code, mid.owners, blocks.Keys, mid.entries, f, start);
    forall e | e in b.successors && e.IsFlow() ensures e.target != 0 && e.target in after.owners {
      EdgesReachable(code, mid.owners, blocks.Keys, mid.entries, f, start, e);
      assert e.target in FlowTargets(b.successors);
    }
    ReadyMonotone(code, mid.entries, mid.owners, after, f, blocks);
  }

  lemma DecodeKeepsHard(code: Code, known: set<u64>, f: u64, start: u64, books: Books, b: BasicBlock)
    requires code.Valid() && b == DecodedBlock(code, books.owners, known, books.entries, f, start)
    requires HardSafe(code, books.entries) && HardKept(code, books.owners)
    ensures HardKept(code, AllEntered(books, f, b.successors).owners)
  {
    hide AllEntered, DecodedBlock;
    var after := AllEntered(books, f, b.successors);
    EnteredClaims(books, f, b.successors);
    forall h | h in code.hardEntries && h in after.owners && h !in books.owners ensures after.owners[h] == h {
      assert h in FlowTargets(b.successors);
      var e :| e in b.successors && e.IsFlow() && e.target == h;
      FlowAvoidsHard(code, books.owners, known, books.entries, f, start, e);
    }
  }

  /** A walk that stops short claims nothing: the block it ran into is owned already. */
  lemma StopEntersNothing(code: Code, known: set<u64>, f: u64, start: u64, va: u64, books: Books)
    requires code.Valid() && known <= books.owners.Keys
    ensures AllEntered(books, f, StopEdges(code, books.owners, known, f, start, va)) == books
  {
    var edges := StopEdges(code, books.owners, known, f, start, va);
    if edges != [] {
      var e := edges[0];
      assert e.IsFlow() ==> e.target in known;
      assert !e.kind.Call?;
      assert edges[..0] == [] && AllEntered(books, f, []) == books;
      assert edges[|edges| - 1] == e;
    }
  }

  /** Progress of a block walk: `instrs` is decoded, `rest` is still ahead from `va`. */
  ghost predicate Walked(run: seq<Instr>, instrs: seq<Instr>, rest: seq<Instr>, start: u64, va: u64, exitVa: u64) {
    && run == instrs + rest
    && va == RunEnd(start, instrs)
    && exitVa == (if instrs == [] then start else instrs[|instrs| - 1].ip)
    && (instrs != [] ==> instrs[|instrs| - 1].flow.Next?)
  }

  lemma WalkedNext(run: seq<Instr>, instrs: seq<Instr>, dec: Instr, rest: seq<Instr>, start: u64, va: u64)
    requires run == instrs + ([dec] + rest) && dec.flow.Next? && dec.ip == va
    ensures Walked(run, instrs + [dec], rest, start, dec.NextIp(), va)
  {
  }

  /** Whatever is queued is owned; a start that is decoded already can be dropped from the queue. */
  lemma DescentOwns(
    code: Code, before: State, now: State, f: u64, blocks: map<u64, BasicBlock>, start: u64, queue: seq<u64>,
    worklist0: seq<u64>, worklist: seq<u64>)
    requires code.Valid()
    requires Descent(code, before, now, f, blocks, [start] + queue, worklist0, worklist)
    ensures start in now.owners && now.owners[start] == f && blocks.Keys <= now.owners.Keys
    ensures start in blocks ==> Descent(code, before, now, f, blocks, queue, worklist0, worklist)
  {
    assert start in [start] + queue;
    assert forall a :: a in [start] + queue <==> a == start || a in queue;
  }

  /** Decoding the next queued block keeps the descent going and shrinks its measure. */
  lemma DescentStep(
    code: Code, before: State, mid: State, f: u64, blocks: map<u64, BasicBlock>, start: u64, books: Books,
    worklist0: seq<u64>)
    requires code.Valid()
    requires Descent(code, before, mid, f, blocks, [start] + books.blockQueue, worklist0, books.worklist)
    requires books.owners == mid.owners && books.entries == mid.entries
    ensures
      var b := DecodedBlock(code, mid.owners, blocks.Keys, mid.entries, f, start);
      var after := AllEntered(books, f, b.successors);
      && Descent(code, before, State(after.entries, after.owners, mid.functions), f, blocks[start := b],
                 after.blockQueue, worklist0, after.worklist)
      && code.Reachable() - after.owners.Keys <= code.Reachable() - mid.owners.Keys
      && (code.Reachable() - after.owners.Keys == code.Reachable() - mid.owners.Keys ==>
           after.blockQueue == books.blockQueue)
  {
    hide AllEntered, DecodedBlock, Code.Reachable, AllReady, Frontier;
    var b := DecodedBlock(code, mid.owners, blocks.Keys, mid.entries, f, start);
    var after := AllEntered(books, f, b.successors);
    EnteredClaims(books, f, b.successors);
    EnteredCalls(books, f, b.successors);
    FrontierStep(before.owners, books, after, f, blocks.Keys, start, FlowTargets(b.successors));
    NewBlockReady(code, mid, blocks, f, start, after);
    assert blocks[start := b].Keys == blocks.Keys + {start};
    DecodeProgress(code, blocks.Keys, f, start, books, b);
    QueuedTrans(worklist0, books.worklist, after.worklist, before.entries, mid.entries, after.entries);
    if HardSafe(code, before.entries) && HardKept(code, mid.owners) {
      DecodeKeepsHard(code, blocks.Keys, f, start, books, b);
    }
    if code.Reachable() - after.owners.Keys == code.Reachable() - mid.owners.Keys {
      forall a | a in after.owners ensures a in books.owners {
        assert a in code.Reachable() - mid.owners.Keys || a in books.owners;
      }
      assert after.owners.Keys == books.owners.Keys;
    }
  }

  // ---------------------------------------------------------------- finishing a function

  /** Claiming the entry of a function that does not exist yet starts its descent. */
  lemma EntryClaimed(code: Code, before: State, now: State, f: u64, worklist: seq<u64>)
    requires code.Valid() && Partitioned(before) && f !in before.functions
    requires now == before.(owners := if f in before.owners then before.owners else before.owners[f := f])
    requires f in now.owners && now.owners[f] == f
    ensures Descent(code, now, now, f, map[], [f], worklist, worklist)
    ensures HardKept(code, before.owners) ==> HardKept(code, now.owners)
  {
    assert now.entries - now.entries == {};
  }

  lemma RetargetedAscends(blocks: map<u64, BasicBlock>, f: u64, retargeted: seq<BasicBlock>)
    requires forall s :: s in blocks ==> blocks[s].entryVa == s
    requires |retargeted| == |Listed(blocks, f)|
    requires forall i :: 0 <= i < |retargeted| ==>
      retargeted[i] == Listed(blocks, f)[i].(successors := AllRetargeted(f, Listed(blocks, f)[i].successors))
    ensures Ascending(retargeted)
    ensures forall i :: 0 <= i < |retargeted| ==> retargeted[i].entryVa == ListedStarts(blocks, f)[i]
  {
    var starts := ListedStarts(blocks, f);
    forall i | 0 <= i < |retargeted| ensures retargeted[i].entryVa == starts[i] {
      assert starts[i] in starts;
    }
  }

  /** Retargeting and predecessor lists turn a decoded block into a sound one. */
  lemma FinishedBlockSound(
    code: Code, entries: set<u64>, owners: map<u64, u64>, f: u64, b: BasicBlock, done: BasicBlock)
    requires code.Valid() && BlockReady(code, entries, owners, f, b)
    requires done == b.(successors := AllRetargeted(f, b.successors), predecessors := done.predecessors)
    ensures BlockSound(code, entries, owners, f, done)
  {
    hide RunFaithful, LastInstr, OutTargets, EdgeMeaning;
    assert RunFaithful(code, f, done) by { hide *; FaithfulSame(code, f, b, done); }
    assert LastInstr(code, done) == LastInstr(code, b) by { FaithfulSame(code, f, b, done); }
    assert Targets(done.successors) == Targets(b.successors);
    forall e | e in done.successors
      ensures LastInstr(code, done).Some? && FinalMeaning(code, entries, f, LastInstr(code, done).value, e)
      ensures FlowClosed(owners, f, e)
    {
      var i :| 0 <= i < |done.successors| && done.successors[i] == e;
      var e0 := b.successors[i];
      assert e0 in b.successors;
      assert e == Retargeted(f, Edge(e.target, e0.kind));
      assert EdgeMeaning(code, entries, f, LastInstr(code, b).value, Edge(e.target, e0.kind));
      if e.IsFlow() {
        assert e0.IsFlow();
      }
    }
  }

  lemma FaithfulSame(code: Code, f: u64, b: BasicBlock, done: BasicBlock)
    requires code.Valid()
    requires done.entryVa == b.entryVa && done.exitVa == b.exitVa && done.instrCount == b.instrCount
    ensures RunFaithful(code, f, done) <==> RunFaithful(code, f, b)
    ensures LastInstr(code, done) == LastInstr(code, b)
  {
  }

  lemma FinishedStarts(
    owners: map<u64, u64>, f: u64, blocks: map<u64, BasicBlock>, finished: seq<BasicBlock>)
    requires blocks.Keys == OwnedBy(owners, f) && |finished| == |ListedStarts(blocks, f)|
    requires forall i :: 0 <= i < |finished| ==> finished[i].entryVa == ListedStarts(blocks, f)[i]
    ensures Starts(finished) == FromEntry(OwnedBy(owners, f), f)
  {
    var starts := ListedStarts(blocks, f);
    forall a ensures a in Starts(finished) <==> a in FromEntry(OwnedBy(owners, f), f) {
      if a in FromEntry(OwnedBy(owners, f), f) {
        assert a in starts;
        var i :| 0 <= i < |starts| && starts[i] == a;
        assert finished[i] in finished;
      }
      if a in Starts(finished) {
        var b :| b in finished && b.entryVa == a;
        var i :| 0 <= i < |finished| && finished[i] == b;
        assert starts[i] in starts;
      }
    }
  }

  /** The function built from a finished descent lists exactly what it owns, and all of it is sound. */
  lemma FinishedSound(
    code: Code, entries: set<u64>, owners: map<u64, u64>, f: u64, blocks: map<u64, BasicBlock>,
    retargeted: seq<BasicBlock>, finished: seq<BasicBlock>)
    requires code.Valid() && AllReady(code, entries, owners, f, blocks)
    requires f in owners && owners[f] == f
    requires blocks.Keys == OwnedBy(owners, f)
    requires |retargeted| == |Listed(blocks, f)| && Ascending(retargeted)
    requires forall i :: 0 <= i < |retargeted| ==>
      retargeted[i] == Listed(blocks, f)[i].(successors := AllRetargeted(f, Listed(blocks, f)[i].successors))
    requires Gained(retargeted, finished, (to: u64) => AllInto(retargeted, to))
    ensures WellPlaced(f, Function(f, finished))
    ensures Starts(finished) == FromEntry(OwnedBy(owners, f), f)
    ensures FunctionSound(code, entries, owners, Function(f, finished))
  {
    hide BlockReady, BlockSound, Agree, AllInto, Starts, FromEntry, OwnedBy;
    var starts := ListedStarts(blocks, f);
    forall i | 0 <= i < |finished|
      ensures finished[i].entryVa == starts[i] && finished[i].entryVa >= f
      ensures BlockSound(code, entries, owners, f, finished[i])
      ensures retargeted[i].predecessors == []
    {
      assert starts[i] in starts;
      var b := blocks[starts[i]];
      ReadyFacts(code, entries, owners, f, b);
      FinishedBlockSound(code, entries, owners, f, b, finished[i]);
    }
    FinishedStarts(owners, f, blocks, finished);
    RebuiltAgree(retargeted, finished);
  }

  lemma ReadyFacts(code: Code, entries: set<u64>, owners: map<u64, u64>, f: u64, b: BasicBlock)
    requires code.Valid() && BlockReady(code, entries, owners, f, b)
    ensures b.predecessors == []
  {
  }

  lemma NothingDiscovered(s: State, worklist: seq<u64>)
    ensures Grows(s, s) && QueuedNew(worklist, worklist, s.entries - s.entries)
  {
    assert s.entries - s.entries == {};
  }

  lemma DescentDone(
    code: Code, claimed: State, now: State, f: u64, blocks: map<u64, BasicBlock>, worklist0: seq<u64>, worklist: seq<u64>)
    requires code.Valid() && Descent(code, claimed, now, f, blocks, [], worklist0, worklist)
    requires f in claimed.owners && claimed.owners[f] == f
    ensures AllReady(code, now.entries, now.owners, f, blocks)
    ensures f in now.owners && now.owners[f] == f
    ensures blocks.Keys == OwnedBy(now.owners, f)
    ensures forall s :: s in blocks ==> blocks[s].entryVa == s
  {
    assert forall a :: a in blocks || a in [] <==> a in now.owners && now.owners[a] == f;
  }

  /** Entering a finished function keeps the ownership partition and everything discovered before. */
  lemma FunctionAdded(
    code: Code, before: State, claimed: State, now: State, f: u64, blocks: map<u64, BasicBlock>, fn: Function,
    worklist0: seq<u64>, worklist: seq<u64>)
    requires code.Valid() && Partitioned(before) && f !in before.functions
    requires claimed == before.(owners := if f in before.owners then before.owners else before.owners[f := f])
    requires f in claimed.owners && claimed.owners[f] == f
    requires Descent(code, claimed, now, f, blocks, [], worklist0, worklist)
    requires WellPlaced(f, fn) && Starts(fn.blocks) == FromEntry(OwnedBy(now.owners, f), f)
    ensures var end := now.(functions := now.functions[f := fn]);
      && Partitioned(end) && Grows(before, end)
      && QueuedNew(worklist0, worklist, end.entries - before.entries)
      && end.entries <= before.entries + code.Reachable()
      && end.functions.Keys <= before.functions.Keys + {f}
      && (HardSafe(code, before.entries) && HardKept(code, before.owners) ==> HardKept(code, end.owners))
  {
    hide AllReady, WellPlaced, Starts, Code.Reachable;
    var end := now.(functions := now.functions[f := fn]);
    forall g | g in before.functions
      ensures FromEntry(OwnedBy(end.owners, g), g) == FromEntry(OwnedBy(before.owners, g), g)
    {
      assert OwnedBy(end.owners, g) == OwnedBy(before.owners, g);
    }
  }

  // ---------------------------------------------------------------- draining the function worklist

  /**
   * Progress from `before` to `now` with `pending` still to do: the partition holds, what is new is
   * sound, and every executable seed or newly recorded entry is settled or pending.
   */
  ghost predicate Drained(code: Code, before: State, now: State, seeds: seq<u64>, pending: seq<u64>)
    requires code.Valid()
  {
    && Partitioned(now) && Grows(before, now)
    && now.entries <= before.entries + code.Reachable()
    && (forall f :: f in now.functions && f !in before.functions ==>
         FunctionSound(code, now.entries, now.owners, now.functions[f]))
    && (forall e :: (e in seeds || (e in now.entries && e !in before.entries)) && code.space.IsExecutableVa(e) ==>
         e in pending || Settled(now, e))
    && (HardSafe(code, before.entries) && HardKept(code, before.owners) ==> HardKept(code, now.owners))
  }

  lemma DrainStart(code: Code, before: State, seeds: seq<u64>)
    requires code.Valid() && Partitioned(before)
    ensures Drained(code, before, before, seeds, seeds)
  {
  }

  lemma DrainPartitioned(code: Code, before: State, now: State, seeds: seq<u64>, pending: seq<u64>)
    requires code.Valid() && Drained(code, before, now, seeds, pending)
    ensures Partitioned(now)
  {
  }

  lemma DrainSkip(code: Code, before: State, now: State, seeds: seq<u64>, entry: u64, pending: seq<u64>)
    requires code.Valid() && Drained(code, before, now, seeds, [entry] + pending)
    requires entry in now.functions || !code.space.IsExecutableVa(entry)
    ensures Drained(code, before, now, seeds, pending)
  {
    hide Partitioned, Grows, FunctionSound, Code.Reachable, HardSafe, HardKept;
    assert forall e :: e in [entry] + pending <==> e == entry || e in pending;
  }

  lemma DrainStep(
    code: Code, before: State, mid: State, now: State, seeds: seq<u64>, entry: u64,
    pending: seq<u64>, worklist: seq<u64>)
    requires code.Valid() && Drained(code, before, mid, seeds, [entry] + pending)
    requires Partitioned(now) && Grows(mid, now) && QueuedNew(pending, worklist, now.entries - mid.entries)
    requires now.entries <= mid.entries + code.Reachable() && Settled(now, entry)
    requires now.functions.Keys <= mid.functions.Keys + {entry}
    requires entry in now.functions ==> FunctionSound(code, now.entries, now.owners, now.functions[entry])
    requires HardSafe(code, mid.entries) && HardKept(code, mid.owners) ==> HardKept(code, now.owners)
    ensures Drained(code, before, now, seeds, worklist)
    ensures code.Reachable() - now.entries <= code.Reachable() - mid.entries
    ensures code.Reachable() - now.entries == code.Reachable() - mid.entries ==> worklist == pending
  {
    hide Partitioned, FunctionSound, Code.Reachable, HardKept;
    forall f | f in now.functions && f !in before.functions
      ensures FunctionSound(code, now.entries, now.owners, now.functions[f])
    {
      if f in mid.functions {
        SoundMonotone(code, mid, now, mid.functions[f]);
      }
    }
    assert forall e :: e in [entry] + pending <==> e == entry || e in pending;
    forall e | (e in seeds || (e in now.entries && e !in before.entries)) && code.space.IsExecutableVa(e)
      ensures e in worklist || Settled(now, e)
    {
      if e in now.entries && e !in mid.entries {
        assert e in now.entries - mid.entries;
      } else if e in pending {
        assert e in worklist;
      }
    }
    if code.Reachable() - now.entries == code.Reachable() - mid.entries {
      forall e | e in now.entries ensures e in mid.entries {
        assert e in code.Reachable() - mid.entries || e in mid.entries;
      }
      assert now.entries - mid.entries == {};
    }
  }

  /** Draining everything recorded keeps a complete state complete. */
  lemma DrainedComplete(code: Code, old0: State, recorded: State, now: State, worklist: seq<u64>)
    requires code.Valid() && Complete(code, old0)
    requires recorded == old0.(entries := recorded.entries) && old0.entries <= recorded.entries
    requires forall e :: e in recorded.entries && e !in old0.entries ==> e in worklist
    requires Drained(code, recorded, now, worklist, [])
    ensures Complete(code, now) && Grows(old0, now)
  {
    hide Partitioned, FunctionSound, Code.Reachable, HardKept;
    forall f | f in now.functions ensures FunctionSound(code, now.entries, now.owners, now.functions[f]) {
      if f in recorded.functions {
        SoundMonotone(code, old0, now, old0.functions[f]);
      }
    }
    forall e | e in now.entries && code.space.IsExecutableVa(e) ensures Settled(now, e) {
      if e in old0.entries {
        assert Settled(old0, e);
      }
    }
  }

  lemma GapsClosed(
    code: Code, old0: State, recorded: State, now: State, candidates: seq<u64>, worklist: seq<u64>)
    requires code.Valid() && Complete(code, old0)
    requires recorded == old0.(entries := old0.entries + set c | c in candidates)
    requires forall c :: c in worklist <==> c in candidates && c !in old0.entries
    requires Drained(code, recorded, now, worklist, [])
    requires forall i :: AfterPadding(code.index.instrs, i) ==>
      var va := code.index.instrs[i].ip;
      va in old0.functions || va in old0.owners || !code.space.IsExecutableVa(va) || va in candidates
    ensures Complete(code, now) && Grows(old0, now) && GapsCovered(code, now)
    ensures HardSafe(code, old0.entries) && HardKept(code, old0.owners) ==> HardKept(code, now.owners)
  {
    DrainedComplete(code, old0, recorded, now, worklist);
    forall i | AfterPadding(code.index.instrs, i) && code.space.IsExecutableVa(code.index.instrs[i].ip)
      ensures code.index.instrs[i].ip in now.owners
    {
      var va := code.index.instrs[i].ip;
      if va in candidates {
        assert va in recorded.entries;
        assert Settled(now, va);
      }
      if va in now.functions {
        assert FunctionSound(code, now.entries, now.owners, now.functions[va]);
      }
    }
  }

  // ---------------------------------------------------------------- carving

  /** What survives the loss of ownership: every listed block still describes the code it was read from. */
  ghost predicate BlockReadable(code: Code, entries: set<u64>, f: u64, b: BasicBlock)
    requires code.Valid()
  {
    && RunFaithful(code, f, b)
    && EdgesComplete(code, b)
    && forall e :: e in b.successors ==>
         LastInstr(code, b).Some? && FinalMeaning(code, entries, f, LastInstr(code, b).value, e)
  }

  ghost predicate AllReadable(code: Code, s: State)
    requires code.Valid()
  {
    forall f, b :: f in s.functions && b in s.functions[f].blocks ==> BlockReadable(code, s.entries, f, b)
  }

  lemma {:induction false} BelowAscends(blocks: seq<BasicBlock>, cut: u64)
    requires Ascending(blocks)
    ensures Ascending(Below(blocks, cut))
  {
    if blocks != [] {
      var front, last := blocks[..|blocks| - 1], blocks[|blocks| - 1];
      BelowAscends(front, cut);
      forall b | b in Below(front, cut) ensures b.entryVa < last.entryVa {
        var i :| 0 <= i < |front| && front[i] == b;
        assert blocks[i] == b;
      }
    }
  }

  /** Carving moves nothing to the wrong owner: lists and ownership still agree, and hard entries stay. */
  lemma CarveKeepsPartition(code: Code, s: State, entry: u64)
    requires code.Valid() && Partitioned(s) && AllReadable(code, s)
    ensures Partitioned(Carved(s, entry)) && AllReadable(code, Carved(s, entry))
    ensures Carved(s, entry).functions.Keys == s.functions.Keys
    ensures HardKept(code, s.owners) ==> HardKept(code, Carved(s, entry).owners)
  {
    hide BlockReadable;
    var t := Carved(s, entry);
    if t != s {
      var owner := s.owners[entry];
      BelowAscends(s.functions[owner].blocks, entry);
      forall f | f in t.functions
        ensures WellPlaced(f, t.functions[f]) && Starts(t.functions[f].blocks) == FromEntry(OwnedBy(t.owners, f), f)
      {
        CarvedStarts(s, entry, f);
      }
    }
  }

  lemma CarvedStarts(s: State, entry: u64, f: u64)
    requires Partitioned(s) && f in s.functions && Carved(s, entry) != s
    ensures f in Carved(s, entry).functions
    ensures Starts(Carved(s, entry).functions[f].blocks) == FromEntry(OwnedBy(Carved(s, entry).owners, f), f)
  {
    var t := Carved(s, entry);
    var owner := s.owners[entry];
    if f == owner {
      assert Starts(t.functions[f].blocks) == set a | a in Starts(s.functions[f].blocks) && a < entry;
      assert OwnedBy(t.owners, f) == set a | a in OwnedBy(s.owners, f) && a < entry;
    } else {
      assert OwnedBy(t.owners, f) == OwnedBy(s.owners, f);
    }
  }

  lemma RecordReadable(code: Code, entries: set<u64>, s: State)
    requires code.Valid() && entries <= s.entries
    requires AllReadable(code, s.(entries := entries))
    ensures AllReadable(code, s)
    ensures Partitioned(s.(entries := entries)) ==> Partitioned(s)
  {
    forall f, b | f in s.functions && b in s.functions[f].blocks ensures BlockReadable(code, s.entries, f, b) {
      assert BlockReadable(code, entries, f, b);
      ReadableMonotone(code, entries, s.entries, f, b);
    }
  }

  lemma ReadableMonotone(code: Code, small: set<u64>, large: set<u64>, f: u64, b: BasicBlock)
    requires code.Valid() && small <= large && BlockReadable(code, small, f, b)
    ensures BlockReadable(code, large, f, b)
  {
    hide RunFaithful, EdgesComplete, LastInstr, FinalMeaning;
    forall e | e in b.successors ensures FinalMeaning(code, large, f, LastInstr(code, b).value, e) {
      MeaningMonotone(code, small, large, f, LastInstr(code, b).value, e);
    }
  }

  /** Sound functions are readable, so draining keeps every block readable. */
  lemma DrainedReadable(code: Code, before: State, now: State, seeds: seq<u64>)
    requires code.Valid() && AllReadable(code, before) && Drained(code, before, now, seeds, [])
    ensures AllReadable(code, now)
  {
    hide RunFaithful, EdgesComplete, LastInstr, FinalMeaning, Settled, Code.Reachable;
    forall f, b | f in now.functions && b in now.functions[f].blocks ensures BlockReadable(code, now.entries, f, b) {
      if f in before.functions {
        assert BlockReadable(code, before.entries, f, b);
        ReadableMonotone(code, before.entries, now.entries, f, b);
      } else {
        assert now.functions[f].entryVa == f;
        assert BlockSound(code, now.entries, now.owners, f, b);
      }
    }
  }

  lemma SoundIsReadable(code: Code, s: State)
    requires code.Valid() && Partitioned(s) && AllSound(code, s)
    ensures AllReadable(code, s)
  {
    hide RunFaithful, EdgesComplete, LastInstr, FinalMeaning;
    forall f, b | f in s.functions && b in s.functions[f].blocks ensures BlockReadable(code, s.entries, f, b) {
      assert s.functions[f].entryVa == f;
      assert BlockSound(code, s.entries, s.owners, f, b);
    }
  }

  // ---------------------------------------------------------------- the whole discovery

  /** What holds of the function table that discovery returns. */
  ghost predicate Discovered(code: Code, s: State)
    requires code.Valid()
  {
    && Partitioned(s)
    && AllReadable(code, s)
    && forall va :: IsFilterCandidate(code, va) ==> va in s.entries
  }

  lemma StillCovered(code: Code, before: State, now: State)
    requires GapsCovered(code, before) && Grows(before, now)
    ensures GapsCovered(code, now)
  {
  }

  /** A seed nothing but jumps lead to is a function of its own. */
  lemma SeedSettled(code: Code, seeds: seq<u64>, s: State, seed: u64)
    requires code.Valid() && Accounted(code, s, []) && SeedsKept(code, (set e | e in seeds), s)
    requires seed in seeds && code.space.IsExecutableVa(seed) && !LedTo(code, seed)
    ensures seed in s.functions
  {
    hide LedTo;
    assert Settled(s, seed);
  }

  /**
   * All three passes. `mid` is the state after the descent and padding passes, where every
   * recorded entry is accounted for and every flow edge is closed; `end` is the final state.
   */
  method DiscoverFunctions(code: Code, seeds: seq<u64>)
    returns (functions: map<u64, Function>, ghost mid: State, ghost end: State)
    requires code.Valid()
    ensures functions == AllPasses(code, seeds).functions
    ensures mid == BeforeFilters(code, seeds) && end == AllPasses(code, seeds)
    ensures Complete(code, mid) && GapsCovered(code, mid)
    ensures (forall va :: IsFilterCandidate(code, va) ==> !Swallowed(mid, va)) ==>
      Complete(code, end) && GapsCovered(code, end)
    ensures Complete(code, end) <==> Unharmed(code, AllCarved(mid, AscendingSeq(FilterSet(code))), end)
    ensures Harmless(code, AllCarved(mid, AscendingSeq(FilterSet(code)))) ==> Complete(code, end)
    ensures (set s | s in seeds) <= mid.entries <= end.entries
    ensures Discovered(code, end) && functions == end.functions && mid.functions.Keys <= functions.Keys
    ensures forall va :: IsFilterCandidate(code, va) && va !in mid.entries ==> Settled(end, va)
    ensures HardSafe(code, set s | s in seeds) ==>
      HardKept(code, end.owners) &&
      forall h :: h in code.hardEntries && code.space.IsExecutableVa(h) ==> h in functions
    ensures forall s :: s in seeds && code.space.IsExecutableVa(s) && !LedTo(code, s) ==> s in functions
  {
    hide LedTo, Partitioned, AllSound, AllReadable, Accounted, GapsCovered, HardKept, IsFilterCandidate, MainPass, PaddingPass,
      FilterPass, Unharmed, Harmless, AllCarved;
    var discovery := new Discovery(code, seeds);
    discovery.Run(seeds);
    discovery.SeedInt3GapLeaves();
    mid := discovery.View();
    SoundIsReadable(code, mid);
    if HardSafe(code, set s | s in seeds) {
      forall h | h in code.hardEntries && code.space.IsExecutableVa(h) ensures h in mid.functions {
        HardEntriesAreFunctions(code, mid, h);
      }
    }
    JumpsKeepSeeds(code, seeds);
    forall s | s in seeds && code.space.IsExecutableVa(s) && !LedTo(code, s) ensures s in mid.functions {
      SeedSettled(code, seeds, mid, s);
    }
    discovery.SeedAccessViolationFilterLeaves();
    end := discovery.View();
    if forall va :: IsFilterCandidate(code, va) ==> !Swallowed(mid, va) {
      StillCovered(code, mid, end);
    }
    functions := discovery.functions;
  }
}
