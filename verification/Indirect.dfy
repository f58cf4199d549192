/** Indirect calls and jump tables: collected over the function table, then pushed into it. */
module Indirect {
  import opened Prelude
  import opened AddressSpaces
  import opened CodeIndexes
  import opened Functions
  import opened Predecessors

  const MAX_TABLE_SCAN_BYTES := 8 * 1024
  const MAX_TABLE_ENTRIES := 512
  const POINTER_BYTES := 8

  datatype XrefKind = CallRef | IndirectRef | DataRead

  datatype Xref = Xref(fromVa: u64, toVa: u64, kind: XrefKind)

  datatype Resolved = Resolved(functionEntry: u64, blockEntry: u64, jumpVa: u64, tableVa: u64, targetVa: u64)

  datatype Pass = Calls | Jumps
  {
    function Kind(): EdgeKind { if Calls? then EdgeKind.Call else EdgeKind.Indirect }

    function RefKind(): XrefKind { if Calls? then CallRef else IndirectRef }

    predicate Takes(flow: Flow) { if Calls? then flow.IndirectCall? else flow.IndirectBranch? }
  }

  /**
   * What both passes read. `slots` gives the memory operand of the near call or jump at an address
   * when it is relative to the instruction pointer; with 32-bit code there is none.
   */
  datatype Env = Env(index: CodeIndex, space: AddressSpace, image: seq<byte>, slots: u64 -> Option<u64>)

  // ---------------------------------------------------------------- pointers in the image

  /** Little-endian value of the first eight bytes. */
  function ReadU64(bytes: seq<byte>): u64
    requires |bytes| >= POINTER_BYTES
  {
    Word32(bytes[0], bytes[1], bytes[2], bytes[3])
    + 0x1_0000_0000 * Word32(bytes[4], bytes[5], bytes[6], bytes[7])
  }

  function ReadPointer(env: Env, va: u64): u64 {
    var bytes := env.space.SliceForVa(env.image, va, POINTER_BYTES);
    if bytes.None? then 0 else ReadU64(bytes.value)
  }

  predicate IsCode(env: Env, va: u64) { va != 0 && env.space.IsExecutableVa(va) }

  /** Entry `k` of a table of pointers. */
  function TableEntry(bytes: seq<byte>, k: nat): u64
    requires POINTER_BYTES * (k + 1) <= |bytes|
  {
    ReadU64(bytes[POINTER_BYTES * k..])
  }

  /**
   * `targets` is the table: entries lead to code, and it ends at the first that does not, at the
   * entry limit, or with the bytes.
   */
  ghost predicate IsTable(env: Env, bytes: seq<byte>, targets: seq<u64>) {
    && |targets| <= MAX_TABLE_ENTRIES && POINTER_BYTES * |targets| <= |bytes|
    && (forall k :: 0 <= k < |targets| ==> targets[k] == TableEntry(bytes, k) && IsCode(env, targets[k]))
    && (|targets| < MAX_TABLE_ENTRIES && POINTER_BYTES * (|targets| + 1) <= |bytes| ==>
         !IsCode(env, TableEntry(bytes, |targets|)))
  }

  /** A table is determined by its bytes. */
  lemma TableUnique(env: Env, bytes: seq<byte>, a: seq<u64>, b: seq<u64>)
    requires IsTable(env, bytes, a) && IsTable(env, bytes, b)
    ensures a == b
  {
    hide ReadU64, TableEntry, IsCode;
  }

  function TableFrom(env: Env, bytes: seq<byte>, k: nat): (r: seq<u64>)
    requires k <= MAX_TABLE_ENTRIES && POINTER_BYTES * k <= |bytes|
    ensures |r| <= MAX_TABLE_ENTRIES - k
    decreases MAX_TABLE_ENTRIES - k
  {
    if k == MAX_TABLE_ENTRIES || POINTER_BYTES * (k + 1) > |bytes| || !IsCode(env, TableEntry(bytes, k)) then []
    else [TableEntry(bytes, k)] + TableFrom(env, bytes, k + 1)
  }

  /** `read_pointer_table`: nothing at all unless the whole scan window is backed by the file. */
  function PointerTable(env: Env, va: u64): seq<u64> {
    var bytes := env.space.SliceForVa(env.image, va, MAX_TABLE_SCAN_BYTES);
    if bytes.None? then [] else TableFrom(env, bytes.value, 0)
  }

  lemma {:induction false} TableFromIsTable(env: Env, bytes: seq<byte>, before: seq<u64>, k: nat)
    requires k == |before| <= MAX_TABLE_ENTRIES && POINTER_BYTES * k <= |bytes|
    requires forall i :: 0 <= i < k ==> before[i] == TableEntry(bytes, i) && IsCode(env, before[i])
    ensures IsTable(env, bytes, before + TableFrom(env, bytes, k))
    decreases MAX_TABLE_ENTRIES - k
  {
    hide ReadU64, TableEntry, IsCode;
    if k == MAX_TABLE_ENTRIES || POINTER_BYTES * (k + 1) > |bytes| || !IsCode(env, TableEntry(bytes, k)) {
      assert before + TableFrom(env, bytes, k) == before;
    } else {
      var next := before + [TableEntry(bytes, k)];
      TableFromIsTable(env, bytes, next, k + 1);
      assert before + TableFrom(env, bytes, k) == next + TableFrom(env, bytes, k + 1);
    }
  }

  lemma TableIff(env: Env, bytes: seq<byte>, targets: seq<u64>)
    ensures IsTable(env, bytes, targets) <==> targets == TableFrom(env, bytes, 0)
  {
    hide IsTable, TableFrom;
    TableFromIsTable(env, bytes, [], 0);
    assert [] + TableFrom(env, bytes, 0) == TableFrom(env, bytes, 0);
    if IsTable(env, bytes, targets) {
      TableUnique(env, bytes, targets, TableFrom(env, bytes, 0));
    }
  }

  /** With the scan window in the file the result is the table and nothing else is; without it, nothing. */
  lemma PointerTableIff(env: Env, va: u64)
    ensures var bytes := env.space.SliceForVa(env.image, va, MAX_TABLE_SCAN_BYTES);
      if bytes.None? then PointerTable(env, va) == []
      else forall targets :: IsTable(env, bytes.value, targets) <==> targets == PointerTable(env, va)
  {
    hide IsTable, TableFrom, AddressSpace.SliceForVa;
    var bytes := env.space.SliceForVa(env.image, va, MAX_TABLE_SCAN_BYTES);
    if bytes.Some? {
      forall targets ensures IsTable(env, bytes.value, targets) <==> targets == PointerTable(env, va) {
        TableIff(env, bytes.value, targets);
      }
    }
  }

  /** A table whose first pointer leads to code is found exactly when 8 KiB of the file follow its start. */
  lemma PointerFoundIff(env: Env, va: u64)
    requires IsCode(env, ReadPointer(env, va))
    ensures env.space.SectionAtVa(va).Some?
    ensures var s := env.space.SectionAtVa(va).value;
      PointerTable(env, va) != [] <==>
        s.rawAddr + (va - env.space.imageBase - s.vaddr) + MAX_TABLE_SCAN_BYTES <= |env.image|
  {
    hide Word32, AddressSpace.SectionAtVa;
    var one := env.space.SliceForVa(env.image, va, POINTER_BYTES);
    var all := env.space.SliceForVa(env.image, va, MAX_TABLE_SCAN_BYTES);
    if all.Some? {
      assert all.value[..POINTER_BYTES] == one.value;
      assert TableEntry(all.value, 0) == ReadU64(all.value) == ReadU64(one.value);
    }
  }

  /** An image of eight bytes: a pointer to its own code, in a section it backs completely. */
  const SMALL: Env := Env(
    CodeIndex([]),
    AddressSpace(0x40_0000, [Section(0x1000, 0x1000, 0, 8, true)]),
    [0x00, 0x10, 0x40, 0x00, 0x00, 0x00, 0x00, 0x00],
    va => None)

  lemma SmallSection()
    ensures SMALL.space.SectionAtVa(0x40_1000) == Some(SMALL.space.sections[0])
  {
  }

  lemma SmallSlice()
    ensures SMALL.space.SliceForVa(SMALL.image, 0x40_1000, POINTER_BYTES) == Some(SMALL.image)
  {
    hide AddressSpace.SectionAtVa;
    SmallSection();
    assert SMALL.image[0..8] == SMALL.image;
  }

  /** The pointer is valid and its table is skipped. */
  lemma SmallTableIsSkipped()
    ensures ReadPointer(SMALL, 0x40_1000) == 0x40_1000 && IsCode(SMALL, 0x40_1000)
    ensures PointerTable(SMALL, 0x40_1000) == []
  {
    hide AddressSpace.SectionAtVa, AddressSpace.SliceForVa, PointerTable;
    SmallSection();
    SmallSlice();
    assert ReadU64(SMALL.image) == 0x40_1000;
    PointerFoundIff(SMALL, 0x40_1000);
  }

  lemma TableStep(env: Env, bytes: seq<byte>, targets: seq<u64>, k: nat)
    requires k <= MAX_TABLE_ENTRIES && POINTER_BYTES * k <= |bytes|
    ensures targets + TableFrom(env, bytes, k) ==
      if k == MAX_TABLE_ENTRIES || POINTER_BYTES * (k + 1) > |bytes| || !IsCode(env, TableEntry(bytes, k)) then targets
      else targets + [TableEntry(bytes, k)] + TableFrom(env, bytes, k + 1)
  {
    hide ReadU64, TableEntry, IsCode;
  }

  lemma CodeIff(env: Env, va: u64)
    ensures IsCode(env, va) <==> va != 0 && env.space.IsExecutableVa(va)
  {
  }

  /** The scanning loop. */
  method ReadPointerTable(env: Env, va: u64) returns (targets: seq<u64>)
    ensures targets == PointerTable(env, va)
  {
    hide ReadU64, TableEntry, IsCode, TableFrom;
    var bytes := env.space.SliceForVa(env.image, va, MAX_TABLE_SCAN_BYTES);
    if bytes.None? {
      return [];
    }
    targets := ScanTable(env, bytes.value);
  }

  method ScanTable(env: Env, bytes: seq<byte>) returns (targets: seq<u64>)
    ensures targets == TableFrom(env, bytes, 0)
  {
    hide ReadU64, TableEntry, IsCode, TableFrom;
    targets := [];
    assert targets + TableFrom(env, bytes, 0) == TableFrom(env, bytes, 0);
    while POINTER_BYTES * (|targets| + 1) <= |bytes|
      invariant |targets| <= MAX_TABLE_ENTRIES && POINTER_BYTES * |targets| <= |bytes|
      invariant targets + TableFrom(env, bytes, |targets|) == TableFrom(env, bytes, 0)
      decreases |bytes| - POINTER_BYTES * |targets|
    {
      TableStep(env, bytes, targets, |targets|);
      if |targets| >= MAX_TABLE_ENTRIES {
        return;
      }
      var ptr := TableEntry(bytes, |targets|);
      CodeIff(env, ptr);
      if ptr == 0 || !env.space.IsExecutableVa(ptr) {
        return;
      }
      targets := targets + [ptr];
    }
    TableStep(env, bytes, targets, |targets|);
  }

  // ---------------------------------------------------------------- what one block resolves to

  /** The slot of the control transfer a block ends in, if this pass looks at it. */
  function SlotOf(env: Env, pass: Pass, b: BasicBlock): Option<u64>
    requires env.index.WellFormed()
  {
    var dec := env.index.AtVa(b.exitVa);
    if dec.None? || !pass.Takes(dec.value.flow) then None else env.slots(dec.value.ip)
  }

  /** Addresses the slot leads to: one callee, or every entry of a jump table. */
  function SlotTargets(env: Env, pass: Pass, slot: u64): seq<u64> {
    match pass
    case Calls =>
      var pointer := ReadPointer(env, slot);
      var target := if IsCode(env, pointer) then pointer else slot;
      if target != 0 then [target] else []
    case Jumps => PointerTable(env, slot)
  }

  function BlockTargets(env: Env, pass: Pass, b: BasicBlock): seq<u64>
    requires env.index.WellFormed()
  {
    var slot := SlotOf(env, pass, b);
    if slot.None? then [] else SlotTargets(env, pass, slot.value)
  }

  function BlockResolved(env: Env, pass: Pass, f: u64, b: BasicBlock): seq<Resolved>
    requires env.index.WellFormed()
  {
    var slot, targets := SlotOf(env, pass, b), BlockTargets(env, pass, b);
    seq(|targets|, k requires 0 <= k < |targets| && slot.Some? =>
      Resolved(f, b.entryVa, b.exitVa, slot.value, targets[k]))
  }

  function EdgesTo(targets: seq<u64>, kind: EdgeKind): seq<Edge> {
    seq(|targets|, k requires 0 <= k < |targets| => Edge(targets[k], kind))
  }

  // ---------------------------------------------------------------- the two phases

  type Table = map<u64, Function>

  /** Functions are filed under their entry, and the blocks of each start at ascending addresses. */
  ghost predicate Filed(table: Table) {
    forall f :: f in table ==> table[f].entryVa == f && Ascending(table[f].blocks)
  }

  function CollectBlocks(env: Env, pass: Pass, f: u64, blocks: seq<BasicBlock>): seq<Resolved>
    requires env.index.WellFormed()
  {
    if blocks == [] then []
    else CollectBlocks(env, pass, f, blocks[..|blocks| - 1]) + BlockResolved(env, pass, f, blocks[|blocks| - 1])
  }

  /** Phase one: everything the functions resolve to, function by function. */
  function Collected(env: Env, pass: Pass, table: Table, entries: seq<u64>): seq<Resolved>
    requires env.index.WellFormed() && forall f :: f in entries ==> f in table
  {
    if entries == [] then []
    else
      var last := entries[|entries| - 1];
      Collected(env, pass, table, entries[..|entries| - 1]) + CollectBlocks(env, pass, last, table[last].blocks)
  }

  /** The edges a list of resolutions gives to one block. */
  function EdgesFor(list: seq<Resolved>, kind: EdgeKind, f: u64, block: u64): seq<Edge> {
    if list == [] then []
    else
      var r := list[|list| - 1];
      EdgesFor(list[..|list| - 1], kind, f, block) +
        (if r.functionEntry == f && r.blockEntry == block then [Edge(r.targetVa, kind)] else [])
  }

  lemma {:induction false} EdgesForSplit(a: seq<Resolved>, b: seq<Resolved>, kind: EdgeKind, f: u64, block: u64)
    ensures EdgesFor(a + b, kind, f, block) == EdgesFor(a, kind, f, block) + EdgesFor(b, kind, f, block)
    decreases |b|
  {
    if b == [] {
      assert a + b == a;
    } else {
      assert (a + b)[..|a + b| - 1] == a + b[..|b| - 1];
      EdgesForSplit(a, b[..|b| - 1], kind, f, block);
    }
  }

  predicate AllOf(list: seq<Resolved>, f: u64, block: u64) {
    forall r :: r in list ==> r.functionEntry == f && r.blockEntry == block
  }

  lemma {:induction false} EdgesForOwn(list: seq<Resolved>, kind: EdgeKind, f: u64, block: u64)
    requires AllOf(list, f, block)
    ensures EdgesFor(list, kind, f, block) == seq(|list|, k requires 0 <= k < |list| => Edge(list[k].targetVa, kind))
  {
    if list != [] {
      EdgesForOwn(list[..|list| - 1], kind, f, block);
      assert list[|list| - 1] in list;
    }
  }

  lemma {:induction false} EdgesForOther(list: seq<Resolved>, kind: EdgeKind, f: u64, block: u64)
    requires forall r :: r in list ==> r.functionEntry != f || r.blockEntry != block
    ensures EdgesFor(list, kind, f, block) == []
  {
    if list != [] {
      EdgesForOther(list[..|list| - 1], kind, f, block);
      assert list[|list| - 1] in list;
    }
  }

  lemma BlockResolvedAll(env: Env, pass: Pass, f: u64, b: BasicBlock)
    requires env.index.WellFormed()
    ensures AllOf(BlockResolved(env, pass, f, b), f, b.entryVa)
    ensures EdgesFor(BlockResolved(env, pass, f, b), pass.Kind(), f, b.entryVa) ==
      EdgesTo(BlockTargets(env, pass, b), pass.Kind())
  {
    hide BlockTargets;
    EdgesForOwn(BlockResolved(env, pass, f, b), pass.Kind(), f, b.entryVa);
  }

  lemma {:induction false} CollectBlocksFor(env: Env, pass: Pass, f: u64, blocks: seq<BasicBlock>, g: u64, i: nat)
    requires env.index.WellFormed() && Ascending(blocks)
    ensures forall r :: r in CollectBlocks(env, pass, f, blocks) ==>
      r.functionEntry == f && exists b :: b in blocks && b.entryVa == r.blockEntry
    ensures i < |blocks| ==>
      EdgesFor(CollectBlocks(env, pass, f, blocks), pass.Kind(), f, blocks[i].entryVa) ==
        EdgesTo(BlockTargets(env, pass, blocks[i]), pass.Kind())
    decreases |blocks|
  {
    hide BlockTargets, BlockResolved, EdgesTo, EdgesFor;
    if blocks != [] {
      var front, last := blocks[..|blocks| - 1], blocks[|blocks| - 1];
      CollectBlocksFor(env, pass, f, front, g, i);
      BlockResolvedAll(env, pass, f, last);
      if i < |blocks| {
        var own := BlockResolved(env, pass, f, last);
        EdgesForSplit(CollectBlocks(env, pass, f, front), own, pass.Kind(), f, blocks[i].entryVa);
        if i == |blocks| - 1 {
          EdgesForOther(CollectBlocks(env, pass, f, front), pass.Kind(), f, last.entryVa);
        } else {
          EdgesForOther(own, pass.Kind(), f, blocks[i].entryVa);
        }
      }
    }
  }

  /** Phase one gives each block exactly the edges it resolves to on its own. */
  lemma {:induction false} CollectedFor(env: Env, pass: Pass, table: Table, entries: seq<u64>, f: u64, i: nat)
    requires env.index.WellFormed() && Filed(table) && forall g :: g in entries ==> g in table
    requires forall i, j :: 0 <= i < j < |entries| ==> entries[i] < entries[j]
    requires f in table && i < |table[f].blocks|
    ensures EdgesFor(Collected(env, pass, table, entries), pass.Kind(), f, table[f].blocks[i].entryVa) ==
      if f in entries then EdgesTo(BlockTargets(env, pass, table[f].blocks[i]), pass.Kind()) else []
    decreases |entries|
  {
    hide BlockTargets, BlockResolved, EdgesTo, EdgesFor, CollectBlocks;
    var at := table[f].blocks[i].entryVa;
    if entries == [] {
      EdgesForOther([], pass.Kind(), f, at);
    } else {
      var front, last := entries[..|entries| - 1], entries[|entries| - 1];
      CollectedFor(env, pass, table, front, f, i);
      var own := CollectBlocks(env, pass, last, table[last].blocks);
      EdgesForSplit(Collected(env, pass, table, front), own, pass.Kind(), f, at);
      CollectBlocksFor(env, pass, last, table[last].blocks, f, i);
      if last != f {
        EdgesForOther(own, pass.Kind(), f, at);
      }
    }
  }

  function ExtendedBlock(b: BasicBlock, list: seq<Resolved>, kind: EdgeKind, f: u64): BasicBlock {
    b.(successors := b.successors + EdgesFor(list, kind, f, b.entryVa))
  }

  /** A function with the edges of `list` appended to its blocks. */
  function Extended(fn: Function, list: seq<Resolved>, kind: EdgeKind): Function {
    fn.(blocks := seq(|fn.blocks|, i requires 0 <= i < |fn.blocks| =>
      ExtendedBlock(fn.blocks[i], list, kind, fn.entryVa)))
  }

  function ExtendedTable(table: Table, list: seq<Resolved>, kind: EdgeKind): Table {
    map f | f in table :: Extended(table[f], list, kind)
  }

  /** A block with the edges it resolves to appended: what both phases together amount to. */
  predicate Gains(env: Env, pass: Pass, before: BasicBlock, after: BasicBlock)
    requires env.index.WellFormed()
  {
    after == before.(successors := before.successors + EdgesTo(BlockTargets(env, pass, before), pass.Kind()),
                     predecessors := after.predecessors)
  }

  // ---------------------------------------------------------------- the table in place

  lemma CollectNothing(env: Env, pass: Pass, f: u64)
    requires env.index.WellFormed()
    ensures CollectBlocks(env, pass, f, []) == []
  {
  }

  lemma CollectOneMore(env: Env, pass: Pass, f: u64, blocks: seq<BasicBlock>, i: nat)
    requires env.index.WellFormed() && i < |blocks|
    ensures CollectBlocks(env, pass, f, blocks[..i + 1]) ==
      CollectBlocks(env, pass, f, blocks[..i]) + BlockResolved(env, pass, f, blocks[i])
  {
    hide BlockResolved;
    assert blocks[..i + 1][..i] == blocks[..i];
  }

  class FunctionTable {
    var byEntry: Table
    var xrefs: seq<Xref>

    constructor (byEntry: Table)
      ensures this.byEntry == byEntry && xrefs == []
    {
      this.byEntry := byEntry;
      xrefs := [];
    }

    method CollectFunction(env: Env, pass: Pass, f: u64) returns (list: seq<Resolved>)
      requires env.index.WellFormed() && f in byEntry
      ensures list == CollectBlocks(env, pass, f, byEntry[f].blocks)
    {
      hide CollectBlocks, BlockResolved, CodeIndex.WellFormed;
      var blocks, i := byEntry[f].blocks, 0;
      list := [];
      CollectNothing(env, pass, f);
      while i < |blocks|
        invariant 0 <= i <= |blocks|
        invariant list == CollectBlocks(env, pass, f, blocks[..i])
      {
        CollectOneMore(env, pass, f, blocks, i);
        list := list + BlockResolved(env, pass, f, blocks[i]);
        i := i + 1;
      }
      assert blocks[..i] == blocks;
    }

    method Collect(env: Env, pass: Pass) returns (list: seq<Resolved>)
      requires env.index.WellFormed()
      ensures list == Collected(env, pass, byEntry, AscendingSeq(byEntry.Keys))
    {
      hide CollectBlocks, AscendingSeq;
      var entries := AscendingSeq(byEntry.Keys);
      list := [];
      var n := 0;
      while n < |entries|
        invariant 0 <= n <= |entries|
        invariant list == Collected(env, pass, byEntry, entries[..n])
      {
        var more := CollectFunction(env, pass, entries[n]);
        assert entries[..n + 1][..n] == entries[..n];
        list := list + more;
        n := n + 1;
      }
      assert entries[..n] == entries;
    }

    /** Pushes one edge into the block `find_block_mut` finds, and its two cross-references. */
    method Push(r: Resolved, pass: Pass, ghost start: Table, ghost done: seq<Resolved>)
      requires Filed(start) && byEntry == ExtendedTable(start, done, pass.Kind())
      modifies this
      ensures byEntry == ExtendedTable(start, done + [r], pass.Kind())
      ensures xrefs == old(xrefs) + Refs(r, pass)
    {
      hide ExtendedTable, Filed;
      ExtendedStep(start, done, r, pass.Kind());
      if r.functionEntry in byEntry {
        var fn := byEntry[r.functionEntry];
        var at := FindBlock(fn.blocks, r.blockEntry);
        if at.Some? {
          var b := fn.blocks[at.value];
          b := b.(successors := b.successors + [Edge(r.targetVa, pass.Kind())]);
          byEntry := byEntry[r.functionEntry := fn.(blocks := fn.blocks[at.value := b])];
        }
      }
      xrefs := xrefs + [Xref(r.jumpVa, r.targetVa, pass.RefKind())];
      xrefs := xrefs + [Xref(r.jumpVa, r.tableVa, DataRead)];
      assert xrefs == old(xrefs) + Refs(r, pass);
    }

    method Apply(list: seq<Resolved>, pass: Pass)
      requires Filed(byEntry)
      modifies this
      ensures byEntry == ExtendedTable(old(byEntry), list, pass.Kind())
      ensures xrefs == old(xrefs) + AllRefs(list, pass)
    {
      ghost var start := byEntry;
      ExtendedNothing(start, pass.Kind());
      var n := 0;
      while n < |list|
        invariant 0 <= n <= |list|
        invariant byEntry == ExtendedTable(start, list[..n], pass.Kind())
        invariant xrefs == old(xrefs) + AllRefs(list[..n], pass)
      {
        hide ExtendedTable, Refs;
        Push(list[n], pass, start, list[..n]);
        assert list[..n + 1] == list[..n] + [list[n]];
        assert list[..n + 1][..n] == list[..n];
        n := n + 1;
      }
      assert list[..n] == list;
    }

    method Recompute()
      requires Filed(byEntry)
      modifies this`byEntry
      ensures Filed(byEntry) && byEntry.Keys == old(byEntry).Keys
      ensures forall f :: f in byEntry ==> Rebuilt(old(byEntry)[f], byEntry[f])
    {
      hide Rebuilt, Agree, SameButPredecessors, AscendingSeq, Ascending;
      var entries := AscendingSeq(byEntry.Keys);
      ghost var start := byEntry;
      var n := 0;
      while n < |entries|
        invariant 0 <= n <= |entries| && byEntry.Keys == start.Keys
        invariant Filed(byEntry)
        invariant forall k :: n <= k < |entries| ==> byEntry[entries[k]] == start[entries[k]]
        invariant forall k :: 0 <= k < n ==> Rebuilt(start[entries[k]], byEntry[entries[k]])
      {
        var fn := byEntry[entries[n]];
        var blocks := RecomputePredecessors(fn.blocks);
        SameStarts(fn.blocks, blocks);
        assert Rebuilt(fn, fn.(blocks := blocks)) by { RebuiltBlocks(fn, blocks); }
        byEntry := byEntry[entries[n] := fn.(blocks := blocks)];
        n := n + 1;
      }
      forall f | f in byEntry ensures Rebuilt(start[f], byEntry[f]) {
        assert f in entries;
        var k :| 0 <= k < |entries| && entries[k] == f;
      }
    }

    /**
     * `resolve_indirect_calls` and `resolve_indirect_jumps`: every block gains exactly the edges its
     * last instruction resolves to, and predecessor lists agree with successor lists again.
     */
    method Resolve(env: Env, pass: Pass)
      requires env.index.WellFormed() && Filed(byEntry)
      modifies this
      ensures Filed(byEntry) && byEntry.Keys == old(byEntry).Keys
      ensures forall f :: f in byEntry ==> AllGain(env, pass, old(byEntry)[f].blocks, byEntry[f].blocks)
      ensures forall f :: f in byEntry ==> Agree(byEntry[f].blocks)
      ensures xrefs == old(xrefs) +
        AllRefs(Collected(env, pass, old(byEntry), AscendingSeq(old(byEntry).Keys)), pass)
    {
      hide Agree, Collected, AllRefs, BlockTargets, EdgesTo, AscendingSeq;
      ghost var start, entries := byEntry, AscendingSeq(byEntry.Keys);
      var list := Collect(env, pass);
      Apply(list, pass);
      ghost var mid := byEntry;
      assert Filed(mid) by { ExtendedFiled(start, list, pass.Kind()); }
      Recompute();
      forall f | f in byEntry ensures AllGain(env, pass, start[f].blocks, byEntry[f].blocks) {
        assert Rebuilt(mid[f], byEntry[f]);
        forall i | 0 <= i < |start[f].blocks| ensures Gains(env, pass, start[f].blocks[i], byEntry[f].blocks[i]) {
          CollectedFor(env, pass, start, entries, f, i);
        }
      }
    }

    /** The jumps first, then the calls, as the project runs them. */
    method ResolveAll(env: Env)
      requires env.index.WellFormed() && Filed(byEntry)
      modifies this
      ensures Filed(byEntry) && byEntry.Keys == old(byEntry).Keys
      ensures forall f :: f in byEntry ==> BothGained(env, old(byEntry)[f].blocks, byEntry[f].blocks)
      ensures forall f :: f in byEntry ==> Agree(byEntry[f].blocks)
    {
      hide Agree, AllGain, BothGained, Filed, Collected, AllRefs;
      ghost var start := byEntry;
      Resolve(env, Jumps);
      ghost var mid := byEntry;
      Resolve(env, Calls);
      forall f | f in byEntry ensures BothGained(env, start[f].blocks, byEntry[f].blocks) {
        AllGainTwice(env, start[f].blocks, mid[f].blocks, byEntry[f].blocks);
      }
    }
  }

  ghost predicate AllGain(env: Env, pass: Pass, before: seq<BasicBlock>, after: seq<BasicBlock>)
    requires env.index.WellFormed()
  {
    |after| == |before| && forall i :: 0 <= i < |before| ==> Gains(env, pass, before[i], after[i])
  }

  /** Each block's successors, then what it jumps to, then what it calls through a pointer. */
  ghost predicate BothGained(env: Env, before: seq<BasicBlock>, after: seq<BasicBlock>)
    requires env.index.WellFormed()
  {
    && |after| == |before|
    && forall i :: 0 <= i < |before| ==>
         && after[i].entryVa == before[i].entryVa
         && after[i].successors == before[i].successors
              + EdgesTo(BlockTargets(env, Jumps, before[i]), EdgeKind.Indirect)
              + EdgesTo(BlockTargets(env, Calls, before[i]), EdgeKind.Call)
  }

  lemma AllGainTwice(env: Env, a: seq<BasicBlock>, b: seq<BasicBlock>, c: seq<BasicBlock>)
    requires env.index.WellFormed() && AllGain(env, Jumps, a, b) && AllGain(env, Calls, b, c)
    ensures BothGained(env, a, c)
  {
    hide Gains, BlockTargets, EdgesTo;
    forall i | 0 <= i < |a| { GainsTwice(env, a[i], b[i], c[i]); }
  }

  lemma GainsTwice(env: Env, a: BasicBlock, b: BasicBlock, c: BasicBlock)
    requires env.index.WellFormed() && Gains(env, Jumps, a, b) && Gains(env, Calls, b, c)
    ensures c.entryVa == a.entryVa
    ensures c.successors == a.successors
      + EdgesTo(BlockTargets(env, Jumps, a), EdgeKind.Indirect) + EdgesTo(BlockTargets(env, Calls, a), EdgeKind.Call)
  {
    hide SlotTargets, EdgesTo;
  }

  /** Predecessor lists rebuilt, everything else as it was. */
  ghost predicate Rebuilt(before: Function, after: Function) {
    SameButPredecessors(before.blocks, after.blocks) && Agree(after.blocks)
  }

  lemma RebuiltBlocks(fn: Function, blocks: seq<BasicBlock>)
    requires SameButPredecessors(fn.blocks, blocks) && Agree(blocks)
    ensures Rebuilt(fn, fn.(blocks := blocks))
  {
  }

  function Refs(r: Resolved, pass: Pass): seq<Xref> {
    [Xref(r.jumpVa, r.targetVa, pass.RefKind()), Xref(r.jumpVa, r.tableVa, DataRead)]
  }

  function AllRefs(list: seq<Resolved>, pass: Pass): seq<Xref> {
    if list == [] then [] else AllRefs(list[..|list| - 1], pass) + Refs(list[|list| - 1], pass)
  }

  lemma SameStarts(a: seq<BasicBlock>, b: seq<BasicBlock>)
    requires Ascending(a) && SameButPredecessors(a, b)
    ensures Ascending(b)
  {
    assert forall i :: 0 <= i < |a| ==> b[i].entryVa == a[i].entryVa;
  }

  lemma ExtendedFiled(table: Table, list: seq<Resolved>, kind: EdgeKind)
    requires Filed(table)
    ensures Filed(ExtendedTable(table, list, kind))
  {
  }

  lemma ExtendedNothing(table: Table, kind: EdgeKind)
    ensures ExtendedTable(table, [], kind) == table
  {
    forall f | f in table ensures Extended(table[f], [], kind) == table[f] {
      SameBlocks(Extended(table[f], [], kind).blocks, table[f].blocks);
    }
  }

  lemma SameBlocks(a: seq<BasicBlock>, b: seq<BasicBlock>)
    requires |a| == |b| && forall i :: 0 <= i < |a| ==> a[i].(successors := b[i].successors) == b[i]
    requires forall i :: 0 <= i < |a| ==> a[i].successors == b[i].successors
    ensures a == b
  {
    forall i | 0 <= i < |a| ensures a[i] == b[i] {
      assert a[i].(successors := b[i].successors) == b[i];
    }
  }

  lemma EdgesForOne(done: seq<Resolved>, r: Resolved, kind: EdgeKind, f: u64, block: u64)
    ensures EdgesFor(done + [r], kind, f, block) == EdgesFor(done, kind, f, block) +
      (if r.functionEntry == f && r.blockEntry == block then [Edge(r.targetVa, kind)] else [])
  {
    assert (done + [r])[..|done|] == done;
  }

  lemma ExtendedBlockOne(b: BasicBlock, done: seq<Resolved>, r: Resolved, kind: EdgeKind, f: u64)
    ensures ExtendedBlock(b, done + [r], kind, f) ==
      var before := ExtendedBlock(b, done, kind, f);
      if r.functionEntry == f && r.blockEntry == b.entryVa then
        before.(successors := before.successors + [Edge(r.targetVa, kind)])
      else before
  {
    EdgesForOne(done, r, kind, f, b.entryVa);
    assert EdgesFor(done, kind, f, b.entryVa) + [] == EdgesFor(done, kind, f, b.entryVa);
    assert b.successors + (EdgesFor(done, kind, f, b.entryVa) + [Edge(r.targetVa, kind)])
        == b.successors + EdgesFor(done, kind, f, b.entryVa) + [Edge(r.targetVa, kind)];
  }

  /** One more resolution changes the one block it names, and no other. */
  lemma ExtendedFunctionStep(fn: Function, done: seq<Resolved>, r: Resolved, kind: EdgeKind)
    requires Ascending(fn.blocks)
    ensures var before, after := Extended(fn, done, kind), Extended(fn, done + [r], kind);
      var at := FindBlock(before.blocks, r.blockEntry);
      after == if r.functionEntry != fn.entryVa || at.None? then before
        else
          var b := before.blocks[at.value];
          before.(blocks := before.blocks[at.value := b.(successors := b.successors + [Edge(r.targetVa, kind)])])
  {
    hide ExtendedBlock;
    var before, after := Extended(fn, done, kind), Extended(fn, done + [r], kind);
    var at := FindBlock(before.blocks, r.blockEntry);
    forall i | 0 <= i < |fn.blocks|
      ensures before.blocks[i].entryVa == fn.blocks[i].entryVa
      ensures after.blocks[i] ==
        if r.functionEntry == fn.entryVa && r.blockEntry == fn.blocks[i].entryVa then
          before.blocks[i].(successors := before.blocks[i].successors + [Edge(r.targetVa, kind)])
        else before.blocks[i]
    {
      ExtendedBlockStart(fn.blocks[i], done, kind, fn.entryVa);
      ExtendedBlockOne(fn.blocks[i], done, r, kind, fn.entryVa);
    }
    if r.functionEntry != fn.entryVa || at.None? {
      assert after.blocks == before.blocks;
    } else {
      var b := before.blocks[at.value];
      assert after.blocks == before.blocks[at.value := b.(successors := b.successors + [Edge(r.targetVa, kind)])];
    }
  }

  lemma ExtendedBlockStart(b: BasicBlock, list: seq<Resolved>, kind: EdgeKind, f: u64)
    ensures ExtendedBlock(b, list, kind, f).entryVa == b.entryVa
  {
  }

  lemma ExtendedStep(table: Table, done: seq<Resolved>, r: Resolved, kind: EdgeKind)
    requires Filed(table)
    ensures var before, after := ExtendedTable(table, done, kind), ExtendedTable(table, done + [r], kind);
      if r.functionEntry !in before then after == before
      else
        var fn := before[r.functionEntry];
        var at := FindBlock(fn.blocks, r.blockEntry);
        if at.None? then after == before
        else
          var b := fn.blocks[at.value];
          after == before[r.functionEntry := fn.(blocks :=
            fn.blocks[at.value := b.(successors := b.successors + [Edge(r.targetVa, kind)])])]
  {
    hide Extended, Ascending, FindBlock;
    forall f | f in table { ExtendedFunctionStep(table[f], done, r, kind); }
  }

  /** Resolved edges are calls and indirect jumps: they never add flow inside a function. */
  lemma FlowUnchanged(env: Env, pass: Pass, before: BasicBlock, after: BasicBlock, e: Edge)
    requires env.index.WellFormed() && Gains(env, pass, before, after) && e.IsFlow()
    ensures multiset(after.successors)[e] == multiset(before.successors)[e]
  {
    hide BlockTargets;
    var more := EdgesTo(BlockTargets(env, pass, before), pass.Kind());
    assert forall x :: x in more ==> !x.IsFlow();
    assert multiset(more)[e] == 0;
  }
}
