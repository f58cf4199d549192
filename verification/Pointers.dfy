/** Indirect control transfers: where they lead, said of the bytes of the image and the code. */
module Pointers {
  import opened Prelude
  import opened AddressSpaces
  import opened CodeIndexes
  import opened Functions
  import opened Indirect
  import opened Unwind

  // ---------------------------------------------------------------- pointers as bytes

  function U64Bytes(p: u64): (r: seq<byte>)
    ensures |r| == POINTER_BYTES
  {
    U32Bytes(p % U32_LIMIT) + U32Bytes(p / U32_LIMIT)
  }

  lemma ReadBytes(bytes: seq<byte>, p: u64)
    requires |bytes| >= POINTER_BYTES && bytes[..POINTER_BYTES] == U64Bytes(p)
    ensures Indirect.ReadU64(bytes) == p
  {
    var low, high := U32Bytes(p % U32_LIMIT), U32Bytes(p / U32_LIMIT);
    assert bytes[..POINTER_BYTES][..4] == low && bytes[..POINTER_BYTES][4..] == high;
    assert bytes[0] == low[0] && bytes[1] == low[1] && bytes[2] == low[2] && bytes[3] == low[3];
    assert bytes[4] == high[0] && bytes[5] == high[1] && bytes[6] == high[2] && bytes[7] == high[3];
  }

  lemma BytesAreWord(a: byte, b: byte, c: byte, d: byte)
    ensures 0 <= Word32(a, b, c, d) < U32_LIMIT && U32Bytes(Word32(a, b, c, d)) == [a, b, c, d]
  {
    hide HoldsU16, HoldsU32;
    Halves(Word16(a, b), Word16(c, d));
    Bytes(a, b);
    Bytes(c, d);
  }

  lemma Bytes(low: byte, high: byte)
    ensures (low + 0x100 * high) % 0x100 == low && (low + 0x100 * high) / 0x100 == high
  {
  }

  lemma Halves(low: nat, high: nat)
    requires low < 0x1_0000
    ensures (low + 0x1_0000 * high) % 0x1_0000 == low && (low + 0x1_0000 * high) / 0x1_0000 == high
  {
  }

  lemma Words(low: u32, high: nat)
    ensures (low + U32_LIMIT * high) % U32_LIMIT == low && (low + U32_LIMIT * high) / U32_LIMIT == high
  {
  }

  /** What is read as a pointer is the value whose bytes are there, lowest first. */
  lemma ReadIff(bytes: seq<byte>, p: u64)
    requires |bytes| >= POINTER_BYTES
    ensures Indirect.ReadU64(bytes) == p <==> bytes[..POINTER_BYTES] == U64Bytes(p)
  {
    if bytes[..POINTER_BYTES] == U64Bytes(p) {
      ReadBytes(bytes, p);
    }
    if Indirect.ReadU64(bytes) == p {
      BytesAreWord(bytes[0], bytes[1], bytes[2], bytes[3]);
      BytesAreWord(bytes[4], bytes[5], bytes[6], bytes[7]);
      var low, high := Word32(bytes[0], bytes[1], bytes[2], bytes[3]), Word32(bytes[4], bytes[5], bytes[6], bytes[7]);
      Words(low, high);
      assert bytes[..POINTER_BYTES] == [bytes[0], bytes[1], bytes[2], bytes[3]] + [bytes[4], bytes[5], bytes[6], bytes[7]];
    }
  }

  /** The image has the bytes of `p` where a section maps `va`. */
  ghost predicate Stores(env: Env, va: u64, p: u64) {
    env.space.SliceForVa(env.image, va, POINTER_BYTES) == Some(U64Bytes(p))
  }

  /** Entry `k` of a table that starts with these bytes. */
  lemma EntryIff(bytes: seq<byte>, k: nat, p: u64)
    requires POINTER_BYTES * (k + 1) <= |bytes|
    ensures TableEntry(bytes, k) == p <==> bytes[POINTER_BYTES * k..POINTER_BYTES * (k + 1)] == U64Bytes(p)
  {
    hide Indirect.ReadU64, U64Bytes;
    ReadIff(bytes[POINTER_BYTES * k..], p);
    assert bytes[POINTER_BYTES * k..][..POINTER_BYTES] == bytes[POINTER_BYTES * k..POINTER_BYTES * (k + 1)];
  }

  lemma StoredIff(env: Env, va: u64, p: u64)
    requires p != 0
    ensures ReadPointer(env, va) == p <==> Stores(env, va, p)
  {
    hide Indirect.ReadU64, U64Bytes, AddressSpace.SliceForVa;
    var bytes := env.space.SliceForVa(env.image, va, POINTER_BYTES);
    if bytes.Some? {
      ReadIff(bytes.value, p);
      assert bytes.value[..POINTER_BYTES] == bytes.value;
    }
  }

  // ---------------------------------------------------------------- calls

  /** The slot holds a pointer to code. */
  ghost predicate PointsTo(env: Env, slot: u64, p: u64) {
    p != 0 && env.space.IsExecutableVa(p) && Stores(env, slot, p)
  }

  /** A call through a slot goes to the code it points to, and where it points to none, to the slot itself. */
  lemma CalleeIff(env: Env, slot: u64, t: u64)
    requires slot != 0
    ensures SlotTargets(env, Calls, slot) == [t] <==>
      PointsTo(env, slot, t) || (t == slot && !exists p :: PointsTo(env, slot, p))
  {
    hide ReadPointer, Stores, AddressSpace.IsExecutableVa;
    var pointer := ReadPointer(env, slot);
    forall p | p != 0 ensures ReadPointer(env, slot) == p <==> Stores(env, slot, p) {
      StoredIff(env, slot, p);
    }
    if IsCode(env, pointer) {
      assert PointsTo(env, slot, pointer);
    }
  }

  // ---------------------------------------------------------------- blocks

  /** The pass looks at blocks that end in its kind of transfer through a slot, and at no others. */
  lemma BlockTargetsAre(
    env: Env, code: Code, owners: map<u64, u64>, known: set<u64>, entries: set<u64>, f: u64, start: u64)
    requires code.Valid() && env.index == code.index && StraightRun(code, owners, known, f, start, start) != []
    ensures
      var run := StraightRun(code, owners, known, f, start, start);
      var last, b := run[|run| - 1], DecodedBlock(code, owners, known, entries, f, start);
      var slot := env.slots(last.ip);
      && BlockTargets(env, Calls, b) ==
           (if last.flow.IndirectCall? && slot.Some? then SlotTargets(env, Calls, slot.value) else [])
      && BlockTargets(env, Jumps, b) ==
           (if last.flow.IndirectBranch? && slot.Some? then PointerTable(env, slot.value) else [])
  {
    hide StraightRun, RunEdges, CodeIndex.AtVa, CodeIndex.WellFormed, ReadPointer, PointerTable;
    DecodedLast(code, owners, known, entries, f, start);
  }

  // ---------------------------------------------------------------- cross-references

  /** The reference is from where a block leaves to one of its targets, or a read of the slot it goes through. */
  ghost predicate RefersFrom(env: Env, pass: Pass, b: BasicBlock, x: Xref)
    requires env.index.WellFormed()
  {
    && x.fromVa == b.exitVa
    && BlockTargets(env, pass, b) != []
    && if x.kind.DataRead? then SlotOf(env, pass, b) == Some(x.toVa)
       else x.toVa in BlockTargets(env, pass, b) && (if pass.Calls? then x.kind.CallRef? else x.kind.IndirectRef?)
  }

  lemma {:induction false} RefsIn(list: seq<Resolved>, pass: Pass, x: Xref)
    ensures x in AllRefs(list, pass) <==> exists r :: r in list && x in Refs(r, pass)
    decreases |list|
  {
    hide Refs;
    if list != [] {
      RefsIn(list[..|list| - 1], pass, x);
      assert list == list[..|list| - 1] + [list[|list| - 1]];
    }
  }

  lemma BlockRefs(env: Env, pass: Pass, f: u64, b: BasicBlock, x: Xref)
    requires env.index.WellFormed()
    ensures (exists r :: r in BlockResolved(env, pass, f, b) && x in Refs(r, pass)) <==> RefersFrom(env, pass, b, x)
  {
    hide SlotTargets, CodeIndex.AtVa, CodeIndex.WellFormed;
    var list, targets := BlockResolved(env, pass, f, b), BlockTargets(env, pass, b);
    if r :| r in list && x in Refs(r, pass) {
      var k :| 0 <= k < |list| && list[k] == r;
      assert targets[k] in targets;
    }
    if RefersFrom(env, pass, b, x) {
      if x.kind.DataRead? {
        assert list[0] in list && x in Refs(list[0], pass);
      } else {
        var k :| 0 <= k < |targets| && targets[k] == x.toVa;
        assert list[k] in list && x in Refs(list[k], pass);
      }
    }
  }

  lemma {:induction false} CollectRefs(env: Env, pass: Pass, f: u64, blocks: seq<BasicBlock>, x: Xref)
    requires env.index.WellFormed()
    ensures (exists r :: r in CollectBlocks(env, pass, f, blocks) && x in Refs(r, pass)) <==>
      exists b :: b in blocks && RefersFrom(env, pass, b, x)
    decreases |blocks|
  {
    hide RefersFrom, BlockResolved, Refs;
    if blocks != [] {
      var front, last := blocks[..|blocks| - 1], blocks[|blocks| - 1];
      CollectRefs(env, pass, f, front, x);
      BlockRefs(env, pass, f, last, x);
      assert blocks == front + [last];
    }
  }

  /** The cross-references of a pass are exactly those its blocks give. */
  lemma {:induction false} RefsIff(env: Env, pass: Pass, table: Table, entries: seq<u64>, x: Xref)
    requires env.index.WellFormed() && forall f :: f in entries ==> f in table
    ensures x in AllRefs(Collected(env, pass, table, entries), pass) <==>
      exists f, b :: f in entries && b in table[f].blocks && RefersFrom(env, pass, b, x)
    decreases |entries|
  {
    hide RefersFrom, CollectBlocks, Refs;
    RefsIn(Collected(env, pass, table, entries), pass, x);
    if entries != [] {
      var front, last := entries[..|entries| - 1], entries[|entries| - 1];
      RefsIff(env, pass, table, front, x);
      RefsIn(Collected(env, pass, table, front), pass, x);
      CollectRefs(env, pass, last, table[last].blocks, x);
      assert entries == front + [last];
    }
  }
}
