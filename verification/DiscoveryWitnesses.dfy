/** Code for which discovery leaves the table broken, followed through all three passes. */
module DiscoveryWitnesses {
  import opened Prelude
  import opened AddressSpaces
  import opened CodeIndexes
  import opened Functions
  import opened Predecessors
  import opened Worklists
  import opened Discovery

  // ---------------------------------------------------------------- following a run

  const TEXT := AddressSpace(0x40_0000, [Section(0x1000, 0x100, 0x400, 0x100, true)])

  lemma TextIsExecutable()
    ensures forall va: u64 :: TEXT.IsExecutableVa(va) <==> 0x40_1000 <= va < 0x40_1100
  {
    assert TEXT.sections[1..] == [];
  }

  lemma AtIndex(code: Code, d: Instr)
    requires code.Valid() && d in code.index.instrs
    ensures code.index.AtVa(d.ip) == Some(d)
  {
    var i :| 0 <= i < |code.index.instrs| && code.index.instrs[i] == d;
    code.index.IndexedLookup(i);
  }

  /** The block of a single control transfer. */
  lemma OneInstruction(code: Code, owners: map<u64, u64>, known: set<u64>, entries: set<u64>, f: u64, d: Instr)
    requires code.Valid() && d in code.index.instrs && !d.flow.Next?
    requires d.ip in owners ==> owners[d.ip] == f
    ensures DecodedBlock(code, owners, known, entries, f, d.ip) ==
      BasicBlock(d.ip, d.ip, 1, TerminatorEdges(code, entries, f, d), [])
  {
    hide CodeIndex.AtVa, TerminatorEdges;
    AtIndex(code, d);
    assert StraightRun(code, owners, known, f, d.ip, d.ip) == [d];
  }

  /** The block of one straight instruction and the control transfer after it. */
  lemma TwoInstructions(
    code: Code, owners: map<u64, u64>, known: set<u64>, entries: set<u64>, f: u64, d: Instr, e: Instr)
    requires code.Valid() && d in code.index.instrs && e in code.index.instrs
    requires d.flow.Next? && !e.flow.Next? && d.NextIp() == e.ip && d.ip != e.ip
    requires d.ip in owners ==> owners[d.ip] == f
    requires e.ip !in owners && e.ip !in known && e.ip !in code.hardEntries
    ensures DecodedBlock(code, owners, known, entries, f, d.ip) ==
      BasicBlock(d.ip, e.ip, 2, TerminatorEdges(code, entries, f, e), [])
  {
    hide CodeIndex.AtVa, TerminatorEdges;
    AtIndex(code, d);
    AtIndex(code, e);
    assert StraightRun(code, owners, known, f, d.ip, e.ip) == [e];
    assert StraightRun(code, owners, known, f, d.ip, d.ip) == [d, e];
  }

  lemma OneReturn(code: Code, owners: map<u64, u64>, known: set<u64>, entries: set<u64>, f: u64, d: Instr)
    requires code.Valid() && d in code.index.instrs && d.flow.Return?
    requires d.ip in owners ==> owners[d.ip] == f
    ensures DecodedBlock(code, owners, known, entries, f, d.ip) ==
      BasicBlock(d.ip, d.ip, 1, [Edge(0, EdgeKind.Return)], [])
  {
    hide DecodedBlock;
    OneInstruction(code, owners, known, entries, f, d);
  }

  lemma TwoToReturn(
    code: Code, owners: map<u64, u64>, known: set<u64>, entries: set<u64>, f: u64, d: Instr, e: Instr)
    requires code.Valid() && d in code.index.instrs && e in code.index.instrs
    requires d.flow.Next? && e.flow.Return? && d.NextIp() == e.ip && d.ip != e.ip
    requires d.ip in owners ==> owners[d.ip] == f
    requires e.ip !in owners && e.ip !in known && e.ip !in code.hardEntries
    ensures DecodedBlock(code, owners, known, entries, f, d.ip) ==
      BasicBlock(d.ip, e.ip, 2, [Edge(0, EdgeKind.Return)], [])
  {
    hide DecodedBlock;
    TwoInstructions(code, owners, known, entries, f, d, e);
  }

  lemma EnteredTwo(books: Books, f: u64, a: Edge, b: Edge)
    ensures AllEntered(books, f, [a, b]) == Entered(Entered(books, f, a), f, b)
  {
    EnteredOne(books, f, a);
    EnteredAppend(books, f, [a], b);
    assert [a] + [b] == [a, b];
  }

  /** The next queued block is decoded. */
  lemma Decodes(code: Code, f: u64, blocks: map<u64, BasicBlock>, books: Books, start: u64, rest: seq<u64>,
                b: BasicBlock, after: Books)
    requires code.Valid() && books.blockQueue == [start] + rest
    requires start !in blocks && start in books.owners && books.owners[start] == f
    requires b == DecodedBlock(code, books.owners, blocks.Keys, books.entries, f, start)
    requires after == AllEntered(books.(blockQueue := rest), f, b.successors)
    ensures Descended(code, f, blocks, books) == Descended(code, f, blocks[start := b], after)
  {
    hide Descended, DecodedBlock, AllEntered;
    DescendedNext(code, f, blocks, books, start, rest);
    assert books.owners == Claimed(books.owners, f, start);
    assert books.(owners := Claimed(books.owners, f, start), blockQueue := rest) == books.(blockQueue := rest);
  }

  lemma AscendingUnique(a: seq<u64>, b: seq<u64>)
    requires forall x :: x in a <==> x in b
    requires forall i, j :: 0 <= i < j < |a| ==> a[i] < a[j]
    requires forall i, j :: 0 <= i < j < |b| ==> b[i] < b[j]
    ensures a == b
  {
    assert a != [] ==> a[0] in b;
    assert b != [] ==> b[0] in a;
    if a != [] {
      assert a[0] == b[0];
      forall x ensures x in a[1..] <==> x in b[1..] {
        assert x in a <==> x == a[0] || x in a[1..];
        assert x in b <==> x == b[0] || x in b[1..];
      }
      AscendingUnique(a[1..], b[1..]);
    }
  }

  ghost predicate Keyed(blocks: map<u64, BasicBlock>) {
    forall s :: s in blocks ==> blocks[s].entryVa == s && blocks[s].predecessors == []
  }

  /** The finished block of a decoded start. */
  lemma FinishedHas(f: u64, blocks: map<u64, BasicBlock>, s: u64) returns (b: BasicBlock)
    requires Keyed(blocks) && s in blocks && s >= f
    ensures b in Finished(f, blocks).blocks && b.entryVa == s
    ensures b.successors == AllRetargeted(f, blocks[s].successors)
    ensures b.predecessors == AllInto(RetargetedBlocks(f, Listed(blocks, f)), s)
  {
    hide AllInto, AllRetargeted;
    var starts := ListedStarts(blocks, f);
    var i :| 0 <= i < |starts| && starts[i] == s;
    b := Finished(f, blocks).blocks[i];
  }

  lemma FinishedOnly(f: u64, blocks: map<u64, BasicBlock>)
    requires Keyed(blocks)
    ensures forall b :: b in Finished(f, blocks).blocks ==> b.entryVa in blocks && b.entryVa >= f
  {
    hide AllInto, AllRetargeted;
    var starts := ListedStarts(blocks, f);
    forall b | b in Finished(f, blocks).blocks ensures b.entryVa in blocks && b.entryVa >= f {
      var i :| 0 <= i < |Finished(f, blocks).blocks| && Finished(f, blocks).blocks[i] == b;
      assert starts[i] in starts;
    }
  }

  /** An edge between decoded blocks makes a predecessor entry. */
  lemma FinishedLinks(f: u64, blocks: map<u64, BasicBlock>, s: u64, t: u64, e: Edge) returns (b: BasicBlock)
    requires Keyed(blocks) && s in blocks && t in blocks && s >= f && t >= f && t != 0
    requires e in AllRetargeted(f, blocks[s].successors) && e.target == t
    ensures b in Finished(f, blocks).blocks && b.entryVa == t && Edge(s, e.kind) in b.predecessors
  {
    hide AllInto, AllRetargeted;
    b := FinishedHas(f, blocks, t);
    var starts, list := ListedStarts(blocks, f), RetargetedBlocks(f, Listed(blocks, f));
    var i :| 0 <= i < |starts| && starts[i] == s;
    forall j | 0 <= j < |list| ensures list[j].entryVa == starts[j] {
      assert starts[j] in starts;
    }
    AllIntoCounts(list, i, t, e.kind);
    assert list[i].successors == AllRetargeted(f, blocks[s].successors);
    assert multiset(list[i].successors)[e] > 0;
  }

  /** A pass without candidates changes nothing. */
  lemma {:induction false} NoGaps(code: Code, s: State, n: nat)
    requires n <= |code.index.instrs|
    requires forall i: nat :: i < n && AfterPadding(code.index.instrs, i) ==> code.index.instrs[i].ip in s.owners
    ensures GapList(code, s, n) == []
  {
    if n > 0 {
      NoGaps(code, s, n - 1);
      assert AfterPadding(code.index.instrs, n - 1) ==> code.index.instrs[n - 1].ip in s.owners;
    }
  }

  lemma NothingToPad(code: Code, s: State)
    requires code.Valid()
    requires forall i: nat :: AfterPadding(code.index.instrs, i) ==> code.index.instrs[i].ip in s.owners
    ensures PaddingPass(code, s) == s
  {
    NoGaps(code, s, |code.index.instrs|);
    assert Recorded(s, []) == Pass(s, []);
    AllFoundEnd(code, s);
  }

  /** The function of a straight instruction and a return that nobody owns. */
  function Leaf(d: Instr, e: Instr): Function {
    Finished(d.ip, map[d.ip := BasicBlock(d.ip, e.ip, 2, [Edge(0, EdgeKind.Return)], [])])
  }

  lemma LeafFound(code: Code, s: State, d: Instr, e: Instr, worklist: seq<u64>)
    requires code.Valid() && d in code.index.instrs && e in code.index.instrs
    requires d.flow.Next? && e.flow.Return? && d.NextIp() == e.ip && d.ip != e.ip && e.ip !in code.hardEntries
    requires d.ip !in s.owners && e.ip !in s.owners
    ensures WithFunction(code, s, d.ip, worklist) ==
      Pass(State(s.entries, s.owners[d.ip := d.ip], s.functions[d.ip := Leaf(d, e)]), worklist)
  {
    hide Descended, DecodedBlock, AllEntered, Finished, Code.Valid;
    var owners := s.owners[d.ip := d.ip];
    var b := BasicBlock(d.ip, e.ip, 2, [Edge(0, EdgeKind.Return)], []);
    var nothing: map<u64, BasicBlock> := map[];
    assert nothing.Keys == {};
    assert nothing[d.ip := b] == map[d.ip := b];
    TwoInstructions(code, owners, {}, s.entries, d.ip, d, e);
    EnteredOne(Books(owners, [], s.entries, worklist), d.ip, Edge(0, EdgeKind.Return));
    Decodes(code, d.ip, nothing, Books(owners, [d.ip], s.entries, worklist), d.ip, [], b,
      Books(owners, [], s.entries, worklist));
    DescendedEnd(code, d.ip, map[d.ip := b], Books(owners, [], s.entries, worklist));
  }

  /** The filter pass over a single new candidate, a leaf. */
  lemma OneFilter(code: Code, s: State, d: Instr, e: Instr)
    requires code.Valid() && d in code.index.instrs && e in code.index.instrs
    requires d.flow.Next? && e.flow.Return? && d.NextIp() == e.ip && d.ip != e.ip && e.ip !in code.hardEntries
    requires FilterSet(code) == {d.ip} && code.space.IsExecutableVa(d.ip)
    requires d.ip !in s.entries && d.ip !in Carved(s, d.ip).functions
    requires d.ip !in Carved(s, d.ip).owners && e.ip !in Carved(s, d.ip).owners
    ensures AllCarved(s, AscendingSeq(FilterSet(code))) == Carved(s, d.ip)
    ensures FilterPass(code, s) ==
      var t := Carved(s, d.ip);
      State(t.entries + {d.ip}, t.owners[d.ip := d.ip], t.functions[d.ip := Leaf(d, e)])
  {
    hide FilterSet, WithFunction, Carved, Code.Valid, AllFound, Leaf;
    var t := Carved(s, d.ip);
    assert t.entries == s.entries by { CarvedEntries(s, d.ip); }
    AscendingUnique(AscendingSeq(FilterSet(code)), [d.ip]);
    assert [d.ip][..0] == [];
    assert AllCarved(s, []) == s && AllCarved(s, [d.ip]) == t;
    assert Recorded(t, []) == Pass(t, []);
    var recorded := t.(entries := t.entries + {d.ip});
    assert Recorded(t, [d.ip]) == Pass(recorded, [d.ip]);
    AllFoundNext(code, recorded, d.ip, []);
    LeafFound(code, recorded, d, e, []);
    assert [d.ip] + [] == [d.ip];
    AllFoundEnd(code, State(recorded.entries, t.owners[d.ip := d.ip], t.functions[d.ip := Leaf(d, e)]));
  }

  lemma CarvedEntries(s: State, entry: u64)
    ensures Carved(s, entry).entries == s.entries
  {
  }

  // ---------------------------------------------------------------- code with a swallowed filter

  /**
   * A conditional jump over another one, the padding before a filter that compares with the
   * access-violation code, and a jump back:
   *
   *   401000  jz  40100b
   *   401002  jz  401005
   *   401004  int3
   *   401005  cmp eax, 0c0000005h
   *   40100a  ret
   *   40100b  jmp 401002
   */
  const SPLIT: seq<Instr> := [
    Instr(0x40_1000, 2, ConditionalBranch, 0x40_100B, false, false),
    Instr(0x40_1002, 2, ConditionalBranch, 0x40_1005, false, false),
    Instr(0x40_1004, 1, Interrupt, 0, true, false),
    Instr(0x40_1005, 5, Flow.Next, 0, false, true),
    Instr(0x40_100A, 1, Flow.Return, 0, false, false),
    Instr(0x40_100B, 2, UnconditionalBranch, 0x40_1002, false, false)]

  const SPLIT_CODE := Code(CodeIndex(SPLIT), TEXT, {})

  const SPLIT_SEEDS: seq<u64> := [0x40_1000, 0x40_100B]

  lemma SplitValid()
    ensures SPLIT_CODE.Valid()
  {
  }

  const SPLIT_ENTRIES: set<u64> := {0x40_1000, 0x40_100B}

  const SPLIT_OWNERS: map<u64, u64> := map[
    0x40_1000 := 0x40_1000, 0x40_1002 := 0x40_1000, 0x40_100B := 0x40_1000,
    0x40_1004 := 0x40_1000, 0x40_1005 := 0x40_1000]

  const SPLIT_BLOCKS: map<u64, BasicBlock> := map[
    0x40_1000 := BasicBlock(0x40_1000, 0x40_1000, 1, [Edge(0x40_1002, Fallthrough), Edge(0x40_100B, Conditional)], []),
    0x40_1002 := BasicBlock(0x40_1002, 0x40_1002, 1, [Edge(0x40_1004, Fallthrough), Edge(0x40_1005, Conditional)], []),
    0x40_100B := BasicBlock(0x40_100B, 0x40_100B, 1, [Edge(0x40_1002, Unconditional)], []),
    0x40_1004 := BasicBlock(0x40_1004, 0x40_1004, 1, [Edge(0, EdgeKind.Return)], []),
    0x40_1005 := BasicBlock(0x40_1005, 0x40_100A, 2, [Edge(0, EdgeKind.Return)], [])]

  function SplitBooks(owners: map<u64, u64>, queue: seq<u64>): Books {
    Books(owners, queue, SPLIT_ENTRIES, [0x40_100B])
  }

  lemma SplitEdges()
    ensures TerminatorEdges(SPLIT_CODE, SPLIT_ENTRIES, 0x40_1000, SPLIT[0]) == SPLIT_BLOCKS[0x40_1000].successors
    ensures TerminatorEdges(SPLIT_CODE, SPLIT_ENTRIES, 0x40_1000, SPLIT[1]) == SPLIT_BLOCKS[0x40_1002].successors
    ensures TerminatorEdges(SPLIT_CODE, SPLIT_ENTRIES, 0x40_1000, SPLIT[2]) == SPLIT_BLOCKS[0x40_1004].successors
    ensures TerminatorEdges(SPLIT_CODE, SPLIT_ENTRIES, 0x40_1000, SPLIT[4]) == SPLIT_BLOCKS[0x40_1005].successors
    ensures TerminatorEdges(SPLIT_CODE, SPLIT_ENTRIES, 0x40_1000, SPLIT[5]) == SPLIT_BLOCKS[0x40_100B].successors
  {
    hide AddressSpace.IsExecutableVa;
    TextIsExecutable();
  }

  /** The first two blocks claim everything but the last return. */
  lemma SplitClaims()
    ensures AllEntered(SplitBooks(map[0x40_1000 := 0x40_1000], []), 0x40_1000, SPLIT_BLOCKS[0x40_1000].successors) ==
      SplitBooks(SPLIT_OWNERS - {0x40_1004, 0x40_1005}, [0x40_1002, 0x40_100B])
    ensures AllEntered(
        SplitBooks(SPLIT_OWNERS - {0x40_1004, 0x40_1005}, [0x40_100B]), 0x40_1000, SPLIT_BLOCKS[0x40_1002].successors) ==
      SplitBooks(SPLIT_OWNERS, [0x40_100B, 0x40_1004, 0x40_1005])
  {
    hide AllEntered;
    var f: u64 := 0x40_1000;
    var start := SplitBooks(map[f := f], []);
    var claimed: map<u64, u64> := SPLIT_OWNERS - {0x40_1004, 0x40_1005};
    EnteredTwo(start, f, Edge(0x40_1002, Fallthrough), Edge(0x40_100B, Conditional));
    assert start.owners[0x40_1002 := f][0x40_100B := f] == claimed;
    EnteredTwo(SplitBooks(claimed, [0x40_100B]), f, Edge(0x40_1004, Fallthrough), Edge(0x40_1005, Conditional));
    assert claimed[0x40_1004 := f][0x40_1005 := f] == SPLIT_OWNERS;
  }

  /** Once everything is claimed a block only takes itself out of the queue. */
  lemma SplitEnters(queue: seq<u64>, e: Edge)
    requires e.target in SPLIT_OWNERS || !e.IsFlow()
    requires !e.kind.Call?
    ensures AllEntered(SplitBooks(SPLIT_OWNERS, queue), 0x40_1000, [e]) == SplitBooks(SPLIT_OWNERS, queue)
  {
    EnteredOne(SplitBooks(SPLIT_OWNERS, queue), 0x40_1000, e);
  }

  /** The first function's descent: it swallows the padding, the filter and the other seed. */
  lemma SplitDescends()
    requires SPLIT_CODE.Valid()
    ensures Descended(SPLIT_CODE, 0x40_1000, map[], SplitBooks(map[0x40_1000 := 0x40_1000], [0x40_1000])) ==
      Decoding(SPLIT_BLOCKS, SplitBooks(SPLIT_OWNERS, []))
  {
    hide Descended, DecodedBlock, AllEntered, TerminatorEdges, Code.Valid;
    var f: u64 := 0x40_1000;
    var two: map<u64, u64> := SPLIT_OWNERS - {0x40_1004, 0x40_1005};
    var blocks: map<u64, BasicBlock> := map[f := SPLIT_BLOCKS[f]];
    SplitEdges();
    SplitClaims();
    OneInstruction(SPLIT_CODE, map[f := f], {}, SPLIT_ENTRIES, f, SPLIT[0]);
    var nothing: map<u64, BasicBlock> := map[];
    assert nothing.Keys == {};
    Decodes(SPLIT_CODE, f, map[], SplitBooks(map[f := f], [f]), f, [], SPLIT_BLOCKS[f], SplitBooks(two, [0x40_1002, 0x40_100B]));
    OneInstruction(SPLIT_CODE, two, blocks.Keys, SPLIT_ENTRIES, f, SPLIT[1]);
    Decodes(SPLIT_CODE, f, blocks, SplitBooks(two, [0x40_1002, 0x40_100B]), 0x40_1002, [0x40_100B],
      SPLIT_BLOCKS[0x40_1002], SplitBooks(SPLIT_OWNERS, [0x40_100B, 0x40_1004, 0x40_1005]));
    assert blocks[0x40_1002 := SPLIT_BLOCKS[0x40_1002]] == SPLIT_BLOCKS - {0x40_100B, 0x40_1004, 0x40_1005};
    SplitFinishes();
  }

  /** The rest of the descent. */
  lemma SplitFinishes()
    requires SPLIT_CODE.Valid()
    ensures Descended(SPLIT_CODE, 0x40_1000, SPLIT_BLOCKS - {0x40_100B, 0x40_1004, 0x40_1005},
        SplitBooks(SPLIT_OWNERS, [0x40_100B, 0x40_1004, 0x40_1005])) ==
      Decoding(SPLIT_BLOCKS, SplitBooks(SPLIT_OWNERS, []))
  {
    hide Descended, DecodedBlock, AllEntered, TerminatorEdges, Code.Valid;
    var f: u64 := 0x40_1000;
    var blocks2: map<u64, BasicBlock> := SPLIT_BLOCKS - {0x40_100B, 0x40_1004, 0x40_1005};
    var blocks3: map<u64, BasicBlock> := SPLIT_BLOCKS - {0x40_1004, 0x40_1005};
    var blocks4: map<u64, BasicBlock> := SPLIT_BLOCKS - {0x40_1005};
    SplitEdges();
    OneInstruction(SPLIT_CODE, SPLIT_OWNERS, blocks2.Keys, SPLIT_ENTRIES, f, SPLIT[5]);
    SplitEnters([0x40_1004, 0x40_1005], Edge(0x40_1002, Unconditional));
    Decodes(SPLIT_CODE, f, blocks2, SplitBooks(SPLIT_OWNERS, [0x40_100B, 0x40_1004, 0x40_1005]), 0x40_100B,
      [0x40_1004, 0x40_1005], SPLIT_BLOCKS[0x40_100B], SplitBooks(SPLIT_OWNERS, [0x40_1004, 0x40_1005]));
    assert blocks2[0x40_100B := SPLIT_BLOCKS[0x40_100B]] == blocks3;
    OneInstruction(SPLIT_CODE, SPLIT_OWNERS, blocks3.Keys, SPLIT_ENTRIES, f, SPLIT[2]);
    SplitEnters([0x40_1005], Edge(0, EdgeKind.Return));
    Decodes(SPLIT_CODE, f, blocks3, SplitBooks(SPLIT_OWNERS, [0x40_1004, 0x40_1005]), 0x40_1004,
      [0x40_1005], SPLIT_BLOCKS[0x40_1004], SplitBooks(SPLIT_OWNERS, [0x40_1005]));
    assert blocks3[0x40_1004 := SPLIT_BLOCKS[0x40_1004]] == blocks4;
    TwoInstructions(SPLIT_CODE, SPLIT_OWNERS, blocks4.Keys, SPLIT_ENTRIES, f, SPLIT[3], SPLIT[4]);
    SplitEnters([], Edge(0, EdgeKind.Return));
    Decodes(SPLIT_CODE, f, blocks4, SplitBooks(SPLIT_OWNERS, [0x40_1005]), 0x40_1005,
      [], SPLIT_BLOCKS[0x40_1005], SplitBooks(SPLIT_OWNERS, []));
    assert blocks4[0x40_1005 := SPLIT_BLOCKS[0x40_1005]] == SPLIT_BLOCKS;
    DescendedEnd(SPLIT_CODE, f, SPLIT_BLOCKS, SplitBooks(SPLIT_OWNERS, []));
  }

  function SplitMid(): State {
    State(SPLIT_ENTRIES, SPLIT_OWNERS, map[0x40_1000 := Finished(0x40_1000, SPLIT_BLOCKS)])
  }

  /** The main pass finds one function; the other seed lies in it. */
  lemma SplitMain()
    requires SPLIT_CODE.Valid()
    ensures BeforeFilters(SPLIT_CODE, SPLIT_SEEDS) == SplitMid()
  {
    hide Descended, AllFound, Finished, Code.Valid, AddressSpace.IsExecutableVa, PaddingPass, CodeIndex.WellFormed;
    TextIsExecutable();
    var start := State(set s | s in SPLIT_SEEDS, map[], map[]);
    assert start.entries == SPLIT_ENTRIES;
    assert SPLIT_SEEDS == [0x40_1000] + [0x40_100B];
    AllFoundNext(SPLIT_CODE, start, 0x40_1000, [0x40_100B]);
    SplitDescends();
    assert Claimed(map[], 0x40_1000, 0x40_1000) == map[0x40_1000 := 0x40_1000];
    AllFoundNext(SPLIT_CODE, SplitMid(), 0x40_100B, []);
    assert [0x40_100B] + [] == [0x40_100B];
    AllFoundEnd(SPLIT_CODE, SplitMid());
    NothingToPad(SPLIT_CODE, SplitMid()) by {
      forall i: nat | AfterPadding(SPLIT, i) ensures SPLIT[i].ip in SPLIT_OWNERS {
        assert i == 3;
      }
    }
  }

  lemma SplitFilters()
    ensures FilterSet(SPLIT_CODE) == {0x40_1005}
  {
    hide AddressSpace.IsExecutableVa;
    TextIsExecutable();
    assert IsFilterStart(SPLIT, 3, 3);
    FilterStartUnique(SPLIT, 3, 3);
    assert IsFilterCandidate(SPLIT_CODE, 0x40_1005);
    forall va | va in FilterSet(SPLIT_CODE) ensures va == 0x40_1005 {
      var idx: nat, k: nat :| idx < 6 && SPLIT[idx].hasAvImmediate && IsFilterStart(SPLIT, idx, k) && SPLIT[k].ip == va;
      assert idx == 3;
    }
  }

  /** What the filter pass makes of it. */
  lemma SplitEnds()
    requires SPLIT_CODE.Valid()
    ensures var end := AllPasses(SPLIT_CODE, SPLIT_SEEDS);
      && end.entries == SPLIT_ENTRIES + {0x40_1005}
      && end.owners.Keys == {0x40_1000, 0x40_1002, 0x40_1004, 0x40_1005}
      && end.functions.Keys == {0x40_1000, 0x40_1005}
      && end.functions[0x40_1000].blocks == Below(Finished(0x40_1000, SPLIT_BLOCKS).blocks, 0x40_1005)
  {
    hide Finished, Code.Valid, AddressSpace.IsExecutableVa, BeforeFilters, FilterPass, FilterSet, AllCarved, Leaf, Below;
    TextIsExecutable();
    SplitMain();
    SplitFilters();
    OneFilter(SPLIT_CODE, SplitMid(), SPLIT[3], SPLIT[4]);
  }

  lemma SplitStale()
    ensures !Agree(Below(Finished(0x40_1000, SPLIT_BLOCKS).blocks, 0x40_1005))
  {
    hide Finished, EdgesMatch;
    var f: u64, blocks := 0x40_1000, Finished(0x40_1000, SPLIT_BLOCKS).blocks;
    var b := FinishedLinks(f, SPLIT_BLOCKS, 0x40_100B, 0x40_1002, Edge(0x40_1002, Unconditional)) by {
      assert AllRetargeted(f, SPLIT_BLOCKS[0x40_100B].successors)[0] == Edge(0x40_1002, Unconditional);
    }
    assert b in Below(blocks, 0x40_1005);
    assert !OnlyFrom(Below(blocks, 0x40_1005), b);
  }

  lemma SplitDangles(owners: map<u64, u64>)
    requires 0x40_100B !in owners
    ensures !FlowsStay(owners, 0x40_1000, Below(Finished(0x40_1000, SPLIT_BLOCKS).blocks, 0x40_1005))
  {
    hide Finished;
    var f: u64, e := 0x40_1000, Edge(0x40_100B, Conditional);
    assert !FlowClosed(owners, f, e);
    var b := FinishedHas(f, SPLIT_BLOCKS, f) by {
      assert Keyed(SPLIT_BLOCKS);
    }
    assert e in b.successors by {
      assert AllRetargeted(f, SPLIT_BLOCKS[f].successors)[1] == e;
    }
    assert b in Below(Finished(f, SPLIT_BLOCKS).blocks, 0x40_1005);
  }

  /**
   * The filter is carved out of the function that swallowed it. What is left of that function flows to
   * the jump that went with the filter and still lists it as a predecessor, and the seed at that jump
   * is neither a function nor owned.
   */
  lemma CarvingLeavesDebris()
    ensures SPLIT_CODE.Valid()
    ensures var end := AllPasses(SPLIT_CODE, SPLIT_SEEDS);
      && 0x40_100B in SPLIT_SEEDS && SPLIT_CODE.space.IsExecutableVa(0x40_100B) && !Settled(end, 0x40_100B)
      && !Accounted(SPLIT_CODE, end, [])
      && 0x40_1000 in end.functions
      && !FlowsStay(end.owners, 0x40_1000, end.functions[0x40_1000].blocks)
      && !Agree(end.functions[0x40_1000].blocks)
  {
    SplitValid();
    hide Finished, Code.Valid, AddressSpace.IsExecutableVa, AllPasses, Agree, FlowsStay, Below;
    TextIsExecutable();
    SplitEnds();
    SplitStale();
    SplitDangles(AllPasses(SPLIT_CODE, SPLIT_SEEDS).owners);
  }

  // ---------------------------------------------------------------- code before the seed

  /**
   * A filter behind padding, below the seeded function that jumps back to it:
   *
   *   401000  int3
   *   401001  cmp eax, 0c0000005h
   *   401006  ret
   *   401007  jz  401001
   *   401009  ret
   */
  const BACK: seq<Instr> := [
    Instr(0x40_1000, 1, Interrupt, 0, true, false),
    Instr(0x40_1001, 5, Flow.Next, 0, false, true),
    Instr(0x40_1006, 1, Flow.Return, 0, false, false),
    Instr(0x40_1007, 2, ConditionalBranch, 0x40_1001, false, false),
    Instr(0x40_1009, 1, Flow.Return, 0, false, false)]

  const BACK_CODE := Code(CodeIndex(BACK), TEXT, {})

  const BACK_SEEDS: seq<u64> := [0x40_1007]

  const BACK_OWNERS: map<u64, u64> :=
    map[0x40_1007 := 0x40_1007, 0x40_1009 := 0x40_1007, 0x40_1001 := 0x40_1007]

  const BACK_BLOCKS: map<u64, BasicBlock> := map[
    0x40_1007 := BasicBlock(0x40_1007, 0x40_1007, 1, [Edge(0x40_1009, Fallthrough), Edge(0x40_1001, Conditional)], []),
    0x40_1009 := BasicBlock(0x40_1009, 0x40_1009, 1, [Edge(0, EdgeKind.Return)], []),
    0x40_1001 := BasicBlock(0x40_1001, 0x40_1006, 2, [Edge(0, EdgeKind.Return)], [])]

  lemma BackValid()
    ensures BACK_CODE.Valid()
  {
  }

  function BackBooks(owners: map<u64, u64>, queue: seq<u64>): Books {
    Books(owners, queue, {0x40_1007}, [])
  }

  lemma BackEdges()
    ensures TerminatorEdges(BACK_CODE, {0x40_1007}, 0x40_1007, BACK[3]) == BACK_BLOCKS[0x40_1007].successors
  {
    hide AddressSpace.IsExecutableVa;
    TextIsExecutable();
  }

  lemma BackClaims()
    ensures AllEntered(BackBooks(map[0x40_1007 := 0x40_1007], []), 0x40_1007, BACK_BLOCKS[0x40_1007].successors) ==
      BackBooks(BACK_OWNERS, [0x40_1009, 0x40_1001])
  {
    hide AllEntered;
    var f: u64 := 0x40_1007;
    var start := BackBooks(map[f := f], []);
    EnteredTwo(start, f, Edge(0x40_1009, Fallthrough), Edge(0x40_1001, Conditional));
    assert start.owners[0x40_1009 := f][0x40_1001 := f] == BACK_OWNERS;
  }

  lemma BackEnters(queue: seq<u64>)
    ensures AllEntered(BackBooks(BACK_OWNERS, queue), 0x40_1007, [Edge(0, EdgeKind.Return)]) ==
      BackBooks(BACK_OWNERS, queue)
  {
    EnteredOne(BackBooks(BACK_OWNERS, queue), 0x40_1007, Edge(0, EdgeKind.Return));
  }

  lemma BackDescends()
    requires BACK_CODE.Valid()
    ensures Descended(BACK_CODE, 0x40_1007, map[], BackBooks(map[0x40_1007 := 0x40_1007], [0x40_1007])) ==
      Decoding(BACK_BLOCKS, BackBooks(BACK_OWNERS, []))
  {
    hide Descended, DecodedBlock, AllEntered, TerminatorEdges, Code.Valid;
    var f: u64, entries: set<u64> := 0x40_1007, {0x40_1007};
    var nothing: map<u64, BasicBlock> := map[];
    var one: map<u64, BasicBlock> := map[f := BACK_BLOCKS[f]];
    var two: map<u64, BasicBlock> := BACK_BLOCKS - {0x40_1001};
    assert nothing.Keys == {};
    BackEdges();
    BackClaims();
    OneInstruction(BACK_CODE, map[f := f], {}, entries, f, BACK[3]);
    Decodes(BACK_CODE, f, nothing, BackBooks(map[f := f], [f]), f, [], BACK_BLOCKS[f],
      BackBooks(BACK_OWNERS, [0x40_1009, 0x40_1001]));
    assert nothing[f := BACK_BLOCKS[f]] == one;
    OneReturn(BACK_CODE, BACK_OWNERS, one.Keys, entries, f, BACK[4]);
    BackEnters([0x40_1001]);
    Decodes(BACK_CODE, f, one, BackBooks(BACK_OWNERS, [0x40_1009, 0x40_1001]), 0x40_1009, [0x40_1001],
      BACK_BLOCKS[0x40_1009], BackBooks(BACK_OWNERS, [0x40_1001]));
    assert one[0x40_1009 := BACK_BLOCKS[0x40_1009]] == two;
    TwoToReturn(BACK_CODE, BACK_OWNERS, two.Keys, entries, f, BACK[1], BACK[2]);
    BackEnters([]);
    Decodes(BACK_CODE, f, two, BackBooks(BACK_OWNERS, [0x40_1001]), 0x40_1001, [],
      BACK_BLOCKS[0x40_1001], BackBooks(BACK_OWNERS, []));
    assert two[0x40_1001 := BACK_BLOCKS[0x40_1001]] == BACK_BLOCKS;
    DescendedEnd(BACK_CODE, f, BACK_BLOCKS, BackBooks(BACK_OWNERS, []));
  }

  function BackMid(): State {
    State({0x40_1007}, BACK_OWNERS, map[0x40_1007 := Finished(0x40_1007, BACK_BLOCKS)])
  }

  lemma BackMain()
    requires BACK_CODE.Valid()
    ensures BeforeFilters(BACK_CODE, BACK_SEEDS) == BackMid()
  {
    hide Descended, AllFound, Finished, Code.Valid, AddressSpace.IsExecutableVa, PaddingPass, CodeIndex.WellFormed;
    TextIsExecutable();
    var start := State(set s | s in BACK_SEEDS, map[], map[]);
    assert start.entries == {0x40_1007};
    assert BACK_SEEDS == [0x40_1007] + [];
    AllFoundNext(BACK_CODE, start, 0x40_1007, []);
    BackDescends();
    assert Claimed(map[], 0x40_1007, 0x40_1007) == map[0x40_1007 := 0x40_1007];
    AllFoundEnd(BACK_CODE, BackMid());
    NothingToPad(BACK_CODE, BackMid()) by {
      forall i: nat | AfterPadding(BACK, i) ensures BACK[i].ip in BACK_OWNERS {
        assert i == 1;
      }
    }
  }

  lemma BackFilters()
    ensures FilterSet(BACK_CODE) == {0x40_1001}
  {
    hide AddressSpace.IsExecutableVa;
    TextIsExecutable();
    assert IsFilterStart(BACK, 1, 1);
    FilterStartUnique(BACK, 1, 1);
    assert IsFilterCandidate(BACK_CODE, 0x40_1001);
    forall va | va in FilterSet(BACK_CODE) ensures va == 0x40_1001 {
      var idx: nat, k: nat :| idx < 5 && BACK[idx].hasAvImmediate && IsFilterStart(BACK, idx, k) && BACK[k].ip == va;
      assert idx == 1;
    }
  }

  lemma {:induction false} NoneBelow(blocks: seq<BasicBlock>, cut: u64)
    requires forall b :: b in blocks ==> b.entryVa >= cut
    ensures Below(blocks, cut) == []
  {
    if blocks != [] {
      assert blocks[|blocks| - 1] in blocks;
      NoneBelow(blocks[..|blocks| - 1], cut);
    }
  }

  lemma BackCarved()
    ensures Below(Finished(0x40_1007, BACK_BLOCKS).blocks, 0x40_1001) == []
  {
    hide Finished;
    FinishedOnly(0x40_1007, BACK_BLOCKS);
    NoneBelow(Finished(0x40_1007, BACK_BLOCKS).blocks, 0x40_1001);
  }

  /** Carving below its entry leaves the seeded function without any block. */
  lemma CarvingEmptiesFunction()
    ensures BACK_CODE.Valid()
    ensures var end := AllPasses(BACK_CODE, BACK_SEEDS);
      && 0x40_1007 in BACK_SEEDS && 0x40_1007 in end.functions
      && end.functions[0x40_1007].blocks == [] && 0x40_1007 !in end.owners
  {
    BackValid();
    hide Finished, Code.Valid, AddressSpace.IsExecutableVa, BeforeFilters, FilterPass, FilterSet, AllCarved, Leaf, Below;
    TextIsExecutable();
    BackMain();
    BackFilters();
    BackCarved();
    OneFilter(BACK_CODE, BackMid(), BACK[1], BACK[2]);
  }

  // ---------------------------------------------------------------- an indirect call before a hard entry

  /**
   * A call through a register directly before a hard entry:
   *
   *   401000  call rax
   *   401002  ret
   */
  const CALL_CODE := Code(
    CodeIndex([
      Instr(0x40_1000, 2, IndirectCall, 0, false, false),
      Instr(0x40_1002, 1, Flow.Return, 0, false, false)]),
    TEXT, {0x40_1002})

  const CALL_SEEDS: seq<u64> := [0x40_1000, 0x40_1002]

  const CALL_OWNERS: map<u64, u64> := map[0x40_1000 := 0x40_1000, 0x40_1002 := 0x40_1000]

  const CALL_BLOCKS: map<u64, BasicBlock> := map[
    0x40_1000 := BasicBlock(0x40_1000, 0x40_1000, 1, [Edge(0x40_1002, Fallthrough), Edge(0, Indirect)], []),
    0x40_1002 := BasicBlock(0x40_1002, 0x40_1002, 1, [Edge(0, EdgeKind.Return)], [])]

  lemma CallValid()
    ensures CALL_CODE.Valid()
  {
  }

  function CallBooks(owners: map<u64, u64>, queue: seq<u64>): Books {
    Books(owners, queue, {0x40_1000, 0x40_1002}, [0x40_1002])
  }

  lemma CallDescends()
    requires CALL_CODE.Valid()
    ensures Descended(CALL_CODE, 0x40_1000, map[], CallBooks(map[0x40_1000 := 0x40_1000], [0x40_1000])) ==
      Decoding(CALL_BLOCKS, CallBooks(CALL_OWNERS, []))
  {
    hide Descended, DecodedBlock, AllEntered, Code.Valid, AddressSpace.IsExecutableVa;
    TextIsExecutable();
    var f: u64, entries: set<u64> := 0x40_1000, {0x40_1000, 0x40_1002};
    var nothing: map<u64, BasicBlock> := map[];
    var one: map<u64, BasicBlock> := map[f := CALL_BLOCKS[f]];
    var call, ret := CALL_CODE.index.instrs[0], CALL_CODE.index.instrs[1];
    assert nothing.Keys == {};
    OneInstruction(CALL_CODE, map[f := f], {}, entries, f, call);
    assert TerminatorEdges(CALL_CODE, entries, f, call) == CALL_BLOCKS[f].successors;
    var start := CallBooks(map[f := f], []);
    EnteredTwo(start, f, Edge(0x40_1002, Fallthrough), Edge(0, Indirect));
    assert start.owners[0x40_1002 := f] == CALL_OWNERS;
    Decodes(CALL_CODE, f, nothing, CallBooks(map[f := f], [f]), f, [], CALL_BLOCKS[f], CallBooks(CALL_OWNERS, [0x40_1002]));
    assert nothing[f := CALL_BLOCKS[f]] == one;
    OneReturn(CALL_CODE, CALL_OWNERS, one.Keys, entries, f, ret);
    EnteredOne(CallBooks(CALL_OWNERS, []), f, Edge(0, EdgeKind.Return));
    Decodes(CALL_CODE, f, one, CallBooks(CALL_OWNERS, [0x40_1002]), 0x40_1002, [], CALL_BLOCKS[0x40_1002],
      CallBooks(CALL_OWNERS, []));
    assert one[0x40_1002 := CALL_BLOCKS[0x40_1002]] == CALL_BLOCKS;
    DescendedEnd(CALL_CODE, f, CALL_BLOCKS, CallBooks(CALL_OWNERS, []));
  }

  function CallMid(): State {
    State({0x40_1000, 0x40_1002}, CALL_OWNERS, map[0x40_1000 := Finished(0x40_1000, CALL_BLOCKS)])
  }

  lemma CallMain()
    requires CALL_CODE.Valid()
    ensures BeforeFilters(CALL_CODE, CALL_SEEDS) == CallMid()
  {
    hide Descended, AllFound, Finished, Code.Valid, AddressSpace.IsExecutableVa, PaddingPass, CodeIndex.WellFormed;
    TextIsExecutable();
    var start := State(set s | s in CALL_SEEDS, map[], map[]);
    assert start.entries == {0x40_1000, 0x40_1002};
    assert CALL_SEEDS == [0x40_1000] + [0x40_1002];
    AllFoundNext(CALL_CODE, start, 0x40_1000, [0x40_1002]);
    CallDescends();
    assert Claimed(map[], 0x40_1000, 0x40_1000) == map[0x40_1000 := 0x40_1000];
    AllFoundNext(CALL_CODE, CallMid(), 0x40_1002, []);
    assert [0x40_1002] + [] == [0x40_1002];
    AllFoundEnd(CALL_CODE, CallMid());
    NothingToPad(CALL_CODE, CallMid());
  }

  /** The caller claims the hard entry that follows an indirect call, which then is no function. */
  lemma IndirectCallClaimsHardEntry()
    ensures CALL_CODE.Valid()
    ensures var end := AllPasses(CALL_CODE, CALL_SEEDS);
      && 0x40_1002 in CALL_CODE.hardEntries && 0x40_1002 in CALL_SEEDS && CALL_CODE.space.IsExecutableVa(0x40_1002)
      && 0x40_1002 !in end.functions && 0x40_1002 in end.owners && end.owners[0x40_1002] == 0x40_1000
  {
    CallValid();
    hide Finished, Code.Valid, AddressSpace.IsExecutableVa, BeforeFilters, AllFound;
    TextIsExecutable();
    CallMain();
    assert FilterSet(CALL_CODE) == {};
    assert AscendingSeq({}) == [];
    assert AllCarved(CallMid(), []) == CallMid() && Recorded(CallMid(), []) == Pass(CallMid(), []);
    AllFoundEnd(CALL_CODE, CallMid());
  }
}
