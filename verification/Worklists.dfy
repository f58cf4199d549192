/** What discovery computes: its worklists, passes and carving as functions of the code and the seeds. */
module Worklists {
  import opened Prelude
  import opened CodeIndexes
  import opened Functions
  import opened Predecessors

  /** The mutable maps of a discovery, as one value. */
  datatype State = State(entries: set<u64>, owners: map<u64, u64>, functions: map<u64, Function>)

  // ---------------------------------------------------------------- one function

  lemma QueuedTrans(a: seq<u64>, b: seq<u64>, c: seq<u64>, ea: set<u64>, eb: set<u64>, ec: set<u64>)
    requires ea <= eb <= ec && QueuedNew(a, b, eb - ea) && QueuedNew(b, c, ec - eb)
    ensures QueuedNew(a, c, ec - ea)
  {
    assert ec - ea == (ec - eb) + (eb - ea);
  }

  /** What decoding adds stays inside the reachable addresses, so the block queue runs dry. */
  lemma DecodeProgress(code: Code, known: set<u64>, f: u64, start: u64, books: Books, b: BasicBlock)
    requires code.Valid() && b == DecodedBlock(code, books.owners, known, books.entries, f, start)
    ensures var after := AllEntered(books, f, b.successors);
      && QueuedNew(books.worklist, after.worklist, after.entries - books.entries)
      && books.entries <= after.entries <= books.entries + code.Reachable()
      && books.owners.Keys <= after.owners.Keys <= books.owners.Keys + code.Reachable()
      && (after.owners.Keys == books.owners.Keys ==> after.blockQueue == books.blockQueue)
  {
    hide AllEntered, DecodedBlock, Code.Reachable;
    var after := AllEntered(books, f, b.successors);
    EnteredClaims(books, f, b.successors);
    EnteredCalls(books, f, b.successors);
    forall e | e in b.successors && (e.IsFlow() || e.kind.Call?) ensures e.target in code.Reachable() {
      EdgesReachable(code, books.owners, known, books.entries, f, start, e);
    }
    assert FlowTargets(b.successors) <= code.Reachable();
    assert CallTargets(b.successors) <= code.Reachable();
    assert after.entries - books.entries == CallTargets(b.successors) - books.entries;
  }

  /** The blocks decoded so far and the maps and queues they have fed. */
  datatype Decoding = Decoding(blocks: map<u64, BasicBlock>, books: Books)

  /** `start` is next in the block queue and is not decoded: `f` claims it if nobody owns it. */
  ghost function Claimed(owners: map<u64, u64>, f: u64, start: u64): map<u64, u64> {
    if start in owners then owners else owners[start := f]
  }

  /** The books once the block at `start`, taken from the queue, is decoded. */
  ghost function DecodedBooks(code: Code, f: u64, known: set<u64>, books: Books, start: u64, rest: seq<u64>): Books
    requires code.Valid()
  {
    var claimed := books.(owners := Claimed(books.owners, f, start), blockQueue := rest);
    AllEntered(claimed, f, DecodedBlock(code, claimed.owners, known, books.entries, f, start).successors)
  }

  lemma DecodedBooksProgress(code: Code, f: u64, known: set<u64>, books: Books, start: u64, rest: seq<u64>)
    requires code.Valid()
    ensures var after := DecodedBooks(code, f, known, books, start, rest);
      && code.Reachable() - after.owners.Keys <= code.Reachable() - books.owners.Keys
      && (code.Reachable() - after.owners.Keys == code.Reachable() - books.owners.Keys ==> after.blockQueue == rest)
      && books.entries <= after.entries <= books.entries + code.Reachable()
      && QueuedNew(books.worklist, after.worklist, after.entries - books.entries)
  {
    hide AllEntered, DecodedBlock, Code.Reachable, QueuedNew;
    var claimed := books.(owners := Claimed(books.owners, f, start), blockQueue := rest);
    var b := DecodedBlock(code, claimed.owners, known, books.entries, f, start);
    DecodeProgress(code, known, f, start, claimed, b);
    var after := AllEntered(claimed, f, b.successors);
    if code.Reachable() - after.owners.Keys == code.Reachable() - books.owners.Keys {
      forall a | a in after.owners ensures a in claimed.owners {
        assert a in code.Reachable() - books.owners.Keys || a in claimed.owners;
      }
    }
  }

  /** The block worklist of `f`, run until it is empty. */
  ghost function Descended(code: Code, f: u64, blocks: map<u64, BasicBlock>, books: Books): Decoding
    requires code.Valid()
    decreases code.Reachable() - books.owners.Keys, |books.blockQueue|
  {
    if books.blockQueue == [] then Decoding(blocks, books)
    else
      var start, rest := books.blockQueue[0], books.blockQueue[1..];
      if start in blocks || (start in books.owners && books.owners[start] != f) then
        Descended(code, f, blocks, books.(blockQueue := rest))
      else
        DecodedBooksProgress(code, f, blocks.Keys, books, start, rest);
        var b := DecodedBlock(code, Claimed(books.owners, f, start), blocks.Keys, books.entries, f, start);
        Descended(code, f, blocks[start := b], DecodedBooks(code, f, blocks.Keys, books, start, rest))
  }

  lemma DescendedNext(code: Code, f: u64, blocks: map<u64, BasicBlock>, books: Books, start: u64, rest: seq<u64>)
    requires code.Valid() && books.blockQueue == [start] + rest
    ensures Descended(code, f, blocks, books) ==
      if start in blocks || (start in books.owners && books.owners[start] != f) then
        Descended(code, f, blocks, books.(blockQueue := rest))
      else
        Descended(code, f,
          blocks[start := DecodedBlock(code, Claimed(books.owners, f, start), blocks.Keys, books.entries, f, start)],
          DecodedBooks(code, f, blocks.Keys, books, start, rest))
  {
  }

  lemma DescendedEnd(code: Code, f: u64, blocks: map<u64, BasicBlock>, books: Books)
    requires code.Valid() && books.blockQueue == []
    ensures Descended(code, f, blocks, books) == Decoding(blocks, books)
  {
  }

  /** A descent records only branch targets, each new one once it is queued. */
  lemma {:induction false} DescendedProgress(code: Code, f: u64, blocks: map<u64, BasicBlock>, books: Books)
    requires code.Valid()
    ensures var after := Descended(code, f, blocks, books).books;
      && books.entries <= after.entries <= books.entries + code.Reachable()
      && QueuedNew(books.worklist, after.worklist, after.entries - books.entries)
    decreases code.Reachable() - books.owners.Keys, |books.blockQueue|
  {
    hide DecodedBooks, DecodedBlock, Code.Reachable;
    if books.blockQueue == [] {
      assert books.entries - books.entries == {};
    } else {
      var start, rest := books.blockQueue[0], books.blockQueue[1..];
      if start in blocks || (start in books.owners && books.owners[start] != f) {
        DescendedProgress(code, f, blocks, books.(blockQueue := rest));
      } else {
        DecodedBooksProgress(code, f, blocks.Keys, books, start, rest);
        var b := DecodedBlock(code, Claimed(books.owners, f, start), blocks.Keys, books.entries, f, start);
        var mid := DecodedBooks(code, f, blocks.Keys, books, start, rest);
        DescendedProgress(code, f, blocks[start := b], mid);
        var after := Descended(code, f, blocks[start := b], mid).books;
        QueuedTrans(books.worklist, mid.worklist, after.worklist, books.entries, mid.entries, after.entries);
      }
    }
  }

  /** The rewrite of successor kinds that `discover_function` applies to its finished blocks. */
  function Retargeted(f: u64, e: Edge): Edge {
    if e.target != 0 && e.target < f then e.(kind := TailCall) else e
  }

  function AllRetargeted(f: u64, edges: seq<Edge>): seq<Edge> {
    seq(|edges|, i requires 0 <= i < |edges| => Retargeted(f, edges[i]))
  }

  /** Starts of the decoded blocks at or above the entry, in address order. */
  function ListedStarts(blocks: map<u64, BasicBlock>, f: u64): (r: seq<u64>)
    ensures forall a :: a in r <==> a in blocks && a >= f
    ensures forall i, j :: 0 <= i < j < |r| ==> r[i] < r[j]
  {
    AscendingSeq(set a | a in blocks.Keys && a >= f)
  }

  /** The decoded blocks at or above the entry, in address order. */
  function Listed(blocks: map<u64, BasicBlock>, f: u64): (r: seq<BasicBlock>)
    ensures |r| == |ListedStarts(blocks, f)|
    ensures forall i :: 0 <= i < |r| ==> r[i] == blocks[ListedStarts(blocks, f)[i]]
  {
    var starts := ListedStarts(blocks, f);
    seq(|starts|, i requires 0 <= i < |starts| => assert starts[i] in starts; blocks[starts[i]])
  }

  function RetargetedBlocks(f: u64, blocks: seq<BasicBlock>): (r: seq<BasicBlock>)
    ensures |r| == |blocks|
    ensures forall i :: 0 <= i < |r| ==> r[i] == blocks[i].(successors := AllRetargeted(f, blocks[i].successors))
  {
    seq(|blocks|, i requires 0 <= i < |blocks| => blocks[i].(successors := AllRetargeted(f, blocks[i].successors)))
  }

  /** The blocks with the predecessor entries of every edge among them. */
  function WithPredecessors(blocks: seq<BasicBlock>): seq<BasicBlock> {
    seq(|blocks|, i requires 0 <= i < |blocks| =>
      blocks[i].(predecessors := blocks[i].predecessors + AllInto(blocks, blocks[i].entryVa)))
  }

  /** The function made of the decoded blocks. */
  function Finished(f: u64, blocks: map<u64, BasicBlock>): Function {
    Function(f, WithPredecessors(RetargetedBlocks(f, Listed(blocks, f))))
  }

  // ---------------------------------------------------------------- the function worklist

  datatype Pass = Pass(state: State, worklist: seq<u64>)

  /** `discover_function`. */
  ghost function WithFunction(code: Code, s: State, entry: u64, worklist: seq<u64>): Pass
    requires code.Valid()
  {
    if entry in s.owners && s.owners[entry] != entry then Pass(s, worklist)
    else
      var books := Books(Claimed(s.owners, entry, entry), [entry], s.entries, worklist);
      var d := Descended(code, entry, map[], books);
      Pass(State(d.books.entries, d.books.owners, s.functions[entry := Finished(entry, d.blocks)]), d.books.worklist)
  }

  /** The entry is a function already or cannot become one. */
  ghost predicate Passed(code: Code, s: State, entry: u64) {
    entry in s.functions || !code.space.IsExecutableVa(entry)
  }

  lemma WithFunctionProgress(code: Code, s: State, entry: u64, worklist: seq<u64>)
    requires code.Valid()
    ensures var p := WithFunction(code, s, entry, worklist);
      && code.Reachable() - p.state.entries <= code.Reachable() - s.entries
      && (code.Reachable() - p.state.entries == code.Reachable() - s.entries ==> p.worklist == worklist)
  {
    hide Descended, Finished, Code.Reachable;
    if !(entry in s.owners && s.owners[entry] != entry) {
      var books := Books(Claimed(s.owners, entry, entry), [entry], s.entries, worklist);
      DescendedProgress(code, entry, map[], books);
      var after := Descended(code, entry, map[], books).books;
      if code.Reachable() - after.entries == code.Reachable() - s.entries {
        forall e | e in after.entries ensures e in s.entries {
          assert e in code.Reachable() - s.entries || e in s.entries;
        }
        assert after.entries - books.entries == {};
      }
    }
  }

  /** The function worklist, run until it is empty. */
  ghost function AllFound(code: Code, s: State, worklist: seq<u64>): State
    requires code.Valid()
    decreases code.Reachable() - s.entries, |worklist|
  {
    if worklist == [] then s
    else if Passed(code, s, worklist[0]) then AllFound(code, s, worklist[1..])
    else
      WithFunctionProgress(code, s, worklist[0], worklist[1..]);
      var p := WithFunction(code, s, worklist[0], worklist[1..]);
      AllFound(code, p.state, p.worklist)
  }

  lemma AllFoundNext(code: Code, s: State, entry: u64, rest: seq<u64>)
    requires code.Valid()
    ensures AllFound(code, s, [entry] + rest) ==
      if Passed(code, s, entry) then AllFound(code, s, rest)
      else var p := WithFunction(code, s, entry, rest); AllFound(code, p.state, p.worklist)
  {
  }

  lemma AllFoundEnd(code: Code, s: State)
    requires code.Valid()
    ensures AllFound(code, s, []) == s
  {
  }

  // ---------------------------------------------------------------- candidates

  /** The candidates that are not recorded yet are recorded and queued, in order. */
  ghost function Recorded(s: State, candidates: seq<u64>): Pass {
    if candidates == [] then Pass(s, [])
    else
      var front, c := Recorded(s, candidates[..|candidates| - 1]), candidates[|candidates| - 1];
      if c in front.state.entries then front
      else Pass(front.state.(entries := front.state.entries + {c}), front.worklist + [c])
  }

  /** Instruction `i` is real code directly after an `int3`. */
  ghost predicate AfterPadding(instrs: seq<Instr>, i: int) {
    0 < i < |instrs| && instrs[i - 1].isInt3 && !instrs[i].isInt3
  }

  /** Candidates of the padding pass among the first `n` instructions. */
  ghost function GapList(code: Code, s: State, n: nat): seq<u64>
    requires n <= |code.index.instrs|
  {
    if n == 0 then []
    else
      var va := code.index.instrs[n - 1].ip;
      GapList(code, s, n - 1) +
      (if AfterPadding(code.index.instrs, n - 1) && va !in s.functions && va !in s.owners && code.space.IsExecutableVa(va)
       then [va] else [])
  }

  /** Element `k` starts the padding-free stretch of code that reaches element `idx`. */
  ghost predicate IsFilterStart(instrs: seq<Instr>, idx: nat, k: nat)
    requires idx < |instrs|
  {
    && k <= idx
    && (forall i :: k <= i < idx ==> !instrs[i].isInt3)
    && (k > 0 ==> instrs[k - 1].isInt3)
  }

  ghost predicate IsFilterCandidateBelow(code: Code, va: u64, n: nat)
    requires n <= |code.index.instrs|
  {
    exists idx: nat, k: nat :: idx < n && code.index.instrs[idx].hasAvImmediate
      && IsFilterStart(code.index.instrs, idx, k) && code.index.instrs[k].ip == va && code.space.IsExecutableVa(va)
  }

  /** `va` starts a padded stretch of code with an access-violation compare in it. */
  ghost predicate IsFilterCandidate(code: Code, va: u64) {
    IsFilterCandidateBelow(code, va, |code.index.instrs|)
  }

  ghost function FilterSet(code: Code): (r: set<u64>)
    ensures forall va :: va in r <==> IsFilterCandidate(code, va)
  {
    set d | d in code.index.instrs && IsFilterCandidate(code, d.ip) :: d.ip
  }

  // ---------------------------------------------------------------- carving

  /** `retain(|b| b.entry_va < cut)`. */
  function Below(blocks: seq<BasicBlock>, cut: u64): (r: seq<BasicBlock>)
    ensures forall b :: b in r <==> b in blocks && b.entryVa < cut
  {
    if blocks == [] then []
    else Below(blocks[..|blocks| - 1], cut) +
         (if blocks[|blocks| - 1].entryVa < cut then [blocks[|blocks| - 1]] else [])
  }

  /** Another function owns the candidate, which is no function itself. */
  ghost predicate Swallowed(s: State, entry: u64) {
    entry !in s.functions && entry in s.owners && s.owners[entry] != entry
  }

  /** Carving the swallowed candidate `entry` out takes `a` from the function that owns it. */
  ghost predicate Released(s: State, entry: u64, a: u64)
    requires Swallowed(s, entry)
  {
    a in s.owners && s.owners[a] == s.owners[entry] && a >= entry
  }

  /** The state after carving the candidate `entry` out of a function that swallowed it. */
  ghost function Carved(s: State, entry: u64): State {
    if !Swallowed(s, entry) then s
    else
      var owner := s.owners[entry];
      State(
        s.entries,
        map a | a in s.owners && !Released(s, entry, a) :: s.owners[a],
        if owner in s.functions
        then s.functions[owner := s.functions[owner].(blocks := Below(s.functions[owner].blocks, entry))]
        else s.functions)
  }

  ghost function AllCarved(s: State, candidates: seq<u64>): State {
    if candidates == [] then s
    else Carved(AllCarved(s, candidates[..|candidates| - 1]), candidates[|candidates| - 1])
  }

  // ---------------------------------------------------------------- the three passes

  /** The main pass. */
  ghost function MainPass(code: Code, seeds: seq<u64>): State
    requires code.Valid()
  {
    AllFound(code, State(set s | s in seeds, map[], map[]), seeds)
  }

  /** The padding pass. */
  ghost function PaddingPass(code: Code, s: State): State
    requires code.Valid()
  {
    var p := Recorded(s, GapList(code, s, |code.index.instrs|));
    AllFound(code, p.state, p.worklist)
  }

  /** The filter pass. */
  ghost function FilterPass(code: Code, s: State): State
    requires code.Valid()
  {
    var candidates := AscendingSeq(FilterSet(code));
    var p := Recorded(AllCarved(s, candidates), candidates);
    AllFound(code, p.state, p.worklist)
  }

  /** What the first two passes find. */
  ghost function BeforeFilters(code: Code, seeds: seq<u64>): State
    requires code.Valid()
  {
    PaddingPass(code, MainPass(code, seeds))
  }

  /** What discovery finds. */
  ghost function AllPasses(code: Code, seeds: seq<u64>): State
    requires code.Valid()
  {
    FilterPass(code, BeforeFilters(code, seeds))
  }
}
