/** Jumps to function entries: no jump takes an address that was seeded away from its own function. */
module TailCalls {
  import opened Prelude
  import opened CodeIndexes
  import opened Functions
  import opened Worklists

  /**
   * Some instruction other than a jump leads to `a`: a conditional branch, or a call that returns to it.
   * To a hard entry only an indirect call does.
   */
  ghost predicate LedTo(code: Code, a: u64) {
    exists d :: d in code.index.instrs &&
      match d.flow
      case IndirectCall => a == d.NextIp()
      case ConditionalBranch => a !in code.hardEntries && (a == d.NextIp() || a == d.target)
      case Call => a !in code.hardEntries && a == d.NextIp()
      case _ => false
  }

  /** Of the addresses `kept` a function other than their own owns only those something leads to. */
  ghost predicate OwnersKeep(code: Code, kept: set<u64>, owners: map<u64, u64>) {
    forall a :: a in kept && a in owners && owners[a] != a ==> LedTo(code, a)
  }

  /** What a block of `f` claims of the recorded entries are its own entry and addresses something leads to. */
  lemma BlockClaims(
    code: Code, owners: map<u64, u64>, known: set<u64>, entries: set<u64>, f: u64, start: u64, t: u64)
    requires code.Valid() && known <= owners.Keys && t in entries && t !in owners && t != f
    requires t in FlowTargets(DecodedBlock(code, owners, known, entries, f, start).successors)
    ensures LedTo(code, t)
  {
    hide DecodedBlock, FlowTargets, StraightRun;
    BlockFlowsIff(code, owners, known, entries, f, start, t);
    var run := StraightRun(code, owners, known, f, start, start);
    var last := run[|run| - 1];
    RunDecoded(code, owners, known, f, start, start, last);
    if last.flow.Next? {
      RunGoesOn(code, owners, known, f, start, start);
    }
  }

  /** Everything queued or decoded is owned. */
  ghost predicate QueueOwned(blocks: set<u64>, books: Books) {
    blocks <= books.owners.Keys && forall a :: a in books.blockQueue ==> a in books.owners
  }

  /** Decoding one block keeps the seeds. */
  lemma DecodedKeeps(
    code: Code, kept: set<u64>, f: u64, known: set<u64>, books: Books, start: u64, rest: seq<u64>)
    requires code.Valid() && kept <= books.entries && books.blockQueue == [start] + rest
    requires QueueOwned(known, books) && OwnersKeep(code, kept, books.owners)
    ensures
      var after := DecodedBooks(code, f, known, books, start, rest);
      && kept <= after.entries && OwnersKeep(code, kept, after.owners) && QueueOwned(known + {start}, after)
  {
    hide AllEntered, DecodedBlock, LedTo, FlowTargets;
    assert start in books.blockQueue && forall a :: a in rest ==> a in books.blockQueue;
    var from := books.(blockQueue := rest);
    var b := DecodedBlock(code, books.owners, known, books.entries, f, start);
    var after := AllEntered(from, f, b.successors);
    EnteredClaims(from, f, b.successors);
    EnteredCalls(from, f, b.successors);
    forall a | a in kept && a in after.owners && after.owners[a] != a ensures LedTo(code, a) {
      if a !in books.owners {
        BlockClaims(code, books.owners, known, books.entries, f, start, a);
      }
    }
  }

  /** Decoding all of a function does. */
  lemma {:induction false} DescendedKeeps(code: Code, kept: set<u64>, f: u64, blocks: map<u64, BasicBlock>, books: Books)
    requires code.Valid() && kept <= books.entries
    requires QueueOwned(blocks.Keys, books) && OwnersKeep(code, kept, books.owners)
    ensures var after := Descended(code, f, blocks, books).books;
      kept <= after.entries && OwnersKeep(code, kept, after.owners)
    decreases code.Reachable() - books.owners.Keys, |books.blockQueue|
  {
    hide DecodedBooks, DecodedBlock, OwnersKeep, Code.Reachable;
    if books.blockQueue == [] {
      DescendedEnd(code, f, blocks, books);
    } else {
      var start, rest := books.blockQueue[0], books.blockQueue[1..];
      assert books.blockQueue == [start] + rest && start in books.blockQueue;
      DescendedNext(code, f, blocks, books, start, rest);
      if start in blocks || (start in books.owners && books.owners[start] != f) {
        DescendedKeeps(code, kept, f, blocks, books.(blockQueue := rest));
      } else {
        DecodedBooksProgress(code, f, blocks.Keys, books, start, rest);
        DecodedKeeps(code, kept, f, blocks.Keys, books, start, rest);
        var b := DecodedBlock(code, Claimed(books.owners, f, start), blocks.Keys, books.entries, f, start);
        assert blocks[start := b].Keys == blocks.Keys + {start};
        DescendedKeeps(code, kept, f, blocks[start := b], DecodedBooks(code, f, blocks.Keys, books, start, rest));
      }
    }
  }

  /** The state still has the seeds recorded, and no jump took one. */
  ghost predicate SeedsKept(code: Code, kept: set<u64>, s: State) {
    kept <= s.entries && OwnersKeep(code, kept, s.owners)
  }

  /** Discovering one function does. */
  lemma WithFunctionKeeps(code: Code, kept: set<u64>, s: State, entry: u64, worklist: seq<u64>)
    requires code.Valid() && SeedsKept(code, kept, s)
    ensures SeedsKept(code, kept, WithFunction(code, s, entry, worklist).state)
  {
    hide Descended, Finished, LedTo;
    if !(entry in s.owners && s.owners[entry] != entry) {
      DescendedKeeps(code, kept, entry, map[], Books(Claimed(s.owners, entry, entry), [entry], s.entries, worklist));
    }
  }

  /** Discovering everything on a worklist does. */
  lemma {:induction false} AllFoundKeeps(code: Code, kept: set<u64>, s: State, worklist: seq<u64>)
    requires code.Valid() && SeedsKept(code, kept, s)
    ensures SeedsKept(code, kept, AllFound(code, s, worklist))
    decreases code.Reachable() - s.entries, |worklist|
  {
    hide WithFunction, SeedsKept, Code.Reachable, Passed;
    if worklist == [] {
      AllFoundEnd(code, s);
    } else {
      var entry, rest := worklist[0], worklist[1..];
      assert worklist == [entry] + rest;
      AllFoundNext(code, s, entry, rest);
      if Passed(code, s, entry) {
        AllFoundKeeps(code, kept, s, rest);
      } else {
        WithFunctionProgress(code, s, entry, rest);
        WithFunctionKeeps(code, kept, s, entry, rest);
        var p := WithFunction(code, s, entry, rest);
        AllFoundKeeps(code, kept, p.state, p.worklist);
      }
    }
  }

  /** So does recording candidates, */
  lemma {:induction false} RecordedKeeps(code: Code, kept: set<u64>, s: State, candidates: seq<u64>)
    requires SeedsKept(code, kept, s)
    ensures SeedsKept(code, kept, Recorded(s, candidates).state)
  {
    hide LedTo;
    if candidates != [] {
      RecordedKeeps(code, kept, s, candidates[..|candidates| - 1]);
    }
  }

  /** ... and carving. */
  lemma {:induction false} CarvedKeeps(code: Code, kept: set<u64>, s: State, candidates: seq<u64>)
    requires SeedsKept(code, kept, s)
    ensures SeedsKept(code, kept, AllCarved(s, candidates))
  {
    hide LedTo;
    if candidates != [] {
      CarvedKeeps(code, kept, s, candidates[..|candidates| - 1]);
    }
  }

  /**
   * In what discovery finds another function owns a seed only where an instruction other than a jump
   * leads to it: a jump to a seed is a call in tail position, wherever it stands.
   */
  lemma JumpsKeepSeeds(code: Code, seeds: seq<u64>)
    requires code.Valid()
    ensures var kept := set s | s in seeds;
      && SeedsKept(code, kept, MainPass(code, seeds))
      && SeedsKept(code, kept, BeforeFilters(code, seeds))
      && SeedsKept(code, kept, AllPasses(code, seeds))
  {
    hide SeedsKept, AllFound, Recorded, AllCarved, GapList;
    var kept := set s | s in seeds;
    assert SeedsKept(code, kept, State(kept, map[], map[])) by { NothingOwned(code, kept); }
    AllFoundKeeps(code, kept, State(kept, map[], map[]), seeds);
    var main := MainPass(code, seeds);
    var gaps := GapList(code, main, |code.index.instrs|);
    RecordedKeeps(code, kept, main, gaps);
    AllFoundKeeps(code, kept, Recorded(main, gaps).state, Recorded(main, gaps).worklist);
    var padded, filters := BeforeFilters(code, seeds), AscendingSeq(FilterSet(code));
    CarvedKeeps(code, kept, padded, filters);
    RecordedKeeps(code, kept, AllCarved(padded, filters), filters);
    var p := Recorded(AllCarved(padded, filters), filters);
    AllFoundKeeps(code, kept, p.state, p.worklist);
  }

  lemma NothingOwned(code: Code, kept: set<u64>)
    ensures SeedsKept(code, kept, State(kept, map[], map[]))
  {
  }
}
