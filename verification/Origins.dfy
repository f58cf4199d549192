/** Where functions come from: nothing becomes a function entry without a reason in the code or the seeds. */
module Origins {
  import opened Prelude
  import opened CodeIndexes
  import opened Functions
  import opened Worklists

  /** A direct call goes to `a`, and `a` is code. */
  ghost predicate Called(code: Code, a: u64) {
    a != 0 && code.space.IsExecutableVa(a) && exists d :: d in code.index.instrs && d.flow.Call? && d.target == a
  }

  ghost predicate PaddingBefore(instrs: seq<Instr>, i: int)
    requires 0 <= i < |instrs|
  {
    i > 0 && instrs[i - 1].isInt3
  }

  /** An instruction that is no padding stands at `a`, directly behind one that is. */
  ghost predicate BehindPadding(code: Code, a: u64) {
    var instrs := code.index.instrs;
    exists i :: 0 <= i < |instrs| && instrs[i].ip == a && !instrs[i].isInt3 && PaddingBefore(instrs, i)
  }

  /**
   * From `a` code without padding in between leads to a compare with the access-violation code, and padding
   * or nothing is before it.
   */
  ghost predicate LeadsToFilter(code: Code, a: u64) {
    var instrs := code.index.instrs;
    exists k, n :: 0 <= k <= n < |instrs| && instrs[k].ip == a && instrs[n].hasAvImmediate
      && (k == 0 || PaddingBefore(instrs, k)) && forall i :: k <= i < n ==> !instrs[i].isInt3
  }

  /** What is recorded is given or called, and functions are recorded and start in code. */
  ghost predicate Grounded(code: Code, given: set<u64>, s: State) {
    && (forall a :: a in s.entries ==> a in given || Called(code, a))
    && (forall f :: f in s.functions ==> f in s.entries && code.space.IsExecutableVa(f))
  }

  ghost predicate AllCalled(code: Code, given: set<u64>, entries: set<u64>) {
    forall a :: a in entries ==> a in given || Called(code, a)
  }

  lemma TerminatorCalls(code: Code, entries: set<u64>, f: u64, dec: Instr, e: Edge)
    requires !dec.flow.Next? && e in TerminatorEdges(code, entries, f, dec) && e.kind.Call?
    ensures dec.flow.Call? && e.target == dec.target && code.IsTarget(e.target)
  {
  }

  /** A block calls only what an instruction calls. */
  lemma BlockCalls(
    code: Code, owners: map<u64, u64>, known: set<u64>, entries: set<u64>, f: u64, start: u64, t: u64)
    requires code.Valid() && t in CallTargets(DecodedBlock(code, owners, known, entries, f, start).successors)
    ensures Called(code, t)
  {
    hide StraightRun, Stops, CodeIndex.Search, CodeIndex.AtVa, TerminatorEdges;
    var run := StraightRun(code, owners, known, f, start, start);
    var e :| e in DecodedBlock(code, owners, known, entries, f, start).successors && e.kind.Call? && e.target == t;
    if run != [] && !run[|run| - 1].flow.Next? {
      RunDecoded(code, owners, known, f, start, start, run[|run| - 1]);
      TerminatorCalls(code, entries, f, run[|run| - 1], e);
    }
  }

  lemma DecodedCalls(code: Code, given: set<u64>, f: u64, known: set<u64>, books: Books, start: u64, rest: seq<u64>)
    requires code.Valid() && AllCalled(code, given, books.entries)
    ensures AllCalled(code, given, DecodedBooks(code, f, known, books, start, rest).entries)
  {
    hide AllEntered, DecodedBlock, Called, CallTargets;
    var claimed := books.(owners := Claimed(books.owners, f, start), blockQueue := rest);
    var b := DecodedBlock(code, claimed.owners, known, books.entries, f, start);
    EnteredCalls(claimed, f, b.successors);
    forall t | t in CallTargets(b.successors) ensures Called(code, t) {
      BlockCalls(code, claimed.owners, known, books.entries, f, start, t);
    }
  }

  lemma {:induction false} DescendedCalls(
    code: Code, given: set<u64>, f: u64, blocks: map<u64, BasicBlock>, books: Books)
    requires code.Valid() && AllCalled(code, given, books.entries)
    ensures AllCalled(code, given, Descended(code, f, blocks, books).books.entries)
    decreases code.Reachable() - books.owners.Keys, |books.blockQueue|
  {
    hide DecodedBooks, DecodedBlock, AllCalled, Code.Reachable;
    if books.blockQueue == [] {
      DescendedEnd(code, f, blocks, books);
    } else {
      var start, rest := books.blockQueue[0], books.blockQueue[1..];
      assert books.blockQueue == [start] + rest;
      DescendedNext(code, f, blocks, books, start, rest);
      if start in blocks || (start in books.owners && books.owners[start] != f) {
        DescendedCalls(code, given, f, blocks, books.(blockQueue := rest));
      } else {
        DecodedBooksProgress(code, f, blocks.Keys, books, start, rest);
        DecodedCalls(code, given, f, blocks.Keys, books, start, rest);
        var b := DecodedBlock(code, Claimed(books.owners, f, start), blocks.Keys, books.entries, f, start);
        DescendedCalls(code, given, f, blocks[start := b], DecodedBooks(code, f, blocks.Keys, books, start, rest));
      }
    }
  }

  /** Discovering one recorded entry leaves everything grounded, and its worklist recorded. */
  lemma WithFunctionGrounded(code: Code, given: set<u64>, s: State, entry: u64, rest: seq<u64>)
    requires code.Valid() && Grounded(code, given, s) && !Passed(code, s, entry)
    requires entry in s.entries && forall a :: a in rest ==> a in s.entries
    ensures var p := WithFunction(code, s, entry, rest);
      Grounded(code, given, p.state) && forall a :: a in p.worklist ==> a in p.state.entries
  {
    hide Descended, Finished, Called;
    if !(entry in s.owners && s.owners[entry] != entry) {
      var books := Books(Claimed(s.owners, entry, entry), [entry], s.entries, rest);
      DescendedCalls(code, given, entry, map[], books);
      DescendedProgress(code, entry, map[], books);
    }
  }

  lemma {:induction false} AllFoundGrounded(code: Code, given: set<u64>, s: State, worklist: seq<u64>)
    requires code.Valid() && Grounded(code, given, s) && forall a :: a in worklist ==> a in s.entries
    ensures Grounded(code, given, AllFound(code, s, worklist))
    decreases code.Reachable() - s.entries, |worklist|
  {
    hide WithFunction, Grounded, Code.Reachable, Passed;
    if worklist == [] {
      AllFoundEnd(code, s);
    } else {
      var entry, rest := worklist[0], worklist[1..];
      assert worklist == [entry] + rest;
      AllFoundNext(code, s, entry, rest);
      if Passed(code, s, entry) {
        AllFoundGrounded(code, given, s, rest);
      } else {
        WithFunctionProgress(code, s, entry, rest);
        WithFunctionGrounded(code, given, s, entry, rest);
        var p := WithFunction(code, s, entry, rest);
        AllFoundGrounded(code, given, p.state, p.worklist);
      }
    }
  }

  lemma {:induction false} RecordedGrounded(code: Code, given: set<u64>, s: State, candidates: seq<u64>)
    requires Grounded(code, given, s)
    ensures var p := Recorded(s, candidates);
      && Grounded(code, given + (set c | c in candidates), p.state)
      && forall a :: a in p.worklist ==> a in p.state.entries
  {
    hide Called;
    if candidates != [] {
      RecordedGrounded(code, given, s, candidates[..|candidates| - 1]);
    }
  }

  lemma {:induction false} CarvedGrounded(code: Code, given: set<u64>, s: State, candidates: seq<u64>)
    requires Grounded(code, given, s)
    ensures Grounded(code, given, AllCarved(s, candidates))
  {
    hide Called, Released;
    if candidates != [] {
      CarvedGrounded(code, given, s, candidates[..|candidates| - 1]);
    }
  }

  lemma {:induction false} GapsBehindPadding(code: Code, s: State, n: nat, a: u64)
    requires n <= |code.index.instrs| && a in GapList(code, s, n)
    ensures BehindPadding(code, a) && a !in s.owners && code.space.IsExecutableVa(a)
  {
    if a in GapList(code, s, n - 1) {
      GapsBehindPadding(code, s, n - 1, a);
    }
  }

  lemma FiltersLead(code: Code, a: u64)
    requires a in FilterSet(code)
    ensures LeadsToFilter(code, a)
  {
    var idx: nat, k: nat :| idx < |code.index.instrs| && code.index.instrs[idx].hasAvImmediate
      && IsFilterStart(code.index.instrs, idx, k) && code.index.instrs[k].ip == a;
  }

  /** One pass over candidates that are grounded in something else. */
  lemma PassGrounded(code: Code, given: set<u64>, s: State, candidates: seq<u64>)
    requires code.Valid() && Grounded(code, given, s)
    ensures var p := Recorded(s, candidates);
      Grounded(code, given + (set c | c in candidates), AllFound(code, p.state, p.worklist))
  {
    hide Grounded, Recorded, AllFound;
    RecordedGrounded(code, given, s, candidates);
    var p := Recorded(s, candidates);
    AllFoundGrounded(code, given + (set c | c in candidates), p.state, p.worklist);
  }

  lemma SeedsGrounded(code: Code, seeds: set<u64>)
    ensures Grounded(code, seeds, State(seeds, map[], map[]))
  {
  }

  /**
   * Every function starts in code, at a seed, at what a direct call goes to, behind padding, or where the
   * stretch of an access-violation compare begins; without the last after the second pass, and without
   * the last two after the first.
   */
  lemma FunctionsGrounded(code: Code, seeds: seq<u64>, f: u64)
    requires code.Valid()
    ensures f in MainPass(code, seeds).functions ==>
      code.space.IsExecutableVa(f) && (f in seeds || Called(code, f))
    ensures f in BeforeFilters(code, seeds).functions ==>
      code.space.IsExecutableVa(f) && (f in seeds || Called(code, f) || BehindPadding(code, f))
    ensures f in AllPasses(code, seeds).functions ==>
      code.space.IsExecutableVa(f) &&
      (f in seeds || Called(code, f) || BehindPadding(code, f) || LeadsToFilter(code, f))
  {
    hide AllFound, Recorded, AllCarved, GapList, Called, FilterSet, BehindPadding, LeadsToFilter;
    var given := set s | s in seeds;
    SeedsGrounded(code, given);
    AllFoundGrounded(code, given, State(given, map[], map[]), seeds);
    var main := MainPass(code, seeds);
    var gaps := GapList(code, main, |code.index.instrs|);
    PassGrounded(code, given, main, gaps);
    forall a | a in gaps ensures BehindPadding(code, a) {
      GapsBehindPadding(code, main, |code.index.instrs|, a);
    }
    var padded, filters := BeforeFilters(code, seeds), AscendingSeq(FilterSet(code));
    var more := given + (set c | c in gaps);
    CarvedGrounded(code, more, padded, filters);
    PassGrounded(code, more, AllCarved(padded, filters), filters);
    forall a | a in filters ensures LeadsToFilter(code, a) {
      FiltersLead(code, a);
    }
  }
}
