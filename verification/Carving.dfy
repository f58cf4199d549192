/** What one carve breaks, exactly when it does, and code for which discovery ends up broken. */
module Carving {
  import opened Prelude
  import opened AddressSpaces
  import opened CodeIndexes
  import opened Functions
  import opened Predecessors
  import opened Worklists
  import opened Discovery

  // ---------------------------------------------------------------- one carve

  /** Carving leaves the swallowing function its own entry block exactly when the cut is above it. */
  lemma CarveKeepsEntryBlock(code: Code, s: State, entry: u64)
    requires code.Valid() && Partitioned(s) && AllSound(code, s) && Swallowed(s, entry)
    ensures var owner := s.owners[entry];
      owner in Starts(Carved(s, entry).functions[owner].blocks) <==> owner < entry
  {
    var owner := s.owners[entry];
    CarvedStarts(s, entry, owner);
    assert FunctionSound(code, s.entries, s.owners, s.functions[owner]);
  }

  /** A block that carving removes flows into one that it keeps. */
  ghost predicate FlowsBack(blocks: seq<BasicBlock>, cut: u64) {
    exists s, t, e :: s in blocks && t in blocks && e in s.successors
      && s.entryVa >= cut && t.entryVa < cut && t.entryVa != 0 && e.target == t.entryVa
  }

  /**
   * Truncation does not rebuild predecessor lists. They still agree with the successors exactly
   * when no removed block had an edge back into a kept one.
   */
  lemma TruncationAgrees(blocks: seq<BasicBlock>, cut: u64)
    requires Ascending(blocks) && Agree(blocks)
    ensures Agree(Below(blocks, cut)) <==> !FlowsBack(blocks, cut)
  {
    var kept := Below(blocks, cut);
    if FlowsBack(blocks, cut) {
      var s, t, e :| s in blocks && t in blocks && e in s.successors
        && s.entryVa >= cut && t.entryVa < cut && t.entryVa != 0 && e.target == t.entryVa;
      assert EdgesMatch(s, t);
      var p := Edge(s.entryVa, e.kind);
      assert e == Edge(t.entryVa, e.kind);
      assert multiset(s.successors)[e] > 0;
      assert multiset(t.predecessors)[p] > 0;
      assert p in t.predecessors;
      assert !OnlyFrom(kept, t);
    } else {
      forall s, t | s in kept && t in kept && t.entryVa != 0 ensures EdgesMatch(s, t) {
        assert s in blocks && t in blocks;
      }
      forall t | t in kept ensures OnlyFrom(kept, t) {
        assert OnlyFrom(blocks, t);
        forall p | p in t.predecessors ensures exists s :: s in kept && s.entryVa == p.target {
          var s :| s in blocks && s.entryVa == p.target;
          assert EdgesMatch(s, t);
          assert multiset(t.predecessors)[p] > 0;
          assert p == Edge(s.entryVa, p.kind);
          assert Edge(t.entryVa, p.kind) in s.successors;
        }
      }
    }
  }

  /** A carve loses exactly the recorded entries that it releases and that are no functions. */
  lemma CarveAccountedIff(code: Code, s: State, c: u64)
    requires Accounted(code, s, []) && Swallowed(s, c)
    ensures Accounted(code, Carved(s, c), []) <==>
      forall e :: e in s.entries && code.space.IsExecutableVa(e) && Released(s, c, e) ==> e in s.functions
  {
    var t := Carved(s, c);
    forall e | e in s.entries && code.space.IsExecutableVa(e)
      ensures Settled(t, e) <==> e in s.functions || !Released(s, c, e)
    {
      assert Settled(s, e);
    }
  }

  /** Every flow edge of every function leads to an owned address. */
  ghost predicate AllFlowsStay(s: State) {
    forall f :: f in s.functions ==> FlowsStay(s.owners, f, s.functions[f].blocks)
  }

  /** A block that survives the carve flows into what the carve releases. */
  ghost predicate FlowsOut(s: State, c: u64)
    requires Swallowed(s, c)
  {
    exists f, b, e ::
      && f in s.functions && b in Carved(s, c).functions[f].blocks
      && e in b.successors && e.IsFlow() && Released(s, c, e.target)
  }

  /** A carve leaves a flow edge to an unowned address exactly when a surviving block flows out. */
  lemma CarveFlowsIff(s: State, c: u64)
    requires AllFlowsStay(s) && Swallowed(s, c)
    ensures AllFlowsStay(Carved(s, c)) <==> !FlowsOut(s, c)
  {
    var t := Carved(s, c);
    forall f, b, e | f in s.functions && b in t.functions[f].blocks && e in b.successors
      ensures FlowClosed(t.owners, f, e) <==> !(e.IsFlow() && Released(s, c, e.target))
    {
      assert b in s.functions[f].blocks;
      assert FlowClosed(s.owners, f, e);
    }
    if FlowsOut(s, c) {
      var f, b, e :| f in s.functions && b in t.functions[f].blocks
        && e in b.successors && e.IsFlow() && Released(s, c, e.target);
      assert !FlowsStay(t.owners, f, t.functions[f].blocks);
    }
  }

  /** Every function owns its entry and has predecessor lists that agree. */
  ghost predicate InShape(s: State) {
    forall f :: f in s.functions ==> f in s.owners && s.owners[f] == f && Agree(s.functions[f].blocks)
  }

  lemma SoundParts(code: Code, s: State)
    requires code.Valid() && Partitioned(s) && AllReadable(code, s)
    ensures AllSound(code, s) <==> AllFlowsStay(s) && InShape(s)
  {
    hide RunFaithful, EdgesComplete, LastInstr, FinalMeaning, Agree, FlowClosed;
    forall f | f in s.functions
      ensures FunctionSound(code, s.entries, s.owners, s.functions[f]) <==>
        && FlowsStay(s.owners, f, s.functions[f].blocks)
        && f in s.owners && s.owners[f] == f && Agree(s.functions[f].blocks)
    {
      assert Grows(s, s);
      SoundAgainIff(code, s, s, f);
    }
  }

  /** A carve leaves every function in shape exactly when its owner keeps its entry and nothing flows back. */
  lemma CarveShapeIff(s: State, c: u64)
    requires Partitioned(s) && InShape(s) && Swallowed(s, c)
    ensures InShape(Carved(s, c)) <==> s.owners[c] < c && !FlowsBack(s.functions[s.owners[c]].blocks, c)
  {
    hide Agree, FlowsBack;
    var t, owner := Carved(s, c), s.owners[c];
    TruncationAgrees(s.functions[owner].blocks, c);
    forall f | f in s.functions
      ensures f in t.owners && t.owners[f] == f <==> f != owner || owner < c
    {
      assert s.owners[f] == f;
    }
  }

  /**
   * One carve keeps a complete state complete exactly when the owner keeps its entry, no removed block
   * has an edge back into a kept one, no surviving block flows into what was released, and nothing
   * recorded was released.
   */
  lemma CarveCompleteIff(code: Code, s: State, c: u64)
    requires code.Valid() && Complete(code, s) && Swallowed(s, c)
    ensures var owner := s.owners[c];
      Complete(code, Carved(s, c)) <==>
        && owner < c
        && !FlowsBack(s.functions[owner].blocks, c)
        && !FlowsOut(s, c)
        && forall e :: e in s.entries && code.space.IsExecutableVa(e) && Released(s, c, e) ==> e in s.functions
  {
    hide Agree, FlowsBack, FlowsOut, Accounted, FunctionSound, AllReadable, AllFlowsStay, Partitioned, Carved,
      Released, AllSound;
    var t := Carved(s, c);
    SoundIsReadable(code, s);
    CarveKeepsPartition(code, s, c);
    SoundParts(code, s);
    SoundParts(code, t);
    CarveAccountedIff(code, s, c);
    CarveFlowsIff(s, c);
    CarveShapeIff(s, c);
  }

  /** Carving takes a candidate away from the function that swallowed it, and gives nothing to anyone. */
  lemma CarvedFrees(s: State, entry: u64)
    ensures !Swallowed(Carved(s, entry), entry)
    ensures forall a :: a in Carved(s, entry).owners ==> a in s.owners && Carved(s, entry).owners[a] == s.owners[a]
    ensures Carved(s, entry).functions.Keys == s.functions.Keys
  {
  }

  /** So when all candidates are carved, none of them belongs to another function, and each is discovered afresh. */
  lemma {:induction false} NoneSwallowed(s: State, candidates: seq<u64>)
    ensures var carved := AllCarved(s, candidates);
      && (forall c :: c in candidates ==> !Swallowed(carved, c))
      && (forall a :: a in carved.owners ==> a in s.owners && carved.owners[a] == s.owners[a])
      && carved.functions.Keys == s.functions.Keys
    decreases |candidates|
  {
    hide Carved;
    if candidates != [] {
      var front, last := candidates[..|candidates| - 1], candidates[|candidates| - 1];
      NoneSwallowed(s, front);
      CarvedFrees(AllCarved(s, front), last);
      assert forall c :: c in candidates ==> c in front || c == last;
    }
  }
}
