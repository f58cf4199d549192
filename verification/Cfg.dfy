/** The recovered control-flow graph: discovery, then jump tables, then calls through pointers. */
module Cfg {
  import opened Prelude
  import opened CodeIndexes
  import opened Functions
  import opened Predecessors
  import opened Discovery
  import opened Worklists
  import opened Indirect

  lemma PartitionedIsFiled(s: State)
    requires Partitioned(s)
    ensures Filed(s.functions)
  {
  }

  /**
   * The whole recovery. Discovery alone can leave stale predecessors behind in a function that
   * something was carved out of; after the indirect passes every function's edge lists agree, and
   * every block has exactly the edges it was discovered with and those its last instruction
   * resolves to.
   */
  method Recover(code: Code, seeds: seq<u64>, env: Env) returns (table: FunctionTable, ghost end: State)
    requires code.Valid() && env.index == code.index
    ensures end == AllPasses(code, seeds) && Discovered(code, end) && fresh(table)
    ensures table.byEntry.Keys == end.functions.Keys && Filed(table.byEntry)
    ensures forall f :: f in table.byEntry ==> Agree(table.byEntry[f].blocks)
    ensures forall f :: f in table.byEntry ==> BothGained(env, end.functions[f].blocks, table.byEntry[f].blocks)
    ensures HardSafe(code, set s | s in seeds) ==>
      forall h :: h in code.hardEntries && code.space.IsExecutableVa(h) ==> h in table.byEntry
  {
    hide Partitioned, AllReadable, Agree, BothGained, HardKept, HardSafe, Complete, GapsCovered, AllPasses;
    var functions;
    ghost var mid;
    functions, mid, end := DiscoverFunctions(code, seeds);
    PartitionedIsFiled(end);
    table := new FunctionTable(functions);
    table.ResolveAll(env);
  }

  /** Block starts of different functions stay apart through the indirect passes. */
  lemma StartsStayApart(env: Env, s: State, after: Table, f: u64, g: u64)
    requires env.index.WellFormed() && Partitioned(s) && after.Keys == s.functions.Keys
    requires forall f :: f in after ==> BothGained(env, s.functions[f].blocks, after[f].blocks)
    requires f in after && g in after && f != g
    ensures Starts(after[f].blocks) !! Starts(after[g].blocks)
  {
    hide Partitioned;
    SameStartSet(env, s.functions[f].blocks, after[f].blocks);
    SameStartSet(env, s.functions[g].blocks, after[g].blocks);
    StartsAreDisjoint(s, f, g);
  }

  lemma SameStartSet(env: Env, before: seq<BasicBlock>, after: seq<BasicBlock>)
    requires env.index.WellFormed() && BothGained(env, before, after)
    ensures Starts(after) == Starts(before)
  {
    hide BlockTargets, EdgesTo;
    forall b | b in before ensures b.entryVa in Starts(after) {
      var i :| 0 <= i < |before| && before[i] == b;
      assert after[i] in after && after[i].entryVa == b.entryVa;
    }
    forall b | b in after ensures b.entryVa in Starts(before) {
      var i :| 0 <= i < |after| && after[i] == b;
      assert before[i] in before && before[i].entryVa == b.entryVa;
    }
  }
}
