/** Predecessor lists: the in-place rebuild and the agreement with successor edges it establishes. */
module Predecessors {
  import opened Prelude
  import opened Functions

  /** Block starts ascend strictly, as they come out of the ordered block map. */
  ghost predicate Ascending(blocks: seq<BasicBlock>) {
    forall i, j :: 0 <= i < j < |blocks| ==> blocks[i].entryVa < blocks[j].entryVa
  }

  /** The first block that starts at `va`. */
  function FindBlock(blocks: seq<BasicBlock>, va: u64): (r: Option<nat>)
    ensures r.Some? ==> r.value < |blocks| && blocks[r.value].entryVa == va
    ensures r.Some? ==> forall i :: 0 <= i < r.value ==> blocks[i].entryVa != va
    ensures r.None? ==> forall i :: 0 <= i < |blocks| ==> blocks[i].entryVa != va
  {
    if blocks == [] then None
    else if blocks[0].entryVa == va then Some(0)
    else
      var rest := FindBlock(blocks[1..], va);
      if rest.None? then None else Some(rest.value + 1)
  }

  /** The predecessor entry that one edge of a block at `from` contributes to the block at `to`. */
  function EdgeInto(from: u64, e: Edge, to: u64): seq<Edge> {
    if e.target != 0 && e.target == to then [Edge(from, e.kind)] else []
  }

  /** Predecessor entries that the edges of a block at `from` contribute to the block at `to`. */
  function Into(from: u64, edges: seq<Edge>, to: u64): seq<Edge> {
    if edges == [] then []
    else Into(from, edges[..|edges| - 1], to) + EdgeInto(from, edges[|edges| - 1], to)
  }

  /** Everything the blocks contribute to the block at `to`, in block order. */
  function AllInto(blocks: seq<BasicBlock>, to: u64): seq<Edge> {
    if blocks == [] then []
    else
      var last := blocks[|blocks| - 1];
      AllInto(blocks[..|blocks| - 1], to) + Into(last.entryVa, last.successors, to)
  }

  /** The same blocks with only their predecessor lists changed. */
  ghost predicate SameButPredecessors(before: seq<BasicBlock>, after: seq<BasicBlock>) {
    && |after| == |before|
    && forall i :: 0 <= i < |before| ==> after[i].(predecessors := before[i].predecessors) == before[i]
  }

  /** `after` is `before` with `gain(i)` appended to the predecessors of block `i`. */
  ghost predicate Gained(before: seq<BasicBlock>, after: seq<BasicBlock>, gain: u64 -> seq<Edge>) {
    && |after| == |before|
    && forall i :: 0 <= i < |before| ==>
         after[i] == before[i].(predecessors := before[i].predecessors + gain(before[i].entryVa))
  }

  /** Lists `start` as a predecessor of the block `edge` leads to, if there is one. */
  method PushPredecessor(blocks: seq<BasicBlock>, start: u64, edge: Edge) returns (r: seq<BasicBlock>)
    requires Ascending(blocks)
    ensures Gained(blocks, r, (to: u64) => EdgeInto(start, edge, to))
  {
    r := blocks;
    if edge.target != 0 {
      var to := FindBlock(blocks, edge.target);
      if to.Some? {
        r := r[to.value := r[to.value].(predecessors := r[to.value].predecessors + [Edge(start, edge.kind)])];
      }
    }
  }

  lemma GainedTwice(
    a: seq<BasicBlock>, b: seq<BasicBlock>, c: seq<BasicBlock>,
    first: u64 -> seq<Edge>, second: u64 -> seq<Edge>, both: u64 -> seq<Edge>)
    requires Gained(a, b, first) && Gained(b, c, second)
    requires forall to :: both(to) == first(to) + second(to)
    ensures Gained(a, c, both)
  {
    forall i | 0 <= i < |a|
      ensures c[i] == a[i].(predecessors := a[i].predecessors + both(a[i].entryVa))
    {
      assert b[i].entryVa == a[i].entryVa;
    }
  }

  /** Pushes one predecessor entry for every successor edge of the block at `start`. */
  method PushSuccessors(blocks: seq<BasicBlock>, start: u64, succs: seq<Edge>) returns (r: seq<BasicBlock>)
    requires Ascending(blocks)
    ensures Gained(blocks, r, (to: u64) => Into(start, succs, to))
  {
    r := blocks;
    var k := 0;
    while k < |succs|
      invariant k <= |succs|
      invariant Gained(blocks, r, (to: u64) => Into(start, succs[..k], to))
    {
      ghost var before := r;
      r := PushPredecessor(r, start, succs[k]);
      assert succs[..k + 1][..k] == succs[..k];
      GainedTwice(blocks, before, r,
        (to: u64) => Into(start, succs[..k], to),
        (to: u64) => EdgeInto(start, succs[k], to),
        (to: u64) => Into(start, succs[..k + 1], to));
      k := k + 1;
    }
    assert succs[..k] == succs;
  }

  /** Adds the predecessor entries of every edge to whatever lists the blocks already hold. */
  method ComputePredecessors(blocks: seq<BasicBlock>) returns (r: seq<BasicBlock>)
    requires Ascending(blocks)
    ensures Gained(blocks, r, (to: u64) => AllInto(blocks, to))
  {
    r := blocks;
    var n := 0;
    while n < |blocks|
      invariant n <= |blocks|
      invariant Gained(blocks, r, (to: u64) => AllInto(blocks[..n], to))
    {
      ghost var before := r;
      r := PushSuccessors(r, r[n].entryVa, r[n].successors);
      assert blocks[..n + 1][..n] == blocks[..n];
      GainedTwice(blocks, before, r,
        (to: u64) => AllInto(blocks[..n], to),
        (to: u64) => Into(blocks[n].entryVa, blocks[n].successors, to),
        (to: u64) => AllInto(blocks[..n + 1], to));
      n := n + 1;
    }
    assert blocks[..n] == blocks;
  }

  /** `recompute_predecessors`: clear every list, then rebuild from the successors. */
  method RecomputePredecessors(blocks: seq<BasicBlock>) returns (r: seq<BasicBlock>)
    requires Ascending(blocks)
    ensures SameButPredecessors(blocks, r)
    ensures Agree(r)
  {
    r := blocks;
    var n := 0;
    while n < |r|
      invariant n <= |r| == |blocks|
      invariant forall i :: 0 <= i < n ==> r[i] == blocks[i].(predecessors := [])
      invariant forall i :: n <= i < |r| ==> r[i] == blocks[i]
    {
      r := r[n := r[n].(predecessors := [])];
      n := n + 1;
    }
    ghost var cleared := r;
    r := ComputePredecessors(r);
    RebuiltAgree(cleared, r);
  }

  // ---------------------------------------------------------------- agreement

  /**
   * Both edge lists tell the same story: block `t` lists `(s, k)` as predecessor exactly as often
   * as block `s` lists `(t, k)` as successor. Address 0 is the placeholder target, so a block
   * that starts there has no predecessors at all.
   */
  ghost predicate Agree(blocks: seq<BasicBlock>) {
    && (forall s, t :: s in blocks && t in blocks && t.entryVa != 0 ==> EdgesMatch(s, t))
    && (forall t :: t in blocks ==> OnlyFrom(blocks, t))
  }

  ghost predicate EdgesMatch(s: BasicBlock, t: BasicBlock) {
    forall k: EdgeKind ::
      multiset(t.predecessors)[Edge(s.entryVa, k)] == multiset(s.successors)[Edge(t.entryVa, k)]
  }

  /** No predecessor of `t` names anything but a block of the function. */
  ghost predicate OnlyFrom(blocks: seq<BasicBlock>, t: BasicBlock) {
    && (forall p :: p in t.predecessors ==> exists s :: s in blocks && s.entryVa == p.target)
    && (t.entryVa == 0 ==> t.predecessors == [])
  }

  lemma {:induction false} IntoCounts(from: u64, edges: seq<Edge>, to: u64, p: Edge)
    ensures multiset(Into(from, edges, to))[p] ==
      if p.target == from && to != 0 then multiset(edges)[Edge(to, p.kind)] else 0
  {
    if edges != [] {
      var front := edges[..|edges| - 1];
      IntoCounts(from, front, to, p);
      assert edges == front + [edges[|edges| - 1]];
    } else {
      assert Into(from, edges, to) == [];
    }
  }

  lemma {:induction false} AllIntoAbsent(blocks: seq<BasicBlock>, to: u64, p: Edge)
    requires forall b :: b in blocks ==> b.entryVa != p.target
    ensures multiset(AllInto(blocks, to))[p] == 0
  {
    if blocks != [] {
      var last := blocks[|blocks| - 1];
      AllIntoAbsent(blocks[..|blocks| - 1], to, p);
      IntoCounts(last.entryVa, last.successors, to, p);
    }
  }

  lemma {:induction false} AllIntoCounts(blocks: seq<BasicBlock>, i: nat, to: u64, k: EdgeKind)
    requires Ascending(blocks) && i < |blocks| && to != 0
    ensures multiset(AllInto(blocks, to))[Edge(blocks[i].entryVa, k)] ==
      multiset(blocks[i].successors)[Edge(to, k)]
  {
    var front := blocks[..|blocks| - 1];
    var last := blocks[|blocks| - 1];
    var p := Edge(blocks[i].entryVa, k);
    IntoCounts(last.entryVa, last.successors, to, p);
    if i == |blocks| - 1 {
      AllIntoAbsent(front, to, p);
    } else {
      AllIntoCounts(front, i, to, k);
    }
  }

  lemma {:induction false} AllIntoZero(blocks: seq<BasicBlock>)
    ensures AllInto(blocks, 0) == []
  {
    if blocks != [] {
      var last := blocks[|blocks| - 1];
      AllIntoZero(blocks[..|blocks| - 1]);
      IntoZero(last.entryVa, last.successors);
    }
  }

  lemma {:induction false} IntoZero(from: u64, edges: seq<Edge>)
    ensures Into(from, edges, 0) == []
  {
    if edges != [] {
      IntoZero(from, edges[..|edges| - 1]);
    }
  }

  lemma RebuiltMatch(cleared: seq<BasicBlock>, i: nat, s: BasicBlock, t: BasicBlock)
    requires Ascending(cleared) && i < |cleared| && t.entryVa != 0
    requires s.entryVa == cleared[i].entryVa && s.successors == cleared[i].successors
    requires t.predecessors == AllInto(cleared, t.entryVa)
    ensures EdgesMatch(s, t)
  {
    forall k: EdgeKind
      ensures multiset(t.predecessors)[Edge(s.entryVa, k)] == multiset(s.successors)[Edge(t.entryVa, k)]
    {
      AllIntoCounts(cleared, i, t.entryVa, k);
    }
  }

  lemma PredecessorExists(cleared: seq<BasicBlock>, to: u64, p: Edge) returns (i: nat)
    requires p in AllInto(cleared, to)
    ensures i < |cleared| && cleared[i].entryVa == p.target
  {
    assert multiset(AllInto(cleared, to))[p] > 0;
    if forall b :: b in cleared ==> b.entryVa != p.target {
      AllIntoAbsent(cleared, to, p);
      assert false;
    }
    var b :| b in cleared && b.entryVa == p.target;
    i :| 0 <= i < |cleared| && cleared[i] == b;
  }

  /** A rebuild from empty lists makes predecessor and successor lists agree. */
  lemma RebuiltAgree(cleared: seq<BasicBlock>, r: seq<BasicBlock>)
    requires Ascending(cleared)
    requires forall i :: 0 <= i < |cleared| ==> cleared[i].predecessors == []
    requires Gained(cleared, r, (to: u64) => AllInto(cleared, to))
    ensures Agree(r)
  {
    hide AllInto, EdgesMatch;
    forall j | 0 <= j < |r|
      ensures r[j].predecessors == AllInto(cleared, r[j].entryVa)
      ensures r[j].entryVa == cleared[j].entryVa && r[j].successors == cleared[j].successors
    {
    }
    forall s, t | s in r && t in r && t.entryVa != 0 ensures EdgesMatch(s, t) {
      var i :| 0 <= i < |r| && r[i] == s;
      RebuiltMatch(cleared, i, s, t);
    }
    AllIntoZero(cleared);
    forall t | t in r ensures OnlyFrom(r, t) {
      forall p | p in t.predecessors ensures exists s :: s in r && s.entryVa == p.target {
        var i := PredecessorExists(cleared, t.entryVa, p);
        assert r[i] in r;
      }
    }
  }
}
