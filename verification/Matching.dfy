/** Greedy one-use matching of expected calls to direct calls. */
module Matching {
  import opened Prelude

  /** The first target from `i` on that is not consumed and is one of the aliases. */
  function FirstMatch(aliases: seq<string>, targets: seq<string>, consumed: set<nat>, i: nat): (r: Option<nat>)
    requires i <= |targets|
    ensures r.Some? ==> i <= r.value < |targets| && r.value !in consumed && targets[r.value] in aliases
    ensures forall k :: i <= k < (if r.Some? then r.value else |targets|) ==> k in consumed || targets[k] !in aliases
    decreases |targets| - i
  {
    if i == |targets| then None
    else if i !in consumed && targets[i] in aliases then Some(i)
    else FirstMatch(aliases, targets, consumed, i + 1)
  }

  /** The target each expected fact is matched with, taking facts in order and using no target twice. */
  function Greedy(facts: seq<seq<string>>, targets: seq<string>, consumed: set<nat>): (r: seq<Option<nat>>)
    ensures |r| == |facts|
  {
    if facts == [] then []
    else
      var found := FirstMatch(facts[0], targets, consumed, 0);
      [found] + Greedy(facts[1..], targets, if found.Some? then consumed + {found.value} else consumed)
  }

  function Count(matches: seq<Option<nat>>): nat {
    if matches == [] then 0 else (if matches[0].Some? then 1 else 0) + Count(matches[1..])
  }

  ghost function Used(matches: seq<Option<nat>>): set<nat> {
    set m | m in matches && m.Some? :: m.value
  }

  /** Every match names a target the fact accepts, outside `consumed`, and no target twice. */
  ghost predicate IsMatching(
    facts: seq<seq<string>>, targets: seq<string>, consumed: set<nat>, matches: seq<Option<nat>>)
  {
    && |matches| == |facts|
    && (forall i :: 0 <= i < |matches| && matches[i].Some? ==>
         matches[i].value < |targets| && matches[i].value !in consumed && targets[matches[i].value] in facts[i])
    && (forall i, j :: 0 <= i < j < |matches| && matches[i].Some? && matches[j].Some? ==>
         matches[i].value != matches[j].value)
  }

  /** The greedy choice is a matching: injective and only with accepted targets. */
  lemma {:induction false} GreedyIsMatching(facts: seq<seq<string>>, targets: seq<string>, consumed: set<nat>)
    ensures IsMatching(facts, targets, consumed, Greedy(facts, targets, consumed))
  {
    if facts != [] {
      var found := FirstMatch(facts[0], targets, consumed, 0);
      var rest := Greedy(facts[1..], targets, if found.Some? then consumed + {found.value} else consumed);
      GreedyIsMatching(facts[1..], targets, if found.Some? then consumed + {found.value} else consumed);
      forall i | 0 <= i < |facts| && Greedy(facts, targets, consumed)[i].Some?
        ensures var k := Greedy(facts, targets, consumed)[i].value;
          k < |targets| && k !in consumed && targets[k] in facts[i] && (i > 0 ==> found != Some(k))
      {
        if i > 0 {
          assert Greedy(facts, targets, consumed)[i] == rest[i - 1];
        }
      }
    }
  }

  /** It is maximal: a fact is missed only when every target it accepts went to an earlier fact. */
  lemma {:induction false} GreedyIsMaximal(
    facts: seq<seq<string>>, targets: seq<string>, consumed: set<nat>, i: nat, k: nat)
    requires i < |facts| && k < |targets| && k !in consumed && targets[k] in facts[i]
    requires Greedy(facts, targets, consumed)[i].None?
    ensures exists j: nat :: j < i && Greedy(facts, targets, consumed)[j] == Some(k)
  {
    var all, found := Greedy(facts, targets, consumed), FirstMatch(facts[0], targets, consumed, 0);
    if i > 0 {
      var next := if found.Some? then consumed + {found.value} else consumed;
      if found == Some(k) {
        assert all[0] == Some(k);
      } else {
        GreedyIsMaximal(facts[1..], targets, next, i - 1, k);
        var j: nat :| j < i - 1 && Greedy(facts[1..], targets, next)[j] == Some(k);
        assert all[j + 1] == Some(k);
      }
    }
  }

  /** A fact that shares a target with a later one accepts nothing the later one does not. */
  ghost predicate Nested(facts: seq<seq<string>>) {
    forall i, j, a :: 0 <= i < j < |facts| && a in facts[i] && a in facts[j] ==>
      forall b :: b in facts[i] ==> b in facts[j]
  }

  /** With nested facts no other assignment of targets to facts matches more of them. */
  lemma {:induction false} GreedyIsOptimal(
    facts: seq<seq<string>>, targets: seq<string>, consumed: set<nat>, other: seq<Option<nat>>)
    requires Nested(facts) && IsMatching(facts, targets, consumed, other)
    ensures Count(other) <= Count(Greedy(facts, targets, consumed))
    decreases |facts|
  {
    if facts != [] {
      var found := FirstMatch(facts[0], targets, consumed, 0);
      var rest, tail := facts[1..], other[1..];
      assert Nested(rest) by { NestedTail(facts); }
      if found.None? {
        assert other[0].None?;
        MatchingTail(facts, targets, consumed, other, consumed);
        GreedyIsOptimal(rest, targets, consumed, tail);
      } else {
        var k := found.value;
        if j :| 0 <= j < |tail| && tail[j] == Some(k) {
          assert other[j + 1] == Some(k);
          var swapped := tail[j := other[0]];
          CountUpdate(tail, j, other[0]);
          SwapIsMatching(facts, targets, consumed, other, j, k);
          GreedyIsOptimal(rest, targets, consumed + {k}, swapped);
        } else {
          MatchingTail(facts, targets, consumed, other, consumed + {k});
          GreedyIsOptimal(rest, targets, consumed + {k}, tail);
        }
      }
    }
  }

  lemma NestedTail(facts: seq<seq<string>>)
    requires facts != [] && Nested(facts)
    ensures Nested(facts[1..])
  {
    var rest := facts[1..];
    forall i, j, a | 0 <= i < j < |rest| && a in rest[i] && a in rest[j]
      ensures forall b :: b in rest[i] ==> b in rest[j]
    {
      assert rest[i] == facts[i + 1] && rest[j] == facts[j + 1];
    }
  }

  lemma MatchingTail(
    facts: seq<seq<string>>, targets: seq<string>, consumed: set<nat>, other: seq<Option<nat>>, more: set<nat>)
    requires facts != [] && IsMatching(facts, targets, consumed, other)
    requires forall m :: m in other[1..] && m.Some? && m.value in more ==> m.value in consumed
    ensures IsMatching(facts[1..], targets, more, other[1..])
  {
    var tail := other[1..];
    forall i | 0 <= i < |tail| && tail[i].Some? ensures tail[i].value !in more {
      assert tail[i] == other[i + 1] && tail[i] in tail;
    }
  }

  /** Giving the fact that used `k` the first fact's target instead frees `k`. */
  lemma SwapIsMatching(
    facts: seq<seq<string>>, targets: seq<string>, consumed: set<nat>, other: seq<Option<nat>>, j: nat, k: nat)
    requires facts != [] && Nested(facts) && IsMatching(facts, targets, consumed, other)
    requires k < |targets| && targets[k] in facts[0]
    requires j < |other| - 1 && other[j + 1] == Some(k)
    ensures IsMatching(facts[1..], targets, consumed + {k}, other[1..][j := other[0]])
  {
    var rest, swapped := facts[1..], other[1..][j := other[0]];
    assert targets[k] in facts[j + 1];
    forall i | 0 <= i < |swapped| && swapped[i].Some?
      ensures swapped[i].value < |targets| && swapped[i].value !in consumed + {k}
      ensures targets[swapped[i].value] in rest[i]
    {
      if i != j {
        assert swapped[i] == other[i + 1];
      }
    }
    forall a, b | 0 <= a < b < |swapped| && swapped[a].Some? && swapped[b].Some?
      ensures swapped[a].value != swapped[b].value
    {
      assert a != j ==> swapped[a] == other[a + 1];
      assert b != j ==> swapped[b] == other[b + 1];
    }
  }

  lemma {:induction false} CountUpdate(matches: seq<Option<nat>>, j: nat, m: Option<nat>)
    requires j < |matches|
    ensures Count(matches[j := m]) == Count(matches) - (if matches[j].Some? then 1 else 0) + (if m.Some? then 1 else 0)
  {
    var updated := matches[j := m];
    if j == 0 {
      assert updated[1..] == matches[1..];
    } else {
      CountUpdate(matches[1..], j - 1, m);
      assert updated[1..] == matches[1..][j - 1 := m];
    }
  }

  // ---------------------------------------------------------------- nestedness is needed

  /** `m` copies of one target, then `n` of another. */
  function Copies(a: string, m: nat, b: string, n: nat): (r: seq<string>)
    ensures |r| == m + n
    ensures forall k :: 0 <= k < |r| ==> r[k] == if k < m then a else b
  {
    seq(m, _ => a) + seq(n, _ => b)
  }

  /** Of the `m` copies the first `c` are consumed, and `d` of those behind them. */
  ghost predicate Packed(consumed: set<nat>, m: nat, c: nat, d: nat) {
    c <= m && forall k: nat :: k in consumed <==> k < c || m <= k < m + d
  }

  /** How many facts accept a target. */
  function Accepting(facts: seq<seq<string>>, a: string): nat {
    if facts == [] then 0 else (if a in facts[0] then 1 else 0) + Accepting(facts[1..], a)
  }

  /** A fact takes the next free copy of the first target it accepts, and keeps the copies packed. */
  lemma PackedStep(aliases: seq<string>, a: string, m: nat, b: string, n: nat, consumed: set<nat>, c: nat, d: nat)
    requires a != b && Packed(consumed, m, c, d) && d < n
    ensures FirstMatch(aliases, Copies(a, m, b, n), consumed, 0) ==
      if a in aliases && c < m then Some(c) else if b in aliases then Some(m + d) else None
    ensures Packed(consumed + {c}, m, c + 1, d) <==> c < m
    ensures Packed(consumed + {m + d}, m, c, d + 1)
  {
    var targets := Copies(a, m, b, n);
    var found := FirstMatch(aliases, targets, consumed, 0);
    assert c < m ==> c < |targets| && c !in consumed && targets[c] == a;
    assert m + d < |targets| && m + d !in consumed && targets[m + d] == b;
  }

  /** What the greedy choice does with packed copies, up to fact `p`. */
  lemma {:induction false} GreedyPacked(
    facts: seq<seq<string>>, a: string, m: nat, b: string, n: nat, consumed: set<nat>, c: nat, d: nat, p: nat)
    requires a != b && Packed(consumed, m, c, d) && d + |facts| < n && p < |facts|
    requires c + Accepting(facts[..p], a) <= m
    ensures var taken := Greedy(facts, Copies(a, m, b, n), consumed)[p];
      var at := c + Accepting(facts[..p], a);
      && (a in facts[p] && at < m ==> taken.Some? && taken.value < m)
      && (a in facts[p] && at == m && b !in facts[p] ==> taken.None?)
    decreases |facts|
  {
    hide FirstMatch, Copies;
    PackedStep(facts[0], a, m, b, n, consumed, c, d);
    if p > 0 {
      assert facts[..p][1..] == facts[1..][..p - 1];
      if a in facts[0] {
        GreedyPacked(facts[1..], a, m, b, n, consumed + {c}, c + 1, d, p - 1);
      } else if b in facts[0] {
        GreedyPacked(facts[1..], a, m, b, n, consumed + {m + d}, c, d + 1, p - 1);
      } else {
        GreedyPacked(facts[1..], a, m, b, n, consumed, c, d, p - 1);
      }
    }
  }

  /** No fact reaches further into the spare copies than there are facts. */
  lemma {:induction false} GreedyBelow(
    facts: seq<seq<string>>, a: string, m: nat, b: string, n: nat, consumed: set<nat>, c: nat, d: nat, p: nat)
    requires a != b && Packed(consumed, m, c, d) && d + |facts| < n && p < |facts|
    ensures var taken := Greedy(facts, Copies(a, m, b, n), consumed)[p];
      taken.Some? ==> taken.value < m + d + |facts|
    decreases |facts|
  {
    hide FirstMatch, Copies;
    PackedStep(facts[0], a, m, b, n, consumed, c, d);
    if p > 0 {
      if a in facts[0] && c < m {
        GreedyBelow(facts[1..], a, m, b, n, consumed + {c}, c + 1, d, p - 1);
      } else if b in facts[0] {
        GreedyBelow(facts[1..], a, m, b, n, consumed + {m + d}, c, d + 1, p - 1);
      } else {
        GreedyBelow(facts[1..], a, m, b, n, consumed, c, d, p - 1);
      }
    }
  }

  lemma {:induction false} AcceptingGrows(facts: seq<seq<string>>, a: string, i: nat, j: nat)
    requires i < j <= |facts| && a in facts[i]
    ensures Accepting(facts[..i], a) < Accepting(facts[..j], a)
    decreases i
  {
    assert facts[..j][1..] == facts[1..][..j - 1];
    if i > 0 {
      assert facts[..i][1..] == facts[1..][..i - 1];
      AcceptingGrows(facts[1..], a, i - 1, j - 1);
    }
  }

  /**
   * Facts that are not nested have a target list on which the greedy choice is not optimal: enough
   * copies of the shared target for everyone before the later fact, then spare copies of the other.
   */
  lemma NotNestedMisses(facts: seq<seq<string>>, i: nat, j: nat, a: string, b: string)
    returns (targets: seq<string>, other: seq<Option<nat>>)
    requires i < j < |facts| && a in facts[i] && a in facts[j] && b in facts[i] && b !in facts[j]
    ensures IsMatching(facts, targets, {}, other) && Count(other) == Count(Greedy(facts, targets, {})) + 1
    ensures forall k :: 0 <= k < |targets| ==> targets[k] in {a, b}
  {
    hide Greedy, Accepting, Count;
    var m, n := Accepting(facts[..j], a), |facts| + 1;
    targets := Copies(a, m, b, n);
    var greedy := Greedy(facts, targets, {});
    assert Packed({}, m, 0, 0);
    AcceptingGrows(facts, a, i, j);
    GreedyPacked(facts, a, m, b, n, {}, 0, 0, i);
    GreedyPacked(facts, a, m, b, n, {}, 0, 0, j);
    GreedyIsMatching(facts, targets, {});
    var spare := m + |facts|;
    forall p | 0 <= p < |facts| ensures greedy[p] != Some(spare) {
      GreedyBelow(facts, a, m, b, n, {}, 0, 0, p);
    }
    other := greedy[i := Some(spare)][j := greedy[i]];
    HandOver(facts, targets, greedy, i, j, spare);
  }

  /** Fact `i` moves to an unused target and leaves its own to `j`, which had none. */
  lemma HandOver(
    facts: seq<seq<string>>, targets: seq<string>, matches: seq<Option<nat>>, i: nat, j: nat, spare: nat)
    requires IsMatching(facts, targets, {}, matches) && i < j < |facts|
    requires matches[i].Some? && matches[j].None? && targets[matches[i].value] in facts[j]
    requires spare < |targets| && targets[spare] in facts[i]
    requires forall p :: 0 <= p < |matches| ==> matches[p] != Some(spare)
    ensures IsMatching(facts, targets, {}, matches[i := Some(spare)][j := matches[i]])
    ensures Count(matches[i := Some(spare)][j := matches[i]]) == Count(matches) + 1
  {
    CountUpdate(matches, i, Some(spare));
    CountUpdate(matches[i := Some(spare)], j, matches[i]);
  }

  /** The greedy choice is at least as good as any other on these targets. */
  ghost predicate OptimalOn(facts: seq<seq<string>>, targets: seq<string>) {
    forall other :: IsMatching(facts, targets, {}, other) ==> Count(other) <= Count(Greedy(facts, targets, {}))
  }

  /** The greedy choice is optimal for every target list exactly when the facts are nested. */
  lemma GreedyOptimalIff(facts: seq<seq<string>>)
    ensures (forall targets :: OptimalOn(facts, targets)) <==> Nested(facts)
  {
    if Nested(facts) {
      forall targets ensures OptimalOn(facts, targets) {
        forall other | IsMatching(facts, targets, {}, other)
          ensures Count(other) <= Count(Greedy(facts, targets, {}))
        {
          GreedyIsOptimal(facts, targets, {}, other);
        }
      }
    } else {
      var i, j, a :| 0 <= i < j < |facts| && a in facts[i] && a in facts[j] && !forall b :: b in facts[i] ==> b in facts[j];
      var b :| b in facts[i] && b !in facts[j];
      var targets, other := NotNestedMisses(facts, i, j, a, b);
      assert !OptimalOn(facts, targets);
    }
  }

  /** With overlapping alias lists the greedy choice can miss a fact that another order would hit. */
  lemma GreedyCanMiss()
    ensures var facts, targets := [["a", "b"], ["a"]], ["a", "b"];
      && IsMatching(facts, targets, {}, [Some(1), Some(0)])
      && Count(Greedy(facts, targets, {})) == 1 < Count([Some(1), Some(0)])
  {
    var facts, targets := [["a", "b"], ["a"]], ["a", "b"];
    assert FirstMatch(facts[0], targets, {}, 0) == Some(0);
    assert FirstMatch(facts[1], targets, {0}, 1) == None;
    assert FirstMatch(facts[1], targets, {0}, 0) == None;
    assert facts[1..] == [facts[1]];
    assert Greedy(facts[1..], targets, {0}) == [None];
    assert Greedy(facts, targets, {}) == [Some(0), None];
    assert Count([None]) == 0;
    assert [Some(0), None][1..] == [None];
    assert [Some(1), Some(0)][1..] == [Some(0)];
  }

  /** The positions below `n`. */
  ghost function Positions(n: nat): (r: set<nat>)
    ensures forall k :: k in r <==> 0 <= k < n
    ensures |r| == n
  {
    if n == 0 then {} else Positions(n - 1) + {n - 1}
  }

  /** Targets no fact consumed. */
  ghost function Left(targets: seq<string>, matches: seq<Option<nat>>): set<nat> {
    Positions(|targets|) - Used(matches)
  }

  /** Every target is either matched exactly once or left over. */
  lemma MatchedOrLeft(facts: seq<seq<string>>, targets: seq<string>, matches: seq<Option<nat>>)
    requires IsMatching(facts, targets, {}, matches)
    ensures |Left(targets, matches)| + Count(matches) == |targets|
  {
    UsedCount(facts, targets, matches);
    forall k | k in Used(matches) ensures k in Positions(|targets|) {
      var m :| m in matches && m.Some? && m.value == k;
      var i :| 0 <= i < |matches| && matches[i] == m;
    }
    assert Used(matches) <= Positions(|targets|);
  }

  lemma {:induction false} UsedCount(facts: seq<seq<string>>, targets: seq<string>, matches: seq<Option<nat>>)
    requires IsMatching(facts, targets, {}, matches)
    ensures |Used(matches)| == Count(matches)
    decreases |matches|
  {
    if matches != [] {
      MatchingTail(facts, targets, {}, matches, {});
      UsedCount(facts[1..], targets, matches[1..]);
      assert matches == [matches[0]] + matches[1..];
      if matches[0].Some? {
        assert Used(matches) == Used(matches[1..]) + {matches[0].value};
        forall m | m in matches[1..] && m.Some? ensures m.value != matches[0].value {
          var i :| 0 <= i < |matches[1..]| && matches[1..][i] == m;
          assert matches[i + 1] == m;
        }
      } else {
        assert Used(matches) == Used(matches[1..]);
      }
    }
  }
}
