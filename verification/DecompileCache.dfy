/** The per-project cache of decompiled artifacts, least recently used out first. */
module DecompileCaches {
  import opened Prelude

  datatype Mode = Legacy | ShadowV2 | V2

  datatype Options = Options(
    mode: Mode, allowLegacyFallback: bool, shadowOnly: bool, maxCandidates: nat, beamWidth: nat)

  datatype Key = Key(opSeq: nat, va: u64, lane: nat)

  /** An artifact, known by what it was computed from. */
  datatype Artifact = Artifact(version: nat, va: u64, options: Options)

  datatype Entry = Entry(key: Key, artifact: Artifact)

  const DECOMPILE_CACHE_CAP := 64

  /** `decompile_cache_discriminant`. */
  function Lane(options: Options): nat {
    var mode := match options.mode case Legacy => 0 case ShadowV2 => 1 case V2 => 2;
    mode * 2 + (if options.allowLegacyFallback then 1 else 0)
  }

  /** Two requests share a lane exactly when mode and fallback agree; the search budget is not looked at. */
  lemma LaneIff(a: Options, b: Options)
    ensures Lane(a) == Lane(b) <==> a.mode == b.mode && a.allowLegacyFallback == b.allowLegacyFallback
  {
    assert a.mode.Legacy? || a.mode.ShadowV2? || a.mode.V2?;
    assert b.mode.Legacy? || b.mode.ShadowV2? || b.mode.V2?;
  }

  // ---------------------------------------------------------------- recency

  predicate Distinct(entries: seq<Entry>) {
    forall i, j :: 0 <= i < j < |entries| ==> entries[i].key != entries[j].key
  }

  predicate HasKey(entries: seq<Entry>, key: Key) {
    exists e :: e in entries && e.key == key
  }

  function Without(entries: seq<Entry>, key: Key): seq<Entry> {
    if entries == [] then []
    else if entries[0].key == key then Without(entries[1..], key)
    else [entries[0]] + Without(entries[1..], key)
  }

  lemma {:induction false} WithoutHas(entries: seq<Entry>, key: Key)
    ensures forall e :: e in Without(entries, key) <==> e in entries && e.key != key
  {
    if entries != [] {
      WithoutHas(entries[1..], key);
      assert entries == [entries[0]] + entries[1..];
    }
  }

  function Last(entries: seq<Entry>, n: nat): seq<Entry> {
    if |entries| <= n then entries else entries[|entries| - n..]
  }

  /** Each key once, with its latest artifact, in the order of latest touches. */
  function Recent(touches: seq<Entry>): seq<Entry> {
    if touches == [] then []
    else
      var e := touches[|touches| - 1];
      Without(Recent(touches[..|touches| - 1]), e.key) + [e]
  }

  lemma {:induction false} WithoutDistinct(entries: seq<Entry>, key: Key)
    requires Distinct(entries)
    ensures Distinct(Without(entries, key))
    ensures |entries| - 1 <= |Without(entries, key)| <= |entries|
    ensures !HasKey(entries, key) ==> Without(entries, key) == entries
  {
    if entries != [] {
      var rest := entries[1..];
      assert forall i :: 0 <= i < |rest| ==> rest[i] == entries[i + 1];
      WithoutDistinct(rest, key);
      WithoutHas(rest, key);
      if entries[0].key == key {
        assert !HasKey(rest, key);
      } else {
        assert HasKey(rest, key) ==> HasKey(entries, key);
      }
    }
  }

  lemma {:induction false} WithoutSplit(a: seq<Entry>, b: seq<Entry>, key: Key)
    ensures Without(a + b, key) == Without(a, key) + Without(b, key)
    decreases |a|
  {
    if a == [] {
      assert a + b == b;
    } else {
      assert (a + b)[1..] == a[1..] + b;
      WithoutSplit(a[1..], b, key);
    }
  }

  lemma RecentTouched(touches: seq<Entry>, e: Entry)
    ensures Recent(touches + [e]) == Without(Recent(touches), e.key) + [e]
  {
    assert (touches + [e])[..|touches|] == touches;
  }

  lemma {:induction false} RecentDistinct(touches: seq<Entry>)
    ensures Distinct(Recent(touches))
  {
    if touches != [] {
      var before := touches[..|touches| - 1];
      RecentDistinct(before);
      WithoutDistinct(Recent(before), touches[|touches| - 1].key);
      WithoutHas(Recent(before), touches[|touches| - 1].key);
    }
  }

  lemma DistinctLast(entries: seq<Entry>, n: nat)
    requires Distinct(entries)
    ensures Distinct(Last(entries, n))
  {
  }

  /** Index of the latest touch of `key`. */
  function LatestTouch(touches: seq<Entry>, key: Key): Option<nat> {
    if touches == [] then None
    else if touches[|touches| - 1].key == key then Some(|touches| - 1)
    else LatestTouch(touches[..|touches| - 1], key)
  }

  predicate LatestInOrder(touches: seq<Entry>, entries: seq<Entry>) {
    && (forall i :: 0 <= i < |entries| ==>
         var at := LatestTouch(touches, entries[i].key);
         at.Some? && at.value < |touches| && touches[at.value] == entries[i])
    && (forall i, j :: 0 <= i < j < |entries| ==>
         LatestTouch(touches, entries[i].key).value < LatestTouch(touches, entries[j].key).value)
  }

  /** `Recent` holds exactly the touched keys, each with its latest touch, latest last. */
  lemma {:induction false} RecentMeaning(touches: seq<Entry>)
    ensures forall e :: e in touches ==> HasKey(Recent(touches), e.key)
    ensures LatestInOrder(touches, Recent(touches))
  {
    if touches != [] {
      var n := |touches| - 1;
      var before, e := touches[..n], touches[n];
      RecentMeaning(before);
      hide Recent, Without;
      RecentTouched(before, e);
      assert before + [e] == touches;
      var kept := Without(Recent(before), e.key);
      WithoutHas(Recent(before), e.key);
      assert forall x :: x in touches ==> HasKey(Recent(touches), x.key) by {
        hide LatestInOrder;
        TouchedHas(before, e, kept);
      }
      WithoutKeepsOrder(before, Recent(before), e.key);
      OrderExtends(before, e, kept);
    }
  }

  lemma TouchedHas(before: seq<Entry>, e: Entry, kept: seq<Entry>)
    requires forall x :: x in before && x.key != e.key ==> HasKey(kept, x.key)
    ensures forall x :: x in before + [e] ==> HasKey(kept + [e], x.key)
  {
    forall x | x in before + [e] ensures HasKey(kept + [e], x.key) {
      if x.key == e.key {
        assert e in kept + [e];
      } else {
        var y :| y in kept && y.key == x.key;
        assert y in kept + [e];
      }
    }
  }

  lemma OrderExtends(before: seq<Entry>, e: Entry, kept: seq<Entry>)
    requires LatestInOrder(before, kept)
    requires forall x :: x in kept ==> x.key != e.key
    ensures LatestInOrder(before + [e], kept + [e])
  {
    var touches := before + [e];
    assert touches[..|before|] == before;
    assert LatestTouch(touches, e.key) == Some(|before|);
    forall i | 0 <= i < |kept| ensures LatestTouch(touches, kept[i].key) == LatestTouch(before, kept[i].key) {
      assert kept[i] in kept;
    }
  }

  lemma {:induction false} WithoutKeepsOrder(touches: seq<Entry>, entries: seq<Entry>, key: Key)
    requires LatestInOrder(touches, entries)
    ensures LatestInOrder(touches, Without(entries, key))
  {
    if entries != [] {
      var rest := entries[1..];
      assert forall i :: 0 <= i < |rest| ==> rest[i] == entries[i + 1];
      WithoutKeepsOrder(touches, rest, key);
      WithoutHas(rest, key);
      var kept := Without(rest, key);
      forall i | 0 <= i < |kept| && entries[0].key != key
        ensures LatestTouch(touches, entries[0].key).value < LatestTouch(touches, kept[i].key).value
      {
        assert kept[i] in rest;
        var j :| 0 <= j < |rest| && rest[j] == kept[i];
        assert entries[j + 1] == kept[i];
      }
    }
  }

  lemma LastAppend(a: seq<Entry>, b: seq<Entry>, n: nat)
    requires |b| >= n
    ensures Last(a + b, n) == Last(b, n)
  {
  }

  /** Touching commutes with keeping only the last `n`. */
  lemma LastTouched(recent: seq<Entry>, e: Entry, n: nat)
    requires Distinct(recent) && n > 0
    ensures Last(Without(recent, e.key) + [e], n) == Last(Without(Last(recent, n), e.key) + [e], n)
  {
    hide Without;
    if |recent| > n {
      var d, c := recent[..|recent| - n], recent[|recent| - n..];
      assert recent == d + c;
      WithoutSplit(d, c, e.key);
      DistinctLast(recent, n);
      WithoutDistinct(c, e.key);
      var a, b := Without(d, e.key), Without(c, e.key);
      assert (a + b) + [e] == a + (b + [e]);
      LastAppend(a, b + [e], n);
    }
  }

  // ---------------------------------------------------------------- the two operations

  function Find(entries: seq<Entry>, key: Key): (r: Option<nat>)
    ensures r.Some? ==> r.value < |entries| && entries[r.value].key == key
    ensures r.None? <==> !HasKey(entries, key)
  {
    if entries == [] then None
    else if entries[0].key == key then
      assert entries[0] in entries;
      Some(0)
    else
      var rest := Find(entries[1..], key);
      assert HasKey(entries[1..], key) <==> HasKey(entries, key) by {
        if HasKey(entries, key) {
          var e :| e in entries && e.key == key;
          assert e in entries[1..];
        }
      }
      if rest.None? then None else Some(rest.value + 1)
  }

  /** The cache after a lookup of `key`. */
  function Got(entries: seq<Entry>, key: Key): seq<Entry> {
    var at := Find(entries, key);
    if at.None? then entries else Without(entries, key) + [entries[at.value]]
  }

  /** The cache after storing `artifact` under `key`. */
  function Put(entries: seq<Entry>, key: Key, artifact: Artifact): seq<Entry> {
    Last(Without(entries, key) + [Entry(key, artifact)], DECOMPILE_CACHE_CAP)
  }

  lemma {:induction false} RemoveAt(entries: seq<Entry>, at: nat)
    requires Distinct(entries) && at < |entries|
    ensures entries[..at] + entries[at + 1..] == Without(entries, entries[at].key)
    decreases at
  {
    var rest := entries[1..];
    assert forall i :: 0 <= i < |rest| ==> rest[i] == entries[i + 1];
    if at == 0 {
      WithoutDistinct(rest, entries[0].key);
    } else {
      RemoveAt(rest, at - 1);
      assert rest[at - 1] == entries[at];
      assert entries[..at] == [entries[0]] + rest[..at - 1];
      assert entries[at + 1..] == rest[at..];
    }
  }

  class ArtifactCache {
    var entries: seq<Entry>
    /** Every hit and every store so far, oldest first. */
    ghost var touches: seq<Entry>

    /** The cache holds the 64 most recently touched keys, in the order they were touched. */
    ghost predicate Valid()
      reads this
    {
      entries == Last(Recent(touches), DECOMPILE_CACHE_CAP)
    }

    constructor ()
      ensures Valid() && entries == [] && touches == []
    {
      entries := [];
      touches := [];
    }

    method Get(key: Key) returns (r: Option<Artifact>)
      requires Valid()
      modifies this
      ensures Valid()
      ensures entries == Got(old(entries), key)
      ensures r.Some? <==> HasKey(old(entries), key)
      ensures r.Some? ==> Entry(key, r.value) in old(entries)
      ensures touches == old(touches) + (if r.Some? then [Entry(key, r.value)] else [])
    {
      RecentDistinct(touches);
      DistinctLast(Recent(touches), DECOMPILE_CACHE_CAP);
      var position := Find(entries, key);
      if position.None? {
        return None;
      }
      var entry := entries[position.value];
      RemoveAt(entries, position.value);
      LastTouched(Recent(touches), entry, DECOMPILE_CACHE_CAP);
      WithoutShrinks(entries, entry);
      hide Without, Recent;
      entries := entries[..position.value] + entries[position.value + 1..];
      entries := entries + [entry];
      touches := touches + [entry];
      RecentTouched(old(touches), entry);
      r := Some(entry.artifact);
    }

    method Store(key: Key, artifact: Artifact)
      requires Valid()
      modifies this
      ensures Valid()
      ensures entries == Put(old(entries), key, artifact)
      ensures touches == old(touches) + [Entry(key, artifact)]
    {
      hide Without, Recent;
      var entry := Entry(key, artifact);
      RecentDistinct(touches);
      LastTouched(Recent(touches), entry, DECOMPILE_CACHE_CAP);
      entries := Without(entries, key);
      entries := entries + [entry];
      ghost var all := entries;
      while |entries| > DECOMPILE_CACHE_CAP
        invariant |entries| <= |all| && entries == all[|all| - |entries|..]
        invariant |entries| >= DECOMPILE_CACHE_CAP || entries == all
        modifies this`entries
      {
        entries := entries[1..];
      }
      touches := touches + [entry];
      RecentTouched(old(touches), entry);
    }
  }

  /** Removing a present entry makes room for it again. */
  lemma {:induction false} WithoutShrinks(entries: seq<Entry>, e: Entry)
    requires e in entries
    ensures |Without(entries, e.key)| < |entries|
  {
    if entries[0].key == e.key {
      WithoutLength(entries[1..], e.key);
    } else {
      WithoutShrinks(entries[1..], e);
    }
  }

  lemma {:induction false} WithoutLength(entries: seq<Entry>, key: Key)
    ensures |Without(entries, key)| <= |entries|
  {
    if entries != [] {
      WithoutLength(entries[1..], key);
    }
  }

  /** Both operations keep at most 64 entries with distinct keys, and invent none. */
  lemma CacheKept(entries: seq<Entry>, key: Key, artifact: Artifact)
    requires Distinct(entries) && |entries| <= DECOMPILE_CACHE_CAP
    ensures Distinct(Got(entries, key)) && |Got(entries, key)| <= DECOMPILE_CACHE_CAP
    ensures Distinct(Put(entries, key, artifact)) && |Put(entries, key, artifact)| <= DECOMPILE_CACHE_CAP
    ensures forall e :: e in Got(entries, key) <==> e in entries
    ensures forall e :: e in Put(entries, key, artifact) ==> e in entries || e == Entry(key, artifact)
    ensures Entry(key, artifact) in Put(entries, key, artifact)
  {
    WithoutDistinct(entries, key);
    WithoutHas(entries, key);
    var at := Find(entries, key);
    if at.Some? {
      WithoutShrinks(entries, entries[at.value]);
      forall e | e in entries && e.key == key ensures e == entries[at.value] {
      }
    }
    var all := Without(entries, key) + [Entry(key, artifact)];
    assert Distinct(all);
    DistinctLast(all, DECOMPILE_CACHE_CAP);
    assert Last(all, DECOMPILE_CACHE_CAP)[|Last(all, DECOMPILE_CACHE_CAP)| - 1] == Entry(key, artifact);
  }
}
