/** Checksummed cache partitions, installed by renames that may be cut short at any file operation. */
module StructuralCaches {
  import opened Prelude
  import opened Sorting

  datatype Path =
    | Entry(partition: string, stem: string)
    | Sidecar(partition: string, stem: string)
    | Temporary(nonce: nat)
    | Quarantine(nonce: nat)
    | DeepTemporary(nonce: nat)

  datatype Envelope = Envelope(abi: string, image: string, payloadDigest: string, payload: seq<byte>)

  /** The serializer and the digest, as far as the cache depends on them. */
  datatype Codec<!V> = Codec(
    write: Envelope -> seq<byte>,
    parse: seq<byte> -> Option<Envelope>,
    digest: seq<byte> -> string,
    encode: V -> seq<byte>,
    decode: seq<byte> -> Option<V>)

  /** Reading back what was written gives it back. */
  ghost predicate Faithful<V(!new)>(c: Codec<V>) {
    && (forall e :: c.parse(c.write(e)) == Some(e))
    && (forall v :: c.decode(c.encode(v)) == Some(v))
  }

  /** What a value was stored under. */
  datatype Key = Key(partition: string, abi: string, image: string)

  function Stem(image: string, abi: string): string { image + "-" + abi }

  /** `partition_path`. */
  function PathOf(key: Key): Path { Entry(key.partition, Stem(key.image, key.abi)) }

  predicate Hex(s: string) { '-' !in s }

  /** Index of the first dash, or the length. */
  function DashIndex(s: string): (r: nat)
    ensures r <= |s|
  {
    if s == [] || s[0] == '-' then 0 else 1 + DashIndex(s[1..])
  }

  lemma {:induction false} DashOfStem(image: string, abi: string)
    requires Hex(image)
    ensures DashIndex(Stem(image, abi)) == |image|
    decreases |image|
  {
    if image != [] {
      assert Stem(image, abi)[1..] == Stem(image[1..], abi);
      DashOfStem(image[1..], abi);
    }
  }

  /** Images are named by their digest, which has no dash: distinct keys have distinct files. */
  lemma PathsDiffer(a: Key, b: Key)
    requires Hex(a.image) && Hex(b.image)
    ensures PathOf(a) == PathOf(b) <==> a == b
  {
    DashOfStem(a.image, a.abi);
    DashOfStem(b.image, b.abi);
    var s, t := Stem(a.image, a.abi), Stem(b.image, b.abi);
    assert a.image == s[..DashIndex(s)] && b.image == t[..DashIndex(t)];
    assert a.abi == s[DashIndex(s) + 1..] && b.abi == t[DashIndex(t) + 1..];
  }

  function EnvelopeOf<V>(c: Codec<V>, key: Key, v: V): Envelope {
    Envelope(key.abi, key.image, c.digest(c.encode(v)), c.encode(v))
  }

  /** `load` on the bytes of a file. */
  function Loaded<V>(c: Codec<V>, bytes: seq<byte>, key: Key): Option<V> {
    var e := c.parse(bytes);
    if e.None? || e.value.abi != key.abi || e.value.image != key.image then None
    else if c.digest(e.value.payload) != e.value.payloadDigest then None
    else c.decode(e.value.payload)
  }

  /** A complete envelope loads under exactly the abi and image it was stored under. */
  lemma LoadedIff<V(!new)>(c: Codec<V>, stored: Key, v: V, asked: Key)
    requires Faithful(c)
    ensures Loaded(c, c.write(EnvelopeOf(c, stored, v)), asked) ==
      if stored.abi == asked.abi && stored.image == asked.image then Some(v) else None
  {
  }

  /** The digest has no collisions among what is stored and what is found. */
  ghost predicate CollisionFree<V(!new)>(c: Codec<V>) {
    forall a, b :: c.digest(a) == c.digest(b) ==> a == b
  }

  /** The bytes are an envelope that names the digest of this value's payload. */
  predicate Names<V>(c: Codec<V>, bytes: seq<byte>, v: V) {
    var e := c.parse(bytes);
    e.Some? && e.value.payloadDigest == c.digest(c.encode(v))
  }

  /**
   * A file that still names the digest it was stored with loads exactly when nothing else in it was
   * changed either: format, image and payload; and then it is the stored value.
   */
  lemma DamagedNeverLoads<V(!new)>(c: Codec<V>, bytes: seq<byte>, v: V, asked: Key)
    requires Faithful(c) && CollisionFree(c) && Names(c, bytes, v)
    ensures
      var e := c.parse(bytes).value;
      Loaded(c, bytes, asked) ==
        if e.abi == asked.abi && e.image == asked.image && e.payload == c.encode(v) then Some(v) else None
  {
    var e := c.parse(bytes).value;
    assert c.digest(e.payload) == e.payloadDigest ==> e.payload == c.encode(v);
  }

  /** One changed byte of the payload, and the file does not load under any key. */
  lemma ChangedPayloadNeverLoads<V(!new)>(c: Codec<V>, key: Key, v: V, payload: seq<byte>, asked: Key)
    requires Faithful(c) && CollisionFree(c) && payload != c.encode(v)
    ensures Loaded(c, c.write(EnvelopeOf(c, key, v).(payload := payload)), asked).None?
  {
    DamagedNeverLoads(c, c.write(EnvelopeOf(c, key, v).(payload := payload)), v, asked);
  }

  type Files = map<Path, seq<byte>>

  function At(files: Files, p: Path): Option<seq<byte>> {
    if p in files then Some(files[p]) else None
  }

  /** An atomic rename, replacing what was there. */
  function Renamed(files: Files, a: Path, b: Path): Files
    requires a in files
  {
    (files - {a})[b := files[a]]
  }

  /**
   * How the file operations of a store go: after how many a crash ends it, how much of the temporary
   * file a crash in the middle of writing leaves, and which renames fail.
   */
  datatype Faults = Faults(steps: nat, torn: nat, quarantineFails: bool, installFails: bool, restoreFails: bool)

  datatype Ending = Completed | QuarantineFailed | InstallFailed | Crashed

  datatype Stored<!V> = Stored(key: Key, value: V)

  /** The bytes are a complete envelope of something stored under this path's key. */
  ghost predicate Complete<V(!new)>(c: Codec<V>, stored: iset<Stored<V>>, p: Path, bytes: seq<byte>) {
    exists x :: x in stored && PathOf(x.key) == p && bytes == c.write(EnvelopeOf(c, x.key, x.value))
  }

  /**
   * Every partition file is complete, those aside that were changed from outside since they were
   * installed; temporary and quarantined files may hold anything.
   */
  ghost predicate Sound<V(!new)>(c: Codec<V>, stored: iset<Stored<V>>, files: Files, changed: set<Path>) {
    forall p :: p in files && p.Entry? && p !in changed ==> Complete(c, stored, p, files[p])
  }

  /** More values stored, or files other than partitions changed: still sound. */
  lemma SoundGrows<V(!new)>(
    c: Codec<V>, stored: iset<Stored<V>>, more: iset<Stored<V>>, files: Files, after: Files,
    changed: set<Path>, later: set<Path>)
    requires Sound(c, stored, files, changed) && stored <= more
    requires forall p :: p in after && p.Entry? && p !in later ==>
      (At(after, p) == At(files, p) && p !in changed) || Complete(c, more, p, after[p])
    ensures Sound(c, more, after, later)
  {
    forall p | p in after && p.Entry? && p !in later ensures Complete(c, more, p, after[p]) {
      if At(after, p) == At(files, p) && p !in changed {
        var x :| x in stored && PathOf(x.key) == p && after[p] == c.write(EnvelopeOf(c, x.key, x.value));
        assert x in more;
      }
    }
  }

  /** A partition file nobody changed that loads gives a value stored under exactly the key asked for. */
  lemma LoadsStored<V(!new)>(c: Codec<V>, stored: iset<Stored<V>>, files: Files, changed: set<Path>, key: Key)
    requires Faithful(c) && Sound(c, stored, files, changed) && PathOf(key) in files && PathOf(key) !in changed
    requires Loaded(c, files[PathOf(key)], key).Some?
    ensures Stored(key, Loaded(c, files[PathOf(key)], key).value) in stored
  {
    var p := PathOf(key);
    var x :| x in stored && PathOf(x.key) == p && files[p] == c.write(EnvelopeOf(c, x.key, x.value));
    LoadedIff(c, x.key, x.value, key);
    assert x.key == key;
  }

  // ---------------------------------------------------------------- pruning

  /** A partition with its sidecar, as the walk over the cache directory lists it. */
  datatype CacheFile = CacheFile(modified: nat, size: nat, path: Path)

  function SidecarOf(p: Path): Path
    requires p.Entry?
  {
    Sidecar(p.partition, p.stem)
  }

  function Size(files: Files, p: Path): nat {
    if p in files then |files[p]| else 0
  }

  predicate Older(a: CacheFile, b: CacheFile) { a.modified <= b.modified }

  lemma OlderOrders()
    ensures TotalPreorder(Older)
  {
  }

  function Total(list: seq<CacheFile>): nat {
    if list == [] then 0 else list[0].size + Total(list[1..])
  }

  function SaturatingSub(a: nat, b: nat): nat { if a >= b then a - b else 0 }

  /** What pruning removes: from the front, while too much is left, skipping what cannot be removed. */
  function Pruned(order: seq<CacheFile>, bytes: nat, maxBytes: nat, stuck: set<Path>): (r: seq<CacheFile>)
    ensures forall f :: f in r ==> f in order && f.path !in stuck
  {
    if order == [] || bytes <= maxBytes then []
    else if order[0].path in stuck then Pruned(order[1..], bytes, maxBytes, stuck)
    else [order[0]] + Pruned(order[1..], SaturatingSub(bytes, order[0].size), maxBytes, stuck)
  }

  /** Pruning stops as soon as the rest fits and not before, unless nothing more can be removed. */
  lemma {:induction false} PrunesEnough(order: seq<CacheFile>, bytes: nat, maxBytes: nat, stuck: set<Path>)
    requires bytes >= Total(order)
    ensures var gone := Pruned(order, bytes, maxBytes, stuck);
      && Total(gone) <= Total(order)
      && (bytes - Total(gone) <= maxBytes || forall f :: f in order ==> f in gone || f.path in stuck)
      && (gone != [] ==> bytes - Total(gone) + gone[|gone| - 1].size > maxBytes)
    decreases |order|
  {
    if order != [] && bytes > maxBytes {
      var f, rest := order[0], order[1..];
      var less := if f.path in stuck then bytes else bytes - f.size;
      PrunesEnough(rest, less, maxBytes, stuck);
      var gone, more := Pruned(order, bytes, maxBytes, stuck), Pruned(rest, less, maxBytes, stuck);
      assert gone == if f.path in stuck then more else [f] + more;
      assert Total([f] + more) == f.size + Total(more) by { assert ([f] + more)[1..] == more; }
      assert forall g :: g in order ==> g == f || g in rest;
    }
  }

  /** Nothing goes while something older that could go stays. */
  lemma {:induction false} PrunesOldest(order: seq<CacheFile>, bytes: nat, maxBytes: nat, stuck: set<Path>)
    requires SortedBy(Older, order)
    ensures var gone := Pruned(order, bytes, maxBytes, stuck);
      forall f, g :: f in gone && g in order && g !in gone && g.path !in stuck ==> f.modified <= g.modified
    decreases |order|
  {
    if order != [] && bytes > maxBytes {
      var first, rest := order[0], order[1..];
      assert SortedBy(Older, rest) by {
        assert forall i :: 0 <= i < |rest| ==> rest[i] == order[i + 1];
      }
      var less := if first.path in stuck then bytes else SaturatingSub(bytes, first.size);
      PrunesOldest(rest, less, maxBytes, stuck);
      forall g | g in rest ensures first.modified <= g.modified {
        var k :| 0 <= k < |rest| && rest[k] == g;
        assert Older(order[0], order[k + 1]);
      }
      var more := Pruned(rest, less, maxBytes, stuck);
      assert Pruned(order, bytes, maxBytes, stuck) == if first.path in stuck then more else [first] + more;
    }
  }

  function Paths(list: seq<CacheFile>): (r: set<Path>)
    ensures forall f :: f in list ==> f.path in r
  {
    set f | f in list :: f.path
  }

  function Sidecars(list: seq<CacheFile>): set<Path>
    requires forall f :: f in list ==> f.path.Entry?
  {
    set f | f in list :: SidecarOf(f.path)
  }

  function Listed(files: Files, modified: map<Path, nat>, listing: seq<Path>): (r: seq<CacheFile>)
    requires forall p :: p in listing ==> p.Entry?
    ensures |r| == |listing| && forall i :: 0 <= i < |r| ==> r[i].path == listing[i]
    ensures Entries(r)
  {
    seq(|listing|, i requires 0 <= i < |listing| =>
      assert listing[i] in listing;
      FileAt(files, modified, listing[i]))
  }

  function FileAt(files: Files, modified: map<Path, nat>, p: Path): CacheFile
    requires p.Entry?
  {
    CacheFile(if p in modified then modified[p] else 0, Size(files, p) + Size(files, SidecarOf(p)), p)
  }

  /** A partition takes the bytes of its own file and, where there is one, of the data file of the same name beside it. */
  lemma TakesBoth(files: Files, modified: map<Path, nat>, p: Path)
    requires p in files && p.Entry?
    ensures var f, data := FileAt(files, modified, p), Sidecar(p.partition, p.stem);
      f.path == p && f.size == |files[p]| + if data in files then |files[data]| else 0
  {
  }

  /** Every partition once, oldest first, with its size and age. */
  ghost predicate Lists(files: Files, modified: map<Path, nat>, order: seq<CacheFile>) {
    && SortedBy(Older, order) && Entries(order)
    && (forall f :: f in order ==> f.path in files && f == FileAt(files, modified, f.path))
    && (forall p :: p in files && p.Entry? ==> FileAt(files, modified, p) in order)
    && (forall i, j :: 0 <= i < j < |order| ==> order[i] != order[j])
  }

  /** Bytes of the listed partitions that cannot be removed. */
  function StuckTotal(list: seq<CacheFile>, stuck: set<Path>): nat {
    if list == [] then 0
    else (if list[0].path in stuck then list[0].size else 0) + StuckTotal(list[1..], stuck)
  }

  lemma {:induction false} StuckBounded(list: seq<CacheFile>, stuck: set<Path>)
    ensures StuckTotal(list, stuck) <= Total(list)
  {
    if list != [] {
      StuckBounded(list[1..], stuck);
    }
  }

  lemma {:induction false} TotalLast(order: seq<CacheFile>)
    requires order != []
    ensures Total(order) == Total(order[..|order| - 1]) + order[|order| - 1].size
  {
    TotalAppend(order[..|order| - 1], order[|order| - 1]);
    assert order == order[..|order| - 1] + [order[|order| - 1]];
  }

  /**
   * The newest partition goes exactly when it can be removed and does not fit beside those that
   * cannot.
   */
  lemma {:induction false} NewestPrunedIff(
    order: seq<CacheFile>, bytes: nat, maxBytes: nat, stuck: set<Path>)
    requires order != [] && bytes >= Total(order)
    requires forall i, j :: 0 <= i < j < |order| ==> order[i] != order[j]
    ensures var n := |order| - 1;
      order[n] in Pruned(order, bytes, maxBytes, stuck) <==>
        order[n].path !in stuck && bytes - Total(order) + StuckTotal(order[..n], stuck) + order[n].size > maxBytes
    decreases |order|
  {
    var n, first, rest := |order| - 1, order[0], order[1..];
    StuckBounded(order[..n], stuck);
    TotalLast(order);
    if n > 0 && bytes > maxBytes {
      assert forall i :: 0 <= i < |rest| ==> rest[i] == order[i + 1];
      assert order[..n][1..] == rest[..n - 1];
      NewestPrunedIff(rest, if first.path in stuck then bytes else bytes - first.size, maxBytes, stuck);
    } else if n == 0 {
      assert rest == [];
    }
  }

  lemma NewestIsLast(files: Files, modified: map<Path, nat>, order: seq<CacheFile>, p: Path)
    requires Lists(files, modified, order) && p in files && p.Entry? && p in modified
    requires forall q :: q in modified && q != p ==> modified[q] < modified[p]
    requires modified[p] > 0
    ensures order != [] && order[|order| - 1] == FileAt(files, modified, p)
  {
    var k :| 0 <= k < |order| && order[k] == FileAt(files, modified, p);
    var last := order[|order| - 1];
    assert last in order;
    assert k < |order| - 1 ==> Older(order[k], last);
  }

  lemma {:induction false} TotalAppend(list: seq<CacheFile>, f: CacheFile)
    ensures Total(list + [f]) == Total(list) + f.size
  {
    if list == [] {
      assert [f][1..] == [];
    } else {
      assert (list + [f])[1..] == list[1..] + [f];
      TotalAppend(list[1..], f);
    }
  }

  predicate Entries(list: seq<CacheFile>) {
    forall f :: f in list ==> f.path.Entry?
  }

  /** The files left once these partitions are removed, and their sidecars as far as that succeeds. */
  function Less(files: Files, gone: seq<CacheFile>, stuck: set<Path>): Files
    requires Entries(gone)
  {
    files - Paths(gone) - (Sidecars(gone) - stuck)
  }

  lemma LessOne(files: Files, gone: seq<CacheFile>, f: CacheFile, stuck: set<Path>)
    requires Entries(gone) && f.path.Entry?
    ensures Less(files, gone + [f], stuck) ==
      Less(files, gone, stuck) - {f.path} - ({SidecarOf(f.path)} - stuck)
  {
    PathsAppend(gone, f);
  }

  lemma LessNothing(files: Files, stuck: set<Path>)
    ensures Less(files, [], stuck) == files && Total([]) == 0
  {
    assert Paths([]) == {} && Sidecars([]) == {};
  }

  lemma PrunedStep(gone: seq<CacheFile>, todo: seq<CacheFile>, bytes: nat, maxBytes: nat, stuck: set<Path>)
    requires todo != [] && bytes > maxBytes
    ensures gone + Pruned(todo, bytes, maxBytes, stuck) ==
      if todo[0].path in stuck then gone + Pruned(todo[1..], bytes, maxBytes, stuck)
      else gone + [todo[0]] + Pruned(todo[1..], SaturatingSub(bytes, todo[0].size), maxBytes, stuck)
    ensures Total(todo) == todo[0].size + Total(todo[1..])
  {
  }

  lemma PrunedEnds(todo: seq<CacheFile>, bytes: nat, maxBytes: nat, stuck: set<Path>)
    requires todo == [] || bytes <= maxBytes
    ensures Pruned(todo, bytes, maxBytes, stuck) == []
  {
  }

  lemma StillSound<V(!new)>(
    c: Codec<V>, stored: iset<Stored<V>>, files: Files, changed: set<Path>, gone: seq<CacheFile>, stuck: set<Path>)
    requires Sound(c, stored, files, changed) && Entries(gone)
    ensures Sound(c, stored, Less(files, gone, stuck), changed)
  {
    hide Complete;
  }

  lemma SameMembers(a: seq<CacheFile>, b: seq<CacheFile>)
    requires multiset(a) == multiset(b)
    ensures forall f :: f in a <==> f in b
    ensures (forall i, j :: 0 <= i < j < |b| ==> b[i] != b[j]) ==> forall i, j :: 0 <= i < j < |a| ==> a[i] != a[j]
  {
    forall f ensures f in a <==> f in b {
      assert f in multiset(a) <==> f in a;
      assert f in multiset(b) <==> f in b;
    }
    if forall i, j :: 0 <= i < j < |b| ==> b[i] != b[j] {
      forall i, j | 0 <= i < j < |a| ensures a[i] != a[j] {
        if a[i] == a[j] {
          Twice(a, i, j);
          Once(b, a[i]);
        }
      }
    }
  }

  lemma Twice(a: seq<CacheFile>, i: nat, j: nat)
    requires i < j < |a| && a[i] == a[j]
    ensures multiset(a)[a[i]] >= 2
  {
    assert a == a[..j] + [a[j]] + a[j + 1..];
    assert a[i] in a[..j];
  }

  lemma {:induction false} Once(b: seq<CacheFile>, f: CacheFile)
    requires forall i, j :: 0 <= i < j < |b| ==> b[i] != b[j]
    ensures multiset(b)[f] <= 1
  {
    if b != [] {
      var front, last := b[..|b| - 1], b[|b| - 1];
      assert b == front + [last];
      Once(front, f);
      assert last !in front;
      assert last !in multiset(front);
    }
  }

  lemma PathsAppend(list: seq<CacheFile>, f: CacheFile)
    requires f.path.Entry? && forall g :: g in list ==> g.path.Entry?
    ensures Paths(list + [f]) == Paths(list) + {f.path}
    ensures Sidecars(list + [f]) == Sidecars(list) + {SidecarOf(f.path)}
  {
  }

  method TotalBytes(list: seq<CacheFile>) returns (bytes: nat)
    ensures bytes == Total(list)
  {
    bytes := 0;
    var i := |list|;
    while i > 0
      invariant 0 <= i <= |list| && bytes == Total(list[i..])
    {
      i := i - 1;
      assert list[i..][1..] == list[i + 1..];
      bytes := bytes + list[i].size;
    }
  }

  lemma SortedLists(files: Files, modified: map<Path, nat>, listing: seq<Path>, order: seq<CacheFile>)
    requires forall p :: p in listing <==> p in files && p.Entry?
    requires forall f :: f in order <==> f in Listed(files, modified, listing)
    requires forall i, j :: 0 <= i < j < |order| ==> order[i] != order[j]
    requires SortedBy(Older, order)
    ensures Lists(files, modified, order)
  {
    var list := Listed(files, modified, listing);
    forall f | f in order ensures f.path.Entry? && f.path in files && f == FileAt(files, modified, f.path) {
      var i :| 0 <= i < |list| && list[i] == f;
      assert listing[i] in listing;
    }
    forall p | p in files && p.Entry? ensures FileAt(files, modified, p) in order {
      var i :| 0 <= i < |listing| && listing[i] == p;
      assert list[i] == FileAt(files, modified, p);
    }
  }

  lemma StoredIsComplete<V(!new)>(c: Codec<V>, stored: iset<Stored<V>>, key: Key, v: V)
    requires Stored(key, v) in stored
    ensures Complete(c, stored, PathOf(key), c.write(EnvelopeOf(c, key, v)))
    ensures EnvelopeOf(c, key, v) == Envelope(key.abi, key.image, c.digest(c.encode(v)), c.encode(v))
  {
    var x := Stored(key, v);
    assert x in stored && PathOf(x.key) == PathOf(key);
  }

  class CacheDir<V(!new)> {
    const codec: Codec<V>
    var files: Files
    var modified: map<Path, nat>
    var clock: nat
    /** Everything `Store` was ever asked to keep. */
    ghost var stored: iset<Stored<V>>
    /** Files changed from outside since they were last installed here. */
    ghost var changed: set<Path>

    ghost predicate Valid()
      reads this
    {
      && Faithful(codec) && Sound(codec, stored, files, changed)
      && clock > 0 && forall p :: p in modified ==> modified[p] < clock
    }

    constructor (codec: Codec<V>)
      requires Faithful(codec)
      ensures Valid() && files == map[] && stored == iset{} && changed == {} && this.codec == codec
    {
      this.codec := codec;
      files, modified, clock := map[], map[], 1;
      stored, changed := iset{}, {};
    }

    /** Something outside overwrites, truncates or removes a file. */
    method Overwrite(p: Path, bytes: Option<seq<byte>>)
      requires Valid()
      modifies this`files, this`changed, this`modified, this`clock
      ensures Valid() && changed == old(changed) + {p}
      ensures files == if bytes.Some? then old(files)[p := bytes.value] else old(files) - {p}
    {
      hide Complete;
      files := if bytes.Some? then files[p := bytes.value] else files - {p};
      changed := changed + {p};
      modified, clock := modified[p := clock], clock + 1;
      SoundGrows(codec, stored, stored, old(files), files, old(changed), changed);
    }

    /** `store`, whatever fails and wherever a crash cuts it short. */
    method Store(key: Key, v: V, nonce: nat, faults: Faults) returns (ending: Ending)
      requires Valid() && Temporary(nonce) !in files && Quarantine(nonce) !in files
      modifies this`files, this`stored, this`modified, this`clock, this`changed
      ensures Valid()
      ensures stored == old(stored) + iset{Stored(key, v)}
      ensures changed == old(changed) - {PathOf(key)} || changed == old(changed)
      ensures ending.Completed? ==> changed == old(changed) - {PathOf(key)}
      ensures forall p :: p != PathOf(key) && p != Temporary(nonce) && p != Quarantine(nonce) ==>
        At(files, p) == At(old(files), p)
      ensures At(files, PathOf(key)) in
        {At(old(files), PathOf(key)), Some(codec.write(EnvelopeOf(codec, key, v))), None}
      ensures ending.Completed? ==> files == old(files)[PathOf(key) := codec.write(EnvelopeOf(codec, key, v))]
      ensures ending.InstallFailed? && !faults.restoreFails ==> files == old(files)
      ensures ending.QuarantineFailed? ==> At(files, PathOf(key)) == At(old(files), PathOf(key))
      // Until the new envelope is in place the old one is still on disk.
      ensures At(files, PathOf(key)).None? && PathOf(key) in old(files) ==>
        At(files, Quarantine(nonce)) == At(old(files), PathOf(key))
      // The file written last is the newest.
      ensures ending.Completed? ==> modified == old(modified)[PathOf(key) := old(clock)] && clock == old(clock) + 1
    {
      hide Sound, Complete, Faithful, EnvelopeOf, Renamed;
      var payload := codec.encode(v);
      var bytes := codec.write(Envelope(key.abi, key.image, codec.digest(payload), payload));
      stored := stored + iset{Stored(key, v)};
      StoredIsComplete(codec, stored, key, v);
      var installed;
      ending, installed := Install(PathOf(key), bytes, nonce, faults);
      if installed {
        changed := changed - {PathOf(key)};
      }
      SoundGrows(codec, old(stored), stored, old(files), files, old(changed), changed);
      if installed {
        modified := modified[PathOf(key) := clock];
        clock := clock + 1;
      }
    }

    /** Create, write and sync the temporary file. */
    method WriteTemporary(temporary: Path, bytes: seq<byte>, steps: nat, torn: nat) returns (written: bool)
      requires temporary !in files
      modifies this`files
      ensures written <==> steps >= 2
      ensures if written then files == old(files)[temporary := bytes]
              else forall p :: p != temporary ==> At(files, p) == At(old(files), p)
    {
      if steps == 0 {
        return false;
      }
      files := files[temporary := []];
      if steps == 1 {
        files := files[temporary := bytes[..if torn < |bytes| then torn else |bytes|]];
        return false;
      }
      files := files[temporary := bytes];
      written := true;
    }

    /** The file operations of `store`. A failed quarantine leaves the temporary file behind. */
    method Install(path: Path, bytes: seq<byte>, nonce: nat, faults: Faults)
      returns (ending: Ending, installed: bool)
      requires path.Entry? && Temporary(nonce) !in files && Quarantine(nonce) !in files
      modifies this`files
      ensures forall p :: p != path && p != Temporary(nonce) && p != Quarantine(nonce) ==>
        At(files, p) == At(old(files), p)
      ensures if installed then At(files, path) == Some(bytes) else At(files, path) in {At(old(files), path), None}
      ensures ending.Completed? ==> installed && files == old(files)[path := bytes]
      ensures ending.InstallFailed? && !faults.restoreFails ==> files == old(files)
      ensures ending.QuarantineFailed? ==> files == old(files)[Temporary(nonce) := bytes]
      ensures At(files, path).None? && path in old(files) ==> At(files, Quarantine(nonce)) == At(old(files), path)
    {
      var temporary, quarantine := Temporary(nonce), Quarantine(nonce);
      var written := WriteTemporary(temporary, bytes, faults.steps, faults.torn);
      if !written || faults.steps == 2 {
        return Crashed, false;
      }
      var quarantined := path in files;
      if quarantined {
        if faults.quarantineFails {
          return QuarantineFailed, false;
        }
        files := Renamed(files, path, quarantine);
        if faults.steps == 3 {
          return Crashed, false;
        }
      }
      if faults.installFails {
        if quarantined && !faults.restoreFails {
          files := Renamed(files, quarantine, path);
        }
        files := files - {temporary};
        if !faults.restoreFails {
          assert files == old(files);
        }
        return InstallFailed, false;
      }
      files := Renamed(files, temporary, path);
      if quarantined {
        if faults.steps == 4 {
          return Crashed, true;
        }
        files := files - {quarantine};
      }
      assert files == old(files)[path := bytes];
      return Completed, true;
    }

    /** `load`: a value that loads becomes the most recently used. */
    method Load(key: Key) returns (r: Option<V>)
      requires Valid()
      modifies this`modified, this`clock
      ensures Valid()
      ensures r == (if PathOf(key) in files then Loaded(codec, files[PathOf(key)], key) else None)
      ensures r.Some? && PathOf(key) !in changed ==> Stored(key, r.value) in stored
      // Where the digest that was stored is still named, damage is noticed.
      ensures CollisionFree(codec) && PathOf(key) in files ==>
        forall v :: Names(codec, files[PathOf(key)], v) ==> r == None || r == Some(v)
      ensures r.Some? ==> PathOf(key) in modified && modified[PathOf(key)] == old(clock) && clock == old(clock) + 1
      ensures r.None? ==> modified == old(modified)
    {
      var path := PathOf(key);
      if path !in files {
        return None;
      }
      r := Loaded(codec, files[path], key);
      if CollisionFree(codec) {
        forall v | Names(codec, files[path], v) ensures r == None || r == Some(v) {
          DamagedNeverLoads(codec, files[path], v, key);
        }
      }
      if r.Some? {
        if path !in changed {
          LoadsStored(codec, stored, files, changed, key);
        }
        modified := modified[path := clock];
        clock := clock + 1;
      }
    }

    /** The walk over the cache directory: every partition once, in no particular order. */
    method Walk() returns (listing: seq<Path>)
      ensures forall p :: p in listing <==> p in files && p.Entry?
      ensures forall i, j :: 0 <= i < j < |listing| ==> listing[i] != listing[j]
    {
      listing := [];
      var left := files.Keys;
      while left != {}
        invariant left <= files.Keys
        invariant forall p :: p in listing <==> p in files && p !in left && p.Entry?
        invariant forall i, j :: 0 <= i < j < |listing| ==> listing[i] != listing[j]
        decreases left
      {
        var p :| p in left;
        left := left - {p};
        if p.Entry? {
          listing := listing + [p];
        }
      }
    }

    /** `prune_lru`; files in `stuck` cannot be removed. */
    method PruneLru(maxBytes: nat, stuck: set<Path>)
      returns (bytes: nat, removed: nat, ghost order: seq<CacheFile>)
      requires Valid()
      modifies this`files
      ensures Valid() && Lists(old(files), modified, order)
      ensures var gone := Pruned(order, Total(order), maxBytes, stuck);
        && Entries(gone) && files == Less(old(files), gone, stuck)
        && removed == |gone| && bytes == Total(order) - Total(gone)
    {
      hide Sound, Faithful, Pruned, Less;
      OlderOrders();
      var listing := Walk();
      var list := Listed(files, modified, listing);
      assert forall i, j :: 0 <= i < j < |list| ==> list[i] != list[j];
      var todo := Sort(Older, list);
      SortSorts(Older, list);
      SameMembers(todo, list);
      order := todo;
      assert Lists(files, modified, order) by { SortedLists(files, modified, listing, order); }
      bytes, removed := RemoveUntilFits(todo, maxBytes, stuck);
      StillSound(codec, stored, old(files), changed, Pruned(order, Total(order), maxBytes, stuck), stuck);
    }

    /** The removal loop. */
    method RemoveUntilFits(order: seq<CacheFile>, maxBytes: nat, stuck: set<Path>)
      returns (bytes: nat, removed: nat)
      requires Entries(order)
      modifies this`files
      ensures var gone := Pruned(order, Total(order), maxBytes, stuck);
        && Entries(gone) && files == Less(old(files), gone, stuck)
        && removed == |gone| && Total(gone) <= Total(order) && bytes == Total(order) - Total(gone)
    {
      hide Pruned, Total, Less, Paths, Sidecars, SidecarOf;
      bytes := TotalBytes(order);
      removed := 0;
      var todo := order;
      ghost var gone: seq<CacheFile> := [];
      LessNothing(files, stuck);
      while todo != [] && bytes > maxBytes
        invariant Entries(todo) && Entries(gone)
        invariant gone + Pruned(todo, bytes, maxBytes, stuck) == Pruned(order, Total(order), maxBytes, stuck)
        invariant bytes >= Total(todo) && bytes + Total(gone) == Total(order)
        invariant removed == |gone|
        invariant files == Less(old(files), gone, stuck)
        decreases |todo|
      {
        var f := todo[0];
        assert f in todo;
        PrunedStep(gone, todo, bytes, maxBytes, stuck);
        if f.path !in stuck {
          LessOne(old(files), gone, f, stuck);
          files := files - {f.path} - ({SidecarOf(f.path)} - stuck);
          bytes := SaturatingSub(bytes, f.size);
          removed := removed + 1;
          TotalAppend(gone, f);
          gone := gone + [f];
        }
        todo := todo[1..];
      }
      PrunedEnds(todo, bytes, maxBytes, stuck);
      assert gone + [] == gone;
    }
  }

  /** After a completed store the value loads, until something else is stored there or it is pruned. */
  lemma StoreThenLoad<V(!new)>(c: Codec<V>, files: Files, key: Key, v: V)
    requires Faithful(c) && At(files, PathOf(key)) == Some(c.write(EnvelopeOf(c, key, v)))
    ensures Loaded(c, files[PathOf(key)], key) == Some(v)
  {
    LoadedIff(c, key, v, key);
  }

  /**
   * Whatever a crash left behind, a load finds the old value, the new one, or nothing; never a
   * mixture, and never a value of another image or format.
   */
  lemma CrashLeavesOneOf<V(!new)>(c: Codec<V>, files: Files, after: Files, key: Key, was: V, v: V)
    requires Faithful(c) && At(files, PathOf(key)) == Some(c.write(EnvelopeOf(c, key, was)))
    requires At(after, PathOf(key)) in {At(files, PathOf(key)), Some(c.write(EnvelopeOf(c, key, v))), None}
    ensures var r := if PathOf(key) in after then Loaded(c, after[PathOf(key)], key) else None;
      r in {Some(was), Some(v), None}
  {
    LoadedIff(c, key, was, key);
    LoadedIff(c, key, v, key);
  }
}
