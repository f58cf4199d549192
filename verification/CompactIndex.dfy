/** The streamed deep index: eight-byte instruction records on disk behind a cached manifest. */
module CompactIndexes {
  import opened Decimals
  import opened Prelude
  import opened StructuralCaches

  const WRITE_BUFFER_BYTES := 1024 * 1024
  const RECORD_BYTES := 8

  datatype FlowControl =
    | Next | UnconditionalBranch | IndirectBranch | ConditionalBranch | Return | Call | IndirectCall
    | Interrupt | Transaction | Exception

  datatype Mnemonic =
    | Add | Sub | Mul | Imul | Div | Idiv | And | Or | Xor | Not | Shl | Shr | Cmp | Test | Mov | Lea | Push | Pop
    | Other

  /** One instruction as the decoder reports it; length zero means it gave up. */
  datatype Decoded = Decoded(ip: u64, len: byte, memory: bool, flow: FlowControl, mnemonic: Mnemonic)

  /** An executable section and what the decoder yields for its bytes. */
  datatype Section = Section(vaddr: u32, rawAddr: u32, rawSize: u32, decoded: seq<Decoded>)

  datatype Image = Image(base: u64, length: nat, sections: seq<Section>)

  type u16 = x: int | 0 <= x < 0x1_0000

  datatype InstrMeta = InstrMeta(rva: u32, flags: u16, len: byte, opcodeClass: byte)

  datatype SectionIndex = SectionIndex(rva: u32, instructions: nat, fileOffset: u64, bytes: u64)

  datatype Index = Index(sections: seq<SectionIndex>, instructions: nat, diskBytes: u64, payloadDigest: string)

  // ---------------------------------------------------------------- records

  function Flags(i: Decoded): u16 {
    (if i.memory then 1 else 0)
    + (if i.flow.ConditionalBranch? then 2 else 0)
    + (if i.flow.IndirectBranch? || i.flow.IndirectCall? then 4 else 0)
    + (if i.flow.Return? || i.flow.UnconditionalBranch? || i.flow.IndirectBranch? || i.flow.Exception? then 8 else 0)
  }

  /** Each flag can be read off on its own. */
  lemma FlagBits(i: Decoded)
    ensures Flags(i) % 2 == 1 <==> i.memory
    ensures Flags(i) / 2 % 2 == 1 <==> i.flow.ConditionalBranch?
    ensures Flags(i) / 4 % 2 == 1 <==> i.flow.IndirectBranch? || i.flow.IndirectCall?
    ensures Flags(i) / 8 % 2 == 1 <==>
      i.flow.Return? || i.flow.UnconditionalBranch? || i.flow.IndirectBranch? || i.flow.Exception?
  {
  }

  function OpcodeClass(m: Mnemonic, flow: FlowControl): byte {
    match flow
    case Call => 2
    case IndirectCall => 2
    case Return => 3
    case ConditionalBranch => 1
    case UnconditionalBranch => 1
    case IndirectBranch => 1
    case _ =>
      match m
      case Add => 4 case Sub => 4 case Mul => 4 case Imul => 4 case Div => 4 case Idiv => 4
      case And => 5 case Or => 5 case Xor => 5 case Not => 5 case Shl => 5 case Shr => 5
      case Cmp => 6 case Test => 6
      case Mov => 7 case Lea => 7 case Push => 7 case Pop => 7
      case Other => 0
  }

  /** The record of an instruction, unless its offset from the image base does not fit. */
  function Meta(base: u64, i: Decoded): Option<InstrMeta> {
    var rva := if i.ip >= base then i.ip - base else 0;
    if rva < U32_LIMIT then Some(InstrMeta(rva, Flags(i), i.len, OpcodeClass(i.mnemonic, i.flow))) else None
  }

  /** Records of a section: up to where decoding stops, without those that do not fit. */
  function Records(base: u64, decoded: seq<Decoded>): seq<InstrMeta> {
    if decoded == [] || decoded[0].len == 0 then []
    else
      var r := Meta(base, decoded[0]);
      (if r.Some? then [r.value] else []) + Records(base, decoded[1..])
  }

  function EncodeRecord(r: InstrMeta): (b: seq<byte>)
    ensures |b| == RECORD_BYTES
  {
    [r.rva % 0x100, r.rva / 0x100 % 0x100, r.rva / 0x1_0000 % 0x100, r.rva / 0x100_0000,
     r.flags % 0x100, r.flags / 0x100, r.len, r.opcodeClass]
  }

  function DecodeRecord(b: seq<byte>): InstrMeta
    requires |b| == RECORD_BYTES
  {
    var rva: int := b[0] as int + b[1] as int * 0x100 + b[2] as int * 0x1_0000 + b[3] as int * 0x100_0000;
    InstrMeta(rva, b[4] as int + b[5] as int * 0x100, b[6], b[7])
  }

  lemma RecordRoundTrip(r: InstrMeta)
    ensures DecodeRecord(EncodeRecord(r)) == r
  {
    var q := r.rva / 0x100;
    assert r.rva == r.rva % 0x100 + q * 0x100;
    assert q == q % 0x100 + q / 0x100 * 0x100 && q / 0x100 == r.rva / 0x1_0000;
    var h := r.rva / 0x1_0000;
    assert h == h % 0x100 + h / 0x100 * 0x100 && h / 0x100 == r.rva / 0x100_0000;
  }

  function EncodeAll(records: seq<InstrMeta>): (b: seq<byte>)
    ensures |b| == RECORD_BYTES * |records|
  {
    if records == [] then []
    else EncodeAll(records[..|records| - 1]) + EncodeRecord(records[|records| - 1])
  }

  lemma {:induction false} EncodeSplit(a: seq<InstrMeta>, b: seq<InstrMeta>)
    ensures EncodeAll(a + b) == EncodeAll(a) + EncodeAll(b)
    decreases |b|
  {
    if b == [] {
      assert a + b == a;
    } else {
      assert (a + b)[..|a + b| - 1] == a + b[..|b| - 1];
      EncodeSplit(a, b[..|b| - 1]);
    }
  }

  /** Record `k` is the eight bytes at `8 k`. */
  lemma RecordAt(records: seq<InstrMeta>, k: nat)
    requires k < |records|
    ensures DecodeRecord(EncodeAll(records)[RECORD_BYTES * k..RECORD_BYTES * k + RECORD_BYTES]) == records[k]
  {
    var a, b := records[..k + 1], records[k + 1..];
    assert records == a + b && a[..k] == records[..k] && a[k] == records[k];
    EncodeSplit(a, b);
    var whole := EncodeAll(records);
    assert whole == EncodeAll(records[..k]) + EncodeRecord(records[k]) + EncodeAll(b);
    assert whole[RECORD_BYTES * k..RECORD_BYTES * k + RECORD_BYTES] == EncodeRecord(records[k]);
    RecordRoundTrip(records[k]);
  }

  // ---------------------------------------------------------------- the manifest

  /** `u64` arithmetic that saturates. */
  function Sat(n: nat): u64 { if n < U64_LIMIT then n else U64_LIMIT - 1 }

  /** Sections whose raw data starts inside the file; the others are passed over. */
  predicate Present(image: Image, s: Section) {
    var start := s.rawAddr;
    var end := if start + s.rawSize < image.length then start + s.rawSize else image.length;
    start < end
  }

  /** Every record of the image, in stream order. */
  function AllRecords(image: Image, sections: seq<Section>): seq<InstrMeta> {
    if sections == [] then []
    else
      var s := sections[|sections| - 1];
      AllRecords(image, sections[..|sections| - 1]) + (if Present(image, s) then Records(image.base, s.decoded) else [])
  }

  function Manifest(image: Image, sections: seq<Section>): seq<SectionIndex> {
    if sections == [] then []
    else
      var before, s := sections[..|sections| - 1], sections[|sections| - 1];
      var n := |Records(image.base, s.decoded)|;
      Manifest(image, before) +
        (if Present(image, s) then
           [SectionIndex(s.vaddr, n, Sat(RECORD_BYTES * |AllRecords(image, before)|), Sat(RECORD_BYTES * n))]
         else [])
  }

  /** The record stream of an image. */
  function Stream(image: Image): seq<byte> { EncodeAll(AllRecords(image, image.sections)) }

  function IndexOf(digest: seq<byte> -> string, image: Image): Index {
    var records := AllRecords(image, image.sections);
    Index(Manifest(image, image.sections), |records|, Sat(RECORD_BYTES * |records|), digest(Stream(image)))
  }

  /** Extents that follow each other without gap or overlap, from `from` to `to`. */
  predicate Tile(extents: seq<SectionIndex>, from: nat, to: nat) {
    if extents == [] then from == to
    else
      var last := extents[|extents| - 1];
      last.fileOffset + last.bytes == to && Tile(extents[..|extents| - 1], from, last.fileOffset)
  }

  /** The manifest's extents tile the stream. */
  lemma {:induction false} ManifestTiles(image: Image, sections: seq<Section>)
    requires RECORD_BYTES * |AllRecords(image, sections)| < U64_LIMIT
    ensures Tile(Manifest(image, sections), 0, RECORD_BYTES * |AllRecords(image, sections)|)
    ensures forall e :: e in Manifest(image, sections) ==> e.bytes == RECORD_BYTES * e.instructions
  {
    if sections != [] {
      var before, s := sections[..|sections| - 1], sections[|sections| - 1];
      ManifestTiles(image, before);
      if Present(image, s) {
        var m := Manifest(image, sections);
        assert m[..|m| - 1] == Manifest(image, before);
      } else {
        assert Manifest(image, sections) == Manifest(image, before);
      }
    }
  }

  /** Each present section has its extent in the manifest. */
  lemma {:induction false} ManifestHas(image: Image, sections: seq<Section>, at: nat)
    requires at < |sections| && Present(image, sections[at])
    ensures var n := |Records(image.base, sections[at].decoded)|;
      SectionIndex(sections[at].vaddr, n, Sat(RECORD_BYTES * |AllRecords(image, sections[..at])|), Sat(RECORD_BYTES * n))
        in Manifest(image, sections)
    decreases |sections|
  {
    hide AllRecords, Records, Present;
    if at < |sections| - 1 {
      var before := sections[..|sections| - 1];
      assert before[..at] == sections[..at];
      ManifestHas(image, before, at);
    }
  }

  /** Record `k` of a section is found eight bytes per record after the section's offset. */
  lemma {:induction false} SectionRecordAt(image: Image, sections: seq<Section>, at: nat, k: nat)
    requires at < |sections| && Present(image, sections[at])
    requires k < |Records(image.base, sections[at].decoded)|
    ensures var first := |AllRecords(image, sections[..at])|;
      var offset := RECORD_BYTES * (first + k);
      && offset + RECORD_BYTES <= |EncodeAll(AllRecords(image, sections))|
      && DecodeRecord(EncodeAll(AllRecords(image, sections))[offset..offset + RECORD_BYTES]) ==
           Records(image.base, sections[at].decoded)[k]
  {
    hide EncodeAll, EncodeRecord, DecodeRecord;
    RecordsStart(image, sections, at);
    var first, own := |AllRecords(image, sections[..at])|, Records(image.base, sections[at].decoded);
    var all := AllRecords(image, sections);
    assert all[first + k] == all[first..first + |own|][k] == own[k];
    RecordAt(all, first + k);
  }

  /** A section's records are a run of the whole stream. */
  lemma {:induction false} RecordsStart(image: Image, sections: seq<Section>, at: nat)
    requires at < |sections| && Present(image, sections[at])
    ensures var first, own := |AllRecords(image, sections[..at])|, Records(image.base, sections[at].decoded);
      var all := AllRecords(image, sections);
      first + |own| <= |all| && all[first..first + |own|] == own
    decreases |sections|
  {
    hide Records, Present;
    var before := sections[..|sections| - 1];
    if at < |sections| - 1 {
      assert before[..at] == sections[..at];
      RecordsStart(image, before, at);
    }
  }

  // ---------------------------------------------------------------- the writer

  /** `build_to_writer`: what reaches the writer, in which pieces, and the manifest. */
  method BuildToWriter(digest: seq<byte> -> string, image: Image)
    returns (index: Index, written: seq<byte>, pieces: seq<nat>)
    ensures written == Stream(image)
    ensures index == IndexOf(digest, image)
    ensures forall k :: 0 <= k < |pieces| - 1 ==> pieces[k] == WRITE_BUFFER_BYTES
    ensures pieces != [] ==> 0 < pieces[|pieces| - 1] <= WRITE_BUFFER_BYTES
  {
    var partitions: seq<SectionIndex>, instructions, diskBytes: u64 := [], 0, 0;
    var hashed: seq<byte>, buffer: seq<byte> := [], [];
    written, pieces := [], [];
    var n := 0;
    while n < |image.sections|
      invariant 0 <= n <= |image.sections|
      invariant partitions == Manifest(image, image.sections[..n])
      invariant instructions == |AllRecords(image, image.sections[..n])|
      invariant written + buffer == EncodeAll(AllRecords(image, image.sections[..n]))
      invariant hashed == written && diskBytes == Sat(|written|)
      invariant |buffer| < WRITE_BUFFER_BYTES && |buffer| % RECORD_BYTES == 0
      invariant forall k :: 0 <= k < |pieces| ==> pieces[k] == WRITE_BUFFER_BYTES
    {
      hide Records, Present, EncodeAll, Sat;
      var section := image.sections[n];
      assert image.sections[..n + 1][..n] == image.sections[..n];
      n := n + 1;
      var start := section.rawAddr;
      var end := if start + section.rawSize < image.length then start + section.rawSize else image.length;
      PresentIff(image, section);
      if start >= end {
        assert AllRecords(image, image.sections[..n]) == AllRecords(image, image.sections[..n - 1]);
        assert Manifest(image, image.sections[..n]) == partitions;
        continue;
      }
      assert AllRecords(image, image.sections[..n]) ==
        AllRecords(image, image.sections[..n - 1]) + Records(image.base, section.decoded);
      var offset := Sat(RECORD_BYTES * instructions);
      var found;
      found, written, hashed, buffer, diskBytes, pieces :=
        EmitSection(image.base, section.decoded, written, buffer, diskBytes, pieces);
      EncodeSplit(AllRecords(image, image.sections[..n - 1]), Records(image.base, section.decoded));
      instructions := instructions + found;
      partitions := partitions + [SectionIndex(section.vaddr, found, offset, Sat(RECORD_BYTES * found))];
    }
    assert image.sections[..n] == image.sections;
    if buffer != [] {
      written, hashed := written + buffer, hashed + buffer;
      diskBytes := Sat(diskBytes + |buffer|);
      pieces := pieces + [|buffer|];
    }
    index := Index(partitions, instructions, diskBytes, digest(hashed));
  }

  lemma PresentIff(image: Image, s: Section)
    ensures Present(image, s) <==>
      s.rawAddr < if s.rawAddr + s.rawSize < image.length then s.rawAddr + s.rawSize else image.length
  {
  }

  /** The decoding loop of one section. */
  method EmitSection(base: u64, decoded: seq<Decoded>, written0: seq<byte>, buffer0: seq<byte>,
                     diskBytes0: u64, pieces0: seq<nat>)
    returns (found: nat, written: seq<byte>, hashed: seq<byte>, buffer: seq<byte>, diskBytes: u64, pieces: seq<nat>)
    requires diskBytes0 == Sat(|written0|)
    requires |buffer0| < WRITE_BUFFER_BYTES && |buffer0| % RECORD_BYTES == 0
    requires forall k :: 0 <= k < |pieces0| ==> pieces0[k] == WRITE_BUFFER_BYTES
    ensures found == |Records(base, decoded)|
    ensures written + buffer == written0 + buffer0 + EncodeAll(Records(base, decoded))
    ensures hashed == written && diskBytes == Sat(|written|)
    ensures |buffer| < WRITE_BUFFER_BYTES && |buffer| % RECORD_BYTES == 0
    ensures forall k :: 0 <= k < |pieces| ==> pieces[k] == WRITE_BUFFER_BYTES
  {
    found, written, hashed, buffer, diskBytes, pieces := 0, written0, written0, buffer0, diskBytes0, pieces0;
    var i := 0;
    ghost var done: seq<InstrMeta> := [];
    assert written + buffer == written0 + buffer0 + EncodeAll(done);
    assert done + Records(base, decoded[0..]) == Records(base, decoded);
    while i < |decoded|
      invariant 0 <= i <= |decoded| && found == |done|
      invariant done + Records(base, decoded[i..]) == Records(base, decoded)
      invariant written + buffer == written0 + buffer0 + EncodeAll(done)
      invariant hashed == written && diskBytes == Sat(|written|)
      invariant |buffer| < WRITE_BUFFER_BYTES && |buffer| % RECORD_BYTES == 0
      invariant forall k :: 0 <= k < |pieces| ==> pieces[k] == WRITE_BUFFER_BYTES
    {
      hide EncodeAll, EncodeRecord, Meta, Records, Sat;
      var instruction := decoded[i];
      RecordsStep(base, decoded, i, done);
      if instruction.len == 0 {
        break;
      }
      i := i + 1;
      var record := Meta(base, instruction);
      if record.None? {
        continue;
      }
      EncodeOne(done, record.value);
      Regroup(written, buffer, written0 + buffer0, EncodeAll(done), EncodeRecord(record.value));
      buffer := buffer + EncodeRecord(record.value);
      done := done + [record.value];
      found := found + 1;
      if |buffer| >= WRITE_BUFFER_BYTES {
        SatAdds(|written|, |buffer|);
        written, hashed := written + buffer, hashed + buffer;
        diskBytes := Sat(diskBytes + |buffer|);
        pieces := pieces + [|buffer|];
        buffer := [];
      }
    }
    assert done + [] == done;
  }

  lemma RecordsStep(base: u64, decoded: seq<Decoded>, i: nat, done: seq<InstrMeta>)
    requires i < |decoded|
    ensures done + Records(base, decoded[i..]) ==
      if decoded[i].len == 0 then done
      else
        var r := Meta(base, decoded[i]);
        (if r.Some? then done + [r.value] else done) + Records(base, decoded[i + 1..])
  {
    assert decoded[i..][1..] == decoded[i + 1..];
  }

  lemma SatAdds(a: nat, b: nat)
    ensures Sat(Sat(a) + b) == Sat(a + b)
  {
  }

  lemma Regroup(written: seq<byte>, buffer: seq<byte>, start: seq<byte>, done: seq<byte>, more: seq<byte>)
    requires written + buffer == start + done
    ensures written + (buffer + more) == start + (done + more)
  {
    assert written + (buffer + more) == (written + buffer) + more;
    assert start + (done + more) == (start + done) + more;
  }

  lemma EncodeOne(records: seq<InstrMeta>, r: InstrMeta)
    ensures EncodeAll(records + [r]) == EncodeAll(records) + EncodeRecord(r)
  {
    assert (records + [r])[..|records|] == records;
  }

  // ---------------------------------------------------------------- the cached index on disk

  const DEEP := "deep"

  function DeepAbi(bitness: nat): string { "v3-deep-2-" + Decimal(bitness) + "-disk" }

  function DeepKey(hash: string, bitness: nat): Key { Key(DEEP, DeepAbi(bitness), hash) }

  function DataPath(hash: string, bitness: nat): Path { SidecarOf(PathOf(DeepKey(hash, bitness))) }

  lemma DeepAbisDiffer(a: nat, b: nat)
    ensures DeepAbi(a) == DeepAbi(b) ==> a == b
  {
    var head, tail := |"v3-deep-2-"|, |"-disk"|;
    ValueOfDecimal(a);
    ValueOfDecimal(b);
    assert Decimal(a) == DeepAbi(a)[head..|DeepAbi(a)| - tail];
    assert Decimal(b) == DeepAbi(b)[head..|DeepAbi(b)| - tail];
  }

  lemma DataPathsDiffer(hash: string, bitness: nat, other: string, otherBitness: nat)
    requires Hex(hash) && Hex(other)
    ensures DataPath(hash, bitness) == DataPath(other, otherBitness) ==> hash == other && bitness == otherBitness
  {
    if DataPath(hash, bitness) == DataPath(other, otherBitness) {
      PathsDiffer(DeepKey(hash, bitness), DeepKey(other, otherBitness));
      DeepAbisDiffer(bitness, otherBitness);
    }
  }

  /** The image with a given digest, decoded with a given bitness. */
  type Images = (string, nat) -> Image

  /**
   * Data files that nobody changed from outside are whole record streams, and stored manifests are
   * those of their images.
   */
  ghost predicate DeepSound(
    codec: Codec<Index>, stored: iset<Stored<Index>>, files: Files, changed: set<Path>, images: Images)
  {
    && (forall hash, bitness ::
         Hex(hash) && DataPath(hash, bitness) in files && DataPath(hash, bitness) !in changed ==>
           files[DataPath(hash, bitness)] == Stream(images(hash, bitness)))
    && (forall hash, bitness, v :: Stored(DeepKey(hash, bitness), v) in stored ==>
         v == IndexOf(codec.digest, images(hash, bitness)))
  }

  /** Touching nothing but temporary files and files changed from outside keeps the data files sound. */
  lemma DeepKept(
    codec: Codec<Index>, stored: iset<Stored<Index>>, files: Files, changed: set<Path>, after: Files, later: set<Path>,
    images: Images)
    requires DeepSound(codec, stored, files, changed, images)
    requires forall p: Path :: p in after && p.Sidecar? && p !in later ==> At(after, p) == At(files, p) && p !in changed
    ensures DeepSound(codec, stored, after, later, images)
  {
    hide Stream, IndexOf;
    forall hash, bitness | Hex(hash) && DataPath(hash, bitness) in after && DataPath(hash, bitness) !in later
      ensures after[DataPath(hash, bitness)] == Stream(images(hash, bitness))
    {
      assert At(after, DataPath(hash, bitness)) == At(files, DataPath(hash, bitness));
    }
  }

  /** Installing the stream of one image keeps every other one. */
  lemma DeepInstalled(
    codec: Codec<Index>, stored: iset<Stored<Index>>, files: Files, changed: set<Path>, images: Images,
    hash: string, bitness: nat)
    requires DeepSound(codec, stored, files, changed, images) && Hex(hash)
    ensures DeepSound(codec, stored, files[DataPath(hash, bitness) := Stream(images(hash, bitness))],
                      changed - {DataPath(hash, bitness)}, images)
  {
    hide Stream, IndexOf, DataPath;
    forall h, b | Hex(h) && DataPath(h, b) == DataPath(hash, bitness) ensures h == hash && b == bitness {
      DataPathsDiffer(h, b, hash, bitness);
    }
  }

  /** Storing an image's own manifest keeps the manifests right. */
  lemma DeepStored(
    codec: Codec<Index>, stored: iset<Stored<Index>>, files: Files, changed: set<Path>, images: Images,
    hash: string, bitness: nat, v: Index)
    requires DeepSound(codec, stored, files, changed, images) && v == IndexOf(codec.digest, images(hash, bitness))
    ensures DeepSound(codec, stored + iset{Stored(DeepKey(hash, bitness), v)}, files, changed, images)
  {
    hide Stream, IndexOf, DataPath;
    forall h, b | DeepKey(h, b) == DeepKey(hash, bitness) ensures h == hash && b == bitness {
      DeepAbisDiffer(b, bitness);
    }
  }

  datatype Outcome = Hit(index: Index, data: Path) | Built(index: Index, data: Path) | Stopped

  /**
   * How the file operations of one call go: which fail, after how many a crash ends it, how much of the
   * stream a torn write leaves, what happens to the store of the manifest and whether the walk that
   * pruning starts with fails.
   */
  datatype Luck = Luck(
    buildFails: bool, removeFails: bool, renameFails: bool, steps: nat, torn: nat, manifest: Faults, walkFails: bool)

  /** `DEFAULT_MAX_BYTES`: what pruning leaves at most, in bytes. */
  const DEFAULT_MAX_BYTES := 5 * 1024 * 1024 * 1024

  /** Every partition but one, once, with the bytes it and its sidecar take. */
  ghost predicate Others(files: Files, but: Path, list: seq<CacheFile>) {
    && Entries(list)
    && (forall f :: f in list ==>
         && f.path != but && f.path in files
         && f.size == Size(files, f.path) + Size(files, SidecarOf(f.path)))
    && (forall p :: p in files && p.Entry? && p != but ==> p in Paths(list))
    && (forall i, j :: 0 <= i < j < |list| ==> list[i] != list[j])
  }

  /** Bytes of a partition with its manifest and its whole stream. */
  function DeepSize(codec: Codec<Index>, hash: string, bitness: nat, image: Image): nat {
    |codec.write(EnvelopeOf(codec, DeepKey(hash, bitness), IndexOf(codec.digest, image)))| + |Stream(image)|
  }

  /** The new partition fits beside what cannot be removed, or cannot itself be removed. */
  predicate Fits(others: seq<CacheFile>, hash: string, bitness: nat, size: nat, maxBytes: nat, stuck: set<Path>) {
    || PathOf(DeepKey(hash, bitness)) in stuck
    || DataPath(hash, bitness) in stuck
    || StuckTotal(others, stuck) + size <= maxBytes
  }

  /** What the files let a call answer from the cache: a manifest that loads and a data file of its length. */
  function HitOn(codec: Codec<Index>, files: Files, hash: string, bitness: nat): Option<Index> {
    var key := DeepKey(hash, bitness);
    var cached := if PathOf(key) in files then Loaded(codec, files[PathOf(key)], key) else None;
    var data := At(files, DataPath(hash, bitness));
    if cached.Some? && data.Some? && |data.value| == cached.value.diskBytes then cached else None
  }

  /** The manifest is the one that was stored, or still names the digest of that one. */
  predicate ManifestNamed(codec: Codec<Index>, files: Files, changed: set<Path>, hash: string, bitness: nat, image: Image) {
    var path := PathOf(DeepKey(hash, bitness));
    path !in changed || (path in files && Names(codec, files[path], IndexOf(codec.digest, image)))
  }

  /** Unless its digest was changed too, or two streams share one, the manifest and the length are the image's own. */
  ghost predicate HitRight(
    codec: Codec<Index>, files: Files, changed: set<Path>, images: Images, hash: string, bitness: nat, index: Index)
  {
    var image, data := images(hash, bitness), DataPath(hash, bitness);
    if CollisionFree(codec) && ManifestNamed(codec, files, changed, hash, bitness, image) then
      && index == IndexOf(codec.digest, image)
      && data in files
      && |files[data]| == Sat(|Stream(image)|)
    else true
  }

  /** With its own manifest in place an image's index is a hit exactly when a data file of its length is there. */
  lemma HitIff(codec: Codec<Index>, files: Files, hash: string, bitness: nat, image: Image)
    requires Faithful(codec)
    requires var key := DeepKey(hash, bitness);
      At(files, PathOf(key)) == Some(codec.write(EnvelopeOf(codec, key, IndexOf(codec.digest, image))))
    requires |Stream(image)| < U64_LIMIT
    ensures
      var data := At(files, DataPath(hash, bitness));
      HitOn(codec, files, hash, bitness) ==
        if data.Some? && |data.value| == |Stream(image)| then Some(IndexOf(codec.digest, image)) else None
  {
    hide Stream, DataPath, EnvelopeOf, Loaded;
    StreamLength(codec.digest, image);
    StoreThenLoad(codec, files, DeepKey(hash, bitness), IndexOf(codec.digest, image));
  }

  /** Only the length is compared: a data file overwritten with other bytes, as many, is taken for the stream. */
  lemma EqualLengthOverwriteHits(codec: Codec<Index>, hash: string, bitness: nat, image: Image)
    requires Faithful(codec) && 0 < |Stream(image)| < U64_LIMIT
    ensures
      var key, stream := DeepKey(hash, bitness), Stream(image);
      var other := stream[0 := if stream[0] == 0 then 1 else 0];
      var files: Files := map[
        PathOf(key) := codec.write(EnvelopeOf(codec, key, IndexOf(codec.digest, image))), DataPath(hash, bitness) := other];
      other != stream && HitOn(codec, files, hash, bitness) == Some(IndexOf(codec.digest, image))
  {
    hide Stream, DataPath, EnvelopeOf, HitOn;
    var key, stream := DeepKey(hash, bitness), Stream(image);
    var other := stream[0 := if stream[0] == 0 then 1 else 0];
    DataPathShape(hash, bitness);
    assert other[0] != stream[0];
    var files: Files := map[
      PathOf(key) := codec.write(EnvelopeOf(codec, key, IndexOf(codec.digest, image))), DataPath(hash, bitness) := other];
    HitIff(codec, files, hash, bitness, image);
  }

  /**
   * `load_or_build_cached`. However it ends, and wherever a crash cuts it short, a data file is the
   * whole stream of its image or is not there, unless something outside changed it. An index comes from
   * the cache exactly when its manifest loads and the data file has the length it says; the data then
   * is the stream, unless it was overwritten with as many other bytes. A built one has its stream
   * exactly when the pruning that ends the call could not list the cache, or left it: when it fits
   * beside the other partitions that cannot be removed, or cannot be removed itself.
   */
  method LoadOrBuildCached(cache: CacheDir<Index>, hash: string, bitness: nat, nonce: nat, luck: Luck,
                           images: Images, maxBytes: nat, stuck: set<Path>)
    returns (r: Outcome, ghost others: seq<CacheFile>)
    requires cache.Valid() && DeepSound(cache.codec, cache.stored, cache.files, cache.changed, images) && Hex(hash)
    requires Temporary(nonce) !in cache.files && Quarantine(nonce) !in cache.files
    modifies cache
    ensures cache.Valid() && DeepSound(cache.codec, cache.stored, cache.files, cache.changed, images)
    ensures !r.Stopped? ==> r.data == DataPath(hash, bitness)
    ensures r.Hit? <==> HitOn(cache.codec, old(cache.files), hash, bitness).Some?
    ensures r.Hit? ==> cache.files == old(cache.files) && HitOn(cache.codec, cache.files, hash, bitness) == Some(r.index)
    ensures r.Hit? ==> HitRight(cache.codec, cache.files, cache.changed, images, hash, bitness, r.index)
    ensures r.Hit? && r.data !in old(cache.changed) ==> At(cache.files, r.data) == Some(Stream(images(hash, bitness)))
    ensures r.Built? ==> r.index == IndexOf(cache.codec.digest, images(hash, bitness))
    ensures r.Built? && r.data in cache.files ==> |cache.files[r.data]| == RECORD_BYTES * r.index.instructions
    ensures r.Built? && luck.walkFails ==> At(cache.files, r.data) == Some(Stream(images(hash, bitness)))
    ensures r.Built? && !luck.walkFails ==>
      && Others(old(cache.files), PathOf(DeepKey(hash, bitness)), others)
      && var size := DeepSize(cache.codec, hash, bitness, images(hash, bitness));
         At(cache.files, r.data) ==
           if Fits(others, hash, bitness, size, maxBytes, stuck) then Some(Stream(images(hash, bitness))) else None
  {
    hide Stream, IndexOf, Faithful, Sound, Complete, DataPath, Sat, EnvelopeOf, Loaded, DeepSound, Others, Fits, Names,
      CollisionFree, HitRight;
    others := [];
    var image, key, path := images(hash, bitness), DeepKey(hash, bitness), DataPath(hash, bitness);
    DataPathShape(hash, bitness);
    StreamLength(cache.codec.digest, image);
    var cached := cache.Load(key);
    if cached.Some? && path in cache.files && |cache.files[path]| == cached.value.diskBytes {
      CachedIsRight(cache.codec, cache.stored, cache.files, cache.changed, images, hash, bitness, cached.value);
      return Hit(cached.value, path), [];
    }
    var index, written := WriteData(cache, hash, bitness, nonce, luck, images);
    if !written {
      return Stopped, [];
    }
    ghost var stored, installed, changed := cache.stored, cache.files, cache.changed;
    var ending := cache.Store(key, index, nonce, luck.manifest);
    DeepStored(cache.codec, stored, installed, changed, images, hash, bitness, index);
    DeepKept(cache.codec, cache.stored, installed, changed, cache.files, cache.changed, images);
    if !ending.Completed? {
      return Stopped, [];
    }
    if !luck.walkFails {
      others := PruneBuilt(cache, hash, bitness, image, maxBytes, stuck, images);
      SameOthers(old(cache.files), installed, cache.codec, hash, bitness, image, others);
    }
    r := Built(index, path);
  }

  /** The pruning after a build, which leaves the new partition or takes it with the rest. */
  method PruneBuilt(cache: CacheDir<Index>, hash: string, bitness: nat, image: Image, maxBytes: nat, stuck: set<Path>,
                    ghost images: Images)
    returns (ghost others: seq<CacheFile>)
    requires cache.Valid() && DeepSound(cache.codec, cache.stored, cache.files, cache.changed, images)
    requires
      var key := DeepKey(hash, bitness);
      && At(cache.files, PathOf(key)) ==
           Some(cache.codec.write(EnvelopeOf(cache.codec, key, IndexOf(cache.codec.digest, image))))
      && At(cache.files, DataPath(hash, bitness)) == Some(Stream(image))
      && PathOf(key) in cache.modified && cache.modified[PathOf(key)] > 0
      && (forall q :: q in cache.modified && q != PathOf(key) ==> cache.modified[q] < cache.modified[PathOf(key)])
    modifies cache`files
    ensures cache.Valid() && DeepSound(cache.codec, cache.stored, cache.files, cache.changed, images)
    ensures Others(old(cache.files), PathOf(DeepKey(hash, bitness)), others)
    ensures At(cache.files, DataPath(hash, bitness)) ==
      if Fits(others, hash, bitness, DeepSize(cache.codec, hash, bitness, image), maxBytes, stuck)
      then Some(Stream(image)) else None
  {
    hide Stream, IndexOf, Faithful, Sound, Complete, EnvelopeOf, DeepSound, Less, Lists, Others, Pruned;
    ghost var path, files := PathOf(DeepKey(hash, bitness)), cache.files;
    var bytes, removed;
    ghost var order;
    bytes, removed, order := cache.PruneLru(maxBytes, stuck);
    NewestIsLast(files, cache.modified, order, path);
    others := order[..|order| - 1];
    OthersListed(files, cache.modified, order, path);
    ghost var gone := Pruned(order, Total(order), maxBytes, stuck);
    PruneKeepsDeep(cache.codec, cache.stored, files, cache.changed, cache.files, images) by {
      LessIsLess(files, gone, stuck);
    }
    NewestPrunedIff(order, Total(order), maxBytes, stuck) by { OrderDistinct(files, cache.modified, order); }
    DataLeftIff(files, gone, stuck, FileAt(files, cache.modified, path)) by {
      assert forall f :: f in gone && f.path == path ==> f == FileAt(files, cache.modified, path) by {
        ListedOnce(files, cache.modified, order, path);
      }
    }
  }

  /** Builds the stream in a temporary file and puts it in place of the data file. */
  method WriteData(cache: CacheDir<Index>, hash: string, bitness: nat, nonce: nat, luck: Luck, images: Images)
    returns (index: Index, installed: bool)
    requires cache.Valid() && DeepSound(cache.codec, cache.stored, cache.files, cache.changed, images) && Hex(hash)
    modifies cache`files, cache`changed
    ensures cache.Valid() && DeepSound(cache.codec, cache.stored, cache.files, cache.changed, images)
    ensures installed ==>
      && index == IndexOf(cache.codec.digest, images(hash, bitness))
      && cache.files ==
           (old(cache.files) - {DeepTemporary(nonce)})[DataPath(hash, bitness) := Stream(images(hash, bitness))]
      && cache.changed == old(cache.changed) - {DataPath(hash, bitness)}
    ensures !installed ==> cache.changed == old(cache.changed)
    ensures forall p: Path :: p in cache.files && (p.Temporary? || p.Quarantine?) ==> p in old(cache.files)
  {
    hide Stream, IndexOf, Faithful, Sound, Complete, DataPath, DeepSound;
    var image, path := images(hash, bitness), DataPath(hash, bitness);
    DataPathShape(hash, bitness);
    ghost var before := cache.files;
    var temporary := DeepTemporary(nonce);
    var written, pieces;
    index, written, pieces := BuildToWriter(cache.codec.digest, image);
    if luck.steps == 0 {
      return index, false;
    }
    cache.files := cache.files[temporary := if luck.steps == 1 || luck.buildFails then
      written[..if luck.torn < |written| then luck.torn else |written|] else written];
    Untouched(cache.codec, cache.stored, before, cache.changed, cache.files, images);
    if luck.steps == 1 {
      return index, false;
    }
    if luck.buildFails {
      cache.files := cache.files - {temporary};
      Untouched(cache.codec, cache.stored, before, cache.changed, cache.files, images);
      return index, false;
    }
    if path in cache.files {
      if luck.removeFails {
        return index, false;
      }
      cache.files := cache.files - {path};
      Untouched(cache.codec, cache.stored, before, cache.changed, cache.files, images);
    }
    if luck.steps == 2 || luck.renameFails {
      return index, false;
    }
    ghost var cleared := cache.files;
    cache.files := Renamed(cache.files, temporary, path);
    ghost var changed := cache.changed;
    cache.changed := cache.changed - {path};
    SoundGrows(cache.codec, cache.stored, cache.stored, cleared, cache.files, changed, cache.changed);
    DeepInstalled(cache.codec, cache.stored, cleared, changed, images, hash, bitness);
    DeepKept(cache.codec, cache.stored, cleared[path := written], cache.changed, cache.files, cache.changed, images);
    assert cache.files == (before - {temporary})[path := written];
    installed := true;
  }

  /** A manifest that loads is the image's own if it still names its digest, and a data file nobody changed is whole. */
  lemma CachedIsRight(
    codec: Codec<Index>, stored: iset<Stored<Index>>, files: Files, changed: set<Path>, images: Images,
    hash: string, bitness: nat, v: Index)
    requires DeepSound(codec, stored, files, changed, images) && Hex(hash) && DataPath(hash, bitness) in files
    requires |files[DataPath(hash, bitness)]| == v.diskBytes
    requires PathOf(DeepKey(hash, bitness)) !in changed ==> Stored(DeepKey(hash, bitness), v) in stored
    requires PathOf(DeepKey(hash, bitness)) in files
    requires CollisionFree(codec) ==>
      forall w :: Names(codec, files[PathOf(DeepKey(hash, bitness))], w) ==> v == w
    ensures HitRight(codec, files, changed, images, hash, bitness, v)
    ensures DataPath(hash, bitness) !in changed ==> files[DataPath(hash, bitness)] == Stream(images(hash, bitness))
  {
    hide Stream, IndexOf, Sat, CollisionFree, Names, PathOf;
    StreamLength(codec.digest, images(hash, bitness));
  }

  /** A change from outside leaves the rest as it was. */
  lemma OverwriteKeepsDeep(
    codec: Codec<Index>, stored: iset<Stored<Index>>, files: Files, changed: set<Path>, images: Images,
    p: Path, bytes: Option<seq<byte>>)
    requires DeepSound(codec, stored, files, changed, images)
    ensures DeepSound(codec, stored, if bytes.Some? then files[p := bytes.value] else files - {p}, changed + {p}, images)
  {
    hide DeepSound;
    DeepKept(codec, stored, files, changed, if bytes.Some? then files[p := bytes.value] else files - {p}, changed + {p},
             images);
  }

  /**
   * Pruning, also one that is cut short, keeps what is left of the deep index whole: no file it leaves
   * has other contents than before.
   */
  lemma PruneKeepsDeep(
    codec: Codec<Index>, stored: iset<Stored<Index>>, files: Files, changed: set<Path>, after: Files, images: Images)
    requires DeepSound(codec, stored, files, changed, images)
    requires forall p :: p in after ==> At(after, p) == At(files, p)
    ensures DeepSound(codec, stored, after, changed, images)
  {
    hide DeepSound;
    DeepKept(codec, stored, files, changed, after, changed, images);
  }

  lemma LessIsLess(files: Files, gone: seq<CacheFile>, stuck: set<Path>)
    requires Entries(gone)
    ensures forall p :: p in Less(files, gone, stuck) ==> At(Less(files, gone, stuck), p) == At(files, p)
  {
  }

  lemma OrderDistinct(files: Files, modified: map<Path, nat>, order: seq<CacheFile>)
    requires Lists(files, modified, order)
    ensures forall i, j :: 0 <= i < j < |order| ==> order[i] != order[j]
  {
  }

  lemma ListedOnce(files: Files, modified: map<Path, nat>, order: seq<CacheFile>, p: Path)
    requires Lists(files, modified, order) && p.Entry?
    ensures forall f :: f in order && f.path == p ==> f == FileAt(files, modified, p)
  {
  }

  /** The list without its last partition is that of the others. */
  lemma OthersListed(files: Files, modified: map<Path, nat>, order: seq<CacheFile>, p: Path)
    requires Lists(files, modified, order) && p.Entry?
    requires order != [] && order[|order| - 1] == FileAt(files, modified, p)
    ensures Others(files, p, order[..|order| - 1])
  {
    var n := |order| - 1;
    var list := order[..n];
    assert forall f :: f in list ==> f in order;
    forall f | f in list ensures f.path != p {
      var k :| 0 <= k < n && order[k] == f;
      assert order[k] != order[n];
    }
    forall q | q in files && q.Entry? && q != p ensures q in Paths(list) {
      var f := FileAt(files, modified, q);
      var k :| 0 <= k < |order| && order[k] == f;
      assert list[k] == f;
    }
  }

  /** A data file goes with its partition, unless it cannot be removed. */
  lemma DataLeftIff(files: Files, gone: seq<CacheFile>, stuck: set<Path>, f: CacheFile)
    requires Entries(gone) && f.path.Entry?
    requires forall g :: g in gone && g.path == f.path ==> g == f
    ensures At(Less(files, gone, stuck), SidecarOf(f.path)) ==
      if f in gone && SidecarOf(f.path) !in stuck then None else At(files, SidecarOf(f.path))
  {
    if SidecarOf(f.path) in Sidecars(gone) {
      var g :| g in gone && SidecarOf(g.path) == SidecarOf(f.path);
      assert g.path == f.path;
    }
  }

  /** A build touches no partition but its own. */
  lemma SameOthers(before: Files, installed: Files, codec: Codec<Index>, hash: string, bitness: nat, image: Image,
                   others: seq<CacheFile>)
    requires
      var key := DeepKey(hash, bitness);
      Others(installed[PathOf(key) := codec.write(EnvelopeOf(codec, key, IndexOf(codec.digest, image)))], PathOf(key), others)
    requires forall p: Path :: (p.Entry? || p.Sidecar?) && p != DataPath(hash, bitness) ==> At(installed, p) == At(before, p)
    ensures Others(before, PathOf(DeepKey(hash, bitness)), others)
  {
    hide Stream, IndexOf, EnvelopeOf, Paths, DeepKey;
    var path := PathOf(DeepKey(hash, bitness));
    var after := installed[path := codec.write(EnvelopeOf(codec, DeepKey(hash, bitness), IndexOf(codec.digest, image)))];
    assert DataPath(hash, bitness) == SidecarOf(path);
    forall p: Path | p.Entry? && p != path
      ensures At(after, p) == At(before, p) && At(after, SidecarOf(p)) == At(before, SidecarOf(p))
    {
      assert SidecarOf(p) != SidecarOf(path);
      assert SidecarOf(p) != path;
      assert At(installed, p) == At(before, p);
    }
    forall f | f in others
      ensures f.path in before && f.size == Size(before, f.path) + Size(before, SidecarOf(f.path))
    {
      assert At(after, f.path) == At(before, f.path);
      assert At(after, SidecarOf(f.path)) == At(before, SidecarOf(f.path));
    }
    forall p | p in before && p.Entry? && p != path ensures p in Paths(others) {
      assert At(after, p) == At(before, p);
    }
  }

  // ---------------------------------------------------------------- an image that does not fit

  const RUN := 0x100_0000

  /** Section `k` of an image whose sections all map one 16 MiB run of one-byte instructions. */
  function SharedSection(base: u64, k: nat): Section
    requires k < 64 && base < 0x8000_0000_0000
  {
    var vaddr: u32 := 0x1000 + k * RUN;
    Section(vaddr, 0x400, RUN, seq(RUN, i requires 0 <= i < RUN => Decoded(base + vaddr + i, 1, false, Next, Other)))
  }

  ghost predicate IsShared(base: u64, s: Section)
    requires base < 0x8000_0000_0000
  {
    exists k: nat :: k < 64 && s == SharedSection(base, k)
  }

  function SharedRun(base: u64, count: nat): Image
    requires count <= 64 && base < 0x8000_0000_0000
  {
    Image(base, 0x400 + RUN, seq(count, k requires 0 <= k < count => SharedSection(base, k)))
  }

  /** Where every instruction is decoded and near enough there is a record for each. */
  lemma {:induction false} AllRecorded(base: u64, decoded: seq<Decoded>)
    requires forall d :: d in decoded ==> d.len > 0 && 0 <= d.ip - base < U32_LIMIT
    ensures |Records(base, decoded)| == |decoded|
    decreases |decoded|
  {
    if decoded != [] {
      assert decoded[0] in decoded;
      AllRecorded(base, decoded[1..]);
    }
  }

  lemma {:induction false} SharedRecords(image: Image, sections: seq<Section>)
    requires image.length == 0x400 + RUN && image.base < 0x8000_0000_0000
    requires forall s :: s in sections ==> IsShared(image.base, s)
    ensures |AllRecords(image, sections)| == RUN * |sections|
    decreases |sections|
  {
    hide Records;
    if sections != [] {
      var s := sections[|sections| - 1];
      assert s in sections;
      assert forall t :: t in sections[..|sections| - 1] ==> t in sections;
      SharedRecords(image, sections[..|sections| - 1]);
      var k: nat :| k < 64 && s == SharedSection(image.base, k);
      AllRecorded(image.base, s.decoded);
    }
  }

  /**
   * Forty-one sections over one 16 MiB run make a stream beyond what the cache keeps: building the
   * index of this image of just over 16 MiB removes the data file it has just put in place.
   */
  lemma BuildCanPruneItself(codec: Codec<Index>, hash: string, bitness: nat, base: u64, others: seq<CacheFile>)
    requires base < 0x8000_0000_0000
    ensures var image := SharedRun(base, 41);
      && image.length < 17 * 1024 * 1024
      && !Fits(others, hash, bitness, DeepSize(codec, hash, bitness, image), DEFAULT_MAX_BYTES, {})
  {
    hide AllRecords, EnvelopeOf, IndexOf, EncodeAll;
    var image := SharedRun(base, 41);
    forall s | s in image.sections ensures IsShared(base, s) {
      var k :| 0 <= k < |image.sections| && image.sections[k] == s;
      assert s == SharedSection(base, k);
    }
    SharedRecords(image, image.sections);
    assert |Stream(image)| == RECORD_BYTES * (RUN * 41) > DEFAULT_MAX_BYTES;
  }

  lemma DataPathShape(hash: string, bitness: nat)
    ensures DataPath(hash, bitness).Sidecar?
  {
  }

  lemma StreamLength(digest: seq<byte> -> string, image: Image)
    ensures |Stream(image)| == RECORD_BYTES * IndexOf(digest, image).instructions
    ensures IndexOf(digest, image).diskBytes == Sat(|Stream(image)|)
  {
  }

  /** Files that only lose data files, or change temporary ones, keep both invariants. */
  lemma Untouched(
    codec: Codec<Index>, stored: iset<Stored<Index>>, files: Files, changed: set<Path>, after: Files, images: Images)
    requires Sound(codec, stored, files, changed) && DeepSound(codec, stored, files, changed, images)
    requires forall p: Path :: p in after && (p.Entry? || p.Sidecar?) ==> At(after, p) == At(files, p)
    ensures Sound(codec, stored, after, changed) && DeepSound(codec, stored, after, changed, images)
  {
    hide Complete, Sound, DeepSound;
    SoundGrows(codec, stored, stored, files, after, changed, changed);
    DeepKept(codec, stored, files, changed, after, changed, images);
  }
}
