/** Images written out from their headers: what the exception directory in them is read as. */
module PeHeaders {
  import opened Prelude
  import opened AddressSpaces
  import opened RuntimeFunctions
  import opened Sorting
  import opened Unwind

  // ---------------------------------------------------------------- little-endian fields

  type u16 = x: int | 0 <= x < 0x1_0000

  /** A field is read back where it was written, whatever is around it. */
  lemma Read16Written(bytes: seq<byte>, at: nat, v: u16)
    requires at + 2 <= |bytes| && bytes[at..at + 2] == U16Bytes(v)
    ensures ReadU16(bytes, at) == Some(v)
  {
    assert bytes[at..at + 2][0] == bytes[at] && bytes[at..at + 2][1] == bytes[at + 1];
  }

  lemma Read32Written(bytes: seq<byte>, at: nat, v: u32)
    requires at + 4 <= |bytes| && bytes[at..at + 4] == U32Bytes(v)
    ensures ReadU32(bytes, at) == Some(v)
  {
    var w := bytes[at..at + 4];
    assert w[0] == bytes[at] && w[1] == bytes[at + 1] && w[2] == bytes[at + 2] && w[3] == bytes[at + 3];
  }

  // ---------------------------------------------------------------- headers

  /**
   * The headers of an image: DOS header with its stub, signature, COFF header and optional header with its
   * data directories, each an address and a size. What lies between is arbitrary.
   */
  datatype Headers = Headers(
    dos: u16,
    stub: seq<byte>,
    program: seq<byte>,
    signature: u32,
    machine: u16,
    sections: seq<byte>,
    characteristics: u16,
    magic: u16,
    fields: seq<byte>,
    declared: u32,
    directories: seq<(u32, u32)>)
  {
    ghost predicate Valid() {
      && |stub| == 58 && |sections| == 14 && |fields| == 106
      && 0x40 + |program| < U32_LIMIT
      && 112 + 8 * |directories| < 0x1_0000
    }

    function OptionalSize(): nat { 112 + 8 * |directories| }
  }

  function Entry(d: (u32, u32)): (r: seq<byte>)
    ensures |r| == 8
  {
    U32Bytes(d.0) + U32Bytes(d.1)
  }

  function Entries(directories: seq<(u32, u32)>): (r: seq<byte>)
    ensures |r| == 8 * |directories|
  {
    if directories == [] then [] else Entry(directories[0]) + Entries(directories[1..])
  }

  /** The DOS header and what follows it up to the signature. */
  function DosPart(h: Headers): (r: seq<byte>)
    requires h.Valid()
    ensures |r| == 0x40 + |h.program|
  {
    U16Bytes(h.dos) + h.stub + U32Bytes(0x40 + |h.program|) + h.program
  }

  /** Signature and COFF header. */
  function CoffPart(h: Headers): (r: seq<byte>)
    requires h.Valid()
    ensures |r| == 24
  {
    U32Bytes(h.signature) + U16Bytes(h.machine) + h.sections + U16Bytes(h.OptionalSize()) + U16Bytes(h.characteristics)
  }

  function OptionalPart(h: Headers): (r: seq<byte>)
    requires h.Valid()
    ensures |r| == h.OptionalSize()
  {
    U16Bytes(h.magic) + h.fields + U32Bytes(h.declared) + Entries(h.directories)
  }

  /** The image with these headers and anything behind them. */
  function Written(h: Headers, rest: seq<byte>): seq<byte>
    requires h.Valid()
  {
    DosPart(h) + CoffPart(h) + OptionalPart(h) + rest
  }

  /** What an entry says: nothing when it is empty, and nothing sensible when only half of it is. */
  function Means(d: (u32, u32)): Option<Option<(u32, u32)>> {
    match d
    case (0, 0) => Some(None)
    case (0, _) | (_, 0) => None
    case _ => Some(Some(d))
  }

  lemma {:induction false} EntryAt(directories: seq<(u32, u32)>, k: nat)
    requires k < |directories|
    ensures Entries(directories)[8 * k..8 * k + 8] == Entry(directories[k])
  {
    if k > 0 {
      EntryAt(directories[1..], k - 1);
      assert Entries(directories)[8 * k..8 * k + 8] == Entries(directories[1..])[8 * (k - 1)..8 * (k - 1) + 8];
    }
  }

  lemma DosFields(h: Headers)
    requires h.Valid()
    ensures DosPart(h)[..2] == U16Bytes(h.dos) && DosPart(h)[0x3c..0x40] == U32Bytes(0x40 + |h.program|)
  {
  }

  lemma CoffFields(h: Headers)
    requires h.Valid()
    ensures CoffPart(h)[..4] == U32Bytes(h.signature) && CoffPart(h)[4..6] == U16Bytes(h.machine)
    ensures CoffPart(h)[20..22] == U16Bytes(h.OptionalSize())
  {
  }

  lemma OptionalFields(h: Headers)
    requires h.Valid()
    ensures OptionalPart(h)[..2] == U16Bytes(h.magic) && OptionalPart(h)[108..112] == U32Bytes(h.declared)
    ensures |h.directories| > 3 ==>
      && OptionalPart(h)[136..140] == U32Bytes(h.directories[3].0)
      && OptionalPart(h)[140..144] == U32Bytes(h.directories[3].1)
  {
    var part := OptionalPart(h);
    assert part[112..] == Entries(h.directories);
    if |h.directories| > 3 {
      EntryAt(h.directories, 3);
      assert part[136..144] == Entry(h.directories[3]);
      assert part[136..140] == Entry(h.directories[3])[..4] && part[140..144] == Entry(h.directories[3])[4..];
    }
  }

  /** A field of the middle part is where it is in the whole. */
  lemma Inside(a: seq<byte>, b: seq<byte>, c: seq<byte>, i: nat, j: nat)
    requires i <= j <= |b|
    ensures (a + b + c)[|a| + i..|a| + j] == b[i..j]
  {
  }

  /** The optional header, read where it was written. */
  lemma OptionalRead(h: Headers, before: seq<byte>, rest: seq<byte>)
    requires h.Valid()
    ensures DirectoryEntry(before + OptionalPart(h) + rest, |before|, |before| + h.OptionalSize()) ==
      if h.magic != 0x20b then None
      else if h.declared <= 3 then Some(None)
      else if |h.directories| <= 3 then None
      else Means(h.directories[3])
  {
    hide OptionalPart, Entries, ReadU16, ReadU32;
    var image, at := before + OptionalPart(h) + rest, |before|;
    OptionalFields(h);
    Inside(before, OptionalPart(h), rest, 0, 2);
    Read16Written(image, at, h.magic);
    Inside(before, OptionalPart(h), rest, 108, 112);
    Read32Written(image, at + 108, h.declared);
    if |h.directories| > 3 {
      Inside(before, OptionalPart(h), rest, 136, 140);
      Read32Written(image, at + 136, h.directories[3].0);
      Inside(before, OptionalPart(h), rest, 140, 144);
      Read32Written(image, at + 140, h.directories[3].1);
    }
  }

  /**
   * The exception directory of an image is the fourth of those it was written with: there is none where
   * fewer are declared or the fourth is empty, and the image is malformed where one of its two values is
   * zero, where fewer are there than declared, and where any signature is another.
   */
  lemma WrittenDirectory(h: Headers, rest: seq<byte>)
    requires h.Valid()
    ensures ExceptionDirectory(Written(h, rest)) ==
      if h.dos != 0x5a4d || h.signature != 0x4550 || h.machine != 0x8664 || h.magic != 0x20b then None
      else if h.declared <= 3 then Some(None)
      else if |h.directories| <= 3 then None
      else Means(h.directories[3])
  {
    hide DirectoryEntry, DosPart, CoffPart, OptionalPart, ReadU16, ReadU32, Means, U16Bytes, U32Bytes, HoldsU16, HoldsU32;
    var dos, coff, optional := DosPart(h), CoffPart(h), OptionalPart(h);
    var image, pe := Written(h, rest), |dos|;
    DosFields(h);
    CoffFields(h);
    assert image == [] + dos + (coff + optional + rest);
    assert image == dos + coff + (optional + rest);
    assert image == (dos + coff) + optional + rest;
    Inside([], dos, coff + optional + rest, 0, 2);
    Read16Written(image, 0, h.dos);
    Inside([], dos, coff + optional + rest, 0x3c, 0x40);
    Read32Written(image, 0x3c, pe);
    Inside(dos, coff, optional + rest, 0, 4);
    Inside(dos, coff, optional + rest, 4, 6);
    Read16Written(image, pe + 4, h.machine);
    Inside(dos, coff, optional + rest, 20, 22);
    Read16Written(image, pe + 20, h.OptionalSize());
    OptionalRead(h, dos + coff, rest);
    DosSignature(image, h.dos);
    PeSignature(image[pe..pe + 4], h.signature);
  }

  lemma DosSignature(image: seq<byte>, v: u16)
    requires |image| >= 2 && image[0..2] == U16Bytes(v)
    ensures image[0] == 0x4d && image[1] == 0x5a <==> v == 0x5a4d
  {
    assert image[0..2][0] == image[0] && image[0..2][1] == image[1];
  }

  lemma PeSignature(bytes: seq<byte>, v: u32)
    requires bytes == U32Bytes(v)
    ensures bytes == [0x50, 0x45, 0, 0] <==> v == 0x4550
  {
    assert U32Bytes(0x4550) == [0x50, 0x45, 0, 0];
  }

  // ---------------------------------------------------------------- records

  /** A record of the directory: where a function begins and ends and where its unwind data is. */
  datatype Range = Range(begin: u32, end: u32, unwind: u32)

  function RecordBytes(r: Range): (b: seq<byte>)
    ensures |b| == 12
  {
    U32Bytes(r.begin) + U32Bytes(r.end) + U32Bytes(r.unwind)
  }

  function AllRecords(ranges: seq<Range>): (b: seq<byte>)
    ensures |b| == 12 * |ranges|
  {
    if ranges == [] then [] else AllRecords(ranges[..|ranges| - 1]) + RecordBytes(ranges[|ranges| - 1])
  }

  /** End of what the loader maps of a section: its virtual size, or its file bytes where they are more. */
  function MappedEnd(space: AddressSpace, s: Section): nat {
    space.imageBase + s.vaddr + (if s.vsize >= s.rawSize then s.vsize else s.rawSize)
  }

  /** The range is not empty, fits in 64 bits, and the first section that holds its start is executable and maps it all. */
  ghost predicate InOneSection(space: AddressSpace, r: Range) {
    && r.begin < r.end && space.imageBase + r.end < U64_LIMIT
    && exists i: nat ::
         && i < |space.sections|
         && space.FirstAt(space.sections, i, space.imageBase + r.begin)
         && space.sections[i].executable
         && space.imageBase + r.end <= MappedEnd(space, space.sections[i]) < U64_LIMIT
  }

  /** A range as an entry of the table. */
  function EntryOf(image: seq<byte>, space: AddressSpace, r: Range): RuntimeFunction
    requires space.imageBase + r.end < U64_LIMIT && space.imageBase + r.unwind < U64_LIMIT && r.begin < r.end
  {
    var unwind := space.imageBase + r.unwind;
    RuntimeFunction(r.begin, r.end, r.unwind, space.imageBase + r.begin, space.imageBase + r.end, unwind,
                    ParseAt(image, space, unwind))
  }

  /** At most one section is the first to hold an address. */
  lemma FirstUnique(space: AddressSpace, i: nat, va: u64)
    requires i < |space.sections| && space.FirstAt(space.sections, i, va)
    ensures space.SectionAtVa(va) == Some(space.sections[i])
  {
    assert space.sections[i] in space.sections;
    var found := space.SectionAtVa(va);
    var j: nat :| j < |space.sections| && found.value == space.sections[j] && space.FirstAt(space.sections, j, va);
  }

  /** A range becomes code exactly when one executable section maps it. */
  lemma RangeIff(space: AddressSpace, r: Range)
    ensures ExecutableRange(space, r.begin, r.end).Some? <==> InOneSection(space, r)
    ensures InOneSection(space, r) ==>
      ExecutableRange(space, r.begin, r.end) == Some((space.imageBase + r.begin, space.imageBase + r.end))
  {
    hide AddressSpace.SectionAtVa, AddressSpace.FirstContaining, AddressSpace.FirstAt, Section.ContainsVa;
    if InOneSection(space, r) {
      var i: nat :|
        && i < |space.sections|
        && space.FirstAt(space.sections, i, space.imageBase + r.begin)
        && space.sections[i].executable
        && space.imageBase + r.end <= MappedEnd(space, space.sections[i]) < U64_LIMIT;
      FirstUnique(space, i, space.imageBase + r.begin);
      HoldsBelow(space, i, space.imageBase + r.begin);
    }
    if ExecutableRange(space, r.begin, r.end).Some? {
      var s := space.SectionAtVa(space.imageBase + r.begin).value;
      var i: nat :| i < |space.sections| && s == space.sections[i] &&
        space.FirstAt(space.sections, i, space.imageBase + r.begin);
    }
  }

  lemma HoldsBelow(space: AddressSpace, i: nat, va: u64)
    requires i < |space.sections| && space.FirstAt(space.sections, i, va)
    ensures space.imageBase + space.sections[i].vaddr <= va
  {
  }

  lemma RecordFields(r: Range)
    ensures var b := RecordBytes(r);
      ReadU32(b, 0) == Some(r.begin) && ReadU32(b, 4) == Some(r.end) && ReadU32(b, 8) == Some(r.unwind)
  {
    var b := RecordBytes(r);
    assert b[0..4] == U32Bytes(r.begin) && b[4..8] == U32Bytes(r.end) && b[8..12] == U32Bytes(r.unwind);
    hide RecordBytes, U32Bytes, ReadU32;
    Read32Written(b, 0, r.begin);
    Read32Written(b, 4, r.end);
    Read32Written(b, 8, r.unwind);
  }

  /** A record is accepted exactly when its range lies in one executable section and its unwind address fits. */
  lemma AcceptIff(image: seq<byte>, space: AddressSpace, r: Range)
    ensures Accept(image, space, RecordBytes(r)) ==
      if InOneSection(space, r) && space.imageBase + r.unwind < U64_LIMIT then Some(EntryOf(image, space, r)) else None
  {
    hide ParseAt, ExecutableRange, InOneSection, RecordBytes, ReadU32;
    RecordFields(r);
    RangeIff(space, r);
    if InOneSection(space, r) {
      RangeFits(space, r);
    }
  }

  lemma RangeFits(space: AddressSpace, r: Range)
    requires InOneSection(space, r)
    ensures r.begin < r.end && space.imageBase + r.end < U64_LIMIT
  {
  }

  /** The entries of the records that lie in code, in order. */
  ghost function InCode(image: seq<byte>, space: AddressSpace, ranges: seq<Range>): seq<RuntimeFunction> {
    if ranges == [] then []
    else
      var front, last := InCode(image, space, ranges[..|ranges| - 1]), ranges[|ranges| - 1];
      if InOneSection(space, last) && space.imageBase + last.unwind < U64_LIMIT then
        RangeFits(space, last);
        front + [EntryOf(image, space, last)]
      else front
  }

  lemma {:induction false} AcceptedPrefix(image: seq<byte>, space: AddressSpace, a: seq<byte>, b: seq<byte>, n: nat)
    requires |a| % 12 == 0 && |b| % 12 == 0 && n <= |a| / 12
    ensures Accepted(image, space, a + b, n) == Accepted(image, space, a, n)
  {
    hide Accept;
    if n > 0 {
      AcceptedPrefix(image, space, a, b, n - 1);
      assert Record(a + b, n - 1) == Record(a, n - 1);
    }
  }

  /** Of records written one after another exactly those that lie in code are accepted. */
  lemma {:induction false} AcceptedWritten(image: seq<byte>, space: AddressSpace, ranges: seq<Range>)
    ensures Accepted(image, space, AllRecords(ranges), |ranges|) == InCode(image, space, ranges)
    decreases |ranges|
  {
    hide Accept, ParseAt, InOneSection, RecordBytes;
    if ranges != [] {
      var front, last, n := ranges[..|ranges| - 1], ranges[|ranges| - 1], |ranges| - 1;
      AcceptedWritten(image, space, front);
      AcceptedPrefix(image, space, AllRecords(front), RecordBytes(last), n);
      assert Record(AllRecords(ranges), n) == RecordBytes(last);
      AcceptIff(image, space, last);
    }
  }

  /** Where the directory's records are what a section maps at its address, they are what is read. */
  lemma WrittenBytes(image: seq<byte>, space: AddressSpace, rva: u32, ranges: seq<Range>)
    requires ranges != [] && 12 * |ranges| < U32_LIMIT && space.imageBase + rva < U64_LIMIT
    requires space.SliceForVa(image, space.imageBase + rva, 12 * |ranges|) == Some(AllRecords(ranges))
    ensures DirectoryBytes(image, space, rva, 12 * |ranges|) == Some(AllRecords(ranges))
  {
    hide AddressSpace.SliceForVa, AllRecords;
    assert 12 * |ranges| % 12 == 0;
  }

  /**
   * The whole way: an image written with a directory whose records a section maps gives the sorted table
   * of the records that lie in code, and the others are counted.
   */
  lemma WrittenTable(h: Headers, rest: seq<byte>, space: AddressSpace, ranges: seq<Range>, r: Option<Table>)
    requires h.Valid() && h.dos == 0x5a4d && h.signature == 0x4550 && h.machine == 0x8664 && h.magic == 0x20b
    requires h.declared > 3 && |h.directories| > 3 && ranges != [] && 12 * |ranges| < U32_LIMIT
    requires h.directories[3].0 != 0 && h.directories[3].1 == 12 * |ranges|
    requires space.imageBase + h.directories[3].0 < U64_LIMIT
    requires
      space.SliceForVa(Written(h, rest), space.imageBase + h.directories[3].0, 12 * |ranges|) == Some(AllRecords(ranges))
    requires IsTable(Written(h, rest), space, r)
    ensures
      var code := InCode(Written(h, rest), space, ranges);
      && r.Some? && Sorted(r.value.entries) && multiset(r.value.entries) == multiset(code)
      && r.value.rejected == |ranges| - |code|
  {
    hide Written, Sorted, Accepted, InCode, Means, ExceptionDirectory, DirectoryBytes, AddressSpace.SliceForVa, AllRecords;
    var image := Written(h, rest);
    WrittenDirectory(h, rest);
    FullEntry(h.directories[3]);
    WrittenBytes(image, space, h.directories[3].0, ranges);
    AcceptedWritten(image, space, ranges);
    assert |multiset(r.value.entries)| == |r.value.entries|;
  }

  /** A sorted table ascends by begin address, then by end, then by unwind address. */
  lemma TableAscends(image: seq<byte>, space: AddressSpace, t: Table, i: nat, j: nat)
    requires IsTable(image, space, Some(t)) && i < j < |t.entries|
    ensures t.entries[i].beginVa <= t.entries[j].beginVa
    ensures t.entries[i].beginVa == t.entries[j].beginVa ==> t.entries[i].endVa <= t.entries[j].endVa
    ensures t.entries[i].beginVa == t.entries[j].beginVa && t.entries[i].endVa == t.entries[j].endVa ==>
      t.entries[i].unwindInfoVa <= t.entries[j].unwindInfoVa
  {
    hide ExceptionDirectory, DirectoryBytes, Accepted;
    assert Sorted(t.entries);
    assert KeyLe(t.entries[i], t.entries[j]);
  }

  lemma FullEntry(d: (u32, u32))
    requires d.0 != 0 && d.1 != 0
    ensures Means(d) == Some(Some(d))
  {
  }
}
