/** The PE exception directory: locating it, validating its records and the sorted table they give. */
module RuntimeFunctions {
  import opened Prelude
  import opened AddressSpaces
  import opened Unwind
  import opened Sorting

  datatype RuntimeFunction = RuntimeFunction(
    beginRva: u32,
    endRva: u32,
    unwindInfoRva: u32,
    beginVa: u64,
    endVa: u64,
    unwindInfoVa: u64,
    unwindInfo: Option<UnwindInfo>)

  datatype Table = Table(entries: seq<RuntimeFunction>, rejected: nat)

  /** Where the directory is; `Some(None)` is a valid image without one. */
  function ExceptionDirectory(image: seq<byte>): Option<Option<(u32, u32)>> {
    if |image| < 2 || image[0] != 0x4d || image[1] != 0x5a then None
    else
      var pe := ReadU32(image, 0x3c);
      if pe.None? || |image| < pe.value + 4 || image[pe.value..pe.value + 4] != [0x50, 0x45, 0, 0] then None
      else
        var coff := pe.value + 4;
        var optionalSize := ReadU16(image, coff + 16);
        if ReadU16(image, coff) != Some(0x8664) || optionalSize.None? then None
        else DirectoryEntry(image, coff + 20, coff + 20 + optionalSize.value)
  }

  /** Exception entry of the optional header that occupies `at..end`. */
  function DirectoryEntry(image: seq<byte>, at: nat, end: nat): Option<Option<(u32, u32)>> {
    if |image| < end || end < at + 2 || ReadU16(image, at) != Some(0x20b) || end < at + 112 then None
    else
      var count := ReadU32(image, at + 108);
      if count.None? then None
      else if count.value <= 3 then Some(None)
      else if end < at + 144 then None
      else
        var rva, size := ReadU32(image, at + 136), ReadU32(image, at + 140);
        if rva.None? || size.None? then None
        else if rva.value == 0 && size.value == 0 then Some(None)
        else if rva.value == 0 || size.value == 0 then None
        else Some(Some((rva.value, size.value)))
  }

  /** End of the bytes the loader maps for a section: initialised data may exceed the virtual size. */
  function SectionEnd(space: AddressSpace, s: Section): nat {
    space.imageBase + s.vaddr + (if s.vsize < s.rawSize then s.rawSize else s.vsize)
  }

  /** `executable_range`: the VAs of a record whose range one executable section contains. */
  function ExecutableRange(space: AddressSpace, beginRva: u32, endRva: u32): Option<(u64, u64)> {
    if beginRva >= endRva then None
    else
      var begin, end := CheckedAdd(space.imageBase, beginRva), CheckedAdd(space.imageBase, endRva);
      if begin.None? || end.None? then None
      else
        var section := space.SectionAtVa(begin.value);
        if section.None? || !section.value.executable then None
        else
          var sectionEnd := SectionEnd(space, section.value);
          if sectionEnd < U64_LIMIT && space.imageBase + section.value.vaddr <= begin.value && end.value <= sectionEnd
          then Some((begin.value, end.value)) else None
  }

  /** The record at one 12-byte entry, or `None` when it must not become a function seed. */
  function Accept(image: seq<byte>, space: AddressSpace, record: seq<byte>): Option<RuntimeFunction>
    requires |record| == RUNTIME_FUNCTION_SIZE
  {
    var begin, end, unwind := ReadU32(record, 0).value, ReadU32(record, 4).value, ReadU32(record, 8).value;
    var range := ExecutableRange(space, begin, end);
    var unwindVa := CheckedAdd(space.imageBase, unwind);
    if range.None? || unwindVa.None? then None
    else Some(RuntimeFunction(
      begin, end, unwind, range.value.0, range.value.1, unwindVa.value, ParseAt(image, space, unwindVa.value)))
  }

  function Record(directory: seq<byte>, k: nat): (r: seq<byte>)
    requires |directory| % 12 == 0 && k < |directory| / 12
    ensures |r| == RUNTIME_FUNCTION_SIZE
  {
    directory[12 * k..12 * k + 12]
  }

  /** The accepted records among the first `n`, in directory order. */
  function Accepted(image: seq<byte>, space: AddressSpace, directory: seq<byte>, n: nat): (r: seq<RuntimeFunction>)
    requires |directory| % 12 == 0 && n <= |directory| / 12
    ensures |r| <= n
  {
    if n == 0 then []
    else
      var front := Accepted(image, space, directory, n - 1);
      var last := Accept(image, space, Record(directory, n - 1));
      if last.Some? then front + [last.value] else front
  }

  /** Order of the table: by begin, then end, then unwind address. */
  predicate KeyLe(a: RuntimeFunction, b: RuntimeFunction) {
    || a.beginVa < b.beginVa
    || (a.beginVa == b.beginVa && a.endVa < b.endVa)
    || (a.beginVa == b.beginVa && a.endVa == b.endVa && a.unwindInfoVa <= b.unwindInfoVa)
  }

  ghost predicate Sorted(s: seq<RuntimeFunction>) {
    SortedBy(KeyLe, s)
  }

  /** The directory bytes the header points at, if the declaration is well formed. */
  function DirectoryBytes(image: seq<byte>, space: AddressSpace, rva: u32, size: u32): (r: Option<seq<byte>>)
    ensures r.Some? ==> |r.value| == size && size % 12 == 0
  {
    var va := CheckedAdd(space.imageBase, rva);
    if size == 0 || size % RUNTIME_FUNCTION_SIZE != 0 || va.None? then None
    else space.SliceForVa(image, va.value, size)
  }

  /**
   * What an image is parsed as: nothing where its headers are malformed, an empty table without a directory,
   * and otherwise the sorted accepted records, the others counted.
   */
  ghost predicate IsTable(image: seq<byte>, space: AddressSpace, r: Option<Table>) {
    match ExceptionDirectory(image)
    case None => r == None
    case Some(None) => r == Some(Table([], 0))
    case Some(Some((rva, size))) =>
      var directory := DirectoryBytes(image, space, rva, size);
      if directory.None? then r == None
      else
        var n := |directory.value| / 12;
        && r.Some? && Sorted(r.value.entries)
        && multiset(r.value.entries) == multiset(Accepted(image, space, directory.value, n))
        && |r.value.entries| + r.value.rejected == n
  }

  /**
   * `parse_runtime_functions`: every record either lands in the sorted table or is counted as
   * rejected, and the table is a permutation of exactly the accepted records.
   */
  method ParseRuntimeFunctions(image: seq<byte>, space: AddressSpace) returns (r: Option<Table>)
    ensures IsTable(image, space, r)
  {
    var at := ExceptionDirectory(image);
    if at.None? {
      return None;
    }
    if at.value.None? {
      return Some(Table([], 0));
    }
    var bytes := DirectoryBytes(image, space, at.value.value.0, at.value.value.1);
    if bytes.None? {
      return None;
    }
    var directory := bytes.value;
    var entries: seq<RuntimeFunction>, rejected, k := [], 0, 0;
    while k < |directory| / 12
      invariant k <= |directory| / 12
      invariant entries == Accepted(image, space, directory, k)
      invariant |entries| + rejected == k
    {
      var entry := Accept(image, space, Record(directory, k));
      if entry.None? {
        rejected := rejected + 1;
      } else {
        entries := entries + [entry.value];
      }
      k := k + 1;
    }
    var table := Sort(KeyLe, entries);
    SortSorts(KeyLe, entries);
    assert |table| == |multiset(table)| == |multiset(entries)| == |entries|;
    r := Some(Table(table, rejected));
  }

  // ---------------------------------------------------------------- properties of the table

  /** An accepted record covers a non-empty range inside the mapped bytes of one executable section. */
  lemma AcceptedRange(image: seq<byte>, space: AddressSpace, record: seq<byte>)
    requires |record| == RUNTIME_FUNCTION_SIZE && Accept(image, space, record).Some?
    ensures var e := Accept(image, space, record).value;
      && e.beginVa < e.endVa && e.beginVa == space.imageBase + e.beginRva && e.endVa == space.imageBase + e.endRva
      && space.IsExecutableVa(e.beginVa)
      && exists s :: s in space.sections && s.executable
           && space.imageBase + s.vaddr <= e.beginVa && e.endVa <= SectionEnd(space, s)
  {
    var e := Accept(image, space, record).value;
    var s := space.SectionAtVa(e.beginVa).value;
    assert s in space.sections && s.executable;
  }

  /** What the parser derives from the image: addresses from RVAs, unwind data from its address. */
  predicate Derived(image: seq<byte>, space: AddressSpace, e: RuntimeFunction) {
    && e.beginVa == space.imageBase + e.beginRva
    && e.endVa == space.imageBase + e.endRva
    && e.unwindInfoVa == space.imageBase + e.unwindInfoRva
    && e.unwindInfo == ParseAt(image, space, e.unwindInfoVa)
  }

  lemma {:induction false} AcceptedDerived(image: seq<byte>, space: AddressSpace, directory: seq<byte>, n: nat)
    requires |directory| % 12 == 0 && n <= |directory| / 12
    ensures forall e :: e in Accepted(image, space, directory, n) ==> Derived(image, space, e)
  {
    hide ParseAt;
    if n > 0 {
      AcceptedDerived(image, space, directory, n - 1);
    }
  }

  lemma DerivedByKey(image: seq<byte>, space: AddressSpace, a: RuntimeFunction, b: RuntimeFunction)
    requires Derived(image, space, a) && Derived(image, space, b) && KeyLe(a, b) && KeyLe(b, a)
    ensures a == b
  {
    hide ParseAt;
  }

  /** Sorting is unstable in the source, yet the sorted table is unique: equal keys mean equal entries. */
  lemma SortedTableUnique(
    image: seq<byte>, space: AddressSpace, directory: seq<byte>, a: seq<RuntimeFunction>, b: seq<RuntimeFunction>)
    requires |directory| % 12 == 0
    requires Sorted(a) && multiset(a) == multiset(Accepted(image, space, directory, |directory| / 12))
    requires Sorted(b) && multiset(b) == multiset(Accepted(image, space, directory, |directory| / 12))
    ensures a == b
  {
    hide ParseAt, Derived, KeyLe, SortedBy, Accepted;
    var accepted := Accepted(image, space, directory, |directory| / 12);
    AcceptedDerived(image, space, directory, |directory| / 12);
    forall e | e in a ensures Derived(image, space, e) {
      assert e in multiset(a);
      assert e in accepted;
    }
    forall x, y | x in a && y in a && KeyLe(x, y) && KeyLe(y, x) ensures x == y {
      DerivedByKey(image, space, x, y);
    }
    SortedUnique(KeyLe, a, b);
  }
}
