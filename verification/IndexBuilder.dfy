/** Building the instruction index: a linear sweep over every executable section, in address order. */
module IndexBuilder {
  import opened Prelude
  import opened AddressSpaces
  import opened CodeIndexes
  import opened Sorting

  /** Decodes the instruction at an offset, for a given address; length zero means there is none. */
  type Decoder = (seq<byte>, nat, u64) -> Instr

  /** A decoder reports the address it was given and stays inside the bytes. */
  ghost predicate Sane(decode: Decoder) {
    forall bytes: seq<byte>, offset: nat, ip: u64 :: offset < |bytes| ==>
      decode(bytes, offset, ip).ip == ip && offset + decode(bytes, offset, ip).len <= |bytes|
  }

  /** The instruction pointer wraps around at the end of the address space. */
  function IpAt(start: u64, offset: nat): u64 { (start + offset) % U64_LIMIT }

  function Sweep(decode: Decoder, bytes: seq<byte>, start: u64, offset: nat): seq<Instr>
    requires Sane(decode)
    decreases |bytes| - offset
  {
    if offset >= |bytes| then []
    else
      var d := decode(bytes, offset, IpAt(start, offset));
      if d.len == 0 then [] else [d] + Sweep(decode, bytes, start, offset + d.len)
  }

  /** Offset where the sweep stops. */
  function SweepEnd(decode: Decoder, bytes: seq<byte>, start: u64, offset: nat): (r: nat)
    requires Sane(decode)
    ensures r >= offset
    ensures r == offset <==> Sweep(decode, bytes, start, offset) == []
    decreases |bytes| - offset
  {
    if offset >= |bytes| then offset
    else
      var d := decode(bytes, offset, IpAt(start, offset));
      if d.len == 0 then offset else SweepEnd(decode, bytes, start, offset + d.len)
  }

  /** A run of instructions that can be (part of) an index. */
  ghost predicate Formed(instrs: seq<Instr>) { CodeIndex(instrs).WellFormed() }

  lemma ElementWise(instrs: seq<Instr>, i: nat)
    requires Formed(instrs) && i < |instrs|
    ensures instrs[i].len >= 1 && instrs[i].ip + instrs[i].len < U64_LIMIT
    ensures forall j: nat :: i < j < |instrs| ==> instrs[i].ip + instrs[i].len <= instrs[j].ip
  {
    assert CodeIndex(instrs).Sized(i);
    forall j: nat | i < j < |instrs| ensures instrs[i].ip + instrs[i].len <= instrs[j].ip {
      assert CodeIndex(instrs).Before(i, j);
    }
  }

  /** Where a run of instructions ends. */
  function EndOf(instrs: seq<Instr>): nat
    requires instrs != []
  {
    instrs[|instrs| - 1].ip + instrs[|instrs| - 1].len
  }

  lemma EndIsLast(instrs: seq<Instr>, i: nat)
    requires Formed(instrs) && i < |instrs|
    ensures instrs[0].ip <= instrs[i].ip && instrs[i].ip + instrs[i].len <= EndOf(instrs) < U64_LIMIT
  {
    ElementWise(instrs, 0);
    ElementWise(instrs, i);
    ElementWise(instrs, |instrs| - 1);
  }

  /** Two runs join into one exactly when each is well formed and the first ends before the second begins. */
  lemma JoinedIff(a: seq<Instr>, b: seq<Instr>)
    ensures Formed(a + b) <==> Formed(a) && Formed(b) && (a != [] && b != [] ==> EndOf(a) <= b[0].ip)
  {
    var ab := a + b;
    if Formed(ab) {
      forall i: nat | i < |a| ensures CodeIndex(a).Sized(i) { ElementWise(ab, i); assert ab[i] == a[i]; }
      forall i: nat, j: nat | i < j < |a| ensures CodeIndex(a).Before(i, j) {
        ElementWise(ab, i);
        assert ab[i] == a[i] && ab[j] == a[j];
      }
      forall i: nat | i < |b| ensures CodeIndex(b).Sized(i) { ElementWise(ab, |a| + i); assert ab[|a| + i] == b[i]; }
      forall i: nat, j: nat | i < j < |b| ensures CodeIndex(b).Before(i, j) {
        ElementWise(ab, |a| + i);
        assert ab[|a| + i] == b[i] && ab[|a| + j] == b[j];
      }
      if a != [] && b != [] {
        ElementWise(ab, |a| - 1);
        assert ab[|a| - 1] == a[|a| - 1] && ab[|a|] == b[0];
      }
    }
    if Formed(a) && Formed(b) && (a != [] && b != [] ==> EndOf(a) <= b[0].ip) {
      forall i: nat | i < |ab| ensures CodeIndex(ab).Sized(i) {
        if i < |a| { ElementWise(a, i); } else { ElementWise(b, i - |a|); }
      }
      forall i: nat, j: nat | i < j < |ab| ensures CodeIndex(ab).Before(i, j) {
        if j < |a| {
          ElementWise(a, i);
        } else if i >= |a| {
          ElementWise(b, i - |a|);
        } else {
          EndIsLast(a, i);
          EndIsLast(b, j - |a|);
        }
      }
    }
  }

  /** A sweep is one contiguous run; it is well formed exactly when it ends inside the address space. */
  lemma {:induction false} SweepIff(decode: Decoder, bytes: seq<byte>, start: u64, offset: nat)
    requires Sane(decode) && start + offset < U64_LIMIT
    ensures var run, end := Sweep(decode, bytes, start, offset), SweepEnd(decode, bytes, start, offset);
      && (run != [] ==> run[0].ip == start + offset)
      && (Formed(run) <==> run == [] || start + end < U64_LIMIT)
      && (run != [] && start + end < U64_LIMIT ==> EndOf(run) == start + end)
    decreases |bytes| - offset
  {
    var run := Sweep(decode, bytes, start, offset);
    if run != [] {
      var d, next := run[0], offset + run[0].len;
      var rest := Sweep(decode, bytes, start, next);
      assert run == [d] + rest;
      One(d);
      JoinedIff([d], rest);
      if start + next < U64_LIMIT {
        SweepIff(decode, bytes, start, next);
      }
    }
  }

  lemma One(d: Instr)
    ensures Formed([d]) <==> d.len >= 1 && d.ip + d.len < U64_LIMIT
  {
    if d.len >= 1 && d.ip + d.len < U64_LIMIT {
      assert CodeIndex([d]).Sized(0);
    }
    if Formed([d]) {
      ElementWise([d], 0);
    }
  }

  // ---------------------------------------------------------------- all sections

  /** The bytes of a section that are in the file. */
  function SectionBytes(image: seq<byte>, s: Section): seq<byte> {
    var end := if s.rawAddr + s.rawSize < |image| then s.rawAddr + s.rawSize else |image|;
    if s.rawAddr >= |image| || end <= s.rawAddr then [] else image[s.rawAddr..end]
  }

  function SectionStart(base: u64, s: Section): u64 { SaturatingAdd(base, s.vaddr) }

  function SectionRun(decode: Decoder, image: seq<byte>, base: u64, s: Section): seq<Instr>
    requires Sane(decode)
  {
    Sweep(decode, SectionBytes(image, s), SectionStart(base, s), 0)
  }

  function Runs(decode: Decoder, image: seq<byte>, base: u64, sections: seq<Section>): seq<Instr>
    requires Sane(decode)
  {
    if sections == [] then []
    else
      Runs(decode, image, base, sections[..|sections| - 1]) +
        SectionRun(decode, image, base, sections[|sections| - 1])
  }

  /** Where the decoded part of a section ends, counted without wrapping. */
  function DecodedEnd(decode: Decoder, image: seq<byte>, base: u64, s: Section): nat
    requires Sane(decode)
  {
    SectionStart(base, s) + SweepEnd(decode, SectionBytes(image, s), SectionStart(base, s), 0)
  }

  /** Nothing of the section decodes. */
  predicate Blank(decode: Decoder, image: seq<byte>, base: u64, s: Section)
    requires Sane(decode)
  {
    DecodedEnd(decode, image, base, s) == SectionStart(base, s)
  }

  /** The decoded part of each section ends before that of every later one begins. */
  ghost predicate Apart(decode: Decoder, image: seq<byte>, base: u64, sections: seq<Section>)
    requires Sane(decode)
  {
    && (forall s :: s in sections && !Blank(decode, image, base, s) ==> DecodedEnd(decode, image, base, s) < U64_LIMIT)
    && (forall i, j :: 0 <= i < j < |sections| ==>
         || Blank(decode, image, base, sections[i])
         || Blank(decode, image, base, sections[j])
         || DecodedEnd(decode, image, base, sections[i]) <= SectionStart(base, sections[j]))
  }

  /** What one section contributes. */
  lemma RunIff(decode: Decoder, image: seq<byte>, base: u64, s: Section)
    requires Sane(decode)
    ensures var run := SectionRun(decode, image, base, s);
      && (run == [] <==> Blank(decode, image, base, s))
      && (run != [] ==> run[0].ip == SectionStart(base, s))
      && (Formed(run) <==> run == [] || DecodedEnd(decode, image, base, s) < U64_LIMIT)
      && (run != [] && DecodedEnd(decode, image, base, s) < U64_LIMIT ==> EndOf(run) == DecodedEnd(decode, image, base, s))
  {
    SweepIff(decode, SectionBytes(image, s), SectionStart(base, s), 0);
  }

  /** `end` is the latest end of the sections that decode to something. */
  ghost predicate LatestEnd(decode: Decoder, image: seq<byte>, base: u64, sections: seq<Section>, end: nat)
    requires Sane(decode)
  {
    && (exists s :: s in sections && !Blank(decode, image, base, s) && DecodedEnd(decode, image, base, s) == end)
    && (forall s :: s in sections && !Blank(decode, image, base, s) ==> DecodedEnd(decode, image, base, s) <= end)
  }

  lemma ApartStep(decode: Decoder, image: seq<byte>, base: u64, front: seq<Section>, s: Section)
    requires Sane(decode)
    ensures Apart(decode, image, base, front + [s]) <==>
      && Apart(decode, image, base, front)
      && (!Blank(decode, image, base, s) ==>
           && DecodedEnd(decode, image, base, s) < U64_LIMIT
           && forall f :: f in front && !Blank(decode, image, base, f) ==>
                DecodedEnd(decode, image, base, f) <= SectionStart(base, s))
  {
    hide Blank, DecodedEnd, SectionStart;
    var all := front + [s];
    assert all[|front|] == s;
    assert forall k :: 0 <= k < |front| ==> all[k] == front[k];
    if Apart(decode, image, base, all) {
      assert forall f :: f in front ==> f in all;
      forall f | f in front && !Blank(decode, image, base, f) && !Blank(decode, image, base, s)
        ensures DecodedEnd(decode, image, base, f) <= SectionStart(base, s)
      {
        var k :| 0 <= k < |front| && front[k] == f;
        assert all[k] == f;
      }
      assert s in all;
    }
  }

  lemma StartsBeforeEnd(decode: Decoder, image: seq<byte>, base: u64, s: Section)
    requires Sane(decode)
    ensures SectionStart(base, s) <= DecodedEnd(decode, image, base, s)
  {
  }

  /** The index is well formed exactly when the decoded parts of the sections are apart. */
  lemma {:induction false} RunsIff(decode: Decoder, image: seq<byte>, base: u64, sections: seq<Section>)
    requires Sane(decode)
    ensures Formed(Runs(decode, image, base, sections)) <==> Apart(decode, image, base, sections)
    ensures Apart(decode, image, base, sections) && Runs(decode, image, base, sections) != [] ==>
      LatestEnd(decode, image, base, sections, EndOf(Runs(decode, image, base, sections)))
    ensures Runs(decode, image, base, sections) == [] ==> forall s :: s in sections ==> Blank(decode, image, base, s)
    decreases |sections|
  {
    hide SectionRun, Blank, DecodedEnd, SectionStart, Apart, Formed, Sane;
    if sections == [] {
      assert Formed([]) by { NothingFormed(); }
      assert Apart(decode, image, base, []) by { NothingApart(decode, image, base); }
    } else {
      var n := |sections| - 1;
      var front, s := sections[..n], sections[n];
      assert front + [s] == sections;
      var a, b := Runs(decode, image, base, front), SectionRun(decode, image, base, s);
      RunsIff(decode, image, base, front);
      RunIff(decode, image, base, s);
      StartsBeforeEnd(decode, image, base, s);
      JoinedIff(a, b);
      ApartStep(decode, image, base, front, s);
      assert a == [] ==> a + b == b;
      assert b == [] ==> a + b == a;
      assert b != [] ==> EndOf(a + b) == EndOf(b);
      assert forall f :: f in sections <==> f in front || f == s;
    }
  }

  lemma NothingFormed()
    ensures Formed([])
  {
  }

  lemma NothingApart(decode: Decoder, image: seq<byte>, base: u64)
    requires Sane(decode)
    ensures Apart(decode, image, base, [])
  {
  }

  // ---------------------------------------------------------------- the loops

  predicate ByVaddr(a: Section, b: Section) { a.vaddr <= b.vaddr }

  lemma ByVaddrOrders()
    ensures TotalPreorder(ByVaddr)
  {
  }

  function Executable(sections: seq<Section>): seq<Section> {
    if sections == [] then []
    else (if sections[0].executable then [sections[0]] else []) + Executable(sections[1..])
  }

  /** Taken are exactly the executable sections, each as often as the image lists it. */
  lemma {:induction false} ExecutableCounts(sections: seq<Section>, s: Section)
    ensures multiset(Executable(sections))[s] == if s.executable then multiset(sections)[s] else 0
  {
    if sections != [] {
      assert sections == [sections[0]] + sections[1..];
      ExecutableCounts(sections[1..], s);
    }
  }

  /** `decode_section`. */
  method DecodeSection(decode: Decoder, image: seq<byte>, base: u64, section: Section, before: seq<Instr>)
    returns (instrs: seq<Instr>)
    requires Sane(decode)
    ensures instrs == before + SectionRun(decode, image, base, section)
  {
    instrs := before;
    var bytes, start, offset := SectionBytes(image, section), SectionStart(base, section), 0;
    while offset < |bytes|
      invariant 0 <= offset
      invariant instrs + Sweep(decode, bytes, start, offset) == before + Sweep(decode, bytes, start, 0)
      decreases |bytes| - offset
    {
      var d := decode(bytes, offset, IpAt(start, offset));
      if d.len == 0 {
        break;
      }
      assert instrs + Sweep(decode, bytes, start, offset)
          == instrs + [d] + Sweep(decode, bytes, start, offset + d.len);
      instrs := instrs + [d];
      offset := offset + d.len;
    }
    assert instrs + [] == instrs;
  }

  /**
   * `CodeIndex::build`: the sweep of every executable section in address order. The result can be
   * searched exactly when the decoded parts of those sections do not run into each other.
   */
  method Build(decode: Decoder, image: seq<byte>, space: AddressSpace)
    returns (index: CodeIndex, ghost order: seq<Section>)
    requires Sane(decode)
    ensures SortedBy(ByVaddr, order)
    ensures forall i, j :: 0 <= i < j < |order| ==> order[i].vaddr <= order[j].vaddr
    ensures forall s :: multiset(order)[s] == if s.executable then multiset(space.sections)[s] else 0
    ensures index.instrs == Runs(decode, image, space.imageBase, order)
    ensures index.WellFormed() <==> Apart(decode, image, space.imageBase, order)
  {
    ByVaddrOrders();
    SortSorts(ByVaddr, Executable(space.sections));
    var sections := Sort(ByVaddr, Executable(space.sections));
    order := sections;
    var instrs: seq<Instr>, n := [], 0;
    while n < |sections|
      invariant 0 <= n <= |sections|
      invariant instrs == Runs(decode, image, space.imageBase, sections[..n])
    {
      hide SectionRun, Sane;
      assert sections[..n + 1][..n] == sections[..n];
      instrs := DecodeSection(decode, image, space.imageBase, sections[n], instrs);
      n := n + 1;
    }
    assert sections[..n] == sections;
    index := CodeIndex(instrs);
    RunsIff(decode, image, space.imageBase, sections);
    forall s ensures multiset(order)[s] == if s.executable then multiset(space.sections)[s] else 0 {
      ExecutableCounts(space.sections, s);
    }
  }
}
