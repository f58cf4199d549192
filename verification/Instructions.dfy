/** What the records and the index of instructions say of the code they were made from. */
module Instructions {
  import opened AddressSpaces
  import opened CodeIndexes
  import opened Prelude

  import B = IndexBuilder
  import C = CompactIndexes

  // ---------------------------------------------------------------- records of the deep index

  /** The class a record gives: how control leaves the instruction, and where it does not, what it computes. */
  lemma ClassIff(m: C.Mnemonic, flow: C.FlowControl)
    ensures
      var group, branches := C.OpcodeClass(m, flow), {C.ConditionalBranch, C.UnconditionalBranch, C.IndirectBranch};
      var transfers := branches + {C.Call, C.IndirectCall, C.Return};
      && (group == 1 <==> flow in branches)
      && (group == 2 <==> flow in {C.Call, C.IndirectCall})
      && (group == 3 <==> flow == C.Return)
      && (group == 4 <==> flow !in transfers && m in {C.Add, C.Sub, C.Mul, C.Imul, C.Div, C.Idiv})
      && (group == 5 <==> flow !in transfers && m in {C.And, C.Or, C.Xor, C.Not, C.Shl, C.Shr})
      && (group == 6 <==> flow !in transfers && m in {C.Cmp, C.Test})
      && (group == 7 <==> flow !in transfers && m in {C.Mov, C.Lea, C.Push, C.Pop})
      && (group == 0 <==> flow !in transfers && m == C.Other)
  {
  }

  /** The record is of this instruction: its distance from the image base, length, flags and class. */
  predicate Describes(base: u64, i: C.Decoded, r: C.InstrMeta) {
    && (if i.ip >= base then base + r.rva == i.ip else r.rva == 0)
    && r.len == i.len && r.flags == C.Flags(i) && r.opcodeClass == C.OpcodeClass(i.mnemonic, i.flow)
  }

  /** An instruction has a record exactly when one describes it, that is, within 4 GiB above the base or below it. */
  lemma MetaIff(base: u64, i: C.Decoded, r: C.InstrMeta)
    ensures C.Meta(base, i) == Some(r) <==> Describes(base, i, r)
  {
    hide C.Flags, C.OpcodeClass;
  }

  lemma FarIff(base: u64, i: C.Decoded)
    ensures C.Meta(base, i).None? <==> i.ip >= base + U32_LIMIT
  {
  }

  /** Where decoding gives up: the first instruction of length zero, or the end. */
  function Stop(decoded: seq<C.Decoded>): (n: nat)
    ensures n <= |decoded|
    ensures forall k :: 0 <= k < n ==> decoded[k].len > 0
    ensures n < |decoded| ==> decoded[n].len == 0
  {
    if decoded == [] || decoded[0].len == 0 then 0 else 1 + Stop(decoded[1..])
  }

  /** The positions from `from` up to where decoding gives up whose instructions are not too far from the base. */
  ghost function Near(base: u64, decoded: seq<C.Decoded>, from: nat): (r: seq<nat>)
    requires from <= Stop(decoded)
    ensures forall i, j :: 0 <= i < j < |r| ==> r[i] < r[j]
    ensures forall k :: k in r <==> from <= k < Stop(decoded) && decoded[k].ip < base + U32_LIMIT
    decreases Stop(decoded) - from
  {
    if from == Stop(decoded) then []
    else
      var rest := Near(base, decoded, from + 1);
      assert forall i :: 0 <= i < |rest| ==> rest[i] in rest;
      if decoded[from].ip < base + U32_LIMIT then [from] + rest else rest
  }

  /** Each record describes the instruction at its position. */
  ghost predicate AllDescribe(base: u64, decoded: seq<C.Decoded>, at: seq<nat>, records: seq<C.InstrMeta>) {
    && |records| == |at|
    && forall k :: 0 <= k < |at| ==> at[k] < |decoded| && Describes(base, decoded[at[k]], records[k])
  }

  lemma DescribesCons(
    base: u64, decoded: seq<C.Decoded>, k: nat, r: C.InstrMeta, at: seq<nat>, records: seq<C.InstrMeta>)
    requires k < |decoded| && Describes(base, decoded[k], r) && AllDescribe(base, decoded, at, records)
    ensures AllDescribe(base, decoded, [k] + at, [r] + records)
  {
    hide Describes;
  }

  /** One instruction further, or the end. */
  lemma RecordsStep(base: u64, decoded: seq<C.Decoded>, from: nat)
    requires from <= Stop(decoded)
    ensures
      if from == Stop(decoded) then C.Records(base, decoded[from..]) == []
      else
        var r := C.Meta(base, decoded[from]);
        C.Records(base, decoded[from..]) == (if r.Some? then [r.value] else []) + C.Records(base, decoded[from + 1..])
  {
    hide C.Meta, Stop;
    var rest := decoded[from..];
    if from < |decoded| {
      assert rest[0] == decoded[from] && rest[1..] == decoded[from + 1..];
    }
  }

  lemma {:induction false} RecordsFrom(base: u64, decoded: seq<C.Decoded>, from: nat)
    requires from <= Stop(decoded)
    ensures AllDescribe(base, decoded, Near(base, decoded, from), C.Records(base, decoded[from..]))
    decreases Stop(decoded) - from
  {
    hide C.Meta, C.Records, Describes, Stop, AllDescribe;
    RecordsStep(base, decoded, from);
    if from == Stop(decoded) {
      assert AllDescribe(base, decoded, [], []) by { NothingDescribed(base, decoded); }
    } else {
      var rest := C.Records(base, decoded[from + 1..]);
      RecordsFrom(base, decoded, from + 1);
      FarIff(base, decoded[from]);
      var r := C.Meta(base, decoded[from]);
      if r.Some? {
        MetaIff(base, decoded[from], r.value);
        DescribesCons(base, decoded, from, r.value, Near(base, decoded, from + 1), rest);
      } else {
        assert [] + rest == rest;
      }
    }
  }

  lemma NothingDescribed(base: u64, decoded: seq<C.Decoded>)
    ensures AllDescribe(base, decoded, [], [])
  {
  }

  /** A section's records describe, in order, exactly the instructions decoded before decoding gave up that are near the base. */
  lemma RecordsAre(base: u64, decoded: seq<C.Decoded>)
    ensures AllDescribe(base, decoded, Near(base, decoded, 0), C.Records(base, decoded))
  {
    RecordsFrom(base, decoded, 0);
    assert decoded[0..] == decoded;
  }

  /** Byte by byte: record `k` starts at `8 k`, lowest byte first, address before flags before length before class. */
  lemma RecordLayout(records: seq<C.InstrMeta>, k: nat)
    requires k < |records|
    ensures var b, r := C.EncodeAll(records), records[k];
      && |b| == 8 * |records|
      && r.rva == b[8 * k] as int + 0x100 * b[8 * k + 1] as int
           + 0x1_0000 * b[8 * k + 2] as int + 0x100_0000 * b[8 * k + 3] as int
      && r.flags == b[8 * k + 4] as int + 0x100 * b[8 * k + 5] as int
      && r.len == b[8 * k + 6] && r.opcodeClass == b[8 * k + 7]
  {
    hide C.EncodeAll;
    var b := C.EncodeAll(records);
    var w := b[8 * k..8 * k + 8];
    C.RecordAt(records, k);
    assert C.DecodeRecord(w) == records[k];
    assert forall i :: 0 <= i < 8 ==> w[i] == b[8 * k + i];
  }

  // ---------------------------------------------------------------- the instruction index

  /** The instruction is what decodes at this offset of the section, for the address that is mapped there. */
  ghost predicate DecodedAt(decode: B.Decoder, image: seq<byte>, space: AddressSpace, s: Section, d: Instr, offset: nat) {
    var bytes := B.SectionBytes(image, s);
    && offset < |bytes| && d.len > 0 && offset + d.len <= |bytes|
    && d == decode(bytes, offset, d.ip)
    && d.ip == space.imageBase + s.vaddr + offset
  }

  lemma {:induction false} SweepDecodes(decode: B.Decoder, bytes: seq<byte>, start: u64, offset: nat, d: Instr)
    returns (at: nat)
    requires B.Sane(decode) && d in B.Sweep(decode, bytes, start, offset)
    ensures offset <= at < |bytes| && d.len > 0 && at + d.len <= |bytes|
    ensures d.ip == B.IpAt(start, at) && d == decode(bytes, at, d.ip)
    decreases |bytes| - offset
  {
    var first := decode(bytes, offset, B.IpAt(start, offset));
    if d == first {
      at := offset;
    } else {
      at := SweepDecodes(decode, bytes, start, offset + first.len, d);
    }
  }

  /**
   * Every instruction a section contributes is what decodes at the offset its address is mapped from, as
   * long as the section ends inside the address space.
   */
  lemma SectionDecodes(decode: B.Decoder, image: seq<byte>, space: AddressSpace, s: Section, d: Instr) returns (offset: nat)
    requires B.Sane(decode) && d in B.SectionRun(decode, image, space.imageBase, s)
    requires space.imageBase + s.vaddr + s.rawSize < U64_LIMIT
    ensures DecodedAt(decode, image, space, s, d, offset)
  {
    offset := SweepDecodes(decode, B.SectionBytes(image, s), B.SectionStart(space.imageBase, s), 0, d);
  }

  /**
   * So reading the image at the address of an indexed instruction gives the bytes it was decoded from, where
   * its section is the first to hold that address and maps all its file bytes.
   */
  lemma IndexedBytes(decode: B.Decoder, image: seq<byte>, space: AddressSpace, s: Section, d: Instr) returns (offset: nat)
    requires B.Sane(decode) && d in B.SectionRun(decode, image, space.imageBase, s)
    requires space.imageBase + s.vaddr + s.rawSize < U64_LIMIT
    requires space.SectionAtVa(d.ip) == Some(s)
    ensures DecodedAt(decode, image, space, s, d, offset)
    ensures space.SliceForVa(image, d.ip, d.len) == Some(B.SectionBytes(image, s)[offset..offset + d.len])
  {
    offset := SectionDecodes(decode, image, space, s, d);
    hide AddressSpace.SectionAtVa;
    var slice := space.SliceForVa(image, d.ip, d.len);
    var bytes := B.SectionBytes(image, s);
    assert |bytes| <= s.rawSize && s.rawAddr + |bytes| <= |image|;
    assert slice.Some?;
    assert slice.value == bytes[offset..offset + d.len];
  }
}
