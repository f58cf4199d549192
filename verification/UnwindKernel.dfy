/** Which bits of an UNWIND_INFO record the parser reads: the exact kernel of `parse_unwind_info`. */
module UnwindKernel {
  import opened Prelude
  import opened Unwind

  /** First byte of the second slot of an epilog operation. */
  function EpilogSlot(c: UnwindCode): nat { SlotOffset(c.slotIndex) + 2 }

  predicate InEpilogSlot(info: UnwindInfo, i: nat, operationInfo: byte) {
    exists c :: c in info.codes && c.operation.Epilog? && c.operationInfo == operationInfo
      && EpilogSlot(c) <= i < EpilogSlot(c) + 2
  }

  /** Byte `i` is never read: the alignment slot, or the second slot of an epilog that ends the function. */
  predicate Ignored(info: UnwindInfo, i: nat) {
    SlotOffset(info.codeSlots) <= i < info.tailOffset || InEpilogSlot(info, i, 1)
  }

  /** Of byte `i` only the high four bits are read: the packed half of an epilog's second slot. */
  predicate HighOnly(info: UnwindInfo, i: nat) {
    i % 2 == 1 && InEpilogSlot(info, i, 0)
  }

  /** Two records agree at byte `i` as far as the parser looks. */
  predicate SameAt(info: UnwindInfo, a: seq<byte>, b: seq<byte>, i: nat)
    requires i < |a| && i < |b|
  {
    a[i] == b[i] || Ignored(info, i) || (HighOnly(info, i) && a[i] / 16 == b[i] / 16)
  }

  lemma {:induction false} SlotCovered(version: byte, codes: seq<UnwindCode>, slot: nat, total: nat, s: nat)
    returns (c: UnwindCode)
    requires Tiles(version, codes, slot, total) && slot <= s < total
    ensures c in codes && c.slotIndex <= s < c.slotIndex + c.slotsUsed
    decreases |codes|
  {
    if s < slot + codes[0].slotsUsed {
      c := codes[0];
    } else {
      c := SlotCovered(version, codes[1..], slot + codes[0].slotsUsed, total, s);
    }
  }

  lemma {:induction false} SlotCoveredOnce(
    version: byte, codes: seq<UnwindCode>, slot: nat, total: nat, c: UnwindCode, d: UnwindCode, s: nat)
    requires Tiles(version, codes, slot, total) && c in codes && d in codes
    requires c.slotIndex <= s < c.slotIndex + c.slotsUsed && d.slotIndex <= s < d.slotIndex + d.slotsUsed
    ensures c == d
    decreases |codes|
  {
    var rest, next := codes[1..], slot + codes[0].slotsUsed;
    if c != codes[0] && d != codes[0] {
      SlotCoveredOnce(version, rest, next, total, c, d, s);
    } else if c != codes[0] {
      TiledInside(version, rest, next, total, c);
    } else if d != codes[0] {
      TiledInside(version, rest, next, total, d);
    }
  }

  lemma U16Same(a: seq<byte>, b: seq<byte>, at: nat, value: nat)
    requires HoldsU16(a, at, value) && HoldsU16(b, at, value)
    ensures a[at] == b[at] && a[at + 1] == b[at + 1]
  {
  }

  lemma U32Same(a: seq<byte>, b: seq<byte>, at: nat, value: nat)
    requires HoldsU32(a, at, value) && HoldsU32(b, at, value)
    ensures a[at] == b[at] && a[at + 1] == b[at + 1] && a[at + 2] == b[at + 2] && a[at + 3] == b[at + 3]
  {
    hide Word16;
    var la, ha := Word16(a[at], a[at + 1]), Word16(a[at + 2], a[at + 3]);
    var lb, hb := Word16(b[at], b[at + 1]), Word16(b[at + 2], b[at + 3]);
    Word16Range(a[at], a[at + 1]);
    Word16Range(b[at], b[at + 1]);
    assert la + 0x1_0000 * ha == lb + 0x1_0000 * hb;
    U16Same(a, b, at, la);
    U16Same(a, b, at + 2, ha);
  }

  lemma Word16Range(lo: byte, hi: byte)
    ensures 0 <= Word16(lo, hi) < 0x1_0000
  {
  }

  /** Byte `k` of the slots of `c` is one the operation gives a meaning to. */
  predicate ReadBy(c: UnwindCode, k: nat) {
    c.operation.Epilog? ==> k < 2 || (c.operationInfo == 0 && k == 2)
  }

  /** Two encodings of the same operation agree on every byte it reads. */
  lemma HeldCodesAgree(version: byte, a: seq<byte>, b: seq<byte>, c: UnwindCode, k: nat)
    requires ValidCode(version, c) && HoldsCode(a, c) && HoldsCode(b, c) && k < 2 * c.slotsUsed && ReadBy(c, k)
    ensures a[SlotOffset(c.slotIndex) + k] == b[SlotOffset(c.slotIndex) + k]
  {
    hide HoldsU16, HoldsU32, SlotOffset;
    var at := SlotOffset(c.slotIndex);
    match c.operation
    case AllocLarge(size) =>
      if c.operationInfo == 0 { U16Same(a, b, at + 2, size / 8); } else { U32Same(a, b, at + 2, size); }
    case SaveNonVol(_, offset) => U16Same(a, b, at + 2, offset / 8);
    case SaveNonVolFar(_, offset) => U32Same(a, b, at + 2, offset);
    case Spare(payload) => U32Same(a, b, at + 2, payload);
    case SaveXmm128(_, offset) => U16Same(a, b, at + 2, offset / 16);
    case SaveXmm128Far(_, offset) => U32Same(a, b, at + 2, offset);
    case _ =>
  }

  /** Parsing to the same record forces agreement everywhere the parser looks. */
  lemma ParsedAgree(info: UnwindInfo, a: seq<byte>, b: seq<byte>, i: nat)
    requires Valid(info) && Encodes(a, info) && Encodes(b, info)
    requires i < FixedSize(info) && FixedSize(info) <= |a| && FixedSize(info) <= |b|
    ensures SameAt(info, a, b, i)
  {
    hide Tiles, HoldsCode, ValidCode, HeaderAccepted, InEpilogSlot;
    if HEADER_SIZE <= i < SlotOffset(info.codeSlots) {
      CodesAgree(info, a, b, i);
    } else if info.tailOffset <= i {
      TailsAgree(info.tail, a, b, info.tailOffset, i);
    }
  }

  lemma TailsAgree(tail: Tail, a: seq<byte>, b: seq<byte>, at: nat, i: nat)
    requires HoldsTail(a, at, tail) && HoldsTail(b, at, tail)
    requires at <= i < at + TailSize(tail) && i < |a| && i < |b|
    ensures a[i] == b[i]
  {
    hide HoldsU32;
    match tail
    case NoTail =>
    case Handler(rva, _) => U32Same(a, b, at, rva);
    case Chained(f) =>
      U32Same(a, b, at, f.beginRva);
      U32Same(a, b, at + 4, f.endRva);
      U32Same(a, b, at + 8, f.unwindInfoRva);
  }

  lemma CodesAgree(info: UnwindInfo, a: seq<byte>, b: seq<byte>, i: nat)
    requires Tiles(info.version, info.codes, 0, info.codeSlots)
    requires forall c :: c in info.codes ==> HoldsCode(a, c) && HoldsCode(b, c)
    requires HEADER_SIZE <= i < SlotOffset(info.codeSlots) && i < |a| && i < |b|
    ensures SameAt(info, a, b, i)
  {
    hide HoldsCode, Tiles;
    var s := (i - HEADER_SIZE) / 2;
    var c := SlotCovered(info.version, info.codes, 0, info.codeSlots, s);
    TiledInside(info.version, info.codes, 0, info.codeSlots, c);
    var k := i - SlotOffset(c.slotIndex);
    if ReadBy(c, k) {
      HeldCodesAgree(info.version, a, b, c, k);
    } else {
      EpilogPacked(info.version, a, b, c);
      assert EpilogSlot(c) <= i < EpilogSlot(c) + 2;
    }
  }

  lemma EpilogPacked(version: byte, a: seq<byte>, b: seq<byte>, c: UnwindCode)
    requires ValidCode(version, c) && c.operation.Epilog? && HoldsCode(a, c) && HoldsCode(b, c)
    ensures c.slotsUsed == 2 && (c.operationInfo == 0 || c.operationInfo == 1)
    ensures c.operationInfo == 0 ==> a[EpilogSlot(c) + 1] / 16 == b[EpilogSlot(c) + 1] / 16
  {
  }

  /** Changing only what the parser ignores leaves an encoding of the same record. */
  lemma AgreedHeld(info: UnwindInfo, a: seq<byte>, b: seq<byte>, c: UnwindCode)
    requires Valid(info) && c in info.codes && HoldsCode(a, c)
    requires SlotOffset(info.codeSlots) <= |a| && SlotOffset(info.codeSlots) <= |b|
    requires forall i :: 0 <= i < SlotOffset(info.codeSlots) ==> SameAt(info, a, b, i)
    ensures HoldsCode(b, c)
  {
    hide Tiles, HeaderAccepted, HoldsCode, Ignored, HighOnly, ValidCode, SameAt;
    TiledInside(info.version, info.codes, 0, info.codeSlots, c);
    var at := SlotOffset(c.slotIndex);
    forall k | 0 <= k < 2 * c.slotsUsed && ReadBy(c, k) ensures a[at + k] == b[at + k] {
      assert SameAt(info, a, b, at + k);
      ReadIsExact(info, c, k);
      SameExact(info, a, b, at + k);
    }
    if c.operation.Epilog? && c.operationInfo == 0 {
      EpilogSize(info.version, c);
      assert SameAt(info, a, b, at + 3);
      PackedIsHigh(info, a, b, c);
    }
    HoldsFromBytes(info.version, a, b, c);
  }

  lemma SameExact(info: UnwindInfo, a: seq<byte>, b: seq<byte>, i: nat)
    requires i < |a| && i < |b| && SameAt(info, a, b, i) && !Ignored(info, i) && !HighOnly(info, i)
    ensures a[i] == b[i]
  {
  }

  /** A byte that `c` reads is neither ignored nor half ignored, because no other operation covers it. */
  lemma ReadIsExact(info: UnwindInfo, c: UnwindCode, k: nat)
    requires Valid(info) && c in info.codes && k < 2 * c.slotsUsed && ReadBy(c, k)
    ensures !Ignored(info, SlotOffset(c.slotIndex) + k) && !HighOnly(info, SlotOffset(c.slotIndex) + k)
  {
    hide Tiles, HeaderAccepted;
    TiledInside(info.version, info.codes, 0, info.codeSlots, c);
    var i := SlotOffset(c.slotIndex) + k;
    var s := c.slotIndex + k / 2;
    forall d | d in info.codes && d.operation.Epilog? && EpilogSlot(d) <= i < EpilogSlot(d) + 2 ensures d == c {
      TiledInside(info.version, info.codes, 0, info.codeSlots, d);
      EpilogSize(info.version, d);
      SlotCoveredOnce(info.version, info.codes, 0, info.codeSlots, c, d, s);
    }
  }

  lemma EpilogSize(version: byte, c: UnwindCode)
    requires ValidCode(version, c) && c.operation.Epilog?
    ensures c.slotsUsed == 2
  {
  }

  lemma PackedIsHigh(info: UnwindInfo, a: seq<byte>, b: seq<byte>, c: UnwindCode)
    requires Valid(info) && c in info.codes && c.operation.Epilog? && c.operationInfo == 0
    requires EpilogSlot(c) + 1 < |a| && EpilogSlot(c) + 1 < |b| && SameAt(info, a, b, EpilogSlot(c) + 1)
    ensures a[EpilogSlot(c) + 1] / 16 == b[EpilogSlot(c) + 1] / 16
  {
    hide Tiles, HeaderAccepted;
    TiledInside(info.version, info.codes, 0, info.codeSlots, c);
    EpilogSize(info.version, c);
    var i, s := EpilogSlot(c) + 1, c.slotIndex + 1;
    forall d | d in info.codes && d.operation.Epilog? && EpilogSlot(d) <= i < EpilogSlot(d) + 2 ensures d == c {
      TiledInside(info.version, info.codes, 0, info.codeSlots, d);
      EpilogSize(info.version, d);
      SlotCoveredOnce(info.version, info.codes, 0, info.codeSlots, c, d, s);
    }
  }

  /** Holding an operation depends only on the bytes it reads. */
  lemma HoldsFromBytes(version: byte, a: seq<byte>, b: seq<byte>, c: UnwindCode)
    requires ValidCode(version, c) && HoldsCode(a, c) && SlotOffset(c.slotIndex) + 2 * c.slotsUsed <= |b|
    requires forall k :: 0 <= k < 2 * c.slotsUsed && ReadBy(c, k) ==>
      a[SlotOffset(c.slotIndex) + k] == b[SlotOffset(c.slotIndex) + k]
    requires c.operation.Epilog? && c.operationInfo == 0 ==>
      a[SlotOffset(c.slotIndex) + 3] / 16 == b[SlotOffset(c.slotIndex) + 3] / 16
    ensures HoldsCode(b, c)
  {
    var at := SlotOffset(c.slotIndex);
    assert ReadBy(c, 0) && ReadBy(c, 1);
    if c.slotsUsed >= 2 && !c.operation.Epilog? {
      assert ReadBy(c, 2) && ReadBy(c, 3);
    }
    if c.slotsUsed == 3 {
      assert ReadBy(c, 4) && ReadBy(c, 5);
    }
    if c.operation.Epilog? && c.operationInfo == 0 {
      assert ReadBy(c, 2);
    }
  }

  /**
   * Injectivity up to what is ignored: with `a` parsed to `info`, another record parses to `info`
   * exactly when it is long enough and agrees with `a` at every byte as far as the parser looks.
   */
  lemma Kernel(info: UnwindInfo, a: seq<byte>, b: seq<byte>)
    requires Parse(a) == Some(info)
    ensures FixedSize(info) <= |a|
    ensures Parse(b) == Some(info) <==>
      FixedSize(info) <= |b| && forall i :: 0 <= i < FixedSize(info) ==> SameAt(info, a, b, i)
  {
    hide Parse, Valid, FixedSize;
    ParseIff(a, info);
    ParseIff(b, info);
    EncodedSize(a, info);
    if Encodes(b, info) {
      EncodedSize(b, info);
      forall i | 0 <= i < FixedSize(info) ensures SameAt(info, a, b, i) {
        ParsedAgree(info, a, b, i);
      }
    }
    if FixedSize(info) <= |b| && forall i :: 0 <= i < FixedSize(info) ==> SameAt(info, a, b, i) {
      AgreedEncodes(info, a, b);
    }
  }

  lemma AgreedEncodes(info: UnwindInfo, a: seq<byte>, b: seq<byte>)
    requires Valid(info) && Encodes(a, info) && FixedSize(info) <= |a| && FixedSize(info) <= |b|
    requires forall i :: 0 <= i < FixedSize(info) ==> SameAt(info, a, b, i)
    ensures Encodes(b, info)
  {
    hide Tiles, HoldsCode, HeaderAccepted, SameAt, HoldsU32;
    forall c | c in info.codes ensures HoldsCode(b, c) {
      AgreedHeld(info, a, b, c);
    }
    forall i | (0 <= i < HEADER_SIZE || info.tailOffset <= i) && i < FixedSize(info) ensures a[i] == b[i] {
      assert SameAt(info, a, b, i);
      OutsideCodes(info, i);
      SameExact(info, a, b, i);
    }
    TailFromBytes(info.tail, a, b, info.tailOffset);
  }

  lemma TailFromBytes(tail: Tail, a: seq<byte>, b: seq<byte>, at: nat)
    requires HoldsTail(a, at, tail) && at + TailSize(tail) <= |a| && at + TailSize(tail) <= |b|
    requires forall i :: at <= i < at + TailSize(tail) ==> a[i] == b[i]
    ensures HoldsTail(b, at, tail)
  {
  }

  lemma OutsideCodes(info: UnwindInfo, i: nat)
    requires Valid(info) && (i < HEADER_SIZE || info.tailOffset <= i)
    ensures !Ignored(info, i) && !HighOnly(info, i)
  {
    hide Tiles, HeaderAccepted;
    forall c | c in info.codes && c.operation.Epilog? ensures !(EpilogSlot(c) <= i < EpilogSlot(c) + 2) {
      TiledInside(info.version, info.codes, 0, info.codeSlots, c);
      EpilogSize(info.version, c);
    }
  }
}
