/** The AMD64 unwind record as the platform describes it: flags, operation codes and their slots in one table. */
module UnwindFormat {
  import opened Prelude
  import opened Unwind

  /** The three known flags: exception handler, termination handler, chained record. */
  datatype Flags = Flags(exception: bool, termination: bool, chained: bool)
  {
    function Bits(): byte {
      (if exception then 1 else 0) + (if termination then 2 else 0) + (if chained then 4 else 0)
    }

    predicate Handled() { exception || termination }
  }

  /** One operation of a record: its number, what its info field says and how many slots it takes. */
  predicate InTable(version: byte, c: UnwindCode) {
    && c.operationInfo < 16
    && match c.operation
       case PushNonVol(register) => c.operationCode == 0 && c.slotsUsed == 1 && c.operationInfo == register
       case AllocLarge(size) =>
         && c.operationCode == 1
         && ((c.operationInfo == 0 && c.slotsUsed == 2 && size % 8 == 0 && size / 8 < 0x1_0000)
             || (c.operationInfo == 1 && c.slotsUsed == 3))
       case AllocSmall(size) => c.operationCode == 2 && c.slotsUsed == 1 && size == 8 * (c.operationInfo + 1)
       case SetFpReg => c.operationCode == 3 && c.slotsUsed == 1 && c.operationInfo == 0
       case SaveNonVol(register, offset) =>
         && c.operationCode == 4 && c.slotsUsed == 2 && c.operationInfo == register
         && offset % 8 == 0 && offset / 8 < 0x1_0000
       case SaveNonVolFar(register, _) => c.operationCode == 5 && c.slotsUsed == 3 && c.operationInfo == register
       case Epilog(size, offset) =>
         && version == 2 && c.operationCode == 6 && c.slotsUsed == 2 && size == c.codeOffset
         && ((c.operationInfo == 0 && offset < 0x1000) || (c.operationInfo == 1 && offset == c.codeOffset))
       case Spare(_) => version == 2 && c.operationCode == 7 && c.slotsUsed == 3
       case SaveXmm128(register, offset) =>
         && c.operationCode == 8 && c.slotsUsed == 2 && c.operationInfo == register
         && offset % 16 == 0 && offset / 16 < 0x1_0000
       case SaveXmm128Far(register, _) => c.operationCode == 9 && c.slotsUsed == 3 && c.operationInfo == register
       case PushMachFrame(hasErrorCode) =>
         c.operationCode == 10 && c.slotsUsed == 1 && c.operationInfo == if hasErrorCode then 1 else 0
  }

  /** The operations a record can have are those of the table. */
  lemma ValidCodeIff(version: byte, c: UnwindCode)
    ensures ValidCode(version, c) <==> InTable(version, c)
  {
  }

  lemma FlagsOf(flags: byte) returns (f: Flags)
    requires flags < 8
    ensures f.Bits() == flags && f.Handled() == HasHandler(flags) && f.chained == IsChained(flags)
  {
    f := Flags(flags % 2 == 1, flags / 2 % 2 == 1, flags / 4 == 1);
  }

  lemma BitsMean(f: Flags)
    ensures f.Bits() < 8 && HasHandler(f.Bits()) == f.Handled() && IsChained(f.Bits()) == f.chained
  {
  }

  /**
   * A header is accepted exactly when its version is known, its flags are, a chained record names no
   * handler, and there is no frame offset without a frame register.
   */
  lemma HeaderIff(version: byte, flags: byte, register: byte, frameOffset: byte)
    ensures HeaderAccepted(version, flags, register, frameOffset) <==>
      && version in {1, 2}
      && (exists f: Flags :: flags == f.Bits() && !(f.Handled() && f.chained))
      && (frameOffset > 0 ==> register > 0)
  {
    if flags < 8 {
      var f := FlagsOf(flags);
    }
    forall f: Flags | flags == f.Bits() ensures flags < 8 && HasHandler(flags) == f.Handled() && IsChained(flags) == f.chained {
      BitsMean(f);
    }
  }

  /**
   * What a parsed record says of itself: a handler follows exactly when one of the two handler flags is
   * set, the record it continues exactly when it is chained, and every operation is one of the table, in
   * slots of its own from the first to the last.
   */
  lemma ParsedRecord(bytes: seq<byte>, info: UnwindInfo) returns (f: Flags)
    requires Parse(bytes) == Some(info)
    ensures info.flags == f.Bits() && !(f.Handled() && f.chained)
    ensures info.tail.Handler? <==> f.Handled()
    ensures info.tail.Chained? <==> f.chained
    ensures forall c :: c in info.codes ==> InTable(info.version, c)
    ensures Covered(info.codes, 0, info.codeSlots)
  {
    ParseIff(bytes, info);
    hide Parse, Encodes, ValidCode, InTable;
    f := FlagsOf(info.flags);
    TilesCovered(info.version, info.codes, 0, info.codeSlots);
  }

  /** The operations take the slots `from..to`, one after another. */
  predicate Covered(codes: seq<UnwindCode>, from: nat, to: nat) {
    if codes == [] then from == to
    else codes[0].slotIndex == from && Covered(codes[1..], from + codes[0].slotsUsed, to)
  }

  lemma {:induction false} TilesCovered(version: byte, codes: seq<UnwindCode>, slot: nat, total: nat)
    requires Tiles(version, codes, slot, total)
    ensures Covered(codes, slot, total)
    ensures forall c :: c in codes ==> InTable(version, c)
    decreases |codes|
  {
    hide ValidCode, InTable;
    if codes != [] {
      ValidCodeIff(version, codes[0]);
      TilesCovered(version, codes[1..], slot + codes[0].slotsUsed, total);
      assert codes == [codes[0]] + codes[1..];
    }
  }
}
