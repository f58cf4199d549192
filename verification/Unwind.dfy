/** AMD64 UNWIND_INFO records, versions 1 and 2: parser, format and canonical encoder. */
module Unwind {
  import opened Prelude
  import opened AddressSpaces

  const HEADER_SIZE := 4
  const RUNTIME_FUNCTION_SIZE := 12
  const MAX_FIXED_BYTES := 528

  // `flags` is a five-bit field; the low three bits are the known ones.
  predicate HasHandler(flags: byte) { flags % 4 != 0 }
  predicate IsChained(flags: byte) { (flags / 4) % 2 == 1 }
  predicate KnownFlags(flags: byte) { flags < 8 }

  datatype Operation =
    | PushNonVol(register: byte)
    | AllocLarge(size: u32)
    | AllocSmall(smallSize: nat)
    | SetFpReg
    | SaveNonVol(register: byte, stackOffset: u32)
    | SaveNonVolFar(register: byte, stackOffset: u32)
    | Epilog(epilogSize: byte, offsetFromFunctionEnd: nat)
    | Spare(payload: u32)
    | SaveXmm128(register: byte, stackOffset: u32)
    | SaveXmm128Far(register: byte, stackOffset: u32)
    | PushMachFrame(hasErrorCode: bool)

  datatype UnwindCode = UnwindCode(
    slotIndex: nat,
    codeOffset: byte,
    operationCode: byte,
    operationInfo: byte,
    slotsUsed: nat,
    operation: Operation)

  datatype ChainedFunction = ChainedFunction(beginRva: u32, endRva: u32, unwindInfoRva: u32)

  datatype Tail =
    | NoTail
    | Handler(handlerRva: u32, handlerDataOffset: nat)
    | Chained(runtimeFunction: ChainedFunction)

  datatype UnwindInfo = UnwindInfo(
    version: byte,
    flags: byte,
    prologSize: byte,
    codeSlots: byte,
    frameRegister: Option<byte>,
    frameOffset: byte,
    frameOffsetBytes: nat,
    codes: seq<UnwindCode>,
    tailOffset: nat,
    tail: Tail)

  // ---------------------------------------------------------------- reading

  function ByteAt(bytes: seq<byte>, offset: nat): Option<byte> {
    if offset < |bytes| then Some(bytes[offset]) else None
  }

  function ReadU16(bytes: seq<byte>, offset: nat): (r: Option<nat>)
    ensures r.Some? ==> r.value < 0x1_0000
  {
    if offset + 2 <= |bytes| then Some(Word16(bytes[offset], bytes[offset + 1])) else None
  }

  function ReadU32(bytes: seq<byte>, offset: nat): Option<u32> {
    if offset + 4 <= |bytes|
    then Some(Word32(bytes[offset], bytes[offset + 1], bytes[offset + 2], bytes[offset + 3]))
    else None
  }

  function SlotOffset(slot: nat): nat { HEADER_SIZE + 2 * slot }

  /** `unwind_code_u32`: two consecutive 16-bit slots, low half first. */
  function SlotU32(bytes: seq<byte>, slot: nat): Option<u32> {
    var low, high := ReadU16(bytes, SlotOffset(slot)), ReadU16(bytes, SlotOffset(slot + 1));
    if low.None? || high.None? then None else Some(low.value + 0x1_0000 * high.value)
  }

  function AlignToDword(value: nat): (r: nat)
    ensures value <= r < value + 4 && r % 4 == 0
  {
    (value + 3) / 4 * 4
  }

  /** Number of slots an operation occupies, or `None` where the encoding is reserved. */
  function CodeSlots(version: byte, code: byte, info: byte): Option<nat> {
    match code
    case 0 => Some(1)
    case 1 => if info == 0 then Some(2) else if info == 1 then Some(3) else None
    case 2 => Some(1)
    case 3 => if info == 0 then Some(1) else None
    case 4 => Some(2)
    case 5 => Some(3)
    case 6 => if version == 2 && info <= 1 then Some(2) else None
    case 7 => if version == 2 then Some(3) else None
    case 8 => Some(2)
    case 9 => Some(3)
    case 10 => if info <= 1 then Some(1) else None
    case _ => None
  }

  function ParseOperation(bytes: seq<byte>, slot: nat, code: byte, info: byte, offset: byte): Option<Operation> {
    var half := ReadU16(bytes, SlotOffset(slot + 1));
    var full := SlotU32(bytes, slot + 1);
    match code
    case 0 => Some(PushNonVol(info))
    case 1 =>
      if info == 0 then (if half.None? then None else Some(AllocLarge(half.value * 8)))
      else if full.None? then None else Some(AllocLarge(full.value))
    case 2 => Some(AllocSmall(info * 8 + 8))
    case 3 => Some(SetFpReg)
    case 4 => if half.None? then None else Some(SaveNonVol(info, half.value * 8))
    case 5 => if full.None? then None else Some(SaveNonVolFar(info, full.value))
    case 6 =>
      var next := ByteAt(bytes, SlotOffset(slot + 1));
      var nextPacked := ByteAt(bytes, SlotOffset(slot + 1) + 1);
      if next.None? || nextPacked.None? then None
      else Some(Epilog(offset, if info == 0 then nextPacked.value / 16 * 0x100 + next.value else offset))
    case 7 => if full.None? then None else Some(Spare(full.value))
    case 8 => if half.None? then None else Some(SaveXmm128(info, half.value * 16))
    case 9 => if full.None? then None else Some(SaveXmm128Far(info, full.value))
    case 10 => Some(PushMachFrame(info == 1))
    case _ => None
  }

  /** `parse_unwind_code`: the operation that starts at `slot`. */
  function ParseCode(bytes: seq<byte>, version: byte, slot: nat, total: nat): Option<UnwindCode> {
    var offset := ByteAt(bytes, SlotOffset(slot));
    var packed := ByteAt(bytes, SlotOffset(slot) + 1);
    if offset.None? || packed.None? then None
    else
      var code, info := packed.value % 16, packed.value / 16;
      var used := CodeSlots(version, code, info);
      if used.None? || slot + used.value > total || slot >= 256 then None
      else
        var operation := ParseOperation(bytes, slot, code, info, offset.value);
        if operation.None? then None
        else Some(UnwindCode(slot, offset.value, code, info, used.value, operation.value))
  }

  lemma CodeAdvances(bytes: seq<byte>, version: byte, slot: nat, total: nat)
    requires ParseCode(bytes, version, slot, total).Some?
    ensures ParseCode(bytes, version, slot, total).value.slotsUsed >= 1
    ensures slot + ParseCode(bytes, version, slot, total).value.slotsUsed <= total
  {
  }

  /** All operations from `slot` to the end of the slot array. */
  function ParseCodes(bytes: seq<byte>, version: byte, slot: nat, total: nat): Option<seq<UnwindCode>>
    decreases total - slot
  {
    if slot >= total then Some([])
    else
      var code := ParseCode(bytes, version, slot, total);
      if code.None? then None
      else
        var rest := ParseCodes(bytes, version, slot + code.value.slotsUsed, total);
        if rest.None? then None else Some([code.value] + rest.value)
  }

  function ParseTail(bytes: seq<byte>, flags: byte, at: nat): Option<Tail> {
    if IsChained(flags) then
      var begin, end, unwind := ReadU32(bytes, at), ReadU32(bytes, at + 4), ReadU32(bytes, at + 8);
      if begin.None? || end.None? || unwind.None? then None
      else Some(Chained(ChainedFunction(begin.value, end.value, unwind.value)))
    else if HasHandler(flags) then
      var handler := ReadU32(bytes, at);
      if handler.None? then None else Some(Handler(handler.value, at + 4))
    else Some(NoTail)
  }

  /** The checks `parse_unwind_info` makes on the four header bytes. */
  predicate HeaderAccepted(version: byte, flags: byte, register: byte, frameOffset: byte) {
    && (version == 1 || version == 2)
    && KnownFlags(flags)
    && !(HasHandler(flags) && IsChained(flags))
    && !(register == 0 && frameOffset != 0)
  }

  function Parse(bytes: seq<byte>): Option<UnwindInfo> {
    if |bytes| < HEADER_SIZE then None
    else
      var version, flags := bytes[0] % 8, bytes[0] / 8;
      var register, frameOffset := bytes[3] % 16, bytes[3] / 16;
      var tailOffset := AlignToDword(SlotOffset(bytes[2]));
      if !HeaderAccepted(version, flags, register, frameOffset) || |bytes| < tailOffset then None
      else
        var codes := ParseCodes(bytes, version, 0, bytes[2]);
        var tail := ParseTail(bytes, flags, tailOffset);
        if codes.None? || tail.None? then None
        else Some(UnwindInfo(
          version, flags, bytes[1], bytes[2],
          if register != 0 then Some(register) else None,
          frameOffset, frameOffset * 16, codes.value, tailOffset, tail.value))
  }

  /** The loop of `parse_unwind_info` over the slot array. */
  method ParseSlots(bytes: seq<byte>, version: byte, total: nat) returns (r: Option<seq<UnwindCode>>)
    ensures r == ParseCodes(bytes, version, 0, total)
  {
    hide ParseCode;
    var codes: seq<UnwindCode>, slot := [], 0;
    ghost var all := ParseCodes(bytes, version, 0, total);
    assert all.Some? ==> [] + all.value == all.value;
    while slot < total
      invariant slot <= total
      invariant
        var rest := ParseCodes(bytes, version, slot, total);
        all == if rest.None? then None else Some(codes + rest.value)
      decreases total - slot
    {
      var code := ParseCode(bytes, version, slot, total);
      if code.None? {
        return None;
      }
      CodeAdvances(bytes, version, slot, total);
      ghost var rest := ParseCodes(bytes, version, slot + code.value.slotsUsed, total);
      assert rest.Some? ==> codes + ([code.value] + rest.value) == (codes + [code.value]) + rest.value;
      codes := codes + [code.value];
      slot := slot + code.value.slotsUsed;
    }
    assert codes + [] == codes;
    r := Some(codes);
  }

  /** `parse_unwind_info`. */
  method ParseUnwindInfo(bytes: seq<byte>) returns (r: Option<UnwindInfo>)
    ensures r == Parse(bytes)
  {
    hide ParseCodes, ParseTail;
    if |bytes| < HEADER_SIZE {
      return None;
    }
    var version, flags := bytes[0] % 8, bytes[0] / 8;
    if !(version == 1 || version == 2) || !KnownFlags(flags) {
      return None;
    }
    if HasHandler(flags) && IsChained(flags) {
      return None;
    }
    var register, frameOffset := bytes[3] % 16, bytes[3] / 16;
    if register == 0 && frameOffset != 0 {
      return None;
    }
    var tailOffset := AlignToDword(SlotOffset(bytes[2]));
    if |bytes| < tailOffset {
      return None;
    }
    var codes := ParseSlots(bytes, version, bytes[2]);
    if codes.None? {
      return None;
    }
    var tail := ParseTail(bytes, flags, tailOffset);
    if tail.None? {
      return None;
    }
    r := Some(UnwindInfo(
      version, flags, bytes[1], bytes[2],
      if register != 0 then Some(register) else None,
      frameOffset, frameOffset * 16, codes.value, tailOffset, tail.value));
  }

  // ---------------------------------------------------------------- the format

  /** The in-memory operation is one that its own code and info fields can denote. */
  predicate OperationFits(c: UnwindCode) {
    match c.operation
    case PushNonVol(register) => c.operationCode == 0 && register == c.operationInfo
    case AllocLarge(size) =>
      c.operationCode == 1 && (c.operationInfo == 0 ==> size % 8 == 0 && size < 8 * 0x1_0000)
    case AllocSmall(size) => c.operationCode == 2 && size == c.operationInfo * 8 + 8
    case SetFpReg => c.operationCode == 3
    case SaveNonVol(register, offset) =>
      c.operationCode == 4 && register == c.operationInfo && offset % 8 == 0 && offset < 8 * 0x1_0000
    case SaveNonVolFar(register, _) => c.operationCode == 5 && register == c.operationInfo
    case Epilog(size, offset) =>
      && c.operationCode == 6 && size == c.codeOffset
      && (if c.operationInfo == 0 then offset < 0x1000 else offset == c.codeOffset)
    case Spare(_) => c.operationCode == 7
    case SaveXmm128(register, offset) =>
      c.operationCode == 8 && register == c.operationInfo && offset % 16 == 0 && offset < 16 * 0x1_0000
    case SaveXmm128Far(register, _) => c.operationCode == 9 && register == c.operationInfo
    case PushMachFrame(hasErrorCode) => c.operationCode == 10 && (hasErrorCode <==> c.operationInfo == 1)
  }

  predicate ValidCode(version: byte, c: UnwindCode) {
    && c.operationInfo < 16
    && CodeSlots(version, c.operationCode, c.operationInfo) == Some(c.slotsUsed)
    && OperationFits(c)
  }

  /** The operations cover slots `slot..total` in order, without gap or overlap. */
  predicate Tiles(version: byte, codes: seq<UnwindCode>, slot: nat, total: nat) {
    if codes == [] then slot == total
    else
      && codes[0].slotIndex == slot < total && slot < 256
      && ValidCode(version, codes[0])
      && slot + codes[0].slotsUsed <= total
      && Tiles(version, codes[1..], slot + codes[0].slotsUsed, total)
  }

  /** A well-formed record: exactly the values the parser can produce. */
  predicate Valid(info: UnwindInfo) {
    var register := if info.frameRegister.Some? then info.frameRegister.value else 0;
    && HeaderAccepted(info.version, info.flags, register, info.frameOffset)
    && (info.frameRegister.Some? ==> 1 <= register < 16)
    && info.frameOffset < 16 && info.frameOffsetBytes == info.frameOffset * 16
    && Tiles(info.version, info.codes, 0, info.codeSlots)
    && info.tailOffset == AlignToDword(SlotOffset(info.codeSlots))
    && TailFits(info.flags, info.tailOffset, info.tail)
  }

  predicate TailFits(flags: byte, at: nat, tail: Tail) {
    match tail
    case NoTail => !HasHandler(flags) && !IsChained(flags)
    case Handler(_, dataOffset) => HasHandler(flags) && !IsChained(flags) && dataOffset == at + 4
    case Chained(_) => IsChained(flags)
  }

  /** Byte `at` holds the low and `at + 1` the high half of a 16-bit value. */
  predicate HoldsU16(bytes: seq<byte>, at: nat, value: nat) {
    at + 2 <= |bytes| && value == Word16(bytes[at], bytes[at + 1])
  }

  predicate HoldsU32(bytes: seq<byte>, at: nat, value: nat) {
    at + 4 <= |bytes| && value == Word32(bytes[at], bytes[at + 1], bytes[at + 2], bytes[at + 3])
  }

  /** The slots of `c` as they lie on disk; an epilog's second slot is only partly significant. */
  predicate HoldsCode(bytes: seq<byte>, c: UnwindCode) {
    var at := SlotOffset(c.slotIndex);
    && at + 2 * c.slotsUsed <= |bytes|
    && at + 2 <= |bytes|
    && bytes[at] == c.codeOffset
    && bytes[at + 1] == c.operationCode + 16 * c.operationInfo
    && match c.operation
       case AllocLarge(size) =>
         if c.operationInfo == 0 then HoldsU16(bytes, at + 2, size / 8) else HoldsU32(bytes, at + 2, size)
       case SaveNonVol(_, offset) => HoldsU16(bytes, at + 2, offset / 8)
       case SaveNonVolFar(_, offset) => HoldsU32(bytes, at + 2, offset)
       case Epilog(_, offset) =>
         at + 4 <= |bytes| && (c.operationInfo == 0 ==> bytes[at + 2] == offset % 0x100 && bytes[at + 3] / 16 == offset / 0x100)
       case Spare(payload) => HoldsU32(bytes, at + 2, payload)
       case SaveXmm128(_, offset) => HoldsU16(bytes, at + 2, offset / 16)
       case SaveXmm128Far(_, offset) => HoldsU32(bytes, at + 2, offset)
       case _ => true
  }

  predicate HoldsTail(bytes: seq<byte>, at: nat, tail: Tail) {
    match tail
    case NoTail => true
    case Handler(rva, _) => HoldsU32(bytes, at, rva)
    case Chained(f) =>
      HoldsU32(bytes, at, f.beginRva) && HoldsU32(bytes, at + 4, f.endRva) && HoldsU32(bytes, at + 8, f.unwindInfoRva)
  }

  /** `bytes` start with an encoding of `info`. */
  predicate Encodes(bytes: seq<byte>, info: UnwindInfo) {
    && HEADER_SIZE <= |bytes| && info.tailOffset <= |bytes|
    && bytes[0] == info.version + 8 * info.flags
    && bytes[1] == info.prologSize
    && bytes[2] == info.codeSlots
    && bytes[3] == (if info.frameRegister.Some? then info.frameRegister.value else 0) + 16 * info.frameOffset
    && (forall c :: c in info.codes ==> HoldsCode(bytes, c))
    && HoldsTail(bytes, info.tailOffset, info.tail)
  }

  // ---------------------------------------------------------------- the parser reads exactly the format

  /** The first slot of `c` and the room for the others. */
  predicate HoldsHead(bytes: seq<byte>, version: byte, c: UnwindCode) {
    && c.operationCode < 16 && c.operationInfo < 16
    && CodeSlots(version, c.operationCode, c.operationInfo) == Some(c.slotsUsed)
    && SlotOffset(c.slotIndex) + 2 * c.slotsUsed <= |bytes|
    && SlotOffset(c.slotIndex) + 2 <= |bytes|
    && bytes[SlotOffset(c.slotIndex)] == c.codeOffset
    && bytes[SlotOffset(c.slotIndex) + 1] == c.operationCode + 16 * c.operationInfo
  }

  /** The payload of one operation, given that its slots are available. */
  lemma OperationIff(bytes: seq<byte>, version: byte, c: UnwindCode)
    requires HoldsHead(bytes, version, c)
    ensures ParseOperation(bytes, c.slotIndex, c.operationCode, c.operationInfo, c.codeOffset) == Some(c.operation) <==>
      OperationFits(c) && HoldsCode(bytes, c)
  {
    if c.operationCode == 1 {
    } else if c.operationCode == 4 || c.operationCode == 8 {
    } else if c.operationCode == 5 || c.operationCode == 7 || c.operationCode == 9 {
    } else if c.operationCode == 6 {
    }
  }

  /** One operation: parsing it and holding it are the same thing. */
  lemma CodeIff(bytes: seq<byte>, version: byte, slot: nat, total: nat, c: UnwindCode)
    requires slot < total < 256 && SlotOffset(total) <= |bytes|
    ensures ParseCode(bytes, version, slot, total) == Some(c) <==>
      ValidCode(version, c) && c.slotIndex == slot && slot + c.slotsUsed <= total && HoldsCode(bytes, c)
  {
    hide ParseOperation, OperationFits, CodeSlots, HoldsCode;
    HeldHead(bytes, version, c);
    if ParseCode(bytes, version, slot, total) == Some(c) {
      assert HoldsHead(bytes, version, c);
    }
    if c.slotIndex == slot && slot + c.slotsUsed <= total && HoldsHead(bytes, version, c) {
      OperationIff(bytes, version, c);
    }
  }

  lemma HeldHead(bytes: seq<byte>, version: byte, c: UnwindCode)
    ensures ValidCode(version, c) && HoldsCode(bytes, c) ==> HoldsHead(bytes, version, c)
  {
  }

  lemma {:induction false} CodesParsed(bytes: seq<byte>, version: byte, slot: nat, total: nat, codes: seq<UnwindCode>)
    requires slot <= total < 256 && SlotOffset(total) <= |bytes|
    requires ParseCodes(bytes, version, slot, total) == Some(codes)
    ensures Tiles(version, codes, slot, total) && forall c :: c in codes ==> HoldsCode(bytes, c)
    decreases total - slot
  {
    if slot < total {
      CodeIff(bytes, version, slot, total, codes[0]);
      CodesParsed(bytes, version, slot + codes[0].slotsUsed, total, codes[1..]);
      assert codes == [codes[0]] + codes[1..];
    }
  }

  lemma {:induction false} CodesHeld(bytes: seq<byte>, version: byte, slot: nat, total: nat, codes: seq<UnwindCode>)
    requires slot <= total < 256 && SlotOffset(total) <= |bytes|
    requires Tiles(version, codes, slot, total) && forall c :: c in codes ==> HoldsCode(bytes, c)
    ensures ParseCodes(bytes, version, slot, total) == Some(codes)
    decreases total - slot
  {
    hide HoldsCode, ParseCode, OperationFits;
    if codes != [] {
      CodeIff(bytes, version, slot, total, codes[0]);
      CodesHeld(bytes, version, slot + codes[0].slotsUsed, total, codes[1..]);
      assert codes == [codes[0]] + codes[1..];
    }
  }

  lemma TailIff(bytes: seq<byte>, flags: byte, at: nat, tail: Tail)
    ensures ParseTail(bytes, flags, at) == Some(tail) <==> TailFits(flags, at, tail) && HoldsTail(bytes, at, tail)
  {
  }

  lemma CodesIff(bytes: seq<byte>, version: byte, total: nat, codes: seq<UnwindCode>)
    requires total < 256 && SlotOffset(total) <= |bytes|
    ensures ParseCodes(bytes, version, 0, total) == Some(codes) <==>
      Tiles(version, codes, 0, total) && forall c :: c in codes ==> HoldsCode(bytes, c)
  {
    hide HoldsCode;
    if ParseCodes(bytes, version, 0, total) == Some(codes) {
      CodesParsed(bytes, version, 0, total, codes);
    }
    if Tiles(version, codes, 0, total) && forall c :: c in codes ==> HoldsCode(bytes, c) {
      CodesHeld(bytes, version, 0, total, codes);
    }
  }

  /** Parsing yields `info` exactly when `info` is well formed and the bytes encode it. */
  lemma ParseIff(bytes: seq<byte>, info: UnwindInfo)
    ensures Parse(bytes) == Some(info) <==> Valid(info) && Encodes(bytes, info)
  {
    hide ParseCodes, ParseTail, Tiles, HoldsCode, HoldsTail, TailFits;
    if HEADER_SIZE <= |bytes| && bytes[2] == info.codeSlots && info.tailOffset == AlignToDword(SlotOffset(info.codeSlots))
      && info.tailOffset <= |bytes|
    {
      CodesIff(bytes, info.version, info.codeSlots, info.codes);
      TailIff(bytes, info.flags, info.tailOffset, info.tail);
    }
  }

  // ---------------------------------------------------------------- canonical encoder

  function U16Bytes(value: nat): (r: seq<byte>)
    requires value < 0x1_0000
    ensures |r| == 2 && HoldsU16(r, 0, value)
  {
    [value % 0x100, value / 0x100]
  }

  function U32Bytes(value: u32): (r: seq<byte>)
    ensures |r| == 4 && HoldsU32(r, 0, value)
  {
    U16Bytes(value % 0x1_0000) + U16Bytes(value / 0x1_0000)
  }

  /** What follows the first slot of an operation; bits the parser ignores are written as zero. */
  function EncodePayload(c: UnwindCode): seq<byte>
    requires OperationFits(c)
  {
    match c.operation
    case AllocLarge(size) => if c.operationInfo == 0 then U16Bytes(size / 8) else U32Bytes(size)
    case SaveNonVol(_, offset) => U16Bytes(offset / 8)
    case SaveNonVolFar(_, offset) => U32Bytes(offset)
    case Epilog(_, offset) => if c.operationInfo == 0 then [offset % 0x100, offset / 0x100 * 16] else [0, 0]
    case Spare(payload) => U32Bytes(payload)
    case SaveXmm128(_, offset) => U16Bytes(offset / 16)
    case SaveXmm128Far(_, offset) => U32Bytes(offset)
    case _ => []
  }

  function EncodeCode(version: byte, c: UnwindCode): (r: seq<byte>)
    requires ValidCode(version, c)
    ensures |r| == 2 * c.slotsUsed
  {
    [c.codeOffset, c.operationCode + 16 * c.operationInfo] + EncodePayload(c)
  }

  function EncodeCodes(version: byte, codes: seq<UnwindCode>, slot: nat, total: nat): (r: seq<byte>)
    requires Tiles(version, codes, slot, total)
    ensures |r| == 2 * (total - slot)
    decreases |codes|
  {
    if codes == [] then []
    else EncodeCode(version, codes[0]) + EncodeCodes(version, codes[1..], slot + codes[0].slotsUsed, total)
  }

  function TailSize(tail: Tail): nat {
    match tail case NoTail => 0 case Handler(_, _) => 4 case Chained(_) => RUNTIME_FUNCTION_SIZE
  }

  function EncodeTail(tail: Tail): (r: seq<byte>)
    ensures |r| == TailSize(tail)
  {
    match tail
    case NoTail => []
    case Handler(rva, _) => U32Bytes(rva)
    case Chained(f) => U32Bytes(f.beginRva) + U32Bytes(f.endRva) + U32Bytes(f.unwindInfoRva)
  }

  function EncodeHeader(info: UnwindInfo): (r: seq<byte>)
    requires Valid(info)
    ensures |r| == HEADER_SIZE
  {
    [info.version + 8 * info.flags, info.prologSize, info.codeSlots,
     (if info.frameRegister.Some? then info.frameRegister.value else 0) + 16 * info.frameOffset]
  }

  /** Size of the fixed part of a record. */
  function FixedSize(info: UnwindInfo): nat {
    info.tailOffset + TailSize(info.tail)
  }

  /** The unused slot that keeps an odd slot array DWORD aligned. */
  function Padding(slots: byte): (r: seq<byte>)
    ensures SlotOffset(slots) + |r| == AlignToDword(SlotOffset(slots))
  {
    if slots % 2 == 1 then [0, 0] else []
  }

  function Encode(info: UnwindInfo): seq<byte>
    requires Valid(info)
  {
    EncodeHeader(info)
    + EncodeCodes(info.version, info.codes, 0, info.codeSlots)
    + Padding(info.codeSlots)
    + EncodeTail(info.tail)
  }

  lemma EncodedCodeHeld(version: byte, c: UnwindCode, before: seq<byte>, after: seq<byte>)
    requires ValidCode(version, c) && |before| == SlotOffset(c.slotIndex)
    ensures HoldsCode(before + EncodeCode(version, c) + after, c)
  {
    hide U32Bytes, U16Bytes;
    var bytes := before + EncodeCode(version, c) + after;
    var at := SlotOffset(c.slotIndex);
    var payload := EncodePayload(c);
    assert forall k :: 0 <= k < |payload| ==> bytes[at + 2 + k] == payload[k];
  }

  lemma {:induction false} EncodedCodesHeld(
    version: byte, codes: seq<UnwindCode>, slot: nat, total: nat, before: seq<byte>, after: seq<byte>)
    requires Tiles(version, codes, slot, total) && |before| == SlotOffset(slot)
    ensures forall c :: c in codes ==> HoldsCode(before + EncodeCodes(version, codes, slot, total) + after, c)
    decreases |codes|
  {
    hide HoldsCode, EncodeCode;
    if codes != [] {
      var c, rest := codes[0], EncodeCodes(version, codes[1..], slot + codes[0].slotsUsed, total);
      var bytes := before + EncodeCodes(version, codes, slot, total) + after;
      assert bytes == before + EncodeCode(version, c) + (rest + after);
      assert bytes == (before + EncodeCode(version, c)) + rest + after;
      EncodedCodeHeld(version, c, before, rest + after);
      EncodedCodesHeld(version, codes[1..], slot + c.slotsUsed, total, before + EncodeCode(version, c), after);
    }
  }

  lemma EncodedTailHeld(tail: Tail, before: seq<byte>)
    ensures HoldsTail(before + EncodeTail(tail), |before|, tail)
  {
    hide U32Bytes;
  }

  /** The encoder writes the format, so parsing gives every well-formed record back. */
  lemma RoundTrip(info: UnwindInfo)
    requires Valid(info)
    ensures Parse(Encode(info)) == Some(info)
  {
    hide Parse, Tiles, EncodeCodes, HoldsCode, HoldsTail, EncodeTail;
    var header := EncodeHeader(info);
    var codes := EncodeCodes(info.version, info.codes, 0, info.codeSlots);
    var pad := Padding(info.codeSlots);
    var tail := EncodeTail(info.tail);
    var bytes := Encode(info);
    assert bytes == header + codes + (pad + tail);
    assert |header + codes + pad| == info.tailOffset;
    EncodedCodesHeld(info.version, info.codes, 0, info.codeSlots, header, pad + tail);
    EncodedTailHeld(info.tail, header + codes + pad);
    ParseIff(bytes, info);
  }

  /** Whatever the parser accepts, re-encoding canonically and parsing again changes nothing. */
  lemma Reparse(bytes: seq<byte>)
    requires Parse(bytes).Some?
    ensures Valid(Parse(bytes).value) && Parse(Encode(Parse(bytes).value)) == Parse(bytes)
  {
    hide Parse, Encode;
    var info := Parse(bytes).value;
    ParseIff(bytes, info);
    RoundTrip(info);
  }

  // ---------------------------------------------------------------- bounded reads

  /** `unwind_info_minimum_size`: how much to read, judged from the header alone. */
  function MinimumSize(header: seq<byte>): Option<nat> {
    if |header| < HEADER_SIZE then None
    else
      var tailOffset := AlignToDword(SlotOffset(header[2]));
      var flags := header[0] / 8;
      var size := if IsChained(flags) then tailOffset + RUNTIME_FUNCTION_SIZE
                  else if HasHandler(flags) then tailOffset + 4 else tailOffset;
      if size <= MAX_FIXED_BYTES then Some(size) else None
  }

  /** The limit is never exceeded: every header names a size. */
  lemma MinimumSizeBounded(header: seq<byte>)
    requires HEADER_SIZE <= |header|
    ensures MinimumSize(header).Some? && MinimumSize(header).value <= 528
  {
  }

  lemma HoldsPrefix(bytes: seq<byte>, n: nat, info: UnwindInfo, c: UnwindCode)
    requires n <= |bytes| && ValidCode(info.version, c) && SlotOffset(c.slotIndex) + 2 * c.slotsUsed <= n
    ensures HoldsCode(bytes, c) <==> HoldsCode(bytes[..n], c)
  {
  }

  lemma {:induction false} TiledInside(version: byte, codes: seq<UnwindCode>, slot: nat, total: nat, c: UnwindCode)
    requires Tiles(version, codes, slot, total) && c in codes
    ensures ValidCode(version, c) && slot <= c.slotIndex && c.slotIndex + c.slotsUsed <= total
    decreases |codes|
  {
    if c != codes[0] {
      TiledInside(version, codes[1..], slot + codes[0].slotsUsed, total, c);
    }
  }

  /** An encoding is decided by its fixed part alone. */
  lemma EncodesPrefix(bytes: seq<byte>, info: UnwindInfo)
    requires Valid(info) && FixedSize(info) <= |bytes|
    ensures Encodes(bytes, info) <==> Encodes(bytes[..FixedSize(info)], info)
  {
    hide HoldsCode, Tiles, ValidCode;
    var n := FixedSize(info);
    forall c | c in info.codes ensures HoldsCode(bytes, c) <==> HoldsCode(bytes[..n], c) {
      TiledInside(info.version, info.codes, 0, info.codeSlots, c);
      HoldsPrefix(bytes, n, info, c);
    }
  }

  lemma EncodedSize(bytes: seq<byte>, info: UnwindInfo)
    requires Valid(info) && Encodes(bytes, info)
    ensures MinimumSize(bytes) == Some(FixedSize(info)) && FixedSize(info) <= |bytes|
  {
    hide HoldsCode, Tiles;
  }

  /** Bytes after the minimum size never matter, and fewer are never enough. */
  lemma ParseNeedsExactlyPrefix(bytes: seq<byte>)
    requires HEADER_SIZE <= |bytes|
    ensures var n := MinimumSize(bytes).value;
      && (Parse(bytes).Some? ==> n <= |bytes|)
      && (n <= |bytes| ==> Parse(bytes[..n]) == Parse(bytes))
  {
    hide Parse, Valid, Encodes, FixedSize;
    var n := MinimumSize(bytes).value;
    if Parse(bytes).Some? {
      var info := Parse(bytes).value;
      ParseIff(bytes, info);
      EncodedSize(bytes, info);
      EncodesPrefix(bytes, info);
      ParseIff(bytes[..n], info);
    } else if n <= |bytes| && Parse(bytes[..n]).Some? {
      var info := Parse(bytes[..n]).value;
      ParseIff(bytes[..n], info);
      EncodedSize(bytes[..n], info);
      EncodesPrefix(bytes, info);
      ParseIff(bytes, info);
    }
  }

  /** `parse_unwind_info_at`: read the header, then only the bytes it calls for. */
  function ParseAt(image: seq<byte>, space: AddressSpace, va: u64): Option<UnwindInfo> {
    var header := space.SliceForVa(image, va, HEADER_SIZE);
    if header.None? then None
    else
      var size := MinimumSize(header.value);
      if size.None? then None
      else
        var bytes := space.SliceForVa(image, va, size.value);
        if bytes.None? then None else Parse(bytes.value)
  }

  /** The two bounded reads give what parsing the whole rest of the image would give. */
  lemma BoundedReadIsUnbounded(image: seq<byte>, space: AddressSpace, va: u64)
    ensures var offset := space.FileOffset(va);
      ParseAt(image, space, va) ==
        if offset.None? || offset.value > |image| then None else Parse(image[offset.value..])
  {
    hide Valid, Encodes, ParseCodes, ParseTail, HeaderAccepted;
    var offset := space.FileOffset(va);
    if offset.Some? && offset.value + HEADER_SIZE <= |image| {
      var rest := image[offset.value..];
      var header := image[offset.value..offset.value + HEADER_SIZE];
      assert forall k :: 0 <= k < HEADER_SIZE ==> header[k] == rest[k];
      assert MinimumSize(header) == MinimumSize(rest);
      MinimumSizeBounded(rest);
      ParseNeedsExactlyPrefix(rest);
      var n := MinimumSize(rest).value;
      if n <= |rest| {
        assert image[offset.value..offset.value + n] == rest[..n];
      }
    }
  }
}
