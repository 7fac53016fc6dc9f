/**
 Indirect addressing (`AwlIndirectOp.resolve`): pointers are built from an address register
 or from memory and turned into direct operators.
 */
module IndirectAddr {
  import opened Bytes
  import opened Options
  import opened Offset

  /** The operator types that have an area code. */
  datatype OpType =
    | MemPE | MemPA | MemE | MemA | MemM | MemDB | MemDI | MemL | MemVL
    | MemT | MemZ | BlkRefDB | BlkRefDI | BlkRefFB | BlkRefFC
    | MultiFB | MultiSFB | NamedDbVar | Unspec

  const AREA_NONE := 0
  const AREA_P := 0x80_000000
  const AREA_E := 0x81_000000
  const AREA_A := 0x82_000000
  const AREA_M := 0x83_000000
  const AREA_DB := 0x84_000000
  const AREA_DI := 0x85_000000
  const AREA_L := 0x86_000000
  const AREA_VL := 0x87_000000
  const EXT_AREA_T := 0x01FF_000000
  const EXT_AREA_Z := 0x02FF_000000
  const EXT_AREA_BLKREF_DB := 0x03FF_000000
  const EXT_AREA_BLKREF_DI := 0x04FF_000000
  const EXT_AREA_BLKREF_FB := 0x05FF_000000
  const EXT_AREA_BLKREF_FC := 0x06FF_000000

  /** Area code to operator type, for a fetch or a store. */
  function OpTypeOf(area: nat, store: bool): Option<OpType> {
    if area == AREA_P then Some(if store then MemPA else MemPE)
    else if area == AREA_E then Some(MemE)
    else if area == AREA_A then Some(MemA)
    else if area == AREA_M then Some(MemM)
    else if area == AREA_DB then Some(MemDB)
    else if area == AREA_DI then Some(MemDI)
    else if area == AREA_L then Some(MemL)
    else if area == AREA_VL then Some(MemVL)
    else if area == EXT_AREA_T then Some(MemT)
    else if area == EXT_AREA_Z then Some(MemZ)
    else if area == EXT_AREA_BLKREF_DB then Some(BlkRefDB)
    else if area == EXT_AREA_BLKREF_DI then Some(BlkRefDI)
    else if area == EXT_AREA_BLKREF_FB then Some(BlkRefFB)
    else if area == EXT_AREA_BLKREF_FC then Some(BlkRefFC)
    else None
  }

  function AreaOf(t: OpType): nat {
    match t
    case MemPE | MemPA => AREA_P
    case MemE => AREA_E
    case MemA => AREA_A
    case MemM => AREA_M
    case MemDB | NamedDbVar => AREA_DB
    case MemDI | MultiFB | MultiSFB => AREA_DI
    case MemL => AREA_L
    case MemVL => AREA_VL
    case MemT => EXT_AREA_T
    case MemZ => EXT_AREA_Z
    case BlkRefDB => EXT_AREA_BLKREF_DB
    case BlkRefDI => EXT_AREA_BLKREF_DI
    case BlkRefFB => EXT_AREA_BLKREF_FB
    case BlkRefFC => EXT_AREA_BLKREF_FC
    case Unspec => AREA_NONE
  }

  /** Which address register an access uses. */
  datatype Register = NoRegister | AR1 | AR2

  /** The kind of the operator that holds the offset. */
  datatype OffsetKind = Memory | PointerImmediate | OtherKind

  datatype IndirectOp = IndirectOp(area: nat, width: nat, register: Register, offsetKind: OffsetKind, offsetWidth: nat)

  /** The address registers, and what fetching the offset operator gives. */
  datatype Cpu = Cpu(ar1: nat, ar2: nat, offsetValue: nat)

  datatype Resolved =
    | Direct(opType: OpType, width: nat, offset: Offset)
    | AreaSpanningWithoutRegister
    | BadOffsetOperator
    | BadOffsetWidth
    | InvalidArea
    | BitOffsetNotZero

  function RegisterValue(cpu: Cpu, r: Register): nat {
    if r.AR1? then cpu.ar1 else cpu.ar2
  }

  /** An extended area, in which the offset is a number and not a pointer. */
  predicate Extended(area: nat) {
    area > 0xFF_000000
  }

  /** The bits of a pointer that select the area. */
  function AreaBits(pointer: nat): nat {
    pointer / 0x1_000000 % 0x1_0000 * 0x1_000000
  }

  /** `area` is the area code of an access, which leaves room for an offset. */
  predicate ValidOp(op: IndirectOp) {
    op.area % 0x1_000000 == 0
  }

  function Pointer(op: IndirectOp, cpu: Cpu): nat {
    match op.register
    case NoRegister => op.area + cpu.offsetValue % 0x8_0000
    case r =>
      var sum := RegisterValue(cpu, r) + cpu.offsetValue % 0x8_0000;
      if op.area == AREA_NONE then sum % 0x1_0000_0000 else op.area + sum % 0x8_0000
  }

  function Finished(op: IndirectOp, pointer: nat, store: bool): Resolved {
    match OpTypeOf(AreaBits(pointer), store)
    case None => InvalidArea
    case Some(t) =>
      var isNumber := op.register.NoRegister? && Extended(op.area);
      var offset := if isNumber then Offset(pointer % 0x1_0000, 0) else FromPointer(pointer);
      if op.width != 1 && offset.bitOffset != 0 then BitOffsetNotZero else Direct(t, op.width, offset)
  }

  function Resolve(op: IndirectOp, cpu: Cpu, store: bool): Resolved {
    if op.register.NoRegister? then
      if op.area == AREA_NONE then AreaSpanningWithoutRegister
      else if !op.offsetKind.Memory? then BadOffsetOperator
      else if (if Extended(op.area) then op.offsetWidth !in {8, 16, 32} else op.offsetWidth != 32) then BadOffsetWidth
      else Finished(op, Pointer(op, cpu), store)
    else if !op.offsetKind.PointerImmediate? then BadOffsetOperator
    else Finished(op, Pointer(op, cpu), store)
  }

  /** `makePointerValue` of a direct operator. */
  function MakePointerValue(t: OpType, offset: Offset): nat {
    AreaOf(t) + PointerBits(offset)
  }

  // ----- pointer arithmetic

  /** What lies above an area code does not change the low bits, and the other way round. */
  lemma AreaAndLow(k: nat, low: nat)
    ensures (0x1_000000 * k + low) % 0x8_0000 == low % 0x8_0000
    ensures low < 0x1_000000 ==> (0x1_000000 * k + low) / 0x1_000000 == k
  {
    var q, r := low / 0x8_0000, low % 0x8_0000;
    DivModUnique(0x1_000000 * k + low, 0x8_0000, 32 * k + q, r);
    if low < 0x1_000000 {
      DivModUnique(0x1_000000 * k + low, 0x1_000000, k, low);
    }
  }

  lemma TruncatedLow(v: nat)
    ensures v % 0x1_0000_0000 % 0x8_0000 == v % 0x8_0000
  {
    var q, r := v / 0x1_0000_0000, v % 0x1_0000_0000;
    AreaAndLow(0x100 * q, r);
  }

  /** The low 19 bits of a pointer are the sum of both offsets, modulo 2^19. */
  lemma PointerLow(op: IndirectOp, cpu: Cpu)
    requires ValidOp(op) && !op.register.NoRegister?
    ensures Pointer(op, cpu) % 0x8_0000
            == (RegisterValue(cpu, op.register) % 0x8_0000 + cpu.offsetValue % 0x8_0000) % 0x8_0000
  {
    var r := RegisterValue(cpu, op.register);
    var sum := r + cpu.offsetValue % 0x8_0000;
    ModSum(r, cpu.offsetValue);
    if op.area == AREA_NONE {
      TruncatedLow(sum);
    } else {
      assert op.area == 0x1_000000 * (op.area / 0x1_000000);
      AreaAndLow(op.area / 0x1_000000, sum % 0x8_0000);
    }
  }

  lemma ModSum(a: nat, b: nat)
    ensures (a + b % 0x8_0000) % 0x8_0000 == (a % 0x8_0000 + b % 0x8_0000) % 0x8_0000
  {
  }

  lemma ResolvedOffset(op: IndirectOp, cpu: Cpu, store: bool)
    requires !op.register.NoRegister? && Resolve(op, cpu, store).Direct?
    ensures Resolve(op, cpu, store).offset == FromPointer(Pointer(op, cpu))
  {
    hide Pointer, FromPointer, AreaBits;
  }

  /**
   A register-indirect access adds bit offsets modulo 2^19, that of AR1 or that of AR2 to its own.
   Within the range of a pointer that is the addition of offsets.
   */
  lemma RegisterIndirectAdds(op: IndirectOp, cpu: Cpu, store: bool)
    requires ValidOp(op) && !op.register.NoRegister? && Resolve(op, cpu, store).Direct?
    ensures var base := FromPointer(if op.register == AR1 then cpu.ar1 else cpu.ar2);
            var sum := ToBitOffset(base) + ToBitOffset(FromPointer(cpu.offsetValue));
            && ToBitOffset(Resolve(op, cpu, store).offset) == sum % 0x8_0000
            && (sum < 0x8_0000 ==> Resolve(op, cpu, store).offset == Add(base, FromPointer(cpu.offsetValue)))
  {
    hide *;
    RegisterByName(op, cpu);
    ResolvedOffset(op, cpu, store);
    PointerLow(op, cpu);
    SumOfPointers(RegisterValue(cpu, op.register), cpu.offsetValue, Pointer(op, cpu));
  }

  lemma SumOfPointers(r: nat, o: nat, p: nat)
    requires p % 0x8_0000 == (r % 0x8_0000 + o % 0x8_0000) % 0x8_0000
    ensures var sum := ToBitOffset(FromPointer(r)) + ToBitOffset(FromPointer(o));
            && ToBitOffset(FromPointer(p)) == sum % 0x8_0000
            && (sum < 0x8_0000 ==> FromPointer(p) == Add(FromPointer(r), FromPointer(o)))
  {
    hide *;
    PointerCountsBits(r);
    PointerCountsBits(o);
    PointerCountsBits(p);
    AddCountsBits(FromPointer(r), FromPointer(o));
    if ToBitOffset(FromPointer(r)) + ToBitOffset(FromPointer(o)) < 0x8_0000 {
      BitsDetermineOffset(FromPointer(p), Add(FromPointer(r), FromPointer(o)));
    }
  }

  lemma RegisterByName(op: IndirectOp, cpu: Cpu)
    requires !op.register.NoRegister?
    ensures RegisterValue(cpu, op.register) == if op.register == AR1 then cpu.ar1 else cpu.ar2
  {
  }

  // ----- what an access gives, for all accesses

  /** The offset operators of a memory-indirect access: a number of any width, or a pointer. */
  predicate HasOffset(op: IndirectOp) {
    op.offsetKind.Memory? && op.offsetWidth in (if op.area > 0xFF_000000 then {8, 16, 32} else {32})
  }

  /**
   A memory-indirect access is resolved if and only if it has an area and an offset that suits
   it. For timers, counters and blocks the offset is their number, and for all others a pointer.
   */
  lemma MemoryIndirect(op: IndirectOp, cpu: Cpu, store: bool)
    requires ValidOp(op) && op.area < 0x1_0000_000000 && op.register.NoRegister?
    ensures var r, v, number := Resolve(op, cpu, store), cpu.offsetValue, op.area > 0xFF_000000;
            && (r.Direct? <==> && op.area != 0 && HasOffset(op) && OpTypeOf(op.area, store).Some?
                               && (number || op.width == 1 || v % 8 == 0))
            && (r.Direct? ==>
                  && Some(r.opType) == OpTypeOf(op.area, store) && r.width == op.width
                  && r.offset == if number then Offset(v % 0x1_0000, 0) else Offset(v % 0x8_0000 / 8, v % 8))
  {
    if op.area != 0 && HasOffset(op) {
      var low := cpu.offsetValue % 0x8_0000;
      AreaInternalKeepsArea(op, cpu, store);
      AreaAndLow(op.area / 0x1_000000, low);
      SameLowSameOffset(Pointer(op, cpu), cpu.offsetValue);
      SameNumber(op.area, cpu.offsetValue);
      hide AreaBits, OpTypeOf;
    }
  }

  lemma SameNumber(area: nat, v: nat)
    requires area % 0x1_000000 == 0
    ensures (area + v % 0x8_0000) % 0x1_0000 == v % 0x1_0000
  {
    var k, q, r := area / 0x1_000000, v / 0x8_0000, v % 0x8_0000;
    DivModUnique(area + r, 0x1_0000, 0x100 * k + r / 0x1_0000, r % 0x1_0000);
    DivModUnique(v, 0x1_0000, 8 * q + r / 0x1_0000, r % 0x1_0000);
  }

  /** The area of a register-indirect access: its own one, or that of the sum in the address register. */
  function AreaOfAccess(op: IndirectOp, ar: nat, v: nat): nat {
    if op.area != 0 then op.area else (ar + v % 0x8_0000) % 0x1_0000_0000 / 0x1_000000 * 0x1_000000
  }

  /** The same for a register-indirect access, with the register written out. */
  lemma RegisterIndirect(op: IndirectOp, cpu: Cpu, store: bool)
    requires ValidOp(op) && op.area < 0x1_0000_000000 && !op.register.NoRegister?
    ensures var r, ar := Resolve(op, cpu, store), if op.register == AR1 then cpu.ar1 else cpu.ar2;
            var t := OpTypeOf(AreaOfAccess(op, ar, cpu.offsetValue), store);
            && (r.Direct? <==> && op.offsetKind.PointerImmediate? && t.Some?
                               && (op.width == 1 || (ar + cpu.offsetValue) % 8 == 0))
            && (r.Direct? ==> && Some(r.opType) == t && r.width == op.width
                              && ToBitOffset(r.offset) == (ar + cpu.offsetValue) % 0x8_0000)
  {
    var ar, v, p := RegisterValue(cpu, op.register), cpu.offsetValue, Pointer(op, cpu);
    RegisterByName(op, cpu);
    AreaByRegister(op, cpu);
    hide *;
    ResolvedByPointer(op, cpu, store);
    PointerLow(op, cpu);
    SumOfLow(ar, v);
    PointerCountsBits(p);
    PointerBitNumber(p);
    LowBits(ar + v);
    LowBits(p);
  }

  lemma AreaByRegister(op: IndirectOp, cpu: Cpu)
    requires ValidOp(op) && op.area < 0x1_0000_000000 && !op.register.NoRegister?
    ensures AreaBits(Pointer(op, cpu)) == AreaOfAccess(op, RegisterValue(cpu, op.register), cpu.offsetValue)
  {
    if op.area != 0 {
      AreaInternalKeepsArea(op, cpu, false);
    }
  }

  lemma ResolvedByPointer(op: IndirectOp, cpu: Cpu, store: bool)
    requires !op.register.NoRegister?
    ensures var r, p := Resolve(op, cpu, store), Pointer(op, cpu);
            && (r.Direct? <==> && op.offsetKind.PointerImmediate? && OpTypeOf(AreaBits(p), store).Some?
                               && (op.width == 1 || FromPointer(p).bitOffset == 0))
            && (r.Direct? ==> && Some(r.opType) == OpTypeOf(AreaBits(p), store) && r.width == op.width
                              && r.offset == FromPointer(p))
  {
    hide Pointer, FromPointer, AreaBits, OpTypeOf;
  }

  lemma PointerBitNumber(v: nat)
    ensures FromPointer(v).bitOffset == v % 8
  {
  }

  lemma SumOfLow(a: nat, b: nat)
    ensures (a % 0x8_0000 + b % 0x8_0000) % 0x8_0000 == (a + b) % 0x8_0000
  {
  }

  /** An area-internal access stays in its area, whatever the register holds. */
  lemma AreaInternalKeepsArea(op: IndirectOp, cpu: Cpu, store: bool)
    requires ValidOp(op) && op.area < 0x1_0000_000000 && op.area != AREA_NONE
    ensures AreaBits(Pointer(op, cpu)) == op.area
    ensures Resolve(op, cpu, store).Direct? ==> Some(Resolve(op, cpu, store).opType) == OpTypeOf(op.area, store)
  {
    var low := Pointer(op, cpu) - op.area;
    assert 0 <= low < 0x8_0000;
    AreaAndLow(op.area / 0x1_000000, low);
  }

  /**
   An area-spanning access stays in the register's area exactly if adding the offset does not
   carry out of the low 24 bits. With an offset of at most 19 bits in the register it never does.
   */
  lemma AreaSpanningKeepsArea(op: IndirectOp, cpu: Cpu)
    requires op.area == AREA_NONE && !op.register.NoRegister? && RegisterValue(cpu, op.register) < 0x1_0000_0000
    ensures var r, o := RegisterValue(cpu, op.register), cpu.offsetValue % 0x8_0000;
            && (AreaBits(Pointer(op, cpu)) == AreaBits(r) <==> r % 0x1_000000 + o < 0x1_000000)
            && (r % 0x1_000000 < 0x8_0000 ==> AreaBits(Pointer(op, cpu)) == AreaBits(r))
  {
    var r, o := RegisterValue(cpu, op.register), cpu.offsetValue % 0x8_0000;
    var k, low := r / 0x1_000000, r % 0x1_000000;
    assert r == 0x1_000000 * k + low && Pointer(op, cpu) == (r + o) % 0x1_0000_0000;
    hide AreaBits, Pointer;
    AreaBitsOf(k, low);
    if low + o < 0x1_000000 {
      WordOf(k, low + o);
      AreaBitsOf(k, low + o);
    } else {
      WordOf(k + 1, low + o - 0x1_000000);
      AreaBitsOf((k + 1) % 0x100, low + o - 0x1_000000);
    }
  }

  lemma AreaBitsOf(k: nat, low: nat)
    requires k < 0x1_0000 && low < 0x1_000000
    ensures AreaBits(0x1_000000 * k + low) == 0x1_000000 * k
  {
    AreaAndLow(k, low);
  }

  // ----- pointers to operators

  /** The operator types that come back from their own area code. */
  predicate ComesBack(t: OpType, store: bool) {
    || t in {MemE, MemA, MemM, MemDB, MemDI, MemL, MemVL}
    || (t.MemPE? && !store) || (t.MemPA? && store)
  }

  lemma AreaComesBack(t: OpType, store: bool)
    ensures OpTypeOf(AreaOf(t) % 0x1_0000_0000, store) == Some(t) <==> ComesBack(t, store)
    ensures AreaOf(t) % 0x1_000000 == 0
  {
  }

  /**
   An area-spanning access through a register that holds the pointer to an operator, with the
   offset P#0.0, is that operator again: exactly for E, A, M, DB, DI, L and VL, for peripheral
   reads and writes as such, and if only single bits are accessed at a bit offset. A register
   holds 32 bits, so timers, counters and blocks do not come back.
   */
  lemma PointerResolvesBack(t: OpType, width: nat, offset: Offset, register: Register, cpu: Cpu, store: bool)
    requires Normal(offset) && offset.byteOffset < 0x1_0000 && !register.NoRegister?
    requires RegisterValue(cpu, register) == MakePointerValue(t, offset) % 0x1_0000_0000 && cpu.offsetValue == 0
    ensures Resolve(IndirectOp(AREA_NONE, width, register, PointerImmediate, 32), cpu, store)
            == Direct(t, width, offset)
            <==> ComesBack(t, store) && (width == 1 || offset.bitOffset == 0)
  {
    var op := IndirectOp(AREA_NONE, width, register, PointerImmediate, 32);
    hide Pointer, AreaBits, FromPointer, AreaOf, OpTypeOf, MakePointerValue, ComesBack;
    PointerParts(t, offset, op, cpu);
    AreaComesBack(t, store);
  }

  /** Pointers in the format of the machine: the area code in the top byte, and below it the number of the bit. */
  lemma PointerIsPacked(t: OpType, offset: Offset)
    requires Normal(offset) && offset.byteOffset < 0x1_0000
    ensures MakePointerValue(t, offset)
            == 8 * offset.byteOffset + offset.bitOffset
               + 0x1_000000 * (match t
                               case MemPE | MemPA => 0x80
                               case MemE => 0x81
                               case MemA => 0x82
                               case MemM => 0x83
                               case MemDB | NamedDbVar => 0x84
                               case MemDI | MultiFB | MultiSFB => 0x85
                               case MemL => 0x86
                               case MemVL => 0x87
                               case MemT => 0x1FF
                               case MemZ => 0x2FF
                               case BlkRefDB => 0x3FF
                               case BlkRefDI => 0x4FF
                               case BlkRefFB => 0x5FF
                               case BlkRefFC => 0x6FF
                               case Unspec => 0)
    ensures t in {MemT, MemZ, BlkRefDB, BlkRefDI, BlkRefFB, BlkRefFC} ==>
              forall store :: OpTypeOf(MakePointerValue(t, ZERO), store) == Some(t)
  {
    hide OpTypeOf;
    ExtendedComesBack(t);
  }

  lemma ExtendedComesBack(t: OpType)
    ensures t in {MemT, MemZ, BlkRefDB, BlkRefDI, BlkRefFB, BlkRefFC} ==>
              forall store :: OpTypeOf(AreaOf(t), store) == Some(t)
  {
  }

  /** A pointer in a register that is used without an offset keeps its area and its offset. */
  lemma PointerParts(t: OpType, offset: Offset, op: IndirectOp, cpu: Cpu)
    requires Normal(offset) && offset.byteOffset < 0x1_0000 && !op.register.NoRegister? && op.area == AREA_NONE
    requires RegisterValue(cpu, op.register) == MakePointerValue(t, offset) % 0x1_0000_0000 && cpu.offsetValue == 0
    ensures AreaBits(Pointer(op, cpu)) == AreaOf(t) % 0x1_0000_0000 && FromPointer(Pointer(op, cpu)) == offset
  {
    var low, area := PointerBits(offset), AreaOf(t);
    AreaComesBack(t, false);
    hide PointerBits, FromPointer, AreaOf;
    PointerRoundTrip(offset);
    PointerFits(offset);
    var k := area / 0x1_000000;
    assert area == 0x1_000000 * k;
    WordOf(k, low);
    WordOf(k, 0);
    var pointer := 0x1_000000 * (k % 0x100) + low;
    assert Pointer(op, cpu) == pointer % 0x1_0000_0000 == pointer;
    AreaAndLow(k % 0x100, low);
    SameLowSameOffset(pointer, low);
  }

  lemma PointerFits(offset: Offset)
    ensures PointerBits(offset) < 0x8_0000
  {
  }

  /** A 32-bit register keeps the low eight bits of an area number. */
  lemma WordOf(k: nat, low: nat)
    requires low < 0x1_000000
    ensures (0x1_000000 * k + low) % 0x1_0000_0000 == 0x1_000000 * (k % 0x100) + low
  {
    assert 0x1_000000 * k + low == 0x1_0000_0000 * (k / 0x100) + (0x1_000000 * (k % 0x100) + low);
  }

  lemma SameLowSameOffset(v: nat, w: nat)
    requires v % 0x8_0000 == w % 0x8_0000
    ensures FromPointer(v) == FromPointer(w)
  {
    LowBits(v);
    LowBits(w);
  }

  lemma LowBits(v: nat)
    ensures v % 8 == v % 0x8_0000 % 8
  {
    var q, r := v / 0x8_0000, v % 0x8_0000;
    DivModUnique(v, 8, 0x1_0000 * q + r / 8, r % 8);
  }
}
