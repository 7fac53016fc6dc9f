/**
 Memory area offsets (`AwlOffset`): a byte offset with a bit number.
 */
module Offset {

  datatype Offset = Offset(byteOffset: nat, bitOffset: nat)

  const ZERO := Offset(0, 0)

  /** An offset in which the bit number lies inside a byte. */
  predicate Normal(o: Offset) {
    o.bitOffset < 8
  }

  function FromBitOffset(bits: nat): Offset {
    Offset(bits / 8, bits % 8)
  }

  function ToBitOffset(o: Offset): nat {
    o.byteOffset * 8 + o.bitOffset
  }

  function Add(a: Offset, b: Offset): Offset {
    var bits := (a.byteOffset + b.byteOffset) * 8 + a.bitOffset + b.bitOffset;
    Offset(bits / 8, bits % 8)
  }

  /** Round up to a multiple of `byteBase` bytes. */
  function RoundUp(o: Offset, byteBase: nat): Offset
    requires byteBase > 0
  {
    var b := if o.bitOffset != 0 then o.byteOffset + 1 else o.byteOffset;
    var r := (b + byteBase - 1) / byteBase;
    Offset(r * byteBase, 0)
  }

  /** The low 19 bits of a pointer: `toPointerValue`. */
  function PointerBits(o: Offset): nat {
    (o.byteOffset * 8) % 0x8_0000 + o.bitOffset % 8
  }

  function FromPointer(v: nat): Offset {
    Offset(v % 0x8_0000 / 8, v % 8)
  }

  /** A sum is normal and counts the bits of both operands. */
  lemma AddCountsBits(a: Offset, b: Offset)
    ensures Normal(Add(a, b))
    ensures ToBitOffset(Add(a, b)) == ToBitOffset(a) + ToBitOffset(b)
  {
  }

  lemma ZeroCountsNothing()
    ensures ToBitOffset(ZERO) == 0
  {
  }

  /** Normal offsets are determined by their bit count. */
  lemma BitsDetermineOffset(a: Offset, b: Offset)
    requires Normal(a) && Normal(b) && ToBitOffset(a) == ToBitOffset(b)
    ensures a == b
  {
  }

  /** Adding `c` last or first counts the same bits. */
  lemma SumCountsBits(a: Offset, b: Offset, c: Offset)
    ensures ToBitOffset(Add(Add(a, b), c)) == ToBitOffset(a) + ToBitOffset(Add(b, c))
    ensures c == ZERO ==> ToBitOffset(Add(a, b)) == ToBitOffset(a) + ToBitOffset(Add(b, c))
  {
    hide Add, ToBitOffset;
    AddCountsBits(a, b);
    AddCountsBits(b, c);
    AddCountsBits(Add(a, b), c);
    ZeroCountsNothing();
  }

  lemma AddToZero(a: Offset)
    ensures ToBitOffset(Add(ZERO, a)) == ToBitOffset(a)
  {
    hide Add, ToBitOffset;
    AddCountsBits(ZERO, a);
    ZeroCountsNothing();
  }

  /** Sub-offsets may be accumulated in any grouping. */
  lemma AddIsAssociative(a: Offset, b: Offset, c: Offset)
    ensures Add(Add(a, b), c) == Add(a, Add(b, c))
  {
    hide Add, ToBitOffset;
    AddCountsBits(a, b);
    AddCountsBits(b, c);
    AddCountsBits(Add(a, b), c);
    AddCountsBits(a, Add(b, c));
    BitsDetermineOffset(Add(Add(a, b), c), Add(a, Add(b, c)));
  }

  /** A pointer holds the bit count of an offset modulo 2^19. */
  lemma PointerCountsBits(v: nat)
    ensures Normal(FromPointer(v)) && ToBitOffset(FromPointer(v)) == v % 0x8_0000
  {
  }

  /** An offset survives being a pointer exactly if it is normal and fits into 19 bits. */
  lemma PointerRoundTrip(o: Offset)
    ensures FromPointer(PointerBits(o)) == o <==> Normal(o) && o.byteOffset < 0x1_0000
  {
  }
}
