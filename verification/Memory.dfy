/**
 The generic memory representation (`ByteArray`): a byte buffer that is read and written
 by offset and bit width.

 Widths of 1, 8, 16 and 32 bits are exchanged as integers, other widths as bytes. A store
 also accepts bytes for every width and an integer for every width that is 1 or a multiple
 of eight.
 */
module Memory {
  import opened Bytes
  import opened Offset
  import opened Options

  /** What a fetch returns and a store takes. */
  datatype Value = IntVal(n: int) | BytesVal(b: seq<byte>)

  function BytesFor(bits: nat): nat {
    (bits + 7) / 8
  }

  predicate FetchedAsInt(width: nat) {
    width in {1, 8, 16, 32}
  }

  /** `s` with the bytes from `at` on replaced by `bs`, as far as they lie inside `s`. */
  function Overlay(s: seq<byte>, at: nat, bs: seq<byte>): (r: seq<byte>)
    ensures |r| == |s|
    ensures forall i :: 0 <= i < |s| ==> r[i] == if at <= i < at + |bs| then bs[i - at] else s[i]
  {
    seq(|s|, i requires 0 <= i < |s| => if at <= i < at + |bs| then bs[i - at] else s[i])
  }

  /** The accesses the memory is asked for: a bit of a byte, or a byte-aligned region. */
  predicate FetchAllowed(o: Offset, width: nat) {
    && (width == 1 ==> o.bitOffset < 8)
    && (!FetchedAsInt(width) ==> o.bitOffset == 0)
  }

  predicate StoreAllowed(o: Offset, width: nat, v: Value) {
    && (width == 1 ==> o.bitOffset < 8)
    && (width != 1 && v.IntVal? ==> width % 8 == 0)
    && (width != 1 && v.BytesVal? ==> |v.b| == BytesFor(width))
  }

  function Fetched(s: seq<byte>, o: Offset, width: nat): Option<Value>
    requires FetchAllowed(o, width)
  {
    var at, n := o.byteOffset, BytesFor(width);
    if at + n > |s| then None
    else if width == 1 then Some(IntVal(if Bit(s[at], o.bitOffset) then 1 else 0))
    else if FetchedAsInt(width) then Some(IntVal(FromBigEndian(s[at..at + n])))
    else Some(BytesVal(s[at..at + n]))
  }

  predicate StoreFits(s: seq<byte>, o: Offset, width: nat, v: Value)
    requires StoreAllowed(o, width, v)
  {
    if width == 1 then (v.BytesVal? ==> v.b != []) && o.byteOffset < |s|
    else (v.IntVal? && width == 0) || o.byteOffset + BytesFor(width) <= |s|
  }

  /** The bytes a store writes to a byte-aligned region. */
  function Encoded(width: nat, v: Value): (r: seq<byte>)
    requires width != 1 && StoreAllowed(ZERO, width, v)
    ensures |r| == BytesFor(width)
  {
    match v
    case IntVal(n) => BigEndian(n, width / 8)
    case BytesVal(b) => b
  }

  predicate BitValue(v: Value)
    requires v.BytesVal? ==> v.b != []
  {
    match v
    case IntVal(n) => n != 0
    case BytesVal(b) => Bit(b[0], 0)
  }

  /**
   The memory after a store. An integer that does not fit is still written up to the end of
   the memory, bytes that do not fit are not written at all.
   */
  function Stored(s: seq<byte>, o: Offset, width: nat, v: Value): (r: seq<byte>)
    requires StoreAllowed(o, width, v)
    ensures |r| == |s|
  {
    if width == 1 then
      if StoreFits(s, o, width, v)
      then s[o.byteOffset := SetBit(s[o.byteOffset], o.bitOffset, BitValue(v))]
      else s
    else if v.IntVal? || StoreFits(s, o, width, v) then Overlay(s, o.byteOffset, Encoded(width, v))
    else s
  }

  class ByteArray {
    const data: array<byte>

    constructor (size: nat)
      ensures fresh(data) && data.Length == size
      ensures forall i :: 0 <= i < size ==> data[i] == 0
    {
      data := new byte[size](_ => 0);
    }

    function Fetch(o: Offset, width: nat): Option<Value>
      requires FetchAllowed(o, width)
      reads this, data
    {
      Fetched(data[..], o, width)
    }

    method Store(o: Offset, width: nat, v: Value) returns (ok: bool)
      requires StoreAllowed(o, width, v)
      modifies data
      ensures ok <==> StoreFits(old(data[..]), o, width, v)
      ensures data[..] == Stored(old(data[..]), o, width, v)
    {
      if width == 1 {
        ok := StoreFits(data[..], o, width, v);
        if ok {
          data[o.byteOffset] := SetBit(data[o.byteOffset], o.bitOffset, BitValue(v));
        }
        return;
      }
      match v {
        case IntVal(n) =>
          ok := StoreInt(o.byteOffset, width, n);
        case BytesVal(b) =>
          ok := o.byteOffset + |b| <= data.Length;
          if ok {
            forall i | 0 <= i < |b| {
              data[o.byteOffset + i] := b[i];
            }
          }
      }
    }

    /** Write an integer byte by byte; stop with an error at the end of the memory. */
    method StoreInt(byteOffset: nat, width: nat, n: int) returns (ok: bool)
      requires width % 8 == 0
      modifies data
      ensures ok <==> width == 0 || byteOffset + width / 8 <= data.Length
      ensures data[..] == Overlay(old(data[..]), byteOffset, BigEndian(n, width / 8))
    {
      var at, left := byteOffset, width;
      ghost var was := data[..];
      ghost var bs := BigEndian(n, width / 8);
      ghost var i := 0;
      while left != 0
        invariant 0 <= i <= width / 8 && left == width - 8 * i && at == byteOffset + i
        invariant i > 0 ==> at <= data.Length
        invariant data[..] == Overlay(was, byteOffset, bs[..i])
      {
        left := left - 8;
        if at >= data.Length {
          return false;
        }
        BigEndianAt(n, width / 8, i);
        i := i + 1;
        data[at] := Low(n / Pow256(left / 8));
        at := at + 1;
      }
      ok := true;
    }
  }

  lemma {:induction false} BigEndianAt(v: int, k: nat, i: nat)
    requires i < k
    ensures BigEndian(v, k)[i] == Low(v / Pow256(k - 1 - i))
    decreases k
  {
    if i < k - 1 {
      BigEndianAt(v / 256, k - 1, i);
      DivDiv(v, Pow256(k - 2 - i));
    } else {
      assert Pow256(0) == 1;
    }
  }

  lemma DivDiv(v: int, p: int)
    requires p > 0
    ensures (v / 256) / p == v / (256 * p)
  {
    var q, r := v / 256, v % 256;
    var q1, r1 := q / p, q % p;
    assert q == p * q1 + r1;
    assert 256 * (p * q1 + r1) == (256 * p) * q1 + 256 * r1;
    DivModUnique(v, 256 * p, q1, 256 * r1 + r);
  }

  // ----- a memory of non-overlapping regions is a record

  /** A region that data lives in: one bit, or whole bytes. */
  predicate Slot(o: Offset, width: nat) {
    if width == 1 then o.bitOffset < 8 else width % 8 == 0 && o.bitOffset == 0
  }

  predicate Disjoint(o1: Offset, width1: nat, o2: Offset, width2: nat) {
    ToBitOffset(o1) + width1 <= ToBitOffset(o2) || ToBitOffset(o2) + width2 <= ToBitOffset(o1)
  }

  /** What a fetch returns after `v` was stored with the same width. */
  function Norm(width: nat, v: Value): Value
    requires StoreAllowed(ZERO, width, v)
    requires width == 1 && v.BytesVal? ==> v.b != []
  {
    if width == 1 then IntVal(if BitValue(v) then 1 else 0)
    else if FetchedAsInt(width) then
      match v
      case IntVal(n) => IntVal(n % Pow256(width / 8))
      case BytesVal(b) => IntVal(FromBigEndian(b))
    else BytesVal(Encoded(width, v))
  }

  /** A stored value is fetched again. */
  lemma FetchOfStore(s: seq<byte>, o: Offset, width: nat, v: Value)
    requires Slot(o, width) && StoreAllowed(o, width, v) && StoreFits(s, o, width, v)
    requires o.byteOffset + BytesFor(width) <= |s|
    ensures Fetched(Stored(s, o, width, v), o, width) == Some(Norm(width, v))
  {
    if width == 1 {
      BitOfWithBit(s[o.byteOffset], o.bitOffset, BitValue(v), o.bitOffset);
    } else {
      var e := Encoded(width, v);
      var r := Stored(s, o, width, v);
      assert r[o.byteOffset..o.byteOffset + BytesFor(width)] == e;
      if FetchedAsInt(width) && v.IntVal? {
        FromBigEndianOfBigEndian(v.n, width / 8);
      }
    }
  }

  /** A store changes no byte outside its region. */
  lemma StoredOutside(s: seq<byte>, o: Offset, width: nat, v: Value, i: nat)
    requires StoreAllowed(o, width, v) && i < |s|
    requires i < o.byteOffset || o.byteOffset + BytesFor(width) <= i
    ensures Stored(s, o, width, v)[i] == s[i]
  {
  }

  /** Two memories that agree on a region fetch the same there. */
  lemma FetchDependsOnRegion(s: seq<byte>, t: seq<byte>, o: Offset, width: nat)
    requires FetchAllowed(o, width) && |s| == |t|
    requires forall i :: o.byteOffset <= i < o.byteOffset + BytesFor(width) && i < |s| ==> s[i] == t[i]
    ensures Fetched(s, o, width) == Fetched(t, o, width)
  {
    var at, n := o.byteOffset, BytesFor(width);
    if at + n <= |s| {
      assert s[at..at + n] == t[at..at + n];
    }
  }

  lemma DisjointBytes(o1: Offset, width1: nat, o2: Offset, width2: nat)
    requires Slot(o1, width1) && Slot(o2, width2) && Disjoint(o1, width1, o2, width2)
    requires !(width1 == 1 && width2 == 1 && o1.byteOffset == o2.byteOffset)
    ensures o1.byteOffset + BytesFor(width1) <= o2.byteOffset || o2.byteOffset + BytesFor(width2) <= o1.byteOffset
  {
  }

  /** A store leaves every other region alone, also when it fails half way. */
  lemma FetchOfDisjointStore(s: seq<byte>, o1: Offset, width1: nat, v: Value, o2: Offset, width2: nat)
    requires Slot(o1, width1) && Slot(o2, width2) && StoreAllowed(o1, width1, v)
    requires Disjoint(o1, width1, o2, width2)
    ensures Fetched(Stored(s, o1, width1, v), o2, width2) == Fetched(s, o2, width2)
  {
    var r := Stored(s, o1, width1, v);
    if width1 == 1 && width2 == 1 && o1.byteOffset == o2.byteOffset {
      if StoreFits(s, o1, width1, v) {
        BitOfWithBit(s[o1.byteOffset], o1.bitOffset, BitValue(v), o2.bitOffset);
      }
    } else {
      DisjointBytes(o1, width1, o2, width2);
      forall i | o2.byteOffset <= i < o2.byteOffset + BytesFor(width2) && i < |s|
        ensures r[i] == s[i]
      {
        StoredOutside(s, o1, width1, v, i);
      }
      hide Stored, Fetched;
      FetchDependsOnRegion(s, r, o2, width2);
    }
  }

  /** Storing what was fetched copies the region: a value survives a hop through a buffer. */
  lemma StoreOfFetched(s: seq<byte>, o: Offset, width: nat, t: seq<byte>, p: Offset)
    requires Slot(o, width) && Slot(p, width) && width > 0
    requires o.byteOffset + BytesFor(width) <= |s| && p.byteOffset + BytesFor(width) <= |t|
    ensures var v := Fetched(s, o, width);
            v.Some? && StoreAllowed(p, width, v.value) && StoreFits(t, p, width, v.value)
            && Fetched(Stored(t, p, width, v.value), p, width) == v
  {
    var v := Fetched(s, o, width).value;
    assert Norm(width, v) == v by {
      if width != 1 && FetchedAsInt(width) {
        FromBigEndianBound(s[o.byteOffset..o.byteOffset + BytesFor(width)]);
      }
    }
    FetchOfStore(t, p, width, v);
  }
}
