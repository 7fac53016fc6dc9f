/**
 Declared initial values of single variables and of STRINGs. The initial value of a STRING is
 kept in the marker field of the variable, and is stored before the fields of the STRING are,
 one of which then overwrites the maximum length.
 */
module StringInit {
  import opened Bytes
  import opened Offset
  import opened Memory
  import opened Options
  import opened ArrayIndex
  import opened Layout
  import opened StructLayout
  import opened DataStructure
  import opened StructInstance
  import opened FieldNames
  import opened ArrayLayout
  import opened ArrayInit
  import opened NamedLocal
  import opened ChainAddress

  // ----- single variables of basic types

  /** The bytes that the translator makes of a declared value. */
  function VariableBytes(bits: nat, value: Value): (r: seq<byte>)
    requires Acceptable(bits, value)
    ensures |r| == BytesFor(bits)
  {
    Stored(Zeros(BytesFor(bits)), ZERO, bits, value)
  }

  lemma BytesKeepValue(bits: nat, value: Value)
    requires ElementBits(bits) && Acceptable(bits, value)
    ensures VariableBytes(bits, value) != []
    ensures Norm(bits, BytesVal(VariableBytes(bits, value))) == Norm(bits, value)
  {
    var zeros, r := Zeros(BytesFor(bits)), VariableBytes(bits, value);
    FetchOfStore(zeros, ZERO, bits, value);
    assert r[0..BytesFor(bits)] == r;
  }

  /** In every fresh instance of a structure that declares the variable, it has its declared value. */
  lemma VariableInitialValue(fs: seq<Field>, name: Name, bits: nat, value: Value, more: seq<Field>)
    requires ElementBits(bits) && Acceptable(bits, value) && name != [] && Laid(fs)
    requires var r := Added(fs, name, Basic(bits), Some(VariableBytes(bits, value)));
             Laid(r + more) && InitsFit(r + more)
    ensures var r := Added(fs, name, Basic(bits), Some(VariableBytes(bits, value)));
            var f := Lookup(r, name);
            && f.Some? && f.value.bitSize == bits && FetchAllowed(f.value.offset, bits)
            && Fetched(Initialized(r + more), f.value.offset, bits) == Some(Norm(bits, value))
  {
    BytesKeepValue(bits, value);
    var r := Added(fs, name, Basic(bits), Some(VariableBytes(bits, value)));
    assert (r + more)[|fs|] == r[|fs|];
    hide Laid, InitsFit, Norm, Stored, Fetched;
    InitialValue(r + more, |fs|);
  }

  // ----- the bytes of a STRING

  /** The fields from `p` on are those of a STRING at byte `base` that is declared with `init`. */
  ghost predicate StringAt(fs: seq<Field>, p: nat, len: nat, base: nat, init: seq<byte>) {
    && len <= 254 && |init| == len + 2 && p + len + 2 < |fs|
    && fs[p].offset == Offset(base, 0) && fs[p].bitSize == 8 * (len + 2) && fs[p].init == Some(init)
    && forall q :: p < q <= p + len + 2 ==> IsByteOf(fs[q], base, q - p - 1, len)
  }

  predicate IsByteOf(f: Field, base: nat, b: nat, len: nat) {
    && IsData(f) && f.offset == Offset(base + b, 0) && f.bitSize == 8
    && f.init == if b == 0 then Some([Low(len)]) else None
  }

  /** Where the fields of a merged structure are. */
  lemma MergedAt(fs: seq<Field>, other: seq<Field>, name: Name, bits: nat, dt: DataType, init: Option<seq<byte>>,
                 more: seq<Field>)
    ensures var r := Merged(fs, other, name, bits, dt, init) + more;
            && |fs| + 1 + |other| < |r| && r[|fs|] == Marker(fs, name, bits, dt, init)
            && forall q :: |fs| < q <= |fs| + |other| ==>
                 r[q] == Moved(other[q - |fs| - 1], name, Offset(UnalignedSize(fs), 0))
  {
    hide UnalignedSize, Moved, Marker, Guard, MovedAll;
    MarkerSize(fs, name, bits, dt, init);
    var front := fs + [Marker(fs, name, bits, dt, init)];
    var moved := MovedAll(other, name, Offset(UnalignedSize(fs), 0));
    var r := Merged(fs, other, name, bits, dt, init) + more;
    assert r == front + moved + [Guard(front + moved)] + more;
    forall q | |fs| < q <= |fs| + |other|
      ensures r[q] == Moved(other[q - |fs| - 1], name, Offset(UnalignedSize(fs), 0))
    {
      assert r[q] == moved[q - |fs| - 1];
    }
  }

  lemma MarkerSize(fs: seq<Field>, name: Name, bits: nat, dt: DataType, init: Option<seq<byte>>)
    ensures UnalignedSize(fs + [Marker(fs, name, bits, dt, init)]) == UnalignedSize(fs)
  {
  }

  lemma MovedByte(f: Field, name: Name, at: nat, base: nat, b: nat, len: nat)
    requires IsByteOf(f, base, b, len)
    ensures IsByteOf(Moved(f, name, Offset(at, 0)), at + base, b, len)
  {
    hide Low;
    AtByte(at, base + b);
  }

  lemma StringFieldIsByte(len: nat, b: nat)
    requires b < len + 2
    ensures IsByteOf(StringFields(len)[b], 0, b, len)
  {
  }

  lemma AddedString(fs: seq<Field>, name: Name, len: nat, init: seq<byte>, more: seq<Field>)
    requires ValidType(Str(len)) && |init| == len + 2
    ensures StringAt(Added(fs, name, Str(len), Some(init)) + more, |fs|, len, UnalignedSize(fs), init)
  {
    var dt, base := Str(len), UnalignedSize(fs);
    var other, r := StringFields(len), Added(fs, name, dt, Some(init)) + more;
    assert Added(fs, name, dt, Some(init)) == Merged(fs, other, name, Width(dt), dt, Some(init));
    MergedAt(fs, other, name, Width(dt), dt, Some(init), more);
    hide Added, Merged, Moved, IsByteOf, UnalignedSize, StringFields;
    forall q | |fs| < q <= |fs| + len + 2
      ensures IsByteOf(r[q], base, q - |fs| - 1, len)
    {
      StringFieldIsByte(len, q - |fs| - 1);
      MovedByte(other[q - |fs| - 1], name, base, 0, q - |fs| - 1, len);
    }
  }

  /** A STRING in a structure is one in every structure that embeds it, so its bytes are those declared there, too. */
  lemma EmbeddedString(fs: seq<Field>, other: seq<Field>, name: Name, bits: nat, dt: DataType, over: Option<seq<byte>>,
                       more: seq<Field>, p: nat, len: nat, base: nat, init: seq<byte>)
    requires StringAt(other, p, len, base, init)
    ensures StringAt(Merged(fs, other, name, bits, dt, over) + more, |fs| + 1 + p, len, UnalignedSize(fs) + base, init)
  {
    var r, at := Merged(fs, other, name, bits, dt, over) + more, UnalignedSize(fs);
    MergedAt(fs, other, name, bits, dt, over, more);
    hide Merged, UnalignedSize, IsByteOf;
    AtByte(at, base);
    assert r[|fs| + 1 + p] == Moved(other[p], name, Offset(at, 0));
    hide Moved, Add;
    forall q | |fs| + 1 + p < q <= |fs| + 1 + p + len + 2
      ensures IsByteOf(r[q], at + base, q - (|fs| + 1 + p) - 1, len)
    {
      MovedByte(other[q - |fs| - 1], name, at, base, q - |fs| - 1 - p - 1, len);
    }
  }

  /** The fields from `from` to `k` have no initial value that touches a region. */
  ghost predicate NoneTouches(fs: seq<Field>, o: Offset, bits: nat, from: nat, k: nat)
    requires k <= |fs|
  {
    forall q :: from <= q < k && fs[q].init.Some? ==> Disjoint(o, bits, fs[q].offset, fs[q].bitSize)
  }

  /** Initial values that are stored elsewhere leave a region alone. */
  lemma {:induction false} LaterInitsKeep(fs: seq<Field>, o: Offset, bits: nat, from: nat, k: nat)
    requires InitsFit(fs) && from <= k <= |fs| && Slot(o, bits)
    requires NoneTouches(fs, o, bits, from, k)
    ensures Fetched(InitializedUpTo(fs, k), o, bits) == Fetched(InitializedUpTo(fs, from), o, bits)
    decreases k
  {
    if from < k {
      var f := fs[k - 1];
      assert f.init.Some? ==> InitFitsField(f, UnalignedSize(fs));
      hide InitsFit, Stored, Fetched, UnalignedSize;
      LaterInitsKeep(fs, o, bits, from, k - 1);
      if f.init.Some? {
        FetchOfDisjointStore(InitializedUpTo(fs, k - 1), f.offset, f.bitSize, BytesVal(f.init.value), o, bits);
      }
    }
  }

  /** A byte of bytes that were stored. */
  lemma ByteOfStored(mem: seq<byte>, base: nat, bs: seq<byte>, b: nat)
    requires base + |bs| <= |mem| && b < |bs|
    ensures Fetched(Stored(mem, Offset(base, 0), 8 * |bs|, BytesVal(bs)), Offset(base + b, 0), 8) == Some(IntVal(bs[b]))
  {
    var r := Stored(mem, Offset(base, 0), 8 * |bs|, BytesVal(bs));
    assert r[base + b..base + b + 1] == [bs[b]];
    OneByte(bs[b]);
  }

  lemma OneByte(x: byte)
    ensures FromBigEndian([x]) == x
  {
    assert FromBigEndian([x][..0]) == 0;
  }

  lemma LaterAreApart(fs: seq<Field>, p: nat, len: nat, base: nat, init: seq<byte>, b: nat, q: nat)
    requires Laid(fs) && StringAt(fs, p, len, base, init) && 1 <= b < len + 2
    requires p < q < |fs| && fs[q].init.Some?
    ensures Disjoint(Offset(base + b, 0), 8, fs[q].offset, fs[q].bitSize)
  {
    assert IsByteOf(fs[p + 1 + b], base, b, len);
    if q <= p + 1 + b {
      assert IsByteOf(fs[q], base, q - p - 1, len);
    } else {
      assert Hi(fs[p + 1 + b]) <= Lo(fs[q]);
    }
  }

  lemma MaximumLength(fs: seq<Field>, p: nat, len: nat, base: nat, init: seq<byte>)
    requires Laid(fs) && InitsFit(fs) && StringAt(fs, p, len, base, init)
    ensures Fetched(Initialized(fs), Offset(base, 0), 8) == Some(IntVal(len))
  {
    assert IsByteOf(fs[p + 1], base, 0, len);
    OneByte(len);
    hide Laid, InitsFit, Fetched, StringAt, Initialized;
    InitialValue(fs, p + 1);
  }

  /** In a fresh instance a STRING has its maximum length, and otherwise the bytes it was declared with. */
  lemma StringByte(fs: seq<Field>, p: nat, len: nat, base: nat, init: seq<byte>, b: nat)
    requires Laid(fs) && InitsFit(fs) && StringAt(fs, p, len, base, init) && b < len + 2
    ensures Fetched(Initialized(fs), Offset(base + b, 0), 8) == Some(IntVal(if b == 0 then len else init[b]))
  {
    hide *;
    if b == 0 {
      MaximumLength(fs, p, len, base, init);
    } else {
      OtherByte(fs, p, len, base, init, b);
    }
  }

  lemma OtherByte(fs: seq<Field>, p: nat, len: nat, base: nat, init: seq<byte>, b: nat)
    requires Laid(fs) && InitsFit(fs) && StringAt(fs, p, len, base, init) && 1 <= b < len + 2
    ensures Fetched(Initialized(fs), Offset(base + b, 0), 8) == Some(IntVal(init[b]))
  {
    MarkerIsStored(fs, p, len, base, init);
    StringIsInside(fs, p, len, base, init);
    hide *;
    ByteSlot(base + b);
    AllLaterApart(fs, p, len, base, init, b);
    InitializedIs(fs);
    LaterInitsKeep(fs, Offset(base + b, 0), 8, p + 1, |fs|);
    ByteOfStored(InitializedUpTo(fs, p), base, init, b);
  }

  lemma StringIsInside(fs: seq<Field>, p: nat, len: nat, base: nat, init: seq<byte>)
    requires StringAt(fs, p, len, base, init)
    ensures p < |fs| && |init| == len + 2
  {
  }

  lemma ByteSlot(at: nat)
    ensures Slot(Offset(at, 0), 8) && FetchAllowed(Offset(at, 0), 8)
  {
  }

  lemma InitializedIs(fs: seq<Field>)
    requires InitsFit(fs)
    ensures Initialized(fs) == InitializedUpTo(fs, |fs|)
  {
  }

  lemma AllLaterApart(fs: seq<Field>, p: nat, len: nat, base: nat, init: seq<byte>, b: nat)
    requires Laid(fs) && StringAt(fs, p, len, base, init) && 1 <= b < len + 2
    ensures NoneTouches(fs, Offset(base + b, 0), 8, p + 1, |fs|)
  {
    hide Laid, Disjoint, StringAt;
    forall q | p + 1 <= q < |fs| && fs[q].init.Some?
      ensures Disjoint(Offset(base + b, 0), 8, fs[q].offset, fs[q].bitSize)
    {
      LaterAreApart(fs, p, len, base, init, b, q);
    }
  }

  lemma MarkerIsStored(fs: seq<Field>, p: nat, len: nat, base: nat, init: seq<byte>)
    requires InitsFit(fs) && StringAt(fs, p, len, base, init)
    ensures base + |init| <= |InitializedUpTo(fs, p)|
    ensures InitializedUpTo(fs, p + 1)
            == Stored(InitializedUpTo(fs, p), Offset(base, 0), 8 * |init|, BytesVal(init))
  {
    assert InitFitsField(fs[p], UnalignedSize(fs));
    hide InitsFit, Stored, UnalignedSize;
  }

  /** The field of character `c` is found behind the maximum length and the length. */
  lemma CharacterIsFound(fs: seq<Field>, name: Name, len: nat, init: Option<seq<byte>>, c: int)
    requires ValidType(Str(len)) && InitFits(Str(len), init) && name != [] && 1 <= c <= len
    ensures var f := Lookup(Added(fs, name, Str(len), init), ElementOf(name, [c]));
            f.Some? && f.value.offset == Offset(UnalignedSize(fs) + c + 1, 0) && f.value.bitSize == 8
  {
    assert len <= 254;
    assert ElementOf(name, [c]) == name + [Index([c])];
    hide *;
    StringCharacter(len, c);
    CharacterPart(name, len, c);
    LookupPart(fs, name, Str(len), init, [Index([c])]);
    MovedByteOffset(Field([Index([c])], Offset(c + 1, 0), 8, Basic(8), None, None), name, UnalignedSize(fs));
  }

  lemma MovedByteOffset(f: Field, name: Name, at: nat)
    requires f.offset.bitOffset == 0
    ensures Moved(f, name, Offset(at, 0)).offset == Offset(at + f.offset.byteOffset, 0)
    ensures Moved(f, name, Offset(at, 0)).bitSize == f.bitSize
  {
    AtByte(at, f.offset.byteOffset);
  }

  /** In `mem`, the STRING at byte `base` has its maximum length, and otherwise the bytes of `init`. */
  ghost predicate HoldsString(mem: seq<byte>, base: nat, len: nat, init: seq<byte>) {
    |init| == len + 2
    && forall b :: 0 <= b < len + 2 ==>
         Fetched(mem, Offset(base + b, 0), 8) == Some(IntVal(if b == 0 then len else init[b]))
  }

  /** The field of each character of the STRING `name` reads that character of `init`. */
  ghost predicate ReadsCharacters(r: seq<Field>, mem: seq<byte>, name: Name, base: nat, len: nat, init: seq<byte>)
    requires |init| == len + 2
  {
    forall c :: 1 <= c <= len ==> ReadsAs(Lookup(r, ElementOf(name, [c])), mem, base + c + 1, init[c + 1])
  }

  predicate ReadsAs(f: Option<Field>, mem: seq<byte>, at: nat, b: byte) {
    && f.Some? && f.value.offset == Offset(at, 0) && f.value.bitSize == 8
    && Fetched(mem, Offset(at, 0), 8) == Some(IntVal(b))
  }

  /**
   In every fresh instance of a structure that declares the STRING, each of its characters is
   the declared one, and so is its length; only the maximum length is that of the type.
   */
  lemma StringInitialValue(fs: seq<Field>, name: Name, len: nat, init: seq<byte>, more: seq<Field>)
    requires ValidType(Str(len)) && |init| == len + 2 && name != []
    requires var r := Added(fs, name, Str(len), Some(init)); Laid(r + more) && InitsFit(r + more)
    ensures var r := Added(fs, name, Str(len), Some(init));
            && HoldsString(Initialized(r + more), UnalignedSize(fs), len, init)
            && ReadsCharacters(r, Initialized(r + more), name, UnalignedSize(fs), len, init)
  {
    var r := Added(fs, name, Str(len), Some(init));
    hide *;
    AddedString(fs, name, len, init, more);
    StringIsHeld(r + more, |fs|, len, UnalignedSize(fs), init);
    CharactersRead(fs, name, len, init, Initialized(r + more));
  }

  lemma CharactersRead(fs: seq<Field>, name: Name, len: nat, init: seq<byte>, mem: seq<byte>)
    requires ValidType(Str(len)) && |init| == len + 2 && name != []
    requires HoldsString(mem, UnalignedSize(fs), len, init)
    ensures ReadsCharacters(Added(fs, name, Str(len), Some(init)), mem, name, UnalignedSize(fs), len, init)
  {
    hide Added, Lookup, UnalignedSize, HoldsString, ReadsAs, ElementOf;
    forall c | 1 <= c <= len
      ensures ReadsAs(Lookup(Added(fs, name, Str(len), Some(init)), ElementOf(name, [c])), mem,
                      UnalignedSize(fs) + c + 1, init[c + 1])
    {
      CharacterReads(fs, name, len, init, mem, c);
    }
  }

  lemma CharacterReads(fs: seq<Field>, name: Name, len: nat, init: seq<byte>, mem: seq<byte>, c: int)
    requires ValidType(Str(len)) && |init| == len + 2 && name != [] && 1 <= c <= len
    requires HoldsString(mem, UnalignedSize(fs), len, init)
    ensures ReadsAs(Lookup(Added(fs, name, Str(len), Some(init)), ElementOf(name, [c])), mem,
                    UnalignedSize(fs) + c + 1, init[c + 1])
  {
    assert Fetched(mem, Offset(UnalignedSize(fs) + (c + 1), 0), 8) == Some(IntVal(init[c + 1]));
    hide Added, Lookup, UnalignedSize, Fetched, HoldsString;
    CharacterIsFound(fs, name, len, Some(init), c);
  }

  lemma StringIsHeld(fs: seq<Field>, p: nat, len: nat, base: nat, init: seq<byte>)
    requires Laid(fs) && InitsFit(fs) && StringAt(fs, p, len, base, init)
    ensures HoldsString(Initialized(fs), base, len, init)
  {
    hide Laid, InitsFit, Fetched, Initialized;
    forall b | 0 <= b < len + 2
      ensures Fetched(Initialized(fs), Offset(base + b, 0), 8) == Some(IntVal(if b == 0 then len else init[b]))
    {
      StringByte(fs, p, len, base, init, b);
    }
  }

  // ----- arrays of STRINGs

  function StringBits(len: nat): (w: nat)
    ensures ElementBits(w) && BytesFor(w) == len + 2
  {
    8 * (len + 2)
  }

  /** The bytes declared for an element: those of the last initial value for its tuple, or zeros. */
  function DeclaredString(len: nat, inits: seq<DataInit>, idx: seq<int>): (r: seq<byte>)
    requires forall j :: 0 <= j < |inits| ==> Acceptable(StringBits(len), inits[j].value)
    ensures |r| == len + 2
  {
    DeclaredIsAcceptable(StringBits(len), inits, |inits|, idx);
    Encoded(StringBits(len), Declared(StringBits(len), inits, |inits|, idx))
  }

  lemma {:induction false} DeclaredIsAcceptable(bits: nat, inits: seq<DataInit>, k: nat, idx: seq<int>)
    requires k <= |inits| && (forall j :: 0 <= j < |inits| ==> Acceptable(bits, inits[j].value))
    requires bits % 8 == 0 && bits > 0
    ensures StoreAllowed(ZERO, bits, Declared(bits, inits, k, idx))
  {
    if k > 0 && inits[k - 1].indices != idx {
      DeclaredIsAcceptable(bits, inits, k - 1, idx);
    }
  }

  /** A declared STRING constant is declared as its own bytes. */
  lemma DeclaredIsLast(len: nat, inits: seq<DataInit>, idx: seq<int>, j: nat)
    requires forall i :: 0 <= i < |inits| ==> Acceptable(StringBits(len), inits[i].value)
    requires j < |inits| && inits[j].indices == idx && inits[j].value.BytesVal?
    requires forall i :: j < i < |inits| ==> inits[i].indices != idx
    ensures DeclaredString(len, inits, idx) == inits[j].value.b
  {
    var w, b := StringBits(len), inits[j].value.b;
    assert Acceptable(w, inits[j].value);
    DeclaredIsLastUpTo(w, inits, idx, j, |inits|);
    if FetchedAsInt(w) {
      BigEndianOfFromBigEndian(b);
    }
  }

  lemma {:induction false} DeclaredIsLastUpTo(bits: nat, inits: seq<DataInit>, idx: seq<int>, j: nat, k: nat)
    requires forall i :: 0 <= i < |inits| ==> Acceptable(bits, inits[i].value)
    requires j < k <= |inits| && inits[j].indices == idx && forall i :: j < i < k ==> inits[i].indices != idx
    ensures Acceptable(bits, inits[j].value) && Declared(bits, inits, k, idx) == Norm(bits, inits[j].value)
    decreases k
  {
    assert Acceptable(bits, inits[j].value);
    hide Norm;
    if j < k - 1 {
      DeclaredIsLastUpTo(bits, inits, idx, j, k - 1);
    }
  }

  /** The piece of the initial value that belongs to an element is what was declared for it. */
  lemma PieceIsDeclared(dims: seq<Dim>, len: nat, inits: seq<DataInit>, idx: seq<int>)
    requires ValidDims(dims) && ValidInits(dims, StringBits(len), inits) && InBounds(dims, idx) && ValidType(Str(len))
    ensures ElemInit(Some(InitBytes(dims, StringBits(len), inits, |inits|)), Str(len), LinearIndex(dims, idx))
            == Some(DeclaredString(len, inits, idx))
  {
    var w, i := StringBits(len), LinearIndex(dims, idx);
    var init := InitBytes(dims, w, inits, |inits|);
    ElementIsInside(i, NrElements(dims), w);
    assert init != [];
    InitBytesHold(dims, w, inits, |inits|, idx);
    DeclaredIsAcceptable(w, inits, |inits|, idx);
    var v := Declared(w, inits, |inits|, idx);
    assert Width(Str(len)) == w && At(i, w) == FromBitOffset(MulNat(i, w));
    hide InitBytes, Declared, NrElements, Collapse, InBounds, Fetched;
    PieceIs(init, len, i, v);
  }

  lemma PieceIs(init: seq<byte>, len: nat, i: nat, v: Value)
    requires ValidType(Str(len)) && init != [] && StoreAllowed(ZERO, StringBits(len), v)
    requires FetchAllowed(At(i, StringBits(len)), StringBits(len))
    requires Fetched(init, At(i, StringBits(len)), StringBits(len)) == Some(v)
    ensures ElemInit(Some(init), Str(len), i) == Some(Encoded(StringBits(len), v))
  {
    var zeros, w := Zeros(len + 2), StringBits(len);
    assert Stored(zeros, ZERO, w, v) == Encoded(w, v);
  }

  /** An array of STRINGs is one of its elements, with what is added before and behind it. */
  lemma StringOfArray(fs: seq<Field>, name: Name, dims: seq<Dim>, len: nat, init: Option<seq<byte>>, idx: seq<int>,
                      s: seq<byte>) returns (behind: seq<Field>)
    requires ValidType(Array(dims, Str(len))) && InitFits(Array(dims, Str(len)), init) && InBounds(dims, idx)
    requires name != [] && |s| == len + 2 && ElemInit(init, Str(len), LinearIndex(dims, idx)) == Some(s)
    ensures Added(fs, name, Array(dims, Str(len)), init)
            == Added(InFront(fs, name, dims, len, init, idx), ElementOf(name, idx), Str(len), Some(s)) + behind
  {
    hide *;
    StringElement(InFront(fs, name, dims, len, init, idx), name, dims, len, init, idx, s);
    ValidArray(dims, Str(len), idx);
    InFrontIs(fs, name, dims, len, init, idx);
    var one, upTo, all := ArrayParts(fs, name, dims, Str(len), init, LinearIndex(dims, idx));
    behind := Behind(one, all, [Guard(all)]);
  }

  /** Looking up a STRING of the array, or one of its characters, is looking it up in its element. */
  lemma LookupInString(fs: seq<Field>, name: Name, dims: seq<Dim>, len: nat, init: Option<seq<byte>>, idx: seq<int>,
                       s: seq<byte>, rest: Name)
    requires ValidType(Array(dims, Str(len))) && InitFits(Array(dims, Str(len)), init) && InBounds(dims, idx)
    requires name != [] && |s| == len + 2 && ElemInit(init, Str(len), LinearIndex(dims, idx)) == Some(s)
    ensures Lookup(Added(fs, name, Array(dims, Str(len)), init), ElementOf(name, idx) + rest)
            == Lookup(Added(InFront(fs, name, dims, len, init, idx), ElementOf(name, idx), Str(len), Some(s)),
                      ElementOf(name, idx) + rest)
  {
    hide *;
    StringElement(InFront(fs, name, dims, len, init, idx), name, dims, len, init, idx, s);
    ValidArray(dims, Str(len), idx);
    InFrontIs(fs, name, dims, len, init, idx);
    LookupInElement(fs, name, dims, Str(len), init, LinearIndex(dims, idx), rest);
  }

  /** The fields in front of one element. */
  function InFront(fs: seq<Field>, name: Name, dims: seq<Dim>, len: nat, init: Option<seq<byte>>, idx: seq<int>)
      : seq<Field>
    requires ValidType(Array(dims, Str(len))) && InitFits(Array(dims, Str(len)), init) && InBounds(dims, idx)
  {
    Elements(WithMarker(fs, name, dims, Str(len)), name, dims, Str(len), init, LinearIndex(dims, idx))
  }

  lemma InFrontIs(fs: seq<Field>, name: Name, dims: seq<Dim>, len: nat, init: Option<seq<byte>>, idx: seq<int>)
    requires ValidType(Array(dims, Str(len))) && InitFits(Array(dims, Str(len)), init) && InBounds(dims, idx)
    ensures var dt := Array(dims, Str(len));
            InFront(fs, name, dims, len, init, idx)
            == Elements(fs + [Marker(fs, name, Width(dt), dt, None)], name, dims, Str(len), init,
                        LinearIndex(dims, idx))
  {
    hide Elements, Width, InBounds, UnalignedSize;
  }

  lemma ValidArray(dims: seq<Dim>, elem: DataType, idx: seq<int>)
    requires ValidType(Array(dims, elem)) && InBounds(dims, idx)
    ensures ValidDims(dims) && ValidType(elem) && !elem.Array? && LinearIndex(dims, idx) < NrElements(dims)
  {
  }

  lemma Behind(one: seq<Field>, all: seq<Field>, guard: seq<Field>) returns (behind: seq<Field>)
    requires one <= all
    ensures all + guard == one + behind
  {
    behind := all[|one|..] + guard;
  }

  lemma StringElement(before: seq<Field>, name: Name, dims: seq<Dim>, len: nat, init: Option<seq<byte>>, idx: seq<int>,
                      s: seq<byte>)
    requires ValidType(Array(dims, Str(len))) && InitFits(Array(dims, Str(len)), init) && InBounds(dims, idx)
    requires |s| == len + 2 && ElemInit(init, Str(len), LinearIndex(dims, idx)) == Some(s)
    ensures ElementOf(name, idx) == name + [Index(Expand(dims, LinearIndex(dims, idx)))]
    ensures ElementAdded(before, name, dims, Str(len), init, LinearIndex(dims, idx))
            == Added(before, ElementOf(name, idx), Str(len), Some(s))
  {
    ExpandOfCollapse(dims, idx);
    hide Added, Expand, Collapse, ElemInit, Width, InBounds, NrElements;
  }

  /**
   In every fresh instance of a structure that declares an array of STRINGs, the STRING of each
   tuple has the characters and the length that were declared for that tuple, whatever else is
   declared, and also if its length is odd.
   */
  lemma StringArrayInitialValues(fs: seq<Field>, name: Name, dims: seq<Dim>, len: nat, inits: seq<DataInit>,
                                 more: seq<Field>, idx: seq<int>)
    requires ValidType(Array(dims, Str(len))) && ValidInits(dims, StringBits(len), inits) && InBounds(dims, idx)
    requires name != []
    requires var r := Added(fs, name, Array(dims, Str(len)), Some(InitBytes(dims, StringBits(len), inits, |inits|)));
             Laid(r + more) && InitsFit(r + more)
    ensures var r := Added(fs, name, Array(dims, Str(len)), Some(InitBytes(dims, StringBits(len), inits, |inits|)));
            var f, s := Lookup(r, ElementOf(name, idx)), DeclaredString(len, inits, idx);
            && f.Some? && f.value.dataType == Str(len) && f.value.offset.bitOffset == 0
            && HoldsString(Initialized(r + more), f.value.offset.byteOffset, len, s)
            && ReadsCharacters(r, Initialized(r + more), ElementOf(name, idx), f.value.offset.byteOffset, len, s)
  {
    var init, s := Some(InitBytes(dims, StringBits(len), inits, |inits|)), DeclaredString(len, inits, idx);
    PieceIsDeclared(dims, len, inits, idx);
    var step, before := ElementOf(name, idx), InFront(fs, name, dims, len, init, idx);
    hide *;
    var behind := StringOfArray(fs, name, dims, len, init, idx, s);
    Associate(Added(before, step, Str(len), Some(s)), behind, more);
    StringInitialValue(before, step, len, s, behind + more);
    ElementReads(fs, name, dims, len, init, idx, s, Initialized(Added(fs, name, Array(dims, Str(len)), init) + more));
  }

  lemma Associate(a: seq<Field>, b: seq<Field>, c: seq<Field>)
    ensures a + b + c == a + (b + c)
  {
  }

  lemma ElementReads(fs: seq<Field>, name: Name, dims: seq<Dim>, len: nat, init: Option<seq<byte>>, idx: seq<int>,
                     s: seq<byte>, mem: seq<byte>)
    requires ValidType(Array(dims, Str(len))) && InitFits(Array(dims, Str(len)), init) && InBounds(dims, idx)
    requires name != [] && |s| == len + 2 && ElemInit(init, Str(len), LinearIndex(dims, idx)) == Some(s)
    requires var before := InFront(fs, name, dims, len, init, idx);
             && HoldsString(mem, UnalignedSize(before), len, s)
             && ReadsCharacters(Added(before, ElementOf(name, idx), Str(len), Some(s)), mem, ElementOf(name, idx),
                                UnalignedSize(before), len, s)
    ensures var r := Added(fs, name, Array(dims, Str(len)), init);
            var f := Lookup(r, ElementOf(name, idx));
            && f.Some? && f.value.dataType == Str(len) && f.value.offset.bitOffset == 0
            && HoldsString(mem, f.value.offset.byteOffset, len, s)
            && ReadsCharacters(r, mem, ElementOf(name, idx), f.value.offset.byteOffset, len, s)
  {
    var r, step, before := Added(fs, name, Array(dims, Str(len)), init), ElementOf(name, idx),
      InFront(fs, name, dims, len, init, idx);
    hide *;
    LookupInString(fs, name, dims, len, init, idx, s, []);
    WholeName(name, idx);
    ValidString(len, s);
    MarkerIsFound(before, step, Str(len), Some(s));
    CharactersInString(fs, name, dims, len, init, idx, s);
    SameCharacters(Added(before, step, Str(len), Some(s)), r, mem, step, UnalignedSize(before), len, s);
  }

  lemma WholeName(name: Name, idx: seq<int>)
    ensures ElementOf(name, idx) + [] == ElementOf(name, idx) && ElementOf(name, idx) != []
  {
  }

  lemma ValidString(len: nat, s: seq<byte>)
    requires |s| == len + 2
    ensures InitFits(Str(len), Some(s)) && !Str(len).Basic?
  {
  }

  ghost predicate SameLookups(a: seq<Field>, b: seq<Field>, name: Name) {
    forall c: int :: Lookup(a, ElementOf(name, [c])) == Lookup(b, ElementOf(name, [c]))
  }

  lemma CharactersInString(fs: seq<Field>, name: Name, dims: seq<Dim>, len: nat, init: Option<seq<byte>>, idx: seq<int>,
                           s: seq<byte>)
    requires ValidType(Array(dims, Str(len))) && InitFits(Array(dims, Str(len)), init) && InBounds(dims, idx)
    requires name != [] && |s| == len + 2 && ElemInit(init, Str(len), LinearIndex(dims, idx)) == Some(s)
    ensures SameLookups(Added(InFront(fs, name, dims, len, init, idx), ElementOf(name, idx), Str(len), Some(s)),
                        Added(fs, name, Array(dims, Str(len)), init), ElementOf(name, idx))
  {
    hide InFront, Added, Lookup, InBounds, ElemInit;
    forall c: int
      ensures Lookup(Added(InFront(fs, name, dims, len, init, idx), ElementOf(name, idx), Str(len), Some(s)),
                     ElementOf(ElementOf(name, idx), [c]))
              == Lookup(Added(fs, name, Array(dims, Str(len)), init), ElementOf(ElementOf(name, idx), [c]))
    {
      LookupInString(fs, name, dims, len, init, idx, s, [Index([c])]);
    }
  }

  lemma SameCharacters(one: seq<Field>, r: seq<Field>, mem: seq<byte>, name: Name, base: nat, len: nat, s: seq<byte>)
    requires |s| == len + 2 && ReadsCharacters(one, mem, name, base, len, s) && SameLookups(one, r, name)
    ensures ReadsCharacters(r, mem, name, base, len, s)
  {
    hide ReadsAs, Lookup, ElementOf;
  }
}
