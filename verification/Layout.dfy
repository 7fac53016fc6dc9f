/**
 The layout of data structures (`AwlStruct`): where each declared variable lives.

 A structure is a list of fields in address order. STRUCT, UDT, STRING and ARRAY variables
 are flattened into it: a marker field carries the variable's own name and a zero-width
 override, the parts follow under longer names, and a zero-width guard field ends the
 group. Names are modelled as paths: `a[1,2].b` is `[Ident("a"), Index([1, 2]), Ident("b")]`
 and the empty path is the absent name of padding and guard fields.
 */
module Layout {
  import opened Bytes
  import opened Offset
  import opened Memory
  import opened Options
  import opened ArrayIndex

  datatype Step = Ident(name: string) | Index(indices: seq<int>)

  type Name = seq<Step>

  /**
   A resolved data type. `Basic` stands for every type of fixed width, `Struct` for STRUCT
   and for a built UDT.
   */
  datatype DataType =
    | Basic(bits: nat)
    | Str(len: nat)
    | Struct(members: seq<Member>)
    | Array(dims: seq<Dim>, elem: DataType)

  datatype Member = Member(name: string, dataType: DataType, init: Option<seq<byte>>)

  /** `over` is the offset of the zero-width override of a marker field. */
  datatype Field = Field(name: Name, offset: Offset, bitSize: nat, dataType: DataType,
                         init: Option<seq<byte>>, over: Option<Offset>)

  // ----- the types that can be declared

  predicate ValidType(dt: DataType) {
    match dt
    case Basic(b) => b == 1 || (b % 8 == 0 && b > 0)
    case Str(len) => len <= 254
    case Struct(ms) => ms != [] && ValidMembers(ms)
    case Array(dims, e) => ValidDims(dims) && 1 <= |dims| <= 6 && !e.Array? && ValidType(e)
  }

  predicate ValidMembers(ms: seq<Member>) {
    DistinctNames(ms) && forall m :: m in ms ==> ValidMember(m)
  }

  predicate ValidMember(m: Member) {
    ValidType(m.dataType) && InitFits(m.dataType, m.init)
  }

  predicate DistinctNames(ms: seq<Member>) {
    forall i, j :: 0 <= i < j < |ms| ==> ms[i].name != ms[j].name
  }

  lemma PrefixIsValid(ms: seq<Member>)
    requires ValidMembers(ms) && ms != []
    ensures ValidMembers(ms[..|ms| - 1]) && ValidMember(ms[|ms| - 1])
  {
    assert ms[|ms| - 1] in ms;
    forall m | m in ms[..|ms| - 1]
      ensures m in ms
    {
    }
  }

  /** Initial values come as bytes of the size of the variable; a STRUCT has none of its own. */
  predicate InitFits(dt: DataType, init: Option<seq<byte>>) {
    init.Some? ==>
      match dt
      case Basic(b) => |init.value| == BytesFor(b)
      case Str(len) => |init.value| == len + 2
      case Struct(_) => false
      case Array(_, e) => !e.Struct?
  }

  // ----- sizes

  /** The byte behind a field; a marker field ends where it starts. */
  function EndByte(f: Field): nat {
    if f.over.Some? then f.over.value.byteOffset else f.offset.byteOffset + BytesFor(f.bitSize)
  }

  function UnalignedSize(fs: seq<Field>): nat {
    if fs == [] then 0 else EndByte(fs[|fs| - 1])
  }

  function EvenUp(n: nat): nat {
    n + n % 2
  }

  function StructSize(fs: seq<Field>): nat {
    EvenUp(UnalignedSize(fs))
  }

  /** The width of a data type in bits. */
  function Width(dt: DataType): nat
    requires ValidType(dt)
    decreases dt, 1
  {
    match dt
    case Basic(b) => b
    case Str(len) => (len + 2) * 8
    case Struct(ms) => StructSize(Build(ms)) * 8
    case Array(dims, e) => MulNat(NrElements(dims), Width(e))
  }

  function MulNat(a: nat, b: nat): (r: nat)
    ensures r == a * b
  {
    ProductNonNegative(a, b);
    a * b
  }

  lemma ProductNonNegative(a: nat, b: nat)
    ensures 0 <= a * b
  {
  }

  // ----- adding fields

  function Guard(fs: seq<Field>): Field {
    Field([], Offset(UnalignedSize(fs), 0), 0, Basic(0), None, None)
  }

  function Marker(fs: seq<Field>, name: Name, bits: nat, dt: DataType, init: Option<seq<byte>>): Field {
    var base := Offset(UnalignedSize(fs), 0);
    Field(name, base, bits, dt, init, Some(base))
  }

  /** A field of another structure as it appears under `name` at `base`. */
  function Moved(f: Field, name: Name, base: Offset): Field {
    f.(name := if name != [] && f.name != [] then name + f.name else [], offset := Add(base, f.offset))
  }

  function MovedAll(fs: seq<Field>, name: Name, base: Offset): (r: seq<Field>)
    ensures |r| == |fs|
    ensures forall i :: 0 <= i < |fs| ==> r[i] == Moved(fs[i], name, base)
  {
    seq(|fs|, i requires 0 <= i < |fs| => Moved(fs[i], name, base))
  }

  /** Merge a structure: marker, its fields, guard. */
  function Merged(fs: seq<Field>, other: seq<Field>, name: Name, bits: nat, dt: DataType,
                  init: Option<seq<byte>>): seq<Field>
  {
    var withMarker := fs + [Marker(fs, name, bits, dt, init)];
    var withFields := withMarker + MovedAll(other, name, Offset(UnalignedSize(withMarker), 0));
    withFields + [Guard(withFields)]
  }

  /** Consecutive bits share a byte; everything else starts at the next byte. */
  function NextOffset(fs: seq<Field>, bits: nat): Offset {
    if bits == 1 && fs != [] && fs[|fs| - 1].bitSize == 1 && fs[|fs| - 1].offset.bitOffset < 7
    then Offset(fs[|fs| - 1].offset.byteOffset, fs[|fs| - 1].offset.bitOffset + 1)
    else Offset(UnalignedSize(fs), 0)
  }

  function AddedBasic(fs: seq<Field>, name: Name, bits: nat, init: Option<seq<byte>>): seq<Field> {
    fs + [Field(name, NextOffset(fs, bits), bits, Basic(bits), init, None)]
  }

  /** A STRING[len]: its maximum length, its length, and the characters. */
  function StringFields(len: nat): (r: seq<Field>)
    ensures |r| == len + 2
  {
    [Field([], Offset(0, 0), 8, Basic(8), Some([Low(len)]), None),
     Field([], Offset(1, 0), 8, Basic(8), None, None)]
    + seq(len, i requires 0 <= i < len => Field([Index([i + 1])], Offset(i + 2, 0), 8, Basic(8), None, None))
  }

  /** The part of an array's initial value that belongs to element `i`. */
  function ElemInit(init: Option<seq<byte>>, elem: DataType, i: nat): (r: Option<seq<byte>>)
    requires ValidType(elem) && !elem.Array?
    decreases elem, 3
  {
    var w := Width(elem);
    if init == None || init.value == [] then None
    else
      ElemOffsetAligned(elem, i);
      var v := Fetched(init.value, FromBitOffset(MulNat(i, w)), w);
      if v == None then None else Some(Stored(Zeros(BytesFor(w)), ZERO, w, v.value))
  }

  lemma ElemOffsetAligned(elem: DataType, i: nat)
    requires ValidType(elem) && !elem.Array?
    ensures Width(elem) == 1 || Width(elem) % 8 == 0
    ensures FetchAllowed(FromBitOffset(MulNat(i, Width(elem))), Width(elem))
    decreases elem, 2
  {
    var w := Width(elem);
    if w != 1 {
      MultipleOfEight(i, w);
    }
  }

  lemma MultipleOfEight(i: nat, w: nat)
    requires w % 8 == 0
    ensures (i * w) % 8 == 0 && i * w / 8 == i * (w / 8)
  {
    assert i * w == 8 * (i * (w / 8)) by {
      assert w == 8 * (w / 8);
      assert i * (8 * (w / 8)) == 8 * (i * (w / 8));
    }
  }

  /** The fields after the first `k` elements of an array. */
  function Elements(fs: seq<Field>, name: Name, dims: seq<Dim>, elem: DataType,
                    init: Option<seq<byte>>, k: nat): seq<Field>
    requires ValidDims(dims) && ValidType(elem) && !elem.Array?
    requires init.Some? ==> !elem.Struct?
    decreases elem, 6, k
  {
    if k == 0 then fs
    else
      var before := Elements(fs, name, dims, elem, init, k - 1);
      Padded(ElementAdded(before, name, dims, elem, init, k - 1), ElementPadding(elem))
  }

  function ElementAdded(fs: seq<Field>, name: Name, dims: seq<Dim>, elem: DataType,
                        init: Option<seq<byte>>, i: nat): seq<Field>
    requires ValidDims(dims) && ValidType(elem) && !elem.Array?
    requires init.Some? ==> !elem.Struct?
    decreases elem, 6, 0
  {
    ElemInitFits(init, elem, i);
    Added(fs, name + [Index(Expand(dims, i))], elem, ElemInit(init, elem, i))
  }

  lemma ElemInitFits(init: Option<seq<byte>>, elem: DataType, i: nat)
    requires ValidType(elem) && !elem.Array?
    requires init.Some? ==> !elem.Struct?
    ensures InitFits(elem, ElemInit(init, elem, i))
    decreases elem, 4
  {
  }

  /** Elements of an odd number of bytes, words or bigger, are followed by a padding byte. */
  function ElementPadding(elem: DataType): nat
    requires ValidType(elem)
    decreases elem, 2
  {
    if Width(elem) > 8 && BytesFor(Width(elem)) % 2 != 0 then 1 else 0
  }

  function Padded(fs: seq<Field>, n: nat): seq<Field>
    decreases n
  {
    if n == 0 then fs else Padded(AddedBasic(fs, [], 8, None), n - 1)
  }

  /** The fields after a variable of type `dt` was added. */
  function Added(fs: seq<Field>, name: Name, dt: DataType, init: Option<seq<byte>>): seq<Field>
    requires ValidType(dt) && InitFits(dt, init)
    decreases dt, 5
  {
    match dt
    case Basic(b) => AddedBasic(fs, name, b, init)
    case Str(len) => Merged(fs, StringFields(len), name, Width(dt), dt, init)
    case Struct(ms) => Merged(fs, Build(ms), name, Width(dt), dt, init)
    case Array(dims, e) =>
      var withMarker := fs + [Marker(fs, name, Width(dt), dt, None)];
      var withElements := Elements(withMarker, name, dims, e, init, NrElements(dims));
      withElements + [Guard(withElements)]
  }

  function Padding(fs: seq<Field>, byteAlignment: nat): nat
    requires byteAlignment > 0
  {
    (byteAlignment - UnalignedSize(fs) % byteAlignment) % byteAlignment
  }

  function AddedAligned(fs: seq<Field>, name: Name, dt: DataType, byteAlignment: nat,
                        init: Option<seq<byte>>): seq<Field>
    requires ValidType(dt) && InitFits(dt, init) && byteAlignment > 0
    decreases dt, 6
  {
    Added(Padded(fs, Padding(fs, byteAlignment)), name, dt, init)
  }

  /** Bits and bytes need no alignment, everything else starts at a word. */
  function NaturalAlignment(dt: DataType): nat
    requires ValidType(dt)
    decreases dt, 2
  {
    if Width(dt) == 1 || Width(dt) == 8 then 1 else 2
  }

  function AddedNaturally(fs: seq<Field>, name: Name, dt: DataType, init: Option<seq<byte>>): seq<Field>
    requires ValidType(dt) && InitFits(dt, init)
    decreases dt, 7
  {
    AddedAligned(fs, name, dt, NaturalAlignment(dt), init)
  }

  /** The structure of a STRUCT type. */
  function Build(ms: seq<Member>): seq<Field>
    requires ValidMembers(ms)
    decreases ms
  {
    if ms == [] then []
    else
      var last := ms[|ms| - 1];
      PrefixIsValid(ms);
      AddedNaturally(Build(ms[..|ms| - 1]), [Ident(last.name)], last.dataType, last.init)
  }
}
