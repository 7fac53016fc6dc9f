/**
 Data structures as they are built at run time: the class `AwlStruct`, and the initial values
 that its fields give an instance.
 */
module DataStructure {
  import opened Bytes
  import opened Offset
  import opened Memory
  import opened Options
  import opened ArrayIndex
  import opened Layout
  import opened StructLayout

  /** The field registered last under a name. */
  function Lookup(fs: seq<Field>, name: Name): Option<Field> {
    if fs == [] || name == [] then None
    else if fs[|fs| - 1].name == name then Some(fs[|fs| - 1])
    else Lookup(fs[..|fs| - 1], name)
  }

  /** Where the field that `Lookup` finds is. */
  ghost function FieldIndex(fs: seq<Field>, name: Name): (i: nat)
    requires Lookup(fs, name).Some?
    ensures i < |fs| && Some(fs[i]) == Lookup(fs, name) && fs[i].name == name
    ensures forall q :: i < q < |fs| ==> fs[q].name != name
  {
    if fs[|fs| - 1].name == name then |fs| - 1 else FieldIndex(fs[..|fs| - 1], name)
  }

  /** The memory of a fresh instance after its first `k` initial values. */
  function InitializedUpTo(fs: seq<Field>, k: nat): (mem: seq<byte>)
    requires k <= |fs| && InitsFit(fs)
    ensures |mem| == StructSize(fs)
  {
    if k == 0 then Zeros(StructSize(fs))
    else
      var before, f := InitializedUpTo(fs, k - 1), fs[k - 1];
      if f.init == None then before else Stored(before, f.offset, f.bitSize, BytesVal(f.init.value))
  }

  function Initialized(fs: seq<Field>): (mem: seq<byte>)
    requires InitsFit(fs)
    ensures |mem| == StructSize(fs)
  {
    InitializedUpTo(fs, |fs|)
  }

  /** Initial values have the size of their field and lie inside the structure. */
  predicate InitsFit(fs: seq<Field>) {
    forall i :: 0 <= i < |fs| && fs[i].init.Some? ==> InitFitsField(fs[i], UnalignedSize(fs))
  }

  predicate InitFitsField(f: Field, size: nat) {
    f.init.Some? ==>
      && f.init.value != [] && |f.init.value| == BytesFor(f.bitSize)
      && Slot(f.offset, f.bitSize) && f.offset.byteOffset + BytesFor(f.bitSize) <= size
  }

  class AwlStruct {
    var fields: seq<Field>
    var name2field: map<Name, Field>

    /** The dictionary finds the field registered last. */
    ghost predicate NamesValid()
      reads this
    {
      forall n :: (if n in name2field then Some(name2field[n]) else None) == Lookup(fields, n)
    }

    ghost predicate Valid()
      reads this
    {
      NamesValid() && Laid(fields) && InitsFit(fields)
    }

    constructor ()
      ensures Valid() && fields == []
    {
      fields, name2field := [], map[];
    }

    function GetUnalignedSize(): nat
      reads this
    {
      UnalignedSize(fields)
    }

    function GetSize(): nat
      reads this
    {
      StructSize(fields)
    }

    function GetField(name: Name): (r: Option<Field>)
      requires NamesValid()
      reads this
      ensures r == Lookup(fields, name)
    {
      if name in name2field then Some(name2field[name]) else None
    }

    method RegisterField(f: Field)
      requires NamesValid()
      modifies this
      ensures NamesValid() && fields == old(fields) + [f]
    {
      assert (fields + [f])[..|fields|] == fields;
      fields := fields + [f];
      if f.name != [] {
        name2field := name2field[f.name := f];
      }
    }

    method AddDummyField()
      requires NamesValid()
      modifies this
      ensures NamesValid() && fields == old(fields) + [Guard(old(fields))]
    {
      RegisterField(Field([], Offset(GetUnalignedSize(), 0), 0, Basic(0), None, None));
    }

    /** Merge another structure's fields into this one. */
    method Merge(other: seq<Field>, name: Name, bits: nat, dt: DataType, init: Option<seq<byte>>)
        returns (marker: Field)
      requires NamesValid()
      modifies this
      ensures NamesValid() && fields == Merged(old(fields), other, name, bits, dt, init)
      ensures marker == fields[|old(fields)|]
    {
      hide NamesValid;
      var baseOffset := Offset(GetUnalignedSize(), 0);
      marker := Field(name, baseOffset, bits, dt, init, Some(baseOffset));
      RegisterField(marker);
      baseOffset := Offset(GetUnalignedSize(), 0);
      ghost var withMarker := fields;
      for i := 0 to |other|
        invariant NamesValid() && fields == withMarker + MovedAll(other, name, baseOffset)[..i]
      {
        var f := other[i];
        var newName := if name != [] && f.name != [] then name + f.name else [];
        RegisterField(f.(name := newName, offset := Add(baseOffset, f.offset)));
        assert MovedAll(other, name, baseOffset)[..i + 1]
            == MovedAll(other, name, baseOffset)[..i] + [Moved(f, name, baseOffset)];
      }
      assert MovedAll(other, name, baseOffset)[..|other|] == MovedAll(other, name, baseOffset);
      AddDummyField();
    }

    /** Add a variable of any type; returns the field that carries its name. */
    method AddField(name: Name, dt: DataType, init: Option<seq<byte>>) returns (baseField: Field)
      requires NamesValid() && ValidType(dt) && InitFits(dt, init)
      modifies this
      ensures NamesValid() && fields == Added(old(fields), name, dt, init)
      ensures |fields| > |old(fields)| && baseField == fields[|old(fields)|]
      decreases dt, 1
    {
      match dt {
        case Struct(ms) =>
          baseField := Merge(Build(ms), name, Width(dt), dt, init);
        case Str(len) =>
          baseField := Merge(StringFields(len), name, Width(dt), dt, init);
        case Array(dims, elem) =>
          var offset := Offset(GetUnalignedSize(), 0);
          baseField := Field(name, offset, Width(dt), dt, None, Some(offset));
          RegisterField(baseField);
          ghost var withMarker := fields;
          AddElements(name, dims, elem, init);
          ElementsExtend(withMarker, name, dims, elem, init, NrElements(dims));
          AddDummyField();
        case Basic(bits) =>
          var offset;
          if bits == 1 && fields != [] && fields[|fields| - 1].bitSize == 1
             && fields[|fields| - 1].offset.bitOffset < 7 {
            offset := Offset(fields[|fields| - 1].offset.byteOffset, fields[|fields| - 1].offset.bitOffset + 1);
          } else {
            offset := Offset(GetUnalignedSize(), 0);
          }
          baseField := Field(name, offset, bits, dt, init, None);
          RegisterField(baseField);
      }
    }

    method AddPaddingByte()
      requires NamesValid()
      modifies this
      ensures NamesValid() && fields == AddedBasic(old(fields), [], 8, None)
    {
      RegisterField(Field([], NextOffset(fields, 8), 8, Basic(8), None, None));
    }

    /** Add one field per array element, walking over the subscripts. */
    method AddElements(name: Name, dims: seq<Dim>, elem: DataType, init: Option<seq<byte>>)
      requires NamesValid() && ValidDims(dims) && dims != [] && ValidType(elem) && !elem.Array?
      requires init.Some? ==> !elem.Struct?
      modifies this
      ensures NamesValid() && fields == Elements(old(fields), name, dims, elem, init, NrElements(dims))
      decreases elem, 2
    {
      hide *;
      ElementsStart(fields, name, dims, elem, init);
      StepsUnfold(dims, 0);
      ZeroOffset(Width(elem));
      ghost var before := fields;
      var initOffset := ZERO;
      var childIdent := new DataIdent(First(dims));
      var w, n := Width(elem), NrElements(dims);
      var i := 0;
      while i < n
        invariant 0 <= i <= n && NamesValid()
        invariant fields == Elements(before, name, dims, elem, init, i)
        invariant initOffset == FromBitOffset(MulNat(i, w))
        invariant childIdent.indices == Steps(dims, i)
        invariant fresh(childIdent)
      {
        ElementIsExpanded(dims, i);
        StepsUnfold(dims, i);
        var fieldInit := FieldInit(init, elem, i, initOffset);
        ElemInitFits(init, elem, i);
        var _ := AddField(name + [Index(childIdent.indices)], elem, fieldInit);
        ElementsStep(before, name, dims, elem, init, i, fields);
        NextInitOffset(i, w);
        initOffset := Add(initOffset, FromBitOffset(w));
        childIdent.AdvanceToNextArrayElement(dims);
        if w > 8 && BytesFor(w) % 2 != 0 {
          AddPaddingByte();
        }
        i := i + 1;
      }
    }

    /** Cut the bytes of one element out of an array's initial value. */
    method FieldInit(init: Option<seq<byte>>, elem: DataType, ghost i: nat, initOffset: Offset)
        returns (fieldInit: Option<seq<byte>>)
      requires ValidType(elem) && !elem.Array? && initOffset == FromBitOffset(MulNat(i, Width(elem)))
      ensures fieldInit == ElemInit(init, elem, i)
    {
      ElemOffsetAligned(elem, i);
      if init.None? || init.value == [] {
        return None;
      }
      var v := Fetched(init.value, initOffset, Width(elem));
      if v.None? {
        return None;
      }
      return Some(Stored(Zeros(BytesFor(Width(elem))), ZERO, Width(elem), v.value));
    }

    /** Add a variable at a multiple of `byteAlignment`, behind padding bytes. */
    method AddFieldAligned(name: Name, dt: DataType, byteAlignment: nat, init: Option<seq<byte>>)
        returns (baseField: Field)
      requires Valid() && ValidType(dt) && InitFits(dt, init) && byteAlignment > 0
      modifies this
      ensures Valid() && Closed(fields) && fields == AddedAligned(old(fields), name, dt, byteAlignment, init)
      ensures dt != Basic(1) ==> baseField.offset.byteOffset % byteAlignment == 0
      ensures var p := |old(fields)| + Padding(old(fields), byteAlignment);
              p < |fields| && baseField == fields[p]
    {
      hide NamesValid, Added, Build, Width, ValidType, InitFits, Laid, InitsFit;
      ghost var before := fields;
      AddPadding(byteAlignment);
      AlignedStart(before, name, dt, byteAlignment, init);
      baseField := AddField(name, dt, init);
    }

    method AddPadding(byteAlignment: nat)
      requires NamesValid() && byteAlignment > 0
      modifies this
      ensures NamesValid() && fields == Padded(old(fields), Padding(old(fields), byteAlignment))
    {
      hide NamesValid;
      ghost var before := fields;
      PaddingIs(GetUnalignedSize(), byteAlignment);
      var padding := byteAlignment - GetUnalignedSize() % byteAlignment;
      if padding == byteAlignment {
        padding := 0;
      }
      hide AddedBasic;
      while padding > 0
        invariant padding >= 0 && NamesValid()
        invariant Padded(fields, padding) == Padded(before, Padding(before, byteAlignment))
        decreases padding
      {
        AddPaddingByte();
        padding := padding - 1;
      }
    }

    method AddFieldNaturallyAligned(name: Name, dt: DataType, init: Option<seq<byte>>) returns (baseField: Field)
      requires Valid() && ValidType(dt) && InitFits(dt, init)
      modifies this
      ensures Valid() && Closed(fields) && fields == AddedNaturally(old(fields), name, dt, init)
      ensures old(fields) <= fields && baseField in fields && baseField.name == name && baseField.dataType == dt
      ensures StartsNaturally(old(fields), dt, baseField.offset)
    {
      hide NamesValid, Laid, InitsFit, Added, Padded, Padding, StartsNaturally;
      NaturalStart(fields, name, dt, init);
      baseField := AddFieldAligned(name, dt, NaturalAlignment(dt), init);
    }
  }

  lemma {:induction false} PaddedLength(fs: seq<Field>, n: nat)
    ensures |Padded(fs, n)| == |fs| + n
    decreases n
  {
    if n > 0 {
      PaddedLength(AddedBasic(fs, [], 8, None), n - 1);
    }
  }

  /** The variable that is added behind its padding starts where it should. */
  lemma NaturalStart(fs: seq<Field>, name: Name, dt: DataType, init: Option<seq<byte>>)
    requires ValidType(dt) && InitFits(dt, init) && Laid(fs)
    ensures var p, r := |fs| + Padding(fs, NaturalAlignment(dt)), AddedNaturally(fs, name, dt, init);
            && p < |r| && fs <= r && r[p].name == name && r[p].dataType == dt && StartsNaturally(fs, dt, r[p].offset)
  {
    var n := Padding(fs, NaturalAlignment(dt));
    PaddedKeepsLaid(fs, n);
    PaddedLength(fs, n);
    AddedStartsWith(Padded(fs, n), name, dt, init);
    AddedKeepsLaid(Padded(fs, n), name, dt, init);
    PaddingIsSmall(fs, NaturalAlignment(dt));
    hide Laid, Added, Width, UnalignedSize, StartsNaturally, NextOffset;
    StartIs(fs, Padded(fs, n), dt);
  }

  lemma StartIs(fs: seq<Field>, p: seq<Field>, dt: DataType)
    requires ValidType(dt)
    requires NaturalAlignment(dt) == 1 ==> p == fs
    requires NaturalAlignment(dt) == 2 ==>
               UnalignedSize(p) % 2 == 0 && UnalignedSize(fs) <= UnalignedSize(p) <= UnalignedSize(fs) + 1
    ensures StartsNaturally(fs, dt, if dt.Basic? then NextOffset(p, dt.bits) else Offset(UnalignedSize(p), 0))
  {
    assert dt.Basic? ==> Width(dt) == dt.bits;
    hide Width, UnalignedSize;
  }

  lemma PaddingIsSmall(fs: seq<Field>, a: nat)
    requires a == 1 || a == 2
    ensures a == 1 ==> Padding(fs, a) == 0 && Padded(fs, 0) == fs
    ensures a == 2 ==> Padding(fs, a) <= 1 && (UnalignedSize(fs) + Padding(fs, a)) % 2 == 0
  {
  }

  /** Behind the padding a variable starts at a multiple of the alignment. */
  lemma AlignedStart(fs: seq<Field>, name: Name, dt: DataType, byteAlignment: nat, init: Option<seq<byte>>)
    requires ValidType(dt) && InitFits(dt, init) && byteAlignment > 0 && Laid(fs) && InitsFit(fs)
    ensures var p := Padded(fs, Padding(fs, byteAlignment));
            var r := Added(p, name, dt, init);
            && Laid(r) && InitsFit(r) && Closed(r) && r == AddedAligned(fs, name, dt, byteAlignment, init)
            && |p| < |r| && |p| == |fs| + Padding(fs, byteAlignment)
            && (dt != Basic(1) ==> r[|p|].offset.byteOffset % byteAlignment == 0)
  {
    hide Build, Width, ValidType, InitFits, Laid, InitsFit, Padded, Added;
    var n := Padding(fs, byteAlignment);
    var p := Padded(fs, n);
    PaddedLength(fs, n);
    PaddedKeepsLaid(fs, n);
    PaddedInitsFit(fs, n);
    AddedKeepsLaid(p, name, dt, init);
    AddedInitsFit(p, name, dt, init);
    AddedStartsWith(p, name, dt, init);
    PaddingAligns(UnalignedSize(fs), byteAlignment);
  }

  lemma ElementIsExpanded(dims: seq<Dim>, i: nat)
    requires ValidDims(dims) && i < NrElements(dims)
    ensures Steps(dims, i) == Expand(dims, i)
  {
    StepsReachEveryElement(dims, i);
    DigitOf(0, i, NrElements(dims));
  }

  lemma ElementsStart(fs: seq<Field>, name: Name, dims: seq<Dim>, elem: DataType, init: Option<seq<byte>>)
    requires ValidDims(dims) && ValidType(elem) && !elem.Array? && (init.Some? ==> !elem.Struct?)
    ensures Elements(fs, name, dims, elem, init, 0) == fs
  {
  }

  lemma ElementsStep(fs: seq<Field>, name: Name, dims: seq<Dim>, elem: DataType, init: Option<seq<byte>>, k: nat,
                     added: seq<Field>)
    requires ValidDims(dims) && ValidType(elem) && !elem.Array? && (init.Some? ==> !elem.Struct?)
    requires InitFits(elem, ElemInit(init, elem, k))
    requires added == Added(Elements(fs, name, dims, elem, init, k), name + [Index(Expand(dims, k))], elem,
                            ElemInit(init, elem, k))
    ensures Elements(fs, name, dims, elem, init, k + 1)
            == if Width(elem) > 8 && BytesFor(Width(elem)) % 2 != 0 then AddedBasic(added, [], 8, None) else added
  {
    hide Added, Build, Width, AddedBasic, InitFits, ElemInit, Expand;
    assert added == ElementAdded(Elements(fs, name, dims, elem, init, k), name, dims, elem, init, k);
    assert Padded(AddedBasic(added, [], 8, None), 0) == AddedBasic(added, [], 8, None);
  }

  lemma StepsUnfold(dims: seq<Dim>, k: nat)
    requires ValidDims(dims)
    ensures Steps(dims, 0) == First(dims) && Steps(dims, k + 1) == Successor(dims, Steps(dims, k))
  {
    hide Successor, First;
  }

  lemma ZeroOffset(w: nat)
    ensures ZERO == FromBitOffset(MulNat(0, w))
  {
  }

  lemma NextInitOffset(i: nat, w: nat)
    ensures Add(FromBitOffset(MulNat(i, w)), FromBitOffset(w)) == FromBitOffset(MulNat(i + 1, w))
  {
    AddCountsBits(FromBitOffset(MulNat(i, w)), FromBitOffset(w));
    BitsDetermineOffset(Add(FromBitOffset(MulNat(i, w)), FromBitOffset(w)), FromBitOffset(MulNat(i + 1, w)));
  }

  lemma PaddingIs(n: nat, a: nat)
    requires a > 0
    ensures (a - n % a) % a == if n % a == 0 then 0 else a - n % a
  {
    if n % a == 0 {
      DigitOf(1, 0, a);
    } else {
      DigitOf(0, a - n % a, a);
    }
  }

  lemma PaddingAligns(n: nat, a: nat)
    requires a > 0
    ensures (n + (a - n % a) % a) % a == 0
  {
    PaddingIs(n, a);
    var q, r := n / a, n % a;
    assert n == q * a + r;
    if r == 0 {
      DigitOf(q, 0, a);
    } else {
      MulSucc(q, a);
      DigitOf(q + 1, 0, a);
    }
  }

  lemma {:induction false} ElementsExtend(fs: seq<Field>, name: Name, dims: seq<Dim>, elem: DataType,
                       init: Option<seq<byte>>, k: nat)
    requires ValidDims(dims) && ValidType(elem) && !elem.Array? && (init.Some? ==> !elem.Struct?)
    ensures fs <= Elements(fs, name, dims, elem, init, k)
    decreases elem, 1, k
  {
    if k > 0 {
      ElementsExtend(fs, name, dims, elem, init, k - 1);
      var before := Elements(fs, name, dims, elem, init, k - 1);
      ElemInitFits(init, elem, k - 1);
      AddedStartsWith(before, name + [Index(Expand(dims, k - 1))], elem, ElemInit(init, elem, k - 1));
      PaddedExtends(ElementAdded(before, name, dims, elem, init, k - 1), ElementPadding(elem));
    }
  }

  lemma {:induction false} PaddedExtends(fs: seq<Field>, n: nat)
    ensures fs <= Padded(fs, n)
    decreases n
  {
    if n > 0 {
      PaddedExtends(AddedBasic(fs, [], 8, None), n - 1);
    }
  }

  /** Earlier fields stay; the first new field carries the name, the type and the start of the variable. */
  lemma {:induction false} AddedStartsWith(fs: seq<Field>, name: Name, dt: DataType, init: Option<seq<byte>>)
    requires ValidType(dt) && InitFits(dt, init)
    ensures var r := Added(fs, name, dt, init);
            && fs <= r && |fs| < |r|
            && r[|fs|].name == name && r[|fs|].dataType == dt && r[|fs|].bitSize == Width(dt)
            && r[|fs|].offset == (if dt.Basic? then NextOffset(fs, dt.bits) else Offset(UnalignedSize(fs), 0))
            && r[|fs|].init == (if dt.Array? then None else init)
            && r[|fs|].over.None? == dt.Basic?
    decreases dt, 0
  {
    match dt
    case Basic(_) =>
    case Str(_) =>
    case Struct(_) =>
    case Array(dims, e) =>
      var withMarker := fs + [Marker(fs, name, Width(dt), dt, None)];
      ElementsExtend(withMarker, name, dims, e, init, NrElements(dims));
  }

  // ----- initial values fit

  lemma AppendInitsFit(fs: seq<Field>, f: Field)
    requires InitsFit(fs) && UnalignedSize(fs) <= EndByte(f) && InitFitsField(f, EndByte(f))
    ensures InitsFit(fs + [f])
  {
  }

  lemma StringInitsFit(len: nat)
    ensures InitsFit(StringFields(len))
  {
    assert StringFields(len)[0] == Field([], Offset(0, 0), 8, Basic(8), Some([Low(len)]), None);
    assert StringFields(len)[len + 1].offset == Offset(len + 1, 0);
  }

  lemma AddedBasicInitsFit(fs: seq<Field>, name: Name, bits: nat, init: Option<seq<byte>>)
    requires Laid(fs) && InitsFit(fs) && (bits == 1 || (bits % 8 == 0 && bits > 0))
    requires init.Some? ==> |init.value| == BytesFor(bits)
    ensures InitsFit(AddedBasic(fs, name, bits, init))
  {
    hide Laid, InitsFit;
    NextOffsetIsFree(fs, bits);
    AppendInitsFit(fs, Field(name, NextOffset(fs, bits), bits, Basic(bits), init, None));
  }

  lemma {:induction false} PaddedInitsFit(fs: seq<Field>, n: nat)
    requires Laid(fs) && InitsFit(fs)
    ensures InitsFit(Padded(fs, n))
    decreases n
  {
    hide Laid, InitsFit;
    if n > 0 {
      AddedBasicInitsFit(fs, [], 8, None);
      AddedBasicKeepsLaid(fs, [], 8, None);
      PaddedInitsFit(AddedBasic(fs, [], 8, None), n - 1);
    }
  }

  /** A field that is moved keeps its initial value inside. */
  lemma MovedInitFits(f: Field, name: Name, base: nat, size: nat)
    requires InitFitsField(f, size) && (f.init.Some? ==> f.offset.bitOffset < 8)
    ensures InitFitsField(Moved(f, name, Offset(base, 0)), base + size)
  {
    if f.init.Some? {
      MovedOffset(f, name, base);
    }
  }

  /** Where the parts of a merged structure end. */
  lemma MergedSizes(fs: seq<Field>, other: seq<Field>, name: Name, bits: nat, dt: DataType, init: Option<seq<byte>>)
    requires Laid(fs) && Laid(other) && Closed(other)
    ensures var m := Marker(fs, name, bits, dt, init);
            var base, size := UnalignedSize(fs + [m]), UnalignedSize(Merged(fs, other, name, bits, dt, init));
            && UnalignedSize(fs) <= base && size == base + UnalignedSize(other)
            && m.offset == Offset(UnalignedSize(fs), 0)
  {
    hide Laid, Closed;
    MarkerKeepsLaid(fs, name, bits, dt, init);
    MovedAllKeepsLaid(fs + [Marker(fs, name, bits, dt, init)], other, name);
  }

  lemma MergedInitsFit(fs: seq<Field>, other: seq<Field>, name: Name, bits: nat, dt: DataType,
                       init: Option<seq<byte>>)
    requires Laid(fs) && Laid(other) && Closed(other) && InitsFit(fs) && InitsFit(other)
    requires init.Some? ==> init.value != [] && |init.value| == BytesFor(bits) == UnalignedSize(other) && bits % 8 == 0
    ensures InitsFit(Merged(fs, other, name, bits, dt, init))
  {
    var m := Marker(fs, name, bits, dt, init);
    var r, base := Merged(fs, other, name, bits, dt, init), UnalignedSize(fs + [m]);
    MergedSizes(fs, other, name, bits, dt, init);
    assert InitFitsField(m, UnalignedSize(r));
    hide Laid, Closed, UnalignedSize, Marker;
    forall i | 0 <= i < |r| && r[i].init.Some?
      ensures InitFitsField(r[i], UnalignedSize(r))
    {
      if i < |fs| {
        assert r[i] == fs[i] && InitFitsField(fs[i], UnalignedSize(fs));
      } else if |fs| < i <= |fs| + |other| {
        var k := i - |fs| - 1;
        assert r[i] == Moved(other[k], name, Offset(base, 0)) && InitFitsField(other[k], UnalignedSize(other));
        MovedInitFits(other[k], name, base, UnalignedSize(other));
      }
    }
  }

  lemma {:induction false} ElementsInitsFit(fs: seq<Field>, name: Name, dims: seq<Dim>, elem: DataType,
                         init: Option<seq<byte>>, k: nat)
    requires ValidDims(dims) && ValidType(elem) && !elem.Array? && (init.Some? ==> !elem.Struct?)
    requires Laid(fs) && InitsFit(fs)
    ensures InitsFit(Elements(fs, name, dims, elem, init, k))
    decreases elem, 1, k
  {
    hide Laid, InitsFit, Added, Build, Width, Padded, Expand, ElemInit;
    if k > 0 {
      ElementsInitsFit(fs, name, dims, elem, init, k - 1);
      ElementsKeepLaid(fs, name, dims, elem, init, k - 1);
      var before := Elements(fs, name, dims, elem, init, k - 1);
      ElemInitFits(init, elem, k - 1);
      AddedInitsFit(before, name + [Index(Expand(dims, k - 1))], elem, ElemInit(init, elem, k - 1));
      ElementAddedKeepsLaid(before, name, dims, elem, init, k - 1);
      PaddedInitsFit(ElementAdded(before, name, dims, elem, init, k - 1), ElementPadding(elem));
    }
  }

  lemma {:induction false} AddedInitsFit(fs: seq<Field>, name: Name, dt: DataType, init: Option<seq<byte>>)
    requires ValidType(dt) && InitFits(dt, init) && Laid(fs) && InitsFit(fs)
    ensures InitsFit(Added(fs, name, dt, init))
    decreases dt, 0
  {
    hide Laid, InitsFit;
    match dt
    case Basic(b) =>
      AddedBasicInitsFit(fs, name, b, init);
    case Str(len) =>
      StringFieldsAreLaid(len);
      StringInitsFit(len);
      MergedInitsFit(fs, StringFields(len), name, Width(dt), dt, init);
    case Struct(ms) =>
      BuildIsLaid(ms);
      BuildInitsFit(ms);
      MergedInitsFit(fs, Build(ms), name, Width(dt), dt, init);
    case Array(dims, e) =>
      MarkerKeepsLaid(fs, name, Width(dt), dt, None);
      var withMarker := fs + [Marker(fs, name, Width(dt), dt, None)];
      AppendInitsFit(fs, Marker(fs, name, Width(dt), dt, None));
      ElementsInitsFit(withMarker, name, dims, e, init, NrElements(dims));
      var r := Elements(withMarker, name, dims, e, init, NrElements(dims));
      AppendInitsFit(r, Guard(r));
  }

  lemma {:induction false} BuildInitsFit(ms: seq<Member>)
    requires ValidMembers(ms)
    ensures InitsFit(Build(ms))
    decreases ms
  {
    if ms != [] {
      var last := ms[|ms| - 1];
      PrefixIsValid(ms);
      var before := Build(ms[..|ms| - 1]);
      BuildInitsFit(ms[..|ms| - 1]);
      BuildIsLaid(ms[..|ms| - 1]);
      var n := Padding(before, NaturalAlignment(last.dataType));
      PaddedKeepsLaid(before, n);
      PaddedInitsFit(before, n);
      AddedInitsFit(Padded(before, n), [Ident(last.name)], last.dataType, last.init);
      assert Build(ms) == AddedNaturally(before, [Ident(last.name)], last.dataType, last.init);
    }
  }
}
