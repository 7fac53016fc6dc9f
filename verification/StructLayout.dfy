/**
 What every structure keeps while fields are added to it: data fields are in address order,
 do not overlap and lie inside the structure.
 */
module StructLayout {
  import opened Bytes
  import opened Offset
  import opened Memory
  import opened Options
  import opened ArrayIndex
  import opened Layout

  function Lo(f: Field): nat {
    ToBitOffset(f.offset)
  }

  function Hi(f: Field): nat {
    Lo(f) + f.bitSize
  }

  /** Markers carry an override; all other fields hold data (or are empty guards). */
  predicate IsData(f: Field) {
    f.over.None?
  }

  predicate Placed(f: Field) {
    if IsData(f) then Slot(f.offset, f.bitSize) else f.offset.bitOffset == 0
  }

  ghost predicate AllPlaced(fs: seq<Field>) {
    forall i :: 0 <= i < |fs| ==> Placed(fs[i])
  }

  /** Data fields end before any later field begins. */
  ghost predicate Ordered(fs: seq<Field>) {
    forall i, j :: 0 <= i < j < |fs| && IsData(fs[i]) ==> Hi(fs[i]) <= Lo(fs[j])
  }

  ghost predicate EndBefore(fs: seq<Field>, bit: nat) {
    forall i :: 0 <= i < |fs| && IsData(fs[i]) ==> Hi(fs[i]) <= bit
  }

  ghost predicate Laid(fs: seq<Field>) {
    && AllPlaced(fs) && Ordered(fs) && EndBefore(fs, 8 * UnalignedSize(fs))
    && (fs != [] && !IsData(fs[|fs| - 1]) ==> fs[|fs| - 1].over.value == fs[|fs| - 1].offset)
  }

  /** A structure that is not in the middle of an array or of a merge. */
  predicate Closed(fs: seq<Field>) {
    fs != [] ==> IsData(fs[|fs| - 1])
  }

  /**
   Where a variable starts in memory: a BOOL at the next bit behind another one, as long as the
   byte has room; a byte at the next byte; everything wider at the next even byte.
   */
  predicate StartsNaturally(fs: seq<Field>, dt: DataType, o: Offset)
    requires ValidType(dt)
  {
    var end := UnalignedSize(fs);
    if dt == Basic(1) && fs != [] && fs[|fs| - 1].bitSize == 1 && fs[|fs| - 1].offset.bitOffset < 7
    then o == Offset(fs[|fs| - 1].offset.byteOffset, fs[|fs| - 1].offset.bitOffset + 1)
    else if Width(dt) == 1 || Width(dt) == 8 then o == Offset(end, 0)
    else o.bitOffset == 0 && o.byteOffset % 2 == 0 && end <= o.byteOffset <= end + 1
  }

  // ----- one field

  lemma AppendKeepsLaid(fs: seq<Field>, f: Field)
    requires Laid(fs) && Placed(f) && (!IsData(f) ==> f.over.value == f.offset)
    requires EndBefore(fs, Lo(f))
    ensures Laid(fs + [f])
  {
  }

  lemma NextOffsetIsFree(fs: seq<Field>, bits: nat)
    requires Laid(fs)
    ensures NextOffset(fs, bits).bitOffset < 8
    ensures bits != 1 ==> NextOffset(fs, bits).bitOffset == 0
    ensures EndBefore(fs, ToBitOffset(NextOffset(fs, bits)))
    ensures UnalignedSize(fs) <= NextOffset(fs, bits).byteOffset + BytesFor(bits)
  {
  }

  lemma AddedBasicKeepsLaid(fs: seq<Field>, name: Name, bits: nat, init: Option<seq<byte>>)
    requires Laid(fs) && (bits == 1 || bits % 8 == 0)
    ensures var r := AddedBasic(fs, name, bits, init);
            Laid(r) && Closed(r) && UnalignedSize(fs) <= UnalignedSize(r)
    ensures bits != 1 ==> UnalignedSize(AddedBasic(fs, name, bits, init)) == UnalignedSize(fs) + BytesFor(bits)
  {
    hide Laid, EndBefore;
    NextOffsetIsFree(fs, bits);
    AppendKeepsLaid(fs, AddedBasic(fs, name, bits, init)[|fs|]);
  }

  lemma {:induction false} PaddedKeepsLaid(fs: seq<Field>, n: nat)
    requires Laid(fs)
    ensures var r := Padded(fs, n);
            fs <= r && Laid(r) && (Closed(fs) ==> Closed(r)) && UnalignedSize(r) == UnalignedSize(fs) + n
    decreases n
  {
    hide Laid, UnalignedSize;
    if n > 0 {
      AddedBasicKeepsLaid(fs, [], 8, None);
      PaddedKeepsLaid(AddedBasic(fs, [], 8, None), n - 1);
    }
  }

  lemma MarkerKeepsLaid(fs: seq<Field>, name: Name, bits: nat, dt: DataType, init: Option<seq<byte>>)
    requires Laid(fs)
    ensures var r := fs + [Marker(fs, name, bits, dt, init)];
            Laid(r) && UnalignedSize(r) == UnalignedSize(fs)
  {
    hide AllPlaced, Ordered, EndBefore;
    assert Lo(Marker(fs, name, bits, dt, init)) == 8 * UnalignedSize(fs);
    AppendKeepsLaid(fs, Marker(fs, name, bits, dt, init));
  }

  lemma GuardKeepsLaid(fs: seq<Field>)
    requires Laid(fs)
    ensures var r := fs + [Guard(fs)];
            Laid(r) && Closed(r) && UnalignedSize(r) == UnalignedSize(fs)
  {
    GuardIsPlaced(fs);
    LaidEnds(fs);
    hide Laid, EndBefore, UnalignedSize, Guard, Placed;
    AppendKeepsLaid(fs, Guard(fs));
  }

  lemma GuardIsPlaced(fs: seq<Field>)
    ensures Placed(Guard(fs)) && IsData(Guard(fs)) && Lo(Guard(fs)) == 8 * UnalignedSize(fs)
    ensures UnalignedSize(fs + [Guard(fs)]) == UnalignedSize(fs)
  {
    assert BytesFor(0) == 0;
    var n := UnalignedSize(fs);
    assert Guard(fs).offset == Offset(n, 0) && Guard(fs).bitSize == 0;
  }

  lemma LaidEnds(fs: seq<Field>)
    requires Laid(fs)
    ensures EndBefore(fs, 8 * UnalignedSize(fs))
  {
    hide AllPlaced, Ordered, EndBefore, UnalignedSize;
  }

  // ----- merging

  lemma MovedOffset(f: Field, name: Name, base: nat)
    requires Normal(f.offset)
    ensures Moved(f, name, Offset(base, 0)).offset == Offset(base + f.offset.byteOffset, f.offset.bitOffset)
  {
    AddCountsBits(Offset(base, 0), f.offset);
    BitsDetermineOffset(Add(Offset(base, 0), f.offset), Offset(base + f.offset.byteOffset, f.offset.bitOffset));
  }

  lemma MovedAllOffsets(other: seq<Field>, name: Name, base: nat)
    requires Laid(other)
    ensures var moved := MovedAll(other, name, Offset(base, 0));
            forall i :: 0 <= i < |other| ==>
              moved[i].offset == Offset(base + other[i].offset.byteOffset, other[i].offset.bitOffset)
  {
    forall i | 0 <= i < |other|
      ensures MovedAll(other, name, Offset(base, 0))[i].offset
              == Offset(base + other[i].offset.byteOffset, other[i].offset.bitOffset)
    {
      MovedOffset(other[i], name, base);
    }
  }

  lemma MovedAllKeepsLaid(fs: seq<Field>, other: seq<Field>, name: Name)
    requires Laid(fs) && Laid(other) && Closed(other)
    ensures var base := UnalignedSize(fs);
            var r := fs + MovedAll(other, name, Offset(base, 0));
            && (other == [] ==> r == fs)
            && Laid(r) && UnalignedSize(r) == base + UnalignedSize(other)
  {
    var base := UnalignedSize(fs);
    var moved := MovedAll(other, name, Offset(base, 0));
    if other == [] {
      assert fs + moved == fs;
    } else {
      MovedAllOffsets(other, name, base);
      hide AllPlaced, Ordered, EndBefore;
      assert (fs + moved)[|fs + moved| - 1] == moved[|other| - 1];
      MovedIsLaid(other, moved, base);
      ConcatIsLaid(fs, moved, 8 * base, 8 * (base + UnalignedSize(other)));
    }
  }

  lemma MovedIsLaid(other: seq<Field>, moved: seq<Field>, base: nat)
    requires AllPlaced(other) && Ordered(other) && EndBefore(other, 8 * UnalignedSize(other)) && |moved| == |other|
    requires forall i :: 0 <= i < |other| ==>
               && moved[i].offset == Offset(base + other[i].offset.byteOffset, other[i].offset.bitOffset)
               && moved[i].bitSize == other[i].bitSize && moved[i].over == other[i].over
    ensures AllPlaced(moved) && Ordered(moved) && EndBefore(moved, 8 * (base + UnalignedSize(other)))
    ensures forall i :: 0 <= i < |moved| ==> 8 * base <= Lo(moved[i])
  {
    hide UnalignedSize;
    forall i | 0 <= i < |other|
      ensures Placed(moved[i]) && Lo(moved[i]) == 8 * base + Lo(other[i]) && IsData(moved[i]) == IsData(other[i])
    {
      assert Placed(other[i]);
    }
  }

  lemma ConcatIsLaid(fs: seq<Field>, more: seq<Field>, mid: nat, end: nat)
    requires AllPlaced(fs) && Ordered(fs) && EndBefore(fs, mid) && mid <= end
    requires AllPlaced(more) && Ordered(more) && EndBefore(more, end)
    requires forall i :: 0 <= i < |more| ==> mid <= Lo(more[i])
    ensures AllPlaced(fs + more) && Ordered(fs + more) && EndBefore(fs + more, end)
  {
    var r := fs + more;
    forall i, j | 0 <= i < j < |r| && IsData(r[i])
      ensures Hi(r[i]) <= Lo(r[j])
    {
      if i < |fs| && j >= |fs| {
        assert Hi(fs[i]) <= mid <= Lo(more[j - |fs|]);
      }
    }
  }

  lemma MergedKeepsLaid(fs: seq<Field>, other: seq<Field>, name: Name, bits: nat, dt: DataType,
                        init: Option<seq<byte>>)
    requires Laid(fs) && Laid(other) && Closed(other)
    ensures var r := Merged(fs, other, name, bits, dt, init);
            Laid(r) && Closed(r) && UnalignedSize(r) == UnalignedSize(fs) + UnalignedSize(other)
  {
    hide Laid;
    MarkerKeepsLaid(fs, name, bits, dt, init);
    var withMarker := fs + [Marker(fs, name, bits, dt, init)];
    MovedAllKeepsLaid(withMarker, other, name);
    GuardKeepsLaid(withMarker + MovedAll(other, name, Offset(UnalignedSize(withMarker), 0)));
  }

  lemma StringFieldsAreLaid(len: nat)
    ensures Laid(StringFields(len)) && Closed(StringFields(len)) && UnalignedSize(StringFields(len)) == len + 2
  {
    var fs := StringFields(len);
    forall i | 0 <= i < |fs|
      ensures fs[i].offset == Offset(i, 0) && fs[i].bitSize == 8 && IsData(fs[i])
    {
    }
  }

  // ----- variables of any type

  lemma {:induction false} ElementsKeepLaid(fs: seq<Field>, name: Name, dims: seq<Dim>, elem: DataType,
                         init: Option<seq<byte>>, k: nat)
    requires ValidDims(dims) && ValidType(elem) && !elem.Array? && (init.Some? ==> !elem.Struct?)
    requires Laid(fs)
    ensures var r := Elements(fs, name, dims, elem, init, k);
            fs <= r && Laid(r) && UnalignedSize(fs) <= UnalignedSize(r) && (k > 0 ==> Closed(r))
    decreases elem, 1, k
  {
    hide Laid;
    if k > 0 {
      ElementsKeepLaid(fs, name, dims, elem, init, k - 1);
      var before := Elements(fs, name, dims, elem, init, k - 1);
      ElementAddedKeepsLaid(before, name, dims, elem, init, k - 1);
      PaddedKeepsLaid(ElementAdded(before, name, dims, elem, init, k - 1), ElementPadding(elem));
    }
  }

  lemma {:induction false} ElementAddedKeepsLaid(fs: seq<Field>, name: Name, dims: seq<Dim>, elem: DataType,
                              init: Option<seq<byte>>, i: nat)
    requires ValidDims(dims) && ValidType(elem) && !elem.Array? && (init.Some? ==> !elem.Struct?)
    requires Laid(fs)
    ensures var r := ElementAdded(fs, name, dims, elem, init, i);
            fs <= r && Laid(r) && Closed(r) && UnalignedSize(fs) <= UnalignedSize(r)
    decreases elem, 1, 0
  {
    hide Laid;
    ElemInitFits(init, elem, i);
    AddedKeepsLaid(fs, name + [Index(Expand(dims, i))], elem, ElemInit(init, elem, i));
  }

  /** Adding a variable of any type keeps all earlier fields and the layout invariant. */
  lemma {:induction false} AddedKeepsLaid(fs: seq<Field>, name: Name, dt: DataType, init: Option<seq<byte>>)
    requires ValidType(dt) && InitFits(dt, init) && Laid(fs)
    ensures var r := Added(fs, name, dt, init);
            fs <= r && Laid(r) && Closed(r) && UnalignedSize(fs) <= UnalignedSize(r)
    decreases dt, 0
  {
    hide Laid;
    match dt
    case Basic(b) =>
      AddedBasicKeepsLaid(fs, name, b, init);
    case Str(len) =>
      StringFieldsAreLaid(len);
      MergedKeepsLaid(fs, StringFields(len), name, Width(dt), dt, init);
    case Struct(ms) =>
      BuildIsLaid(ms);
      MergedKeepsLaid(fs, Build(ms), name, Width(dt), dt, init);
    case Array(dims, e) =>
      MarkerKeepsLaid(fs, name, Width(dt), dt, None);
      var withMarker := fs + [Marker(fs, name, Width(dt), dt, None)];
      ElementsKeepLaid(withMarker, name, dims, e, init, NrElements(dims));
      GuardKeepsLaid(Elements(withMarker, name, dims, e, init, NrElements(dims)));
  }

  lemma AddedAlignedKeepsLaid(fs: seq<Field>, name: Name, dt: DataType, byteAlignment: nat,
                              init: Option<seq<byte>>)
    requires ValidType(dt) && InitFits(dt, init) && Laid(fs) && byteAlignment > 0
    ensures var r := AddedAligned(fs, name, dt, byteAlignment, init);
            fs <= r && Laid(r) && Closed(r) && UnalignedSize(fs) <= UnalignedSize(r)
    decreases dt, 1
  {
    hide Laid;
    PaddedKeepsLaid(fs, Padding(fs, byteAlignment));
    AddedKeepsLaid(Padded(fs, Padding(fs, byteAlignment)), name, dt, init);
  }

  /** Every declared structure is laid out, whatever its members are. */
  lemma {:induction false} BuildIsLaid(ms: seq<Member>)
    requires ValidMembers(ms)
    ensures Laid(Build(ms)) && Closed(Build(ms))
    decreases ms
  {
    if ms != [] {
      hide Laid;
      var last := ms[|ms| - 1];
      PrefixIsValid(ms);
      BuildIsLaid(ms[..|ms| - 1]);
      AddedAlignedKeepsLaid(Build(ms[..|ms| - 1]), [Ident(last.name)], last.dataType,
                            NaturalAlignment(last.dataType), last.init);
    }
  }

  // ----- structures built by any calls

  /** A call that extends a structure; `Merge` merges a structure that was built by calls of its own. */
  datatype Addition =
    | AddField(name: Name, dataType: DataType, init: Option<seq<byte>>)
    | AddFieldAligned(name: Name, dataType: DataType, byteAlignment: nat, init: Option<seq<byte>>)
    | AddFieldNaturallyAligned(name: Name, dataType: DataType, init: Option<seq<byte>>)
    | AddDummyField
    | Merge(other: seq<Addition>, name: Name, bits: nat, dataType: DataType)

  predicate ValidAddition(a: Addition) {
    match a
    case Merge(other, _, _, _) => ValidAdditions(other)
    case AddDummyField => true
    case _ => ValidType(a.dataType) && InitFits(a.dataType, a.init) && (a.AddFieldAligned? ==> a.byteAlignment > 0)
  }

  predicate ValidAdditions(adds: seq<Addition>) {
    forall a :: a in adds ==> ValidAddition(a)
  }

  /** The fields after all these calls. */
  function BuiltBy(adds: seq<Addition>): seq<Field>
    requires ValidAdditions(adds)
    decreases adds
  {
    if adds == [] then []
    else
      var last := adds[|adds| - 1];
      LastIsValid(adds);
      Extended(BuiltBy(adds[..|adds| - 1]), last)
  }

  function Extended(fs: seq<Field>, a: Addition): seq<Field>
    requires ValidAddition(a)
    decreases a
  {
    match a
    case AddField(name, dt, init) => Added(fs, name, dt, init)
    case AddFieldAligned(name, dt, n, init) => AddedAligned(fs, name, dt, n, init)
    case AddFieldNaturallyAligned(name, dt, init) => AddedNaturally(fs, name, dt, init)
    case AddDummyField => fs + [Guard(fs)]
    case Merge(other, name, bits, dt) => Merged(fs, BuiltBy(other), name, bits, dt, None)
  }

  lemma LastIsValid(adds: seq<Addition>)
    requires ValidAdditions(adds) && adds != []
    ensures ValidAddition(adds[|adds| - 1]) && ValidAdditions(adds[..|adds| - 1])
  {
    assert adds[|adds| - 1] in adds;
    assert forall a :: a in adds[..|adds| - 1] ==> a in adds;
  }

  /** Whatever is added and merged in whatever order, the structure is laid out. */
  lemma {:induction false} AdditionsAreLaid(adds: seq<Addition>)
    requires ValidAdditions(adds)
    ensures Laid(BuiltBy(adds)) && Closed(BuiltBy(adds))
    decreases adds
  {
    if adds != [] {
      hide Laid, Closed, Extended;
      LastIsValid(adds);
      AdditionsAreLaid(adds[..|adds| - 1]);
      ExtendedIsLaid(BuiltBy(adds[..|adds| - 1]), adds[|adds| - 1]);
    }
  }

  lemma {:induction false} ExtendedIsLaid(fs: seq<Field>, a: Addition)
    requires ValidAddition(a) && Laid(fs)
    ensures Laid(Extended(fs, a)) && Closed(Extended(fs, a))
    decreases a
  {
    hide Laid, Closed, BuiltBy, Added, AddedAligned, Merged, Guard, Width;
    match a
    case AddField(name, dt, init) => AddedKeepsLaid(fs, name, dt, init);
    case AddFieldAligned(name, dt, n, init) => AddedAlignedKeepsLaid(fs, name, dt, n, init);
    case AddFieldNaturallyAligned(name, dt, init) => AddedAlignedKeepsLaid(fs, name, dt, NaturalAlignment(dt), init);
    case AddDummyField => GuardKeepsLaid(fs);
    case Merge(other, name, bits, dt) =>
      AdditionsAreLaid(other);
      MergedKeepsLaid(fs, BuiltBy(other), name, bits, dt, None);
  }

  // ----- a structure is a record

  /** All data fits into the memory that is allocated for an instance. */
  lemma DataIsInside(fs: seq<Field>, i: nat)
    requires Laid(fs) && i < |fs| && IsData(fs[i])
    ensures fs[i].offset.byteOffset + BytesFor(fs[i].bitSize) <= StructSize(fs)
  {
  }

  /** Different data fields share no bit. */
  lemma DataIsDisjoint(fs: seq<Field>, i: nat, j: nat)
    requires Laid(fs) && i < |fs| && j < |fs| && i != j && IsData(fs[i]) && IsData(fs[j])
    ensures Disjoint(fs[i].offset, fs[i].bitSize, fs[j].offset, fs[j].bitSize)
  {
  }
}
