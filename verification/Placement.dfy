/**
 Where the members of a structure are, said by their types: each member's offset in terms of the
 end of the members in front of it, and the end of each member in terms of its offset.
 */
module Placement {
  import opened Bytes
  import opened Offset
  import opened Memory
  import opened Options
  import opened ArrayIndex
  import opened Layout
  import opened StructLayout
  import opened DataStructure
  import opened FieldNames
  import opened ArrayLayout
  import opened ChainAddress

  function FieldOf(fs: seq<Field>, m: Member): Option<Field> {
    Lookup(fs, [Ident(m.name)])
  }

  /** Two BOOL members in a row, the first of which is not in the last bit of its byte. */
  predicate FollowsBit(ms: seq<Member>, fs: seq<Field>, j: nat)
    requires j < |ms|
  {
    && ms[j].dataType == Basic(1) && j > 0 && ms[j - 1].dataType == Basic(1)
    && FieldOf(fs, ms[j - 1]).Some? && FieldOf(fs, ms[j - 1]).value.offset.bitOffset < 7
  }

  /** The offset of member `j` in the structure `fs`. */
  predicate MemberStarts(ms: seq<Member>, fs: seq<Field>, j: nat)
    requires ValidMembers(ms) && j < |ms|
  {
    TakeIsValid(ms, j);
    var f, dt, end := FieldOf(fs, ms[j]), ms[j].dataType, UnalignedSize(Build(ms[..j]));
    && f.Some? && f.value.dataType == dt
    && var o := f.value.offset;
       if FollowsBit(ms, fs, j) then
         var before := FieldOf(fs, ms[j - 1]).value.offset;
         o == Offset(before.byteOffset, before.bitOffset + 1)
       else if Width(dt) == 1 || Width(dt) == 8 then o == Offset(end, 0)
       else o.bitOffset == 0 && o.byteOffset % 2 == 0 && end <= o.byteOffset <= end + 1
  }

  /**
   The bytes of an element: one for a byte, an even number for everything longer but structures,
   which are not rounded up.
   */
  function ElementBytes(e: DataType): nat
    requires ValidType(e)
  {
    match e
    case Basic(b) => if b <= 8 then 1 else EvenUp(b / 8)
    case Str(len) => EvenUp(len + 2)
    case Struct(inner) => UnalignedSize(Build(inner))
    case Array(_, _) => 0
  }

  /** The bytes of an array; BOOLs are packed. */
  function ArrayBytesOf(n: nat, e: DataType): nat
    requires ValidType(e)
  {
    if e == Basic(1) then (n + 7) / 8 else n * ElementBytes(e)
  }

  /** The byte behind member `j`: a BOOL takes its byte, a STRING two bytes more than its length. */
  predicate MemberEnds(ms: seq<Member>, fs: seq<Field>, j: nat)
    requires ValidMembers(ms) && j < |ms|
  {
    TakeIsValid(ms, j);
    TakeIsValid(ms, j + 1);
    assert ValidMember(ms[j]) && ValidType(ms[j].dataType);
    var f, end := FieldOf(fs, ms[j]), UnalignedSize(Build(ms[..j + 1]));
    && f.Some?
    && match ms[j].dataType
       case Basic(b) => end == f.value.offset.byteOffset + (if b == 1 then 1 else b / 8)
       case Str(len) => end == f.value.offset.byteOffset + len + 2
       case Struct(inner) => end == f.value.offset.byteOffset + UnalignedSize(Build(inner))
       case Array(dims, e) => end == f.value.offset.byteOffset + ArrayBytesOf(NrElements(dims), e)
  }

  ghost predicate PlacedNaturally(ms: seq<Member>, fs: seq<Field>)
    requires ValidMembers(ms)
  {
    forall j :: 0 <= j < |ms| ==> MemberStarts(ms, fs, j) && MemberEnds(ms, fs, j)
  }

  /** Behind a variable that is no single value there is a guard. */
  lemma EndsWithGuard(fs: seq<Field>, name: Name, dt: DataType, init: Option<seq<byte>>)
    requires ValidType(dt) && InitFits(dt, init)
    ensures var r := Added(fs, name, dt, init);
            && r != []
            && r[|r| - 1].bitSize == (if dt.Basic? then dt.bits else 0)
            && (dt.Basic? ==> |r| == |fs| + 1)
  {
    hide Width, UnalignedSize, MovedAll, Elements;
  }

  /** The field in which the structure ends behind its first `j` members. */
  lemma LastField(ms: seq<Member>, j: nat)
    requires ValidMembers(ms) && 0 < j < |ms|
    ensures ValidMembers(ms[..j]) && Build(ms[..j]) != []
    ensures var fs := Build(ms[..j]);
            if ms[j - 1].dataType == Basic(1)
            then FieldOf(Build(ms), ms[j - 1]) == Some(fs[|fs| - 1]) && fs[|fs| - 1].bitSize == 1
            else fs[|fs| - 1].bitSize != 1
  {
    var i := j - 1;
    TakeIsValid(ms, j);
    BuildStep(ms, i);
    MemberIsFound(ms, i);
    hide Added, Lookup, Laid, Build, Padded, UnalignedSize;
    EndsWithGuard(Before(ms, i), [Ident(ms[i].name)], ms[i].dataType, ms[i].init);
    MarkerIsFound(Before(ms, i), [Ident(ms[i].name)], ms[i].dataType, ms[i].init);
    LookupInBuild(ms, i, [Ident(ms[i].name)]);
  }

  lemma MemberField(ms: seq<Member>, j: nat)
    requires ValidMembers(ms) && j < |ms|
    ensures ValidMembers(ms[..j]) && ValidMember(ms[j])
    ensures var f := FieldOf(Build(ms), ms[j]);
            f.Some? && f.value.dataType == ms[j].dataType
            && StartsNaturally(Build(ms[..j]), ms[j].dataType, f.value.offset)
  {
    TakeIsValid(ms, j);
    var fs, name, dt, init := Build(ms[..j]), [Ident(ms[j].name)], ms[j].dataType, ms[j].init;
    var n := Padding(fs, NaturalAlignment(dt));
    assert Before(ms, j) == Padded(fs, n) && MemberAdded(ms, j) == Added(Padded(fs, n), name, dt, init);
    assert AddedNaturally(fs, name, dt, init) == Added(Padded(fs, n), name, dt, init);
    hide *;
    BuildIsLaid(ms[..j]);
    NaturalStart(fs, name, dt, init);
    PaddedLength(fs, n);
    NotAbsent(ms[j].name);
    MarkerIsFound(Padded(fs, n), name, dt, init);
    NamedFirst(ms[j].name);
    LookupInBuild(ms, j, name);
    FieldIsLookup(Build(ms), ms[j]);
  }

  lemma NotAbsent(name: string)
    ensures [Ident(name)] != []
  {
  }

  lemma NamedFirst(name: string)
    ensures [Ident(name)][0] == Ident(name)
  {
  }

  lemma FieldIsLookup(fs: seq<Field>, m: Member)
    ensures FieldOf(fs, m) == Lookup(fs, [Ident(m.name)])
  {
  }

  lemma BoolFollows(ms: seq<Member>, j: nat)
    requires ValidMembers(ms) && j < |ms|
    ensures MemberStarts(ms, Build(ms), j)
  {
    hide Build, FieldOf, UnalignedSize, Width, Lookup, ValidMembers, ValidMember;
    MemberField(ms, j);
    if j > 0 {
      LastField(ms, j);
    } else {
      NoFields(ms);
    }
  }

  lemma NoFields(ms: seq<Member>)
    requires ValidMembers(ms)
    ensures ValidMembers(ms[..0]) && Build(ms[..0]) == []
  {
  }

  /** The end of a variable. */
  lemma VariableEnds(fs: seq<Field>, name: Name, dt: DataType, init: Option<seq<byte>>)
    requires ValidType(dt) && InitFits(dt, init) && !dt.Array? && name != [] && Laid(fs)
    ensures var r := Added(fs, name, dt, init);
            && |fs| < |r|
            && UnalignedSize(r) == r[|fs|].offset.byteOffset + RawSize(dt)
  {
    AddedStartsWith(fs, name, dt, init);
    if dt != Basic(1) {
      hide Laid, Added;
      AddedSize(fs, name, dt, init);
    }
  }

  lemma EndOfMember(ms: seq<Member>, j: nat)
    requires ValidMembers(ms) && j < |ms|
    ensures MemberEnds(ms, Build(ms), j)
  {
    hide *;
    EndAndOffset(ms, j);
    EndBySize(ms, Build(ms), j);
  }

  /** The end of a member in terms of its offset. */
  lemma StrideIsBytes(e: DataType)
    requires ValidType(e) && !e.Array? && e != Basic(1)
    ensures Stride(e) == ElementBytes(e)
  {
    hide Build, UnalignedSize;
    match e
    case Basic(b) =>
      assert Width(e) == b && BytesFor(b) == b / 8;
    case Str(len) =>
      assert Width(e) == 8 * (len + 2) && BytesFor(8 * (len + 2)) == len + 2;
    case Struct(inner) =>
      var size := StructSize(Build(inner));
      assert Width(e) == 8 * size && BytesFor(8 * size) == size && size % 2 == 0;
  }

  /** The end of an array. */
  lemma ArrayEnds(fs: seq<Field>, name: Name, dims: seq<Dim>, e: DataType, init: Option<seq<byte>>)
    requires ValidType(Array(dims, e)) && InitFits(Array(dims, e), init) && Laid(fs)
    ensures UnalignedSize(Added(fs, name, Array(dims, e), init))
            == UnalignedSize(fs) + ArrayBytesOf(NrElements(dims), e)
  {
    var w, n := WithMarker(fs, name, dims, e), NrElements(dims);
    assert ValidType(e) && !e.Array? && ValidDims(dims) && (init.Some? ==> !e.Struct?) && n >= 1;
    hide *;
    ArrayIsElements(fs, name, dims, e, init);
    MarkerIs(fs, name, dims, e);
    MarkerKeepsLaid(fs, name, Width(Array(dims, e)), Array(dims, e), None);
    ElementsKeepLaid(w, name, dims, e, init, n);
    GuardKeepsLaid(Elements(w, name, dims, e, init, n));
    if e == Basic(1) {
      BitsEnd(fs, name, dims, init);
      BoolBytes(n);
    } else {
      ElementsSize(w, name, dims, e, init, n);
      StrideIsBytes(e);
      OtherBytes(n, e);
    }
  }

  lemma MarkerIs(fs: seq<Field>, name: Name, dims: seq<Dim>, e: DataType)
    requires ValidType(Array(dims, e))
    ensures var dt := Array(dims, e);
            WithMarker(fs, name, dims, e) == fs + [Marker(fs, name, Width(dt), dt, None)]
  {
  }

  lemma BoolBytes(n: nat)
    ensures ArrayBytesOf(n, Basic(1)) == (n + 7) / 8
  {
  }

  lemma OtherBytes(n: nat, e: DataType)
    requires ValidType(e) && e != Basic(1)
    ensures ArrayBytesOf(n, e) == n * ElementBytes(e)
  {
  }

  /** The end of the elements of a BOOL array. */
  lemma BitsEnd(fs: seq<Field>, name: Name, dims: seq<Dim>, init: Option<seq<byte>>)
    requires ValidType(Array(dims, Basic(1))) && NrElements(dims) >= 1
    ensures UnalignedSize(Elements(WithMarker(fs, name, dims, Basic(1)), name, dims, Basic(1), init, NrElements(dims)))
            == UnalignedSize(fs) + (NrElements(dims) + 7) / 8
  {
    var w, n := WithMarker(fs, name, dims, Basic(1)), NrElements(dims);
    assert w[|w| - 1].bitSize == n && w[|w| - 1].over == Some(Offset(UnalignedSize(fs), 0));
    assert w[|w| - 1].offset == Offset(UnalignedSize(fs), 0) && UnalignedSize(w) == UnalignedSize(fs);
    if n == 1 {
      BitElement(w, name, dims, init, 1);
      assert Elements(w, name, dims, Basic(1), init, 0) == w;
    } else {
      BitElements(w, name, dims, init, n);
      LastBit(UnalignedSize(fs), n);
    }
  }

  lemma LastBit(base: nat, n: nat)
    requires n >= 1
    ensures FromBitOffset(8 * base + n - 1).byteOffset + 1 == base + (n + 7) / 8
  {
  }

  lemma EndAndOffset(ms: seq<Member>, j: nat)
    requires ValidMembers(ms) && j < |ms|
    ensures ValidMembers(ms[..j + 1]) && ValidMember(ms[j]) && ValidType(ms[j].dataType)
    ensures var f := FieldOf(Build(ms), ms[j]);
            && f.Some?
            && UnalignedSize(Build(ms[..j + 1])) == f.value.offset.byteOffset + BytesOf(ms[j].dataType)
  {
    TakeIsValid(ms, j);
    assert ValidMember(ms[j]);
    var dt, name := ms[j].dataType, [Ident(ms[j].name)];
    assert MemberAdded(ms, j) == Added(Before(ms, j), name, dt, ms[j].init);
    hide Added, Lookup, Laid, Build, Before, MemberAdded, UnalignedSize, RawSize, ValidMembers, ArrayBytesOf,
      NrElements;
    BuildStep(ms, j);
    MemberIsFound(ms, j);
    LookupInBuild(ms, j, name);
    MarkerIsFound(Before(ms, j), name, dt, ms[j].init);
    if dt.Array? {
      ArrayEnds(Before(ms, j), name, dt.dims, dt.elem, ms[j].init);
    } else {
      VariableEnds(Before(ms, j), name, dt, ms[j].init);
    }
  }

  function BytesOf(dt: DataType): nat
    requires ValidType(dt)
  {
    if dt.Array? then ArrayBytesOf(NrElements(dt.dims), dt.elem) else RawSize(dt)
  }

  lemma EndBySize(ms: seq<Member>, fs: seq<Field>, j: nat)
    requires ValidMembers(ms) && j < |ms| && ValidMembers(ms[..j + 1]) && ValidType(ms[j].dataType)
    requires FieldOf(fs, ms[j]).Some?
    requires UnalignedSize(Build(ms[..j + 1])) == FieldOf(fs, ms[j]).value.offset.byteOffset + BytesOf(ms[j].dataType)
    ensures MemberEnds(ms, fs, j)
  {
    hide FieldOf, Build, UnalignedSize, NrElements, ArrayBytesOf;
  }

  /** Every member of every declared structure is where its type says. */
  lemma BuildPlaces(ms: seq<Member>)
    requires ValidMembers(ms)
    ensures PlacedNaturally(ms, Build(ms))
  {
    hide MemberStarts, MemberEnds, Build;
    forall j | 0 <= j < |ms|
      ensures MemberStarts(ms, Build(ms), j) && MemberEnds(ms, Build(ms), j)
    {
      BoolFollows(ms, j);
      EndOfMember(ms, j);
    }
  }
}
