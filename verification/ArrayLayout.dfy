/**
 Array elements have two addresses: the offset at which the element loop laid out the field
 `name[idx]`, and base offset plus linear index times element width, which is what the
 translator computes for `name[idx]`. This module says exactly when the two agree.
 */
module ArrayLayout {
  import opened Bytes
  import opened Offset
  import opened Memory
  import opened Options
  import opened ArrayIndex
  import opened Layout
  import opened StructLayout
  import opened DataStructure
  import opened FieldNames

  /** The name of an element. */
  function ElementOf(name: Name, idx: seq<int>): Name {
    name + [Index(idx)]
  }

  /** The computed bit offset of an element inside its array. */
  function ComputedBits(dims: seq<Dim>, elem: DataType, idx: seq<int>): int
    requires ValidType(elem) && |idx| == |dims|
  {
    Collapse(dims, idx) * Width(elem)
  }

  /** Laid out and computed address of an element are the same. */
  ghost predicate AddressesAgree(fs: seq<Field>, name: Name, dims: seq<Dim>, elem: DataType, idx: seq<int>)
    requires ValidType(elem) && |idx| == |dims|
  {
    var base, field := Lookup(fs, name), Lookup(fs, ElementOf(name, idx));
    && base.Some? && field.Some?
    && ToBitOffset(field.value.offset) == ToBitOffset(base.value.offset) + ComputedBits(dims, elem, idx)
  }

  /**
   The arrays in which every element is where the translator computes it. Arrays of one
   BOOL are not among them, and of arrays with at least two elements those are not whose
   elements are STRINGs of odd length, or STRUCTs (or other types) of an odd number of bytes.
   */
  predicate Addressable(dims: seq<Dim>, elem: DataType)
    requires ValidType(elem)
  {
    match elem
    case Basic(b) => if b == 1 then NrElements(dims) != 1 else b == 8 || (b / 8) % 2 == 0 || NrElements(dims) == 1
    case Str(len) => len % 2 == 0 || NrElements(dims) == 1
    case Struct(ms) => UnalignedSize(Build(ms)) % 2 == 0 || NrElements(dims) == 1
    case Array(_, _) => false
  }

  // ----- where the element loop puts an element

  /** The bytes one element takes without padding. */
  function RawSize(elem: DataType): nat
    requires ValidType(elem)
  {
    match elem
    case Basic(b) => BytesFor(b)
    case Str(len) => len + 2
    case Struct(ms) => UnalignedSize(Build(ms))
    case Array(_, _) => 0
  }

  function Stride(elem: DataType): nat
    requires ValidType(elem)
  {
    RawSize(elem) + ElementPadding(elem)
  }

  lemma AddedSize(fs: seq<Field>, name: Name, elem: DataType, init: Option<seq<byte>>)
    requires ValidType(elem) && InitFits(elem, init) && !elem.Array? && elem != Basic(1) && Laid(fs)
    ensures UnalignedSize(Added(fs, name, elem, init)) == UnalignedSize(fs) + RawSize(elem)
  {
    hide Laid;
    match elem
    case Basic(b) =>
      AddedBasicKeepsLaid(fs, name, b, init);
    case Str(len) =>
      StringFieldsAreLaid(len);
      MergedKeepsLaid(fs, StringFields(len), name, Width(elem), elem, init);
    case Struct(ms) =>
      BuildIsLaid(ms);
      MergedKeepsLaid(fs, Build(ms), name, Width(elem), elem, init);
  }

  lemma StrideIs(elem: DataType)
    requires ValidType(elem)
    ensures Stride(elem) == RawSize(elem) + ElementPadding(elem)
  {
  }

  lemma {:induction false} ElementsSize(fs: seq<Field>, name: Name, dims: seq<Dim>, elem: DataType,
                     init: Option<seq<byte>>, k: nat)
    requires ValidDims(dims) && ValidType(elem) && !elem.Array? && (init.Some? ==> !elem.Struct?)
    requires elem != Basic(1) && Laid(fs)
    ensures UnalignedSize(Elements(fs, name, dims, elem, init, k)) == UnalignedSize(fs) + k * Stride(elem)
  {
    hide Laid, Added, RawSize, ElementPadding, UnalignedSize, Expand, Stride, Padded, ElemInit, Width, InitFits;
    if k > 0 {
      assert Stride(elem) == RawSize(elem) + ElementPadding(elem) by { StrideIs(elem); }
      var before := Elements(fs, name, dims, elem, init, k - 1);
      ElementsSize(fs, name, dims, elem, init, k - 1);
      ElementsKeepLaid(fs, name, dims, elem, init, k - 1);
      ElementAddedKeepsLaid(before, name, dims, elem, init, k - 1);
      ElemInitFits(init, elem, k - 1);
      AddedSize(before, name + [Index(Expand(dims, k - 1))], elem, ElemInit(init, elem, k - 1));
      PaddedKeepsLaid(ElementAdded(before, name, dims, elem, init, k - 1), ElementPadding(elem));
      MulSucc(k - 1, Stride(elem));
    }
  }

  /** Elements of a BOOL array with several elements follow each other bit by bit. */
  lemma {:induction false} BitElements(fs: seq<Field>, name: Name, dims: seq<Dim>, init: Option<seq<byte>>, k: nat)
    requires ValidDims(dims) && fs != []
    requires !IsData(fs[|fs| - 1]) && fs[|fs| - 1].bitSize != 1
    ensures var r := Elements(fs, name, dims, Basic(1), init, k);
            && NextOffset(r, 1) == FromBitOffset(8 * UnalignedSize(fs) + k)
            && (k > 0 ==> r[|r| - 1].bitSize == 1 && IsData(r[|r| - 1])
                          && r[|r| - 1].offset == FromBitOffset(8 * UnalignedSize(fs) + k - 1))
  {
    if k == 0 {
      assert FromBitOffset(8 * UnalignedSize(fs)) == Offset(UnalignedSize(fs), 0);
    } else {
      BitElements(fs, name, dims, init, k - 1);
      var before := Elements(fs, name, dims, Basic(1), init, k - 1);
      var r := Elements(fs, name, dims, Basic(1), init, k);
      BitElement(fs, name, dims, init, k);
      assert r[|r| - 1].offset == NextOffset(before, 1);
      hide *;
      NextBit(r, 8 * UnalignedSize(fs) + k - 1);
    }
  }

  lemma BitElement(fs: seq<Field>, name: Name, dims: seq<Dim>, init: Option<seq<byte>>, k: nat)
    requires ValidDims(dims) && k > 0
    ensures Elements(fs, name, dims, Basic(1), init, k)
            == AddedBasic(Elements(fs, name, dims, Basic(1), init, k - 1), name + [Index(Expand(dims, k - 1))], 1,
                          ElemInit(init, Basic(1), k - 1))
  {
    ElemInitFits(init, Basic(1), k - 1);
    hide ElemInit, Expand;
  }

  lemma NextBit(fs: seq<Field>, bit: nat)
    requires fs != [] && fs[|fs| - 1].bitSize == 1 && IsData(fs[|fs| - 1])
    requires fs[|fs| - 1].offset == FromBitOffset(bit)
    ensures NextOffset(fs, 1) == FromBitOffset(bit + 1)
  {
    assert (bit + 1) / 8 == (if bit % 8 < 7 then bit / 8 else bit / 8 + 1);
  }

  function WithMarker(fs: seq<Field>, name: Name, dims: seq<Dim>, elem: DataType): seq<Field>
    requires ValidType(Array(dims, elem))
  {
    fs + [Marker(fs, name, Width(Array(dims, elem)), Array(dims, elem), None)]
  }

  /** The bit offset of element `i`, counted from the start of the array. */
  function LaidOutBits(dims: seq<Dim>, elem: DataType, i: nat): nat
    requires ValidType(elem)
  {
    if elem == Basic(1) then (if NrElements(dims) == 1 then i + 1 else i) else MulNat(i, Stride(elem)) * 8
  }

  lemma ElementStart(fs: seq<Field>, name: Name, dims: seq<Dim>, elem: DataType, init: Option<seq<byte>>, i: nat)
    requires ValidType(Array(dims, elem)) && (init.Some? ==> !elem.Struct?) && Laid(fs) && i < NrElements(dims)
    ensures var before := Elements(WithMarker(fs, name, dims, elem), name, dims, elem, init, i);
            ToBitOffset(if elem.Basic? then NextOffset(before, elem.bits) else Offset(UnalignedSize(before), 0))
            == 8 * UnalignedSize(fs) + LaidOutBits(dims, elem, i)
  {
    var w := WithMarker(fs, name, dims, elem);
    MarkerKeepsLaid(fs, name, Width(Array(dims, elem)), Array(dims, elem), None);
    if elem == Basic(1) {
      assert Width(elem) == 1;
      assert w[|w| - 1].bitSize == NrElements(dims);
      if NrElements(dims) == 1 {
        assert i == 0;
        assert Elements(w, name, dims, elem, init, 0) == w;
      } else {
        BitElements(w, name, dims, init, i);
      }
    } else {
      hide Laid, Elements, Build;
      ElementsSize(w, name, dims, elem, init, i);
    }
  }

  /** The element loop registers `name[idx]`, and this is where. */
  lemma ElementIsFound(fs: seq<Field>, name: Name, dims: seq<Dim>, elem: DataType, init: Option<seq<byte>>, i: nat)
    requires ValidType(Array(dims, elem)) && InitFits(Array(dims, elem), init) && Laid(fs)
    requires name != [] && i < NrElements(dims)
    ensures var r := Added(fs, name, Array(dims, elem), init);
            var f := Lookup(r, ElementOf(name, Expand(dims, i)));
            && f.Some? && f.value.dataType == elem && f.value.bitSize == Width(elem)
            && ToBitOffset(f.value.offset) == 8 * UnalignedSize(fs) + LaidOutBits(dims, elem, i)
            && f.value.init == ElemInit(init, elem, i) && IsData(f.value) == elem.Basic?
  {
    var before := Elements(WithMarker(fs, name, dims, elem), name, dims, elem, init, i);
    var step := ElementOf(name, Expand(dims, i));
    var one := ElementAdded(before, name, dims, elem, init, i);
    assert step + [] == step;
    LookupInElement(fs, name, dims, elem, init, i, []);
    ElemInitFits(init, elem, i);
    AddedStartsWith(before, step, elem, ElemInit(init, elem, i));
    AddedNames(before, step, elem, ElemInit(init, elem, i));
    ElementStart(fs, name, dims, elem, init, i);
    assert one == Added(before, step, elem, ElemInit(init, elem, i));
    hide Laid, Elements, ElementAdded, Added, Lookup, LaidOutBits, ElemInit, Expand, Width, NextOffset;
    LookupFinds(one, |before|, step);
  }

  lemma MarkerIsFound(fs: seq<Field>, name: Name, dt: DataType, init: Option<seq<byte>>)
    requires ValidType(dt) && InitFits(dt, init) && name != []
    ensures var r := Added(fs, name, dt, init);
            |fs| < |r| && Lookup(r, name) == Some(r[|fs|]) && r[|fs|].dataType == dt
            && (!dt.Basic? ==> r[|fs|].offset == Offset(UnalignedSize(fs), 0))
  {
    AddedStartsWith(fs, name, dt, init);
    AddedNames(fs, name, dt, init);
    hide Added, Lookup;
    LookupFinds(Added(fs, name, dt, init), |fs|, name);
  }

  // ----- the two addresses

  lemma BitsAgree(dims: seq<Dim>, elem: DataType, i: nat)
    requires ValidType(elem) && !elem.Array? && ValidDims(dims) && i < NrElements(dims)
    ensures Addressable(dims, elem) ==> LaidOutBits(dims, elem, i) == i * Width(elem)
    ensures (!Addressable(dims, elem) && i == (if elem == Basic(1) then 0 else 1))
            ==> LaidOutBits(dims, elem, i) != i * Width(elem)
  {
    if elem == Basic(1) {
      assert Width(elem) == 1;
    } else {
      StrideIsWidth(elem);
      assert Addressable(dims, elem) <==> 8 * Stride(elem) == Width(elem) || NrElements(dims) == 1 by {
        hide Build, UnalignedSize, Width, Stride;
      }
      hide Width, Stride, Addressable;
      StrideBits(i, Stride(elem), Width(elem));
    }
  }

  lemma StrideBits(i: nat, stride: nat, width: nat)
    ensures 8 * stride == width ==> MulNat(i, stride) * 8 == i * width
    ensures i == 0 ==> MulNat(i, stride) * 8 == i * width
    ensures i == 1 && 8 * stride != width ==> MulNat(i, stride) * 8 != i * width
  {
    assert i * (8 * stride) == MulNat(i, stride) * 8;
  }

  lemma StrideIsWidth(elem: DataType)
    requires ValidType(elem) && !elem.Array? && elem != Basic(1)
    ensures 8 * Stride(elem) == Width(elem) <==>
              match elem
              case Basic(b) => b == 8 || (b / 8) % 2 == 0
              case Str(len) => len % 2 == 0
              case Struct(ms) => UnalignedSize(Build(ms)) % 2 == 0
              case Array(_, _) => false
  {
    hide Build, UnalignedSize;
  }

  lemma AgreesByBits(r: seq<Field>, name: Name, dims: seq<Dim>, elem: DataType, idx: seq<int>, base: nat, laidOut: nat)
    requires ValidType(elem) && |idx| == |dims|
    requires Lookup(r, name).Some? && Lookup(r, name).value.offset == Offset(base, 0)
    requires Lookup(r, ElementOf(name, idx)).Some?
    requires ToBitOffset(Lookup(r, ElementOf(name, idx)).value.offset) == 8 * base + laidOut
    ensures AddressesAgree(r, name, dims, elem, idx) <==> laidOut == ComputedBits(dims, elem, idx)
  {
    hide Lookup, ComputedBits, ElementOf;
  }

  /** One element: agreement is a matter of the two bit counts. */
  lemma ElementAgrees(fs: seq<Field>, name: Name, dims: seq<Dim>, elem: DataType, init: Option<seq<byte>>,
                      idx: seq<int>)
    requires ValidType(Array(dims, elem)) && InitFits(Array(dims, elem), init) && Laid(fs) && name != []
    requires InBounds(dims, idx)
    ensures 0 <= Collapse(dims, idx) < NrElements(dims)
    ensures AddressesAgree(Added(fs, name, Array(dims, elem), init), name, dims, elem, idx)
            <==> LaidOutBits(dims, elem, Collapse(dims, idx)) == ComputedBits(dims, elem, idx)
  {
    assert ValidType(elem) && !elem.Array? && ValidDims(dims);
    hide *;
    CollapseInRange(dims, idx);
    ExpandOfCollapse(dims, idx);
    ElementIsFound(fs, name, dims, elem, init, Collapse(dims, idx));
    MarkerIsFound(fs, name, Array(dims, elem), init);
    AgreesByBits(Added(fs, name, Array(dims, elem), init), name, dims, elem, idx, UnalignedSize(fs),
                 LaidOutBits(dims, elem, Collapse(dims, idx)));
  }

  /**
   Computed and laid out address agree for all elements if and only if the array is
   addressable, wherever the array is declared.
   */
  lemma ArrayAddressing(fs: seq<Field>, name: Name, dims: seq<Dim>, elem: DataType, init: Option<seq<byte>>)
    requires ValidType(Array(dims, elem)) && InitFits(Array(dims, elem), init) && Laid(fs) && name != []
    ensures (forall idx :: InBounds(dims, idx) ==>
               AddressesAgree(Added(fs, name, Array(dims, elem), init), name, dims, elem, idx))
            <==> Addressable(dims, elem)
  {
    hide Laid, Added, AddressesAgree, Addressable, LaidOutBits, Width, Collapse, Expand, NrElements;
    var r := Added(fs, name, Array(dims, elem), init);
    if Addressable(dims, elem) {
      forall idx | InBounds(dims, idx)
        ensures AddressesAgree(r, name, dims, elem, idx)
      {
        ElementAgrees(fs, name, dims, elem, init, idx);
        BitsAgree(dims, elem, Collapse(dims, idx));
      }
    } else {
      var i := if elem == Basic(1) then 0 else 1;
      NotAddressableHasElement(dims, elem);
      CollapseOfExpand(dims, i);
      BitsAgree(dims, elem, i);
      ElementAgrees(fs, name, dims, elem, init, Expand(dims, i));
      assert InBounds(dims, Expand(dims, i)) && !AddressesAgree(r, name, dims, elem, Expand(dims, i));
    }
  }

  lemma NotAddressableHasElement(dims: seq<Dim>, elem: DataType)
    requires ValidType(elem) && !elem.Array? && ValidDims(dims) && !Addressable(dims, elem)
    ensures (if elem == Basic(1) then 0 else 1) < NrElements(dims)
  {
  }

  // ----- the smallest arrays whose addresses come apart

  lemma OneBoolDisagrees()
    ensures var dims := [Dim(1, 1)];
            !AddressesAgree(Added([], [Ident("b")], Array(dims, Basic(1)), None), [Ident("b")], dims, Basic(1), [1])
  {
    var dims := [Dim(1, 1)];
    SmallDims(dims[0], 1);
    hide Added, AddressesAgree, Collapse, NrElements, LaidOutBits;
    ElementAgrees([], [Ident("b")], dims, Basic(1), None, [1]);
    BitsAgree(dims, Basic(1), 0);
  }

  lemma OddStringsDisagree()
    ensures var dims := [Dim(1, 2)];
            !AddressesAgree(Added([], [Ident("s")], Array(dims, Str(1)), None), [Ident("s")], dims, Str(1), [2])
  {
    var dims := [Dim(1, 2)];
    SmallDims(dims[0], 2);
    hide Added, AddressesAgree, Collapse, NrElements, LaidOutBits;
    ElementAgrees([], [Ident("s")], dims, Str(1), None, [2]);
    BitsAgree(dims, Str(1), 1);
  }

  lemma OddStructsDisagree()
    ensures var dims, t := [Dim(1, 2)], Struct([Member("x", Basic(8), None)]);
            !AddressesAgree(Added([], [Ident("r")], Array(dims, t), None), [Ident("r")], dims, t, [2])
  {
    var dims, t := [Dim(1, 2)], Struct([Member("x", Basic(8), None)]);
    SmallDims(dims[0], 2);
    assert UnalignedSize(Build(t.members)) == 1 by {
      assert t.members[..0] == [];
      assert Build(t.members) == AddedNaturally([], [Ident("x")], Basic(8), None);
      assert Padding([], 1) == 0;
    }
    hide Added, AddressesAgree, Collapse, NrElements, LaidOutBits, Build, UnalignedSize;
    ElementAgrees([], [Ident("r")], dims, t, None, [2]);
    BitsAgree(dims, t, 1);
  }

  lemma SmallDims(d: Dim, i: int)
    ensures NrElements([d]) == Size(d) && Collapse([d], [i]) == i - d.lo
  {
    assert [d][1..] == [] && [i][1..] == [];
  }
}
