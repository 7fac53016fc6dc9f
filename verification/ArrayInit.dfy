/**
 Declared initial values of arrays of numbers and bytes: the translator writes each one at its
 linear index into a byte string, the element loop cuts that string into pieces, and an
 instance stores the pieces at the elements' fields.
 */
module ArrayInit {
  import opened Bytes
  import opened Offset
  import opened Memory
  import opened Options
  import opened ArrayIndex
  import opened Layout
  import opened StructLayout
  import opened DataStructure
  import opened StructInstance
  import opened ArrayLayout

  /** `name[indices] := value` in a declaration. */
  datatype DataInit = DataInit(indices: seq<int>, value: Value)

  predicate ValidInits(dims: seq<Dim>, bits: nat, inits: seq<DataInit>) {
    forall k :: 0 <= k < |inits| ==> InBounds(dims, inits[k].indices) && Acceptable(bits, inits[k].value)
  }

  function At(i: nat, bits: nat): Offset {
    FromBitOffset(MulNat(i, bits))
  }

  function LinearIndex(dims: seq<Dim>, idx: seq<int>): (i: nat)
    requires ValidDims(dims) && InBounds(dims, idx)
    ensures i == Collapse(dims, idx) && i < NrElements(dims)
  {
    CollapseInRange(dims, idx);
    Collapse(dims, idx)
  }

  predicate ElementBits(bits: nat) {
    ValidType(Basic(bits))
  }

  function ArrayBytes(dims: seq<Dim>, bits: nat): nat
    requires ValidDims(dims)
  {
    BytesFor(MulNat(NrElements(dims), bits))
  }

  lemma SlotOfElement(i: nat, bits: nat)
    requires ElementBits(bits)
    ensures Slot(At(i, bits), bits) && ToBitOffset(At(i, bits)) == MulNat(i, bits)
  {
    if bits != 1 {
      MultipleOfEight(i, bits);
    }
  }

  lemma ElementIsInside(i: nat, n: nat, bits: nat)
    requires ElementBits(bits) && i < n
    ensures At(i, bits).byteOffset + BytesFor(bits) <= BytesFor(MulNat(n, bits))
  {
    SlotOfElement(i, bits);
    MulMono(i + 1, n, bits);
    MulSucc(i, bits);
  }

  lemma ProductsAreApart(i: nat, j: nat, bits: nat)
    requires i != j
    ensures MulNat(i, bits) + bits <= MulNat(j, bits) || MulNat(j, bits) + bits <= MulNat(i, bits)
  {
    MulMono(i + 1, j, bits);
    MulMono(j + 1, i, bits);
    MulSucc(i, bits);
    MulSucc(j, bits);
  }

  lemma CanStore(mem: seq<byte>, dims: seq<Dim>, bits: nat, init: DataInit)
    requires ValidDims(dims) && ElementBits(bits) && InBounds(dims, init.indices) && Acceptable(bits, init.value)
    requires |mem| == ArrayBytes(dims, bits)
    ensures var o := At(LinearIndex(dims, init.indices), bits);
            StoreAllowed(o, bits, init.value) && StoreFits(mem, o, bits, init.value)
  {
    SlotOfElement(LinearIndex(dims, init.indices), bits);
    ElementIsInside(LinearIndex(dims, init.indices), NrElements(dims), bits);
  }

  /** The bytes after the first `k` initial values. */
  function InitBytes(dims: seq<Dim>, bits: nat, inits: seq<DataInit>, k: nat): (r: seq<byte>)
    requires ValidDims(dims) && ElementBits(bits) && ValidInits(dims, bits, inits) && k <= |inits|
    ensures |r| == ArrayBytes(dims, bits)
  {
    if k == 0 then Zeros(ArrayBytes(dims, bits))
    else
      var before, init := InitBytes(dims, bits, inits, k - 1), inits[k - 1];
      CanStore(before, dims, bits, init);
      Stored(before, At(LinearIndex(dims, init.indices), bits), bits, init.value)
  }

  /** Translate the initial values of an array; a subscript out of bounds is an error. */
  method RawArrayInit(dims: seq<Dim>, bits: nat, inits: seq<DataInit>) returns (r: Option<seq<byte>>)
    requires ValidDims(dims) && 1 <= |dims| <= 6 && ElementBits(bits)
    requires forall k :: 0 <= k < |inits| ==> |inits[k].indices| == |dims| && Acceptable(bits, inits[k].value)
    ensures r.Some? <==> ValidInits(dims, bits, inits)
    ensures r.Some? ==> r.value == InitBytes(dims, bits, inits, |inits|)
  {
    var initBytes := new ByteArray(ArrayBytes(dims, bits));
    assert initBytes.data[..] == Zeros(ArrayBytes(dims, bits));
    hide Collapse, NrElements, Stored, StoreFits, InitBytes, ArrayBytes, At;
    InitBytesStart(dims, bits, inits[..0]);
    for k := 0 to |inits|
      invariant ValidInits(dims, bits, inits[..k])
      invariant initBytes.data[..] == InitBytes(dims, bits, inits[..k], k)
      invariant fresh(initBytes.data)
    {
      var index := ArrayIndicesCollapse(dims, inits[k].indices);
      if !index.Linear? {
        return None;
      }
      InitBytesStep(dims, bits, inits, k);
      CanStore(initBytes.data[..], dims, bits, inits[k]);
      var ok := initBytes.Store(At(LinearIndex(dims, inits[k].indices), bits), bits, inits[k].value);
      assert ok;
    }
    assert inits[..|inits|] == inits;
    return Some(initBytes.data[..]);
  }

  lemma InitBytesStart(dims: seq<Dim>, bits: nat, inits: seq<DataInit>)
    requires ValidDims(dims) && ElementBits(bits) && ValidInits(dims, bits, inits)
    ensures InitBytes(dims, bits, inits, 0) == Zeros(ArrayBytes(dims, bits))
  {
  }

  lemma InitBytesStep(dims: seq<Dim>, bits: nat, inits: seq<DataInit>, k: nat)
    requires ValidDims(dims) && ElementBits(bits) && k < |inits| && ValidInits(dims, bits, inits[..k])
    requires InBounds(dims, inits[k].indices) && Acceptable(bits, inits[k].value)
    ensures ValidInits(dims, bits, inits[..k + 1])
    ensures var before, o := InitBytes(dims, bits, inits[..k], k), At(LinearIndex(dims, inits[k].indices), bits);
            StoreAllowed(o, bits, inits[k].value)
            && InitBytes(dims, bits, inits[..k + 1], k + 1) == Stored(before, o, bits, inits[k].value)
  {
    hide Collapse, NrElements, Stored, StoreFits, ArrayBytes, At, InBounds;
    assert inits[..k + 1] == inits[..k] + [inits[k]];
    InitBytesOfPrefix(dims, bits, inits[..k + 1], inits[..k], k);
    CanStore(InitBytes(dims, bits, inits[..k], k), dims, bits, inits[k]);
  }

  lemma {:induction false} InitBytesOfPrefix(dims: seq<Dim>, bits: nat, inits: seq<DataInit>, prefix: seq<DataInit>,
                                             k: nat)
    requires ValidDims(dims) && ElementBits(bits) && ValidInits(dims, bits, inits) && ValidInits(dims, bits, prefix)
    requires prefix <= inits && k <= |prefix|
    ensures InitBytes(dims, bits, prefix, k) == InitBytes(dims, bits, inits, k)
  {
    hide Stored;
    if k > 0 {
      InitBytesOfPrefix(dims, bits, inits, prefix, k - 1);
    }
  }

  /** The value declared for a tuple by the first `k` initial values: the last one, or zero. */
  function Declared(bits: nat, inits: seq<DataInit>, k: nat, idx: seq<int>): Value
    requires k <= |inits| && (forall j :: 0 <= j < |inits| ==> Acceptable(bits, inits[j].value))
  {
    if k == 0 then ZeroValue(bits)
    else if inits[k - 1].indices == idx then
      assert Acceptable(bits, inits[k - 1].value);
      Norm(bits, inits[k - 1].value)
    else Declared(bits, inits, k - 1, idx)
  }

  function ZeroValue(bits: nat): Value {
    if FetchedAsInt(bits) then IntVal(0) else BytesVal(Zeros(BytesFor(bits)))
  }

  lemma {:induction false} FromZeros(n: nat)
    ensures FromBigEndian(Zeros(n)) == 0
  {
    if n > 0 {
      FromZeros(n - 1);
      assert Zeros(n)[..n - 1] == Zeros(n - 1);
    }
  }

  lemma ZeroBits(i: nat)
    ensures !Bit(0, i)
  {
  }

  lemma FetchZeros(n: nat, o: Offset, bits: nat)
    requires Slot(o, bits) && o.byteOffset + BytesFor(bits) <= n
    ensures Fetched(Zeros(n), o, bits) == Some(ZeroValue(bits))
  {
    var z := Zeros(n);
    assert z[o.byteOffset..o.byteOffset + BytesFor(bits)] == Zeros(BytesFor(bits));
    FromZeros(BytesFor(bits));
    ZeroBits(o.bitOffset);
  }

  /** At the linear index of a tuple, the initial bytes hold what was declared for it. */
  lemma {:induction false} InitBytesHold(dims: seq<Dim>, bits: nat, inits: seq<DataInit>, k: nat, idx: seq<int>)
    requires ValidDims(dims) && ElementBits(bits) && ValidInits(dims, bits, inits) && k <= |inits|
    requires InBounds(dims, idx)
    ensures FetchAllowed(At(LinearIndex(dims, idx), bits), bits)
    ensures Fetched(InitBytes(dims, bits, inits, k), At(LinearIndex(dims, idx), bits), bits)
            == Some(Declared(bits, inits, k, idx))
  {
    var i, n := LinearIndex(dims, idx), NrElements(dims);
    hide Collapse, NrElements, Stored, Fetched, Norm, InBounds, ValidDims;
    SlotOfElement(i, bits);
    ElementIsInside(i, n, bits);
    if k == 0 {
      FetchZeros(ArrayBytes(dims, bits), At(i, bits), bits);
    } else {
      InitBytesHold(dims, bits, inits, k - 1, idx);
      var before, init := InitBytes(dims, bits, inits, k - 1), inits[k - 1];
      CanStore(before, dims, bits, init);
      SlotOfElement(LinearIndex(dims, init.indices), bits);
      if init.indices == idx {
        FetchOfStore(before, At(i, bits), bits, init.value);
      } else {
        DifferentIndices(dims, idx, init.indices);
        ProductsAreApart(i, LinearIndex(dims, init.indices), bits);
        FetchOfDisjointStore(before, At(LinearIndex(dims, init.indices), bits), bits, init.value, At(i, bits), bits);
      }
    }
  }

  lemma DifferentIndices(dims: seq<Dim>, a: seq<int>, b: seq<int>)
    requires ValidDims(dims) && InBounds(dims, a) && InBounds(dims, b) && a != b
    ensures LinearIndex(dims, a) != LinearIndex(dims, b)
  {
    ExpandOfCollapse(dims, a);
    ExpandOfCollapse(dims, b);
  }

  /** Cutting an element out of an array's bytes keeps its value. */
  lemma PieceKeepsValue(init: seq<byte>, bits: nat, i: nat, v: Value)
    requires ElementBits(bits) && init != [] && At(i, bits).byteOffset + BytesFor(bits) <= |init|
    requires FetchAllowed(At(i, bits), bits) && Fetched(init, At(i, bits), bits) == Some(v)
    ensures var piece := ElemInit(Some(init), Basic(bits), i);
            piece.Some? && |piece.value| == BytesFor(bits) && piece.value != []
            && Norm(bits, BytesVal(piece.value)) == v
  {
    SlotOfElement(i, bits);
    var zeros := Zeros(BytesFor(bits));
    StoreOfFetched(init, At(i, bits), bits, zeros, ZERO);
    var piece := Stored(zeros, ZERO, bits, v);
    assert ElemInit(Some(init), Basic(bits), i) == Some(piece);
    assert bits != 1 ==> piece[0..BytesFor(bits)] == piece;
  }

  /**
   In every fresh instance of a structure that declares the array, the field of each tuple
   holds the value that was declared for that tuple, whatever else is declared.
   */
  lemma ArrayInitialValues(fs: seq<Field>, name: Name, dims: seq<Dim>, bits: nat, inits: seq<DataInit>,
                           more: seq<Field>, idx: seq<int>)
    requires ValidType(Array(dims, Basic(bits))) && ValidInits(dims, bits, inits) && InBounds(dims, idx)
    requires name != [] && Laid(fs)
    requires var r := Added(fs, name, Array(dims, Basic(bits)), Some(InitBytes(dims, bits, inits, |inits|)));
             Laid(r + more) && InitsFit(r + more)
    ensures var r := Added(fs, name, Array(dims, Basic(bits)), Some(InitBytes(dims, bits, inits, |inits|)));
            var f := Lookup(r, ElementOf(name, idx));
            && f.Some? && f.value.bitSize == bits && FetchAllowed(f.value.offset, bits)
            && Fetched(Initialized(r + more), f.value.offset, bits) == Some(Declared(bits, inits, |inits|, idx))
  {
    var init := InitBytes(dims, bits, inits, |inits|);
    var i := LinearIndex(dims, idx);
    ElementIsInside(i, NrElements(dims), bits);
    ExpandOfCollapse(dims, idx);
    InitBytesHold(dims, bits, inits, |inits|, idx);
    PieceKeepsValue(init, bits, i, Declared(bits, inits, |inits|, idx));
    var r := Added(fs, name, Array(dims, Basic(bits)), Some(init));
    ElementIsFound(fs, name, dims, Basic(bits), Some(init), i);
    var p := FieldIndex(r, ElementOf(name, idx));
    assert (r + more)[p] == r[p];
    InitialValue(r + more, p);
  }
}
