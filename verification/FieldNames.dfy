/**
 Which names a variable registers, and what a lookup finds among them.
 */
module FieldNames {
  import opened Bytes
  import opened Offset
  import opened Options
  import opened ArrayIndex
  import opened Layout
  import opened DataStructure

  /** `n` names a part of `p`. */
  predicate PartOf(p: Name, n: Name) {
    |p| < |n| && n[..|p|] == p
  }

  predicate PartsOnly(fs: seq<Field>, from: nat, p: Name) {
    forall q :: from <= q < |fs| ==> fs[q].name == [] || PartOf(p, fs[q].name)
  }

  /** A field that is not called `n` does not change the lookup of `n`. */
  lemma {:induction false} LookupSkips(fs: seq<Field>, from: nat, n: Name)
    requires from <= |fs| && n != []
    requires forall q :: from <= q < |fs| ==> fs[q].name != n
    ensures Lookup(fs, n) == Lookup(fs[..from], n)
    decreases |fs|
  {
    if from < |fs| {
      assert fs[..|fs| - 1][..from] == fs[..from];
      LookupSkips(fs[..|fs| - 1], from, n);
    } else {
      assert fs[..from] == fs;
    }
  }

  /** The last field called `n` is found. */
  lemma LookupFinds(fs: seq<Field>, p: nat, n: Name)
    requires p < |fs| && n != [] && fs[p].name == n
    requires forall q :: p < q < |fs| ==> fs[q].name != n
    ensures Lookup(fs, n) == Some(fs[p])
  {
    LookupSkips(fs, p + 1, n);
    assert fs[..p + 1][p] == fs[p];
  }

  lemma LookupBehind(fs: seq<Field>, more: seq<Field>, i: nat, n: Name)
    requires n != [] && i < |more| && more[i].name == n && forall q :: i < q < |more| ==> more[q].name != n
    ensures Lookup(fs + more, n) == Some(more[i])
  {
    hide Lookup;
    LookupFinds(fs + more, |fs| + i, n);
  }

  lemma MovedName(f: Field, name: Name, base: Offset, n: Name)
    requires name != [] && n != []
    ensures Moved(f, name, base).name == name + n <==> f.name == n
  {
    if f.name != [] {
      assert (name + f.name)[|name|..] == f.name && (name + n)[|name|..] == n;
    }
  }

  lemma PaddedNames(fs: seq<Field>, n: nat)
    ensures fs <= Padded(fs, n)
    ensures forall q :: |fs| <= q < |Padded(fs, n)| ==> Padded(fs, n)[q].name == []
    decreases n
  {
    if n > 0 {
      PaddedNames(AddedBasic(fs, [], 8, None), n - 1);
    }
  }

  lemma MergedNames(fs: seq<Field>, other: seq<Field>, name: Name, bits: nat, dt: DataType,
                    init: Option<seq<byte>>)
    requires name != []
    ensures PartsOnly(Merged(fs, other, name, bits, dt, init), |fs| + 1, name)
  {
    var withMarker := fs + [Marker(fs, name, bits, dt, init)];
    var moved := MovedAll(other, name, Offset(UnalignedSize(withMarker), 0));
    var r := Merged(fs, other, name, bits, dt, init);
    forall q | |fs| + 1 <= q < |r|
      ensures r[q].name == [] || PartOf(name, r[q].name)
    {
      if q < |fs| + 1 + |other| {
        assert r[q] == moved[q - |fs| - 1];
      }
    }
  }

  /** Behind its first field a variable registers nothing but parts of its name. */
  lemma {:induction false} AddedNames(fs: seq<Field>, name: Name, dt: DataType, init: Option<seq<byte>>)
    requires ValidType(dt) && InitFits(dt, init) && name != []
    ensures PartsOnly(Added(fs, name, dt, init), |fs| + 1, name)
    decreases dt, 0
  {
    match dt
    case Basic(_) =>
    case Str(len) =>
      MergedNames(fs, StringFields(len), name, Width(dt), dt, init);
    case Struct(ms) =>
      MergedNames(fs, Build(ms), name, Width(dt), dt, init);
    case Array(dims, e) =>
      hide Elements;
      var withMarker := fs + [Marker(fs, name, Width(dt), dt, None)];
      ElementNames(withMarker, name, dims, e, init, 0, NrElements(dims));
      ElementsStart(withMarker, name, dims, e, init);
      var els := Elements(withMarker, name, dims, e, init, NrElements(dims));
      forall q | |fs| + 1 <= q < |els|
        ensures els[q].name == [] || PartOf(name, els[q].name)
      {
        assert ElementName(els[q].name, name, dims, 0, NrElements(dims));
      }
  }

  /** An absent name, or the name of (a part of) an existing element with index `from .. to - 1`. */
  predicate ElementName(n: Name, name: Name, dims: seq<Dim>, from: nat, to: nat) {
    n == [] || (PartOf(name, n) && n[|name|].Index?
                && InBounds(dims, n[|name|].indices) && from <= Collapse(dims, n[|name|].indices) < to)
  }

  lemma {:induction false} ElementNames(fs: seq<Field>, name: Name, dims: seq<Dim>, elem: DataType,
                     init: Option<seq<byte>>, from: nat, k: nat)
    requires ValidDims(dims) && ValidType(elem) && !elem.Array? && (init.Some? ==> !elem.Struct?)
    requires name != [] && from <= k <= NrElements(dims)
    ensures var a, r := Elements(fs, name, dims, elem, init, from), Elements(fs, name, dims, elem, init, k);
            a <= r && forall q :: |a| <= q < |r| ==> ElementName(r[q].name, name, dims, from, k)
    decreases elem, 1, k
  {
    hide Added, Collapse, Expand, Padded;
    if from < k {
      ElementNames(fs, name, dims, elem, init, from, k - 1);
      var a, before := Elements(fs, name, dims, elem, init, from), Elements(fs, name, dims, elem, init, k - 1);
      var added := ElementAdded(before, name, dims, elem, init, k - 1);
      var r := Padded(added, ElementPadding(elem));
      OneElementNames(before, name, dims, elem, init, k - 1);
      PaddedNames(added, ElementPadding(elem));
      forall q | |a| <= q < |r|
        ensures ElementName(r[q].name, name, dims, from, k)
      {
        if q < |before| {
          assert r[q] == before[q];
        } else if q < |added| {
          assert r[q] == added[q];
        }
      }
    }
  }

  lemma {:induction false} OneElementNames(fs: seq<Field>, name: Name, dims: seq<Dim>, elem: DataType,
                        init: Option<seq<byte>>, i: nat)
    requires ValidDims(dims) && ValidType(elem) && !elem.Array? && (init.Some? ==> !elem.Struct?)
    requires name != [] && i < NrElements(dims)
    ensures var r := ElementAdded(fs, name, dims, elem, init, i);
            fs <= r && forall q :: |fs| <= q < |r| ==> ElementName(r[q].name, name, dims, i, i + 1)
    decreases elem, 1, 0
  {
    hide Added, Collapse, Expand;
    ElemInitFits(init, elem, i);
    var step := name + [Index(Expand(dims, i))];
    CollapseOfExpand(dims, i);
    AddedStartsWith(fs, step, elem, ElemInit(init, elem, i));
    AddedNames(fs, step, elem, ElemInit(init, elem, i));
    var r := ElementAdded(fs, name, dims, elem, init, i);
    forall q | |fs| <= q < |r|
      ensures ElementName(r[q].name, name, dims, i, i + 1)
    {
      var n := r[q].name;
      if n != [] {
        assert n[..|step|] == step;
        assert n[|name|] == step[|name|] && n[..|name|] == step[..|name|] == name;
      }
    }
  }

  /** Fields of other names behind do not change a lookup. */
  lemma LookupStays(one: seq<Field>, r: seq<Field>, n: Name)
    requires n != [] && |one| <= |r| && r[..|one|] == one
    requires forall q :: |one| <= q < |r| ==> r[q].name != n
    ensures Lookup(r, n) == Lookup(one, n)
  {
    LookupSkips(r, |one|, n);
  }

  lemma ArrayIsElements(fs: seq<Field>, name: Name, dims: seq<Dim>, elem: DataType, init: Option<seq<byte>>)
    requires ValidType(Array(dims, elem)) && (init.Some? ==> !elem.Struct?)
    ensures var withMarker := fs + [Marker(fs, name, Width(Array(dims, elem)), Array(dims, elem), None)];
            var all := Elements(withMarker, name, dims, elem, init, NrElements(dims));
            Added(fs, name, Array(dims, elem), init) == all + [Guard(all)]
  {
    hide Elements, Width, NrElements, UnalignedSize;
  }

  lemma NextElement(fs: seq<Field>, name: Name, dims: seq<Dim>, elem: DataType, init: Option<seq<byte>>, i: nat)
    requires ValidDims(dims) && ValidType(elem) && !elem.Array? && (init.Some? ==> !elem.Struct?)
    ensures Elements(fs, name, dims, elem, init, i + 1)
            == Padded(ElementAdded(Elements(fs, name, dims, elem, init, i), name, dims, elem, init, i),
                      ElementPadding(elem))
  {
    hide ElementAdded, Padded, ElementPadding;
  }

  lemma ElementIsValid(dims: seq<Dim>, elem: DataType)
    requires ValidType(Array(dims, elem))
    ensures ValidType(elem) && !elem.Array?
  {
  }

  /** The fields of an array: up to an element, its padding, the later elements and the guard. */
  lemma ArrayParts(fs: seq<Field>, name: Name, dims: seq<Dim>, elem: DataType, init: Option<seq<byte>>, i: nat)
      returns (one: seq<Field>, upTo: seq<Field>, all: seq<Field>)
    requires ValidDims(dims) && ValidType(Array(dims, elem)) && (init.Some? ==> !elem.Struct?)
    requires name != [] && i < NrElements(dims)
    ensures var withMarker := fs + [Marker(fs, name, Width(Array(dims, elem)), Array(dims, elem), None)];
            one == ElementAdded(Elements(withMarker, name, dims, elem, init, i), name, dims, elem, init, i)
    ensures one <= upTo <= all && Added(fs, name, Array(dims, elem), init) == all + [Guard(all)]
    ensures forall q :: |one| <= q < |upTo| ==> upTo[q].name == []
    ensures forall q :: |upTo| <= q < |all| ==> ElementName(all[q].name, name, dims, i + 1, NrElements(dims))
  {
    var count := NrElements(dims);
    var withMarker := fs + [Marker(fs, name, Width(Array(dims, elem)), Array(dims, elem), None)];
    ElementIsValid(dims, elem);
    hide *;
    one := ElementAdded(Elements(withMarker, name, dims, elem, init, i), name, dims, elem, init, i);
    upTo := Elements(withMarker, name, dims, elem, init, i + 1);
    all := Elements(withMarker, name, dims, elem, init, count);
    ArrayIsElements(fs, name, dims, elem, init);
    NextElement(withMarker, name, dims, elem, init, i);
    ElementNames(withMarker, name, dims, elem, init, i + 1, count);
    PaddedNames(one, ElementPadding(elem));
  }

  /** A lookup inside one element only depends on that element. */
  lemma LookupInElement(fs: seq<Field>, name: Name, dims: seq<Dim>, elem: DataType,
                        init: Option<seq<byte>>, i: nat, rest: Name)
    requires ValidDims(dims) && ValidType(Array(dims, elem)) && (init.Some? ==> !elem.Struct?)
    requires name != [] && i < NrElements(dims)
    ensures var n := name + [Index(Expand(dims, i))] + rest;
            var withMarker := fs + [Marker(fs, name, Width(Array(dims, elem)), Array(dims, elem), None)];
            Lookup(Added(fs, name, Array(dims, elem), init), n)
            == Lookup(ElementAdded(Elements(withMarker, name, dims, elem, init, i), name, dims, elem, init, i), n)
  {
    var n := name + [Index(Expand(dims, i))] + rest;
    hide Added, Elements, ElementAdded, Lookup, Width, ElementName, UnalignedSize, NrElements, Expand, Collapse;
    var one, upTo, all := ArrayParts(fs, name, dims, elem, init, i);
    CollapseOfExpand(dims, i);
    NotLater(one, upTo, all, all + [Guard(all)], name, dims, i, NrElements(dims), n);
    LookupStays(one, all + [Guard(all)], n);
  }

  lemma NotLater(one: seq<Field>, upTo: seq<Field>, all: seq<Field>, r: seq<Field>, name: Name, dims: seq<Dim>,
                 i: nat, count: nat, n: Name)
    requires one <= upTo <= all && r == all + [Guard(all)]
    requires forall q :: |one| <= q < |upTo| ==> upTo[q].name == []
    requires forall q :: |upTo| <= q < |all| ==> ElementName(all[q].name, name, dims, i + 1, count)
    requires |n| > |name| && n[|name|].Index? && |n[|name|].indices| == |dims| && Collapse(dims, n[|name|].indices) == i
    ensures r[..|one|] == one
    ensures forall q :: |one| <= q < |r| ==> r[q].name != n
  {
    hide Collapse, UnalignedSize;
    forall q | |one| <= q < |r|
      ensures r[q].name != n
    {
      if q < |upTo| {
        assert r[q] == upTo[q];
      } else if q < |all| {
        assert ElementName(all[q].name, name, dims, i + 1, count);
      }
    }
  }
}
