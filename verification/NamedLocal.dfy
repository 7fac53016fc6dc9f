/**
 Resolving local names such as `#a[1].b.c[2]`: the translator walks the identifier chain and
 accumulates a sub-offset from field offsets and computed array offsets. The result is
 compared with looking up the whole name in the flattened structure.
 */
module NamedLocal {
  import opened Bytes
  import opened Offset
  import opened Options
  import opened ArrayIndex
  import opened Layout
  import opened DataStructure
  import opened FieldNames
  import opened ArrayLayout

  /** One identifier of a chain; `indices` is empty if it has no subscripts. */
  datatype ChainElem = ChainElem(name: string, indices: seq<int>)

  datatype Resolved = Failed | Resolved(subOffset: Offset, accessType: DataType)

  function StructOf(dt: DataType): Option<seq<Field>>
    requires ValidType(dt)
  {
    match dt
    case Struct(ms) => Some(Build(ms))
    case Str(len) => Some(StringFields(len))
    case _ => None
  }

  /** The structure of an ARRAY's elements, or of the type itself. */
  function ItemStruct(dt: DataType): Option<seq<Field>>
    requires ValidType(dt)
  {
    if dt.Array? then StructOf(dt.elem) else StructOf(dt)
  }

  /** The name of a chain without its subscripts. */
  function PlainName(chain: seq<ChainElem>): (n: Name)
    ensures |n| == |chain|
  {
    seq(|chain|, i requires 0 <= i < |chain| => Ident(chain[i].name))
  }

  function Subscripted(name: Name, indices: seq<int>): Name {
    if indices == [] then name else name + [Index(indices)]
  }

  function ElemName(c: ChainElem): Name {
    Subscripted([Ident(c.name)], c.indices)
  }

  /** The name of a chain with its subscripts, as it is registered in the flattened structure. */
  function FullName(chain: seq<ChainElem>): Name {
    if chain == [] then [] else ElemName(chain[0]) + FullName(chain[1..])
  }

  /** The data type of the interface field, or of one of its sub-fields. */
  function TypeAt(dt: DataType, chain: seq<ChainElem>, i: nat): Option<DataType>
    requires ValidType(dt) && i < |chain|
  {
    if i == 0 then Some(dt)
    else if ItemStruct(dt).None? then None
    else
      var f := Lookup(ItemStruct(dt).value, PlainName(chain[1..i + 1]));
      if f.None? then None else Some(f.value.dataType)
  }

  /** The offset that subscripts add, and the type that is accessed. */
  function IndexPart(dt: DataType, indices: seq<int>): Option<(Offset, DataType)>
    requires ValidType(dt)
  {
    if indices == [] then Some((ZERO, dt))
    else match dt
      case Array(dims, e) =>
        if InBounds(dims, indices) then
          CollapseInRange(dims, indices);
          Some((FromBitOffset(MulNat(Collapse(dims, indices), Width(e))), e))
        else None
      case Str(len) =>
        if |indices| == 1 && 1 <= indices[0] <= len then Some((Offset(2 + indices[0] - 1, 0), Basic(8))) else None
      case _ => None
  }

  /** A variable that needs a subscript but has none. */
  predicate MissingSubscript(dt: DataType, c: ChainElem, last: bool, allowWhole: bool) {
    (dt.Array? || dt.Str?) && last && c.indices == [] && !allowWhole
  }

  /** The walk over the chain from identifier `i` on. */
  ghost function WalkFrom(dt: DataType, chain: seq<ChainElem>, i: nat, parent: Option<seq<Field>>, sub: Offset,
                    allowWhole: bool): Resolved
    requires ValidType(dt) && i < |chain|
    decreases |chain| - i
  {
    var t := TypeAt(dt, chain, i);
    if t.None? || MissingSubscript(t.value, chain[i], i == |chain| - 1, allowWhole) then Failed
    else
      TypeAtIsValid(dt, chain, i);
      var field := if i == 0 || parent.None? then None else Lookup(parent.value, [Ident(chain[i].name)]);
      if i > 0 && field.None? then Failed
      else
        var sub1 := if i == 0 then sub else Add(sub, field.value.offset);
        var part := IndexPart(t.value, chain[i].indices);
        if part.None? then Failed
        else
          var sub2 := if chain[i].indices == [] then sub1 else Add(sub1, part.value.0);
          if i == |chain| - 1 then Resolved(sub2, part.value.1)
          else WalkFrom(dt, chain, i + 1, ItemStruct(t.value), sub2, allowWhole)
  }

  /** Resolve a local name to the sub-offset inside its variable, and the accessed type. */
  method ResolveNamedLocal(dt: DataType, chain: seq<ChainElem>, allowWhole: bool) returns (r: Resolved)
    requires ValidType(dt) && chain != []
    ensures r == WalkFrom(dt, chain, 0, None, ZERO, allowWhole)
  {
    hide Lookup, Build, ItemStruct, IndexPart;
    var parentStruct: Option<seq<Field>> := None;
    var subOffset := ZERO;
    var i := 0;
    while true
      invariant i < |chain|
      invariant WalkFrom(dt, chain, i, parentStruct, subOffset, allowWhole)
             == WalkFrom(dt, chain, 0, None, ZERO, allowWhole)
      decreases |chain| - i
    {
      var dataType := TypeAt(dt, chain, i);
      if dataType.None? {
        return Failed;
      }
      TypeAtIsValid(dt, chain, i);
      if MissingSubscript(dataType.value, chain[i], i == |chain| - 1, allowWhole) {
        return Failed;
      }
      if i > 0 {
        var structField := if parentStruct.None? then None else Lookup(parentStruct.value, [Ident(chain[i].name)]);
        if structField.None? {
          return Failed;
        }
        subOffset := Add(subOffset, structField.value.offset);
      }
      var part := IndexPart(dataType.value, chain[i].indices);
      if part.None? {
        return Failed;
      }
      if chain[i].indices != [] {
        subOffset := Add(subOffset, part.value.0);
      }
      if i == |chain| - 1 {
        return Resolved(subOffset, part.value.1);
      }
      parentStruct := ItemStruct(dataType.value);
      i := i + 1;
    }
  }

  lemma TypeAtIsValid(dt: DataType, chain: seq<ChainElem>, i: nat)
    requires ValidType(dt) && i < |chain| && TypeAt(dt, chain, i).Some?
    ensures ValidType(TypeAt(dt, chain, i).value)
  {
    if i > 0 {
      var dt' := if dt.Array? then dt.elem else dt;
      var n := PlainName(chain[1..i + 1]);
      match dt' {
        case Struct(ms) =>
          BuildTypesValid(ms);
          var _ := FieldIndex(Build(ms), n);
        case Str(len) =>
          var _ := FieldIndex(StringFields(len), n);
        case _ =>
      }
    }
  }

  ghost predicate TypesValid(fs: seq<Field>) {
    forall f :: f in fs && f.name != [] ==> ValidType(f.dataType)
  }

  lemma {:induction false} BuildTypesValid(ms: seq<Member>)
    requires ValidMembers(ms)
    ensures TypesValid(Build(ms))
    decreases ms
  {
    if ms != [] {
      var last := ms[|ms| - 1];
      PrefixIsValid(ms);
      var before := Build(ms[..|ms| - 1]);
      BuildTypesValid(ms[..|ms| - 1]);
      var n := Padding(before, NaturalAlignment(last.dataType));
      PaddedTypesValid(before, n);
      AddedTypesValid(Padded(before, n), [Ident(last.name)], last.dataType, last.init);
      assert Build(ms) == AddedNaturally(before, [Ident(last.name)], last.dataType, last.init);
    }
  }

  lemma PaddedTypesValid(fs: seq<Field>, n: nat)
    requires TypesValid(fs)
    ensures TypesValid(Padded(fs, n))
  {
    PaddedNames(fs, n);
    var r := Padded(fs, n);
    forall f | f in r && f.name != []
      ensures ValidType(f.dataType)
    {
      var q :| 0 <= q < |r| && r[q] == f;
      assert q < |fs| && f == fs[q];
    }
  }

  lemma MergedTypesValid(fs: seq<Field>, other: seq<Field>, name: Name, bits: nat, dt: DataType,
                         init: Option<seq<byte>>)
    requires TypesValid(fs) && TypesValid(other) && ValidType(dt)
    ensures TypesValid(Merged(fs, other, name, bits, dt, init))
  {
    var withMarker := fs + [Marker(fs, name, bits, dt, init)];
    var moved := MovedAll(other, name, Offset(UnalignedSize(withMarker), 0));
    forall f | f in moved && f.name != []
      ensures ValidType(f.dataType)
    {
      var q :| 0 <= q < |moved| && moved[q] == f;
      assert other[q] in other;
    }
  }

  lemma {:induction false} ElementsTypesValid(fs: seq<Field>, name: Name, dims: seq<Dim>, elem: DataType,
                           init: Option<seq<byte>>, k: nat)
    requires ValidDims(dims) && ValidType(elem) && !elem.Array? && (init.Some? ==> !elem.Struct?)
    requires TypesValid(fs)
    ensures TypesValid(Elements(fs, name, dims, elem, init, k))
    decreases elem, 1, k
  {
    hide TypesValid, Added, Expand;
    if k > 0 {
      ElementsTypesValid(fs, name, dims, elem, init, k - 1);
      var before := Elements(fs, name, dims, elem, init, k - 1);
      ElemInitFits(init, elem, k - 1);
      AddedTypesValid(before, name + [Index(Expand(dims, k - 1))], elem, ElemInit(init, elem, k - 1));
      PaddedTypesValid(ElementAdded(before, name, dims, elem, init, k - 1), ElementPadding(elem));
    }
  }

  lemma {:induction false} AddedTypesValid(fs: seq<Field>, name: Name, dt: DataType, init: Option<seq<byte>>)
    requires ValidType(dt) && InitFits(dt, init) && TypesValid(fs)
    ensures TypesValid(Added(fs, name, dt, init))
    decreases dt, 0
  {
    match dt
    case Basic(_) =>
    case Str(len) =>
      MergedTypesValid(fs, StringFields(len), name, Width(dt), dt, init);
    case Struct(ms) =>
      BuildTypesValid(ms);
      MergedTypesValid(fs, Build(ms), name, Width(dt), dt, init);
    case Array(dims, e) =>
      ElementsTypesValid(WithMarker(fs, name, dims, e), name, dims, e, init, NrElements(dims));
  }
}
