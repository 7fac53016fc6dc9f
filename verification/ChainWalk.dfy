/**
 The main result on local names: for every declaration and every identifier chain the
 translator resolves, variable offset plus sub-offset is where the flattened structure has
 the field with the chain's full name.
 */
module ChainWalk {
  import opened Bytes
  import opened Offset
  import opened Options
  import opened ArrayIndex
  import opened Layout
  import opened StructLayout
  import opened DataStructure
  import opened FieldNames
  import opened ArrayLayout
  import opened NamedLocal
  import opened ChainAddress

  predicate SameType(a: Option<Field>, b: Option<Field>) {
    (a.Some? <==> b.Some?) && (a.Some? ==> a.value.dataType == b.value.dataType)
  }

  /** Below the prefix `p`, the structure of `outer` looks like the one of `inner`. */
  ghost predicate Mirrors(outer: seq<Member>, p: Name, inner: seq<Member>)
    requires ValidMembers(outer) && ValidMembers(inner)
  {
    forall rest: Name :: rest != [] && rest[0].Ident? ==>
      SameType(Lookup(Build(outer), p + rest), Lookup(Build(inner), rest))
  }

  lemma MirrorsStep(outer: seq<Member>, p: Name, ms: seq<Member>, j: nat)
    requires ValidMembers(outer) && ValidMembers(ms) && Mirrors(outer, p, ms)
    requires j < |ms| && ValidMember(ms[j]) && ms[j].dataType.Struct?
    ensures Mirrors(outer, p + [Ident(ms[j].name)], Inner(ms[j].dataType))
  {
    var first, inner := [Ident(ms[j].name)], Inner(ms[j].dataType);
    hide Lookup, Build;
    forall rest: Name | rest != [] && rest[0].Ident?
      ensures SameType(Lookup(Build(outer), p + first + rest), Lookup(Build(inner), rest))
    {
      assert p + first + rest == p + (first + rest);
      assert (first + rest)[0].Ident?;
      assert SameType(Lookup(Build(outer), p + (first + rest)), Lookup(Build(ms), first + rest));
      PartIsRegistered(ms, j, rest);
    }
  }

  /** A member that is no STRUCT has no parts with an identifier. */
  lemma OnlyStructsHaveParts(ms: seq<Member>, j: nat, rest: Name)
    requires ValidMembers(ms) && j < |ms| && ValidMember(ms[j]) && !ms[j].dataType.Struct?
    requires rest != [] && rest[0].Ident?
    ensures Lookup(Build(ms), [Ident(ms[j].name)] + rest) == None
  {
    var first := [Ident(ms[j].name)];
    var n := first + rest;
    assert PartOf(first, n) && n[1] == rest[0];
    hide Lookup, Build, Before;
    LookupInBuild(ms, j, n);
    MemberIsAppended(ms, j);
    NotInBefore(ms, j, n);
    var fs, r := Before(ms, j), MemberAdded(ms, j);
    hide Added;
    forall q | |fs| <= q < |r|
      ensures r[q].name != n
    {
      if r[q].name == n {
        PartsOfOthersAreIndexed(fs, first, ms[j].dataType, ms[j].init, q);
      }
    }
    LookupSkips(r, |fs|, n);
    assert r[..|fs|] == fs;
  }

  lemma PlainNameStep(chain: seq<ChainElem>, i: nat)
    requires 1 <= i < |chain|
    ensures PlainName(chain[1..i + 1]) == PlainName(chain[1..i]) + [Ident(chain[i].name)]
  {
  }

  /** One step of the walk, seen from the structure the walk is in. */
  lemma WalkSeesMember(dt: DataType, outer: seq<Member>, chain: seq<ChainElem>, i: nat, ms: seq<Member>)
    requires ValidType(dt) && ValidMembers(outer) && ItemStruct(dt) == Some(Build(outer))
    requires 1 <= i < |chain| && ValidMembers(ms) && Mirrors(outer, PlainName(chain[1..i]), ms)
    ensures var f := Lookup(Build(ms), [Ident(chain[i].name)]);
            TypeAt(dt, chain, i) == if f.None? then None else Some(f.value.dataType)
  {
    hide Lookup, Build, ItemStruct;
    PlainNameStep(chain, i);
    var rest := [Ident(chain[i].name)];
    assert rest != [] && rest[0].Ident?;
    assert SameType(Lookup(Build(outer), PlainName(chain[1..i]) + rest), Lookup(Build(ms), rest));
  }

  /** The walk goes on only behind a STRUCT member without subscripts. */
  lemma WalkContinues(dt: DataType, outer: seq<Member>, chain: seq<ChainElem>, i: nat, ms: seq<Member>, j: nat)
    requires ValidType(dt) && ValidMembers(outer) && ItemStruct(dt) == Some(Build(outer))
    requires 1 <= i < |chain| - 1 && ValidMembers(ms) && Mirrors(outer, PlainName(chain[1..i]), ms)
    requires j < |ms| && ValidMember(ms[j]) && ms[j].name == chain[i].name
    requires TypeAt(dt, chain, i + 1).Some?
    ensures ms[j].dataType.Struct?
  {
    hide Lookup, Build, ItemStruct;
    PlainNameStep(chain, i);
    PlainNameStep(chain, i + 1);
    var p: Name := PlainName(chain[1..i]);
    var first: Name, rest: Name := [Ident(chain[i].name)], [Ident(chain[i + 1].name)];
    assert PlainName(chain[1..i + 2]) == p + (first + rest);
    assert (first + rest)[0].Ident?;
    assert SameType(Lookup(Build(outer), p + (first + rest)), Lookup(Build(ms), first + rest));
    if !ms[j].dataType.Struct? {
      OnlyStructsHaveParts(ms, j, rest);
    }
  }

  /** What the walk adds from identifier `i` on is what following the rest of the chain gives. */
  lemma {:induction false} WalkIsNested(dt: DataType, outer: seq<Member>, chain: seq<ChainElem>, i: nat,
                                        ms: seq<Member>,
                     sub: Offset, allowWhole: bool)
    requires ValidType(dt) && ValidMembers(outer) && ItemStruct(dt) == Some(Build(outer))
    requires 1 <= i < |chain| && ValidMembers(ms) && Mirrors(outer, PlainName(chain[1..i]), ms)
    requires WalkFrom(dt, chain, i, Some(Build(ms)), sub, allowWhole).Resolved?
    ensures var w: Resolved := WalkFrom(dt, chain, i, Some(Build(ms)), sub, allowWhole);
            var n := Nested(ms, chain[i..]);
            && n.Some? && w.accessType == n.value.1
            && ToBitOffset(w.subOffset) == ToBitOffset(sub) + ToBitOffset(n.value.0)
    decreases |chain| - i
  {
    hide Lookup, Build, Add, ToBitOffset, IndexPart, Mirrors, TypeAt, ItemStruct;
    var first := [Ident(chain[i].name)];
    WalkSeesMember(dt, outer, chain, i, ms);
    var f := Lookup(Build(ms), first).value;
    var j := FoundMember(ms, first);
    MemberIsFound(ms, j);
    FoundTypeIsValid(ms, first);
    var sub1 := Add(sub, f.offset);
    AddCountsBits(sub, f.offset);
    if i == |chain| - 1 {
      WalkLast(dt, chain, i, ms, sub, allowWhole);
    } else {
      WalkMiddle(dt, outer, chain, i, ms, sub, allowWhole, j);
      var inner := Inner(ms[j].dataType);
      PlainNameStep(chain, i);
      MirrorsStep(outer, PlainName(chain[1..i]), ms, j);
      WalkIsNested(dt, outer, chain, i + 1, inner, sub1, allowWhole);
      NestedStep(ms, chain[i..], j);
      assert chain[i..][1..] == chain[i + 1..];
      AddCountsBits(f.offset, Nested(inner, chain[i + 1..]).value.0);
    }
  }

  lemma WalkLast(dt: DataType, chain: seq<ChainElem>, i: nat, ms: seq<Member>, sub: Offset, allowWhole: bool)
    requires ValidType(dt) && 1 <= i == |chain| - 1 && ValidMembers(ms)
    requires var f := Lookup(Build(ms), [Ident(chain[i].name)]);
             f.Some? && TypeAt(dt, chain, i) == Some(f.value.dataType) && ValidType(f.value.dataType)
    requires WalkFrom(dt, chain, i, Some(Build(ms)), sub, allowWhole).Resolved?
    ensures var w: Resolved := WalkFrom(dt, chain, i, Some(Build(ms)), sub, allowWhole);
            var n := Nested(ms, chain[i..]);
            && n.Some? && w.accessType == n.value.1
            && ToBitOffset(w.subOffset) == ToBitOffset(sub) + ToBitOffset(n.value.0)
  {
    var f := Lookup(Build(ms), [Ident(chain[i].name)]).value;
    hide Lookup, Build, Add, ToBitOffset, TypeAt, ItemStruct, IndexPart;
    NotSubscripted([], f.dataType);
    WalkLastValue(dt, chain, i, ms, sub, allowWhole);
    hide WalkFrom, Nested;
    SumCountsBits(sub, f.offset, IndexPart(f.dataType, chain[i].indices).value.0);
  }

  lemma WalkLastValue(dt: DataType, chain: seq<ChainElem>, i: nat, ms: seq<Member>, sub: Offset, allowWhole: bool)
    requires ValidType(dt) && 1 <= i == |chain| - 1 && ValidMembers(ms)
    requires var f := Lookup(Build(ms), [Ident(chain[i].name)]);
             f.Some? && TypeAt(dt, chain, i) == Some(f.value.dataType) && ValidType(f.value.dataType)
    requires WalkFrom(dt, chain, i, Some(Build(ms)), sub, allowWhole).Resolved?
    ensures var f := Lookup(Build(ms), [Ident(chain[i].name)]).value;
            var part := IndexPart(f.dataType, chain[i].indices);
            && part.Some? && Nested(ms, chain[i..]) == Some((Add(f.offset, part.value.0), part.value.1))
            && WalkFrom(dt, chain, i, Some(Build(ms)), sub, allowWhole)
               == Resolved(if chain[i].indices == [] then Add(sub, f.offset) else Add(Add(sub, f.offset), part.value.0),
                           part.value.1)
  {
    assert chain[i..] == [chain[i]];
    hide Lookup, Build, Add, TypeAt, ItemStruct, IndexPart;
  }

  lemma WalkMiddle(dt: DataType, outer: seq<Member>, chain: seq<ChainElem>, i: nat, ms: seq<Member>, sub: Offset,
                   allowWhole: bool, j: nat)
    requires ValidType(dt) && ValidMembers(outer) && ItemStruct(dt) == Some(Build(outer))
    requires 1 <= i < |chain| - 1 && ValidMembers(ms) && Mirrors(outer, PlainName(chain[1..i]), ms)
    requires j < |ms| && ValidMember(ms[j]) && ms[j].name == chain[i].name
    requires var f := Lookup(Build(ms), [Ident(chain[i].name)]);
             f.Some? && f.value.dataType == ms[j].dataType && TypeAt(dt, chain, i) == Some(ms[j].dataType)
    requires WalkFrom(dt, chain, i, Some(Build(ms)), sub, allowWhole).Resolved?
    ensures ms[j].dataType.Struct? && chain[i].indices == []
    ensures WalkFrom(dt, chain, i, Some(Build(ms)), sub, allowWhole)
            == WalkFrom(dt, chain, i + 1, Some(Build(Inner(ms[j].dataType))),
                        Add(sub, Lookup(Build(ms), [Ident(chain[i].name)]).value.offset), allowWhole)
  {
    hide Lookup, Build, Add, TypeAt, Mirrors;
    assert TypeAt(dt, chain, i + 1).Some?;
    WalkContinues(dt, outer, chain, i, ms, j);
  }

  lemma NestedStep(ms: seq<Member>, chain: seq<ChainElem>, j: nat)
    requires ValidMembers(ms) && |chain| > 1 && j < |ms| && ValidMember(ms[j])
    requires ms[j].dataType.Struct? && chain[0].indices == []
    requires var f := Lookup(Build(ms), [Ident(chain[0].name)]); f.Some? && f.value.dataType == ms[j].dataType
    ensures Nested(ms, chain)
            == Shifted(Lookup(Build(ms), [Ident(chain[0].name)]).value.offset,
                       Nested(Inner(ms[j].dataType), chain[1..]))
  {
    hide Lookup, Build, Add;
  }

  // ----- the whole chain

  /** All arrays that the chain subscripts are addressable. */
  ghost predicate ChainAddressable(dt: DataType, chain: seq<ChainElem>)
    requires ValidType(dt) && chain != []
  {
    && IndexedAddressable(dt, chain[0].indices)
    && (|chain| > 1 && ItemType(dt).Struct? ==> NestedAddressable(Inner(ItemType(dt)), chain[1..]))
  }

  function ItemType(dt: DataType): (t: DataType)
    requires ValidType(dt)
    ensures ValidType(t)
  {
    if dt.Array? then dt.elem else dt
  }

  /** Variable offset plus sub-offset is the offset registered under the full name. */
  ghost predicate ResolvesTo(r: seq<Field>, chain: seq<ChainElem>, sub: Offset, accessType: DataType)
    requires chain != []
  {
    var variable, field := Lookup(r, [Ident(chain[0].name)]), Lookup(r, FullName(chain));
    && variable.Some? && field.Some? && field.value.dataType == accessType
    && ToBitOffset(field.value.offset) == ToBitOffset(variable.value.offset) + ToBitOffset(sub)
  }

  /**
   Resolving a chain gives the address of the field that the flattened structure registers
   under the chain's full name, for every declaration, whatever was declared before it.
   */
  lemma ChainAddressing(fs: seq<Field>, dt: DataType, init: Option<seq<byte>>, chain: seq<ChainElem>, allowWhole: bool)
    requires ValidType(dt) && InitFits(dt, init) && Laid(fs) && chain != []
    requires WalkFrom(dt, chain, 0, None, ZERO, allowWhole).Resolved? && ChainAddressable(dt, chain)
    requires dt.Array? && |chain| > 1 ==> chain[0].indices != []
    ensures var w := WalkFrom(dt, chain, 0, None, ZERO, allowWhole);
            ResolvesTo(Added(fs, [Ident(chain[0].name)], dt, init), chain, w.subOffset, w.accessType)
  {
    if |chain| == 1 {
      SingleAddressing(fs, dt, init, chain, allowWhole);
    } else {
      hide *;
      WalkStart(dt, chain, allowWhole);
      if dt.Struct? {
        StructChain(fs, dt, init, chain, allowWhole);
      } else {
        ElementChain(fs, dt, init, chain, allowWhole);
      }
    }
  }

  lemma StructChain(fs: seq<Field>, dt: DataType, init: Option<seq<byte>>, chain: seq<ChainElem>, allowWhole: bool)
    requires ValidType(dt) && InitFits(dt, init) && |chain| > 1 && dt.Struct?
    requires WalkFrom(dt, chain, 0, None, ZERO, allowWhole).Resolved? && ChainAddressable(dt, chain)
    ensures var w := WalkFrom(dt, chain, 0, None, ZERO, allowWhole);
            ResolvesTo(Added(fs, [Ident(chain[0].name)], dt, init), chain, w.subOffset, w.accessType)
  {
    hide WalkFrom, Nested, Registered, FirstPart, ResolvesTo, Lookup, Added, Build, ToBitOffset,
      IndexPart, NestedAddressable, ChainAddressable;
    WalkStart(dt, chain, allowWhole);
    NestedIsRegistered(Inner(dt), chain[1..]);
    FirstPartOfStruct(dt, chain[0]);
    var w := WalkFrom(dt, chain, 0, None, ZERO, allowWhole);
    StructAddressing(fs, dt, init, chain, w.subOffset, Nested(Inner(dt), chain[1..]).value);
  }

  lemma ElementChain(fs: seq<Field>, dt: DataType, init: Option<seq<byte>>, chain: seq<ChainElem>, allowWhole: bool)
    requires ValidType(dt) && InitFits(dt, init) && Laid(fs) && |chain| > 1 && dt.Array? && dt.elem.Struct?
    requires WalkFrom(dt, chain, 0, None, ZERO, allowWhole).Resolved? && ChainAddressable(dt, chain)
    requires chain[0].indices != []
    ensures var w := WalkFrom(dt, chain, 0, None, ZERO, allowWhole);
            ResolvesTo(Added(fs, [Ident(chain[0].name)], dt, init), chain, w.subOffset, w.accessType)
  {
    FirstIsIndexed(dt, chain);
    hide WalkFrom, Nested, Registered, FirstPart, ResolvesTo, Laid, Lookup, Added, Build, ToBitOffset, ComputedBits,
      IndexPart, NestedAddressable, ChainAddressable, InBounds;
    WalkStart(dt, chain, allowWhole);
    NestedIsRegistered(Inner(dt.elem), chain[1..]);
    FirstPartBits(dt, chain[0]);
    var w := WalkFrom(dt, chain, 0, None, ZERO, allowWhole);
    ElementAddressing(fs, dt, init, chain, w.subOffset, Nested(Inner(dt.elem), chain[1..]).value);
  }

  lemma FirstIsIndexed(dt: DataType, chain: seq<ChainElem>)
    requires ValidType(dt) && chain != [] && ChainAddressable(dt, chain)
    ensures dt.Array? && chain[0].indices != [] ==> Addressable(dt.dims, dt.elem)
  {
    hide Addressable, NestedAddressable;
  }

  lemma SingleAddressing(fs: seq<Field>, dt: DataType, init: Option<seq<byte>>, chain: seq<ChainElem>, allowWhole: bool)
    requires ValidType(dt) && InitFits(dt, init) && Laid(fs) && |chain| == 1
    requires WalkFrom(dt, chain, 0, None, ZERO, allowWhole).Resolved? && IndexedAddressable(dt, chain[0].indices)
    ensures var w := WalkFrom(dt, chain, 0, None, ZERO, allowWhole);
            ResolvesTo(Added(fs, [Ident(chain[0].name)], dt, init), chain, w.subOffset, w.accessType)
  {
    var c := chain[0];
    assert FullName(chain) == ElemName(c) by { assert FullName(chain[1..]) == []; }
    hide Added, Lookup, Laid, IndexPart, Add, ToBitOffset, FullName, IndexedAddressable, ItemStruct;
    SingleValue(dt, chain, allowWhole);
    hide WalkFrom;
    FirstPartCounts(dt, c);
    IndexedPart(fs, [Ident(c.name)], dt, init, c.indices);
  }

  lemma SingleValue(dt: DataType, chain: seq<ChainElem>, allowWhole: bool)
    requires ValidType(dt) && |chain| == 1 && WalkFrom(dt, chain, 0, None, ZERO, allowWhole).Resolved?
    ensures IndexPart(dt, chain[0].indices).Some?
    ensures WalkFrom(dt, chain, 0, None, ZERO, allowWhole)
            == Resolved(FirstPart(dt, chain[0]), IndexPart(dt, chain[0].indices).value.1)
  {
    hide Lookup, IndexPart, Add, ItemStruct;
  }

  lemma FirstPartCounts(dt: DataType, c: ChainElem)
    requires ValidType(dt) && IndexPart(dt, c.indices).Some?
    ensures ToBitOffset(FirstPart(dt, c)) == ToBitOffset(IndexPart(dt, c.indices).value.0)
  {
    hide IndexPart, Add, ToBitOffset;
    NotSubscripted([], dt);
    AddToZero(IndexPart(dt, c.indices).value.0);
  }

  /** The part of the sub-offset that the first identifier contributes. */
  function FirstPart(dt: DataType, c: ChainElem): Offset
    requires ValidType(dt) && IndexPart(dt, c.indices).Some?
  {
    if c.indices == [] then ZERO else Add(ZERO, IndexPart(dt, c.indices).value.0)
  }

  lemma WalkStart(dt: DataType, chain: seq<ChainElem>, allowWhole: bool)
    requires ValidType(dt) && |chain| > 1
    requires WalkFrom(dt, chain, 0, None, ZERO, allowWhole).Resolved? && ChainAddressable(dt, chain)
    ensures ItemType(dt).Struct? && IndexPart(dt, chain[0].indices).Some?
    ensures NestedAddressable(Inner(ItemType(dt)), chain[1..])
    ensures var w, n := WalkFrom(dt, chain, 0, None, ZERO, allowWhole), Nested(Inner(ItemType(dt)), chain[1..]);
            && n.Some? && w.accessType == n.value.1
            && ToBitOffset(w.subOffset) == ToBitOffset(FirstPart(dt, chain[0])) + ToBitOffset(n.value.0)
  {
    var t := ItemType(dt);
    WalkFirst(dt, chain, allowWhole);
    ItemIsStruct(dt, chain);
    var ms := Inner(t);
    assert Mirrors(ms, PlainName(chain[1..1]), ms) by {
      MirrorsItself(ms);
      assert PlainName(chain[1..1]) == [];
    }
    hide *;
    WalkIsNested(dt, ms, chain, 1, ms, FirstPart(dt, chain[0]), allowWhole);
  }

  lemma MirrorsItself(ms: seq<Member>)
    requires ValidMembers(ms)
    ensures Mirrors(ms, [], ms)
  {
    forall rest: Name | rest != [] && rest[0].Ident?
      ensures SameType(Lookup(Build(ms), [] + rest), Lookup(Build(ms), rest))
    {
      assert [] + rest == rest;
    }
  }

  lemma WalkFirst(dt: DataType, chain: seq<ChainElem>, allowWhole: bool)
    requires ValidType(dt) && |chain| > 1 && WalkFrom(dt, chain, 0, None, ZERO, allowWhole).Resolved?
    ensures IndexPart(dt, chain[0].indices).Some? && TypeAt(dt, chain, 1).Some?
    ensures WalkFrom(dt, chain, 0, None, ZERO, allowWhole)
            == WalkFrom(dt, chain, 1, ItemStruct(dt), FirstPart(dt, chain[0]), allowWhole)
  {
    hide Lookup, IndexPart, ItemStruct, Add;
  }

  lemma ItemIsStruct(dt: DataType, chain: seq<ChainElem>)
    requires ValidType(dt) && |chain| > 1 && TypeAt(dt, chain, 1).Some?
    ensures ItemType(dt).Struct? && ItemStruct(dt) == Some(Build(Inner(ItemType(dt))))
  {
    var n := PlainName(chain[1..2]);
    assert n == [Ident(chain[1].name)];
    if ItemType(dt).Str? {
      var fs := StringFields(ItemType(dt).len);
      forall q | 0 <= q < |fs|
        ensures fs[q].name != n
      {
      }
      LookupSkips(fs, 0, n);
    }
  }

  lemma StructAddressing(fs: seq<Field>, dt: DataType, init: Option<seq<byte>>, chain: seq<ChainElem>, sub: Offset,
                         n: (Offset, DataType))
    requires ValidType(dt) && InitFits(dt, init) && |chain| > 1 && dt.Struct? && chain[0].indices == []
    requires Registered(Inner(dt), chain[1..]) && Nested(Inner(dt), chain[1..]) == Some(n)
    requires ToBitOffset(sub) == ToBitOffset(n.0)
    ensures ResolvesTo(Added(fs, [Ident(chain[0].name)], dt, init), chain, sub, n.1)
  {
    var first, rest: Name := [Ident(chain[0].name)], FullName(chain[1..]);
    assert FullName(chain) == first + rest;
    hide Added, Lookup, Build, Nested, FullName, ToBitOffset, Add, ValidType, InitFits;
    PartOfStruct(fs, first, dt, init, rest);
  }

  lemma FirstPartOfStruct(dt: DataType, c: ChainElem)
    requires ValidType(dt) && dt.Struct? && IndexPart(dt, c.indices).Some?
    ensures c.indices == [] && ToBitOffset(FirstPart(dt, c)) == 0
  {
  }

  lemma PartOfStruct(fs: seq<Field>, name: Name, dt: DataType, init: Option<seq<byte>>, rest: Name)
    requires ValidType(dt) && InitFits(dt, init) && dt.Struct? && name != []
    requires rest != [] && Lookup(Build(Inner(dt)), rest).Some?
    ensures var r := Added(fs, name, dt, init);
            var f, g := Lookup(r, name), Lookup(r, name + rest);
            f.Some? && g.Some? && PartAt(f.value, Lookup(Build(Inner(dt)), rest).value, g.value)
  {
    assert StructOf(dt) == Some(Build(Inner(dt)));
    hide Added, Lookup, Build, StructOf, Add, ToBitOffset;
    MarkerIsFound(fs, name, dt, init);
    LookupPart(fs, name, dt, init, rest);
    AddCountsBits(Offset(UnalignedSize(fs), 0), Lookup(Build(Inner(dt)), rest).value.offset);
  }

  lemma ElementAddressing(fs: seq<Field>, dt: DataType, init: Option<seq<byte>>, chain: seq<ChainElem>, sub: Offset,
                          n: (Offset, DataType))
    requires ValidType(dt) && InitFits(dt, init) && Laid(fs) && |chain| > 1 && dt.Array? && dt.elem.Struct?
    requires InBounds(dt.dims, chain[0].indices) && chain[0].indices != [] && Addressable(dt.dims, dt.elem)
    requires Registered(Inner(dt.elem), chain[1..]) && Nested(Inner(dt.elem), chain[1..]) == Some(n)
    requires ToBitOffset(sub) == ComputedBits(dt.dims, dt.elem, chain[0].indices) + ToBitOffset(n.0)
    ensures ResolvesTo(Added(fs, [Ident(chain[0].name)], dt, init), chain, sub, n.1)
  {
    var first, idx, rest: Name := [Ident(chain[0].name)], chain[0].indices, FullName(chain[1..]);
    assert FullName(chain) == first + [Index(idx)] + rest;
    hide Added, Lookup, Build, Nested, FullName, ToBitOffset, Add, Addressable, Laid, ComputedBits, InBounds,
      InitFits, UnalignedSize, ValidType;
    PartOfElement(fs, first, dt.dims, dt.elem, init, idx, rest);
  }

  lemma FirstPartBits(dt: DataType, c: ChainElem)
    requires ValidType(dt) && dt.Array? && c.indices != [] && IndexPart(dt, c.indices).Some?
    ensures InBounds(dt.dims, c.indices)
    ensures ToBitOffset(FirstPart(dt, c)) == ComputedBits(dt.dims, dt.elem, c.indices)
  {
    CollapseInRange(dt.dims, c.indices);
    var bits := MulNat(Collapse(dt.dims, c.indices), Width(dt.elem));
    assert IndexPart(dt, c.indices) == Some((FromBitOffset(bits), dt.elem));
    FirstPartCounts(dt, c);
    hide IndexPart, FirstPart, Collapse, Width, InBounds, MulNat;
    BitsBack(bits);
  }

  lemma BitsBack(bits: nat)
    ensures ToBitOffset(FromBitOffset(bits)) == bits
  {
  }

  /** A part of an array element lies where the element is computed to be, plus the part's own offset. */
  lemma PartOfElement(fs: seq<Field>, name: Name, dims: seq<Dim>, elem: DataType, init: Option<seq<byte>>,
                      idx: seq<int>, rest: Name)
    requires ValidType(Array(dims, elem)) && InitFits(Array(dims, elem), init) && Laid(fs) && name != []
    requires elem.Struct? && InBounds(dims, idx) && Addressable(dims, elem)
    requires rest != [] && Lookup(Build(Inner(elem)), rest).Some?
    ensures var inner := Lookup(Build(Inner(elem)), rest).value;
            var r := Added(fs, name, Array(dims, elem), init);
            var f, g := Lookup(r, name), Lookup(r, name + [Index(idx)] + rest);
            && f.Some? && g.Some? && g.value.dataType == inner.dataType
            && ToBitOffset(g.value.offset)
               == ToBitOffset(f.value.offset) + ComputedBits(dims, elem, idx) + ToBitOffset(inner.offset)
  {
    CollapseInRange(dims, idx);
    ExpandOfCollapse(dims, idx);
    var i := Collapse(dims, idx);
    assert ComputedBits(dims, elem, idx) == i * Width(elem);
    hide Added, Lookup, Build, Elements, ElementAdded, Laid, Collapse, Expand, Addressable, Width, LaidOutBits,
      ElemInit, NextOffset, InBounds, ToBitOffset, Add, NrElements, UnalignedSize, ComputedBits;
    var before := Elements(WithMarker(fs, name, dims, elem), name, dims, elem, init, i);
    ElementStart(fs, name, dims, elem, init, i);
    BitsAgree(dims, elem, i);
    LookupInElement(fs, name, dims, elem, init, i, rest);
    PartOfOne(before, name, dims, elem, init, i, rest);
    MarkerIsFound(fs, name, Array(dims, elem), init);
    ByteBits(UnalignedSize(fs));
  }

  lemma ByteBits(n: nat)
    ensures ToBitOffset(Offset(n, 0)) == 8 * n
  {
  }

  lemma PartOfOne(before: seq<Field>, name: Name, dims: seq<Dim>, elem: DataType, init: Option<seq<byte>>, i: nat,
                  rest: Name)
    requires ValidType(Array(dims, elem)) && (init.Some? ==> !elem.Struct?) && name != [] && elem.Struct?
    requires rest != [] && Lookup(Build(Inner(elem)), rest).Some?
    ensures var inner := Lookup(Build(Inner(elem)), rest).value;
            var g := Lookup(ElementAdded(before, name, dims, elem, init, i), name + [Index(Expand(dims, i))] + rest);
            && g.Some? && g.value.dataType == inner.dataType
            && ToBitOffset(g.value.offset) == ToBitOffset(Offset(UnalignedSize(before), 0)) + ToBitOffset(inner.offset)
  {
    var step := name + [Index(Expand(dims, i))];
    ElemInitFits(init, elem, i);
    assert ElementAdded(before, name, dims, elem, init, i) == Added(before, step, elem, ElemInit(init, elem, i));
    assert StructOf(elem) == Some(Build(Inner(elem)));
    hide Added, Lookup, Build, ElementAdded, StructOf, Expand, ElemInit, ToBitOffset, Add, UnalignedSize, ValidType;
    LookupPart(before, step, elem, ElemInit(init, elem, i), rest);
    AddCountsBits(Offset(UnalignedSize(before), 0), Lookup(Build(Inner(elem)), rest).value.offset);
  }

  // ----- chains that go into an array without a subscript

  /** The array registers no field under the full name of such a chain. */
  lemma UnsubscriptedIsNotRegistered(fs: seq<Field>, dt: DataType, init: Option<seq<byte>>, chain: seq<ChainElem>)
    requires ValidType(dt) && InitFits(dt, init) && dt.Array? && |chain| > 1 && chain[0].indices == []
    ensures Lookup(Added(fs, [Ident(chain[0].name)], dt, init), FullName(chain)) == Lookup(fs, FullName(chain))
  {
    var first, n, r := [Ident(chain[0].name)], FullName(chain), Added(fs, [Ident(chain[0].name)], dt, init);
    assert n == first + FullName(chain[1..]) && FullName(chain[1..]) == ElemName(chain[1]) + FullName(chain[1..][1..]);
    assert PartOf(first, n) && n[1] == Ident(chain[1].name);
    hide Added, Lookup, FullName;
    AddedStartsWith(fs, first, dt, init);
    forall q | |fs| <= q < |r|
      ensures r[q].name != n
    {
      if r[q].name == n {
        PartsOfOthersAreIndexed(fs, first, dt, init, q);
      }
    }
    LookupSkips(r, |fs|, n);
    assert r[..|fs|] == fs;
  }

  /** The walk depends on the declared type only through the types along the chain. */
  lemma {:induction false} SameTypesSameWalk(dt: DataType, dt': DataType, chain: seq<ChainElem>, i: nat,
                                             parent: Option<seq<Field>>, sub: Offset, allowWhole: bool)
    requires ValidType(dt) && ValidType(dt') && 1 <= i < |chain|
    requires forall k :: i <= k < |chain| ==> TypeAt(dt, chain, k) == TypeAt(dt', chain, k)
    ensures WalkFrom(dt, chain, i, parent, sub, allowWhole) == WalkFrom(dt', chain, i, parent, sub, allowWhole)
    decreases |chain| - i
  {
    hide Lookup, ItemStruct, IndexPart, Add, TypeAt, ValidType, MissingSubscript;
    var t := TypeAt(dt, chain, i);
    if t.Some? && i < |chain| - 1 && parent.Some? {
      TypeAtIsValid(dt, chain, i);
      var f, part := Lookup(parent.value, [Ident(chain[i].name)]), IndexPart(t.value, chain[i].indices);
      if f.Some? && part.Some? {
        var sub1 := Add(sub, f.value.offset);
        var sub2 := if chain[i].indices == [] then sub1 else Add(sub1, part.value.0);
        SameTypesSameWalk(dt, dt', chain, i + 1, ItemStruct(t.value), sub2, allowWhole);
      }
    }
  }

  /** Such a chain is resolved exactly if it is one into a single structure, and then to the first element. */
  lemma UnsubscriptedIsFirstElement(dt: DataType, chain: seq<ChainElem>, allowWhole: bool)
    requires ValidType(dt) && dt.Array? && dt.elem.Struct? && |chain| > 1 && chain[0].indices == []
    ensures WalkFrom(dt, chain, 0, None, ZERO, allowWhole) == WalkFrom(dt.elem, chain, 0, None, ZERO, allowWhole)
  {
    assert ItemStruct(dt) == ItemStruct(dt.elem);
    hide Lookup, StructOf;
    SameTypesSameWalk(dt, dt.elem, chain, 1, ItemStruct(dt), ZERO, allowWhole);
  }

  /** `#a.x` is resolved for an array `a` of two structures with a byte `x`. */
  lemma UnsubscriptedIsResolved(allowWhole: bool)
    ensures var dt := Array([Dim(1, 2)], Struct([Member("x", Basic(8), None)]));
            WalkFrom(dt, [ChainElem("a", []), ChainElem("x", [])], 0, None, ZERO, allowWhole)
            == Resolved(ZERO, Basic(8))
  {
    var ms, chain := [Member("x", Basic(8), None)], [ChainElem("a", []), ChainElem("x", [])];
    var dt := Array([Dim(1, 2)], Struct(ms));
    assert ValidType(dt);
    hide *;
    StructOfByte(ms);
    ByteIsResolved(ms, chain, allowWhole);
    UnsubscriptedIsFirstElement(dt, chain, allowWhole);
  }

  lemma ByteIsResolved(ms: seq<Member>, chain: seq<ChainElem>, allowWhole: bool)
    requires ms != [] && ValidMembers(ms) && chain == [ChainElem("a", []), ChainElem("x", [])]
    requires Lookup(Build(ms), [Ident("x")]) == Some(Field([Ident("x")], ZERO, 8, Basic(8), None, None))
    ensures WalkFrom(Struct(ms), chain, 0, None, ZERO, allowWhole) == Resolved(ZERO, Basic(8))
  {
    assert PlainName(chain[1..2]) == [Ident("x")];
    hide Lookup, Build, Add, IndexPart, Width;
    AtByte(0, 0);
    NotSubscripted([], Struct(ms));
    NotSubscripted([], Basic(8));
    assert TypeAt(Struct(ms), chain, 1) == Some(Basic(8));
    assert WalkFrom(Struct(ms), chain, 1, Some(Build(ms)), ZERO, allowWhole) == Resolved(ZERO, Basic(8));
  }

  lemma StructOfByte(ms: seq<Member>)
    requires ms == [Member("x", Basic(8), None)]
    ensures ValidMembers(ms)
    ensures Lookup(Build(ms), [Ident("x")]) == Some(Field([Ident("x")], ZERO, 8, Basic(8), None, None))
  {
    assert ms[..0] == [];
    assert Build(ms) == AddedNaturally([], [Ident("x")], Basic(8), None);
    assert Padding([], 1) == 0;
  }

  /**
   A resolved chain whose array subscripts are addressable names a field exactly if it does not
   go into an array without a subscript; and then the field is where the chain is resolved to.
   */
  lemma ResolvedIsRegistered(fs: seq<Field>, dt: DataType, init: Option<seq<byte>>, chain: seq<ChainElem>,
                             allowWhole: bool)
    requires ValidType(dt) && InitFits(dt, init) && Laid(fs) && chain != [] && Lookup(fs, FullName(chain)) == None
    requires WalkFrom(dt, chain, 0, None, ZERO, allowWhole).Resolved? && ChainAddressable(dt, chain)
    ensures var r, w := Added(fs, [Ident(chain[0].name)], dt, init), WalkFrom(dt, chain, 0, None, ZERO, allowWhole);
            && (Lookup(r, FullName(chain)).Some? <==> (dt.Array? && |chain| > 1 ==> chain[0].indices != []))
            && (Lookup(r, FullName(chain)).Some? ==> ResolvesTo(r, chain, w.subOffset, w.accessType))
  {
    hide *;
    if dt.Array? && |chain| > 1 && chain[0].indices == [] {
      UnsubscriptedIsNotRegistered(fs, dt, init, chain);
    } else {
      ChainAddressing(fs, dt, init, chain, allowWhole);
      ResolvedFieldExists(Added(fs, [Ident(chain[0].name)], dt, init), chain,
                          WalkFrom(dt, chain, 0, None, ZERO, allowWhole));
    }
  }

  lemma ResolvedFieldExists(r: seq<Field>, chain: seq<ChainElem>, w: Resolved)
    requires chain != [] && w.Resolved? && ResolvesTo(r, chain, w.subOffset, w.accessType)
    ensures Lookup(r, FullName(chain)).Some?
  {
    hide Lookup;
  }
}
