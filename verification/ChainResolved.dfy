/**
 Which identifier chains are resolved: the answer of the translator in terms of the declared types,
 the bounds of arrays and STRINGs, and the names that a structure registers.
 */
module ChainResolved {
  import opened Bytes
  import opened Offset
  import opened Options
  import opened ArrayIndex
  import opened Layout
  import opened StructLayout
  import opened DataStructure
  import opened FieldNames
  import opened ArrayLayout
  import opened NamedLocal
  import opened ChainAddress
  import opened ChainWalk

  /** There are no subscripts, or they select an element of an array or a character of a STRING. */
  predicate InRange(dt: DataType, indices: seq<int>) {
    || indices == []
    || (dt.Array? && InBounds(dt.dims, indices))
    || (dt.Str? && |indices| == 1 && 1 <= indices[0] <= dt.len)
  }

  /** The last identifier: a whole array or STRING must be allowed. */
  predicate Accessible(dt: DataType, c: ChainElem, allowWhole: bool) {
    InRange(dt, c.indices) && (c.indices == [] && (dt.Array? || dt.Str?) ==> allowWhole)
  }

  predicate OnlyLastIndexed(chain: seq<ChainElem>) {
    forall i :: 0 <= i < |chain| - 1 ==> chain[i].indices == []
  }

  /** The chain leads to a part of the structure with these members. */
  ghost predicate LeadsInside(ms: seq<Member>, chain: seq<ChainElem>, allowWhole: bool)
    requires ValidMembers(ms) && chain != []
  {
    var f := Lookup(Build(ms), PlainName(chain));
    OnlyLastIndexed(chain) && f.Some? && Accessible(f.value.dataType, chain[|chain| - 1], allowWhole)
  }

  /**
   The first identifier may have subscripts that are in range. If more follow, they name a part of
   a structure, and only the last one of them may have subscripts.
   */
  ghost predicate Resolvable(dt: DataType, chain: seq<ChainElem>, allowWhole: bool)
    requires ValidType(dt) && chain != []
  {
    if |chain| == 1 then Accessible(dt, chain[0], allowWhole)
    else
      && InRange(dt, chain[0].indices) && ItemType(dt).Struct?
      && LeadsInside(Inner(ItemType(dt)), chain[1..], allowWhole)
  }

  // ----- the walk

  lemma IndexPartIffInRange(dt: DataType, indices: seq<int>)
    requires ValidType(dt)
    ensures IndexPart(dt, indices).Some? <==> InRange(dt, indices)
  {
    hide Collapse, NrElements, Width, InBounds;
  }

  lemma NoMemberNoParts(ms: seq<Member>, name: string, rest: Name)
    requires ValidMembers(ms) && Lookup(Build(ms), [Ident(name)]).None?
    ensures Lookup(Build(ms), [Ident(name)] + rest) == None
  {
    hide Lookup, Build, Before, MemberAdded;
    if Lookup(Build(ms), [Ident(name)] + rest).Some? {
      var j := FoundMember(ms, [Ident(name)] + rest);
      MemberIsFound(ms, j);
    }
  }

  lemma PlainNameSplits(chain: seq<ChainElem>)
    requires chain != []
    ensures PlainName(chain) == [Ident(chain[0].name)] + PlainName(chain[1..])
    ensures |chain| > 1 ==> PlainName(chain[1..]) != [] && PlainName(chain[1..])[0].Ident?
  {
  }

  lemma OnlyLastSplits(chain: seq<ChainElem>)
    requires |chain| > 1
    ensures OnlyLastIndexed(chain) <==> chain[0].indices == [] && OnlyLastIndexed(chain[1..])
  {
    if chain[0].indices == [] && OnlyLastIndexed(chain[1..]) {
      forall i | 0 <= i < |chain| - 1
        ensures chain[i].indices == []
      {
        assert i > 0 ==> chain[1..][i - 1] == chain[i];
      }
    }
  }

  /** A longer chain leads inside exactly through a STRUCT member without subscripts. */
  lemma LeadsThroughMember(ms: seq<Member>, chain: seq<ChainElem>, allowWhole: bool, j: nat)
    requires ValidMembers(ms) && |chain| > 1 && j < |ms| && ms[j].name == chain[0].name && ValidMember(ms[j])
    ensures LeadsInside(ms, chain, allowWhole)
            <==> && ms[j].dataType.Struct? && chain[0].indices == []
                 && LeadsInside(Inner(ms[j].dataType), chain[1..], allowWhole)
  {
    hide Lookup, Build, Accessible, OnlyLastIndexed;
    PlainNameSplits(chain);
    OnlyLastSplits(chain);
    assert chain[1..][|chain[1..]| - 1] == chain[|chain| - 1];
    var rest := PlainName(chain[1..]);
    if ms[j].dataType.Struct? {
      PartIsRegistered(ms, j, rest);
    } else {
      OnlyStructsHaveParts(ms, j, rest);
    }
  }

  lemma LeadsNowhere(ms: seq<Member>, chain: seq<ChainElem>, allowWhole: bool)
    requires ValidMembers(ms) && chain != [] && Lookup(Build(ms), [Ident(chain[0].name)]).None?
    ensures !LeadsInside(ms, chain, allowWhole)
  {
    hide Lookup, Build;
    PlainNameSplits(chain);
    NoMemberNoParts(ms, chain[0].name, PlainName(chain[1..]));
  }

  lemma LeadsToMember(ms: seq<Member>, chain: seq<ChainElem>, allowWhole: bool)
    requires ValidMembers(ms) && |chain| == 1 && Lookup(Build(ms), [Ident(chain[0].name)]).Some?
    ensures LeadsInside(ms, chain, allowWhole)
            <==> Accessible(Lookup(Build(ms), [Ident(chain[0].name)]).value.dataType, chain[0], allowWhole)
  {
    hide Lookup, Build, Accessible;
    assert PlainName(chain) == [Ident(chain[0].name)];
  }

  /** The walk goes on from a STRUCT member without subscripts. */
  lemma WalkGoesOn(dt: DataType, chain: seq<ChainElem>, i: nat, ms: seq<Member>, sub: Offset, allowWhole: bool,
                   t: DataType)
    requires ValidType(dt) && 1 <= i < |chain| - 1 && ValidMembers(ms) && ValidType(t)
    requires var f := Lookup(Build(ms), [Ident(chain[i].name)]);
             f.Some? && f.value.dataType == t && TypeAt(dt, chain, i) == Some(t)
    requires t.Struct? && chain[i].indices == []
    ensures WalkFrom(dt, chain, i, Some(Build(ms)), sub, allowWhole)
            == WalkFrom(dt, chain, i + 1, Some(Build(Inner(t))),
                        Add(sub, Lookup(Build(ms), [Ident(chain[i].name)]).value.offset), allowWhole)
  {
    hide Lookup, Build, Add, TypeAt;
  }

  lemma WalkEnds(dt: DataType, chain: seq<ChainElem>, i: nat, ms: seq<Member>, sub: Offset, allowWhole: bool)
    requires ValidType(dt) && 1 <= i == |chain| - 1 && ValidMembers(ms)
    requires var f := Lookup(Build(ms), [Ident(chain[i].name)]);
             f.Some? && TypeAt(dt, chain, i) == Some(f.value.dataType) && ValidType(f.value.dataType)
    ensures WalkFrom(dt, chain, i, Some(Build(ms)), sub, allowWhole).Resolved?
            <==> Accessible(Lookup(Build(ms), [Ident(chain[i].name)]).value.dataType, chain[i], allowWhole)
  {
    IndexPartIffInRange(Lookup(Build(ms), [Ident(chain[i].name)]).value.dataType, chain[i].indices);
    hide Lookup, Build, Add, TypeAt, IndexPart, InRange, ItemStruct;
  }

  lemma WalkStops(dt: DataType, chain: seq<ChainElem>, i: nat, ms: seq<Member>, sub: Offset, allowWhole: bool)
    requires ValidType(dt) && 1 <= i < |chain| && ValidMembers(ms)
    requires Lookup(Build(ms), [Ident(chain[i].name)]).None?
    ensures !WalkFrom(dt, chain, i, Some(Build(ms)), sub, allowWhole).Resolved?
  {
    hide Lookup, Build, Add, TypeAt, IndexPart, ItemStruct;
  }

  /** From identifier `i` on, the walk is resolved exactly if the rest of the chain leads inside. */
  lemma {:induction false} WalkLeadsInside(dt: DataType, outer: seq<Member>, chain: seq<ChainElem>, i: nat,
                                           ms: seq<Member>, sub: Offset, allowWhole: bool)
    requires ValidType(dt) && ValidMembers(outer) && ItemStruct(dt) == Some(Build(outer))
    requires 1 <= i < |chain| && ValidMembers(ms) && Mirrors(outer, PlainName(chain[1..i]), ms)
    ensures WalkFrom(dt, chain, i, Some(Build(ms)), sub, allowWhole).Resolved?
            <==> LeadsInside(ms, chain[i..], allowWhole)
    decreases |chain| - i
  {
    assert chain[i..][0] == chain[i];
    hide *;
    var first := [Ident(chain[i].name)];
    if Lookup(Build(ms), first).None? {
      WalkStops(dt, chain, i, ms, sub, allowWhole);
      LeadsNowhere(ms, chain[i..], allowWhole);
    } else {
      WalkSeesMember(dt, outer, chain, i, ms);
      FoundTypeIsValid(ms, first);
      var j := FoundMember(ms, first);
      SameIdent(ms[j].name, chain[i].name);
      MemberIsFound(ms, j);
      TypeIsValid(ms[j]);
      if i == |chain| - 1 {
        WalkEnds(dt, chain, i, ms, sub, allowWhole);
        LeadsToMember(ms, chain[i..], allowWhole);
      } else {
        if ms[j].dataType.Struct? {
          WalkOneFurther(dt, outer, chain, i, ms, j);
          WalkLeadsInside(dt, outer, chain, i + 1, Inner(ms[j].dataType),
                          Add(sub, Lookup(Build(ms), first).value.offset), allowWhole);
        }
        WalkThroughMember(dt, outer, chain, i, ms, sub, allowWhole, j);
      }
    }
  }

  /** The walk is resolved through a member exactly if the rest of the chain leads inside. */
  lemma WalkThroughMember(dt: DataType, outer: seq<Member>, chain: seq<ChainElem>, i: nat, ms: seq<Member>,
                          sub: Offset, allowWhole: bool, j: nat)
    requires ValidType(dt) && ValidMembers(outer) && ItemStruct(dt) == Some(Build(outer))
    requires 1 <= i < |chain| - 1 && ValidMembers(ms) && Mirrors(outer, PlainName(chain[1..i]), ms)
    requires j < |ms| && ValidMember(ms[j]) && ms[j].name == chain[i].name
    requires var f := Lookup(Build(ms), [Ident(chain[i].name)]);
             f.Some? && f.value.dataType == ms[j].dataType && TypeAt(dt, chain, i) == Some(ms[j].dataType)
    requires ms[j].dataType.Struct? ==>
               var sub' := Add(sub, Lookup(Build(ms), [Ident(chain[i].name)]).value.offset);
               var inner := Inner(ms[j].dataType);
               WalkFrom(dt, chain, i + 1, Some(Build(inner)), sub', allowWhole).Resolved?
               <==> LeadsInside(inner, chain[i + 1..], allowWhole)
    ensures WalkFrom(dt, chain, i, Some(Build(ms)), sub, allowWhole).Resolved?
            <==> LeadsInside(ms, chain[i..], allowWhole)
  {
    assert chain[i..][0] == chain[i] && chain[i..][1..] == chain[i + 1..];
    TypeIsValid(ms[j]);
    hide *;
    LeadsThroughMember(ms, chain[i..], allowWhole, j);
    if WalkFrom(dt, chain, i, Some(Build(ms)), sub, allowWhole).Resolved? {
      WalkMiddle(dt, outer, chain, i, ms, sub, allowWhole, j);
    } else if ms[j].dataType.Struct? && chain[i].indices == [] {
      WalkGoesOn(dt, chain, i, ms, sub, allowWhole, ms[j].dataType);
    }
  }

  lemma SameIdent(a: string, b: string)
    requires [Ident(b)][0] == Ident(a)
    ensures a == b
  {
  }

  lemma TypeIsValid(m: Member)
    requires ValidMember(m)
    ensures ValidType(m.dataType)
  {
  }

  lemma WalkOneFurther(dt: DataType, outer: seq<Member>, chain: seq<ChainElem>, i: nat, ms: seq<Member>, j: nat)
    requires ValidMembers(outer) && 1 <= i < |chain| - 1 && ValidMembers(ms)
    requires Mirrors(outer, PlainName(chain[1..i]), ms)
    requires j < |ms| && ValidMember(ms[j]) && ms[j].name == chain[i].name && ms[j].dataType.Struct?
    ensures Mirrors(outer, PlainName(chain[1..i + 1]), Inner(ms[j].dataType))
  {
    hide Mirrors;
    PlainNameStep(chain, i);
    MirrorsStep(outer, PlainName(chain[1..i]), ms, j);
  }

  // ----- the whole chain

  lemma OneIdentifier(dt: DataType, chain: seq<ChainElem>, allowWhole: bool)
    requires ValidType(dt) && |chain| == 1
    ensures WalkFrom(dt, chain, 0, None, ZERO, allowWhole).Resolved? <==> Accessible(dt, chain[0], allowWhole)
  {
    IndexPartIffInRange(dt, chain[0].indices);
    hide IndexPart, InRange, Add, ItemStruct;
  }

  lemma FirstIdentifier(dt: DataType, chain: seq<ChainElem>, allowWhole: bool)
    requires ValidType(dt) && |chain| > 1 && InRange(dt, chain[0].indices)
    ensures IndexPart(dt, chain[0].indices).Some?
    ensures WalkFrom(dt, chain, 0, None, ZERO, allowWhole)
            == WalkFrom(dt, chain, 1, ItemStruct(dt), FirstPart(dt, chain[0]), allowWhole)
  {
    IndexPartIffInRange(dt, chain[0].indices);
    hide Lookup, IndexPart, InRange, ItemStruct, Add;
  }

  lemma ItemOfStruct(dt: DataType)
    requires ValidType(dt) && ItemType(dt).Struct?
    ensures ItemStruct(dt) == Some(Build(Inner(ItemType(dt))))
  {
    hide Build;
  }

  /** A chain is resolved if and only if it is resolvable, for every declaration and every chain. */
  lemma ResolvedIffResolvable(dt: DataType, chain: seq<ChainElem>, allowWhole: bool)
    requires ValidType(dt) && chain != []
    ensures WalkFrom(dt, chain, 0, None, ZERO, allowWhole).Resolved? <==> Resolvable(dt, chain, allowWhole)
  {
    if |chain| == 1 {
      OneIdentifier(dt, chain, allowWhole);
    } else {
      hide WalkFrom, LeadsInside, InRange, IndexPart, ItemStruct, TypeAt, FirstPart, Mirrors, Build;
      if WalkFrom(dt, chain, 0, None, ZERO, allowWhole).Resolved? {
        WalkFirst(dt, chain, allowWhole);
        ItemIsStruct(dt, chain);
        IndexPartIffInRange(dt, chain[0].indices);
      }
      if InRange(dt, chain[0].indices) && ItemType(dt).Struct? {
        FirstIdentifier(dt, chain, allowWhole);
        ItemOfStruct(dt);
        MirrorsItself(Inner(ItemType(dt)));
        assert chain[1..1] == [];
        WalkLeadsInside(dt, Inner(ItemType(dt)), chain, 1, Inner(ItemType(dt)), FirstPart(dt, chain[0]), allowWhole);
      }
    }
  }

  // ----- registered names

  /** A registered subscript is one in range. */
  lemma SubscriptInRange(fs: seq<Field>, name: Name, dt: DataType, init: Option<seq<byte>>, idx: seq<int>, q: nat)
    requires ValidType(dt) && InitFits(dt, init) && name != []
    requires |fs| <= q < |Added(fs, name, dt, init)|
    requires var n := Added(fs, name, dt, init)[q].name; PartOf(name, n) && n[|name|] == Index(idx)
    ensures InRange(dt, idx) && !dt.Basic? && !dt.Struct?
    ensures dt.Str? ==> |Added(fs, name, dt, init)[q].name| == |name| + 1
  {
    match dt
    case Basic(_) =>
    case Str(len) =>
      MergedName(fs, StringFields(len), name, Width(dt), dt, init, q);
      hide Merged, UnalignedSize;
    case Struct(ms) =>
      MergedName(fs, Build(ms), name, Width(dt), dt, init, q);
      assert ms[..|ms|] == ms;
      hide Merged, UnalignedSize, Build;
      BuildNames(ms, |ms|, q - |fs| - 1);
    case Array(dims, e) =>
      ElementSubscript(fs, name, dims, e, init, q);
  }

  /** The names behind the first field of a merged structure. */
  lemma MergedName(fs: seq<Field>, other: seq<Field>, name: Name, bits: nat, dt: DataType, init: Option<seq<byte>>,
                   q: nat)
    requires name != [] && |fs| <= q < |Merged(fs, other, name, bits, dt, init)|
    requires PartOf(name, Merged(fs, other, name, bits, dt, init)[q].name)
    ensures 0 <= q - |fs| - 1 < |other| && other[q - |fs| - 1].name != []
    ensures Merged(fs, other, name, bits, dt, init)[q].name == name + other[q - |fs| - 1].name
  {
    hide UnalignedSize;
  }

  lemma ElementSubscript(fs: seq<Field>, name: Name, dims: seq<Dim>, e: DataType, init: Option<seq<byte>>, q: nat)
    requires ValidType(Array(dims, e)) && (init.Some? ==> !e.Struct?) && name != []
    requires |fs| <= q < |Added(fs, name, Array(dims, e), init)|
    requires PartOf(name, Added(fs, name, Array(dims, e), init)[q].name)
    ensures var n := Added(fs, name, Array(dims, e), init)[q].name;
            n[|name|].Index? && InBounds(dims, n[|name|].indices)
  {
    assert ValidType(e) && !e.Array? && ValidDims(dims);
    hide Added, Elements, NrElements, Collapse, InBounds, Width, UnalignedSize;
    ArrayIsElements(fs, name, dims, e, init);
    var w := fs + [Marker(fs, name, Width(Array(dims, e)), Array(dims, e), None)];
    ElementNames(w, name, dims, e, init, 0, NrElements(dims));
    ElementsStart(w, name, dims, e, init);
    var els := Elements(w, name, dims, e, init, NrElements(dims));
    assert q < |els| && q > |fs|;
    assert ElementName(els[q].name, name, dims, 0, NrElements(dims));
  }

  /** Where a name is registered that was not there before the variable. */
  lemma RegisteredAt(fs: seq<Field>, name: Name, dt: DataType, init: Option<seq<byte>>, n: Name) returns (q: nat)
    requires ValidType(dt) && InitFits(dt, init) && Lookup(fs, n) == None && Lookup(Added(fs, name, dt, init), n).Some?
    ensures n != [] && |fs| <= q < |Added(fs, name, dt, init)| && Added(fs, name, dt, init)[q].name == n
  {
    AddedStartsWith(fs, name, dt, init);
    hide Added, Lookup;
    var r := Added(fs, name, dt, init);
    NoNameNoField(r);
    q := FieldIndex(r, n);
    if q < |fs| {
      NotFound(fs, q, n);
    }
  }

  lemma NoNameNoField(fs: seq<Field>)
    ensures Lookup(fs, []) == None
  {
  }

  lemma FullNameSplits(chain: seq<ChainElem>)
    requires chain != []
    ensures FullName(chain) == Subscripted([Ident(chain[0].name)], chain[0].indices) + FullName(chain[1..])
    ensures |chain| == 1 ==> FullName(chain[1..]) == []
    ensures |chain| > 1 ==> FullName(chain[1..]) != [] && FullName(chain[1..])[0] == Ident(chain[1].name)
  {
    if |chain| > 1 {
      assert FullName(chain[1..]) == ElemName(chain[1]) + FullName(chain[1..][1..]);
    }
  }

  /** A registered full name whose subscripts are at its end leads inside. */
  lemma {:induction false} RegisteredLeadsInside(ms: seq<Member>, chain: seq<ChainElem>)
    requires ValidMembers(ms) && chain != [] && OnlyLastIndexed(chain) && Lookup(Build(ms), FullName(chain)).Some?
    ensures LeadsInside(ms, chain, true)
    decreases |chain|
  {
    FullNameSplits(chain);
    var n, first := FullName(chain), [Ident(chain[0].name)];
    hide Lookup, Build, Before, MemberAdded, FullName, LeadsInside, InRange, Laid;
    var j := FoundMember(ms, n);
    MemberIsFound(ms, j);
    if |chain| == 1 {
      LookupInBuild(ms, j, first);
      LeadsToMember(ms, chain, true);
      if chain[0].indices != [] {
        assert n == first + [Index(chain[0].indices)];
        MemberSubscript(ms, j, chain[0].indices);
      } else {
        NoSubscript(ms[j].dataType);
      }
    } else {
      var rest := FullName(chain[1..]);
      OnlyLastSplits(chain);
      assert n == first + rest;
      if !ms[j].dataType.Struct? {
        OnlyStructsHaveParts(ms, j, rest);
      } else {
        PartIsRegistered(ms, j, rest);
        RegisteredLeadsInside(Inner(ms[j].dataType), chain[1..]);
        LeadsThroughMember(ms, chain, true, j);
      }
    }
  }

  lemma NoSubscript(dt: DataType)
    ensures InRange(dt, [])
  {
  }

  lemma MemberSubscript(ms: seq<Member>, j: nat, idx: seq<int>)
    requires ValidMembers(ms) && j < |ms| && ValidMember(ms[j])
    requires Lookup(Build(ms), [Ident(ms[j].name)] + [Index(idx)]).Some?
    ensures InRange(ms[j].dataType, idx)
  {
    var name, n := [Ident(ms[j].name)], [Ident(ms[j].name)] + [Index(idx)];
    TakeIsValid(ms, j);
    assert MemberAdded(ms, j) == Added(Before(ms, j), name, ms[j].dataType, ms[j].init);
    hide Lookup, Build, Before, MemberAdded, Added, InRange;
    LookupInBuild(ms, j, n);
    NotInBefore(ms, j, n);
    var q := RegisteredAt(Before(ms, j), name, ms[j].dataType, ms[j].init, n);
    SubscriptInRange(Before(ms, j), name, ms[j].dataType, ms[j].init, idx, q);
  }

  /** The part of a registered full name behind the first identifier, in the structure it goes into. */
  lemma RestIsRegistered(fs: seq<Field>, dt: DataType, init: Option<seq<byte>>, chain: seq<ChainElem>)
    requires ValidType(dt) && InitFits(dt, init) && |chain| > 1 && Lookup(fs, FullName(chain)) == None
    requires Lookup(Added(fs, [Ident(chain[0].name)], dt, init), FullName(chain)).Some?
    ensures InRange(dt, chain[0].indices) && ItemType(dt).Struct?
    ensures Lookup(Build(Inner(ItemType(dt))), FullName(chain[1..])).Some?
  {
    FullNameSplits(chain);
    var first, rest, idx := [Ident(chain[0].name)], FullName(chain[1..]), chain[0].indices;
    var n := FullName(chain);
    hide Lookup, Added, Build, FullName, InRange, Elements, ElementAdded;
    var q := RegisteredAt(fs, first, dt, init, n);
    if idx == [] {
      assert n == first + rest && PartOf(first, n) && n[1].Ident?;
      NoSubscript(dt);
      if !dt.Struct? {
        PartsOfOthersAreIndexed(fs, first, dt, init, q);
      } else {
        assert StructOf(dt) == Some(Build(Inner(dt)));
        LookupPart(fs, first, dt, init, rest);
      }
    } else {
      assert n == first + [Index(idx)] + rest && PartOf(first, n) && n[1] == Index(idx);
      SubscriptInRange(fs, first, dt, init, idx, q);
      assert dt.Array?;
      ArrayInRange(dt, idx);
      ElementPart(fs, first, dt.dims, dt.elem, init, idx, rest);
    }
  }

  lemma ArrayInRange(dt: DataType, idx: seq<int>)
    requires dt.Array? && InRange(dt, idx) && idx != []
    ensures InBounds(dt.dims, idx)
  {
  }

  /** A part of an element is registered only if the elements are structures that have it. */
  lemma ElementPart(fs: seq<Field>, name: Name, dims: seq<Dim>, e: DataType, init: Option<seq<byte>>, idx: seq<int>,
                    rest: Name)
    requires ValidType(Array(dims, e)) && InitFits(Array(dims, e), init) && name != [] && InBounds(dims, idx)
    requires rest != [] && rest[0].Ident? && Lookup(fs, name + [Index(idx)] + rest) == None
    requires Lookup(Added(fs, name, Array(dims, e), init), name + [Index(idx)] + rest).Some?
    ensures e.Struct? && Lookup(Build(Inner(e)), rest).Some?
  {
    ExpandOfCollapse(dims, idx);
    CollapseInRange(dims, idx);
    var i, step, n := Collapse(dims, idx), name + [Index(idx)], name + [Index(idx)] + rest;
    ElemInitFits(init, e, i);
    var before := Elements(WithMarker(fs, name, dims, e), name, dims, e, init, i);
    assert ElementAdded(before, name, dims, e, init, i) == Added(before, step, e, ElemInit(init, e, i));
    hide Lookup, Added, Build, Elements, ElementAdded, Collapse, Expand, NrElements, ElemInit, InBounds;
    LookupInElement(fs, name, dims, e, init, i, rest);
    NotInEarlierElements(fs, name, dims, e, init, i, idx, rest);
    if e.Struct? {
      assert StructOf(e) == Some(Build(Inner(e)));
      LookupPart(before, step, e, ElemInit(init, e, i), rest);
    } else {
      var q := RegisteredAt(before, step, e, ElemInit(init, e, i), n);
      assert PartOf(step, n) && n[|step|] == rest[0];
      PartsOfOthersAreIndexed(before, step, e, ElemInit(init, e, i), q);
    }
  }

  lemma NotInEarlierElements(fs: seq<Field>, name: Name, dims: seq<Dim>, e: DataType, init: Option<seq<byte>>, i: nat,
                             idx: seq<int>, rest: Name)
    requires ValidType(Array(dims, e)) && (init.Some? ==> !e.Struct?) && name != [] && i <= NrElements(dims)
    requires InBounds(dims, idx) && Collapse(dims, idx) == i && rest != []
    requires Lookup(fs, name + [Index(idx)] + rest) == None
    ensures Lookup(Elements(WithMarker(fs, name, dims, e), name, dims, e, init, i), name + [Index(idx)] + rest) == None
  {
    var w, n := WithMarker(fs, name, dims, e), name + [Index(idx)] + rest;
    var before := Elements(w, name, dims, e, init, i);
    ElementsStart(w, name, dims, e, init);
    assert n[|name|] == Index(idx) && |w| == |fs| + 1 && w[|fs|].name == name && w[..|fs|] == fs;
    hide Lookup, Elements, Collapse, WithMarker, NrElements;
    ElementNames(w, name, dims, e, init, 0, i);
    forall q | |fs| <= q < |before|
      ensures before[q].name != n
    {
      if q < |w| {
        assert before[q] == w[q];
      } else {
        assert ElementName(before[q].name, name, dims, 0, i);
      }
    }
    LookupSkips(before, |fs|, n);
    assert before[..|fs|] == fs;
  }

  /**
   A registered full name is resolved, if whole arrays are allowed, exactly if only its first and
   its last identifier have subscripts.
   */
  lemma RegisteredIsResolved(fs: seq<Field>, dt: DataType, init: Option<seq<byte>>, chain: seq<ChainElem>)
    requires ValidType(dt) && InitFits(dt, init) && chain != [] && Lookup(fs, FullName(chain)) == None
    requires Lookup(Added(fs, [Ident(chain[0].name)], dt, init), FullName(chain)).Some?
    ensures WalkFrom(dt, chain, 0, None, ZERO, true).Resolved? <==> (|chain| > 1 ==> OnlyLastIndexed(chain[1..]))
  {
    ResolvedIffResolvable(dt, chain, true);
    if |chain| == 1 {
      FirstSubscript(fs, dt, init, chain);
    } else {
      hide WalkFrom, Lookup, Added, Build, FullName, InRange, OnlyLastIndexed, Accessible;
      RestIsRegistered(fs, dt, init, chain);
      if OnlyLastIndexed(chain[1..]) {
        hide LeadsInside;
        RegisteredLeadsInside(Inner(ItemType(dt)), chain[1..]);
      }
    }
  }

  lemma FirstSubscript(fs: seq<Field>, dt: DataType, init: Option<seq<byte>>, chain: seq<ChainElem>)
    requires ValidType(dt) && InitFits(dt, init) && |chain| == 1 && Lookup(fs, FullName(chain)) == None
    requires Lookup(Added(fs, [Ident(chain[0].name)], dt, init), FullName(chain)).Some?
    ensures Accessible(dt, chain[0], true)
  {
    FullNameSplits(chain);
    hide Lookup, Added, FullName;
    var first, idx := [Ident(chain[0].name)], chain[0].indices;
    if idx != [] {
      assert FullName(chain) == first + [Index(idx)];
      var q := RegisteredAt(fs, first, dt, init, FullName(chain));
      SubscriptInRange(fs, first, dt, init, idx, q);
    }
  }
}
