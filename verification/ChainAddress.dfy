/**
 The walk over an identifier chain ends where the flattened structure has the field of that
 name: the sub-offset refines the field lookup for all nested declarations.
 */
module ChainAddress {
  import opened Bytes
  import opened Offset
  import opened Options
  import opened ArrayIndex
  import opened Layout
  import opened StructLayout
  import opened DataStructure
  import opened FieldNames
  import opened ArrayLayout
  import opened NamedLocal

  /** The members of a STRUCT type. */
  function Inner(dt: DataType): (ms: seq<Member>)
    requires ValidType(dt) && dt.Struct?
    ensures ValidMembers(ms) && StructOf(dt) == Some(Build(ms))
  {
    dt.members
  }

  // ----- members of a structure

  lemma {:induction false} TakeIsValid(ms: seq<Member>, k: nat)
    requires ValidMembers(ms) && k <= |ms|
    ensures ValidMembers(ms[..k]) && forall j :: 0 <= j < |ms| ==> ValidMember(ms[j])
    decreases |ms|
  {
    forall j | 0 <= j < |ms|
      ensures ValidMember(ms[j])
    {
      assert ms[j] in ms;
    }
    if k == |ms| {
      assert ms[..k] == ms;
    } else {
      PrefixIsValid(ms);
      TakeIsValid(ms[..|ms| - 1], k);
      assert ms[..|ms| - 1][..k] == ms[..k];
    }
  }

  /** The fields in front of member `j`, padding included. */
  function Before(ms: seq<Member>, j: nat): seq<Field>
    requires ValidMembers(ms) && j < |ms|
  {
    TakeIsValid(ms, j);
    var fs := Build(ms[..j]);
    Padded(fs, Padding(fs, NaturalAlignment(ms[j].dataType)))
  }

  function MemberAdded(ms: seq<Member>, j: nat): seq<Field>
    requires ValidMembers(ms) && j < |ms|
  {
    TakeIsValid(ms, j);
    Added(Before(ms, j), [Ident(ms[j].name)], ms[j].dataType, ms[j].init)
  }

  /** All names of a variable begin with its own name. */
  predicate NamesBegin(fs: seq<Field>, from: nat, name: Name) {
    forall q :: from <= q < |fs| ==> fs[q].name == [] || name <= fs[q].name
  }

  lemma AddedNamesBegin(fs: seq<Field>, name: Name, dt: DataType, init: Option<seq<byte>>)
    requires ValidType(dt) && InitFits(dt, init) && name != []
    ensures NamesBegin(Added(fs, name, dt, init), |fs|, name)
  {
    AddedStartsWith(fs, name, dt, init);
    AddedNames(fs, name, dt, init);
    hide Added;
    var r := Added(fs, name, dt, init);
    forall q | |fs| <= q < |r|
      ensures r[q].name == [] || name <= r[q].name
    {
      if q > |fs| && r[q].name != [] {
        assert PartOf(name, r[q].name);
      }
    }
  }

  lemma BuildStep(ms: seq<Member>, j: nat)
    requires ValidMembers(ms) && j < |ms|
    ensures ValidMembers(ms[..j + 1]) && ValidMembers(ms[..j]) && Build(ms[..j + 1]) == MemberAdded(ms, j)
  {
    TakeIsValid(ms, j);
    TakeIsValid(ms, j + 1);
    var upTo := ms[..j + 1];
    assert upTo[..j] == ms[..j] && upTo[|upTo| - 1] == ms[j];
    hide Added, Padded, Padding, NaturalAlignment, ValidMembers, ValidMember;
    assert Build(upTo) == AddedNaturally(Build(ms[..j]), [Ident(ms[j].name)], ms[j].dataType, ms[j].init);
  }

  /** What member `j` appends: padding, and fields named after it. */
  lemma MemberIsAppended(ms: seq<Member>, j: nat)
    requires ValidMembers(ms) && j < |ms|
    ensures ValidMembers(ms[..j + 1]) && ValidMembers(ms[..j]) && Build(ms[..j + 1]) == MemberAdded(ms, j)
    ensures Build(ms[..j]) <= Before(ms, j) <= MemberAdded(ms, j)
    ensures forall q :: |Build(ms[..j])| <= q < |Before(ms, j)| ==> Before(ms, j)[q].name == []
    ensures NamesBegin(MemberAdded(ms, j), |Before(ms, j)|, [Ident(ms[j].name)])
  {
    TakeIsValid(ms, j);
    hide Added, Padded, Build, ValidMembers, NamesBegin;
    BuildStep(ms, j);
    var fs := Build(ms[..j]);
    PaddedNames(fs, Padding(fs, NaturalAlignment(ms[j].dataType)));
    AddedStartsWith(Before(ms, j), [Ident(ms[j].name)], ms[j].dataType, ms[j].init);
    AddedNamesBegin(Before(ms, j), [Ident(ms[j].name)], ms[j].dataType, ms[j].init);
  }

  /** Every name in a structure begins with the name of a member. */
  lemma {:induction false} BuildNames(ms: seq<Member>, k: nat, q: nat)
    requires ValidMembers(ms) && k <= |ms| && ValidMembers(ms[..k]) && q < |Build(ms[..k])|
    ensures var n := Build(ms[..k])[q].name;
            n == [] || (n[0].Ident? && exists j :: 0 <= j < k && ms[j].name == n[0].name)
    decreases k
  {
    if k > 0 {
      var j := k - 1;
      MemberIsAppended(ms, j);
      hide Before, MemberAdded, ValidMembers;
      if q < |Build(ms[..j])| {
        BuildNames(ms, j, q);
        assert Build(ms[..k])[q] == Build(ms[..j])[q];
      } else if q < |Before(ms, j)| {
        assert MemberAdded(ms, j)[q] == Before(ms, j)[q];
      } else {
        assert [Ident(ms[j].name)] <= Build(ms[..k])[q].name || Build(ms[..k])[q].name == [];
      }
    }
  }

  /** Looking up (a part of) member `j` only depends on what member `j` added. */
  lemma {:induction false} LookupMember(ms: seq<Member>, j: nat, n: Name, k: nat)
    requires ValidMembers(ms) && j < k <= |ms| && ValidMembers(ms[..k])
    requires n != [] && n[0] == Ident(ms[j].name)
    ensures Lookup(Build(ms[..k]), n) == Lookup(MemberAdded(ms, j), n)
    decreases k
  {
    hide Lookup, Build, MemberAdded, Before, ValidMember;
    MemberIsAppended(ms, k - 1);
    if j < k - 1 {
      LookupMember(ms, j, n, k - 1);
      assert ms[k - 1].name != ms[j].name;
      SkipMember(Build(ms[..k - 1]), Before(ms, k - 1), MemberAdded(ms, k - 1), ms[k - 1].name, n);
    }
  }

  lemma SkipMember(fs: seq<Field>, before: seq<Field>, r: seq<Field>, name: string, n: Name)
    requires fs <= before <= r && n != [] && n[0] != Ident(name)
    requires forall q :: |fs| <= q < |before| ==> before[q].name == []
    requires NamesBegin(r, |before|, [Ident(name)])
    ensures Lookup(r, n) == Lookup(fs, n)
  {
    hide Lookup;
    forall q | |fs| <= q < |r|
      ensures r[q].name != n
    {
      if q < |before| {
        assert r[q] == before[q];
      } else if r[q].name != [] {
        assert [Ident(name)] <= r[q].name;
      }
    }
    LookupSkips(r, |fs|, n);
    assert r[..|fs|] == fs;
  }

  lemma NotInBefore(ms: seq<Member>, j: nat, n: Name)
    requires ValidMembers(ms) && j < |ms| && n != [] && n[0] == Ident(ms[j].name)
    ensures Lookup(Before(ms, j), n) == None
  {
    var fs := Before(ms, j);
    MemberIsAppended(ms, j);
    hide Lookup, Before, MemberAdded, Build;
    forall q | 0 <= q < |fs|
      ensures fs[q].name != n
    {
      if q < |Build(ms[..j])| {
        BuildNames(ms, j, q);
        assert fs[q] == Build(ms[..j])[q];
      }
    }
    LookupSkips(fs, 0, n);
  }

  // ----- parts of a variable

  /** The structure of a STRUCT or STRING variable, found under the variable's name. */
  lemma LookupPart(fs: seq<Field>, name: Name, dt: DataType, init: Option<seq<byte>>, n: Name)
    requires ValidType(dt) && InitFits(dt, init) && StructOf(dt).Some? && name != [] && n != []
    ensures var f := Lookup(StructOf(dt).value, n);
            Lookup(Added(fs, name, dt, init), name + n)
            == if f.Some? then Some(Moved(f.value, name, Offset(UnalignedSize(fs), 0))) else Lookup(fs, name + n)
  {
    MergedLookup(fs, StructOf(dt).value, name, Width(dt), dt, init, n);
  }

  lemma MergedLookup(fs: seq<Field>, other: seq<Field>, name: Name, bits: nat, dt: DataType,
                     init: Option<seq<byte>>, n: Name)
    requires name != [] && n != []
    ensures var f := Lookup(other, n);
            Lookup(Merged(fs, other, name, bits, dt, init), name + n)
            == if f.Some? then Some(Moved(f.value, name, Offset(UnalignedSize(fs), 0))) else Lookup(fs, name + n)
  {
    var withMarker := fs + [Marker(fs, name, bits, dt, init)];
    var base := Offset(UnalignedSize(withMarker), 0);
    var withFields := withMarker + MovedAll(other, name, base);
    var r := Merged(fs, other, name, bits, dt, init);
    assert r == withFields + [Guard(withFields)];
    assert base == Offset(UnalignedSize(fs), 0);
    hide Lookup, Merged, UnalignedSize, Moved, Guard;
    LookupSkips(r, |withFields|, name + n);
    assert r[..|withFields|] == withFields;
    if Lookup(other, n).Some? {
      var i, moved := FieldIndex(other, n), MovedAll(other, name, base);
      MovedName(other[i], name, base, n);
      forall q | i < q < |other|
        ensures moved[q].name != name + n
      {
        MovedName(other[q], name, base, n);
      }
      hide MovedAll;
      LookupBehind(withMarker, moved, i, name + n);
    } else {
      NotMoved(fs, withMarker, other, name, base, n);
    }
  }

  lemma NotMoved(fs: seq<Field>, withMarker: seq<Field>, other: seq<Field>, name: Name, base: Offset, n: Name)
    requires name != [] && n != [] && Lookup(other, n).None?
    requires |withMarker| == |fs| + 1 && fs <= withMarker && withMarker[|fs|].name == name
    ensures Lookup(withMarker + MovedAll(other, name, base), name + n) == Lookup(fs, name + n)
  {
    hide Lookup, Moved;
    var withFields := withMarker + MovedAll(other, name, base);
    forall q | |fs| <= q < |withFields|
      ensures withFields[q].name != name + n
    {
      if q > |fs| {
        MovedName(other[q - |fs| - 1], name, base, n);
        NotFound(other, q - |fs| - 1, n);
      } else {
        assert |name + n| > |name|;
      }
    }
    LookupSkips(withFields, |fs|, name + n);
    assert withFields[..|fs|] == fs;
  }

  lemma {:induction false} NotFound(fs: seq<Field>, q: nat, n: Name)
    requires q < |fs| && n != [] && Lookup(fs, n) == None
    ensures fs[q].name != n
    decreases |fs|
  {
    if q < |fs| - 1 {
      NotFound(fs[..|fs| - 1], q, n);
    }
  }

  /** Only a STRUCT registers names that continue with an identifier. */
  lemma PartsOfOthersAreIndexed(fs: seq<Field>, name: Name, dt: DataType, init: Option<seq<byte>>, q: nat)
    requires ValidType(dt) && InitFits(dt, init) && !dt.Struct? && name != []
    requires |fs| <= q < |Added(fs, name, dt, init)|
    requires PartOf(name, Added(fs, name, dt, init)[q].name)
    ensures Added(fs, name, dt, init)[q].name[|name|].Index?
  {
    var r := Added(fs, name, dt, init);
    match dt
    case Basic(_) =>
    case Str(len) =>
      var other := StringFields(len);
      var k := q - |fs| - 1;
      assert 0 <= k < |other| && r[q].name == name + other[k].name;
    case Array(dims, e) =>
      var w := WithMarker(fs, name, dims, e);
      ElementNames(w, name, dims, e, init, 0, NrElements(dims));
      ElementsStart(w, name, dims, e, init);
      var els := Elements(w, name, dims, e, init, NrElements(dims));
      assert r == els + [Guard(els)];
      assert ElementName(els[q].name, name, dims, 0, NrElements(dims));
  }

  // ----- walking inside one structure

  lemma FoundMember(ms: seq<Member>, n: Name) returns (j: nat)
    requires ValidMembers(ms) && Lookup(Build(ms), n).Some?
    ensures j < |ms| && n != [] && n[0] == Ident(ms[j].name)
    ensures Lookup(Build(ms), n) == Lookup(MemberAdded(ms, j), n)
    ensures Lookup(Build(ms), [n[0]]) == Lookup(MemberAdded(ms, j), [n[0]])
  {
    var q := FieldIndex(Build(ms), n);
    assert ms[..|ms|] == ms;
    BuildNames(ms, |ms|, q);
    j :| 0 <= j < |ms| && ms[j].name == n[0].name;
    LookupMember(ms, j, n, |ms|);
    LookupMember(ms, j, [n[0]], |ms|);
  }

  /** A member is found under its name, with its type, where it was added. */
  lemma MemberIsFound(ms: seq<Member>, j: nat)
    requires ValidMembers(ms) && j < |ms|
    ensures ValidMember(ms[j]) && Laid(Before(ms, j))
    ensures var f := Lookup(MemberAdded(ms, j), [Ident(ms[j].name)]);
            && f.Some? && f.value.dataType == ms[j].dataType
            && (!ms[j].dataType.Basic? ==> f.value.offset == Offset(UnalignedSize(Before(ms, j)), 0))
  {
    TakeIsValid(ms, j);
    hide Laid, Padded, Build, Added, Lookup;
    BuildIsLaid(ms[..j]);
    PaddedKeepsLaid(Build(ms[..j]), Padding(Build(ms[..j]), NaturalAlignment(ms[j].dataType)));
    MarkerIsFound(Before(ms, j), [Ident(ms[j].name)], ms[j].dataType, ms[j].init);
  }

  function Shifted(base: Offset, part: Option<(Offset, DataType)>): Option<(Offset, DataType)> {
    if part.None? then None else Some((Add(base, part.value.0), part.value.1))
  }

  /** Follow a chain through nested structures: a subscript only at its end. */
  ghost function Nested(ms: seq<Member>, chain: seq<ChainElem>): Option<(Offset, DataType)>
    requires ValidMembers(ms) && chain != []
    decreases |chain|
  {
    var f := Lookup(Build(ms), [Ident(chain[0].name)]);
    if f.None? then None
    else
      FoundTypeIsValid(ms, [Ident(chain[0].name)]);
      if |chain| == 1 then Shifted(f.value.offset, IndexPart(f.value.dataType, chain[0].indices))
      else if f.value.dataType.Struct? && chain[0].indices == []
      then Shifted(f.value.offset, Nested(Inner(f.value.dataType), chain[1..]))
      else None
  }

  lemma FoundTypeIsValid(ms: seq<Member>, n: Name)
    requires ValidMembers(ms) && Lookup(Build(ms), n).Some?
    ensures ValidType(Lookup(Build(ms), n).value.dataType)
  {
    BuildTypesValid(ms);
    var q := FieldIndex(Build(ms), n);
    assert Build(ms)[q] in Build(ms);
  }

  predicate IndexedAddressable(dt: DataType, indices: seq<int>)
    requires ValidType(dt)
  {
    dt.Array? && indices != [] ==> Addressable(dt.dims, dt.elem)
  }

  ghost predicate NestedAddressable(ms: seq<Member>, chain: seq<ChainElem>)
    requires ValidMembers(ms) && chain != []
    decreases |chain|
  {
    var f := Lookup(Build(ms), [Ident(chain[0].name)]);
    if f.None? then true
    else
      FoundTypeIsValid(ms, [Ident(chain[0].name)]);
      if |chain| == 1 then IndexedAddressable(f.value.dataType, chain[0].indices)
      else f.value.dataType.Struct? ==> NestedAddressable(Inner(f.value.dataType), chain[1..])
  }

  lemma StringCharacter(len: nat, c: int)
    requires 1 <= c <= len
    ensures Lookup(StringFields(len), [Index([c])])
            == Some(Field([Index([c])], Offset(c + 1, 0), 8, Basic(8), None, None))
  {
    LookupFinds(StringFields(len), c + 1, [Index([c])]);
  }

  /** `g` is what the subscripts of `c` select in the variable `f` of type `dt`. */
  predicate SelectedBy(dt: DataType, indices: seq<int>, f: Option<Field>, g: Option<Field>)
    requires ValidType(dt)
  {
    var part := IndexPart(dt, indices);
    && f.Some? && g.Some? && part.Some? && g.value.dataType == part.value.1
    && ToBitOffset(g.value.offset) == ToBitOffset(f.value.offset) + ToBitOffset(part.value.0)
  }

  /** The last subscript of a chain: computed offset and registered field agree. */
  lemma IndexedPart(fs: seq<Field>, name: Name, dt: DataType, init: Option<seq<byte>>, indices: seq<int>)
    requires ValidType(dt) && InitFits(dt, init) && Laid(fs) && name != []
    requires IndexPart(dt, indices).Some? && IndexedAddressable(dt, indices)
    ensures var r := Added(fs, name, dt, init);
            SelectedBy(dt, indices, Lookup(r, name), Lookup(r, Subscripted(name, indices)))
  {
    if indices == [] {
      NotIndexed(fs, name, dt, init);
    } else if dt.Array? {
      assert InBounds(dt.dims, indices) && Addressable(dt.dims, dt.elem);
      hide *;
      IndexedElement(fs, name, dt.dims, dt.elem, init, indices);
    } else {
      assert dt.Str? && indices == [indices[0]] && 1 <= indices[0] <= dt.len;
      hide *;
      IndexedCharacter(fs, name, dt.len, init, indices[0]);
    }
  }

  lemma NotIndexed(fs: seq<Field>, name: Name, dt: DataType, init: Option<seq<byte>>)
    requires ValidType(dt) && InitFits(dt, init) && name != []
    ensures var r := Added(fs, name, dt, init);
            SelectedBy(dt, [], Lookup(r, name), Lookup(r, Subscripted(name, [])))
  {
    hide Added, Lookup, Subscripted, ValidType, InitFits, ToBitOffset;
    MarkerIsFound(fs, name, dt, init);
    NotSubscripted(name, dt);
    ZeroCountsNothing();
  }

  lemma NotSubscripted(name: Name, dt: DataType)
    requires ValidType(dt)
    ensures Subscripted(name, []) == name && IndexPart(dt, []) == Some((ZERO, dt))
  {
  }

  /** Where an element is registered, and where it is computed. */
  lemma ElementPlace(fs: seq<Field>, name: Name, dims: seq<Dim>, e: DataType, init: Option<seq<byte>>,
                     indices: seq<int>)
    requires ValidType(Array(dims, e)) && InitFits(Array(dims, e), init) && Laid(fs) && name != []
    requires InBounds(dims, indices) && indices != [] && Addressable(dims, e)
    ensures var r := Added(fs, name, Array(dims, e), init);
            var f, g := Lookup(r, name), Lookup(r, ElementOf(name, indices));
            && f.Some? && g.Some? && g.value.dataType == e
            && ToBitOffset(g.value.offset) == ToBitOffset(f.value.offset) + ComputedBits(dims, e, indices)
  {
    hide Added, AddressesAgree, Addressable, Laid, Lookup, Collapse, Expand, Width, NrElements;
    CollapseInRange(dims, indices);
    ExpandOfCollapse(dims, indices);
    ElementIsFound(fs, name, dims, e, init, Collapse(dims, indices));
    ArrayAddressing(fs, name, dims, e, init);
    AgreementMeans(Added(fs, name, Array(dims, e), init), name, dims, e, indices);
  }

  lemma AgreementMeans(r: seq<Field>, name: Name, dims: seq<Dim>, e: DataType, indices: seq<int>)
    requires ValidType(e) && |indices| == |dims| && AddressesAgree(r, name, dims, e, indices)
    ensures Lookup(r, name).Some? && Lookup(r, ElementOf(name, indices)).Some?
    ensures ToBitOffset(Lookup(r, ElementOf(name, indices)).value.offset)
            == ToBitOffset(Lookup(r, name).value.offset) + ComputedBits(dims, e, indices)
  {
    hide Lookup, ComputedBits, ToBitOffset;
  }

  lemma IndexedElement(fs: seq<Field>, name: Name, dims: seq<Dim>, e: DataType, init: Option<seq<byte>>,
                       indices: seq<int>)
    requires ValidType(Array(dims, e)) && InitFits(Array(dims, e), init) && Laid(fs) && name != []
    requires InBounds(dims, indices) && indices != [] && Addressable(dims, e)
    ensures var r := Added(fs, name, Array(dims, e), init);
            SelectedBy(Array(dims, e), indices, Lookup(r, name), Lookup(r, Subscripted(name, indices)))
  {
    CollapseInRange(dims, indices);
    assert Subscripted(name, indices) == ElementOf(name, indices);
    hide Added, Lookup, Laid, Width, Collapse, Expand, Addressable, NrElements, InBounds, InitFits;
    ElementPlace(fs, name, dims, e, init, indices);
  }

  lemma IndexedCharacter(fs: seq<Field>, name: Name, len: nat, init: Option<seq<byte>>, c: int)
    requires ValidType(Str(len)) && InitFits(Str(len), init) && name != [] && 1 <= c <= len
    ensures var r := Added(fs, name, Str(len), init);
            SelectedBy(Str(len), [c], Lookup(r, name), Lookup(r, Subscripted(name, [c])))
  {
    assert len <= 254;
    hide *;
    StringCharacter(len, c);
    CharacterPart(name, len, c);
    MarkerIsFound(fs, name, Str(len), init);
    LookupPart(fs, name, Str(len), init, [Index([c])]);
    CharacterIsSelected(len, c, name, UnalignedSize(fs), Lookup(Added(fs, name, Str(len), init), name));
  }

  lemma CharacterPart(name: Name, len: nat, c: int)
    requires 1 <= c <= len <= 254
    ensures StructOf(Str(len)) == Some(StringFields(len)) && !Str(len).Basic?
    ensures Subscripted(name, [c]) == name + [Index([c])]
  {
  }

  lemma CharacterIsSelected(len: nat, c: int, name: Name, base: nat, f: Option<Field>)
    requires 1 <= c <= len <= 254 && f.Some? && f.value.offset == Offset(base, 0)
    ensures var character := Field([Index([c])], Offset(c + 1, 0), 8, Basic(8), None, None);
            SelectedBy(Str(len), [c], f, Some(Moved(character, name, Offset(base, 0))))
  {
    AtByte(base, c + 1);
    assert IndexPart(Str(len), [c]) == Some((Offset(c + 1, 0), Basic(8)));
    hide Add, IndexPart;
  }

  lemma AtByte(a: nat, b: nat)
    ensures Add(Offset(a, 0), Offset(b, 0)) == Offset(a + b, 0)
  {
  }

  ghost predicate Registered(ms: seq<Member>, chain: seq<ChainElem>)
    requires ValidMembers(ms) && chain != []
  {
    var g, n := Lookup(Build(ms), FullName(chain)), Nested(ms, chain);
    && FullName(chain) != [] && FullName(chain)[0] == Ident(chain[0].name)
    && g.Some? && n.Some? && g.value.dataType == n.value.1
    && ToBitOffset(g.value.offset) == ToBitOffset(n.value.0)
  }

  /** What following the chain gives is what the flattened structure registers under the full name. */
  lemma {:induction false} NestedIsRegistered(ms: seq<Member>, chain: seq<ChainElem>)
    requires ValidMembers(ms) && chain != [] && Nested(ms, chain).Some? && NestedAddressable(ms, chain)
    ensures Registered(ms, chain)
    decreases |chain|
  {
    if |chain| == 1 {
      LastOfChain(ms, chain);
    } else {
      var first := [Ident(chain[0].name)];
      var j := FoundMember(ms, first);
      StepOfChain(ms, chain, j);
      hide *;
      NestedIsRegistered(Inner(ms[j].dataType), chain[1..]);
      RestOfChain(ms, chain, j);
    }
  }

  lemma LastOfChain(ms: seq<Member>, chain: seq<ChainElem>)
    requires ValidMembers(ms) && |chain| == 1 && Nested(ms, chain).Some? && NestedAddressable(ms, chain)
    ensures Registered(ms, chain)
  {
    var c := chain[0];
    assert FullName(chain) == ElemName(c) by { assert FullName(chain[1..]) == []; }
    hide Lookup, Build, Before, MemberAdded, IndexPart, IndexedAddressable, Add, ToBitOffset;
    var j := FoundMember(ms, [Ident(c.name)]);
    MemberIsFound(ms, j);
    LastIsRegistered(ms, j, c);
    AddCountsBits(Lookup(Build(ms), [Ident(c.name)]).value.offset, IndexPart(ms[j].dataType, c.indices).value.0);
  }

  /** In front of the last identifier there are only STRUCT members. */
  lemma StepOfChain(ms: seq<Member>, chain: seq<ChainElem>, j: nat)
    requires ValidMembers(ms) && |chain| > 1 && Nested(ms, chain).Some? && NestedAddressable(ms, chain)
    requires j < |ms| && ms[j].name == chain[0].name
    requires Lookup(Build(ms), [Ident(chain[0].name)]) == Lookup(MemberAdded(ms, j), [Ident(chain[0].name)])
    ensures ValidMember(ms[j]) && ms[j].dataType.Struct? && chain[0].indices == []
    ensures Nested(Inner(ms[j].dataType), chain[1..]).Some? && NestedAddressable(Inner(ms[j].dataType), chain[1..])
    ensures Nested(ms, chain)
            == Shifted(Lookup(Build(ms), [Ident(chain[0].name)]).value.offset,
                       Nested(Inner(ms[j].dataType), chain[1..]))
  {
    hide Lookup, Build, Before, MemberAdded, IndexPart, IndexedAddressable, Add;
    MemberIsFound(ms, j);
  }

  lemma RestOfChain(ms: seq<Member>, chain: seq<ChainElem>, j: nat)
    requires ValidMembers(ms) && |chain| > 1 && j < |ms| && ms[j].name == chain[0].name
    requires ValidMember(ms[j]) && ms[j].dataType.Struct? && chain[0].indices == []
    requires Registered(Inner(ms[j].dataType), chain[1..])
    requires Lookup(Build(ms), [Ident(chain[0].name)]).Some?
    requires Nested(ms, chain)
             == Shifted(Lookup(Build(ms), [Ident(chain[0].name)]).value.offset,
                        Nested(Inner(ms[j].dataType), chain[1..]))
    ensures Registered(ms, chain)
  {
    var inner, rest := Inner(ms[j].dataType), FullName(chain[1..]);
    assert FullName(chain) == [Ident(chain[0].name)] + rest;
    hide Lookup, Build, Nested, Add, ToBitOffset, FullName;
    PartIsRegistered(ms, j, rest);
    AddCountsBits(Lookup(Build(ms), [Ident(chain[0].name)]).value.offset, Nested(inner, chain[1..]).value.0);
  }

  lemma IndexedMember(ms: seq<Member>, j: nat, c: ChainElem)
    requires ValidMembers(ms) && j < |ms| && c.name == ms[j].name && ValidMember(ms[j])
    requires IndexPart(ms[j].dataType, c.indices).Some? && IndexedAddressable(ms[j].dataType, c.indices)
    ensures var r := MemberAdded(ms, j);
            SelectedBy(ms[j].dataType, c.indices, Lookup(r, [Ident(c.name)]), Lookup(r, ElemName(c)))
  {
    TakeIsValid(ms, j);
    MemberIsFound(ms, j);
    hide Lookup, Build, Before, Added, IndexPart, IndexedAddressable, Laid, SelectedBy;
    IndexedPart(Before(ms, j), [Ident(c.name)], ms[j].dataType, ms[j].init, c.indices);
  }

  lemma LastIsRegistered(ms: seq<Member>, j: nat, c: ChainElem)
    requires ValidMembers(ms) && j < |ms| && c.name == ms[j].name && ValidMember(ms[j])
    requires IndexPart(ms[j].dataType, c.indices).Some? && IndexedAddressable(ms[j].dataType, c.indices)
    ensures SelectedBy(ms[j].dataType, c.indices, Lookup(Build(ms), [Ident(c.name)]), Lookup(Build(ms), ElemName(c)))
  {
    LookupInBuild(ms, j, [Ident(c.name)]);
    LookupInBuild(ms, j, ElemName(c));
    IndexedMember(ms, j, c);
  }

  lemma LookupInBuild(ms: seq<Member>, j: nat, n: Name)
    requires ValidMembers(ms) && j < |ms| && n != [] && n[0] == Ident(ms[j].name)
    ensures Lookup(Build(ms), n) == Lookup(MemberAdded(ms, j), n)
  {
    assert ms[..|ms|] == ms;
    LookupMember(ms, j, n, |ms|);
  }

  /** Parts of a STRUCT member are registered at the member's offset plus their own. */
  lemma PartIsRegistered(ms: seq<Member>, j: nat, rest: Name)
    requires ValidMembers(ms) && j < |ms| && ValidMember(ms[j]) && ms[j].dataType.Struct? && rest != []
    ensures var inner := Lookup(Build(Inner(ms[j].dataType)), rest);
            var f, g := Lookup(Build(ms), [Ident(ms[j].name)]), Lookup(Build(ms), [Ident(ms[j].name)] + rest);
            && f.Some? && (inner.Some? <==> g.Some?)
            && (inner.Some? ==> PartAt(f.value, inner.value, g.value))
  {
    var first, dt := [Ident(ms[j].name)], ms[j].dataType;
    LookupInBuild(ms, j, first);
    LookupInBuild(ms, j, first + rest);
    MemberIsFound(ms, j);
    NotInBefore(ms, j, first + rest);
    var fs := Before(ms, j);
    var inner := Lookup(Build(Inner(dt)), rest);
    assert MemberAdded(ms, j) == Added(fs, first, dt, ms[j].init);
    hide Lookup, Build, Before, MemberAdded, Added, ValidMembers, Laid, Add;
    LookupPart(fs, first, dt, ms[j].init, rest);
    if inner.Some? {
      AddCountsBits(Offset(UnalignedSize(fs), 0), inner.value.offset);
    }
  }

  /** `g` is the part `inner` of the variable `f`. */
  predicate PartAt(f: Field, inner: Field, g: Field) {
    && g.dataType == inner.dataType
    && ToBitOffset(g.offset) == ToBitOffset(f.offset) + ToBitOffset(inner.offset)
  }
}
