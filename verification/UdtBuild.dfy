/**
 Building user defined data types (`UDT.buildDataStructure`): a depth-first walk over the
 embedding graph with three states per UDT.
 */
module UdtBuild {
  import opened Bytes
  import opened Options
  import opened ArrayIndex
  import opened Layout
  import opened StructLayout
  import opened DataStructure
  import opened FieldNames
  import opened Placement

  /** A declared field: of a type with known width, another UDT, or of a type whose width stays unknown. */
  datatype FieldType = Plain(dataType: DataType) | Embedded(index: int) | Unsized

  datatype UdtField = UdtField(name: string, fieldType: FieldType, init: Option<seq<byte>>)

  type Udts = map<int, seq<UdtField>>

  datatype BuildState = NotBuilt | Building | Built

  /**
   `StructRecursion` is what a UDT under construction answers; the UDT that embeds it reports
   `Recursion` instead.
   */
  datatype Outcome = Ok | StructRecursion | Recursion | MissingUdt | UnknownSize | ZeroSize

  /** What declaring the fields one by one guarantees. */
  predicate Declared(fields: seq<UdtField>) {
    && (forall i, j :: 0 <= i < j < |fields| ==> fields[i].name != fields[j].name)
    && forall i :: 0 <= i < |fields| ==>
         match fields[i].fieldType
         case Plain(dt) => ValidType(dt) && InitFits(dt, fields[i].init)
         case _ => fields[i].init == None
  }

  ghost predicate AllDeclared(udts: Udts) {
    forall i :: i in udts ==> Declared(udts[i])
  }

  ghost predicate Embeds(udts: Udts, i: int, j: int) {
    i in udts && exists k :: 0 <= k < |udts[i]| && udts[i][k].fieldType == Embedded(j)
  }

  // ----- the UDTs that can be built

  /** No fields (so no size), a field of unknown width, or a UDT that does not exist. */
  ghost predicate Malformed(udts: Udts, i: int)
    requires i in udts
  {
    || udts[i] == []
    || (exists k :: 0 <= k < |udts[i]| && udts[i][k].fieldType.Unsized?)
    || (exists j :: Embeds(udts, i, j) && j !in udts)
  }

  ghost predicate IsPath(udts: Udts, p: seq<int>) {
    forall k :: 0 <= k < |p| - 1 ==> Embeds(udts, p[k], p[k + 1])
  }

  ghost predicate IsCycle(udts: Udts, p: seq<int>) {
    |p| >= 2 && p[0] == p[|p| - 1] && IsPath(udts, p)
  }

  ghost predicate Buildable(udts: Udts) {
    && (forall i :: i in udts ==> !Malformed(udts, i))
    && (forall p :: !IsCycle(udts, p))
  }

  ghost predicate EmbedsMissing(udts: Udts, i: int)
    requires i in udts
  {
    exists k :: 0 <= k < |udts[i]| && udts[i][k].fieldType.Embedded? && udts[i][k].fieldType.index !in udts
  }

  ghost predicate HasUnsized(udts: Udts, i: int)
    requires i in udts
  {
    exists k :: 0 <= k < |udts[i]| && udts[i][k].fieldType.Unsized?
  }

  /** At the end of the embedding path `p` there is the reason for the failure `r`. */
  ghost predicate Fails(udts: Udts, p: seq<int>, r: Outcome) {
    && p != [] && IsPath(udts, p)
    && var i := p[|p| - 1];
       match r
       case Ok => false
       case StructRecursion | Recursion => i in p[..|p| - 1]
       case MissingUdt => i in udts && EmbedsMissing(udts, i)
       case UnknownSize => i in udts && HasUnsized(udts, i)
       case ZeroSize => i in udts && udts[i] == []
  }

  /** No embedding path from one of these UDTs leads to a reason for a failure. */
  ghost predicate NoneFails(udts: Udts, numbers: seq<int>) {
    forall i :: i in numbers ==> forall p, e :: p != [] && p[0] == i ==> !Fails(udts, p, e)
  }

  lemma FailureFromHere(udts: Udts, numbers: seq<int>, n: nat, r: Outcome)
    requires n < |numbers| && FailsBeyond(udts, [] + [numbers[n]], r)
    ensures !NoneFails(udts, numbers) && !Buildable(udts) && exists p :: Fails(udts, p, r)
  {
    FailureIsFinal(udts, [] + [numbers[n]], r);
    hide Fails, Buildable;
    var p :| [] + [numbers[n]] <= p && Fails(udts, p, r);
    assert p != [] && p[0] == numbers[n] && numbers[n] in numbers;
  }

  ghost predicate FailsBeyond(udts: Udts, path: seq<int>, r: Outcome) {
    exists p :: path <= p && Fails(udts, p, r)
  }

  lemma FailsFurther(udts: Udts, path: seq<int>, j: int, r: Outcome)
    requires FailsBeyond(udts, path + [j], r)
    ensures FailsBeyond(udts, path, r)
    ensures r.StructRecursion? ==> FailsBeyond(udts, path, Recursion)
  {
    hide IsPath;
    var p :| path + [j] <= p && Fails(udts, p, r);
    assert path <= p;
    assert r.StructRecursion? ==> Fails(udts, p, Recursion);
  }

  /** A failure anywhere means that not all UDTs can be built. */
  lemma FailureIsFinal(udts: Udts, path: seq<int>, r: Outcome)
    requires FailsBeyond(udts, path, r)
    ensures !Buildable(udts)
  {
    var p :| path <= p && Fails(udts, p, r);
    var i := p[|p| - 1];
    if r.StructRecursion? || r.Recursion? {
      var k :| 0 <= k < |p| - 1 && p[..|p| - 1][k] == i;
      assert IsCycle(udts, p[k..]);
    } else if r.MissingUdt? {
      var k :| 0 <= k < |udts[i]| && udts[i][k].fieldType.Embedded? && udts[i][k].fieldType.index !in udts;
      assert Embeds(udts, i, udts[i][k].fieldType.index);
      assert Malformed(udts, i);
    } else {
      assert Malformed(udts, i);
    }
  }

  // ----- what has been built

  function MemberType(types: map<int, seq<Member>>, ft: FieldType): DataType
    requires ft.Plain? || (ft.Embedded? && ft.index in types)
  {
    if ft.Plain? then ft.dataType else Struct(types[ft.index])
  }

  ghost predicate MembersMatch(fields: seq<UdtField>, types: map<int, seq<Member>>, ms: seq<Member>) {
    && |ms| == |fields|
    && forall k :: 0 <= k < |fields| ==>
         && (fields[k].fieldType.Plain? || (fields[k].fieldType.Embedded? && fields[k].fieldType.index in types))
         && ms[k] == Member(fields[k].name, MemberType(types, fields[k].fieldType), fields[k].init)
  }

  /** `order` lists the built UDTs such that each one only embeds earlier ones. */
  ghost predicate BuiltInOrder(udts: Udts, order: seq<int>, types: map<int, seq<Member>>) {
    && (forall k :: 0 <= k < |order| ==> order[k] in udts && order[k] in types)
    && (forall k :: 0 <= k < |order| ==> Complete(udts, order, k, types))
    && (forall i :: i in types ==> i in order)
  }

  ghost predicate Complete(udts: Udts, order: seq<int>, k: nat, types: map<int, seq<Member>>)
    requires k < |order|
  {
    var i := order[k];
    && i in udts && i in types && types[i] != [] && ValidMembers(types[i])
    && MembersMatch(udts[i], types, types[i])
    && (forall j :: Embeds(udts, i, j) ==> j in order[..k])
  }

  class UdtTable {
    const udts: Udts
    var state: map<int, BuildState>
    var types: map<int, seq<Member>>
    var structs: map<int, seq<Field>>
    ghost var order: seq<int>

    ghost predicate Valid(path: seq<int>)
      reads this
    {
      && AllDeclared(udts)
      && state.Keys == udts.Keys
      && (forall i :: i in udts ==> (state[i].Built? <==> i in order))
      && (forall i :: i in udts ==> (state[i].Building? <==> i in path))
      && (forall i :: i in path ==> i in udts)
      && IsPath(udts, path)
      && BuiltInOrder(udts, order, types)
      && structs.Keys == types.Keys
      && (forall i :: i in types ==> ValidMembers(types[i]) && structs[i] == Build(types[i]))
    }

    constructor (udts: Udts)
      requires AllDeclared(udts)
      ensures Valid([]) && this.udts == udts && order == []
    {
      this.udts := udts;
      state := map i | i in udts :: NotBuilt;
      types, structs, order := map[], map[], [];
    }

    /** The UDTs the walk has not entered yet. */
    ghost function Untouched(): set<int>
      reads this
    {
      set i | i in udts && i in state && state[i].NotBuilt?
    }

    /** Insert one field into the structure that is being built for UDT `i`. */
    method BuildField(i: int, n: nat, ghost path: seq<int>, struct: AwlStruct, members: seq<Member>)
        returns (r: Outcome, more: seq<Member>)
      requires i in udts && n < |udts[i]| && Valid(path) && path != [] && path[|path| - 1] == i
      requires struct.Valid() && ValidMembers(members) && struct.fields == Build(members)
      requires |members| == n && MembersMatch(udts[i][..n], types, members)
      requires struct as object != this
      modifies this, struct
      ensures r.Ok? ==> Valid(path) && Untouched() <= old(Untouched()) && Grown(old(types), types)
      ensures r.Ok? ==> old(order) <= order
      ensures r.Ok? ==> struct.Valid() && ValidMembers(more) && struct.fields == Build(more)
      ensures r.Ok? ==> |more| == n + 1 && MembersMatch(udts[i][..n + 1], types, more)
      ensures !r.Ok? ==> !r.StructRecursion? && FailsBeyond(udts, path, r)
      ensures match udts[i][n].fieldType
              case Plain(_) => r.Ok?
              case Unsized => r.UnknownSize?
              case Embedded(j) => (j !in udts ==> r.MissingUdt?) && (j in path ==> r.Recursion?)
      decreases Untouched(), 2
    {
      hide FailsBeyond, Laid, InitsFit, Build, MembersMatch, ValidMembers, BuiltInOrder, IsPath, AwlStruct.NamesValid;
      var field := udts[i][n];
      FieldIsDeclared(udts, i, n);
      more := members;
      if field.fieldType.Unsized? {
        FieldFails(udts, path, n);
        return UnknownSize, members;
      }
      if field.fieldType.Embedded? {
        if field.fieldType.index !in udts {
          FieldFails(udts, path, n);
          return MissingUdt, members;
        }
        PathExtends(udts, path, n);
        var embedded := BuildDataStructure(field.fieldType.index, path);
        if !embedded.Ok? {
          FailsFurther(udts, path, field.fieldType.index, embedded);
          return if embedded.StructRecursion? then Recursion else embedded, members;
        }
        BuiltIsValid(path, field.fieldType.index);
      }
      MatchGrows(udts[i][..n], old(types), types, members);
      var m := Member(field.name, MemberType(types, field.fieldType), field.init);
      AppendMember(udts[i], types, members, n, m);
      BuildAppends(members, m);
      var _ := struct.AddFieldNaturallyAligned([Ident(m.name)], m.dataType, m.init);
      return Ok, members + [m];
    }

    method Enter(i: int, ghost path: seq<int>)
      requires i in udts && Valid(path) && IsPath(udts, path + [i]) && state[i].NotBuilt?
      modifies this`state
      ensures Valid(path + [i]) && i !in path
      ensures Untouched() == old(Untouched()) - {i} && i in old(Untouched())
    {
      hide BuiltInOrder, IsPath;
      state := state[i := Building];
    }

    /** A built UDT has a type that can be embedded. */
    lemma BuiltIsValid(path: seq<int>, j: int)
      requires Valid(path) && j in udts && state[j].Built?
      ensures j in types && types[j] != [] && ValidMembers(types[j])
    {
      var k :| 0 <= k < |order| && order[k] == j;
      assert Complete(udts, order, k, types);
    }

    /** Insert all fields of UDT `i`. */
    method BuildFields(i: int, ghost path: seq<int>) returns (r: Outcome, members: seq<Member>, fields: seq<Field>)
      requires i in udts && Valid(path) && path != [] && path[|path| - 1] == i
      modifies this
      ensures r.Ok? ==> Valid(path) && Untouched() <= old(Untouched()) && Grown(old(types), types)
      ensures r.Ok? ==> old(order) <= order && StructSize(fields) != 0
      ensures r.Ok? ==> members != [] && ValidMembers(members) && fields == Build(members)
      ensures r.Ok? ==> MembersMatch(udts[i], types, members)
      ensures !r.Ok? ==> !r.StructRecursion? && FailsBeyond(udts, path, r)
      decreases Untouched(), 3
    {
      hide FailsBeyond, Laid, InitsFit, Build, MembersMatch, ValidMembers, AwlStruct.NamesValid, Valid, Untouched,
        IsPath;
      var struct := new AwlStruct();
      members, fields := [], [];
      StartsEmpty(udts[i][..0], types);
      var n := 0;
      while n < |udts[i]|
        invariant n <= |udts[i]| && |members| == n && fresh(struct)
        invariant Valid(path) && Untouched() <= old(Untouched()) && Grown(old(types), types) && old(order) <= order
        invariant struct.Valid() && ValidMembers(members) && struct.fields == Build(members)
        invariant MembersMatch(udts[i][..n], types, members)
      {
        r, members := BuildField(i, n, path, struct, members);
        if !r.Ok? {
          return;
        }
        n := n + 1;
      }
      assert udts[i][..n] == udts[i];
      NonEmptyHasSize(members);
      fields := struct.fields;
      if struct.GetSize() == 0 {
        PathIsValid(path);
        EmptyFails(udts, path);
        r := ZeroSize;
      } else {
        r := Ok;
      }
    }

    /** Build one UDT, and before that every UDT it embeds. */
    method BuildDataStructure(i: int, ghost path: seq<int>) returns (r: Outcome)
      requires i in udts && Valid(path) && IsPath(udts, path + [i])
      modifies this
      ensures r.Ok? ==> Valid(path) && state[i].Built? && Untouched() <= old(Untouched())
      ensures r.Ok? ==> Grown(old(types), types) && old(order) <= order && i in order
      ensures r.Ok? ==> forall p, e :: p != [] && p[0] == i ==> !Fails(udts, p, e)
      ensures !r.Ok? ==> FailsBeyond(udts, path + [i], r)
      ensures r.StructRecursion? <==> i in path
      decreases Untouched(), 1
    {
      hide FailsBeyond, Fails, Build, BuiltInOrder, MembersMatch, ValidMembers, Valid, Untouched, IsPath;
      StateIsKnown(i, path);
      if state[i].Built? {
        OrderIsBuilt(path);
        BuiltDoesNotFail(udts, order, types, i);
        return Ok;
      }
      if state[i].Building? {
        PathCloses(udts, path, i);
        return StructRecursion;
      }
      Enter(i, path);
      var members, fields;
      r, members, fields := BuildFields(i, path + [i]);
      if r.Ok? {
        Finish(i, path, members, fields);
        OrderIsBuilt(path);
        BuiltDoesNotFail(udts, order, types, i);
      }
    }

    lemma StateIsKnown(i: int, path: seq<int>)
      requires Valid(path) && i in udts
      ensures i in state && (state[i].Built? <==> i in order) && (state[i].Building? <==> i in path)
    {
      hide BuiltInOrder, IsPath;
    }

    lemma PathIsValid(path: seq<int>)
      requires Valid(path)
      ensures IsPath(udts, path)
    {
    }

    lemma OrderIsBuilt(path: seq<int>)
      requires Valid(path)
      ensures BuiltInOrder(udts, order, types)
    {
    }

    /**
     Build the UDTs with these numbers, in their order; some may have been built before. This
     succeeds exactly if no embedding path from one of them leads to a reason for a failure, and
     for all UDTs exactly if they are buildable.
     */
    method BuildAll(numbers: seq<int>) returns (r: Outcome)
      requires Valid([]) && (forall i :: i in numbers ==> i in udts)
      modifies this
      ensures r.Ok? <==> NoneFails(udts, numbers)
      ensures (forall i :: i in udts ==> i in numbers) ==> (r.Ok? <==> Buildable(udts))
      ensures !r.Ok? ==> !r.StructRecursion? && exists p :: Fails(udts, p, r)
      ensures r.Ok? ==> Valid([]) && Grown(old(types), types) && forall i :: i in numbers ==> i in types
      ensures r.Ok? && (forall i :: i in udts ==> i in numbers) ==>
                IsResult(udts, types) && structs.Keys == types.Keys == udts.Keys
      ensures r.Ok? ==> forall i :: i in types ==> ValidMembers(types[i]) && structs[i] == Build(types[i])
      ensures r.Ok? ==> forall i :: i in types ==> PlacedNaturally(types[i], structs[i])
    {
      hide Complete, IsPath, Build, ValidMembers, MembersMatch, Fails, PlacedNaturally;
      for n := 0 to |numbers|
        invariant Valid([]) && Grown(old(types), types)
        invariant forall k :: 0 <= k < n ==> numbers[k] in order
      {
        PathOfOne(udts, numbers[n]);
        r := BuildDataStructure(numbers[n], []);
        if !r.Ok? {
          FailureFromHere(udts, numbers, n, r);
          return;
        }
      }
      r := Ok;
      assert NoneFails(udts, numbers) by {
        forall i | i in numbers
          ensures forall p, e :: p != [] && p[0] == i ==> !Fails(udts, p, e)
        {
          BuiltDoesNotFail(udts, order, types, i);
        }
      }
      forall i | i in types
        ensures PlacedNaturally(types[i], structs[i])
      {
        BuildPlaces(types[i]);
      }
      if forall i :: i in udts ==> i in numbers {
        BuiltIsBuildable(udts, order, types);
        OrderCoversTypes(udts, order, types);
      }
    }

    /** Mark a UDT as built and keep its structure. */
    method Finish(i: int, ghost path: seq<int>, members: seq<Member>, fields: seq<Field>)
      requires i in udts && Valid(path + [i]) && i !in path
      requires members != [] && ValidMembers(members) && fields == Build(members)
      requires MembersMatch(udts[i], types, members)
      modifies this
      ensures Valid(path) && state[i].Built? && Untouched() <= old(Untouched()) && Grown(old(types), types)
      ensures old(order) <= order && i in order
    {
      assert i !in order && i !in types;
      ghost var was := types;
      FinishOrder(udts, order, types, i, members);
      state := state[i := Built];
      types := types[i := members];
      structs := structs[i := fields];
      order := order + [i];
      PathPrefix(udts, path, i);
    }
  }

  ghost predicate Grown(a: map<int, seq<Member>>, b: map<int, seq<Member>>) {
    forall i :: i in a ==> i in b && b[i] == a[i]
  }

  lemma PathPrefix(udts: Udts, path: seq<int>, i: int)
    requires IsPath(udts, path + [i])
    ensures IsPath(udts, path)
  {
    forall k | 0 <= k < |path| - 1
      ensures Embeds(udts, path[k], path[k + 1])
    {
      assert (path + [i])[k] == path[k] && (path + [i])[k + 1] == path[k + 1];
    }
  }

  lemma PathExtends(udts: Udts, path: seq<int>, n: nat)
    requires path != [] && path[|path| - 1] in udts && IsPath(udts, path)
    requires n < |udts[path[|path| - 1]]| && udts[path[|path| - 1]][n].fieldType.Embedded?
    ensures IsPath(udts, path + [udts[path[|path| - 1]][n].fieldType.index])
  {
    assert Embeds(udts, path[|path| - 1], udts[path[|path| - 1]][n].fieldType.index);
  }

  lemma OrderCoversTypes(udts: Udts, order: seq<int>, types: map<int, seq<Member>>)
    requires BuiltInOrder(udts, order, types) && (forall i :: i in udts ==> i in order)
    ensures types.Keys == udts.Keys && IsResult(udts, types)
  {
    forall i
      ensures i in types <==> i in udts
    {
      if i in types || i in udts {
        var k := Position(order, i);
        assert order[k] in types && order[k] in udts;
      }
    }
  }

  lemma PathOfOne(udts: Udts, i: int)
    ensures IsPath(udts, [] + [i])
  {
  }

  lemma FieldIsDeclared(udts: Udts, i: int, n: nat)
    requires AllDeclared(udts) && i in udts && n < |udts[i]|
    ensures Declared(udts[i])
  {
  }

  lemma FieldFails(udts: Udts, path: seq<int>, n: nat)
    requires path != [] && IsPath(udts, path) && path[|path| - 1] in udts && n < |udts[path[|path| - 1]]|
    ensures var t := udts[path[|path| - 1]][n].fieldType;
            && (t.Unsized? ==> FailsBeyond(udts, path, UnknownSize))
            && (t.Embedded? && t.index !in udts ==> FailsBeyond(udts, path, MissingUdt))
  {
    hide IsPath;
    var t := udts[path[|path| - 1]][n].fieldType;
    if t.Unsized? {
      assert Fails(udts, path, UnknownSize);
    } else if t.Embedded? && t.index !in udts {
      assert Fails(udts, path, MissingUdt);
    }
  }

  lemma EmptyFails(udts: Udts, path: seq<int>)
    requires path != [] && IsPath(udts, path) && path[|path| - 1] in udts && udts[path[|path| - 1]] == []
    ensures FailsBeyond(udts, path, ZeroSize)
  {
    assert Fails(udts, path, ZeroSize);
  }

  lemma StartsEmpty(fields: seq<UdtField>, types: map<int, seq<Member>>)
    requires fields == []
    ensures MembersMatch(fields, types, []) && ValidMembers([]) && Build([]) == []
  {
  }

  lemma BuildAppends(ms: seq<Member>, m: Member)
    requires ValidMembers(ms) && ValidMember(m) && ValidMembers(ms + [m])
    ensures Build(ms + [m]) == AddedNaturally(Build(ms), [Ident(m.name)], m.dataType, m.init)
  {
    assert (ms + [m])[..|ms|] == ms;
  }

  /** Entering a UDT that is being built closes a cycle. */
  lemma PathCloses(udts: Udts, path: seq<int>, i: int)
    requires IsPath(udts, path + [i]) && i in path
    ensures FailsBeyond(udts, path + [i], StructRecursion)
  {
    assert (path + [i])[..|path|] == path;
    assert Fails(udts, path + [i], StructRecursion);
  }

  lemma MatchGrows(fields: seq<UdtField>, a: map<int, seq<Member>>, b: map<int, seq<Member>>, ms: seq<Member>)
    requires MembersMatch(fields, a, ms) && Grown(a, b)
    ensures MembersMatch(fields, b, ms)
  {
  }

  lemma AppendMember(fields: seq<UdtField>, types: map<int, seq<Member>>, ms: seq<Member>, n: nat, m: Member)
    requires n < |fields| && |ms| == n && Declared(fields) && MembersMatch(fields[..n], types, ms) && ValidMembers(ms)
    requires fields[n].fieldType.Plain? || fields[n].fieldType.Embedded?
    requires fields[n].fieldType.Embedded? ==>
               var j := fields[n].fieldType.index;
               j in types && types[j] != [] && ValidMembers(types[j])
    requires m == Member(fields[n].name, MemberType(types, fields[n].fieldType), fields[n].init)
    ensures ValidMember(m) && ValidMembers(ms + [m]) && MembersMatch(fields[..n + 1], types, ms + [m])
  {
    forall k | 0 <= k < n
      ensures ms[k].name != m.name
    {
      assert ms[k].name == fields[..n][k].name;
    }
  }

  lemma NonEmptyHasSize(ms: seq<Member>)
    requires ValidMembers(ms)
    ensures StructSize(Build(ms)) == 0 <==> ms == []
  {
    if ms != [] {
      PrefixIsValid(ms);
      var last, before := ms[|ms| - 1], Build(ms[..|ms| - 1]);
      BuildIsLaid(ms[..|ms| - 1]);
      var p := Padded(before, Padding(before, NaturalAlignment(last.dataType)));
      PaddedKeepsLaid(before, Padding(before, NaturalAlignment(last.dataType)));
      assert Build(ms) == AddedNaturally(before, [Ident(last.name)], last.dataType, last.init);
      AddedHasSize(p, [Ident(last.name)], last.dataType, last.init);
    }
  }

  /** Every variable takes space. */
  lemma {:induction false} AddedHasSize(fs: seq<Field>, name: Name, dt: DataType, init: Option<seq<byte>>)
    requires ValidType(dt) && InitFits(dt, init) && Laid(fs)
    ensures UnalignedSize(Added(fs, name, dt, init)) > 0
    decreases dt, 1
  {
    hide Laid;
    match dt
    case Basic(b) =>
      NextOffsetIsFree(fs, b);
    case Str(len) =>
      StringFieldsAreLaid(len);
      MergedKeepsLaid(fs, StringFields(len), name, Width(dt), dt, init);
    case Struct(ms) =>
      BuildIsLaid(ms);
      MergedKeepsLaid(fs, Build(ms), name, Width(dt), dt, init);
      MembersHaveSize(ms);
    case Array(dims, e) => ArrayHasSize(fs, name, dims, e, init);
  }

  /** An array takes at least the space of its first element. */
  lemma {:induction false} ArrayHasSize(fs: seq<Field>, name: Name, dims: seq<Dim>, e: DataType,
                                        init: Option<seq<byte>>)
    requires ValidType(Array(dims, e)) && InitFits(Array(dims, e), init) && Laid(fs)
    ensures UnalignedSize(Added(fs, name, Array(dims, e), init)) > 0
    decreases Array(dims, e), 0
  {
    var dt := Array(dims, e);
    var w := fs + [Marker(fs, name, Width(dt), dt, None)];
    assert ValidType(e) && !e.Array? && ValidDims(dims) && (init.Some? ==> !e.Struct?) && NrElements(dims) >= 1;
    hide *;
    ArrayIsElements(fs, name, dims, e, init);
    MarkerKeepsLaid(fs, name, Width(dt), dt, None);
    ElementHasSize(w, name, dims, e, init);
    ElementsGrow(w, name, dims, e, init, 1, NrElements(dims));
    ElementsKeepLaid(w, name, dims, e, init, NrElements(dims));
    GuardKeepsLaid(Elements(w, name, dims, e, init, NrElements(dims)));
  }

  lemma {:induction false} ElementHasSize(fs: seq<Field>, name: Name, dims: seq<Dim>, e: DataType,
                                          init: Option<seq<byte>>)
    requires ValidDims(dims) && ValidType(e) && !e.Array? && (init.Some? ==> !e.Struct?) && Laid(fs)
    ensures UnalignedSize(Elements(fs, name, dims, e, init, 1)) > 0
    decreases e, 2
  {
    var step := name + [Index(Expand(dims, 0))];
    ElemInitFits(init, e, 0);
    assert Elements(fs, name, dims, e, init, 0) == fs;
    assert ElementAdded(fs, name, dims, e, init, 0) == Added(fs, step, e, ElemInit(init, e, 0));
    hide *;
    NextElement(fs, name, dims, e, init, 0);
    AddedHasSize(fs, step, e, ElemInit(init, e, 0));
    ElementAddedKeepsLaid(fs, name, dims, e, init, 0);
    PaddedKeepsLaid(ElementAdded(fs, name, dims, e, init, 0), ElementPadding(e));
  }

  lemma {:induction false} MembersHaveSize(ms: seq<Member>)
    requires ValidMembers(ms) && ms != []
    ensures UnalignedSize(Build(ms)) > 0
    decreases ms
  {
    PrefixIsValid(ms);
    var last, before := ms[|ms| - 1], Build(ms[..|ms| - 1]);
    BuildIsLaid(ms[..|ms| - 1]);
    PaddedKeepsLaid(before, Padding(before, NaturalAlignment(last.dataType)));
    assert Build(ms) == AddedNaturally(before, [Ident(last.name)], last.dataType, last.init);
    AddedHasSize(Padded(before, Padding(before, NaturalAlignment(last.dataType))), [Ident(last.name)], last.dataType,
                 last.init);
  }

  lemma {:induction false} ElementsGrow(fs: seq<Field>, name: Name, dims: seq<Dim>, elem: DataType,
                     init: Option<seq<byte>>, k: nat, n: nat)
    requires ValidDims(dims) && ValidType(elem) && !elem.Array? && (init.Some? ==> !elem.Struct?)
    requires Laid(fs) && k <= n
    ensures UnalignedSize(Elements(fs, name, dims, elem, init, k)) <= UnalignedSize(Elements(fs, name, dims, elem,
            init, n))
    decreases n
  {
    hide Laid, Added, Padded;
    if k < n {
      ElementsGrow(fs, name, dims, elem, init, k, n - 1);
      ElementsKeepLaid(fs, name, dims, elem, init, n - 1);
      var before := Elements(fs, name, dims, elem, init, n - 1);
      ElementAddedKeepsLaid(before, name, dims, elem, init, n - 1);
      PaddedKeepsLaid(ElementAdded(before, name, dims, elem, init, n - 1), ElementPadding(elem));
    }
  }

  lemma FinishOrder(udts: Udts, order: seq<int>, types: map<int, seq<Member>>, i: int, members: seq<Member>)
    requires BuiltInOrder(udts, order, types) && i in udts && i !in types
    requires members != [] && ValidMembers(members) && MembersMatch(udts[i], types, members)
    ensures BuiltInOrder(udts, order + [i], types[i := members])
  {
    var order', types' := order + [i], types[i := members];
    forall k | 0 <= k < |order'|
      ensures Complete(udts, order', k, types')
    {
      if k < |order| {
        assert Complete(udts, order, k, types);
        assert order[k] in types && order[k] != i;
        MatchGrows(udts[order[k]], types, types', types[order[k]]);
        assert order'[..k] == order[..k];
      } else {
        MatchGrows(udts[i], types, types', members);
        assert order'[..k] == order;
        forall j | Embeds(udts, i, j)
          ensures j in order
        {
        }
      }
    }
  }

  // ----- a complete build order

  /** Where a UDT is first listed. */
  ghost function Position(order: seq<int>, i: int): (k: nat)
    requires i in order
    ensures k < |order| && order[k] == i && forall m :: 0 <= m < k ==> order[m] != i
  {
    if order[0] == i then 0 else 1 + Position(order[1..], i)
  }

  lemma EmbedsEarlier(udts: Udts, order: seq<int>, types: map<int, seq<Member>>, i: int, j: int)
    requires BuiltInOrder(udts, order, types) && i in order && Embeds(udts, i, j)
    ensures j in order && Position(order, j) < Position(order, i)
  {
    var k := Position(order, i);
    assert Complete(udts, order, k, types);
    assert j in order[..k];
    var m :| 0 <= m < k && order[m] == j;
  }

  lemma {:induction false} PathGoesDown(udts: Udts, order: seq<int>, types: map<int, seq<Member>>, p: seq<int>, k: nat)
    requires BuiltInOrder(udts, order, types) && IsPath(udts, p) && k < |p| && p[0] in order
    ensures p[k] in order && (k > 0 ==> Position(order, p[k]) < Position(order, p[0]))
    decreases k
  {
    if k > 0 {
      PathGoesDown(udts, order, types, p, k - 1);
      EmbedsEarlier(udts, order, types, p[k - 1], p[k]);
    }
  }

  /** From a UDT that was built, no path leads to a reason for a failure. */
  lemma BuiltDoesNotFail(udts: Udts, order: seq<int>, types: map<int, seq<Member>>, i: int)
    requires BuiltInOrder(udts, order, types) && i in order
    ensures forall p, e :: p != [] && p[0] == i ==> !Fails(udts, p, e)
  {
    hide IsPath;
    forall p, e | p != [] && p[0] == i && Fails(udts, p, e)
      ensures false
    {
      PathGoesDown(udts, order, types, p, |p| - 1);
      var j := p[|p| - 1];
      assert Complete(udts, order, Position(order, j), types);
      if e.StructRecursion? || e.Recursion? {
        var k :| 0 <= k < |p| - 1 && p[..|p| - 1][k] == j;
        PathTail(udts, p, k);
        PathGoesDown(udts, order, types, p, k);
        PathGoesDown(udts, order, types, p[k..], |p| - 1 - k);
      }
    }
  }

  lemma PathTail(udts: Udts, p: seq<int>, k: nat)
    requires IsPath(udts, p) && k < |p|
    ensures IsPath(udts, p[k..])
  {
    forall m | 0 <= m < |p| - k - 1
      ensures Embeds(udts, p[k..][m], p[k..][m + 1])
    {
      assert Embeds(udts, p[k + m], p[k + m + 1]);
    }
  }

  /** If every UDT was built, none was malformed and no embedding path closes. */
  lemma BuiltIsBuildable(udts: Udts, order: seq<int>, types: map<int, seq<Member>>)
    requires BuiltInOrder(udts, order, types) && (forall i :: i in udts ==> i in order)
    ensures Buildable(udts)
  {
    forall i | i in udts
      ensures !Malformed(udts, i)
    {
      var k := Position(order, i);
      assert Complete(udts, order, k, types);
      forall j | Embeds(udts, i, j)
        ensures j in udts
      {
        EmbedsEarlier(udts, order, types, i, j);
      }
    }
    forall p | IsCycle(udts, p)
      ensures false
    {
      assert Embeds(udts, p[0], p[1]);
      PathGoesDown(udts, order, types, p, |p| - 1);
    }
  }

  // ----- the order does not matter

  ghost predicate IsResult(udts: Udts, types: map<int, seq<Member>>) {
    types.Keys == udts.Keys && exists order :: BuiltInOrder(udts, order, types)
  }

  /** Two complete builds give every UDT the same type, and so the same structure. */
  lemma ResultIsUnique(udts: Udts, t1: map<int, seq<Member>>, t2: map<int, seq<Member>>)
    requires IsResult(udts, t1) && IsResult(udts, t2)
    ensures t1 == t2
  {
    var o1 :| BuiltInOrder(udts, o1, t1);
    var o2 :| BuiltInOrder(udts, o2, t2);
    forall i | i in udts
      ensures t1[i] == t2[i]
    {
      SameType(udts, o1, t1, o2, t2, i);
    }
  }

  lemma {:induction false} SameType(udts: Udts, o1: seq<int>, t1: map<int, seq<Member>>, o2: seq<int>,
                 t2: map<int, seq<Member>>, i: int)
    requires BuiltInOrder(udts, o1, t1) && BuiltInOrder(udts, o2, t2) && i in o1 && i in o2
    ensures i in t1 && i in t2 && t1[i] == t2[i]
    decreases Position(o1, i)
  {
    assert Complete(udts, o1, Position(o1, i), t1) && Complete(udts, o2, Position(o2, i), t2);
    forall k | 0 <= k < |udts[i]|
      ensures t1[i][k] == t2[i][k]
    {
      if udts[i][k].fieldType.Embedded? {
        var j := udts[i][k].fieldType.index;
        assert Embeds(udts, i, j);
        EmbedsEarlier(udts, o1, t1, i, j);
        EmbedsEarlier(udts, o2, t2, i, j);
        SameType(udts, o1, t1, o2, t2, j);
      }
    }
  }
}
