/**
 The composite parts of message payloads: sources, parameter pairs, hardware modules,
 library selections and memory areas, each with its packing and unpacking.
 */
module Parts {
  import opened Bytes
  import opened Wire
  import opened Lists

  /** A text is given by its UTF-8 bytes. */
  type Text = seq<byte>

  datatype Source = Source(name: Text, filepath: Text, blob: seq<byte>)

  datatype Pair = Pair(name: Text, value: Text)

  predicate DistinctNames(ps: seq<Pair>) {
    forall i, j :: 0 <= i < j < |ps| ==> ps[i].name != ps[j].name
  }

  /** A dictionary from names to values, in the order of insertion; its names are distinct. */
  type Params = seq<Pair>

  datatype Module = Module(name: Text, params: Params)

  type HwMod = h: Module | DistinctNames(h.params) witness Module([], [])

  datatype LibEntry = LibEntry(name: Text, entryType: int, entryIndex: int, effectiveIndex: int)

  /** A library selection object accepts these values only, and strips white space from the name. */
  type LibSel = s: LibEntry | ValidLibEntry(s) witness LibEntry([], 0, -1, -1)

  datatype Area = Area(memType: int, flags: int, index: int, start: int, length: int)

  datatype MemArea = MemArea(area: Area, data: seq<byte>)

  // ----- dictionaries

  /** `d[p.name] = p.value`: an existing entry keeps its place. */
  function Put(d: Params, p: Pair): (r: Params)
    ensures DistinctNames(d) ==> DistinctNames(r)
  {
    if exists i :: 0 <= i < |d| && d[i].name == p.name then
      var r := seq(|d|, i requires 0 <= i < |d| => if d[i].name == p.name then p else d[i]);
      assert forall i :: 0 <= i < |d| ==> r[i].name == d[i].name;
      r
    else d + [p]
  }

  /** The dictionary after all pairs were put into an empty one. */
  function DictOf(ps: seq<Pair>): (d: Params)
    ensures DistinctNames(d)
  {
    if ps == [] then [] else Put(DictOf(ps[..|ps| - 1]), ps[|ps| - 1])
  }

  /** The pairs of a dictionary make up that dictionary again. */
  lemma {:induction false} DictOfParams(d: Params)
    requires DistinctNames(d)
    ensures DictOf(d) == d
    decreases |d|
  {
    if d != [] {
      DictOfParams(d[..|d| - 1]);
    }
  }

  /** What is put in is found, and nothing else changes. */
  lemma PutIsFound(d: Params, p: Pair)
    ensures p in Put(d, p)
    ensures forall q :: q in Put(d, p) && q != p ==> q in d && q.name != p.name
    ensures forall q :: q in d && q.name != p.name ==> q in Put(d, p)
  {
    var r := Put(d, p);
    if i :| 0 <= i < |d| && d[i].name == p.name {
      assert r[i] == p;
    }
    forall q | q in d && q.name != p.name
      ensures q in r
    {
      var i :| 0 <= i < |d| && d[i] == q;
      assert r[i] == q;
    }
  }

  /** Pair `i` is the last one of its name. */
  predicate LastAt(ps: seq<Pair>, q: Pair, i: nat)
    requires i < |ps|
  {
    ps[i] == q && forall j :: i < j < |ps| ==> ps[j].name != q.name
  }

  ghost predicate GivenLast(ps: seq<Pair>, q: Pair) {
    exists i :: 0 <= i < |ps| && LastAt(ps, q, i)
  }

  lemma GivenLastNext(ps: seq<Pair>, q: Pair)
    requires ps != []
    ensures var last := ps[|ps| - 1];
            GivenLast(ps, q) <==> q == last || (q.name != last.name && GivenLast(ps[..|ps| - 1], q))
  {
    var front, last := ps[..|ps| - 1], ps[|ps| - 1];
    assert q == last ==> LastAt(ps, q, |ps| - 1);
    if i :| q.name != last.name && 0 <= i < |front| && LastAt(front, q, i) {
      assert LastAt(ps, q, i);
    }
    if i :| 0 <= i < |ps| && LastAt(ps, q, i) {
      assert i < |front| ==> LastAt(front, q, i);
    }
  }

  /** A dictionary holds, for each name that is given, the last value that is given for it, and nothing else. */
  lemma {:induction false} DictHoldsLast(ps: seq<Pair>, q: Pair)
    ensures q in DictOf(ps) <==> GivenLast(ps, q)
    decreases |ps|
  {
    if ps != [] {
      hide Put, GivenLast;
      DictHoldsLast(ps[..|ps| - 1], q);
      PutIsFound(DictOf(ps[..|ps| - 1]), ps[|ps| - 1]);
      GivenLastNext(ps, q);
    }
  }

  // ----- library selections

  predicate White(c: byte) {
    c == 0x20 || 0x09 <= c <= 0x0D || 0x1C <= c <= 0x1F
  }

  /** Remove white space at both ends. */
  function Strip(s: Text): (r: Text)
    ensures Stripped(r)
    decreases |s|
  {
    if s == [] then s
    else if White(s[0]) then Strip(s[1..])
    else if White(s[|s| - 1]) then Strip(s[..|s| - 1])
    else s
  }

  predicate Stripped(s: Text) {
    s == [] || (!White(s[0]) && !White(s[|s| - 1]))
  }

  predicate ValidLibEntry(s: LibEntry) {
    && Stripped(s.name) && s.entryType in {0, 1, 2}
    && -1 <= s.entryIndex <= 0xFFFF && -1 <= s.effectiveIndex <= 0xFFFF
  }

  const LIBSEL_FORMAT := [H, SignedI, SignedI]

  function PackLibSel(s: LibSel): Result<seq<byte>> {
    var name :- PackString(s.name);
    var rest :- PackStruct(LIBSEL_FORMAT, [s.entryType, s.entryIndex, s.effectiveIndex]);
    Ok(name + rest)
  }

  function UnpackLibSel(data: seq<byte>, offset: nat): Result<(LibSel, nat)> {
    var name :- UnpackString(data, offset);
    var vs :- UnpackFrom(LIBSEL_FORMAT, data, offset + name.1);
    var s := LibEntry(Strip(name.0), vs[0], vs[1], vs[2]);
    if ValidLibEntry(s) then Ok((s, name.1 + Size(LIBSEL_FORMAT))) else Err
  }

  // ----- strings and records of strings

  function PackPair(p: Pair): Result<seq<byte>> {
    var name :- PackString(p.name);
    var value :- PackString(p.value);
    Ok(name + value)
  }

  function UnpackPair(data: seq<byte>, offset: nat): Result<(Pair, nat)> {
    var name :- UnpackString(data, offset);
    var value :- UnpackString(data, offset + name.1);
    Ok((Pair(name.0, value.0), name.1 + value.1))
  }

  function PackSource(s: Source): Result<seq<byte>> {
    var name :- PackString(s.name);
    var filepath :- PackString(s.filepath);
    var blob :- PackBytes(s.blob);
    Ok(name + filepath + blob)
  }

  function UnpackSource(data: seq<byte>, offset: nat): Result<(Source, nat)> {
    var name :- UnpackString(data, offset);
    var filepath :- UnpackString(data, offset + name.1);
    var blob :- UnpackBytes(data, offset + name.1 + filepath.1);
    Ok((Source(name.0, filepath.0, blob.0), name.1 + filepath.1 + blob.1))
  }

  const MOD_FORMAT := [I, I]

  function PackHwMod(h: HwMod): Result<seq<byte>> {
    var head :- PackStruct(MOD_FORMAT, [|h.params|, 0]);
    var name :- PackString(h.name);
    var params :- PackEach(PackPair, h.params);
    Ok(head + name + params)
  }

  /** A given number of parameters, put into a dictionary one after the other. */
  function UnpackParams(data: seq<byte>, offset: nat, n: nat): (r: Result<(Params, nat)>)
    ensures r.Ok? ==> DistinctNames(r.value.0)
  {
    var pairs :- UnpackN(UnpackPair, data, offset, n);
    Ok((DictOf(pairs.0), pairs.1))
  }

  function UnpackHwMod(data: seq<byte>, offset: nat): Result<(HwMod, nat)> {
    var head :- UnpackFrom(MOD_FORMAT, data, offset);
    var name :- UnpackString(data, offset + Size(MOD_FORMAT));
    var params :- UnpackParams(data, offset + Size(MOD_FORMAT) + name.1, head[0]);
    Ok((Module(name.0, params.0), Size(MOD_FORMAT) + name.1 + params.1))
  }

  // ----- memory areas

  const AREA_FORMAT := [B, B, H, I, I]
  const MEMAREA_FORMAT := [B, B, H, I, I, I]

  function PackArea(a: Area): Result<seq<byte>> {
    PackStruct(AREA_FORMAT, [a.memType, a.flags, a.index, a.start, a.length])
  }

  function UnpackArea(data: seq<byte>, offset: nat): Result<(Area, nat)> {
    var vs :- UnpackFrom(AREA_FORMAT, data, offset);
    Ok((Area(vs[0], vs[1], vs[2], vs[3], vs[4]), Size(AREA_FORMAT)))
  }

  function RoundUp4(n: nat): nat {
    (n + 3) / 4 * 4
  }

  /** The data is padded to a multiple of four bytes. */
  function PackMemArea(m: MemArea): Result<seq<byte>> {
    var head :- PackStruct(MEMAREA_FORMAT, [m.area.memType, m.area.flags, m.area.index, m.area.start, m.area.length,
                                            |m.data|]);
    Ok(head + m.data + Zeros(RoundUp4(|m.data|) - |m.data|))
  }

  /** The padding is skipped without looking at it; behind the last area it may be missing. */
  function UnpackMemArea(data: seq<byte>, offset: nat): Result<(MemArea, nat)> {
    var vs :- UnpackFrom(MEMAREA_FORMAT, data, offset);
    var from := offset + Size(MEMAREA_FORMAT);
    if from + vs[5] > |data| then Err
    else Ok((MemArea(Area(vs[0], vs[1], vs[2], vs[3], vs[4]), data[from..from + vs[5]]),
             Size(MEMAREA_FORMAT) + RoundUp4(vs[5])))
  }

  // ----- unpacking finds what was packed

  lemma StructAt(codes: seq<Code>, vs: seq<int>, data: seq<byte>, offset: nat)
    requires PackStruct(codes, vs).Ok? && At(data, offset, PackStruct(codes, vs).value)
    ensures UnpackFrom(codes, data, offset) == Ok(vs) && |PackStruct(codes, vs).value| == Size(codes)
  {
    UnpackFromIffAt(codes, data, offset, vs);
    UnpackOfPack(codes, vs);
  }

  lemma StringAt(text: Text, data: seq<byte>, offset: nat)
    requires PackString(text).Ok? && At(data, offset, PackString(text).value)
    ensures UnpackString(data, offset) == Ok((text, |PackString(text).value|))
  {
    UnpackStringIffAt(data, offset, text, |PackString(text).value|);
  }

  lemma BytesAt(b: seq<byte>, data: seq<byte>, offset: nat)
    requires PackBytes(b).Ok? && At(data, offset, PackBytes(b).value)
    ensures UnpackBytes(data, offset) == Ok((b, |PackBytes(b).value|))
  {
    UnpackBytesIffAt(data, offset, b, |PackBytes(b).value|);
  }

  lemma At3(data: seq<byte>, offset: nat, a: seq<byte>, b: seq<byte>, c: seq<byte>)
    requires At(data, offset, a + b + c)
    ensures At(data, offset, a) && At(data, offset + |a|, b) && At(data, offset + |a| + |b|, c)
  {
    hide At;
    AtSplit(data, offset, a + b, c);
    AtSplit(data, offset, a, b);
  }

  lemma LibSelAt(s: LibSel, data: seq<byte>, offset: nat)
    requires PackLibSel(s).Ok? && At(data, offset, PackLibSel(s).value)
    ensures UnpackLibSel(data, offset) == Ok((s, |PackLibSel(s).value|))
  {
    hide At, PackString, UnpackString, PackStruct, UnpackFrom, Size;
    var name, vs := PackString(s.name).value, [s.entryType, s.entryIndex, s.effectiveIndex];
    AtSplit(data, offset, name, PackStruct(LIBSEL_FORMAT, vs).value);
    StringAt(s.name, data, offset);
    StructAt(LIBSEL_FORMAT, vs, data, offset + |name|);
  }

  lemma PairAt(p: Pair, data: seq<byte>, offset: nat)
    requires PackPair(p).Ok? && At(data, offset, PackPair(p).value)
    ensures UnpackPair(data, offset) == Ok((p, |PackPair(p).value|))
  {
    hide At, PackString, UnpackString;
    AtSplit(data, offset, PackString(p.name).value, PackString(p.value).value);
    StringAt(p.name, data, offset);
    StringAt(p.value, data, offset + |PackString(p.name).value|);
  }

  lemma PairsAreInverse()
    ensures Inverse(PackPair, UnpackPair)
  {
    hide At, PackPair, UnpackPair;
    forall p, data, offset | PackPair(p).Ok? && At(data, offset, PackPair(p).value)
      ensures UnpackPair(data, offset) == Ok((p, |PackPair(p).value|))
    {
      PairAt(p, data, offset);
    }
  }

  lemma SourceAt(s: Source, data: seq<byte>, offset: nat)
    requires PackSource(s).Ok? && At(data, offset, PackSource(s).value)
    ensures UnpackSource(data, offset) == Ok((s, |PackSource(s).value|))
  {
    hide At, PackString, UnpackString, PackBytes, UnpackBytes;
    var name, filepath := PackString(s.name).value, PackString(s.filepath).value;
    At3(data, offset, name, filepath, PackBytes(s.blob).value);
    StringAt(s.name, data, offset);
    StringAt(s.filepath, data, offset + |name|);
    BytesAt(s.blob, data, offset + |name| + |filepath|);
  }

  /** The entries of a dictionary can be encoded in whatever order it holds them. */
  lemma HwModAt(h: HwMod, data: seq<byte>, offset: nat)
    requires PackHwMod(h).Ok? && At(data, offset, PackHwMod(h).value)
    ensures UnpackHwMod(data, offset) == Ok((h, |PackHwMod(h).value|))
  {
    hide At, PackString, UnpackString, PackStruct, UnpackFrom, Size, PackEach, UnpackN, PackPair, UnpackPair, DictOf;
    var head, name := PackStruct(MOD_FORMAT, [|h.params|, 0]).value, PackString(h.name).value;
    At3(data, offset, head, name, PackEach(PackPair, h.params).value);
    StructAt(MOD_FORMAT, [|h.params|, 0], data, offset);
    StringAt(h.name, data, offset + |head|);
    PairsAreInverse();
    UnpackNOfPackEach(PackPair, UnpackPair, data, offset + |head| + |name|, h.params);
    DictOfParams(h.params);
  }

  lemma AreaAt(a: Area, data: seq<byte>, offset: nat)
    requires PackArea(a).Ok? && At(data, offset, PackArea(a).value)
    ensures UnpackArea(data, offset) == Ok((a, |PackArea(a).value|))
  {
    hide At, PackStruct, UnpackFrom, Size;
    StructAt(AREA_FORMAT, [a.memType, a.flags, a.index, a.start, a.length], data, offset);
  }

  /** The part of a packed memory area in front of the padding. */
  function Unpadded(m: MemArea): seq<byte>
    requires PackMemArea(m).Ok?
  {
    MemAreaIsPadded(m);
    PackMemArea(m).value[..16 + |m.data|]
  }

  function HeadValues(m: MemArea): seq<int> {
    [m.area.memType, m.area.flags, m.area.index, m.area.start, m.area.length, |m.data|]
  }

  lemma UnpaddedParts(m: MemArea)
    requires PackMemArea(m).Ok?
    ensures var head := PackStruct(MEMAREA_FORMAT, HeadValues(m));
            head.Ok? && |head.value| == 16 == Size(MEMAREA_FORMAT) && Unpadded(m) == head.value + m.data
  {
    hide PackStruct, Size;
    MemAreaFormatSize();
    UnpackOfPack(MEMAREA_FORMAT, HeadValues(m));
  }

  lemma MemAreaAt(m: MemArea, data: seq<byte>, offset: nat)
    requires PackMemArea(m).Ok? && At(data, offset, Unpadded(m))
    ensures UnpackMemArea(data, offset) == Ok((m, |PackMemArea(m).value|))
  {
    UnpaddedParts(m);
    MemAreaIsPadded(m);
    hide PackStruct, UnpackFrom, Size, At, Unpadded, PackMemArea;
    var head := PackStruct(MEMAREA_FORMAT, HeadValues(m)).value;
    AtSplit(data, offset, head, m.data);
    StructAt(MEMAREA_FORMAT, HeadValues(m), data, offset);
    DataAt(m.data, data, offset + 16);
  }

  lemma UnpackedMemArea(m: MemArea, data: seq<byte>, offset: nat, count: nat)
    requires UnpackMemArea(data, offset) == Ok((m, count))
    ensures PackMemArea(m).Ok? && At(data, offset, Unpadded(m)) && count == |PackMemArea(m).value|
  {
    hide PackStruct, UnpackFrom, Size, At, Unpadded;
    assert UnpackFrom(MEMAREA_FORMAT, data, offset).value == HeadValues(m);
    UnpackFromIffAt(MEMAREA_FORMAT, data, offset, HeadValues(m));
    UnpaddedParts(m);
    MemAreaIsPadded(m);
    DataAt(m.data, data, offset + 16);
    AtSplit(data, offset, PackStruct(MEMAREA_FORMAT, HeadValues(m)).value, m.data);
  }

  /** The padding may be anything, and may be missing behind the last area; nothing else is unpacked. */
  lemma MemAreaIffAt(m: MemArea, data: seq<byte>, offset: nat, count: nat)
    ensures UnpackMemArea(data, offset) == Ok((m, count))
            <==> PackMemArea(m).Ok? && At(data, offset, Unpadded(m)) && count == |PackMemArea(m).value|
  {
    hide *;
    if PackMemArea(m).Ok? && At(data, offset, Unpadded(m)) {
      MemAreaAt(m, data, offset);
    }
    if UnpackMemArea(data, offset) == Ok((m, count)) {
      UnpackedMemArea(m, data, offset, count);
    }
  }

  lemma DataAt(b: seq<byte>, data: seq<byte>, from: nat)
    ensures At(data, from, b) <==> from + |b| <= |data| && data[from..from + |b|] == b
  {
  }

  lemma WholeIsUnpadded(m: MemArea, data: seq<byte>, offset: nat)
    requires PackMemArea(m).Ok? && At(data, offset, PackMemArea(m).value)
    ensures At(data, offset, Unpadded(m))
  {
    MemAreaIsPadded(m);
    hide PackStruct, PackMemArea;
    var p := PackMemArea(m).value;
    assert p == Unpadded(m) + p[16 + |m.data|..];
    AtSplit(data, offset, Unpadded(m), p[16 + |m.data|..]);
  }

  lemma SourcesAreInverse()
    ensures Inverse(PackSource, UnpackSource)
  {
    hide At, PackSource, UnpackSource;
    forall s, data, offset | PackSource(s).Ok? && At(data, offset, PackSource(s).value)
      ensures UnpackSource(data, offset) == Ok((s, |PackSource(s).value|))
    {
      SourceAt(s, data, offset);
    }
  }

  lemma LibSelsAreInverse()
    ensures Inverse(PackLibSel, UnpackLibSel)
  {
    hide At, PackLibSel, UnpackLibSel;
    forall s, data, offset | PackLibSel(s).Ok? && At(data, offset, PackLibSel(s).value)
      ensures UnpackLibSel(data, offset) == Ok((s, |PackLibSel(s).value|))
    {
      LibSelAt(s, data, offset);
    }
  }

  lemma AreasAreInverse()
    ensures Inverse(PackArea, UnpackArea)
  {
    hide At, PackArea, UnpackArea;
    forall a, data, offset | PackArea(a).Ok? && At(data, offset, PackArea(a).value)
      ensures UnpackArea(data, offset) == Ok((a, |PackArea(a).value|))
    {
      AreaAt(a, data, offset);
    }
  }

  lemma MemAreasAreInverse()
    ensures Inverse(PackMemArea, UnpackMemArea)
  {
    hide At, PackMemArea, UnpackMemArea;
    forall m, data, offset | PackMemArea(m).Ok? && At(data, offset, PackMemArea(m).value)
      ensures UnpackMemArea(data, offset) == Ok((m, |PackMemArea(m).value|))
    {
      WholeIsUnpadded(m, data, offset);
      MemAreaIffAt(m, data, offset, |PackMemArea(m).value|);
    }
  }

  /** The parts that fill a payload up to its end take up at least one byte each. */
  lemma RestsProgress()
    ensures Progresses(UnpackPair) && NeverEmpty(PackPair)
    ensures Progresses(UnpackArea) && NeverEmpty(PackArea)
    ensures Progresses(UnpackMemArea) && NeverEmpty(PackMemArea)
  {
    assert Size(AREA_FORMAT) > 0 && Size(MEMAREA_FORMAT) > 0;
    hide Utf8, Size, PackEach;
    forall a: Area | PackArea(a).Ok?
      ensures PackArea(a).value != []
    {
      UnpackOfPack(AREA_FORMAT, [a.memType, a.flags, a.index, a.start, a.length]);
    }
    forall m: MemArea | PackMemArea(m).Ok?
      ensures PackMemArea(m).value != []
    {
      UnpackOfPack(MEMAREA_FORMAT, [m.area.memType, m.area.flags, m.area.index, m.area.start, m.area.length, |m.data|]);
    }
  }

  lemma RoundedUp(n: nat)
    ensures n <= RoundUp4(n) && RoundUp4(n) % 4 == 0 && (16 + RoundUp4(n)) % 4 == 0
  {
  }

  lemma MemAreaFormatSize()
    ensures Size(MEMAREA_FORMAT) == 16
  {
    assert Size([I, I, I]) == 12;
  }

  /** A memory area takes up whole words of four bytes. */
  lemma MemAreaIsPadded(m: MemArea)
    requires PackMemArea(m).Ok?
    ensures |PackMemArea(m).value| == 16 + RoundUp4(|m.data|) && |PackMemArea(m).value| % 4 == 0
  {
    hide PackStruct, Size, RoundUp4;
    MemAreaFormatSize();
    RoundedUp(|m.data|);
    UnpackOfPack(MEMAREA_FORMAT, [m.area.memType, m.area.flags, m.area.index, m.area.start, m.area.length, |m.data|]);
  }

  /** So every memory area of a payload starts at a multiple of four bytes, as the first one does. */
  lemma {:induction false} MemAreasArePadded(memAreas: seq<MemArea>)
    requires PackEach(PackMemArea, memAreas).Ok?
    ensures |PackEach(PackMemArea, memAreas).value| % 4 == 0
    decreases |memAreas|
  {
    if memAreas != [] {
      hide PackMemArea;
      MemAreasArePadded(memAreas[..|memAreas| - 1]);
      MemAreaIsPadded(memAreas[|memAreas| - 1]);
    }
  }
}
