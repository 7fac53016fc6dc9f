/**
 The bytes of payloads: the fields of every message in their order, each in its width.
 */
module PayloadBytes {
  import opened Bytes
  import opened Wire
  import opened Lists
  import opened Parts
  import opened Messages
  import opened WireBytes

  /** A byte string or a text behind its length. */
  function Counted(b: seq<byte>): seq<byte> {
    DWord(|b|) + b
  }

  lemma TextBytes(t: Text)
    requires PackString(t).Ok?
    ensures PackString(t).value == Counted(t)
  {
    StringBytes(t);
    hide PackBytes, Utf8;
  }

  lemma SourceBytes(s: Source)
    requires PackSource(s).Ok?
    ensures PackSource(s).value == Counted(s.name) + Counted(s.filepath) + Counted(s.blob)
  {
    hide PackString, PackBytes, DWord;
    TextBytes(s.name);
    TextBytes(s.filepath);
    StringBytes(s.blob);
  }

  lemma PairBytes(p: Pair)
    requires PackPair(p).Ok?
    ensures PackPair(p).value == Counted(p.name) + Counted(p.value)
  {
    hide PackString, Counted;
    TextBytes(p.name);
    TextBytes(p.value);
  }

  lemma HwModBytes(h: HwMod)
    requires PackHwMod(h).Ok?
    ensures PackEach(PackPair, h.params).Ok?
    ensures PackHwMod(h).value
            == DWord(|h.params|) + [0, 0, 0, 0] + Counted(h.name) + PackEach(PackPair, h.params).value
  {
    hide PackString, PackStruct, PackEach, Counted;
    TextBytes(h.name);
    TwoValues(I, I, |h.params|, 0);
    assert DWord(0) == [0, 0, 0, 0];
    hide DWord;
  }

  lemma LibSelBytes(s: LibSel)
    requires PackLibSel(s).Ok?
    ensures PackLibSel(s).value
            == Counted(s.name) + (Word(s.entryType) + DWord(s.entryIndex) + DWord(s.effectiveIndex))
  {
    hide PackString, PackStruct, Counted, Word, DWord;
    TextBytes(s.name);
    ThreeValues(H, SignedI, SignedI, s.entryType, s.entryIndex, s.effectiveIndex);
  }

  lemma ThreeValues(c1: Code, c2: Code, c3: Code, v1: int, v2: int, v3: int)
    ensures var p := PackStruct([c1, c2, c3], [v1, v2, v3]);
            && (p.Ok? <==> Fits(c1, v1) && Fits(c2, v2) && Fits(c3, v3))
            && (p.Ok? ==> p.value == OnWire(c1, v1) + OnWire(c2, v2) + OnWire(c3, v3))
  {
    hide PackStruct, Fits, OnWire;
    TwoValues(c1, c2, v1, v2);
    OneMore([c1, c2], c3, [v1, v2], v3);
    assert [c1, c2] + [c3] == [c1, c2, c3] && [v1, v2] + [v3] == [v1, v2, v3];
  }

  lemma OneValue(c: Code, v: int)
    ensures PackStruct([c], [v]).Ok? <==> Fits(c, v)
    ensures PackStruct([c], [v]).Ok? ==> PackStruct([c], [v]).value == OnWire(c, v)
  {
    assert PackStruct([], []) == Ok([]);
    hide PackStruct, Fits, OnWire;
    OneMore([], c, [], v);
    assert [] + [c] == [c] && [] + [v] == [v] && [] + OnWire(c, v) == OnWire(c, v);
  }

  /** A record in two parts. */
  lemma {:induction false} TwoRecords(a: seq<Code>, b: seq<Code>, vs: seq<int>, ws: seq<int>)
    requires |a| == |vs| && |b| == |ws|
    ensures var all := PackStruct(a + b, vs + ws);
            && (all.Ok? <==> PackStruct(a, vs).Ok? && PackStruct(b, ws).Ok?)
            && (all.Ok? ==> all.value == PackStruct(a, vs).value + PackStruct(b, ws).value)
    decreases |b|
  {
    hide BigEndian;
    if b == [] {
      assert a + b == a && vs + ws == vs;
    } else {
      var c, v, front, back := b[|b| - 1], ws[|b| - 1], b[..|b| - 1], ws[..|b| - 1];
      assert a + b == a + front + [c] && vs + ws == vs + back + [v] && b == front + [c] && ws == back + [v];
      hide PackStruct;
      TwoRecords(a, front, vs, back);
      OneMore(a + front, c, vs + back, v);
      OneMore(front, c, back, v);
    }
  }

  // ----- whole payloads

  /** The state of an instruction: two double words, two words, six double words and two words. */
  function InsnStateBytes(vs: seq<int>): seq<byte>
    requires |vs| == 12
  {
    DWord(vs[0]) + DWord(vs[1]) + Word(vs[2]) + Word(vs[3])
    + (DWord(vs[4]) + DWord(vs[5]) + DWord(vs[6]) + DWord(vs[7]))
    + (DWord(vs[8]) + DWord(vs[9]) + Word(vs[10]) + Word(vs[11]))
  }

  lemma {:induction false} RecordLength(codes: seq<Code>, vs: seq<int>)
    requires PackStruct(codes, vs).Ok?
    ensures |vs| == |codes|
  {
    if codes != [] && vs != [] {
      RecordLength(codes[1..], vs[1..]);
    }
  }

  lemma FourOf(c1: Code, c2: Code, c3: Code, c4: Code, vs: seq<int>)
    requires |vs| == 4
    ensures var p := PackStruct([c1, c2, c3, c4], vs);
            p.Ok? ==> p.value == OnWire(c1, vs[0]) + OnWire(c2, vs[1]) + OnWire(c3, vs[2]) + OnWire(c4, vs[3])
  {
    hide PackStruct, OnWire, Fits;
    assert vs == [vs[0], vs[1], vs[2], vs[3]];
    FourValues(c1, c2, c3, c4, vs[0], vs[1], vs[2], vs[3]);
  }

  lemma InsnStateIsPacked(vs: seq<int>)
    requires PackStruct(INSNSTATE_FORMAT, vs).Ok?
    ensures |vs| == 12 && PackStruct(INSNSTATE_FORMAT, vs).value == InsnStateBytes(vs)
  {
    hide PackStruct, Word, DWord;
    RecordLength(INSNSTATE_FORMAT, vs);
    InThreeRecords(vs);
    FourOf(I, I, H, H, vs[..4]);
    FourOf(I, I, I, I, vs[4..8]);
    FourOf(I, I, H, H, vs[8..]);
  }

  lemma InThreeRecords(vs: seq<int>)
    requires |vs| == 12 && PackStruct(INSNSTATE_FORMAT, vs).Ok?
    ensures PackStruct([I, I, H, H], vs[..4]).Ok? && PackStruct([I, I, I, I], vs[4..8]).Ok?
    ensures PackStruct([I, I, H, H], vs[8..]).Ok?
    ensures PackStruct(INSNSTATE_FORMAT, vs).value
            == PackStruct([I, I, H, H], vs[..4]).value + PackStruct([I, I, I, I], vs[4..8]).value
               + PackStruct([I, I, H, H], vs[8..]).value
  {
    hide PackStruct;
    assert INSNSTATE_FORMAT == [I, I, H, H] + [I, I, I, I] + [I, I, H, H];
    assert vs == vs[..4] + vs[4..8] + vs[8..];
    TwoRecords([I, I, H, H] + [I, I, I, I], [I, I, H, H], vs[..4] + vs[4..8], vs[8..]);
    TwoRecords([I, I, H, H], [I, I, I, I], vs[..4], vs[4..8]);
  }

  lemma IdentsBytes(m: Message)
    requires m.Idents? && PackIdents(m).Ok?
    ensures PackEach(PackSource, m.awlSources).Ok? && PackEach(PackSource, m.symTabSources).Ok?
    ensures PackEach(PackHwMod, m.hwMods).Ok? && PackEach(PackLibSel, m.libSels).Ok?
    ensures PackIdents(m).value
            == DWord(|m.awlSources|) + DWord(|m.symTabSources|) + DWord(|m.hwMods|) + DWord(|m.libSels|)
               + [0, 0, 0, 0, 0, 0, 0, 0]
               + PackEach(PackSource, m.awlSources).value + PackEach(PackSource, m.symTabSources).value
               + PackEach(PackHwMod, m.hwMods).value + PackEach(PackLibSel, m.libSels).value
  {
    hide PackEach, PackStruct;
    IdentsHead(|m.awlSources|, |m.symTabSources|, |m.hwMods|, |m.libSels|);
    hide DWord;
  }

  lemma IdentsHead(a: nat, b: nat, c: nat, d: nat)
    ensures var p := PackStruct(IDENTS_FORMAT, [a, b, c, d, 0, 0]);
            p.Ok? ==> p.value == DWord(a) + DWord(b) + DWord(c) + DWord(d) + [0, 0, 0, 0, 0, 0, 0, 0]
  {
    hide PackStruct;
    assert DWord(0) + DWord(0) == [0, 0, 0, 0, 0, 0, 0, 0];
    hide DWord;
    FourValues(I, I, I, I, a, b, c, d);
    TwoValues(I, I, 0, 0);
    TwoRecords([I, I, I, I], [I, I], [a, b, c, d], [0, 0]);
    assert [I, I, I, I] + [I, I] == IDENTS_FORMAT && [a, b, c, d] + [0, 0] == [a, b, c, d, 0, 0];
  }

  /** CPU specs are 32 double words, of which the first nine are used; no clock memory byte is FF FF FF FF. */
  lemma SpecsBytes(s: Specs, i: nat)
    requires PackSpecs(s).Ok? && i < 32
    ensures |PackSpecs(s).value| == 128
    ensures PackSpecs(s).value[4 * i..4 * i + 4]
            == DWord(match i
                     case 0 => s.mnemonics
                     case 1 => s.nrAccus
                     case 2 => s.nrTimers
                     case 3 => s.nrCounters
                     case 4 => s.nrFlags
                     case 5 => s.nrInputs
                     case 6 => s.nrOutputs
                     case 7 => s.nrLocalbytes
                     case 8 => s.clockMemByte % 0x1_0000_0000
                     case _ => 0)
  {
    hide PackStruct, DWord;
    DoubleWordAt(SpecsFormat(), SpecValues(s), i);
  }

  lemma {:induction false} DoubleWordAt(codes: seq<Code>, vs: seq<int>, i: nat)
    requires PackStruct(codes, vs).Ok? && i < |codes| && forall k :: 0 <= k < |codes| ==> codes[k] == I
    ensures |vs| == |codes|
    ensures var p := PackStruct(codes, vs).value; |p| == 4 * |codes| && p[4 * i..4 * i + 4] == DWord(vs[i])
    decreases |codes|
  {
    RecordLength(codes, vs);
    DoubleWords(codes, vs);
    Encoded(vs[0]);
    hide BigEndian, DWord;
    var p, rest := PackStruct(codes, vs).value, PackStruct(codes[1..], vs[1..]).value;
    assert p == BigEndian(vs[0], 4) + rest;
    if i > 0 {
      DoubleWordAt(codes[1..], vs[1..], i - 1);
      assert p[4 * i..4 * i + 4] == rest[4 * (i - 1)..4 * (i - 1) + 4];
    }
  }

  lemma {:induction false} DoubleWords(codes: seq<Code>, vs: seq<int>)
    requires PackStruct(codes, vs).Ok? && forall k :: 0 <= k < |codes| ==> codes[k] == I
    ensures |PackStruct(codes, vs).value| == 4 * |codes|
    decreases |codes|
  {
    if codes != [] && vs != [] {
      DoubleWords(codes[1..], vs[1..]);
    }
  }

  /** What every message sends as its payload. */
  lemma PayloadBytes(m: Message)
    requires ToPayload(m).Ok?
    ensures var p := ToPayload(m).value;
            match m
            case Reply(id, nr, status) => p == Word(id) + Word(nr) + Word(status)
            case Exception(text, verboseText) => p == Counted(text) + Counted(verboseText)
            case MaintReq(requestType, msg) => p == Word(requestType) + Counted(msg)
            case AwlSrc(source) => PackSource(source) == Ok(p)
            case SymTabSrc(source) => PackSource(source) == Ok(p)
            case HwModule(h) =>
              PackEach(PackPair, h.params).Ok? && p == Counted(h.name) + PackEach(PackPair, h.params).value
            case LibSelection(s) => PackLibSel(s) == Ok(p)
            case GetIdents(flags) => p == DWord(flags) + DWord(0)
            case Idents(_, _, _, _) => PackIdents(m) == Ok(p)
            case Opt(name, value) => p == Counted(name) + Counted(value)
            case CpuSpecs(specs) => PackSpecs(specs) == Ok(p)
            case RunState(n) => p == Word(n)
            case CpuDump(text) => p == Counted(text)
            case ReqMemory(flags, factor, areas) =>
              PackEach(PackArea, areas).Ok? && p == DWord(flags) + DWord(factor) + PackEach(PackArea, areas).value
            case Memory(flags, memAreas) =>
              PackEach(PackMemArea, memAreas).Ok? && p == DWord(flags) + PackEach(PackMemArea, memAreas).value
            case InsnState(id, vs) => |vs| == 12 && p == InsnStateBytes(vs) + Counted(id)
            case InsnStateConfig(flags, id, from, to) => p == DWord(flags) + DWord(from) + DWord(to) + Counted(id)
            case _ => p == []
  {
    hide PackStruct, PackString, PackBytes, PackEach, PackSource, PackLibSel, PackSpecs, PackIdents, Word, DWord,
      InsnStateBytes, Counted;
    match m {
      case Reply(id, nr, status) => ThreeValues(H, H, H, id, nr, status);
      case Exception(text, verboseText) =>
        TextBytes(text);
        TextBytes(verboseText);
      case MaintReq(requestType, msg) =>
        OneValue(H, requestType);
        TextBytes(msg);
      case HwModule(h) => TextBytes(h.name);
      case GetIdents(flags) => TwoValues(I, I, flags, 0);
      case Opt(name, value) =>
        TextBytes(name);
        TextBytes(value);
      case RunState(n) => OneValue(H, n);
      case CpuDump(text) => TextBytes(text);
      case ReqMemory(flags, factor, areas) => TwoValues(I, I, flags, factor);
      case Memory(flags, memAreas) => OneValue(I, flags);
      case InsnState(id, vs) =>
        InsnStateIsPacked(vs);
        BlobBytes(id);
      case InsnStateConfig(flags, id, from, to) =>
        ThreeValues(I, I, I, flags, from, to);
        BlobBytes(id);
      case _ =>
    }
  }

  lemma BlobBytes(b: seq<byte>)
    requires PackBytes(b).Ok?
    ensures PackBytes(b).value == Counted(b)
  {
    StringBytes(b);
    hide PackBytes;
  }
}
