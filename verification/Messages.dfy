/**
 The messages of the core server (`AwlSimMessage_*`): payload encoding and decoding.
 */
module Messages {
  import opened Bytes
  import opened Wire
  import opened Lists
  import opened Parts

  datatype Specs = Specs(mnemonics: int, nrAccus: int, nrTimers: int, nrCounters: int, nrFlags: int, nrInputs: int,
                         nrOutputs: int, nrLocalbytes: int, clockMemByte: int)

  /** The setters of the CPU specs accept these values only. */
  predicate ValidSpecs(s: Specs) {
    s.mnemonics in {0, 1, 2} && s.nrAccus in {2, 4}
  }

  datatype Message =
    | Reply(inReplyToId: int, inReplyToSeq: int, status: int)
    | Exception(text: Text, verboseText: Text)
    | MaintReq(requestType: int, msg: Text)
    | Ping | Pong | Reset | Shutdown | GetCpuSpecs | GetRunState
    | AwlSrc(source: Source)
    | SymTabSrc(source: Source)
    | HwModule(hwMod: HwMod)
    | LibSelection(libSel: LibSel)
    | GetIdents(getFlags: int)
    | Idents(awlSources: seq<Source>, symTabSources: seq<Source>, hwMods: seq<HwMod>, libSels: seq<LibSel>)
    | Opt(name: Text, value: Text)
    | CpuSpecs(specs: Specs)
    | RunState(runState: int)
    | CpuDump(dumpText: Text)
    | ReqMemory(flags: int, repetitionFactor: int, areas: seq<Area>)
    | Memory(flags: int, memAreas: seq<MemArea>)
    | InsnState(sourceId: seq<byte>, values: seq<int>)
    | InsnStateConfig(flags: int, sourceId: seq<byte>, fromLine: int, toLine: int)

  function MsgId(m: Message): nat {
    match m
    case Reply(_, _, _) => 0x0000
    case Exception(_, _) => 0x0001
    case MaintReq(_, _) => 0x0002
    case Ping => 0x0003
    case Pong => 0x0004
    case Reset => 0x0005
    case Shutdown => 0x0006
    case AwlSrc(_) => 0x0101
    case SymTabSrc(_) => 0x0103
    case HwModule(_) => 0x0104
    case LibSelection(_) => 0x0105
    case GetIdents(_) => 0x0190
    case Idents(_, _, _, _) => 0x0191
    case Opt(_, _) => 0x0201
    case GetCpuSpecs => 0x0202
    case CpuSpecs(_) => 0x0203
    case GetRunState => 0x0300
    case RunState(_) => 0x0301
    case CpuDump(_) => 0x0303
    case ReqMemory(_, _, _) => 0x0304
    case Memory(_, _) => 0x0305
    case InsnStateConfig(_, _, _, _) => 0x0306
    case InsnState(_, _) => 0x0307
  }

  // ----- single payloads

  const INSNSTATE_FORMAT := [I, I, H, H, I, I, I, I, I, I, H, H]

  /** 32 unsigned integers of four bytes. */
  function SpecsFormat(): (codes: seq<Code>)
    ensures |codes| == 32 && forall i :: 0 <= i < 32 ==> codes[i] == I
  {
    seq(32, _ => I)
  }

  function Padding(): seq<int> {
    seq(23, _ => 0)
  }

  function SpecValues(s: Specs): seq<int> {
    [s.mnemonics, s.nrAccus, s.nrTimers, s.nrCounters, s.nrFlags, s.nrInputs, s.nrOutputs, s.nrLocalbytes,
     s.clockMemByte % 0x1_0000_0000] + Padding()
  }

  function PackSpecs(s: Specs): Result<seq<byte>> {
    PackStruct(SpecsFormat(), SpecValues(s))
  }

  function UnpackSpecs(payload: seq<byte>): Result<Specs> {
    var vs :- Unpack(SpecsFormat(), payload);
    var s := Specs(vs[0], vs[1], vs[2], vs[3], vs[4], vs[5], vs[6], vs[7], if vs[8] > 0xFFFF then -1 else vs[8]);
    if ValidSpecs(s) then Ok(s) else Err
  }

  function UnpackHwModule(payload: seq<byte>): Result<HwMod> {
    RestsProgress();
    var name :- UnpackString(payload, 0);
    var params :- UnpackRest(UnpackPair, payload, name.1, []);
    Ok(Module(name.0, DictOf(params)))
  }

  const REQ_FORMAT := [I, I]

  function UnpackReqMemory(payload: seq<byte>): Result<Message> {
    RestsProgress();
    var vs :- UnpackFrom(REQ_FORMAT, payload, 0);
    var areas :- UnpackRest(UnpackArea, payload, Size(REQ_FORMAT), []);
    Ok(ReqMemory(vs[0], vs[1], areas))
  }

  function UnpackMemory(payload: seq<byte>): Result<Message> {
    RestsProgress();
    var vs :- UnpackFrom([I], payload, 0);
    var memAreas :- UnpackRest(UnpackMemArea, payload, Size([I]), []);
    Ok(Memory(vs[0], memAreas))
  }

  const IDENTS_FORMAT := [I, I, I, I, I, I]

  function PackIdents(m: Message): Result<seq<byte>>
    requires m.Idents?
  {
    var head :- PackStruct(IDENTS_FORMAT, [|m.awlSources|, |m.symTabSources|, |m.hwMods|, |m.libSels|, 0, 0]);
    var awlSources :- PackEach(PackSource, m.awlSources);
    var symTabSources :- PackEach(PackSource, m.symTabSources);
    var hwMods :- PackEach(PackHwMod, m.hwMods);
    var libSels :- PackEach(PackLibSel, m.libSels);
    Ok(head + awlSources + symTabSources + hwMods + libSels)
  }

  function UnpackIdents(payload: seq<byte>): Result<Message> {
    var n :- UnpackFrom(IDENTS_FORMAT, payload, 0);
    var from := Size(IDENTS_FORMAT);
    var awlSources :- UnpackN(UnpackSource, payload, from, n[0]);
    var symTabSources :- UnpackN(UnpackSource, payload, from + awlSources.1, n[1]);
    var hwMods :- UnpackN(UnpackHwMod, payload, from + awlSources.1 + symTabSources.1, n[2]);
    var libSels :- UnpackN(UnpackLibSel, payload, from + awlSources.1 + symTabSources.1 + hwMods.1, n[3]);
    Ok(Idents(awlSources.0, symTabSources.0, hwMods.0, libSels.0))
  }

  // ----- all payloads

  /** A record and byte strings behind each other. */
  function Join(a: Result<seq<byte>>, b: Result<seq<byte>>): Result<seq<byte>> {
    var x :- a;
    var y :- b;
    Ok(x + y)
  }

  function ToPayload(m: Message): Result<seq<byte>> {
    match m
    case Reply(id, nr, status) => PackStruct([H, H, H], [id, nr, status])
    case Exception(text, verboseText) => Join(PackString(text), PackString(verboseText))
    case MaintReq(requestType, msg) => Join(PackStruct([H], [requestType]), PackString(msg))
    case AwlSrc(source) => PackSource(source)
    case SymTabSrc(source) => PackSource(source)
    case HwModule(h) => Join(PackString(h.name), PackEach(PackPair, h.params))
    case LibSelection(s) => PackLibSel(s)
    case GetIdents(getFlags) => PackStruct(REQ_FORMAT, [getFlags, 0])
    case Idents(_, _, _, _) => PackIdents(m)
    case Opt(name, value) => Join(PackString(name), PackString(value))
    case CpuSpecs(specs) => PackSpecs(specs)
    case RunState(n) => PackStruct([H], [n])
    case CpuDump(text) => PackString(text)
    case ReqMemory(flags, factor, areas) => Join(PackStruct(REQ_FORMAT, [flags, factor]), PackEach(PackArea, areas))
    case Memory(flags, memAreas) => Join(PackStruct([I], [flags]), PackEach(PackMemArea, memAreas))
    case InsnState(sourceId, values) => Join(PackStruct(INSNSTATE_FORMAT, values), PackBytes(sourceId))
    case InsnStateConfig(flags, sourceId, fromLine, toLine) =>
      Join(PackStruct([I, I, I], [flags, fromLine, toLine]), PackBytes(sourceId))
    case _ => Ok([])
  }

  /** An error report without a long text repeats its short one. */
  function ErrorText(text: Text, verboseText: Text): Message {
    Exception(text, if verboseText == [] then text else verboseText)
  }

  function FromPayload(id: nat, payload: seq<byte>): Result<Message> {
    match id
    case 0x0000 =>
      var vs :- Unpack([H, H, H], payload);
      Ok(Reply(vs[0], vs[1], vs[2]))
    case 0x0001 =>
      var text :- UnpackString(payload, 0);
      var verboseText :- UnpackString(payload, text.1);
      Ok(ErrorText(text.0, verboseText.0))
    case 0x0002 =>
      var vs :- UnpackFrom([H], payload, 0);
      var msg :- UnpackString(payload, Size([H]));
      Ok(MaintReq(vs[0], msg.0))
    case 0x0003 => Ok(Ping)
    case 0x0004 => Ok(Pong)
    case 0x0005 => Ok(Reset)
    case 0x0006 => Ok(Shutdown)
    case 0x0101 =>
      var source :- UnpackSource(payload, 0);
      Ok(AwlSrc(source.0))
    case 0x0103 =>
      var source :- UnpackSource(payload, 0);
      Ok(SymTabSrc(source.0))
    case 0x0104 =>
      var hwMod :- UnpackHwModule(payload);
      Ok(HwModule(hwMod))
    case 0x0105 =>
      var libSel :- UnpackLibSel(payload, 0);
      Ok(LibSelection(libSel.0))
    case 0x0190 =>
      var vs :- UnpackFrom(REQ_FORMAT, payload, 0);
      Ok(GetIdents(vs[0]))
    case 0x0191 => UnpackIdents(payload)
    case 0x0201 =>
      var name :- UnpackString(payload, 0);
      var value :- UnpackString(payload, name.1);
      Ok(Opt(name.0, value.0))
    case 0x0202 => Ok(GetCpuSpecs)
    case 0x0203 =>
      var specs :- UnpackSpecs(payload);
      Ok(CpuSpecs(specs))
    case 0x0300 => Ok(GetRunState)
    case 0x0301 =>
      var vs :- Unpack([H], payload);
      Ok(RunState(vs[0]))
    case 0x0303 =>
      var text :- UnpackString(payload, 0);
      Ok(CpuDump(text.0))
    case 0x0304 => UnpackReqMemory(payload)
    case 0x0305 => UnpackMemory(payload)
    case 0x0306 =>
      var vs :- UnpackFrom([I, I, I], payload, 0);
      var sourceId :- UnpackBytes(payload, Size([I, I, I]));
      Ok(InsnStateConfig(vs[0], sourceId.0, vs[1], vs[2]))
    case 0x0307 =>
      var vs :- UnpackFrom(INSNSTATE_FORMAT, payload, 0);
      var sourceId :- UnpackBytes(payload, Size(INSNSTATE_FORMAT));
      Ok(InsnState(sourceId.0, vs))
    case _ => Err
  }

  // ----- decoding undoes encoding

  /** The CPU specs object of a message has gone through its setters. */
  predicate Valid(m: Message) {
    m.CpuSpecs? ==> ValidSpecs(m.specs)
  }

  /**
   The messages that survive: a clock memory byte is a 16-bit address or -1 for none, and an
   error report has a long text unless it has no text at all.
   */
  predicate Canonical(m: Message) {
    match m
    case CpuSpecs(s) => -1 <= s.clockMemByte <= 0xFFFF
    case Exception(text, verboseText) => verboseText != [] || text == []
    case _ => true
  }

  /** The two halves of a payload lie where the first one ends. */
  lemma Halves(a: seq<byte>, b: seq<byte>)
    ensures At(a + b, 0, a) && At(a + b, |a|, b)
  {
    assert (a + b)[0..|a + b|] == a + b;
    AtSplit(a + b, 0, a, b);
  }

  lemma Whole(a: seq<byte>)
    ensures At(a, 0, a)
  {
    assert a[0..|a|] == a;
  }

  /** A payload of two texts. */
  lemma TwoTexts(a: Text, b: Text)
    requires Join(PackString(a), PackString(b)).Ok?
    ensures var p := Join(PackString(a), PackString(b)).value;
            && UnpackString(p, 0) == Ok((a, |PackString(a).value|))
            && UnpackString(p, |PackString(a).value|) == Ok((b, |PackString(b).value|))
  {
    hide At, PackString, UnpackString;
    var x, y := PackString(a).value, PackString(b).value;
    Halves(x, y);
    StringAt(a, x + y, 0);
    StringAt(b, x + y, |x|);
  }

  /** A payload of a record and a byte string. */
  lemma RecordAndBytes(codes: seq<Code>, vs: seq<int>, b: seq<byte>)
    requires Join(PackStruct(codes, vs), PackBytes(b)).Ok?
    ensures var p := Join(PackStruct(codes, vs), PackBytes(b)).value;
            && UnpackFrom(codes, p, 0) == Ok(vs) && UnpackBytes(p, Size(codes)) == Ok((b, |PackBytes(b).value|))
  {
    hide At, PackStruct, UnpackFrom, PackBytes, UnpackBytes, Size;
    var x, y := PackStruct(codes, vs).value, PackBytes(b).value;
    Halves(x, y);
    StructAt(codes, vs, x + y, 0);
    BytesAt(b, x + y, |x|);
  }

  lemma RecordAndText(codes: seq<Code>, vs: seq<int>, t: Text)
    requires Join(PackStruct(codes, vs), PackString(t)).Ok?
    ensures var p := Join(PackStruct(codes, vs), PackString(t)).value;
            && UnpackFrom(codes, p, 0) == Ok(vs) && UnpackString(p, Size(codes)) == Ok((t, |PackString(t).value|))
  {
    hide At, PackStruct, UnpackFrom, PackString, UnpackString, Size;
    var x, y := PackStruct(codes, vs).value, PackString(t).value;
    Halves(x, y);
    StructAt(codes, vs, x + y, 0);
    StringAt(t, x + y, |x|);
  }

  /** A payload of a record and nothing else. */
  lemma RecordOnly(codes: seq<Code>, vs: seq<int>)
    requires PackStruct(codes, vs).Ok?
    ensures var p := PackStruct(codes, vs).value; Unpack(codes, p) == Ok(vs) && UnpackFrom(codes, p, 0) == Ok(vs)
  {
    hide PackStruct, Size, UnpackAll;
    UnpackOfPack(codes, vs);
    Whole(PackStruct(codes, vs).value);
    StructAt(codes, vs, PackStruct(codes, vs).value, 0);
  }

  lemma HwModuleRoundTrip(h: HwMod)
    requires Join(PackString(h.name), PackEach(PackPair, h.params)).Ok?
    ensures UnpackHwModule(Join(PackString(h.name), PackEach(PackPair, h.params)).value) == Ok(h)
  {
    hide At, PackString, UnpackString, PackPair, UnpackPair, PackEach, UnpackRest, Progresses, NeverEmpty,
      Inverse, DictOf;
    var x, y := PackString(h.name).value, PackEach(PackPair, h.params).value;
    Halves(x, y);
    StringAt(h.name, x + y, 0);
    PairsAreInverse();
    RestsProgress();
    UnpackRestOfPackEach(PackPair, UnpackPair, x + y, |x|, h.params);
    DictOfParams(h.params);
  }

  lemma ReqMemoryRoundTrip(flags: int, factor: int, areas: seq<Area>)
    requires Join(PackStruct(REQ_FORMAT, [flags, factor]), PackEach(PackArea, areas)).Ok?
    ensures UnpackReqMemory(Join(PackStruct(REQ_FORMAT, [flags, factor]), PackEach(PackArea, areas)).value)
            == Ok(ReqMemory(flags, factor, areas))
  {
    hide At, PackStruct, UnpackFrom, Size, PackArea, UnpackArea, PackEach, UnpackRest, Progresses, NeverEmpty, Inverse;
    var x, y := PackStruct(REQ_FORMAT, [flags, factor]).value, PackEach(PackArea, areas).value;
    Halves(x, y);
    StructAt(REQ_FORMAT, [flags, factor], x + y, 0);
    AreasAreInverse();
    RestsProgress();
    UnpackRestOfPackEach(PackArea, UnpackArea, x + y, |x|, areas);
  }

  lemma MemoryRoundTrip(flags: int, memAreas: seq<MemArea>)
    requires Join(PackStruct([I], [flags]), PackEach(PackMemArea, memAreas)).Ok?
    ensures UnpackMemory(Join(PackStruct([I], [flags]), PackEach(PackMemArea, memAreas)).value) == Ok(Memory(flags,
            memAreas))
  {
    hide At, PackStruct, UnpackFrom, Size, PackMemArea, UnpackMemArea, PackEach, UnpackRest, Progresses,
      NeverEmpty, Inverse;
    var x, y := PackStruct([I], [flags]).value, PackEach(PackMemArea, memAreas).value;
    Halves(x, y);
    StructAt([I], [flags], x + y, 0);
    MemAreasAreInverse();
    RestsProgress();
    UnpackRestOfPackEach(PackMemArea, UnpackMemArea, x + y, |x|, memAreas);
  }

  lemma SpecsRoundTrip(s: Specs)
    requires ValidSpecs(s) && PackSpecs(s).Ok?
    ensures UnpackSpecs(PackSpecs(s).value) == Ok(s) <==> -1 <= s.clockMemByte <= 0xFFFF
  {
    hide PackStruct, Unpack, SpecsFormat, Padding;
    RecordOnly(SpecsFormat(), SpecValues(s));
  }

  /** The parts of a list of identifiers lie one behind the other. */
  lemma At5(data: seq<byte>, a: seq<byte>, b: seq<byte>, c: seq<byte>, d: seq<byte>, e: seq<byte>)
    requires data == a + b + c + d + e
    ensures At(data, 0, a) && At(data, |a|, b) && At(data, |a| + |b|, c) && At(data, |a| + |b| + |c|, d)
    ensures At(data, |a| + |b| + |c| + |d|, e)
  {
    Whole(data);
    hide At;
    AtSplit(data, 0, a + b + c + d, e);
    AtSplit(data, 0, a + b + c, d);
    At3(data, 0, a, b, c);
  }

  lemma IdentsRoundTrip(m: Message)
    requires m.Idents? && PackIdents(m).Ok?
    ensures UnpackIdents(PackIdents(m).value) == Ok(m)
  {
    hide At, PackStruct, UnpackFrom, Size, PackEach, UnpackN;
    hide PackSource, UnpackSource, PackHwMod, UnpackHwMod, PackLibSel, UnpackLibSel;
    var p, n := PackIdents(m).value, [|m.awlSources|, |m.symTabSources|, |m.hwMods|, |m.libSels|, 0, 0];
    var head, a := PackStruct(IDENTS_FORMAT, n).value, PackEach(PackSource, m.awlSources).value;
    var b, c := PackEach(PackSource, m.symTabSources).value, PackEach(PackHwMod, m.hwMods).value;
    At5(p, head, a, b, c, PackEach(PackLibSel, m.libSels).value);
    StructAt(IDENTS_FORMAT, n, p, 0);
    SourcesAreInverse();
    assert Inverse(PackHwMod, UnpackHwMod) by {
      forall h, data, offset | PackHwMod(h).Ok? && At(data, offset, PackHwMod(h).value)
        ensures UnpackHwMod(data, offset) == Ok((h, |PackHwMod(h).value|))
      {
        HwModAt(h, data, offset);
      }
    }
    LibSelsAreInverse();
    UnpackNOfPackEach(PackSource, UnpackSource, p, |head|, m.awlSources);
    UnpackNOfPackEach(PackSource, UnpackSource, p, |head| + |a|, m.symTabSources);
    UnpackNOfPackEach(PackHwMod, UnpackHwMod, p, |head| + |a| + |b|, m.hwMods);
    UnpackNOfPackEach(PackLibSel, UnpackLibSel, p, |head| + |a| + |b| + |c|, m.libSels);
  }

  /** Decoding an encoded message gives the message back, exactly if it is canonical. */
  lemma RoundTrip(m: Message)
    requires Valid(m) && ToPayload(m).Ok?
    ensures FromPayload(MsgId(m), ToPayload(m).value) == Ok(m) <==> Canonical(m)
  {
    hide At, PackStruct, Unpack, UnpackFrom, PackString, UnpackString, PackBytes, UnpackBytes, Size, PackEach;
    hide PackSource, UnpackSource, PackLibSel, UnpackLibSel, PackSpecs, UnpackSpecs, PackIdents, UnpackIdents;
    hide UnpackHwModule, UnpackReqMemory, UnpackMemory, Join;
    match m {
      case Reply(id, nr, status) => RecordOnly([H, H, H], [id, nr, status]);
      case Exception(text, verboseText) => TwoTexts(text, verboseText);
      case MaintReq(requestType, msg) => RecordAndText([H], [requestType], msg);
      case AwlSrc(source) =>
        Whole(PackSource(source).value);
        SourceAt(source, PackSource(source).value, 0);
      case SymTabSrc(source) =>
        Whole(PackSource(source).value);
        SourceAt(source, PackSource(source).value, 0);
      case HwModule(h) => HwModuleRoundTrip(h);
      case LibSelection(s) =>
        Whole(PackLibSel(s).value);
        LibSelAt(s, PackLibSel(s).value, 0);
      case GetIdents(getFlags) => RecordOnly(REQ_FORMAT, [getFlags, 0]);
      case Idents(_, _, _, _) => IdentsRoundTrip(m);
      case Opt(name, value) => TwoTexts(name, value);
      case CpuSpecs(specs) => SpecsRoundTrip(specs);
      case RunState(n) => RecordOnly([H], [n]);
      case CpuDump(text) =>
        Whole(PackString(text).value);
        StringAt(text, PackString(text).value, 0);
      case ReqMemory(flags, factor, areas) => ReqMemoryRoundTrip(flags, factor, areas);
      case Memory(flags, memAreas) => MemoryRoundTrip(flags, memAreas);
      case InsnState(sourceId, values) => RecordAndBytes(INSNSTATE_FORMAT, values, sourceId);
      case InsnStateConfig(flags, sourceId, fromLine, toLine) => RecordAndBytes([I, I, I], [flags, fromLine, toLine],
              sourceId);
      case _ =>
    }
  }
}
