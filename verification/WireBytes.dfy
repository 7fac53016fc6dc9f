/**
 The bytes of messages by position: headers, memory areas, and strings with their length.
 */
module WireBytes {
  import opened Bytes
  import opened Wire
  import opened Parts
  import opened Messages
  import opened Transceiver

  predicate IsByte(v: int) {
    0 <= v < 0x100
  }

  predicate IsWord(v: int) {
    0 <= v < 0x1_0000
  }

  predicate IsDWord(v: int) {
    0 <= v < 0x1_0000_0000
  }

  /** A number in two bytes, the higher one first. */
  function Word(v: int): (s: seq<byte>) {
    [Low(v / 0x100), Low(v)]
  }

  /** A number in four bytes, the highest one first. */
  function DWord(v: int): (s: seq<byte>) {
    [Low(v / 0x100_0000), Low(v / 0x1_0000), Low(v / 0x100), Low(v)]
  }

  lemma BigEndianNext(v: int, k: nat)
    ensures BigEndian(v, k + 1) == BigEndian(v / 0x100, k) + [Low(v)]
    ensures BigEndian(v, 0) == []
  {
  }

  lemma DividedAgain(v: int)
    ensures v / 0x100 / 0x100 == v / 0x1_0000 && v / 0x1_0000 / 0x100 == v / 0x100_0000
  {
  }

  lemma Encoded(v: int)
    ensures BigEndian(v, 1) == [Low(v)] && BigEndian(v, 2) == Word(v) && BigEndian(v, 4) == DWord(v)
  {
    DividedAgain(v);
    BigEndianNext(v, 0);
    BigEndianNext(v, 1);
    BigEndianNext(v, 3);
    BigEndianNext(v / 0x100, 0);
    BigEndianNext(v / 0x100, 2);
    BigEndianNext(v / 0x1_0000, 1);
    BigEndianNext(v / 0x100_0000, 0);
    hide BigEndian, Low;
  }

  function OnWire(c: Code, v: int): seq<byte> {
    match c
    case B => [Low(v)]
    case H => Word(v)
    case I | SignedI => DWord(v)
  }

  predicate Fits(c: Code, v: int) {
    match c
    case B => IsByte(v)
    case H => IsWord(v)
    case I => IsDWord(v)
    case SignedI => -0x8000_0000 <= v < 0x8000_0000
  }

  /** A record with one more value behind it. */
  lemma {:induction false} OneMore(codes: seq<Code>, c: Code, vs: seq<int>, v: int)
    requires |codes| == |vs|
    ensures var all := PackStruct(codes + [c], vs + [v]);
            && (all.Ok? <==> PackStruct(codes, vs).Ok? && Fits(c, v))
            && (all.Ok? ==> all.value == PackStruct(codes, vs).value + OnWire(c, v))
    decreases |codes|
  {
    hide BigEndian;
    if codes == [] {
      Pow256Values();
      Encoded(v);
      assert [c][1..] == [] && [v][1..] == [] && [] + [c] == [c] && [] + [v] == [v];
    } else {
      assert (codes + [c])[1..] == codes[1..] + [c] && (vs + [v])[1..] == vs[1..] + [v];
      OneMore(codes[1..], c, vs[1..], v);
      hide InRange, Fits, OnWire;
    }
  }

  lemma TwoValues(c1: Code, c2: Code, v1: int, v2: int)
    ensures var p := PackStruct([c1, c2], [v1, v2]);
            && (p.Ok? <==> Fits(c1, v1) && Fits(c2, v2))
            && (p.Ok? ==> p.value == OnWire(c1, v1) + OnWire(c2, v2))
  {
    assert PackStruct([], []) == Ok([]);
    hide PackStruct, Fits, OnWire;
    OneMore([], c1, [], v1);
    OneMore([c1], c2, [v1], v2);
    assert [] + [c1] == [c1] && [] + [v1] == [v1] && [] + OnWire(c1, v1) == OnWire(c1, v1);
    assert [c1] + [c2] == [c1, c2] && [v1] + [v2] == [v1, v2];
  }

  lemma FourValues(c1: Code, c2: Code, c3: Code, c4: Code, v1: int, v2: int, v3: int, v4: int)
    ensures var p := PackStruct([c1, c2, c3, c4], [v1, v2, v3, v4]);
            && (p.Ok? <==> Fits(c1, v1) && Fits(c2, v2) && Fits(c3, v3) && Fits(c4, v4))
            && (p.Ok? ==> p.value == OnWire(c1, v1) + OnWire(c2, v2) + OnWire(c3, v3) + OnWire(c4, v4))
  {
    hide PackStruct, Fits, OnWire;
    TwoValues(c1, c2, v1, v2);
    OneMore([c1, c2], c3, [v1, v2], v3);
    OneMore([c1, c2, c3], c4, [v1, v2, v3], v4);
    assert [c1, c2] + [c3] == [c1, c2, c3] && [v1, v2] + [v3] == [v1, v2, v3];
    assert [c1, c2, c3] + [c4] == [c1, c2, c3, c4] && [v1, v2, v3] + [v4] == [v1, v2, v3, v4];
  }

  lemma FiveValues(c1: Code, c2: Code, c3: Code, c4: Code, c5: Code, v1: int, v2: int, v3: int, v4: int, v5: int)
    ensures var p := PackStruct([c1, c2, c3, c4, c5], [v1, v2, v3, v4, v5]);
            && (p.Ok? <==> Fits(c1, v1) && Fits(c2, v2) && Fits(c3, v3) && Fits(c4, v4) && Fits(c5, v5))
            && (p.Ok? ==>
                  p.value == OnWire(c1, v1) + OnWire(c2, v2) + OnWire(c3, v3) + OnWire(c4, v4) + OnWire(c5, v5))
  {
    hide PackStruct, Fits, OnWire;
    FourValues(c1, c2, c3, c4, v1, v2, v3, v4);
    OneMore([c1, c2, c3, c4], c5, [v1, v2, v3, v4], v5);
    assert [c1, c2, c3, c4] + [c5] == [c1, c2, c3, c4, c5] && [v1, v2, v3, v4] + [v5] == [v1, v2, v3, v4, v5];
  }

  // ----- headers

  /** Twelve bytes, whatever the values; magic and reserved value are constants. */
  lemma HeaderBytes(id: nat, nr: nat, len: nat)
    requires IsWord(id) && IsWord(nr) && IsDWord(len)
    ensures PackStruct(HDR_FORMAT, [HDR_MAGIC, id, nr, 0, len])
            == Ok([0x57, 0x14] + Word(id) + Word(nr) + [0x00, 0x00] + DWord(len))
  {
    hide PackStruct;
    FiveValues(H, H, H, H, I, HDR_MAGIC, id, nr, 0, len);
    assert Word(HDR_MAGIC) == [0x57, 0x14] && Word(0) == [0x00, 0x00];
    hide Word, DWord;
  }

  /** The two bytes of a header that tell the kind of the message. */
  function IdBytes(m: Message): seq<byte> {
    match m
    case Reply(_, _, _) => [0x00, 0x00]
    case Exception(_, _) => [0x00, 0x01]
    case MaintReq(_, _) => [0x00, 0x02]
    case Ping => [0x00, 0x03]
    case Pong => [0x00, 0x04]
    case Reset => [0x00, 0x05]
    case Shutdown => [0x00, 0x06]
    case AwlSrc(_) => [0x01, 0x01]
    case SymTabSrc(_) => [0x01, 0x03]
    case HwModule(_) => [0x01, 0x04]
    case LibSelection(_) => [0x01, 0x05]
    case GetIdents(_) => [0x01, 0x90]
    case Idents(_, _, _, _) => [0x01, 0x91]
    case Opt(_, _) => [0x02, 0x01]
    case GetCpuSpecs => [0x02, 0x02]
    case CpuSpecs(_) => [0x02, 0x03]
    case GetRunState => [0x03, 0x00]
    case RunState(_) => [0x03, 0x01]
    case CpuDump(_) => [0x03, 0x03]
    case ReqMemory(_, _, _) => [0x03, 0x04]
    case Memory(_, _) => [0x03, 0x05]
    case InsnStateConfig(_, _, _, _) => [0x03, 0x06]
    case InsnState(_, _) => [0x03, 0x07]
  }

  lemma IdOnWire(m: Message)
    ensures Word(MsgId(m)) == IdBytes(m) && IsWord(MsgId(m))
  {
  }

  /** A frame: magic, kind, number, reserved bytes and length of the payload, and then the payload. */
  lemma FrameBytes(m: Message, nr: nat)
    requires Sendable(m) && IsWord(nr)
    ensures var payload := ToPayload(m).value;
            FrameOf(m, nr)
            == [0x57, 0x14] + IdBytes(m) + Word(nr) + [0x00, 0x00] + DWord(|payload|) + payload
  {
    IdOnWire(m);
    hide ToPayload, Valid, Canonical, MsgId, PackStruct, IdBytes, Word, DWord;
    HeaderBytes(MsgId(m), nr, |ToPayload(m).value|);
    FrameExists(m, nr);
  }

  // ----- memory areas

  /** A memory area: two bytes, a word and two double words, in this order. */
  lemma AreaBytes(a: Area)
    ensures PackArea(a).Ok? <==> && IsByte(a.memType) && IsByte(a.flags) && IsWord(a.index)
                                 && IsDWord(a.start) && IsDWord(a.length)
    ensures PackArea(a).Ok? ==>
              PackArea(a).value == [a.memType, a.flags] + Word(a.index) + DWord(a.start) + DWord(a.length)
  {
    hide PackStruct, Word, DWord;
    FiveValues(B, B, H, I, I, a.memType, a.flags, a.index, a.start, a.length);
    if PackArea(a).Ok? {
      assert OnWire(B, a.memType) + OnWire(B, a.flags) == [a.memType, a.flags];
    }
  }

  /** A memory area with data: the area, the length of the data, the data, and zeros up to a multiple of four. */
  lemma MemAreaBytes(m: MemArea)
    ensures PackMemArea(m).Ok? <==> PackArea(m.area).Ok? && IsDWord(|m.data|)
    ensures PackMemArea(m).Ok? ==>
              && PackMemArea(m).value
                 == PackArea(m.area).value + DWord(|m.data|) + m.data + Zeros((-|m.data|) % 4)
  {
    var a, n := m.area, |m.data|;
    hide PackStruct, DWord;
    OneMore(AREA_FORMAT, I, [a.memType, a.flags, a.index, a.start, a.length], n);
    assert AREA_FORMAT + [I] == MEMAREA_FORMAT;
    assert [a.memType, a.flags, a.index, a.start, a.length] + [n]
           == [a.memType, a.flags, a.index, a.start, a.length, n];
  }

  // ----- strings

  /** A byte string follows its length; it must be shorter than 2^32 bytes. */
  lemma StringBytes(b: seq<byte>)
    ensures PackBytes(b) == if IsDWord(|b|) then Ok(DWord(|b|) + b) else Err
  {
    Encoded(|b|);
  }
}
