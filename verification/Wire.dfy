/**
 The parts that message payloads are made of: fixed-format records of big-endian integers,
 and byte strings and texts with a length in front.
 */
module Wire {
  import opened Bytes

  datatype Result<+T> = Ok(value: T) | Err {
    predicate IsFailure() {
      Err?
    }

    function PropagateFailure<U>(): Result<U>
      requires Err?
    {
      Err
    }

    function Extract(): T
      requires Ok?
    {
      value
    }
  }

  /** `part` lies in `data` at `offset`. */
  predicate At(data: seq<byte>, offset: nat, part: seq<byte>) {
    offset + |part| <= |data| && data[offset..offset + |part|] == part
  }

  lemma AtSplit(data: seq<byte>, offset: nat, a: seq<byte>, b: seq<byte>)
    ensures At(data, offset, a + b) <==> At(data, offset, a) && At(data, offset + |a|, b)
  {
    if offset + |a| + |b| <= |data| {
      var whole := data[offset..offset + |a| + |b|];
      assert whole[..|a|] == data[offset..offset + |a|] && whole[|a|..] == data[offset + |a|..offset + |a| + |b|];
      assert whole == whole[..|a|] + whole[|a|..];
    }
  }

  // ----- fixed formats

  /** Format characters: unsigned integers of 1, 2 and 4 bytes, and signed integers of 4 bytes. */
  datatype Code = B | H | I | SignedI

  function CodeSize(c: Code): nat {
    match c
    case B => 1
    case H => 2
    case I => 4
    case SignedI => 4
  }

  predicate InRange(c: Code, v: int) {
    if c.SignedI? then -0x8000_0000 <= v < 0x8000_0000 else 0 <= v < Pow256(CodeSize(c))
  }

  function Decoded(c: Code, s: seq<byte>): (v: int)
    requires |s| == CodeSize(c)
    ensures !c.SignedI? ==> v >= 0
  {
    var n := FromBigEndian(s);
    if c.SignedI? && n >= 0x8000_0000 then n - 0x1_0000_0000 else n
  }

  function Size(codes: seq<Code>): nat {
    if codes == [] then 0 else CodeSize(codes[0]) + Size(codes[1..])
  }

  /** `struct.pack`: fails if there are too few or too many values, or if one is out of range. */
  function PackStruct(codes: seq<Code>, vs: seq<int>): Result<seq<byte>> {
    if codes == [] && vs == [] then Ok([])
    else if codes == [] || vs == [] || !InRange(codes[0], vs[0]) then Err
    else
      var rest :- PackStruct(codes[1..], vs[1..]);
      Ok(BigEndian(vs[0], CodeSize(codes[0])) + rest)
  }

  function UnpackAll(codes: seq<Code>, s: seq<byte>): (vs: seq<int>)
    requires |s| == Size(codes)
    ensures |vs| == |codes| && forall i :: 0 <= i < |codes| && !codes[i].SignedI? ==> vs[i] >= 0
  {
    if codes == [] then []
    else [Decoded(codes[0], s[..CodeSize(codes[0])])] + UnpackAll(codes[1..], s[CodeSize(codes[0])..])
  }

  /** `struct.unpack_from`: fails if the data ends too early. */
  function UnpackFrom(codes: seq<Code>, data: seq<byte>, offset: nat): (r: Result<seq<int>>)
    ensures r.Ok? ==> |r.value| == |codes| && forall i :: 0 <= i < |codes| && !codes[i].SignedI? ==> r.value[i] >= 0
  {
    if offset + Size(codes) > |data| then Err
    else Ok(UnpackAll(codes, data[offset..offset + Size(codes)]))
  }

  /** `struct.unpack`: the data must have exactly the size of the format. */
  function Unpack(codes: seq<Code>, data: seq<byte>): (r: Result<seq<int>>)
    ensures r.Ok? ==> |r.value| == |codes| && forall i :: 0 <= i < |codes| && !codes[i].SignedI? ==> r.value[i] >= 0
  {
    if |data| != Size(codes) then Err else Ok(UnpackAll(codes, data))
  }

  lemma DecodedOfEncoded(c: Code, v: int)
    requires InRange(c, v)
    ensures Decoded(c, BigEndian(v, CodeSize(c))) == v
  {
    hide FromBigEndian, BigEndian, Pow256;
    FromBigEndianOfBigEndian(v, CodeSize(c));
    Pow256Values();
  }

  lemma EncodedOfDecoded(c: Code, s: seq<byte>)
    requires |s| == CodeSize(c)
    ensures InRange(c, Decoded(c, s)) && BigEndian(Decoded(c, s), CodeSize(c)) == s
  {
    hide FromBigEndian, BigEndian, Pow256;
    FromBigEndianBound(s);
    BigEndianOfFromBigEndian(s);
    Pow256Values();
    if c.SignedI? {
      BigEndianWraps(FromBigEndian(s), 4, 1);
    }
  }

  /** Subtracting a multiple of the modulus changes no byte. */
  lemma {:induction false} BigEndianWraps(v: int, k: nat, m: int)
    ensures BigEndian(v - m * Pow256(k), k) == BigEndian(v, k)
    decreases k
  {
    if k > 0 {
      var w := v - m * Pow256(k);
      assert m * Pow256(k) == 256 * (m * Pow256(k - 1));
      assert w / 256 == v / 256 - m * Pow256(k - 1) && w % 256 == v % 256;
      BigEndianWraps(v / 256, k - 1, m);
    }
  }

  /** A packed record has the size of its format, and unpacking gives the values back. */
  lemma {:induction false} UnpackOfPack(codes: seq<Code>, vs: seq<int>)
    requires PackStruct(codes, vs).Ok?
    ensures |PackStruct(codes, vs).value| == Size(codes) && UnpackAll(codes, PackStruct(codes, vs).value) == vs
    decreases |codes|
  {
    if codes != [] {
      UnpackOfPack(codes[1..], vs[1..]);
      DecodedOfEncoded(codes[0], vs[0]);
      var p, k := PackStruct(codes, vs).value, CodeSize(codes[0]);
      assert p[..k] == BigEndian(vs[0], k) && p[k..] == PackStruct(codes[1..], vs[1..]).value;
    }
  }

  /** Whatever is unpacked was packed from these values: no two records share an encoding. */
  lemma {:induction false} PackOfUnpack(codes: seq<Code>, s: seq<byte>)
    requires |s| == Size(codes)
    ensures PackStruct(codes, UnpackAll(codes, s)) == Ok(s)
    decreases |codes|
  {
    if codes != [] {
      var k := CodeSize(codes[0]);
      PackOfUnpack(codes[1..], s[k..]);
      EncodedOfDecoded(codes[0], s[..k]);
      var vs := UnpackAll(codes, s);
      assert vs[1..] == UnpackAll(codes[1..], s[k..]);
      assert s == s[..k] + s[k..];
    }
  }

  /** Unpacking at an offset succeeds with some values exactly if the packed values lie there. */
  lemma UnpackFromIffAt(codes: seq<Code>, data: seq<byte>, offset: nat, vs: seq<int>)
    ensures UnpackFrom(codes, data, offset) == Ok(vs)
            <==> PackStruct(codes, vs).Ok? && At(data, offset, PackStruct(codes, vs).value)
  {
    hide PackStruct, UnpackAll, Size;
    if PackStruct(codes, vs).Ok? {
      UnpackOfPack(codes, vs);
    }
    if offset + Size(codes) <= |data| {
      PackOfUnpack(codes, data[offset..offset + Size(codes)]);
    }
  }

  // ----- byte strings and texts

  /** `packBytes`: the length in four bytes, then the bytes. */
  function PackBytes(b: seq<byte>): Result<seq<byte>> {
    if |b| > 0xFFFF_FFFF then Err else Ok(BigEndian(|b|, 4) + b)
  }

  /** `unpackBytes`: the bytes at an offset and how many bytes they take up in the data. */
  function UnpackBytes(data: seq<byte>, offset: nat): Result<(seq<byte>, nat)> {
    var length :- UnpackFrom([I], data, offset);
    var from := offset + 4;
    if from + length[0] > |data| then Err
    else Ok((data[from..from + length[0]], 4 + length[0]))
  }

  /** Unpacking bytes at an offset succeeds exactly if packed bytes lie there. */
  lemma UnpackBytesIffAt(data: seq<byte>, offset: nat, b: seq<byte>, count: nat)
    ensures UnpackBytes(data, offset) == Ok((b, count))
            <==> PackBytes(b).Ok? && At(data, offset, PackBytes(b).value) && count == |PackBytes(b).value|
  {
    var n := [|b|];
    UnpackFromIffAt([I], data, offset, n);
    assert PackStruct([I], n) == if |b| > 0xFFFF_FFFF then Err else Ok(BigEndian(|b|, 4)) by {
      Pow256Values();
      assert PackStruct([], []) == Ok([]) && n[1..] == [] && [I][1..] == [];
      assert BigEndian(|b|, 4) + [] == BigEndian(|b|, 4);
    }
    AtSplit(data, offset, BigEndian(|b|, 4), b);
    if UnpackBytes(data, offset) == Ok((b, count)) {
      assert UnpackFrom([I], data, offset).value == n;
    }
  }

  predicate Cont(b: byte) {
    0x80 <= b <= 0xBF
  }

  /** Well-formed UTF-8, section 4 of RFC 3629. */
  predicate Utf8(s: seq<byte>)
    decreases |s|
  {
    if s == [] then true
    else if s[0] < 0x80 then Utf8(s[1..])
    else if 0xC2 <= s[0] <= 0xDF then |s| >= 2 && Cont(s[1]) && Utf8(s[2..])
    else if 0xE0 <= s[0] <= 0xEF then
      && |s| >= 3 && Cont(s[1]) && Cont(s[2]) && (s[0] == 0xE0 ==> s[1] >= 0xA0) && (s[0] == 0xED ==> s[1] <= 0x9F)
      && Utf8(s[3..])
    else
      && 0xF0 <= s[0] <= 0xF4 && |s| >= 4 && Cont(s[1]) && Cont(s[2]) && Cont(s[3])
      && (s[0] == 0xF0 ==> s[1] >= 0x90) && (s[0] == 0xF4 ==> s[1] <= 0x8F)
      && Utf8(s[4..])
  }

  /** `packString`, for a text that is given by its UTF-8 bytes. */
  function PackString(text: seq<byte>): Result<seq<byte>> {
    if !Utf8(text) then Err else PackBytes(text)
  }

  function UnpackString(data: seq<byte>, offset: nat): Result<(seq<byte>, nat)> {
    var b :- UnpackBytes(data, offset);
    if Utf8(b.0) then Ok(b) else Err
  }

  lemma UnpackStringIffAt(data: seq<byte>, offset: nat, text: seq<byte>, count: nat)
    ensures UnpackString(data, offset) == Ok((text, count))
            <==> PackString(text).Ok? && At(data, offset, PackString(text).value) && count == |PackString(text).value|
  {
    UnpackBytesIffAt(data, offset, text, count);
  }
}
