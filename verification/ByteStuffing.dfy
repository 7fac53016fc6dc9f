/**
 Framing of messages on a serial line: a flag at both ends, and an escape byte in front of
 each flag or escape byte inside, as in section 4.2 of RFC 1662.
 */
module ByteStuffing {
  import opened Bytes
  import opened Options

  const FLAG: byte := 0x7E
  const ESCAPE: byte := 0x7D

  /** `b ^ 0x20` */
  function Flipped(b: byte): byte {
    if b / 0x20 % 2 == 1 then b - 0x20 else b + 0x20
  }

  predicate Special(b: byte) {
    b == FLAG || b == ESCAPE
  }

  /** The bytes that stand for one byte of a message. */
  function Code(b: byte): seq<byte> {
    if Special(b) then [ESCAPE, Flipped(b)] else [b]
  }

  function Stuffed(msg: seq<byte>): seq<byte> {
    if msg == [] then [] else Stuffed(msg[..|msg| - 1]) + Code(msg[|msg| - 1])
  }

  function Framed(msg: seq<byte>): seq<byte> {
    [FLAG] + Stuffed(msg) + [FLAG]
  }

  /** The message in a frame; there is none if the frame ends with an escape byte that escapes nothing. */
  function Unframed(frame: seq<byte>): Option<seq<byte>>
    decreases |frame|
  {
    if frame == [] then Some([])
    else if frame[0] == FLAG then Unframed(frame[1..])
    else if frame[0] == ESCAPE then
      if |frame| == 1 then None else Prepended(Flipped(frame[1]), Unframed(frame[2..]))
    else Prepended(frame[0], Unframed(frame[1..]))
  }

  function Prepended(b: byte, rest: Option<seq<byte>>): Option<seq<byte>> {
    if rest.None? then None else Some([b] + rest.value)
  }

  method FrameOutgoingMessage(msg: seq<byte>) returns (newMsg: seq<byte>)
    ensures newMsg == Framed(msg)
  {
    newMsg := [FLAG];
    var i := 0;
    while i < |msg|
      invariant i <= |msg| && newMsg == [FLAG] + Stuffed(msg[..i])
    {
      assert msg[..i + 1][..i] == msg[..i];
      if msg[i] == FLAG {
        newMsg := newMsg + [ESCAPE];
        newMsg := newMsg + [Flipped(msg[i])];
      } else if msg[i] == ESCAPE {
        newMsg := newMsg + [ESCAPE];
        newMsg := newMsg + [Flipped(msg[i])];
      } else {
        newMsg := newMsg + [msg[i]];
      }
      i := i + 1;
    }
    assert msg[..i] == msg;
    newMsg := newMsg + [FLAG];
  }

  method ProcessIncomingFrame(frame: seq<byte>) returns (msg: Option<seq<byte>>)
    ensures msg == Unframed(frame)
  {
    var newMsg, i := [], 0;
    AppendedNothing(Unframed(frame));
    assert frame[0..] == frame;
    while i < |frame|
      invariant i <= |frame|
      invariant Unframed(frame) == Appended(newMsg, Unframed(frame[i..]))
    {
      assert frame[i..][1..] == frame[i + 1..];
      if frame[i] == FLAG {
        i := i + 1;
      } else if frame[i] == ESCAPE {
        if i + 1 >= |frame| {
          return None;
        }
        assert frame[i..][2..] == frame[i + 2..];
        AppendedPrepended(newMsg, Flipped(frame[i + 1]), Unframed(frame[i + 2..]));
        newMsg := newMsg + [Flipped(frame[i + 1])];
        i := i + 2;
      } else {
        AppendedPrepended(newMsg, frame[i], Unframed(frame[i + 1..]));
        newMsg := newMsg + [frame[i]];
        i := i + 1;
      }
    }
    assert newMsg + [] == newMsg;
    return Some(newMsg);
  }

  function Appended(front: seq<byte>, rest: Option<seq<byte>>): Option<seq<byte>> {
    if rest.None? then None else Some(front + rest.value)
  }

  lemma AppendedPrepended(front: seq<byte>, b: byte, rest: Option<seq<byte>>)
    ensures Appended(front, Prepended(b, rest)) == Appended(front + [b], rest)
  {
    if rest.Some? {
      assert front + ([b] + rest.value) == front + [b] + rest.value;
    }
  }

  lemma AppendedNothing(rest: Option<seq<byte>>)
    ensures Appended([], rest) == rest
  {
    if rest.Some? {
      assert [] + rest.value == rest.value;
    }
  }

  // ----- frames are transparent

  /** The code of a byte contains no flag. */
  lemma CodeHasNoFlag(b: byte)
    ensures FLAG !in Code(b)
  {
  }

  lemma {:induction false} BodyHasNoFlag(msg: seq<byte>)
    ensures FLAG !in Stuffed(msg)
    decreases |msg|
  {
    if msg != [] {
      BodyHasNoFlag(msg[..|msg| - 1]);
      CodeHasNoFlag(msg[|msg| - 1]);
    }
  }

  /** Unframing a code and whatever follows it gives the byte and whatever follows it. */
  lemma UnframedCode(b: byte, rest: seq<byte>)
    ensures Unframed(Code(b) + rest) == Prepended(b, Unframed(rest))
  {
    var s := Code(b) + rest;
    if Special(b) {
      assert s[2..] == rest;
    } else {
      assert s[1..] == rest;
    }
  }

  lemma {:induction false} UnframedBody(msg: seq<byte>, rest: seq<byte>)
    ensures Unframed(Stuffed(msg) + rest) == Appended(msg, Unframed(rest))
    decreases |msg|
  {
    if msg == [] {
      assert [] + rest == rest;
      AppendedNothing(Unframed(rest));
    } else {
      var front, b := msg[..|msg| - 1], msg[|msg| - 1];
      assert Stuffed(msg) + rest == Stuffed(front) + (Code(b) + rest);
      UnframedBody(front, Code(b) + rest);
      UnframedCode(b, rest);
      AppendedPrepended(front, b, Unframed(rest));
      assert front + [b] == msg;
    }
  }

  /** Frames in front of other bytes give their message, and the rest is processed as it is. */
  lemma UnframedFrame(msg: seq<byte>, rest: seq<byte>)
    ensures Unframed(Framed(msg) + rest) == Appended(msg, Unframed(rest))
  {
    var s := Framed(msg) + rest;
    assert s[1..] == Stuffed(msg) + ([FLAG] + rest);
    UnframedBody(msg, [FLAG] + rest);
    assert ([FLAG] + rest)[1..] == rest;
  }

  /** Every message comes back from its frame, and processing the frame never runs off its end. */
  lemma FramesAreTransparent(msg: seq<byte>)
    ensures Unframed(Framed(msg)) == Some(msg)
  {
    UnframedFrame(msg, []);
    assert Framed(msg) + [] == Framed(msg) && msg + [] == msg;
  }

  /** A flag becomes 7D 5E and an escape byte 7D 5D; every other byte stands for itself. */
  lemma CodeOfByte(b: byte)
    ensures Code(b) == if b == 0x7E then [0x7D, 0x5E] else if b == 0x7D then [0x7D, 0x5D] else [b]
  {
  }

  /** Messages are framed byte by byte: in the frame of a message, each byte has its code in its place. */
  lemma BytesOfFrame(before: seq<byte>, b: byte, behind: seq<byte>)
    ensures var code := if b == 0x7E then [0x7D, 0x5E] else if b == 0x7D then [0x7D, 0x5D] else [b];
            Framed(before + [b] + behind) == [0x7E] + (Stuffed(before) + code + Stuffed(behind)) + [0x7E]
  {
    CodeOfByte(b);
    hide *;
    StuffedInParts(before + [b], behind);
    StuffedNext(before, b);
    FrameOfBody(before + [b] + behind);
  }

  lemma StuffedNext(before: seq<byte>, b: byte)
    ensures Stuffed(before + [b]) == Stuffed(before) + Code(b)
  {
    assert (before + [b])[..|before|] == before;
    hide Code;
  }

  lemma FrameOfBody(msg: seq<byte>)
    ensures Framed(msg) == [0x7E] + Stuffed(msg) + [0x7E]
  {
  }

  lemma {:induction false} StuffedInParts(a: seq<byte>, b: seq<byte>)
    ensures Stuffed(a + b) == Stuffed(a) + Stuffed(b)
    decreases |b|
  {
    if b == [] {
      assert a + b == a;
    } else {
      assert (a + b)[..|a + b| - 1] == a + b[..|b| - 1];
      StuffedInParts(a, b[..|b| - 1]);
    }
  }

  // ----- several frames

  function Concatenated(msgs: seq<seq<byte>>): seq<byte> {
    if msgs == [] then [] else Framed(msgs[0]) + Concatenated(msgs[1..])
  }

  /** The body in front of a flag ends at the first flag. */
  lemma FirstFlag(whole: seq<byte>, body: seq<byte>, rest: seq<byte>)
    requires FLAG !in body && whole == body + [FLAG] + rest
    ensures whole[|body|] == FLAG && forall k :: 0 <= k < |body| ==> whole[k] != FLAG
    ensures body == whole[..|body|] && rest == whole[|body| + 1..]
  {
    forall k | 0 <= k < |body|
      ensures whole[k] != FLAG
    {
      assert whole[k] == body[k] && body[k] in body;
    }
  }

  /** Two bodies that are followed by a flag end at the same place. */
  lemma BodiesEndTogether(a: seq<byte>, b: seq<byte>, r: seq<byte>, s: seq<byte>)
    requires FLAG !in a && FLAG !in b && a + [FLAG] + r == b + [FLAG] + s
    ensures a == b && r == s
  {
    FirstFlag(a + [FLAG] + r, a, r);
    FirstFlag(a + [FLAG] + r, b, s);
    assert |a| == |b|;
  }

  /** A message is determined by its body. */
  lemma BodyDeterminesMessage(a: seq<byte>, b: seq<byte>)
    requires Stuffed(a) == Stuffed(b)
    ensures a == b
  {
    FramesAreTransparent(a);
    FramesAreTransparent(b);
  }

  lemma BehindFirstFlag(msgs: seq<seq<byte>>)
    requires msgs != []
    ensures Concatenated(msgs) != [] && Concatenated(msgs)[1..] == Stuffed(msgs[0]) + [FLAG] + Concatenated(msgs[1..])
  {
    hide Stuffed;
  }

  /** A stream of frames can be split into messages in one way only. */
  lemma {:induction false} FramesSplitUniquely(xs: seq<seq<byte>>, ys: seq<seq<byte>>)
    requires Concatenated(xs) == Concatenated(ys)
    ensures xs == ys
    decreases |xs|
  {
    if xs != [] && ys != [] {
      var r, s := Concatenated(xs[1..]), Concatenated(ys[1..]);
      BehindFirstFlag(xs);
      BehindFirstFlag(ys);
      hide *;
      BodyHasNoFlag(xs[0]);
      BodyHasNoFlag(ys[0]);
      BodiesEndTogether(Stuffed(xs[0]), Stuffed(ys[0]), r, s);
      BodyDeterminesMessage(xs[0], ys[0]);
      FramesSplitUniquely(xs[1..], ys[1..]);
      assert xs == [xs[0]] + xs[1..] && ys == [ys[0]] + ys[1..];
    }
  }
}
