/**
 Sending and receiving messages over a byte stream (`AwlSimMessageTransceiver`). The stream may
 be split anywhere: the socket takes and delivers as many bytes at a time as it likes.
 */
module Transceiver {
  import opened Bytes
  import opened Wire
  import opened Messages
  import opened Options

  const HDR_FORMAT := [H, H, H, H, I]
  const HDR_MAGIC := 0x5714
  const HDR_LENGTH := 12

  /** `toBytes`: the header and the payload. */
  function ToBytes(m: Message, nr: nat): Result<seq<byte>> {
    var payload :- ToPayload(m);
    var head :- PackStruct(HDR_FORMAT, [HDR_MAGIC, MsgId(m), nr, 0, |payload|]);
    Ok(head + payload)
  }

  // ----- receiving

  datatype Head = Head(msgId: nat, nr: nat, payloadLen: nat)

  /** The receive buffer, and the header once it is complete. */
  datatype Rx = Rx(buf: seq<byte>, head: Option<Head>)

  const IDLE := Rx([], None)

  /** What the socket does when it is asked for bytes. */
  datatype Recv = WouldBlock | RemoteClosed | Data(bytes: seq<byte>)

  datatype Outcome =
    | Nothing
    | Received(m: Message, nr: nat)
    | BlockingError
    | RemoteDied
    | BadMagic
    | BadMessage

  ghost predicate ValidRx(rx: Rx) {
    && (rx.head.Some? <==> |rx.buf| >= HDR_LENGTH)
    && (rx.head.Some? ==> |rx.buf| <= HDR_LENGTH + rx.head.value.payloadLen)
  }

  /** How many bytes a call asks the socket for; none if the frame is complete already. */
  function Wanted(rx: Rx): nat
    requires ValidRx(rx)
  {
    match rx.head
    case None => HDR_LENGTH - |rx.buf|
    case Some(h) => HDR_LENGTH + h.payloadLen - |rx.buf|
  }

  /** Take a complete frame out of the buffer. A frame that cannot be decoded stays there. */
  function Finished(rx: Rx): (Rx, Outcome)
    requires ValidRx(rx) && rx.head.Some?
  {
    match FromPayload(rx.head.value.msgId, rx.buf[HDR_LENGTH..])
    case Err => (rx, BadMessage)
    case Ok(m) => (IDLE, Received(m, rx.head.value.nr))
  }

  /** The bytes of a header have just become complete. */
  function HeadComplete(buf: seq<byte>): (Rx, Outcome)
    requires |buf| == HDR_LENGTH
  {
    var vs := UnpackAll(HDR_FORMAT, buf);
    var rx := Rx(buf, Some(Head(vs[1], vs[2], vs[4])));
    if vs[0] != HDR_MAGIC then (rx, BadMagic)
    else if vs[4] != 0 then (rx, Nothing)
    else Finished(rx)
  }

  /** One call of `receive`; `r` is what the socket does if it is asked for bytes. */
  function ReceiveCall(rx: Rx, r: Recv): (Rx, Outcome)
    requires ValidRx(rx) && (r.Data? ==> 0 < |r.bytes| <= Wanted(rx) || Wanted(rx) == 0)
  {
    if Wanted(rx) == 0 then Finished(rx)
    else
      match r
      case WouldBlock => (rx, if rx.head.None? then Nothing else BlockingError)
      case RemoteClosed => (rx, RemoteDied)
      case Data(bytes) =>
        var buf := rx.buf + bytes;
        if rx.head.None? then
          if |buf| < HDR_LENGTH then (Rx(buf, None), Nothing) else HeadComplete(buf)
        else if |buf| < HDR_LENGTH + rx.head.value.payloadLen then (rx.(buf := buf), Nothing)
        else Finished(rx.(buf := buf))
  }

  lemma ReceiveKeepsValid(rx: Rx, r: Recv)
    requires ValidRx(rx) && (r.Data? ==> 0 < |r.bytes| <= Wanted(rx) || Wanted(rx) == 0)
    ensures ValidRx(ReceiveCall(rx, r).0)
  {
  }

  /** A call tells that the peer is gone exactly if it asks a closed socket for bytes; it keeps its state then. */
  lemma DiesOfClosing(rx: Rx, r: Recv)
    requires ValidRx(rx) && (r.Data? ==> 0 < |r.bytes| <= Wanted(rx) || Wanted(rx) == 0)
    ensures ReceiveCall(rx, r).1 == RemoteDied <==> r == RemoteClosed && Wanted(rx) > 0
    ensures ReceiveCall(rx, r).1 == RemoteDied ==> ReceiveCall(rx, r).0 == rx
  {
    hide UnpackAll, FromPayload;
  }

  /** The socket delivers at most `k` of the bytes that are on their way. */
  function Delivery(incoming: seq<byte>, wanted: nat, k: nat): Recv {
    var n := if k <= wanted then k else wanted;
    var d := if n <= |incoming| then n else |incoming|;
    if d == 0 then WouldBlock else Data(incoming[..d])
  }

  /** Repeated calls, one per entry of the schedule: what is left, and what the calls returned. */
  function ReceiveAll(rx: Rx, incoming: seq<byte>, schedule: seq<nat>): (Rx, seq<byte>, seq<Outcome>)
    requires ValidRx(rx)
    decreases |schedule|
  {
    if schedule == [] then (rx, incoming, [])
    else
      var r := Delivery(incoming, Wanted(rx), schedule[0]);
      ReceiveKeepsValid(rx, r);
      var (rx', outcome) := ReceiveCall(rx, r);
      var left := if r.Data? then incoming[|r.bytes|..] else incoming;
      var (rx'', left', outcomes) := ReceiveAll(rx', left, schedule[1..]);
      (rx'', left', [outcome] + outcomes)
  }

  // ----- one frame

  /** The messages that arrive as they were sent. */
  predicate Sendable(m: Message) {
    Valid(m) && Canonical(m) && ToPayload(m).Ok? && |ToPayload(m).value| <= 0xFFFF_FFFF
  }

  function FrameOf(m: Message, nr: nat): seq<byte>
    requires Sendable(m) && nr < 0x1_0000
  {
    FrameExists(m, nr);
    ToBytes(m, nr).value
  }

  lemma IdFits(m: Message)
    ensures MsgId(m) < 0x1_0000
  {
  }

  lemma FrameExists(m: Message, nr: nat)
    requires Sendable(m) && nr < 0x1_0000
    ensures ToBytes(m, nr).Ok?
  {
    IdFits(m);
    hide ToPayload, Valid, Canonical, MsgId;
    Pow256Values();
    HeadIsPacked(MsgId(m), nr, |ToPayload(m).value|);
  }

  lemma HeadIsPacked(id: nat, nr: nat, len: nat)
    requires id < 0x1_0000 && nr < 0x1_0000 && len <= 0xFFFF_FFFF
    ensures PackStruct(HDR_FORMAT, [HDR_MAGIC, id, nr, 0, len]).Ok?
  {
    Pow256Values();
    assert PackStruct([I], [len]).Ok? by { assert PackStruct([], []).Ok?; }
    assert PackStruct([H, I], [0, len]).Ok?;
    assert PackStruct([H, H, I], [nr, 0, len]).Ok?;
    assert PackStruct([H, H, H, I], [id, nr, 0, len]).Ok?;
  }

  /** A frame starts with its header, and its payload decodes to the message. */
  lemma FrameFacts(m: Message, nr: nat)
    requires Sendable(m) && nr < 0x1_0000
    ensures var f, payload := FrameOf(m, nr), ToPayload(m).value;
            && |f| == HDR_LENGTH + |payload| && f[HDR_LENGTH..] == payload
            && UnpackAll(HDR_FORMAT, f[..HDR_LENGTH]) == [HDR_MAGIC, MsgId(m), nr, 0, |payload|]
            && FromPayload(MsgId(m), payload) == Ok(m)
  {
    assert Size(HDR_FORMAT) == HDR_LENGTH by { assert Size([H, H, I]) == 8; }
    hide ToPayload, Valid, Canonical, MsgId, PackStruct, UnpackAll, FromPayload, Size;
    FrameExists(m, nr);
    var vs := [HDR_MAGIC, MsgId(m), nr, 0, |ToPayload(m).value|];
    UnpackOfPack(HDR_FORMAT, vs);
    RoundTrip(m);
    assert FrameOf(m, nr)[..HDR_LENGTH] == PackStruct(HDR_FORMAT, vs).value;
  }

  /** The buffer holds a proper part of the frame in progress. */
  ghost predicate Inside(rx: Rx, m: Message, nr: nat)
    requires Sendable(m) && nr < 0x1_0000
  {
    && ValidRx(rx) && rx.buf < FrameOf(m, nr)
    && (rx.head.Some? ==> rx.head.value == Head(MsgId(m), nr, |ToPayload(m).value|))
  }

  lemma WantedIsInside(rx: Rx, m: Message, nr: nat)
    requires Sendable(m) && nr < 0x1_0000 && Inside(rx, m, nr)
    ensures 0 < Wanted(rx) <= |FrameOf(m, nr)| - |rx.buf|
  {
    hide Sendable, FrameOf;
    FrameFacts(m, nr);
  }

  lemma IdleIsInside(m: Message, nr: nat)
    requires Sendable(m) && nr < 0x1_0000
    ensures Inside(IDLE, m, nr)
  {
    hide Sendable, FrameOf;
    FrameFacts(m, nr);
  }

  /** A complete header is taken apart; a frame without payload is complete then. */
  lemma HeadInFrame(m: Message, nr: nat, buf: seq<byte>)
    requires Sendable(m) && nr < 0x1_0000 && |buf| == HDR_LENGTH && buf <= FrameOf(m, nr)
    ensures var (rx', outcome) := HeadComplete(buf);
            if buf == FrameOf(m, nr) then rx' == IDLE && outcome == Received(m, nr)
            else Inside(rx', m, nr) && rx'.buf == buf && outcome == Nothing
  {
    hide Sendable, FrameOf, FromPayload, UnpackAll, MsgId, ToPayload;
    FrameFacts(m, nr);
    assert buf == FrameOf(m, nr)[..HDR_LENGTH];
  }

  /** A complete frame is decoded. */
  lemma FinishedFrame(rx: Rx, m: Message, nr: nat)
    requires Sendable(m) && nr < 0x1_0000 && rx.buf == FrameOf(m, nr)
    requires ValidRx(rx) && rx.head == Some(Head(MsgId(m), nr, |ToPayload(m).value|))
    ensures Finished(rx) == (IDLE, Received(m, nr))
  {
    hide Sendable, FrameOf, FromPayload, MsgId, ToPayload;
    FrameFacts(m, nr);
  }

  /** Some more bytes of a frame: either it is still in progress, or its message has arrived. */
  lemma ReceiveInFrame(rx: Rx, m: Message, nr: nat, bytes: seq<byte>)
    requires Sendable(m) && nr < 0x1_0000 && Inside(rx, m, nr)
    requires 0 < |bytes| <= Wanted(rx) && rx.buf + bytes <= FrameOf(m, nr)
    ensures var (rx', outcome) := ReceiveCall(rx, Data(bytes));
            if rx.buf + bytes == FrameOf(m, nr) then rx' == IDLE && outcome == Received(m, nr)
            else Inside(rx', m, nr) && rx'.buf == rx.buf + bytes && outcome == Nothing
  {
    var f, buf := FrameOf(m, nr), rx.buf + bytes;
    hide Sendable, FrameOf, HeadComplete, Finished, MsgId, ToPayload;
    FrameFacts(m, nr);
    if rx.head.None? {
      if |buf| == HDR_LENGTH {
        HeadInFrame(m, nr, buf);
      }
    } else if buf == f {
      FinishedFrame(rx.(buf := buf), m, nr);
    }
  }

  // ----- whole streams

  ghost predicate AllSendable(ms: seq<Message>) {
    forall i :: 0 <= i < |ms| ==> Sendable(ms[i])
  }

  function NextNr(nr: nat): (r: nat)
    ensures r < 0x1_0000
  {
    (nr + 1) % 0x1_0000
  }

  /** The bytes of messages that are sent one after the other. */
  function Stream(ms: seq<Message>, nr: nat): seq<byte>
    requires AllSendable(ms) && nr < 0x1_0000
  {
    if ms == [] then [] else FrameOf(ms[0], nr) + Stream(ms[1..], NextNr(nr))
  }

  /** The messages with their sequence numbers. */
  function Numbered(ms: seq<Message>, nr: nat): seq<(Message, nat)> {
    if ms == [] then [] else [(ms[0], nr)] + Numbered(ms[1..], NextNr(nr))
  }

  /** What the calls have delivered. */
  function Delivered(outcomes: seq<Outcome>): seq<(Message, nat)> {
    if outcomes == [] then []
    else
      match outcomes[0]
      case Received(m, nr) => [(m, nr)] + Delivered(outcomes[1..])
      case _ => Delivered(outcomes[1..])
  }

  /** No call raises an error. */
  predicate NoFailure(outcomes: seq<Outcome>) {
    forall i :: 0 <= i < |outcomes| ==> outcomes[i].Nothing? || outcomes[i].Received?
  }

  /** The only error that calls raise is that of a socket that would block. */
  predicate OnlyBlocking(outcomes: seq<Outcome>) {
    forall i :: 0 <= i < |outcomes| ==> outcomes[i].Nothing? || outcomes[i].Received? || outcomes[i].BlockingError?
  }

  /** `rx` has taken a part of the first frame, and `incoming` is the rest of the stream. */
  ghost predicate Waiting(rx: Rx, incoming: seq<byte>, ms: seq<Message>, nr: nat)
    requires AllSendable(ms) && nr < 0x1_0000
  {
    && rx.buf + incoming == Stream(ms, nr)
    && if ms == [] then rx == IDLE else Inside(rx, ms[0], nr)
  }

  lemma TakenFromFrame(f: seq<byte>, rest: seq<byte>, buf: seq<byte>, incoming: seq<byte>, n: nat)
    requires buf + incoming == f + rest && n <= |incoming| && |buf| + n <= |f|
    ensures buf + incoming[..n] <= f && (buf + incoming[..n]) + incoming[n..] == f + rest
    ensures buf + incoming[..n] == f ==> incoming[n..] == rest
  {
    var more := buf + incoming[..n];
    assert more + incoming[n..] == buf + incoming;
    assert more == (f + rest)[..|more|] == f[..|more|];
    assert incoming[n..] == (f + rest)[|more|..];
  }

  /** A call that gets bytes. */
  lemma ReceiveData(rx: Rx, incoming: seq<byte>, ms: seq<Message>, nr: nat, n: nat)
    requires AllSendable(ms) && nr < 0x1_0000 && Waiting(rx, incoming, ms, nr) && ms != []
    requires ValidRx(rx) && 0 < n <= Wanted(rx) && n <= |incoming|
    ensures var (rx', outcome) := ReceiveCall(rx, Data(incoming[..n]));
            match outcome
            case Received(m, k) => m == ms[0] && k == nr && Waiting(rx', incoming[n..], ms[1..], NextNr(nr))
            case _ => outcome.Nothing? && Waiting(rx', incoming[n..], ms, nr)
  {
    var f, rest := FrameOf(ms[0], nr), Stream(ms[1..], NextNr(nr));
    assert Stream(ms, nr) == f + rest;
    if ms[1..] != [] {
      IdleIsInside(ms[1], NextNr(nr));
    }
    hide Sendable, FrameOf, ReceiveCall, Stream, Inside, Wanted;
    WantedIsInside(rx, ms[0], nr);
    TakenFromFrame(f, rest, rx.buf, incoming, n);
    ReceiveInFrame(rx, ms[0], nr, incoming[..n]);
    assert [] + incoming[n..] == incoming[n..];
  }

  /** One call, whatever the socket delivers. */
  lemma ReceiveStep(rx: Rx, incoming: seq<byte>, ms: seq<Message>, nr: nat, k: nat)
    requires AllSendable(ms) && nr < 0x1_0000 && Waiting(rx, incoming, ms, nr)
    ensures ValidRx(rx)
    ensures var r := Delivery(incoming, Wanted(rx), k);
            && (r.Data? ==> 0 < |r.bytes| <= Wanted(rx) && |r.bytes| <= |incoming|)
            && var (rx', outcome) := ReceiveCall(rx, r);
               var left := if r.Data? then incoming[|r.bytes|..] else incoming;
               && (k > 0 && incoming != [] ==> r.Data?)
               && match outcome
                  case Received(m, n) => ms != [] && m == ms[0] && n == nr && Waiting(rx', left, ms[1..], NextNr(nr))
                  case _ => (outcome.Nothing? || outcome.BlockingError?) && Waiting(rx', left, ms, nr)
  {
    var r := Delivery(incoming, Wanted(rx), k);
    if ms != [] {
      WantedIsInside(rx, ms[0], nr);
      if r.Data? {
        ReceiveData(rx, incoming, ms, nr, |r.bytes|);
      }
    }
  }

  /** The first call, and the calls behind it. */
  lemma ReceiveAllUnfolds(rx: Rx, incoming: seq<byte>, schedule: seq<nat>)
    requires ValidRx(rx) && schedule != []
    requires var r := Delivery(incoming, Wanted(rx), schedule[0]); r.Data? ==> 0 < |r.bytes| <= Wanted(rx)
    ensures var r := Delivery(incoming, Wanted(rx), schedule[0]);
            var (rx', outcome) := ReceiveCall(rx, r);
            var left := if r.Data? then incoming[|r.bytes|..] else incoming;
            && ValidRx(rx')
            && var all, rest := ReceiveAll(rx, incoming, schedule), ReceiveAll(rx', left, schedule[1..]);
               && all.0 == rest.0 && all.1 == rest.1 && all.2 == [outcome] + rest.2
               && (OnlyBlocking(rest.2) && (outcome.Nothing? || outcome.Received? || outcome.BlockingError?)
                   ==> OnlyBlocking(all.2))
               && Delivered(all.2) == if outcome.Received? then [(outcome.m,
                       outcome.nr)] + Delivered(rest.2) else Delivered(rest.2)
  {
    hide ReceiveCall, Delivery;
    ReceiveKeepsValid(rx, Delivery(incoming, Wanted(rx), schedule[0]));
  }

  /** One message more at the front. */
  lemma NumberedUnfolds(ms: seq<Message>, nr: nat, j: nat)
    requires j < |ms| && nr < 0x1_0000
    ensures Numbered(ms[..j + 1], nr) == [(ms[0], nr)] + Numbered(ms[1..][..j], NextNr(nr))
    ensures ms[1..][j..] == ms[j + 1..] && (NextNr(nr) + j) % 0x1_0000 == (nr + (j + 1)) % 0x1_0000
  {
    NextNrCounts(nr, j);
    hide NextNr;
    assert ms[..j + 1][1..] == ms[1..][..j];
  }

  lemma NextNrCounts(nr: nat, j: nat)
    ensures (NextNr(nr) + j) % 0x1_0000 == (nr + (j + 1)) % 0x1_0000
  {
  }

  /** No call so far has failed, and `j` messages of the stream have been delivered. */
  ghost predicate Reassembled(result: (Rx, seq<byte>, seq<Outcome>), ms: seq<Message>, nr: nat)
    requires AllSendable(ms) && nr < 0x1_0000
  {
    var j := |Delivered(result.2)|;
    && OnlyBlocking(result.2) && j <= |ms| && Delivered(result.2) == Numbered(ms[..j], nr)
    && Waiting(result.0, result.1, ms[j..], (nr + j) % 0x1_0000)
  }

  lemma ReassembledNext(all: (Rx, seq<byte>, seq<Outcome>), rest: (Rx, seq<byte>, seq<Outcome>), ms: seq<Message>,
                        nr: nat)
    requires AllSendable(ms) && nr < 0x1_0000 && ms != [] && Reassembled(rest, ms[1..], NextNr(nr))
    requires all.0 == rest.0 && all.1 == rest.1 && OnlyBlocking(all.2)
    requires Delivered(all.2) == [(ms[0], nr)] + Delivered(rest.2)
    ensures Reassembled(all, ms, nr)
  {
    hide Waiting, Delivered, Numbered, Sendable, OnlyBlocking;
    NumberedUnfolds(ms, nr, |Delivered(rest.2)|);
  }

  /**
   However the stream is split and however often the socket would block, repeated calls of
   `receive` deliver the sent messages in order, with their sequence numbers, and raise no error
   but that of a socket that blocks. What is left is a proper part of one frame in the buffer
   and the rest of the stream.
   */
  lemma {:induction false} StreamIsReassembled(rx: Rx, incoming: seq<byte>, ms: seq<Message>, nr: nat,
                                               schedule: seq<nat>)
    requires AllSendable(ms) && nr < 0x1_0000 && Waiting(rx, incoming, ms, nr)
    ensures ValidRx(rx) && Reassembled(ReceiveAll(rx, incoming, schedule), ms, nr)
    decreases |schedule|
  {
    hide *;
    if schedule == [] {
      NothingReceived(rx, incoming, ms, nr);
    } else {
      TailIsSendable(ms);
      ReceiveStep(rx, incoming, ms, nr, schedule[0]);
      ReceiveAllUnfolds(rx, incoming, schedule);
      var r := Delivery(incoming, Wanted(rx), schedule[0]);
      var (rx', outcome) := ReceiveCall(rx, r);
      var left := if r.Data? then incoming[|r.bytes|..] else incoming;
      var all := ReceiveAll(rx, incoming, schedule);
      if outcome.Received? {
        StreamIsReassembled(rx', left, ms[1..], NextNr(nr), schedule[1..]);
        ReassembledParts(ReceiveAll(rx', left, schedule[1..]), ms[1..], NextNr(nr));
        ReassembledNext(all, ReceiveAll(rx', left, schedule[1..]), ms, nr);
      } else {
        StreamIsReassembled(rx', left, ms, nr, schedule[1..]);
        ReassembledParts(ReceiveAll(rx', left, schedule[1..]), ms, nr);
        ReassembledSame(all, ReceiveAll(rx', left, schedule[1..]), ms, nr);
      }
    }
  }

  lemma TailIsSendable(ms: seq<Message>)
    requires AllSendable(ms)
    ensures ms != [] ==> AllSendable(ms[1..])
  {
  }

  lemma NothingReceived(rx: Rx, incoming: seq<byte>, ms: seq<Message>, nr: nat)
    requires AllSendable(ms) && nr < 0x1_0000 && Waiting(rx, incoming, ms, nr)
    ensures ValidRx(rx) && Reassembled(ReceiveAll(rx, incoming, []), ms, nr)
  {
    hide Sendable, Waiting, ValidRx, NextNr, ReceiveCall, Delivery;
    WaitingIsValid(rx, incoming, ms, nr);
    assert ms[0..] == ms && ms[..0] == [];
    assert ReceiveAll(rx, incoming, []) == (rx, incoming, []);
  }

  lemma WaitingIsValid(rx: Rx, incoming: seq<byte>, ms: seq<Message>, nr: nat)
    requires AllSendable(ms) && nr < 0x1_0000 && Waiting(rx, incoming, ms, nr)
    ensures ValidRx(rx)
  {
    hide Sendable, FrameOf;
  }

  lemma ReassembledParts(result: (Rx, seq<byte>, seq<Outcome>), ms: seq<Message>, nr: nat)
    requires AllSendable(ms) && nr < 0x1_0000 && Reassembled(result, ms, nr)
    ensures OnlyBlocking(result.2)
  {
    hide Sendable, Waiting, Delivered;
  }

  lemma ReassembledSame(all: (Rx, seq<byte>, seq<Outcome>), rest: (Rx, seq<byte>, seq<Outcome>), ms: seq<Message>,
                        nr: nat)
    requires AllSendable(ms) && nr < 0x1_0000 && Reassembled(rest, ms, nr)
    requires all.0 == rest.0 && all.1 == rest.1 && OnlyBlocking(all.2) && Delivered(all.2) == Delivered(rest.2)
    ensures Reassembled(all, ms, nr)
  {
    hide Waiting, Delivered, Numbered, Sendable, OnlyBlocking;
  }

  /** When all bytes have been taken from the socket, all messages have been delivered. */
  lemma NothingIsHeldBack(rx: Rx, ms: seq<Message>, nr: nat)
    requires AllSendable(ms) && nr < 0x1_0000 && Waiting(rx, [], ms, nr)
    ensures ms == [] && rx == IDLE
  {
    if ms != [] {
      hide Sendable, FrameOf;
      StreamIsLong(ms, nr);
    }
  }

  lemma StreamIsLong(ms: seq<Message>, nr: nat)
    requires AllSendable(ms) && nr < 0x1_0000 && ms != []
    ensures |Stream(ms, nr)| >= |FrameOf(ms[0], nr)|
  {
  }

  /** How many calls find the socket ready. */
  function Ready(schedule: seq<nat>): nat {
    if schedule == [] then 0 else (if schedule[0] > 0 then 1 else 0) + Ready(schedule[1..])
  }

  /** With a byte at least per ready call, enough calls take everything from the socket. */
  lemma {:induction false} EverythingIsTaken(rx: Rx, incoming: seq<byte>, ms: seq<Message>, nr: nat, schedule: seq<nat>)
    requires AllSendable(ms) && nr < 0x1_0000 && Waiting(rx, incoming, ms, nr) && Ready(schedule) >= |incoming|
    ensures ValidRx(rx) && ReceiveAll(rx, incoming, schedule).1 == []
    decreases |schedule|
  {
    if schedule == [] {
      hide Sendable, FrameOf, Waiting;
      WaitingIsValid(rx, incoming, ms, nr);
    } else {
      hide ReceiveCall, Waiting, Sendable, ReceiveAll, Delivered;
      ReceiveStep(rx, incoming, ms, nr, schedule[0]);
      ReceiveAllUnfolds(rx, incoming, schedule);
      var r := Delivery(incoming, Wanted(rx), schedule[0]);
      var (rx', outcome) := ReceiveCall(rx, r);
      var left := if r.Data? then incoming[|r.bytes|..] else incoming;
      if outcome.Received? {
        EverythingIsTaken(rx', left, ms[1..], NextNr(nr), schedule[1..]);
      } else {
        EverythingIsTaken(rx', left, ms, nr, schedule[1..]);
      }
    }
  }

  lemma IdleIsWaiting(ms: seq<Message>)
    requires AllSendable(ms)
    ensures Waiting(IDLE, Stream(ms, 0), ms, 0)
  {
    if ms != [] {
      IdleIsInside(ms[0], 0);
    }
    hide Sendable, FrameOf;
    assert [] + Stream(ms, 0) == Stream(ms, 0);
  }

  /** From the start of a connection, enough calls deliver exactly what was sent. */
  lemma AllIsDelivered(ms: seq<Message>, schedule: seq<nat>)
    requires AllSendable(ms) && Ready(schedule) >= |Stream(ms, 0)|
    ensures var (rx', left, outcomes) := ReceiveAll(IDLE, Stream(ms, 0), schedule);
            rx' == IDLE && left == [] && OnlyBlocking(outcomes) && Delivered(outcomes) == Numbered(ms, 0)
  {
    IdleIsWaiting(ms);
    hide Sendable, FrameOf, Waiting, ReceiveCall;
    StreamIsReassembled(IDLE, Stream(ms, 0), ms, 0, schedule);
    EverythingIsTaken(IDLE, Stream(ms, 0), ms, 0, schedule);
    var (rx', left, outcomes) := ReceiveAll(IDLE, Stream(ms, 0), schedule);
    var j := |Delivered(outcomes)|;
    NothingIsHeldBack(rx', ms[j..], j % 0x1_0000);
    assert ms[..j] == ms;
  }

  // ----- calls while the socket has nothing

  /** A call in this state raises the error of the socket if that would block. */
  predicate WantsPayload(rx: Rx)
    requires ValidRx(rx)
  {
    rx.head.Some? && Wanted(rx) > 0
  }

  /** The state after a call, and what is then left of the stream. */
  function AfterCall(rx: Rx, incoming: seq<byte>, k: nat): (Rx, seq<byte>)
    requires ValidRx(rx)
  {
    var r := Delivery(incoming, Wanted(rx), k);
    (ReceiveCall(rx, r).0, if r.Data? then incoming[|r.bytes|..] else incoming)
  }

  lemma AfterCallIsValid(rx: Rx, incoming: seq<byte>, k: nat)
    requires ValidRx(rx)
    ensures ValidRx(AfterCall(rx, incoming, k).0)
  {
    ReceiveKeepsValid(rx, Delivery(incoming, Wanted(rx), k));
  }

  /** One of the calls is made inside a payload while the socket has nothing to deliver. */
  predicate AsksInVain(rx: Rx, incoming: seq<byte>, schedule: seq<nat>)
    requires ValidRx(rx)
    decreases |schedule|
  {
    schedule != []
    && (|| (WantsPayload(rx) && (schedule[0] == 0 || incoming == []))
        || (AfterCallIsValid(rx, incoming, schedule[0]);
            var (rx', left) := AfterCall(rx, incoming, schedule[0]);
            AsksInVain(rx', left, schedule[1..])))
  }

  predicate RaisesBlocking(outcomes: seq<Outcome>) {
    exists i :: 0 <= i < |outcomes| && outcomes[i].BlockingError?
  }

  /** The one call of `receive` that raises the error of the socket. */
  lemma BlocksInPayload(rx: Rx, incoming: seq<byte>, k: nat)
    requires ValidRx(rx)
    ensures ReceiveCall(rx, Delivery(incoming, Wanted(rx), k)).1.BlockingError?
            <==> WantsPayload(rx) && (k == 0 || incoming == [])
  {
    hide UnpackAll, FromPayload;
  }

  lemma RaisesFirstOrLater(outcome: Outcome, rest: seq<Outcome>)
    ensures RaisesBlocking([outcome] + rest) <==> outcome.BlockingError? || RaisesBlocking(rest)
  {
    var all := [outcome] + rest;
    if i :| 0 <= i < |rest| && rest[i].BlockingError? {
      assert all[i + 1].BlockingError?;
    }
    if outcome.BlockingError? {
      assert all[0].BlockingError?;
    }
    if i :| 0 <= i < |all| && all[i].BlockingError? {
      assert i > 0 ==> rest[i - 1].BlockingError?;
    }
  }

  /**
   Only waiting for a header is guarded against a socket that blocks. Whatever arrives, some call
   raises the error of the socket exactly if some call is made inside a payload while the
   socket has nothing to deliver.
   */
  lemma {:induction false} BlockingIsRaised(rx: Rx, incoming: seq<byte>, schedule: seq<nat>)
    requires ValidRx(rx)
    ensures RaisesBlocking(ReceiveAll(rx, incoming, schedule).2) <==> AsksInVain(rx, incoming, schedule)
    decreases |schedule|
  {
    if schedule != [] {
      var r := Delivery(incoming, Wanted(rx), schedule[0]);
      DeliveryFits(rx, incoming, schedule[0]);
      BlocksInPayload(rx, incoming, schedule[0]);
      hide ReceiveCall, Delivery, Wanted, WantsPayload, ValidRx, RaisesBlocking;
      ReceiveAllUnfolds(rx, incoming, schedule);
      AfterCallIsValid(rx, incoming, schedule[0]);
      var (rx', left) := AfterCall(rx, incoming, schedule[0]);
      BlockingIsRaised(rx', left, schedule[1..]);
      RaisesFirstOrLater(ReceiveCall(rx, r).1, ReceiveAll(rx', left, schedule[1..]).2);
    }
  }

  lemma DeliveryFits(rx: Rx, incoming: seq<byte>, k: nat)
    requires ValidRx(rx)
    ensures var r := Delivery(incoming, Wanted(rx), k); r.Data? ==> 0 < |r.bytes| <= Wanted(rx)
  {
  }

  /** For sent messages: no call raises an error if and only if none asks in vain inside a payload. */
  lemma FailsExactlyInVain(rx: Rx, incoming: seq<byte>, ms: seq<Message>, nr: nat, schedule: seq<nat>)
    requires AllSendable(ms) && nr < 0x1_0000 && Waiting(rx, incoming, ms, nr)
    ensures ValidRx(rx)
    ensures NoFailure(ReceiveAll(rx, incoming, schedule).2) <==> !AsksInVain(rx, incoming, schedule)
  {
    hide Waiting, Sendable, ReceiveAll, AsksInVain, Delivered, ValidRx;
    StreamIsReassembled(rx, incoming, ms, nr, schedule);
    ReassembledParts(ReceiveAll(rx, incoming, schedule), ms, nr);
    BlockingIsRaised(rx, incoming, schedule);
  }

  predicate AlwaysReady(schedule: seq<nat>) {
    forall i :: 0 <= i < |schedule| ==> schedule[i] > 0
  }

  /** If the socket is ready whenever it is asked, and at the end of the stream, no call fails. */
  lemma {:induction false} ReadyNeverAsksInVain(rx: Rx, incoming: seq<byte>, ms: seq<Message>, nr: nat,
                                                schedule: seq<nat>)
    requires AllSendable(ms) && nr < 0x1_0000 && Waiting(rx, incoming, ms, nr) && AlwaysReady(schedule)
    ensures ValidRx(rx) && !AsksInVain(rx, incoming, schedule)
    decreases |schedule|
  {
    hide ReceiveCall, Waiting, Sendable, Stream;
    WaitingIsValid(rx, incoming, ms, nr);
    if schedule != [] {
      ReceiveStep(rx, incoming, ms, nr, schedule[0]);
      var (rx', left) := AfterCall(rx, incoming, schedule[0]);
      var outcome := ReceiveCall(rx, Delivery(incoming, Wanted(rx), schedule[0])).1;
      if incoming == [] {
        NothingIsHeldBack(rx, ms, nr);
      }
      if outcome.Received? {
        ReadyNeverAsksInVain(rx', left, ms[1..], NextNr(nr), schedule[1..]);
      } else {
        ReadyNeverAsksInVain(rx', left, ms, nr, schedule[1..]);
      }
    }
  }

  /** Calls that are made only when the socket is ready never fail, and deliver exactly what was sent. */
  lemma ReadyCallsNeverFail(ms: seq<Message>, schedule: seq<nat>)
    requires AllSendable(ms) && AlwaysReady(schedule) && |schedule| >= |Stream(ms, 0)|
    ensures var (rx', left, outcomes) := ReceiveAll(IDLE, Stream(ms, 0), schedule);
            rx' == IDLE && left == [] && NoFailure(outcomes) && Delivered(outcomes) == Numbered(ms, 0)
  {
    hide Waiting, Sendable, ReceiveAll, AsksInVain, Delivered, Stream;
    ReadyCounts(schedule);
    AllIsDelivered(ms, schedule);
    IdleIsWaiting(ms);
    ReadyNeverAsksInVain(IDLE, Stream(ms, 0), ms, 0, schedule);
    FailsExactlyInVain(IDLE, Stream(ms, 0), ms, 0, schedule);
  }

  lemma {:induction false} ReadyCounts(schedule: seq<nat>)
    requires AlwaysReady(schedule)
    ensures Ready(schedule) == |schedule|
  {
    if schedule != [] {
      ReadyCounts(schedule[1..]);
    }
  }

  /**
   It happens for every message that has a payload: if the header has arrived and the socket would
   block on the next call, that call raises the error of the socket.
   */
  lemma BlockingEscapes(m: Message, nr: nat, more: seq<byte>)
    requires Sendable(m) && nr < 0x1_0000 && ToPayload(m).value != []
    ensures ReceiveAll(IDLE, FrameOf(m, nr) + more, [HDR_LENGTH, 0]).2 == [Nothing, BlockingError]
  {
    var stream := FrameOf(m, nr) + more;
    HeaderTaken(m, nr, more);
    hide *;
    var rx, rest := ReceiveCall(IDLE, Delivery(stream, HDR_LENGTH, HDR_LENGTH)).0, stream[HDR_LENGTH..];
    TwoCalls(stream, rest);
    PayloadBlocks(rx, m, nr, rest);
  }

  /** The first call takes the header. */
  lemma HeaderTaken(m: Message, nr: nat, more: seq<byte>)
    requires Sendable(m) && nr < 0x1_0000 && ToPayload(m).value != []
    ensures |FrameOf(m, nr) + more| > HDR_LENGTH && Wanted(IDLE) == HDR_LENGTH
    ensures var r := Delivery(FrameOf(m, nr) + more, HDR_LENGTH, HDR_LENGTH);
            && r == Data((FrameOf(m, nr) + more)[..HDR_LENGTH])
            && var (rx, outcome) := ReceiveCall(IDLE, r);
               outcome == Nothing && Inside(rx, m, nr) && |rx.buf| == HDR_LENGTH
  {
    FrameFacts(m, nr);
    IdleIsInside(m, nr);
    var head := FrameOf(m, nr)[..HDR_LENGTH];
    assert (FrameOf(m, nr) + more)[..HDR_LENGTH] == head && [] + head == head;
    hide Sendable, FrameOf, ToPayload, MsgId, FromPayload, ReceiveCall;
    ReceiveInFrame(IDLE, m, nr, head);
  }

  /** The next call finds the socket not ready. */
  lemma PayloadBlocks(rx: Rx, m: Message, nr: nat, rest: seq<byte>)
    requires Sendable(m) && nr < 0x1_0000 && Inside(rx, m, nr) && |rx.buf| == HDR_LENGTH
    ensures ValidRx(rx) && ReceiveCall(rx, Delivery(rest, Wanted(rx), 0)) == (rx, BlockingError)
  {
    hide Sendable, FrameOf;
    WantedIsInside(rx, m, nr);
  }

  lemma TwoCalls(stream: seq<byte>, rest: seq<byte>)
    requires |stream| > HDR_LENGTH && rest == stream[HDR_LENGTH..]
    requires Wanted(IDLE) == HDR_LENGTH && Delivery(stream, HDR_LENGTH, HDR_LENGTH) == Data(stream[..HDR_LENGTH])
    ensures var (rx, first) := ReceiveCall(IDLE, Delivery(stream, HDR_LENGTH, HDR_LENGTH));
            && ValidRx(rx)
            && ReceiveAll(IDLE, stream, [HDR_LENGTH, 0]).2 == [first, ReceiveCall(rx, Delivery(rest, Wanted(rx), 0)).1]
  {
    hide HeadComplete, Finished;
    var rx := ReceiveCall(IDLE, Delivery(stream, HDR_LENGTH, HDR_LENGTH)).0;
    ReceiveKeepsValid(IDLE, Delivery(stream, HDR_LENGTH, HDR_LENGTH));
    hide ReceiveCall;
    assert [HDR_LENGTH, 0][1..] == [0] && [0][1..] == [];
    ReceiveAllUnfolds(IDLE, stream, [HDR_LENGTH, 0]);
    DeliveryFits(rx, rest, 0);
    ReceiveAllUnfolds(rx, rest, [0]);
  }

  /** The numbers count modulo 65536. */
  lemma {:induction false} NumbersCount(ms: seq<Message>, nr: nat, i: nat)
    requires nr < 0x1_0000 && i < |ms|
    ensures |Numbered(ms, nr)| == |ms| && Numbered(ms, nr)[i] == (ms[i], (nr + i) % 0x1_0000)
    decreases |ms|
  {
    hide NextNr;
    if |ms| > 1 {
      NumbersCount(ms[1..], NextNr(nr), if i > 0 then i - 1 else 0);
      NextNrCounts(nr, if i > 0 then i - 1 else 0);
    }
  }

  // ----- sending

  /** The number of the message behind `n` others. */
  function NrAfter(nr: nat, n: nat): (r: nat)
    ensures r < 0x1_0000
  {
    (nr + n) % 0x1_0000
  }

  lemma NrAfterNext(nr: nat, n: nat)
    ensures nr < 0x1_0000 && n == 0 ==> NrAfter(nr, n) == nr
    ensures n > 0 ==> NrAfter(nr, n) == NrAfter(NextNr(nr), n - 1)
  {
    if n > 0 {
      NextNrCounts(nr, n - 1);
    }
  }

  /** Sending one more message appends its frame, numbered with the count of the messages before it. */
  lemma {:induction false} StreamGrows(ms: seq<Message>, m: Message, nr: nat)
    requires AllSendable(ms + [m]) && AllSendable(ms) && nr < 0x1_0000
    ensures Sendable(m)
    ensures Stream(ms + [m], nr) == Stream(ms, nr) + FrameOf(m, NrAfter(nr, |ms|))
    decreases |ms|
  {
    hide *;
    LastIsSendable(ms, m);
    StreamUnfolds(ms + [m], nr);
    StreamUnfolds(ms, nr);
    if ms == [] {
      assert [m][1..] == [] && ms + [m] == [m];
      StreamUnfolds([], NextNr(nr));
      NrAfterNext(nr, 0);
      Associate([], FrameOf(m, nr), []);
    } else {
      assert (ms + [m])[1..] == ms[1..] + [m];
      TailIsSendable(ms);
      StreamGrows(ms[1..], m, NextNr(nr));
      NrAfterNext(nr, |ms|);
      Associate(FrameOf(ms[0], nr), Stream(ms[1..], NextNr(nr)), FrameOf(m, NrAfter(nr, |ms|)));
    }
  }

  lemma LastIsSendable(ms: seq<Message>, m: Message)
    requires AllSendable(ms + [m])
    ensures Sendable(m)
  {
    hide Sendable;
    assert Sendable((ms + [m])[|ms|]);
  }

  lemma StreamUnfolds(ms: seq<Message>, nr: nat)
    requires AllSendable(ms) && nr < 0x1_0000
    ensures ms == [] ==> Stream(ms, nr) == []
    ensures ms != [] ==> AllSendable(ms[1..]) && Sendable(ms[0])
                         && Stream(ms, nr) == FrameOf(ms[0], nr) + Stream(ms[1..], NextNr(nr))
  {
  }

  lemma Associate(a: seq<byte>, b: seq<byte>, c: seq<byte>)
    ensures a + (b + c) == a + b + c
  {
  }

  /**
   A socket. `arrivals` and `accepts` say how many bytes the next calls deliver and take at
   most, 0 if they would block; when there is no more entry, a call delivers or takes
   everything it can.
   */
  class Socket {
    var incoming: seq<byte>
    var outgoing: seq<byte>
    var closed: bool
    var arrivals: seq<nat>
    var accepts: seq<nat>

    function Reply(n: nat): Recv
      reads this
    {
      if closed && incoming == [] then RemoteClosed
      else Delivery(incoming, n, if arrivals == [] then n else arrivals[0])
    }

    method Recv(n: nat) returns (r: Recv)
      requires n > 0
      modifies this`incoming, this`arrivals
      ensures r == old(Reply(n))
      ensures incoming == if r.Data? then old(incoming)[|r.bytes|..] else old(incoming)
      ensures arrivals == if old(arrivals) == [] then [] else old(arrivals)[1..]
    {
      r := Reply(n);
      if r.Data? {
        incoming := incoming[|r.bytes|..];
      }
      if arrivals != [] {
        arrivals := arrivals[1..];
      }
    }

    /** How many of the bytes the socket has taken. */
    method Send(data: seq<byte>) returns (n: nat)
      modifies this`outgoing, this`accepts
      ensures n <= |data| && outgoing == old(outgoing) + data[..n]
      ensures old(accepts) == [] ==> n == |data| && accepts == []
      ensures old(accepts) != [] ==> accepts == old(accepts)[1..]
    {
      n := if accepts == [] || accepts[0] > |data| then |data| else accepts[0];
      outgoing := outgoing + data[..n];
      if accepts != [] {
        accepts := accepts[1..];
      }
    }
  }

  class MessageTransceiver {
    const sock: Socket
    var txSeqCount: nat
    var buf: seq<byte>
    var msgId: Option<nat>
    var nr: Option<nat>
    var payloadLen: Option<nat>

    /** The receive state. */
    function State(): Rx
      reads this
    {
      Rx(buf, if msgId.Some? && nr.Some? && payloadLen.Some? then Some(Head(msgId.value, nr.value,
              payloadLen.value)) else None)
    }

    ghost predicate Valid()
      reads this
    {
      txSeqCount < 0x1_0000 && ValidRx(State()) && (msgId.Some? <==> nr.Some?) && (msgId.Some? <==> payloadLen.Some?)
    }

    constructor (sock: Socket)
      ensures Valid() && State() == IDLE && txSeqCount == 0 && this.sock == sock
    {
      this.sock := sock;
      txSeqCount, buf, msgId, nr, payloadLen := 0, [], None, None, None;
    }

    /**
     Send a message, in as many portions as the socket needs. A message that cannot be encoded
     is not sent, but uses up its sequence number.
     */
    method Send(m: Message) returns (ok: bool)
      requires Valid()
      modifies this`txSeqCount, sock`outgoing, sock`accepts
      ensures Valid() && txSeqCount == NextNr(old(txSeqCount))
      ensures ok <==> ToBytes(m, old(txSeqCount)).Ok?
      ensures sock.outgoing == if ok then old(sock.outgoing) + ToBytes(m, old(txSeqCount)).value else old(sock.outgoing)
    {
      hide ToBytes;
      var data := ToBytes(m, txSeqCount);
      txSeqCount := NextNr(txSeqCount);
      if data.Err? {
        return false;
      }
      var offset := 0;
      assert data.value[..0] == [];
      while offset < |data.value|
        invariant Valid() && txSeqCount == NextNr(old(txSeqCount)) && offset <= |data.value|
        invariant sock.outgoing == old(sock.outgoing) + data.value[..offset]
        decreases |data.value| - offset, |sock.accepts|
      {
        var n := sock.Send(data.value[offset..]);
        assert data.value[..offset] + data.value[offset..][..n] == data.value[..offset + n];
        offset := offset + n;
      }
      assert offset == |data.value| && data.value[..offset] == data.value;
      return true;
    }

    /** Decode the complete frame in the buffer. */
    method Finish() returns (outcome: Outcome)
      requires Valid() && msgId.Some?
      modifies this`buf, this`msgId, this`nr, this`payloadLen
      ensures Valid() && (State(), outcome) == old(Finished(State()))
    {
      var msg := FromPayload(msgId.value, buf[HDR_LENGTH..]);
      if msg.Err? {
        return BadMessage;
      }
      outcome := Received(msg.value, nr.value);
      buf, msgId, nr, payloadLen := [], None, None, None;
    }

    /** Receive bytes of a header. The call goes on if the header says that there is no payload. */
    method ReceiveHead() returns (stop: Option<Outcome>)
      requires Valid() && |buf| < HDR_LENGTH
      modifies this`buf, this`msgId, this`nr, this`payloadLen, sock`incoming, sock`arrivals
      ensures Valid() && (stop.None? ==> msgId.Some? && Wanted(State()) == 0)
      ensures var r := old(sock.Reply(Wanted(State())));
              && sock.incoming == (if r.Data? then old(sock.incoming)[|r.bytes|..] else old(sock.incoming))
              && old(ReceiveCall(State(), sock.Reply(Wanted(State()))))
                 == if stop.Some? then (State(), stop.value) else Finished(State())
    {
      hide FromPayload, UnpackAll, Finished;
      var r := sock.Recv(HDR_LENGTH - |buf|);
      if r.WouldBlock? {
        return Some(Nothing);
      } else if r.RemoteClosed? {
        return Some(RemoteDied);
      }
      buf := buf + r.bytes;
      if |buf| < HDR_LENGTH {
        return Some(Nothing);
      }
      var vs := UnpackAll(HDR_FORMAT, buf);
      msgId, nr, payloadLen := Some(vs[1]), Some(vs[2]), Some(vs[4]);
      if vs[0] != HDR_MAGIC {
        return Some(BadMagic);
      }
      if vs[4] != 0 {
        return Some(Nothing);
      }
      return None;
    }

    /** Receive bytes of a payload. The call goes on if it is complete. */
    method ReceivePayload() returns (stop: Option<Outcome>)
      requires Valid() && msgId.Some? && Wanted(State()) > 0
      modifies this`buf, sock`incoming, sock`arrivals
      ensures Valid() && State().head == old(State().head)
      ensures var r := old(sock.Reply(Wanted(State())));
              && sock.incoming == (if r.Data? then old(sock.incoming)[|r.bytes|..] else old(sock.incoming))
              && old(ReceiveCall(State(), sock.Reply(Wanted(State()))))
                 == if stop.Some? then (State(), stop.value) else Finished(State())
    {
      hide FromPayload, UnpackAll, Finished, HeadComplete;
      var r := sock.Recv(HDR_LENGTH + payloadLen.value - |buf|);
      if r.WouldBlock? {
        return Some(BlockingError);
      } else if r.RemoteClosed? {
        return Some(RemoteDied);
      }
      buf := buf + r.bytes;
      return if |buf| < HDR_LENGTH + payloadLen.value then Some(Nothing) else None;
    }

    /** Receive bytes once, and return a message if one is complete. */
    method Receive() returns (outcome: Outcome)
      requires Valid()
      modifies this`buf, this`msgId, this`nr, this`payloadLen, sock`incoming, sock`arrivals
      ensures Valid()
      ensures (State(), outcome) == old(ReceiveCall(State(), sock.Reply(Wanted(State()))))
      ensures var r := old(sock.Reply(Wanted(State())));
              sock.incoming == if r.Data? then old(sock.incoming)[|r.bytes|..] else old(sock.incoming)
      ensures outcome == RemoteDied <==> old(sock.closed && sock.incoming == [] && Wanted(State()) > 0)
      ensures outcome == RemoteDied ==> State() == old(State())
    {
      DiesOfClosing(State(), sock.Reply(Wanted(State())));
      hide FromPayload, UnpackAll, Finished, HeadComplete;
      if |buf| < HDR_LENGTH {
        var stop := ReceiveHead();
        if stop.Some? {
          return stop.value;
        }
      }
      if |buf| < HDR_LENGTH + payloadLen.value {
        var stop := ReceivePayload();
        if stop.Some? {
          return stop.value;
        }
      }
      outcome := Finish();
    }
  }
}
