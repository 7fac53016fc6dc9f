/**
 Any frame, well-formed or not, on its way through the receiver. The magic value of its header
 is looked at only once, by the call that completes the header.
 */
module FrameArrival {
  import opened Bytes
  import opened Wire
  import opened Messages
  import opened Options
  import opened Transceiver

  /**
   The outcomes that say something about a frame: all but `Nothing`, and the error that a socket
   raises which would block inside a payload.
   */
  function Told(outcomes: seq<Outcome>): seq<Outcome> {
    if outcomes == [] then []
    else if outcomes[0].Nothing? || outcomes[0].BlockingError? then Told(outcomes[1..])
    else [outcomes[0]] + Told(outcomes[1..])
  }

  /** What a frame says, whatever its magic value is. */
  function Said(h: Head, payload: seq<byte>): Outcome {
    match FromPayload(h.msgId, payload)
    case Err => BadMessage
    case Ok(m) => Received(m, h.nr)
  }

  /** The header fields in the bytes of a header. */
  function HeadOf(head: seq<byte>): Head
    requires |head| == HDR_LENGTH
  {
    var vs := UnpackAll(HDR_FORMAT, head);
    Head(vs[1], vs[2], vs[4])
  }

  predicate GoodMagic(head: seq<byte>)
    requires |head| == HDR_LENGTH
  {
    UnpackAll(HDR_FORMAT, head)[0] == HDR_MAGIC
  }

  // ----- behind the header

  /** The header has been taken, and a part of the payload. */
  ghost predicate InPayload(rx: Rx, incoming: seq<byte>, h: Head, payload: seq<byte>, more: seq<byte>) {
    && ValidRx(rx) && rx.head == Some(h) && |payload| == h.payloadLen
    && rx.buf[HDR_LENGTH..] + incoming == payload + more
  }

  lemma FinishedSays(rx: Rx, incoming: seq<byte>, h: Head, payload: seq<byte>, more: seq<byte>)
    requires InPayload(rx, incoming, h, payload, more) && Wanted(rx) == 0
    ensures Finished(rx).1 == Said(h, payload)
  {
    assert rx.buf[HDR_LENGTH..] == (payload + more)[..|payload|] == payload;
    hide FromPayload;
  }

  lemma TakenFrom(taken: seq<byte>, incoming: seq<byte>, all: seq<byte>, n: nat)
    requires taken + incoming == all && n <= |incoming|
    ensures (taken + incoming[..n]) + incoming[n..] == all
  {
  }

  lemma PayloadData(rx: Rx, incoming: seq<byte>, h: Head, payload: seq<byte>, more: seq<byte>, n: nat)
    requires InPayload(rx, incoming, h, payload, more) && 0 < n <= Wanted(rx) && n <= |incoming|
    ensures var (rx', outcome) := ReceiveCall(rx, Data(incoming[..n]));
            || outcome == Said(h, payload)
            || (outcome.Nothing? && InPayload(rx', incoming[n..], h, payload, more) && Wanted(rx') == Wanted(rx) - n)
  {
    var buf := rx.buf + incoming[..n];
    assert buf[HDR_LENGTH..] == rx.buf[HDR_LENGTH..] + incoming[..n];
    TakenFrom(rx.buf[HDR_LENGTH..], incoming, payload + more, n);
    hide Finished, Said, HeadComplete;
    if n == Wanted(rx) {
      FinishedSays(rx.(buf := buf), incoming[n..], h, payload, more);
    }
  }

  /** One call: it says what the frame says, or it waits for the rest of the payload. */
  lemma PayloadStep(rx: Rx, incoming: seq<byte>, h: Head, payload: seq<byte>, more: seq<byte>, k: nat)
    requires InPayload(rx, incoming, h, payload, more)
    ensures var r := Delivery(incoming, Wanted(rx), k);
            && (r.Data? ==> 0 < |r.bytes| <= Wanted(rx))
            && var (rx', outcome) := ReceiveCall(rx, r);
               var left := if r.Data? then incoming[|r.bytes|..] else incoming;
               || outcome == Said(h, payload)
               || (&& (outcome.Nothing? || outcome.BlockingError?) && InPayload(rx', left, h, payload, more)
                   && Wanted(rx') <= Wanted(rx) - (if k > 0 then 1 else 0))
  {
    var r := Delivery(incoming, Wanted(rx), k);
    hide Said, HeadComplete, Finished;
    assert |rx.buf[HDR_LENGTH..] + incoming| >= |payload|;
    if Wanted(rx) == 0 {
      FinishedSays(rx, incoming, h, payload, more);
    } else if r.Data? {
      PayloadData(rx, incoming, h, payload, more, |r.bytes|);
    }
  }

  lemma ToldUnfolds(outcome: Outcome, rest: seq<Outcome>)
    ensures Told([outcome] + rest)
            == if outcome.Nothing? || outcome.BlockingError? then Told(rest) else [outcome] + Told(rest)
  {
    assert ([outcome] + rest)[1..] == rest;
  }

  lemma SaidIsTold(h: Head, payload: seq<byte>)
    ensures Said(h, payload).Received? || Said(h, payload).BadMessage?
  {
    hide FromPayload;
  }

  /** However the payload is delivered, the first thing that is told is what the frame says. */
  lemma {:induction false} PayloadArrives(rx: Rx, incoming: seq<byte>, h: Head, payload: seq<byte>, more: seq<byte>,
                                          schedule: seq<nat>)
    requires InPayload(rx, incoming, h, payload, more)
    ensures ValidRx(rx)
    ensures var told := Told(ReceiveAll(rx, incoming, schedule).2);
            && (told != [] ==> told[0] == Said(h, payload))
            && (Ready(schedule) > Wanted(rx) ==> told != [])
    decreases |schedule|
  {
    if schedule != [] {
      hide ReceiveCall, Delivery, ReceiveAll, Told, Said, Wanted, ValidRx;
      PayloadStep(rx, incoming, h, payload, more, schedule[0]);
      ReceiveAllUnfolds(rx, incoming, schedule);
      var r := Delivery(incoming, Wanted(rx), schedule[0]);
      var (rx', outcome) := ReceiveCall(rx, r);
      var left := if r.Data? then incoming[|r.bytes|..] else incoming;
      ToldUnfolds(outcome, ReceiveAll(rx', left, schedule[1..]).2);
      if outcome == Said(h, payload) {
        SaidIsTold(h, payload);
      } else {
        PayloadArrives(rx', left, h, payload, more, schedule[1..]);
      }
    }
  }

  // ----- the header

  /** A part of the header has been taken, but not all of it. */
  ghost predicate InHeader(rx: Rx, incoming: seq<byte>, head: seq<byte>, payload: seq<byte>, more: seq<byte>) {
    && |head| == HDR_LENGTH && |payload| == HeadOf(head).payloadLen
    && rx.head == None && |rx.buf| < HDR_LENGTH && rx.buf + incoming == head + (payload + more)
  }

  /** The call that completes the header. */
  lemma HeaderCompletes(head: seq<byte>, payload: seq<byte>, more: seq<byte>)
    requires |head| == HDR_LENGTH && |payload| == HeadOf(head).payloadLen
    ensures var (rx', outcome) := HeadComplete(head);
            if GoodMagic(head) && payload == [] then outcome == Said(HeadOf(head), payload)
            else && InPayload(rx', payload + more, HeadOf(head), payload, more) && Wanted(rx') == |payload|
                 && outcome == if GoodMagic(head) then Nothing else BadMagic
  {
    hide UnpackAll, FromPayload;
    assert head[HDR_LENGTH..] == [] && [] + (payload + more) == payload + more;
  }

  lemma HeaderData(rx: Rx, incoming: seq<byte>, head: seq<byte>, payload: seq<byte>, more: seq<byte>, n: nat)
    requires InHeader(rx, incoming, head, payload, more) && 0 < n <= HDR_LENGTH - |rx.buf| && n <= |incoming|
    ensures ValidRx(rx) && Wanted(rx) == HDR_LENGTH - |rx.buf|
    ensures var call := ReceiveCall(rx, Data(incoming[..n]));
            if |rx.buf| + n == HDR_LENGTH then call == HeadComplete(head) && incoming[n..] == payload + more
            else && call.1 == Nothing && InHeader(call.0, incoming[n..], head, payload, more)
                 && |call.0.buf| == |rx.buf| + n
  {
    var buf := rx.buf + incoming[..n];
    TakenFrom(rx.buf, incoming, head + (payload + more), n);
    assert buf == (head + (payload + more))[..|rx.buf| + n];
    hide HeadComplete, HeadOf;
    if |buf| == HDR_LENGTH {
      assert buf == head && incoming[n..] == (head + (payload + more))[HDR_LENGTH..];
    }
  }

  /** What is told of a frame: a wrong magic value, if it has one, and then nevertheless what it says. */
  ghost predicate ToldOf(told: seq<Outcome>, head: seq<byte>, payload: seq<byte>)
    requires |head| == HDR_LENGTH
  {
    var skip := if GoodMagic(head) then 0 else 1;
    && (skip == 1 && told != [] ==> told[0] == BadMagic)
    && (|told| > skip ==> told[skip] == Said(HeadOf(head), payload))
  }

  lemma ToldBehindMagic(head: seq<byte>, payload: seq<byte>, rest: seq<Outcome>)
    requires |head| == HDR_LENGTH && (rest != [] ==> rest[0] == Said(HeadOf(head), payload))
    ensures GoodMagic(head) ==> ToldOf(rest, head, payload)
    ensures !GoodMagic(head) ==> ToldOf([BadMagic] + rest, head, payload)
  {
    hide GoodMagic, HeadOf, Said;
  }

  /** How many outcomes tell everything about a frame. */
  function Enough(head: seq<byte>): nat
    requires |head| == HDR_LENGTH
  {
    if GoodMagic(head) then 1 else 2
  }

  /**
   However a frame is delivered, this is what the calls tell. The error of a blocking socket is
   raised exactly if a call asks in vain inside a payload.
   */
  lemma FrameArrives(rx: Rx, incoming: seq<byte>, head: seq<byte>, payload: seq<byte>, more: seq<byte>,
                     schedule: seq<nat>)
    requires InHeader(rx, incoming, head, payload, more)
    ensures ValidRx(rx)
    ensures var told := Told(ReceiveAll(rx, incoming, schedule).2);
            && ToldOf(told, head, payload)
            && (Ready(schedule) > HDR_LENGTH - |rx.buf| + |payload| ==> |told| >= Enough(head))
    ensures RaisesBlocking(ReceiveAll(rx, incoming, schedule).2) <==> AsksInVain(rx, incoming, schedule)
  {
    hide HeadOf, RaisesBlocking, AsksInVain, Told, ReceiveAll, ToldOf, Ready;
    BlockingIsRaised(rx, incoming, schedule);
    FrameIsTold(rx, incoming, head, payload, more, schedule);
  }

  lemma {:induction false} FrameIsTold(rx: Rx, incoming: seq<byte>, head: seq<byte>, payload: seq<byte>,
                                       more: seq<byte>, schedule: seq<nat>)
    requires InHeader(rx, incoming, head, payload, more)
    ensures ValidRx(rx)
    ensures var told := Told(ReceiveAll(rx, incoming, schedule).2);
            && ToldOf(told, head, payload)
            && (Ready(schedule) > HDR_LENGTH - |rx.buf| + |payload| ==> |told| >= Enough(head))
    decreases |schedule|
  {
    if schedule == [] {
      hide GoodMagic, HeadOf, Said;
    } else {
      var r := Delivery(incoming, Wanted(rx), schedule[0]);
      var left := if r.Data? then incoming[|r.bytes|..] else incoming;
      assert |incoming| > 0 by { assert |rx.buf + incoming| == |head + (payload + more)|; }
      hide ReceiveAll, Told, Said, HeadComplete, HeadOf, GoodMagic, ToldOf;
      if r.Data? {
        HeaderData(rx, incoming, head, payload, more, |r.bytes|);
      }
      ReceiveAllUnfolds(rx, incoming, schedule);
      var (rx', outcome) := ReceiveCall(rx, r);
      ToldUnfolds(outcome, ReceiveAll(rx', left, schedule[1..]).2);
      hide ReceiveCall, Delivery;
      if !r.Data? || |rx.buf| + |r.bytes| < HDR_LENGTH {
        FrameIsTold(rx', left, head, payload, more, schedule[1..]);
      } else {
        AfterHeader(head, payload, more, schedule[1..]);
      }
    }
  }

  lemma AfterHeader(head: seq<byte>, payload: seq<byte>, more: seq<byte>, schedule: seq<nat>)
    requires |head| == HDR_LENGTH && |payload| == HeadOf(head).payloadLen
    ensures var (rx', outcome) := HeadComplete(head);
            && ValidRx(rx')
            && var told := Told([outcome] + ReceiveAll(rx', payload + more, schedule).2);
               && ToldOf(told, head, payload) && (Ready(schedule) > |payload| ==> |told| >= Enough(head))
  {
    var (rx', outcome) := HeadComplete(head);
    HeaderCompletes(head, payload, more);
    hide HeadComplete, ReceiveAll, Told, Said, HeadOf, GoodMagic, UnpackAll;
    ToldUnfolds(outcome, ReceiveAll(rx', payload + more, schedule).2);
    if GoodMagic(head) && payload == [] {
      SaidIsTold(HeadOf(head), payload);
    } else {
      PayloadArrives(rx', payload + more, HeadOf(head), payload, more, schedule);
      ToldBehindMagic(head, payload, Told(ReceiveAll(rx', payload + more, schedule).2));
    }
  }

  /**
   A frame with a wrong magic value is refused by one call only. However the frame is delivered,
   and whatever follows it, the first thing the calls tell is the wrong value, and the second
   thing is a message `m` exactly if the payload decodes to `m`.
   */
  lemma BadMagicIsForgotten(head: seq<byte>, payload: seq<byte>, more: seq<byte>, schedule: seq<nat>, m: Message)
    requires |head| == HDR_LENGTH && !GoodMagic(head) && |payload| == HeadOf(head).payloadLen
    requires Ready(schedule) > |head + payload|
    ensures var told := Told(ReceiveAll(IDLE, head + payload + more, schedule).2);
            && |told| >= 2 && told[0] == BadMagic
            && (told[1] == Received(m, HeadOf(head).nr) <==> FromPayload(HeadOf(head).msgId, payload) == Ok(m))
            && (told[1] == BadMessage <==> FromPayload(HeadOf(head).msgId, payload) == Err)
  {
    assert [] + (head + payload + more) == head + payload + more == head + (payload + more);
    hide ReceiveAll, Told, HeadOf, GoodMagic, FromPayload, Ready;
    FrameArrives(IDLE, head + payload + more, head, payload, more, schedule);
  }

  /** The header of a message with another magic value. */
  function OtherHeader(m: Message, nr: nat, magic: nat): (head: seq<byte>)
    requires Sendable(m) && nr < 0x1_0000 && magic < 0x1_0000
    ensures |head| == HDR_LENGTH
    ensures HeadOf(head) == Head(MsgId(m), nr, |ToPayload(m).value|)
    ensures GoodMagic(head) <==> magic == HDR_MAGIC
  {
    IdFits(m);
    HeaderUnpacks(magic, MsgId(m), nr, |ToPayload(m).value|);
    PackStruct(HDR_FORMAT, [magic, MsgId(m), nr, 0, |ToPayload(m).value|]).value
  }

  lemma HeaderUnpacks(magic: nat, id: nat, nr: nat, len: nat)
    requires magic < 0x1_0000 && id < 0x1_0000 && nr < 0x1_0000 && len <= 0xFFFF_FFFF
    ensures var vs := [magic, id, nr, 0, len];
            var head := PackStruct(HDR_FORMAT, vs);
            head.Ok? && |head.value| == HDR_LENGTH && UnpackAll(HDR_FORMAT, head.value) == vs
  {
    Pow256Values();
    assert Size(HDR_FORMAT) == HDR_LENGTH by { assert Size([H, H, I]) == 8; }
    HeadIsPacked(id, nr, len);
    PackedAnyway(magic, id, nr, len);
    hide PackStruct, UnpackAll, Size;
    UnpackOfPack(HDR_FORMAT, [magic, id, nr, 0, len]);
  }

  lemma PackedAnyway(magic: nat, id: nat, nr: nat, len: nat)
    requires magic < 0x1_0000 && PackStruct(HDR_FORMAT, [HDR_MAGIC, id, nr, 0, len]).Ok?
    ensures PackStruct(HDR_FORMAT, [magic, id, nr, 0, len]).Ok?
  {
    Pow256Values();
    assert [HDR_MAGIC, id, nr, 0, len][1..] == [magic, id, nr, 0, len][1..];
  }

  /** Every message that is sent with a wrong magic value is refused once, and then delivered. */
  lemma BadMagicIsAccepted(m: Message, nr: nat, magic: nat, more: seq<byte>, schedule: seq<nat>)
    requires Sendable(m) && nr < 0x1_0000 && magic < 0x1_0000 && magic != HDR_MAGIC
    requires Ready(schedule) > HDR_LENGTH + |ToPayload(m).value|
    ensures var told := Told(ReceiveAll(IDLE, OtherHeader(m, nr, magic) + ToPayload(m).value + more, schedule).2);
            |told| >= 2 && told[0] == BadMagic && told[1] == Received(m, nr)
  {
    hide ReceiveAll, Told, Ready, HeadOf, GoodMagic, FromPayload, ToPayload, OtherHeader, Valid, Canonical, FrameOf;
    FrameFacts(m, nr);
    BadMagicIsForgotten(OtherHeader(m, nr, magic), ToPayload(m).value, more, schedule, m);
  }

  /** Such a message: a run state with the magic value 0. */
  lemma WrongRunState(more: seq<byte>, schedule: seq<nat>)
    requires Ready(schedule) > 14
    ensures Sendable(RunState(1)) && !GoodMagic(OtherHeader(RunState(1), 5, 0))
    ensures var stream := OtherHeader(RunState(1), 5, 0) + ToPayload(RunState(1)).value + more;
            var told := Told(ReceiveAll(IDLE, stream, schedule).2);
            |told| >= 2 && told[0] == BadMagic && told[1] == Received(RunState(1), 5)
  {
    assert Sendable(RunState(1)) && |ToPayload(RunState(1)).value| == 2 by {
      Pow256Values();
      assert PackStruct([], []).Ok?;
    }
    hide *;
    BadMagicIsAccepted(RunState(1), 5, 0, more, schedule);
  }

  // ----- frames that cannot be decoded

  /** The buffer holds a complete frame whose payload is none of a message. */
  predicate Undecodable(rx: Rx) {
    && rx.head.Some? && |rx.buf| == HDR_LENGTH + rx.head.value.payloadLen
    && FromPayload(rx.head.value.msgId, rx.buf[HDR_LENGTH..]).Err?
  }

  lemma BadMessageIsKept(rx: Rx, r: Recv)
    requires ValidRx(rx) && (r.Data? ==> 0 < |r.bytes| <= Wanted(rx) || Wanted(rx) == 0)
    ensures var (rx', outcome) := ReceiveCall(rx, r);
            outcome == BadMessage <==> Undecodable(rx') && outcome != BadMagic
  {
    hide UnpackAll, FromPayload;
  }

  /** Such a frame is never removed: whatever arrives behind it, every later call refuses it again and takes no byte. */
  lemma {:induction false} BadMessageForever(rx: Rx, incoming: seq<byte>, schedule: seq<nat>)
    requires ValidRx(rx) && Undecodable(rx)
    ensures ReceiveAll(rx, incoming, schedule) == (rx, incoming, seq(|schedule|, _ => BadMessage))
    decreases |schedule|
  {
    var told := seq(|schedule|, _ => BadMessage);
    if schedule != [] {
      hide UnpackAll, FromPayload;
      BadMessageForever(rx, incoming, schedule[1..]);
      assert told == [BadMessage] + seq(|schedule[1..]|, _ => BadMessage);
    }
  }
}
