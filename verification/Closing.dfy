/**
 Receiving from a peer that closes the connection, at any place of the stream: the complete
 messages are delivered, and every call behind the last byte tells that the peer is gone.
 */
module Closing {
  import opened Bytes
  import opened Wire
  import opened Messages
  import opened Transceiver

  /** What a socket does if the peer has closed the connection behind `incoming`. */
  function ClosingReply(incoming: seq<byte>, wanted: nat, k: nat): Recv {
    if incoming == [] then RemoteClosed else Delivery(incoming, wanted, k)
  }

  lemma ReplyOfSocket(sock: Socket, n: nat)
    ensures var k := if sock.arrivals == [] then n else sock.arrivals[0];
            sock.Reply(n) == if sock.closed then ClosingReply(sock.incoming, n, k) else Delivery(sock.incoming, n, k)
  {
  }

  /** One call: the new state, what is left of the stream, and what the call tells. */
  function ClosingCall(rx: Rx, incoming: seq<byte>, k: nat): (r: (Rx, seq<byte>, Outcome))
    requires ValidRx(rx)
    ensures ValidRx(r.0)
  {
    var r := ClosingReply(incoming, Wanted(rx), k);
    ReceiveKeepsValid(rx, r);
    var (rx', outcome) := ReceiveCall(rx, r);
    (rx', if r.Data? then incoming[|r.bytes|..] else incoming, outcome)
  }

  /** Repeated calls, one per entry of the schedule. */
  function ReceiveClosing(rx: Rx, incoming: seq<byte>, schedule: seq<nat>): (r: (Rx, seq<byte>, seq<Outcome>))
    requires ValidRx(rx)
    ensures ValidRx(r.0) && |r.2| == |schedule|
    decreases |schedule|
  {
    if schedule == [] then (rx, incoming, [])
    else
      var (rx', left, outcome) := ClosingCall(rx, incoming, schedule[0]);
      var (rx'', left', outcomes) := ReceiveClosing(rx', left, schedule[1..]);
      (rx'', left', [outcome] + outcomes)
  }

  /** A call tells that the peer is gone exactly if it wants bytes and there are none left. It keeps its state then. */
  lemma CallTellsDeath(rx: Rx, incoming: seq<byte>, k: nat)
    requires ValidRx(rx)
    ensures var (rx', left, outcome) := ClosingCall(rx, incoming, k);
            && (outcome == RemoteDied <==> incoming == [] && Wanted(rx) > 0)
            && (outcome == RemoteDied ==> rx' == rx && left == [])
  {
    DiesOfClosing(rx, ClosingReply(incoming, Wanted(rx), k));
    hide ReceiveCall;
  }

  /** The same for every call of a schedule. */
  lemma {:induction false} EachTellsDeath(rx: Rx, incoming: seq<byte>, schedule: seq<nat>, i: nat)
    requires ValidRx(rx) && i < |schedule|
    ensures var before := ReceiveClosing(rx, incoming, schedule[..i]);
            ReceiveClosing(rx, incoming, schedule).2[i] == RemoteDied <==> before.1 == [] && Wanted(before.0) > 0
    decreases |schedule|
  {
    hide ClosingCall, ValidRx, Wanted;
    var (rx', left, outcome) := ClosingCall(rx, incoming, schedule[0]);
    if i == 0 {
      CallTellsDeath(rx, incoming, schedule[0]);
    } else {
      assert schedule[..i][1..] == schedule[1..][..i - 1];
      EachTellsDeath(rx', left, schedule[1..], i - 1);
    }
  }

  /** As long as bytes are left, a closed connection is like an open one. */
  lemma CallBeforeTheEnd(rx: Rx, incoming: seq<byte>, k: nat)
    requires ValidRx(rx)
    ensures var r := Delivery(incoming, Wanted(rx), k);
            && (r.Data? ==> 0 < |r.bytes| <= Wanted(rx))
            && var (rx', outcome) := ReceiveCall(rx, r);
               var (rx'', left, told) := ClosingCall(rx, incoming, k);
               && rx'' == rx' && left == (if r.Data? then incoming[|r.bytes|..] else incoming)
               && (told == outcome || (told == RemoteDied && !outcome.Received?))
  {
    hide UnpackAll, FromPayload;
  }

  lemma {:induction false} SameAsOpen(rx: Rx, incoming: seq<byte>, schedule: seq<nat>)
    requires ValidRx(rx)
    ensures var a, b := ReceiveClosing(rx, incoming, schedule), ReceiveAll(rx, incoming, schedule);
            a.0 == b.0 && a.1 == b.1 && Delivered(a.2) == Delivered(b.2)
    decreases |schedule|
  {
    hide ClosingCall, ValidRx, Wanted, ReceiveCall, Delivery, ReceiveAll;
    if schedule == [] {
      NoCalls(rx, incoming);
    } else {
      CallBeforeTheEnd(rx, incoming, schedule[0]);
      ReceiveAllUnfolds(rx, incoming, schedule);
      var (rx', left, told) := ClosingCall(rx, incoming, schedule[0]);
      SameAsOpen(rx', left, schedule[1..]);
      DeliveredUnfolds(told, ReceiveClosing(rx', left, schedule[1..]).2);
    }
  }

  lemma NoCalls(rx: Rx, incoming: seq<byte>)
    requires ValidRx(rx)
    ensures ReceiveAll(rx, incoming, []) == (rx, incoming, [])
  {
  }

  lemma DeliveredUnfolds(o: Outcome, rest: seq<Outcome>)
    ensures Delivered([o] + rest) == if o.Received? then [(o.m, o.nr)] + Delivered(rest) else Delivered(rest)
  {
    assert ([o] + rest)[1..] == rest;
  }

  // ----- a stream that is cut off

  /** The schedule on which a whole stream looks like one that is cut off behind `incoming`. */
  function Limited(rx: Rx, incoming: seq<byte>, schedule: seq<nat>): (r: seq<nat>)
    requires ValidRx(rx)
    ensures |r| == |schedule|
    decreases |schedule|
  {
    if schedule == [] then []
    else
      var k := if schedule[0] <= |incoming| then schedule[0] else |incoming|;
      var (rx', left, _) := ClosingCall(rx, incoming, schedule[0]);
      [k] + Limited(rx', left, schedule[1..])
  }

  lemma LimitedDelivery(incoming: seq<byte>, rest: seq<byte>, wanted: nat, k: nat)
    ensures var r := Delivery(incoming, wanted, k);
            && Delivery(incoming + rest, wanted, if k <= |incoming| then k else |incoming|) == r
            && (r.Data? ==> |r.bytes| <= |incoming| && (incoming + rest)[|r.bytes|..] == incoming[|r.bytes|..] + rest)
  {
  }

  /** What has not been sent makes no difference to what is received. */
  lemma {:induction false} CutIsLimited(rx: Rx, incoming: seq<byte>, rest: seq<byte>, schedule: seq<nat>)
    requires ValidRx(rx)
    ensures var a := ReceiveAll(rx, incoming, schedule);
            ReceiveAll(rx, incoming + rest, Limited(rx, incoming, schedule)) == (a.0, a.1 + rest, a.2)
    decreases |schedule|
  {
    hide ClosingCall, ValidRx, Wanted, ReceiveCall, Delivery, ReceiveAll;
    if schedule == [] {
      NoCalls(rx, incoming);
      NoCalls(rx, incoming + rest);
    } else {
      var k := if schedule[0] <= |incoming| then schedule[0] else |incoming|;
      CallBeforeTheEnd(rx, incoming, schedule[0]);
      LimitedDelivery(incoming, rest, Wanted(rx), schedule[0]);
      ReceiveAllUnfolds(rx, incoming, schedule);
      var (rx', left, _) := ClosingCall(rx, incoming, schedule[0]);
      var limited := Limited(rx, incoming, schedule);
      assert limited[0] == k && limited[1..] == Limited(rx', left, schedule[1..]);
      ReceiveAllUnfolds(rx, incoming + rest, limited);
      CutIsLimited(rx', left, rest, schedule[1..]);
    }
  }

  /** The first messages of a stream, and the others. */
  lemma {:induction false} StreamSplits(ms: seq<Message>, nr: nat, j: nat)
    requires AllSendable(ms) && nr < 0x1_0000 && j <= |ms|
    ensures AllSendable(ms[..j]) && AllSendable(ms[j..])
    ensures Stream(ms, nr) == Stream(ms[..j], nr) + Stream(ms[j..], NrAfter(nr, j))
    decreases j
  {
    assert AllSendable(ms[..j]) && AllSendable(ms[j..]);
    hide *;
    NrAfterNext(nr, j);
    StreamUnfolds(ms[..j], nr);
    if j == 0 {
      assert ms[0..] == ms;
    } else {
      StreamUnfolds(ms, nr);
      StreamSplits(ms[1..], NextNr(nr), j - 1);
      assert ms[..j][1..] == ms[1..][..j - 1] && ms[1..][j - 1..] == ms[j..];
      Associate(FrameOf(ms[0], nr), Stream(ms[1..][..j - 1], NextNr(nr)), Stream(ms[j..], NrAfter(nr, j)));
    }
  }

  /** What the calls have made of the first `cut` bytes of a stream. */
  ghost predicate CutOff(ms: seq<Message>, cut: nat, result: (Rx, seq<byte>, seq<Outcome>))
    requires AllSendable(ms) && cut <= |Stream(ms, 0)|
  {
    var j := |Delivered(result.2)|;
    && j <= |ms| && Delivered(result.2) == Numbered(ms[..j], 0)
    && Stream(ms[..j], 0) + result.0.buf + result.1 == Stream(ms, 0)[..cut]
    && if j == |ms| then result.0 == IDLE else Inside(result.0, ms[j], NrAfter(0, j))
  }

  lemma Cancel(a: seq<byte>, buf: seq<byte>, left: seq<byte>, rest: seq<byte>, tail: seq<byte>, all: seq<byte>,
               cut: nat)
    requires cut <= |all| && rest == all[cut..] && all == a + tail && buf + (left + rest) == tail
    ensures a + buf + left == all[..cut]
  {
    assert a + buf + left + rest == all == all[..cut] + rest;
  }

  lemma ReassembledIsCutOff(ms: seq<Message>, cut: nat, rx: Rx, left: seq<byte>, outcomes: seq<Outcome>)
    requires AllSendable(ms) && cut <= |Stream(ms, 0)|
    requires Reassembled((rx, left + Stream(ms, 0)[cut..], outcomes), ms, 0)
    ensures CutOff(ms, cut, (rx, left, outcomes))
  {
    hide Sendable, FrameOf, Stream, Inside, Delivered, Numbered;
    var j := |Delivered(outcomes)|;
    StreamSplits(ms, 0, j);
    var rest := Stream(ms, 0)[cut..];
    Cancel(Stream(ms[..j], 0), rx.buf, left, rest, Stream(ms[j..], NrAfter(0, j)), Stream(ms, 0), cut);
  }

  /**
   The peer closes the connection behind any byte of a stream of messages: what is delivered is
   what was sent, in order; a message is missing only if its frame is incomplete; and a call
   tells that the peer is gone exactly if all bytes had been taken before it.
   */
  lemma CutStream(ms: seq<Message>, cut: nat, schedule: seq<nat>)
    requires AllSendable(ms) && cut <= |Stream(ms, 0)|
    ensures CutOff(ms, cut, ReceiveClosing(IDLE, Stream(ms, 0)[..cut], schedule))
    ensures forall i :: 0 <= i < |schedule| ==>
              (ReceiveClosing(IDLE, Stream(ms, 0)[..cut], schedule).2[i] == RemoteDied
               <==> ReceiveClosing(IDLE, Stream(ms, 0)[..cut], schedule[..i]).1 == [])
  {
    hide *;
    IdleIsValid();
    StateIsCutOff(ms, cut, schedule);
    forall i | 0 <= i < |schedule|
      ensures ReceiveClosing(IDLE, Stream(ms, 0)[..cut], schedule).2[i] == RemoteDied
              <==> ReceiveClosing(IDLE, Stream(ms, 0)[..cut], schedule[..i]).1 == []
    {
      StateIsCutOff(ms, cut, schedule[..i]);
      WantsMore(ms, cut, ReceiveClosing(IDLE, Stream(ms, 0)[..cut], schedule[..i]));
      EachTellsDeath(IDLE, Stream(ms, 0)[..cut], schedule, i);
    }
  }

  lemma IdleIsValid()
    ensures ValidRx(IDLE)
  {
  }

  lemma StateIsCutOff(ms: seq<Message>, cut: nat, schedule: seq<nat>)
    requires AllSendable(ms) && cut <= |Stream(ms, 0)|
    ensures ValidRx(IDLE) && CutOff(ms, cut, ReceiveClosing(IDLE, Stream(ms, 0)[..cut], schedule))
  {
    hide *;
    IdleIsValid();
    var incoming, rest := Stream(ms, 0)[..cut], Stream(ms, 0)[cut..];
    assert incoming + rest == Stream(ms, 0);
    IdleIsWaiting(ms);
    var limited := Limited(IDLE, incoming, schedule);
    StreamIsReassembled(IDLE, incoming + rest, ms, 0, limited);
    CutIsLimited(IDLE, incoming, rest, schedule);
    var a, b := ReceiveClosing(IDLE, incoming, schedule), ReceiveAll(IDLE, incoming, schedule);
    SameAsOpen(IDLE, incoming, schedule);
    ReassembledIsCutOff(ms, cut, b.0, b.1, b.2);
    SameDelivered(ms, cut, b, a);
  }

  lemma SameDelivered(ms: seq<Message>, cut: nat, a: (Rx, seq<byte>, seq<Outcome>), b: (Rx, seq<byte>, seq<Outcome>))
    requires AllSendable(ms) && cut <= |Stream(ms, 0)| && CutOff(ms, cut, a)
    requires a.0 == b.0 && a.1 == b.1 && Delivered(a.2) == Delivered(b.2)
    ensures CutOff(ms, cut, b)
  {
    hide Sendable, FrameOf, Stream, Inside, Delivered, Numbered;
  }

  /** Between messages and inside of them, bytes are wanted. */
  lemma WantsMore(ms: seq<Message>, cut: nat, result: (Rx, seq<byte>, seq<Outcome>))
    requires AllSendable(ms) && cut <= |Stream(ms, 0)| && CutOff(ms, cut, result)
    ensures ValidRx(result.0) && Wanted(result.0) > 0
  {
    hide Sendable, FrameOf, Stream, Numbered, Delivered;
    var j := |Delivered(result.2)|;
    if j < |ms| {
      WantedIsInside(result.0, ms[j], NrAfter(0, j));
    }
  }

  /** Bytes are wanted before every call, and at the end. */
  ghost predicate AlwaysWants(rx: Rx, incoming: seq<byte>, schedule: seq<nat>)
    requires ValidRx(rx)
  {
    forall i :: 0 <= i <= |schedule| ==> Wanted(ReceiveClosing(rx, incoming, schedule[..i]).0) > 0
  }

  lemma CallTakes(rx: Rx, incoming: seq<byte>, k: nat)
    requires ValidRx(rx) && Wanted(rx) > 0
    ensures |ClosingCall(rx, incoming, k).1| <= |incoming|
    ensures k > 0 && incoming != [] ==> |ClosingCall(rx, incoming, k).1| < |incoming|
  {
    hide UnpackAll, FromPayload;
  }

  /** Every call that finds the socket ready takes a byte, until there is none left. */
  lemma {:induction false} ReadyCallsTake(rx: Rx, incoming: seq<byte>, schedule: seq<nat>)
    requires ValidRx(rx) && AlwaysWants(rx, incoming, schedule)
    ensures var left := ReceiveClosing(rx, incoming, schedule).1;
            left == [] || |left| + Ready(schedule) <= |incoming|
    decreases |schedule|
  {
    hide ClosingCall, ValidRx, Wanted;
    if schedule != [] {
      var (rx', left, _) := ClosingCall(rx, incoming, schedule[0]);
      assert schedule[..0] == [];
      CallTakes(rx, incoming, schedule[0]);
      forall i | 0 <= i <= |schedule[1..]|
        ensures Wanted(ReceiveClosing(rx', left, schedule[1..][..i]).0) > 0
      {
        assert schedule[..i + 1][1..] == schedule[1..][..i];
        assert Wanted(ReceiveClosing(rx, incoming, schedule[..i + 1]).0) > 0;
      }
      ReadyCallsTake(rx', left, schedule[1..]);
    }
  }

  /** Enough calls that find the socket ready take everything that was sent before the end. */
  lemma CutStreamIsTaken(ms: seq<Message>, cut: nat, schedule: seq<nat>)
    requires AllSendable(ms) && cut <= |Stream(ms, 0)| && Ready(schedule) >= cut
    ensures ReceiveClosing(IDLE, Stream(ms, 0)[..cut], schedule).1 == []
  {
    hide Sendable, FrameOf, Stream, Inside, Delivered, Numbered, ReceiveClosing, CutOff, Wanted, ValidRx;
    IdleIsValid();
    var incoming := Stream(ms, 0)[..cut];
    forall i | 0 <= i <= |schedule|
      ensures Wanted(ReceiveClosing(IDLE, incoming, schedule[..i]).0) > 0
    {
      StateIsCutOff(ms, cut, schedule[..i]);
      WantsMore(ms, cut, ReceiveClosing(IDLE, incoming, schedule[..i]));
    }
    ReadyCallsTake(IDLE, incoming, schedule);
  }

  /** When all bytes have been taken, exactly the messages with complete frames have been delivered. */
  lemma CompleteAreDelivered(ms: seq<Message>, cut: nat, schedule: seq<nat>)
    requires AllSendable(ms) && cut <= |Stream(ms, 0)| && ValidRx(IDLE)
    requires ReceiveClosing(IDLE, Stream(ms, 0)[..cut], schedule).1 == []
    ensures var j := |Delivered(ReceiveClosing(IDLE, Stream(ms, 0)[..cut], schedule).2)|;
            && j <= |ms| && |Stream(ms[..j], 0)| <= cut
            && (j < |ms| ==> AllSendable(ms[..j + 1]) && cut < |Stream(ms[..j + 1], 0)|)
  {
    hide Sendable, FrameOf, Stream, Delivered, Numbered, ReceiveClosing, Wanted, ValidRx;
    StateIsCutOff(ms, cut, schedule);
    var (rx, left, outcomes) := ReceiveClosing(IDLE, Stream(ms, 0)[..cut], schedule);
    var j := |Delivered(outcomes)|;
    if j < |ms| {
      assert ms[..j + 1] == ms[..j] + [ms[j]];
      StreamGrows(ms[..j], ms[j], 0);
    }
  }
}
