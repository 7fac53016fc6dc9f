/**
 Links between devices, and the interfaces they are attached to: every new link takes the next
 free interface of both its devices.
 */
module Topology {

  datatype Device = Node(id: int) | Router(id: int)

  datatype Link = Link(src: Device, dst: Device, delay: int)

  /** A link with the interfaces at both ends. */
  datatype Attached = Attached(link: Link, srcIntf: nat, dstIntf: nat)

  predicate NoLoops(ls: seq<Link>) {
    forall i :: 0 <= i < |ls| ==> ls[i].src != ls[i].dst
  }

  function EndsOf(l: Link, v: Device): nat {
    (if l.src == v then 1 else 0) + (if l.dst == v then 1 else 0)
  }

  /** The number of link ends at a device. */
  function Ends(ls: seq<Link>, v: Device): nat {
    if ls == [] then 0 else Ends(ls[..|ls| - 1], v) + EndsOf(ls[|ls| - 1], v)
  }

  /** The links with the interfaces they get if they are attached in this order. */
  function Assigned(ls: seq<Link>): seq<Attached> {
    if ls == [] then []
    else
      var front, last := ls[..|ls| - 1], ls[|ls| - 1];
      Assigned(front) + [Attached(last, Ends(front, last.src), Ends(front, last.dst))]
  }

  /** How many link ends are attached to an interface. */
  function Plugged(a: Attached, v: Device, i: nat): nat {
    (if a.link.src == v && a.srcIntf == i then 1 else 0) + (if a.link.dst == v && a.dstIntf == i then 1 else 0)
  }

  function PluggedIn(ls: seq<Attached>, v: Device, i: nat): nat {
    if ls == [] then 0 else PluggedIn(ls[..|ls| - 1], v, i) + Plugged(ls[|ls| - 1], v, i)
  }

  /** The links of a sequence of attached links. */
  function Links(ls: seq<Attached>): seq<Link> {
    seq(|ls|, i requires 0 <= i < |ls| => ls[i].link)
  }

  /**
   The interfaces 0, 1, ... of a device are used exactly once each, up to the number of link
   ends at the device, and no others are used.
   */
  lemma {:induction false} EachInterfaceOnce(ls: seq<Link>, v: Device, i: nat)
    requires NoLoops(ls)
    ensures PluggedIn(Assigned(ls), v, i) == if i < Ends(ls, v) then 1 else 0
    decreases |ls|
  {
    if ls != [] {
      var front, last := ls[..|ls| - 1], ls[|ls| - 1];
      EachInterfaceOnce(front, v, i);
      var a := Assigned(ls);
      assert a[..|a| - 1] == Assigned(front);
    }
  }

  /** Each link is attached once. */
  lemma {:induction false} EachLinkOnce(ls: seq<Link>)
    ensures |Assigned(ls)| == |ls| && Links(Assigned(ls)) == ls
    decreases |ls|
  {
    if ls != [] {
      EachLinkOnce(ls[..|ls| - 1]);
      assert ls == ls[..|ls| - 1] + [ls[|ls| - 1]];
    }
  }

  // ----- the order of links

  lemma {:induction false} EndsOfSum(a: seq<Link>, b: seq<Link>, v: Device)
    ensures Ends(a + b, v) == Ends(a, v) + Ends(b, v)
    decreases |b|
  {
    if b == [] {
      assert a + b == a;
    } else {
      assert (a + b)[..|a + b| - 1] == a + b[..|b| - 1];
      EndsOfSum(a, b[..|b| - 1], v);
    }
  }

  /** Taking out one link. */
  lemma EndsWithout(b: seq<Link>, k: nat, v: Device)
    requires k < |b|
    ensures multiset(b[..k] + b[k + 1..]) == multiset(b) - multiset{b[k]}
    ensures Ends(b, v) == Ends(b[..k] + b[k + 1..], v) + EndsOf(b[k], v)
  {
    var x := [b[k]];
    assert b == b[..k] + x + b[k + 1..];
    EndsOfSum(b[..k], x, v);
    EndsOfSum(b[..k] + x, b[k + 1..], v);
    EndsOfSum(b[..k], b[k + 1..], v);
    assert x[..0] == [] && Ends(x, v) == EndsOf(b[k], v);
  }

  /** The number of link ends at a device does not depend on the order of the links. */
  lemma {:induction false} EndsOfPermutation(a: seq<Link>, b: seq<Link>, v: Device)
    requires multiset(a) == multiset(b)
    ensures Ends(a, v) == Ends(b, v)
    decreases |a|
  {
    hide Ends, EndsOf;
    if a == [] {
      assert |multiset(b)| == 0;
    } else {
      var k := SameLink(a, b);
      EndsWithout(a, |a| - 1, v);
      EndsWithout(b, k, v);
      EndsOfPermutation(a[..|a| - 1] + a[|a|..], b[..k] + b[k + 1..], v);
    }
  }

  lemma SameLink(a: seq<Link>, b: seq<Link>) returns (k: nat)
    requires multiset(a) == multiset(b) && a != []
    ensures k < |b| && b[k] == a[|a| - 1]
  {
    assert a[|a| - 1] in multiset(b);
    k :| 0 <= k < |b| && b[k] == a[|a| - 1];
  }

  /** The links that start at a device, in their order. */
  function From(ls: seq<Link>, v: Device): seq<Link> {
    if ls == [] then []
    else if ls[|ls| - 1].src == v then From(ls[..|ls| - 1], v) + [ls[|ls| - 1]]
    else From(ls[..|ls| - 1], v)
  }

  /** The links device by device. */
  function ByDevice(ls: seq<Link>, order: seq<Device>): seq<Link> {
    if order == [] then [] else ByDevice(ls, order[..|order| - 1]) + From(ls, order[|order| - 1])
  }

  lemma {:induction false} CountFrom(ls: seq<Link>, v: Device, e: Link)
    ensures multiset(From(ls, v))[e] == if e.src == v then multiset(ls)[e] else 0
    decreases |ls|
  {
    if ls != [] {
      CountFrom(ls[..|ls| - 1], v, e);
      assert ls == ls[..|ls| - 1] + [ls[|ls| - 1]];
    }
  }

  predicate DistinctDevices(order: seq<Device>) {
    forall i, j :: 0 <= i < j < |order| ==> order[i] != order[j]
  }

  lemma {:induction false} CountByDevice(ls: seq<Link>, order: seq<Device>, e: Link)
    requires DistinctDevices(order)
    ensures multiset(ByDevice(ls, order))[e] == if e.src in order then multiset(ls)[e] else 0
    decreases |order|
  {
    if order != [] {
      var front, last := order[..|order| - 1], order[|order| - 1];
      CountByDevice(ls, front, e);
      CountFrom(ls, last, e);
      assert order == front + [last] && last !in front;
    }
  }

  /** Going through all devices once, in whatever order, goes through all links once. */
  lemma ByDeviceIsPermutation(ls: seq<Link>, order: seq<Device>)
    requires DistinctDevices(order) && forall i :: 0 <= i < |ls| ==> ls[i].src in order
    ensures multiset(ByDevice(ls, order)) == multiset(ls)
  {
    forall e: Link
      ensures multiset(ByDevice(ls, order))[e] == multiset(ls)[e]
    {
      CountByDevice(ls, order, e);
      if e in multiset(ls) {
        var i :| 0 <= i < |ls| && ls[i] == e;
      }
    }
  }

  /** Loops are not introduced by a new order. */
  lemma NoLoopsInPermutation(a: seq<Link>, b: seq<Link>)
    requires multiset(a) == multiset(b) && NoLoops(a)
    ensures NoLoops(b)
  {
    forall i | 0 <= i < |b|
      ensures b[i].src != b[i].dst
    {
      assert b[i] in multiset(a);
    }
  }

  /** One link more is attached to the next free interfaces. */
  lemma AssignedNext(ls: seq<Link>, l: Link)
    ensures Assigned(ls + [l]) == Assigned(ls) + [Attached(l, Ends(ls, l.src), Ends(ls, l.dst))]
    ensures forall v :: Ends(ls + [l], v) == Ends(ls, v) + EndsOf(l, v)
  {
    assert (ls + [l])[..|ls|] == ls;
  }

  lemma EndsNext(ls: seq<Link>, l: Link, v: Device)
    ensures Ends(ls + [l], v) == Ends(ls, v) + EndsOf(l, v)
  {
    assert (ls + [l])[..|ls|] == ls;
  }

  /** The last links of a device, one more of them. */
  lemma ByDeviceNext(ls: seq<Link>, order: seq<Device>, v: Device)
    ensures ByDevice(ls, order + [v]) == ByDevice(ls, order) + From(ls, v)
  {
    assert (order + [v])[..|order|] == order;
  }

  lemma FromNext(ls: seq<Link>, l: Link, v: Device)
    ensures From(ls + [l], v) == if l.src == v then From(ls, v) + [l] else From(ls, v)
  {
    assert (ls + [l])[..|ls|] == ls;
  }

  /** Every link that starts at a device is one of the links. */
  lemma {:induction false} FromIsPart(ls: seq<Link>, v: Device, k: nat)
    requires k < |From(ls, v)|
    ensures From(ls, v)[k].src == v && From(ls, v)[k] in ls
    decreases |ls|
  {
    if k < |From(ls[..|ls| - 1], v)| {
      FromIsPart(ls[..|ls| - 1], v, k);
    }
  }

  /** Both ends of a link count. */
  lemma {:induction false} EndsCount(ls: seq<Link>, l: Link)
    requires l in ls
    ensures Ends(ls, l.src) > 0 && Ends(ls, l.dst) > 0
    decreases |ls|
  {
    if ls[|ls| - 1] != l {
      EndsCount(ls[..|ls| - 1], l);
    }
  }

  lemma {:induction false} NoneFrom(ls: seq<Link>, v: Device)
    requires Ends(ls, v) == 0
    ensures From(ls, v) == []
    decreases |ls|
  {
    if ls != [] {
      NoneFrom(ls[..|ls| - 1], v);
    }
  }

  lemma NothingAttached(done: seq<Link>, mine: seq<Link>)
    ensures done + mine[..0] == done && Assigned(done) + [] == Assigned(done)
    ensures mine[..|mine|] == mine
  {
  }

  lemma AttachedNext(done: seq<Link>, mine: seq<Link>, i: nat, attached: seq<Attached>, a: Attached)
    requires i < |mine| && Assigned(done) + attached == Assigned(done + mine[..i])
    requires a == Attached(mine[i], Ends(done + mine[..i], mine[i].src), Ends(done + mine[..i], mine[i].dst))
    ensures done + mine[..i + 1] == done + mine[..i] + [mine[i]]
    ensures Assigned(done) + (attached + [a]) == Assigned(done + mine[..i + 1])
  {
    AssignedNext(done + mine[..i], mine[i]);
    assert done + mine[..i + 1] == done + mine[..i] + [mine[i]];
  }
}
