/**
 The topology of an IP network: hosts with one link to a router each, and links between
 routers. One pass counts the interfaces of every router, a second one attaches the links.
 */
module IpTopology {
  import opened Topology

  /** One end of a line of the description. */
  datatype End = HostEnd(id: int) | RouterEnd(id: int)

  datatype Line = Line(end1: End, end2: End, delay: int)

  datatype Lxc = Lxc(router: int, delay: int)

  /** What is known about a router: links to routers with higher numbers, and interfaces. */
  datatype RouterEntry = RouterEntry(routers: seq<(int, int)>, nIntf: nat, nxtIntf: nat)

  const EMPTY := RouterEntry([], 0, 0)

  /** Hosts and routers. */
  datatype Tables = Tables(lxcs: map<int, Lxc>, routers: map<int, RouterEntry>)

  /** A link starts at the host, or at the router with the lower number. */
  function LinkOf(l: Line): Link {
    match (l.end1, l.end2)
    case (RouterEnd(r), HostEnd(h)) => Link(Node(h), Router(r), l.delay)
    case (HostEnd(h), RouterEnd(r)) => Link(Node(h), Router(r), l.delay)
    case (RouterEnd(r), RouterEnd(s)) => if r < s then Link(Router(r), Router(s), l.delay) else Link(Router(s),
            Router(r), l.delay)
    case (HostEnd(h), HostEnd(g)) => Link(Node(h), Node(g), l.delay)
  }

  function DeviceOf(e: End): Device {
    if e.HostEnd? then Node(e.id) else Router(e.id)
  }

  /** A link joins the two ends of its line, a host first and routers in ascending order. */
  lemma LinkJoinsLine(l: Line)
    requires Linkable(l)
    ensures var k := LinkOf(l);
            {k.src, k.dst} == {DeviceOf(l.end1), DeviceOf(l.end2)} && k.delay == l.delay && Ascending(k)
  {
  }

  predicate Ascending(l: Link) {
    l.dst.Router? && (l.src.Router? ==> l.src.id < l.dst.id)
  }

  function LinksOf(ls: seq<Line>): seq<Link> {
    if ls == [] then [] else LinksOf(ls[..|ls| - 1]) + [LinkOf(ls[|ls| - 1])]
  }

  lemma LinksOfNext(ls: seq<Line>, i: nat)
    requires i < |ls|
    ensures LinksOf(ls[..i + 1]) == LinksOf(ls[..i]) + [LinkOf(ls[i])]
  {
    assert ls[..i + 1][..i] == ls[..i];
  }

  /** A line links a host to a router, or a router to another one. */
  predicate Linkable(l: Line) {
    (l.end1.RouterEnd? || l.end2.RouterEnd?) && l.end1 != l.end2
  }

  /** Every host has one link. */
  ghost predicate Accepted(ls: seq<Line>) {
    && (forall i :: 0 <= i < |ls| ==> Linkable(ls[i]))
    && (forall v :: Ends(LinksOf(ls), Node(v)) <= 1)
  }

  function LinksFrom(v: int, routers: seq<(int, int)>): seq<Link> {
    seq(|routers|, i requires 0 <= i < |routers| => Link(Router(v), Router(routers[i].0), routers[i].1))
  }

  function HostLink(v: int, l: Lxc): Link {
    Link(Node(v), Router(l.router), l.delay)
  }

  /** The tables that belong to a set of links. */
  ghost predicate HostsCounted(lxcs: map<int, Lxc>, ls: seq<Link>) {
    && (forall v :: v in lxcs <==> Ends(ls, Node(v)) > 0)
    && (forall v :: v in lxcs ==> Ends(ls, Node(v)) == 1 && From(ls, Node(v)) == [HostLink(v, lxcs[v])])
  }

  ghost predicate RoutersCounted(routers: map<int, RouterEntry>, ls: seq<Link>) {
    && (forall v :: v in routers <==> Ends(ls, Router(v)) > 0)
    && (forall v :: v in routers ==> EntryCounts(v, routers[v], ls))
  }

  /** The entry of a router belongs to a set of links. */
  ghost predicate EntryCounts(v: int, e: RouterEntry, ls: seq<Link>) {
    e.nIntf == Ends(ls, Router(v)) && LinksFrom(v, e.routers) == From(ls, Router(v))
  }

  function EntryOf(routers: map<int, RouterEntry>, r: int): RouterEntry {
    if r in routers then routers[r] else EMPTY
  }

  function HostAdded(t: Tables, h: int, r: int, delay: int): Tables {
    Tables(t.lxcs[h := Lxc(r, delay)], t.routers[r := EntryOf(t.routers, r).(nIntf := EntryOf(t.routers, r).nIntf + 1)])
  }

  /** The one link of a host, with a link from `h` added. */
  lemma HostGrows(lxcs: map<int, Lxc>, ls: seq<Link>, h: int, r: int, delay: int, v: int)
    requires HostsCounted(lxcs, ls) && h !in lxcs && (v in lxcs || v == h)
    ensures var l := Link(Node(h), Router(r), delay);
            && Ends(ls + [l], Node(v)) == 1
            && From(ls + [l], Node(v)) == [if v == h then l else HostLink(v, lxcs[v])]
  {
    var l := Link(Node(h), Router(r), delay);
    assert v != h ==> Ends(ls, Node(v)) == 1 && From(ls, Node(v)) == [HostLink(v, lxcs[v])];
    assert v == h ==> Ends(ls, Node(v)) == 0;
    hide HostsCounted, Ends, From;
    AssignedNext(ls, l);
    FromNext(ls, l, Node(v));
    if v == h {
      NoneFrom(ls, Node(v));
    }
  }

  lemma HostsGrow(lxcs: map<int, Lxc>, ls: seq<Link>, h: int, r: int, delay: int)
    requires HostsCounted(lxcs, ls) && h !in lxcs
    ensures HostsCounted(lxcs[h := Lxc(r, delay)], ls + [Link(Node(h), Router(r), delay)])
  {
    var l, lxcs' := Link(Node(h), Router(r), delay), lxcs[h := Lxc(r, delay)];
    AssignedNext(ls, l);
    hide Ends, From;
    forall v | v in lxcs'
      ensures Ends(ls + [l], Node(v)) == 1 && From(ls + [l], Node(v)) == [HostLink(v, lxcs'[v])]
    {
      HostGrows(lxcs, ls, h, r, delay, v);
    }
  }

  lemma HostCounts(t: Tables, ls: seq<Link>, h: int, r: int, delay: int)
    requires HostsCounted(t.lxcs, ls) && RoutersCounted(t.routers, ls) && h !in t.lxcs
    ensures HostsCounted(HostAdded(t, h, r, delay).lxcs, ls + [Link(Node(h), Router(r), delay)])
    ensures RoutersCounted(HostAdded(t, h, r, delay).routers, ls + [Link(Node(h), Router(r), delay)])
  {
    var l, t' := Link(Node(h), Router(r), delay), HostAdded(t, h, r, delay);
    hide HostsCounted, Ends, From, LinksFrom;
    HostsGrow(t.lxcs, ls, h, r, delay);
    forall v
      ensures v in t'.routers <==> Ends(ls + [l], Router(v)) > 0
      ensures v in t'.routers ==> EntryCounts(v, t'.routers[v], ls + [l])
    {
      RouterGrows(t, ls, h, r, delay, v);
    }
  }

  lemma RouterGrows(t: Tables, ls: seq<Link>, h: int, r: int, delay: int, v: int)
    requires RoutersCounted(t.routers, ls)
    ensures var l, t' := Link(Node(h), Router(r), delay), HostAdded(t, h, r, delay);
            && (v in t'.routers <==> Ends(ls + [l], Router(v)) > 0)
            && (v in t'.routers ==> EntryCounts(v, t'.routers[v], ls + [l]))
  {
    var l := Link(Node(h), Router(r), delay);
    assert v in t.routers <==> Ends(ls, Router(v)) > 0;
    assert v in t.routers ==> EntryCounts(v, t.routers[v], ls);
    hide RoutersCounted, Ends, From, LinksFrom;
    EndsNext(ls, l, Router(v));
    FromNext(ls, l, Router(v));
    if v !in t.routers {
      NoneFrom(ls, Router(v));
      LinksFromNext(v, [], r, delay);
    }
  }

  /** A link between routers does not concern the hosts. */
  lemma HostsStay(lxcs: map<int, Lxc>, ls: seq<Link>, l: Link)
    requires HostsCounted(lxcs, ls) && l.src.Router? && l.dst.Router?
    ensures HostsCounted(lxcs, ls + [l])
  {
    AssignedNext(ls, l);
    forall v | v in lxcs
      ensures From(ls + [l], Node(v)) == [HostLink(v, lxcs[v])]
    {
      FromNext(ls, l, Node(v));
    }
  }

  /** The entries of two routers with one more link between them. */
  function Linked(routers: map<int, RouterEntry>, r: int, s: int, delay: int): map<int, RouterEntry> {
    var a, b := EntryOf(routers, r), EntryOf(routers, s);
    routers[r := a.(routers := a.routers + [(s, delay)], nIntf := a.nIntf + 1)][s := b.(nIntf := b.nIntf + 1)]
  }

  lemma LinksFromNext(v: int, routers: seq<(int, int)>, s: int, delay: int)
    ensures LinksFrom(v, routers + [(s, delay)]) == LinksFrom(v, routers) + [Link(Router(v), Router(s), delay)]
    ensures LinksFrom(v, []) == []
  {
  }

  /** The entry of one router, with one more link from `r` to `s`. */
  lemma RouterCounts(routers: map<int, RouterEntry>, ls: seq<Link>, r: int, s: int, delay: int, v: int)
    requires RoutersCounted(routers, ls) && r != s && v in Linked(routers, r, s, delay)
    ensures var l, e := Link(Router(r), Router(s), delay), Linked(routers, r, s, delay)[v];
            e.nIntf == Ends(ls + [l], Router(v)) && LinksFrom(v, e.routers) == From(ls + [l], Router(v))
  {
    var l := Link(Router(r), Router(s), delay);
    assert Ends(ls, Router(v)) == EntryOf(routers, v).nIntf;
    assert LinksFrom(v, EntryOf(routers, v).routers) == From(ls, Router(v)) by {
      if v !in routers {
        NoneFrom(ls, Router(v));
        LinksFromNext(v, [], s, delay);
      }
    }
    hide RoutersCounted, LinksFrom, Ends, From;
    EndsNext(ls, l, Router(v));
    FromNext(ls, l, Router(v));
    LinksFromNext(r, EntryOf(routers, r).routers, s, delay);
  }

  lemma RoutersCount(routers: map<int, RouterEntry>, ls: seq<Link>, r: int, s: int, delay: int)
    requires RoutersCounted(routers, ls) && r != s
    ensures RoutersCounted(Linked(routers, r, s, delay), ls + [Link(Router(r), Router(s), delay)])
  {
    var l, routers' := Link(Router(r), Router(s), delay), Linked(routers, r, s, delay);
    AssignedNext(ls, l);
    hide LinksFrom, Ends, From;
    forall v | v in routers'
      ensures routers'[v].nIntf == Ends(ls + [l], Router(v))
              && LinksFrom(v, routers'[v].routers) == From(ls + [l], Router(v))
    {
      RouterCounts(routers, ls, r, s, delay, v);
    }
  }

  // ----- the first pass

  function Added(t: Tables, line: Line): Tables {
    match LinkOf(line)
    case Link(Node(h), Router(r), d) => HostAdded(t, h, r, d)
    case Link(Router(r), Router(s), d) => t.(routers := Linked(t.routers, r, s, d))
    case _ => t
  }

  /** Enter a link between routers; fails if it links a router to itself. */
  method AddRouterLine(entries: map<int, RouterEntry>, r1: int, r2: int, delay: int) returns (ok: bool,
          routers: map<int, RouterEntry>)
    ensures ok <==> r1 != r2
    ensures ok ==> routers == if r1 < r2 then Linked(entries, r1, r2, delay) else Linked(entries, r2, r1, delay)
  {
    routers := entries;
    if r1 !in routers {
      routers := routers[r1 := EMPTY];
    }
    if r2 !in routers {
      routers := routers[r2 := EMPTY];
    }
    if r1 == r2 {
      return false, routers;
    }
    if r1 < r2 {
      routers := routers[r1 := routers[r1].(routers := routers[r1].routers + [(r2, delay)])];
    } else {
      routers := routers[r2 := routers[r2].(routers := routers[r2].routers + [(r1, delay)])];
    }
    routers := routers[r1 := routers[r1].(nIntf := routers[r1].nIntf + 1)];
    routers := routers[r2 := routers[r2].(nIntf := routers[r2].nIntf + 1)];
    ok := true;
  }

  /** Enter a line into the tables. */
  method AddLine(t: Tables, line: Line) returns (ok: bool, t': Tables)
    ensures ok <==> Linkable(line) && (LinkOf(line).src.Node? ==> LinkOf(line).src.id !in t.lxcs)
    ensures ok ==> t' == Added(t, line)
  {
    hide Linked;
    t' := t;
    if !line.end1.RouterEnd? && !line.end2.RouterEnd? {
      return false, t';
    }
    if line.end1.RouterEnd? && line.end2.RouterEnd? {
      var routers;
      ok, routers := AddRouterLine(t.routers, line.end1.id, line.end2.id, line.delay);
      return ok, t.(routers := routers);
    }
    var host, router := if line.end1.RouterEnd? then line.end2.id else line.end1.id,
                        if line.end1.RouterEnd? then line.end1.id else line.end2.id;
    if host in t.lxcs {
      return false, t';
    }
    var lxcs, routers := t.lxcs[host := Lxc(router, line.delay)], t.routers;
    if router !in routers {
      routers := routers[router := EMPTY];
    }
    routers := routers[router := routers[router].(nIntf := routers[router].nIntf + 1)];
    return true, Tables(lxcs, routers);
  }

  /** The first pass. */
  method CountLinks(ls: seq<Line>) returns (ok: bool, t: Tables)
    ensures ok <==> Accepted(ls)
    ensures ok ==> HostsCounted(t.lxcs, LinksOf(ls)) && RoutersCounted(t.routers, LinksOf(ls))
    ensures ok ==> forall v :: v in t.routers ==> t.routers[v].nxtIntf == 0
  {
    t := Tables(map[], map[]);
    for i := 0 to |ls|
      invariant Accepted(ls[..i]) && HostsCounted(t.lxcs, LinksOf(ls[..i]))
                && RoutersCounted(t.routers, LinksOf(ls[..i]))
      invariant forall v :: v in t.routers ==> t.routers[v].nxtIntf == 0
    {
      hide *;
      var before := t;
      ok, t := AddLine(t, ls[i]);
      LinksOfNext(ls, i);
      if !ok {
        LineIsRefused(before, ls, i);
        return;
      }
      LineIsAccepted(before, ls, i);
    }
    assert ls[..|ls|] == ls;
    ok := true;
  }

  lemma LineIsRefused(t: Tables, ls: seq<Line>, i: nat)
    requires i < |ls| && HostsCounted(t.lxcs, LinksOf(ls[..i]))
    requires !(Linkable(ls[i]) && (LinkOf(ls[i]).src.Node? ==> LinkOf(ls[i]).src.id !in t.lxcs))
    ensures !Accepted(ls)
  {
    if Linkable(ls[i]) {
      LinksOfNext(ls, i);
      AssignedNext(LinksOf(ls[..i]), LinkOf(ls[i]));
      TooManyStays(ls, i + 1, LinkOf(ls[i]).src.id);
    }
  }

  lemma TooManyStays(ls: seq<Line>, i: nat, v: int)
    requires i <= |ls| && Ends(LinksOf(ls[..i]), Node(v)) > 1
    ensures !Accepted(ls)
    decreases |ls| - i
  {
    if i == |ls| {
      assert ls[..i] == ls;
    } else {
      LinksOfNext(ls, i);
      AssignedNext(LinksOf(ls[..i]), LinkOf(ls[i]));
      TooManyStays(ls, i + 1, v);
    }
  }

  /** One more line is in the tables. */
  lemma LineIsCounted(t: Tables, ls: seq<Link>, line: Line)
    requires HostsCounted(t.lxcs, ls) && RoutersCounted(t.routers, ls)
    requires Linkable(line) && (LinkOf(line).src.Node? ==> LinkOf(line).src.id !in t.lxcs)
    ensures HostsCounted(Added(t, line).lxcs, ls + [LinkOf(line)])
            && RoutersCounted(Added(t, line).routers, ls + [LinkOf(line)])
  {
    var l := LinkOf(line);
    hide HostsCounted, RoutersCounted, HostAdded, Linked;
    if l.src.Node? {
      HostCounts(t, ls, l.src.id, l.dst.id, l.delay);
    } else {
      HostsStay(t.lxcs, ls, l);
      RoutersCount(t.routers, ls, l.src.id, l.dst.id, l.delay);
    }
  }

  /** One more line is acceptable. */
  lemma LineFits(lxcs: map<int, Lxc>, ls: seq<Line>, i: nat)
    requires i < |ls| && Accepted(ls[..i]) && HostsCounted(lxcs, LinksOf(ls[..i]))
    requires Linkable(ls[i]) && (LinkOf(ls[i]).src.Node? ==> LinkOf(ls[i]).src.id !in lxcs)
    ensures Accepted(ls[..i + 1])
  {
    hide Ends, From, LinksOf, HostLink;
    LinksOfNext(ls, i);
    AssignedNext(LinksOf(ls[..i]), LinkOf(ls[i]));
    var front, shorter := ls[..i + 1], ls[..i];
    forall k | 0 <= k < |front|
      ensures Linkable(front[k])
    {
      if k < i {
        assert front[k] == shorter[k];
      }
    }
  }

  lemma NoneTakenYet(t: Tables, line: Line)
    requires forall v :: v in t.routers ==> t.routers[v].nxtIntf == 0
    ensures forall v :: v in Added(t, line).routers ==> Added(t, line).routers[v].nxtIntf == 0
  {
  }

  lemma LineIsAccepted(t: Tables, ls: seq<Line>, i: nat)
    requires i < |ls| && Accepted(ls[..i])
    requires HostsCounted(t.lxcs, LinksOf(ls[..i])) && RoutersCounted(t.routers, LinksOf(ls[..i]))
    requires forall v :: v in t.routers ==> t.routers[v].nxtIntf == 0
    requires Linkable(ls[i]) && (LinkOf(ls[i]).src.Node? ==> LinkOf(ls[i]).src.id !in t.lxcs)
    ensures var t' := Added(t, ls[i]);
            && HostsCounted(t'.lxcs, LinksOf(ls[..i + 1])) && RoutersCounted(t'.routers, LinksOf(ls[..i + 1]))
            && (forall v :: v in t'.routers ==> t'.routers[v].nxtIntf == 0)
    ensures Accepted(ls[..i + 1])
  {
    hide *;
    LinksOfNext(ls, i);
    LineIsCounted(t, LinksOf(ls[..i]), ls[i]);
    LineFits(t.lxcs, ls, i);
    NoneTakenYet(t, ls[i]);
  }

  // ----- the second pass

  /** The table keys in the orders of the dictionaries, each key once. */
  ghost predicate Enumerates(nodes: seq<int>, routers: seq<int>, ls: seq<Link>) {
    && (forall i, j :: 0 <= i < j < |nodes| ==> nodes[i] != nodes[j])
    && (forall i, j :: 0 <= i < j < |routers| ==> routers[i] != routers[j])
    && (forall v :: v in nodes <==> Ends(ls, Node(v)) > 0)
    && (forall v :: v in routers <==> Ends(ls, Router(v)) > 0)
  }

  function Nodes(ids: seq<int>): seq<Device> {
    seq(|ids|, i requires 0 <= i < |ids| => Node(ids[i]))
  }

  function Routers(ids: seq<int>): seq<Device> {
    seq(|ids|, i requires 0 <= i < |ids| => Router(ids[i]))
  }

  /** Interfaces of routers are taken, nothing else has changed. */
  ghost predicate Taken(routers: map<int, RouterEntry>, now: map<int, RouterEntry>, done: seq<Link>) {
    && now.Keys == routers.Keys
    && (forall v :: v in routers ==> now[v] == routers[v].(nxtIntf := Ends(done, Router(v))))
  }

  /** Attach a host, with its only interface. */
  method AttachHost(t: Tables, now: map<int, RouterEntry>, node: int, ghost done: seq<Link>)
    returns (a: Attached, now': map<int, RouterEntry>)
    requires node in t.lxcs && t.lxcs[node].router in now && Taken(t.routers, now, done) && Ends(done, Node(node)) == 0
    ensures var l := HostLink(node, t.lxcs[node]);
            a == Attached(l, Ends(done, l.src), Ends(done, l.dst)) && Taken(t.routers, now', done + [l])
  {
    var router := t.lxcs[node].router;
    var nxtFreeIntf := now[router].nxtIntf;
    a := Attached(Link(Node(node), Router(router), t.lxcs[node].delay), 0, nxtFreeIntf);
    now' := now[router := now[router].(nxtIntf := now[router].nxtIntf + 1)];
    AssignedNext(done, HostLink(node, t.lxcs[node]));
  }

  /** Attach a link between two routers. */
  method AttachRouters(now: map<int, RouterEntry>, router: int, neighbour: int, delay: int,
                       ghost routers: map<int, RouterEntry>, ghost done: seq<Link>)
    returns (a: Attached, now': map<int, RouterEntry>)
    requires router in now && neighbour in now && router != neighbour && Taken(routers, now, done)
    ensures var l := Link(Router(router), Router(neighbour), delay);
            a == Attached(l, Ends(done, l.src), Ends(done, l.dst)) && Taken(routers, now', done + [l])
  {
    var dst, src := now[neighbour].nxtIntf, now[router].nxtIntf;
    a := Attached(Link(Router(router), Router(neighbour), delay), src, dst);
    now' := now[router := now[router].(nxtIntf := now[router].nxtIntf + 1)];
    now' := now'[neighbour := now'[neighbour].(nxtIntf := now'[neighbour].nxtIntf + 1)];
    AssignedNext(done, Link(Router(router), Router(neighbour), delay));
  }

  /** Every link leads to a router, and to another device than it starts at. */
  ghost predicate WellLinked(ls: seq<Link>) {
    NoLoops(ls) && forall i :: 0 <= i < |ls| ==> ls[i].dst.Router?
  }

  lemma {:induction false} LinksAreWellLinked(ls: seq<Line>)
    requires forall i :: 0 <= i < |ls| ==> Linkable(ls[i])
    ensures WellLinked(LinksOf(ls))
    decreases |ls|
  {
    if ls != [] {
      LinksAreWellLinked(ls[..|ls| - 1]);
    }
  }

  lemma {:induction false} NoEnds(ls: seq<Link>, v: Device)
    requires forall i :: 0 <= i < |ls| ==> ls[i].src != v && ls[i].dst != v
    ensures Ends(ls, v) == 0
    decreases |ls|
  {
    if ls != [] {
      NoEnds(ls[..|ls| - 1], v);
    }
  }

  lemma {:induction false} ByDeviceIsPart(ls: seq<Link>, order: seq<Device>, k: nat)
    requires k < |ByDevice(ls, order)|
    ensures ByDevice(ls, order)[k].src in order && ByDevice(ls, order)[k] in ls
    decreases |order|
  {
    var front, last := order[..|order| - 1], order[|order| - 1];
    if k < |ByDevice(ls, front)| {
      ByDeviceIsPart(ls, front, k);
    } else {
      FromIsPart(ls, last, k - |ByDevice(ls, front)|);
    }
  }

  /** A host whose turn has not come is not attached to anything. */
  lemma HostIsFree(ls: seq<Link>, order: seq<Device>, v: int)
    requires WellLinked(ls) && Node(v) !in order
    ensures Ends(ByDevice(ls, order), Node(v)) == 0
  {
    var done := ByDevice(ls, order);
    forall k | 0 <= k < |done|
      ensures done[k].src != Node(v) && done[k].dst != Node(v)
    {
      ByDeviceIsPart(ls, order, k);
    }
    NoEnds(done, Node(v));
  }

  /** A host in the table has one link, to a router in the table. */
  lemma HostIsKnown(t: Tables, now: map<int, RouterEntry>, ls: seq<Link>, nodes: seq<int>, routers: seq<int>, i: nat,
                    done: seq<Link>)
    requires HostsCounted(t.lxcs, ls) && RoutersCounted(t.routers, ls) && Enumerates(nodes, routers, ls)
    requires i < |nodes| && Taken(t.routers, now, done)
    ensures nodes[i] in t.lxcs && t.lxcs[nodes[i]].router in now
    ensures From(ls, Node(nodes[i])) == [HostLink(nodes[i], t.lxcs[nodes[i]])]
    ensures |Nodes(nodes)| == |nodes| && Nodes(nodes)[..i + 1] == Nodes(nodes)[..i] + [Node(nodes[i])]
    ensures Node(nodes[i]) !in Nodes(nodes)[..i]
  {
    assert nodes[i] in nodes;
    FromIsPart(ls, Node(nodes[i]), 0);
    EndsCount(ls, HostLink(nodes[i], t.lxcs[nodes[i]]));
  }

  /** The hosts, in the order of their dictionary. */
  method AttachHosts(t: Tables, nodes: seq<int>, ghost routers: seq<int>, ghost ls: seq<Link>)
    returns (attached: seq<Attached>, now: map<int, RouterEntry>)
    requires HostsCounted(t.lxcs, ls) && RoutersCounted(t.routers, ls) && Enumerates(nodes, routers, ls)
             && WellLinked(ls)
    requires forall v :: v in t.routers ==> t.routers[v].nxtIntf == 0
    ensures attached == Assigned(ByDevice(ls, Nodes(nodes))) && Taken(t.routers, now, ByDevice(ls, Nodes(nodes)))
  {
    hide *;
    attached, now := [], t.routers;
    ghost var order := Nodes(nodes);
    NothingTaken(t.routers, ls, nodes);
    for i := 0 to |nodes|
      invariant attached == Assigned(ByDevice(ls, order[..i])) && Taken(t.routers, now, ByDevice(ls, order[..i]))
    {
      ghost var done := ByDevice(ls, order[..i]);
      HostIsKnown(t, now, ls, nodes, routers, i, done);
      HostIsFree(ls, order[..i], nodes[i]);
      var a;
      a, now := AttachHost(t, now, nodes[i], done);
      ByDeviceNext(ls, order[..i], Node(nodes[i]));
      AssignedNext(done, HostLink(nodes[i], t.lxcs[nodes[i]]));
      HostLinkParts(nodes[i], t.lxcs[nodes[i]]);
      attached := attached + [a];
    }
  }

  lemma HostLinkParts(v: int, l: Lxc)
    ensures HostLink(v, l).src == Node(v) && HostLink(v, l).dst == Router(l.router)
  {
  }

  lemma NothingTaken(routers: map<int, RouterEntry>, ls: seq<Link>, nodes: seq<int>)
    requires forall v :: v in routers ==> routers[v].nxtIntf == 0
    ensures |Nodes(nodes)| == |nodes| && Nodes(nodes)[..|nodes|] == Nodes(nodes)
    ensures Taken(routers, routers, ByDevice(ls, Nodes(nodes)[..0])) && Assigned(ByDevice(ls, Nodes(nodes)[..0])) == []
  {
  }

  /** The links that start at one router. */
  method AttachRouter(now: map<int, RouterEntry>, router: int, ghost routers: map<int, RouterEntry>,
                      ghost ls: seq<Link>, ghost done: seq<Link>)
    returns (attached: seq<Attached>, now': map<int, RouterEntry>)
    requires router in now && RoutersCounted(routers, ls) && WellLinked(ls) && Taken(routers, now, done)
    ensures Assigned(done) + attached == Assigned(done + From(ls, Router(router)))
    ensures Taken(routers, now', done + From(ls, Router(router)))
  {
    var neighbours := now[router].routers;
    ghost var mine := From(ls, Router(router));
    NeighboursAreLinks(routers, now, ls, done, router);
    attached, now' := [], now;
    NothingAttached(done, mine);
    hide *;
    for i := 0 to |neighbours|
      invariant Taken(routers, now', done + mine[..i]) && Assigned(done) + attached == Assigned(done + mine[..i])
    {
      LinkIsKnown(routers, now', ls, done + mine[..i], router, i);
      var a;
      a, now' := AttachRouters(now', router, neighbours[i].0, neighbours[i].1, routers, done + mine[..i]);
      AttachedNext(done, mine, i, attached, a);
      attached := attached + [a];
    }
  }

  lemma NeighboursAreLinks(routers: map<int, RouterEntry>, now: map<int, RouterEntry>, ls: seq<Link>, done: seq<Link>,
                           router: int)
    requires router in now && RoutersCounted(routers, ls) && Taken(routers, now, done)
    ensures router in routers && now[router].routers == routers[router].routers
    ensures LinksFrom(router, now[router].routers) == From(ls, Router(router))
    ensures |From(ls, Router(router))| == |now[router].routers|
  {
  }

  lemma LinkIsKnown(routers: map<int, RouterEntry>, now: map<int, RouterEntry>, ls: seq<Link>, done: seq<Link>,
                    router: int, i: nat)
    requires router in routers && RoutersCounted(routers, ls) && WellLinked(ls) && Taken(routers, now, done)
    requires i < |routers[router].routers|
    ensures var n := routers[router].routers[i];
            && router in now && n.0 in now && n.0 != router
            && i < |From(ls, Router(router))| && From(ls, Router(router))[i] == Link(Router(router), Router(n.0), n.1)
  {
    var n := routers[router].routers[i];
    var l := From(ls, Router(router))[i];
    assert l == LinksFrom(router, routers[router].routers)[i] == Link(Router(router), Router(n.0), n.1);
    FromIsPart(ls, Router(router), i);
    EndsCount(ls, l);
  }

  /** The routers, in the order of their dictionary, behind what has been attached before. */
  method AttachAllRouters(now: map<int, RouterEntry>, ids: seq<int>, ghost entries: map<int, RouterEntry>,
                          ghost nodes: seq<int>,
                          ghost ls: seq<Link>, ghost order: seq<Device>, before: seq<Attached>)
    returns (attached: seq<Attached>, now': map<int, RouterEntry>)
    requires RoutersCounted(entries, ls) && Enumerates(nodes, ids, ls) && WellLinked(ls)
    requires before == Assigned(ByDevice(ls, order)) && Taken(entries, now, ByDevice(ls, order))
    ensures attached == Assigned(ByDevice(ls, order + Routers(ids)))
            && Taken(entries, now', ByDevice(ls, order + Routers(ids)))
  {
    hide *;
    attached, now' := before, now;
    ghost var devices := Routers(ids);
    NoRouterYet(order, ids);
    for i := 0 to |ids|
      invariant attached == Assigned(ByDevice(ls, order + devices[..i])) && Taken(entries, now', ByDevice(ls,
              order + devices[..i]))
    {
      ghost var done := ByDevice(ls, order + devices[..i]);
      RouterIsKnown(entries, now', ls, nodes, ids, i, done, order);
      var more;
      more, now' := AttachRouter(now', ids[i], entries, ls, done);
      ByDeviceNext(ls, order + devices[..i], Router(ids[i]));
      attached := attached + more;
    }
  }

  lemma NoRouterYet(order: seq<Device>, ids: seq<int>)
    ensures |Routers(ids)| == |ids| && order + Routers(ids)[..0] == order && Routers(ids)[..|ids|] == Routers(ids)
  {
  }

  lemma RouterIsKnown(entries: map<int, RouterEntry>, now: map<int, RouterEntry>, ls: seq<Link>, nodes: seq<int>,
                      ids: seq<int>,
                      i: nat, done: seq<Link>, order: seq<Device>)
    requires RoutersCounted(entries, ls) && Enumerates(nodes, ids, ls) && i < |ids| && Taken(entries, now, done)
    ensures ids[i] in now && |Routers(ids)| == |ids|
    ensures order + Routers(ids)[..i + 1] == order + Routers(ids)[..i] + [Router(ids[i])]
  {
    assert ids[i] in ids;
  }

  // ----- both passes

  /**
   For an accepted description, every link is attached once, each interface that was counted for
   a router gets exactly one link end, and each host is attached with its interface 0 only. At
   the end the next free interface of every router is the number of its interfaces.
   */
  method ParseTopology(ls: seq<Line>, nodes: seq<int>, routerIds: seq<int>)
    returns (ok: bool, attached: seq<Attached>, routers: map<int, RouterEntry>)
    requires Enumerates(nodes, routerIds, LinksOf(ls))
    ensures ok <==> Accepted(ls)
    ensures ok ==> attached == Assigned(ByDevice(LinksOf(ls), Nodes(nodes) + Routers(routerIds)))
    ensures ok ==> multiset(Links(attached)) == multiset(LinksOf(ls))
    ensures ok ==> forall i :: 0 <= i < |attached| ==> Ascending(attached[i].link)
    ensures ok ==> forall v, i: nat :: v in routerIds ==>
                     v in routers && PluggedIn(attached, Router(v), i) == if i < routers[v].nIntf then 1 else 0
    ensures ok ==> forall v, i: nat :: v in nodes ==> PluggedIn(attached, Node(v), i) == if i == 0 then 1 else 0
    ensures ok ==> forall v :: v in routers ==> routers[v].nxtIntf == routers[v].nIntf == Ends(LinksOf(ls), Router(v))
  {
    attached, routers := [], map[];
    var t;
    ok, t := CountLinks(ls);
    if !ok {
      return;
    }
    ghost var links := LinksOf(ls);
    LinksAreWellLinked(ls);
    hide *;
    var hosts, now := AttachHosts(t, nodes, routerIds, links);
    attached, routers := AttachAllRouters(now, routerIds, t.routers, nodes, links, Nodes(nodes), hosts);
    AllAttached(t, routers, links, nodes, routerIds);
    AcceptedIsLinkable(ls);
    LinksAscend(ls, attached);
  }

  lemma AcceptedIsLinkable(ls: seq<Line>)
    requires Accepted(ls)
    ensures forall i :: 0 <= i < |ls| ==> Linkable(ls[i])
  {
  }

  /** Attaching links keeps their direction. */
  lemma LinksAscend(ls: seq<Line>, attached: seq<Attached>)
    requires multiset(Links(attached)) == multiset(LinksOf(ls))
    requires forall i :: 0 <= i < |ls| ==> Linkable(ls[i])
    ensures forall i :: 0 <= i < |attached| ==> Ascending(attached[i].link)
  {
    hide LinksOf, LinkOf, Linkable;
    forall i | 0 <= i < |attached|
      ensures Ascending(attached[i].link)
    {
      assert Links(attached)[i] in multiset(LinksOf(ls));
      LinkIsFromLine(ls, attached[i].link);
    }
  }

  lemma {:induction false} LinkIsFromLine(ls: seq<Line>, k: Link)
    requires k in LinksOf(ls) && forall i :: 0 <= i < |ls| ==> Linkable(ls[i])
    ensures Ascending(k)
    decreases |ls|
  {
    if ls != [] {
      hide LinkOf, Linkable;
      LinkJoinsLine(ls[|ls| - 1]);
      if k in LinksOf(ls[..|ls| - 1]) {
        LinkIsFromLine(ls[..|ls| - 1], k);
      }
    }
  }

  lemma DevicesAreDistinct(nodes: seq<int>, ids: seq<int>, ls: seq<Link>)
    requires Enumerates(nodes, ids, ls) && WellLinked(ls)
    ensures DistinctDevices(Nodes(nodes) + Routers(ids))
    ensures forall i :: 0 <= i < |ls| ==> ls[i].src in Nodes(nodes) + Routers(ids)
  {
    var order := Nodes(nodes) + Routers(ids);
    forall i | 0 <= i < |ls|
      ensures ls[i].src in order
    {
      var d := ls[i].src;
      EndsCount(ls, ls[i]);
      if d.Node? {
        assert d == Node(d.id) && d.id in nodes;
        var k :| 0 <= k < |nodes| && nodes[k] == d.id;
        assert order[k] == d;
      } else {
        assert d == Router(d.id) && d.id in ids;
        var k :| 0 <= k < |ids| && ids[k] == d.id;
        assert order[|nodes| + k] == d;
      }
    }
  }

  /** What attaching all links in the orders of the dictionaries gives. */
  lemma AllAttached(t: Tables, now: map<int, RouterEntry>, ls: seq<Link>, nodes: seq<int>, ids: seq<int>)
    requires HostsCounted(t.lxcs, ls) && RoutersCounted(t.routers, ls) && Enumerates(nodes, ids, ls) && WellLinked(ls)
    requires Taken(t.routers, now, ByDevice(ls, Nodes(nodes) + Routers(ids)))
    ensures var attached := Assigned(ByDevice(ls, Nodes(nodes) + Routers(ids)));
            && multiset(Links(attached)) == multiset(ls)
            && (forall v, i: nat :: v in ids ==>
                  v in now && PluggedIn(attached, Router(v), i) == if i < now[v].nIntf then 1 else 0)
            && (forall v, i: nat :: v in nodes ==> PluggedIn(attached, Node(v), i) == if i == 0 then 1 else 0)
            && (forall v :: v in now ==> now[v].nxtIntf == now[v].nIntf == Ends(ls, Router(v)))
  {
    var order := Nodes(nodes) + Routers(ids);
    var done := ByDevice(ls, order);
    DevicesAreDistinct(nodes, ids, ls);
    ByDeviceIsPermutation(ls, order);
    NoLoopsInPermutation(ls, done);
    EachLinkOnce(done);
    forall v | v in now
      ensures now[v].nxtIntf == now[v].nIntf == Ends(ls, Router(v))
    {
      EndsOfPermutation(ls, done, Router(v));
    }
    forall v, i: nat | v in ids
      ensures v in now && PluggedIn(Assigned(done), Router(v), i) == if i < now[v].nIntf then 1 else 0
    {
      EachInterfaceOnce(done, Router(v), i);
    }
    forall v, i: nat | v in nodes
      ensures PluggedIn(Assigned(done), Node(v), i) == if i == 0 then 1 else 0
    {
      EndsOfPermutation(ls, done, Node(v));
      EachInterfaceOnce(done, Node(v), i);
    }
  }
}
