/**
 The topology of serial links between nodes: one pass counts the interfaces of every node,
 a second one attaches the links.
 */
module SerialTopology {
  import opened Topology

  /** A line of the description: two nodes, counted from 0, and a delay. */
  datatype Line = Line(node1: int, node2: int, delay: int)

  /** What is known about a node: links to nodes with higher numbers, and interfaces. */
  datatype Lxc = Lxc(neighbours: seq<(int, int)>, nIntf: nat, nxtIntf: nat)

  const EMPTY := Lxc([], 0, 0)

  /** A link starts at the node with the lower number. */
  function LinkOf(l: Line): Link {
    if l.node1 < l.node2 then Link(Node(l.node1), Node(l.node2), l.delay) else Link(Node(l.node2), Node(l.node1),
            l.delay)
  }

  /** A link joins the two nodes of its line, in ascending order, with the delay of the line. */
  lemma LinkJoinsLine(l: Line)
    requires l.node1 != l.node2
    ensures var k := LinkOf(l);
            && k.src.Node? && k.dst.Node? && {k.src.id, k.dst.id} == {l.node1, l.node2} && k.delay == l.delay
            && Ascending(k)
  {
  }

  predicate Ascending(l: Link) {
    l.src.id < l.dst.id
  }

  function LinksOf(ls: seq<Line>): seq<Link> {
    if ls == [] then [] else LinksOf(ls[..|ls| - 1]) + [LinkOf(ls[|ls| - 1])]
  }

  function LinksFrom(v: int, neighbours: seq<(int, int)>): seq<Link> {
    seq(|neighbours|, i requires 0 <= i < |neighbours| => Link(Node(v), Node(neighbours[i].0), neighbours[i].1))
  }

  /** The table that belongs to a set of links. */
  ghost predicate Counted(lxcs: map<int, Lxc>, ls: seq<Link>) {
    && (forall v :: v in lxcs <==> Ends(ls, Node(v)) > 0)
    && (forall v :: v in lxcs ==> EntryCounts(v, lxcs[v], ls))
  }

  ghost predicate Accepted(ls: seq<Line>, nrSerialDevs: nat) {
    && (forall i :: 0 <= i < |ls| ==> ls[i].node1 != ls[i].node2)
    && (forall v :: Ends(LinksOf(ls), Node(v)) <= nrSerialDevs)
  }

  lemma LinksOfNext(ls: seq<Line>, i: nat)
    requires i < |ls|
    ensures LinksOf(ls[..i + 1]) == LinksOf(ls[..i]) + [LinkOf(ls[i])]
  {
    assert ls[..i + 1][..i] == ls[..i];
  }

  /** The table with one more link. */
  function Added(lxcs: map<int, Lxc>, l: Link): map<int, Lxc> {
    var a := if l.src.id in lxcs then lxcs[l.src.id] else EMPTY;
    var b := if l.dst.id in lxcs then lxcs[l.dst.id] else EMPTY;
    lxcs[l.src.id := a.(neighbours := a.neighbours + [(l.dst.id, l.delay)], nIntf := a.nIntf + 1)]
        [l.dst.id := b.(nIntf := b.nIntf + 1)]
  }

  lemma CountedNext(lxcs: map<int, Lxc>, ls: seq<Link>, l: Link)
    requires Counted(lxcs, ls) && l.src != l.dst && l.src.Node? && l.dst.Node?
    ensures Counted(Added(lxcs, l), ls + [l])
  {
    hide Added, Ends, From, LinksFrom;
    forall v
      ensures v in Added(lxcs, l) <==> Ends(ls + [l], Node(v)) > 0
      ensures v in Added(lxcs, l) ==> EntryCounts(v, Added(lxcs, l)[v], ls + [l])
    {
      NodeGrows(lxcs, ls, l, v);
    }
  }

  /** The entry of a node belongs to a set of links. */
  ghost predicate EntryCounts(v: int, e: Lxc, ls: seq<Link>) {
    e.nIntf == Ends(ls, Node(v)) && LinksFrom(v, e.neighbours) == From(ls, Node(v))
  }

  lemma NodeGrows(lxcs: map<int, Lxc>, ls: seq<Link>, l: Link, v: int)
    requires Counted(lxcs, ls) && l.src != l.dst && l.src.Node? && l.dst.Node?
    ensures v in Added(lxcs, l) <==> Ends(ls + [l], Node(v)) > 0
    ensures v in Added(lxcs, l) ==> EntryCounts(v, Added(lxcs, l)[v], ls + [l])
  {
    assert v in lxcs <==> Ends(ls, Node(v)) > 0;
    assert v in lxcs ==> EntryCounts(v, lxcs[v], ls);
    hide Counted, Ends, From, Added, LinksFrom, EndsOf;
    AssignedNext(ls, l);
    FromNext(ls, l, Node(v));
    EntryAdded(lxcs, l, v);
    var e := if v in lxcs then lxcs[v] else EMPTY;
    if v !in lxcs {
      NoneFrom(ls, Node(v));
      assert LinksFrom(v, []) == [] by { NoLinksFrom(v); }
    }
    LinksFromNext(v, e.neighbours, l.dst.id, l.delay);
  }

  /** What a link adds to the entry of a node. */
  lemma EntryAdded(lxcs: map<int, Lxc>, l: Link, v: int)
    requires l.src != l.dst && l.src.Node? && l.dst.Node?
    ensures v in Added(lxcs, l) <==> v in lxcs || EndsOf(l, Node(v)) > 0
    ensures v in Added(lxcs, l) ==>
              var e := if v in lxcs then lxcs[v] else EMPTY;
              && Added(lxcs, l)[v].nIntf == e.nIntf + EndsOf(l, Node(v))
              && Added(lxcs, l)[v].neighbours
                 == if l.src == Node(v) then e.neighbours + [(l.dst.id, l.delay)] else e.neighbours
  {
  }

  lemma NoLinksFrom(v: int)
    ensures LinksFrom(v, []) == []
  {
  }

  lemma LinksFromNext(v: int, neighbours: seq<(int, int)>, id: int, delay: int)
    ensures LinksFrom(v, neighbours + [(id, delay)]) == LinksFrom(v, neighbours) + [Link(Node(v), Node(id), delay)]
  {
  }

  /** Enter a line into the table; fails if it links a node to itself. */
  method AddLine(lxcs: map<int, Lxc>, line: Line) returns (ok: bool, lxcs': map<int, Lxc>)
    ensures ok <==> line.node1 != line.node2
    ensures ok ==> lxcs' == Added(lxcs, LinkOf(line))
  {
    var n1, n2, delay := line.node1, line.node2, line.delay;
    lxcs' := lxcs;
    if n1 !in lxcs' {
      lxcs' := lxcs'[n1 := EMPTY];
    }
    if n2 !in lxcs' {
      lxcs' := lxcs'[n2 := EMPTY];
    }
    if n1 == n2 {
      return false, lxcs';
    }
    if n1 < n2 {
      lxcs' := lxcs'[n1 := lxcs'[n1].(neighbours := lxcs'[n1].neighbours + [(n2, delay)])];
    } else {
      lxcs' := lxcs'[n2 := lxcs'[n2].(neighbours := lxcs'[n2].neighbours + [(n1, delay)])];
    }
    lxcs' := lxcs'[n1 := lxcs'[n1].(nIntf := lxcs'[n1].nIntf + 1)];
    lxcs' := lxcs'[n2 := lxcs'[n2].(nIntf := lxcs'[n2].nIntf + 1)];
    ok := true;
  }

  /** Only the ends of the new link can have too many interfaces. */
  lemma AcceptedNext(ls: seq<Line>, i: nat, n: nat)
    requires i < |ls| && Accepted(ls[..i], n) && ls[i].node1 != ls[i].node2
    requires Ends(LinksOf(ls[..i + 1]), Node(ls[i].node1)) <= n && Ends(LinksOf(ls[..i + 1]), Node(ls[i].node2)) <= n
    ensures Accepted(ls[..i + 1], n)
  {
    LinksOfNext(ls, i);
    AssignedNext(LinksOf(ls[..i]), LinkOf(ls[i]));
    var front, shorter := ls[..i + 1], ls[..i];
    forall k | 0 <= k < |front|
      ensures front[k].node1 != front[k].node2
    {
      if k < i {
        assert front[k] == shorter[k];
      }
    }
  }

  lemma LinksHaveNoLoops(ls: seq<Line>)
    requires forall i :: 0 <= i < |ls| ==> ls[i].node1 != ls[i].node2
    ensures NoLoops(LinksOf(ls))
  {
  }

  /** The first pass. */
  method CountLinks(ls: seq<Line>, nrSerialDevs: nat) returns (ok: bool, lxcs: map<int, Lxc>)
    ensures ok <==> Accepted(ls, nrSerialDevs)
    ensures ok ==> Counted(lxcs, LinksOf(ls)) && NoLoops(LinksOf(ls))
    ensures ok ==> forall v :: v in lxcs ==> lxcs[v].nxtIntf == 0
  {
    lxcs := map[];
    for i := 0 to |ls|
      invariant Accepted(ls[..i], nrSerialDevs) && Counted(lxcs, LinksOf(ls[..i]))
      invariant forall v :: v in lxcs ==> lxcs[v].nxtIntf == 0
    {
      hide *;
      var before := lxcs;
      ok, lxcs := AddLine(lxcs, ls[i]);
      if !ok {
        LoopIsRefused(ls, i, nrSerialDevs);
        return;
      }
      AddedFacts(before, ls[i]);
      LinksOfNext(ls, i);
      CountedNext(before, LinksOf(ls[..i]), LinkOf(ls[i]));
      CountsEnds(lxcs, LinksOf(ls[..i + 1]));
      if lxcs[ls[i].node1].nIntf > nrSerialDevs || lxcs[ls[i].node2].nIntf > nrSerialDevs {
        TooManyStays(ls, i + 1, nrSerialDevs,
                     if lxcs[ls[i].node1].nIntf > nrSerialDevs then ls[i].node1 else ls[i].node2);
        return false, lxcs;
      }
      AcceptedNext(ls, i, nrSerialDevs);
    }
    assert ls[..|ls|] == ls;
    LinksHaveNoLoops(ls);
    ok := true;
  }

  lemma AddedFacts(lxcs: map<int, Lxc>, line: Line)
    ensures line.node1 in Added(lxcs, LinkOf(line)) && line.node2 in Added(lxcs, LinkOf(line))
    ensures (forall v :: v in lxcs ==> lxcs[v].nxtIntf == 0) ==>
              forall v :: v in Added(lxcs, LinkOf(line)) ==> Added(lxcs, LinkOf(line))[v].nxtIntf == 0
    ensures line.node1 != line.node2 ==> LinkOf(line).src != LinkOf(line).dst
    ensures LinkOf(line).src.Node? && LinkOf(line).dst.Node?
  {
  }

  lemma CountsEnds(lxcs: map<int, Lxc>, ls: seq<Link>)
    requires Counted(lxcs, ls)
    ensures forall v :: v in lxcs ==> lxcs[v].nIntf == Ends(ls, Node(v))
  {
  }

  lemma LoopIsRefused(ls: seq<Line>, i: nat, n: nat)
    requires i < |ls| && ls[i].node1 == ls[i].node2
    ensures !Accepted(ls, n)
  {
  }

  lemma TooManyStays(ls: seq<Line>, i: nat, n: nat, v: int)
    requires i <= |ls| && Ends(LinksOf(ls[..i]), Node(v)) > n
    ensures !Accepted(ls, n)
    decreases |ls| - i
  {
    if i == |ls| {
      assert ls[..i] == ls;
    } else {
      LinksOfNext(ls, i);
      AssignedNext(LinksOf(ls[..i]), LinkOf(ls[i]));
      TooManyStays(ls, i + 1, n, v);
    }
  }

  // ----- the second pass

  /** Interfaces are taken, nothing else has changed. */
  ghost predicate Taken(lxcs: map<int, Lxc>, now: map<int, Lxc>, done: seq<Link>) {
    && now.Keys == lxcs.Keys
    && (forall v :: v in lxcs ==> now[v] == lxcs[v].(nxtIntf := Ends(done, Node(v))))
  }

  /** Attach one link. */
  method AttachLink(now: map<int, Lxc>, node: int, neighbour: int, delay: int, ghost lxcs: map<int, Lxc>,
                    ghost done: seq<Link>)
    returns (a: Attached, now': map<int, Lxc>)
    requires node in now && neighbour in now && node != neighbour && Taken(lxcs, now, done)
    ensures var l := Link(Node(node), Node(neighbour), delay);
            && a == Attached(l, Ends(done, l.src), Ends(done, l.dst)) && Taken(lxcs, now', done + [l])
  {
    var dst, src := now[neighbour].nxtIntf, now[node].nxtIntf;
    a := Attached(Link(Node(node), Node(neighbour), delay), src, dst);
    now' := now[node := now[node].(nxtIntf := now[node].nxtIntf + 1)];
    now' := now'[neighbour := now'[neighbour].(nxtIntf := now'[neighbour].nxtIntf + 1)];
    AssignedNext(done, Link(Node(node), Node(neighbour), delay));
  }

  /** The links of one node. */
  method AttachNode(now: map<int, Lxc>, node: int, ghost lxcs: map<int, Lxc>, ghost ls: seq<Link>,
                    ghost done: seq<Link>)
    returns (attached: seq<Attached>, now': map<int, Lxc>)
    requires node in now && Counted(lxcs, ls) && NoLoops(ls) && AllNodes(ls) && Taken(lxcs, now, done)
    ensures Assigned(done) + attached == Assigned(done + From(ls, Node(node)))
    ensures Taken(lxcs, now', done + From(ls, Node(node)))
  {
    var neighbours := now[node].neighbours;
    ghost var mine := From(ls, Node(node));
    NeighboursAreLinks(lxcs, now, ls, done, node);
    attached, now' := [], now;
    NothingAttached(done, mine);
    hide *;
    for i := 0 to |neighbours|
      invariant Taken(lxcs, now', done + mine[..i]) && Assigned(done) + attached == Assigned(done + mine[..i])
    {
      LinkIsKnown(lxcs, now', ls, done + mine[..i], node, i);
      var a;
      a, now' := AttachLink(now', node, neighbours[i].0, neighbours[i].1, lxcs, done + mine[..i]);
      AttachedNext(done, mine, i, attached, a);
      attached := attached + [a];
    }
    assert mine[..|mine|] == mine;
  }

  ghost predicate AllNodes(ls: seq<Link>) {
    forall l :: l in ls ==> l.src.Node? && l.dst.Node?
  }

  lemma NeighboursAreLinks(lxcs: map<int, Lxc>, now: map<int, Lxc>, ls: seq<Link>, done: seq<Link>, node: int)
    requires node in now && Counted(lxcs, ls) && Taken(lxcs, now, done)
    ensures node in lxcs && now[node].neighbours == lxcs[node].neighbours
    ensures LinksFrom(node, now[node].neighbours) == From(ls, Node(node))
  {
  }

  /** The other end of a link is in the table. */
  lemma LinkIsKnown(lxcs: map<int, Lxc>, now: map<int, Lxc>, ls: seq<Link>, done: seq<Link>, node: int, i: nat)
    requires node in lxcs && Counted(lxcs, ls) && NoLoops(ls) && AllNodes(ls) && Taken(lxcs, now, done)
    requires i < |lxcs[node].neighbours|
    ensures var n := lxcs[node].neighbours[i];
            && node in now && n.0 in now && n.0 != node
            && i < |From(ls, Node(node))| && From(ls, Node(node))[i] == Link(Node(node), Node(n.0), n.1)
  {
    var n := lxcs[node].neighbours[i];
    var l := From(ls, Node(node))[i];
    assert l == LinksFrom(node, lxcs[node].neighbours)[i] == Link(Node(node), Node(n.0), n.1);
    FromIsPart(ls, Node(node), i);
    EndsCount(ls, l);
  }

  /** The nodes of some links, each of them once: the keys of the table in the order of the dictionary. */
  ghost predicate Enumerates(nodes: seq<int>, ls: seq<Link>) {
    && (forall i, j :: 0 <= i < j < |nodes| ==> nodes[i] != nodes[j])
    && (forall v :: v in nodes <==> Ends(ls, Node(v)) > 0)
  }

  function Devices(nodes: seq<int>): seq<Device> {
    seq(|nodes|, i requires 0 <= i < |nodes| => Node(nodes[i]))
  }

  /** The second pass: all nodes, in whatever order the dictionary has. */
  method AttachAll(lxcs: map<int, Lxc>, nodes: seq<int>, ghost ls: seq<Link>)
    returns (attached: seq<Attached>, now: map<int, Lxc>)
    requires Counted(lxcs, ls) && NoLoops(ls) && AllNodes(ls) && Enumerates(nodes, ls)
    requires forall v :: v in lxcs ==> lxcs[v].nxtIntf == 0
    ensures attached == Assigned(ByDevice(ls, Devices(nodes))) && Taken(lxcs, now, ByDevice(ls, Devices(nodes)))
  {
    hide *;
    attached, now := [], lxcs;
    ghost var order := Devices(nodes);
    NothingTaken(lxcs, ls, nodes);
    for i := 0 to |nodes|
      invariant attached == Assigned(ByDevice(ls, order[..i])) && Taken(lxcs, now, ByDevice(ls, order[..i]))
    {
      NodeIsKnown(lxcs, now, ls, ByDevice(ls, order[..i]), nodes, i);
      var more;
      more, now := AttachNode(now, nodes[i], lxcs, ls, ByDevice(ls, order[..i]));
      DevicesNext(nodes, i);
      ByDeviceNext(ls, order[..i], Node(nodes[i]));
      attached := attached + more;
    }
  }

  lemma NothingTaken(lxcs: map<int, Lxc>, ls: seq<Link>, nodes: seq<int>)
    requires forall v :: v in lxcs ==> lxcs[v].nxtIntf == 0
    ensures |Devices(nodes)| == |nodes| && Devices(nodes)[..|nodes|] == Devices(nodes)
    ensures Taken(lxcs, lxcs, ByDevice(ls, Devices(nodes)[..0])) && Assigned(ByDevice(ls, Devices(nodes)[..0])) == []
  {
  }

  lemma DevicesNext(nodes: seq<int>, i: nat)
    requires i < |nodes|
    ensures |Devices(nodes)| == |nodes| && Devices(nodes)[..i + 1] == Devices(nodes)[..i] + [Node(nodes[i])]
  {
  }

  lemma NodeIsKnown(lxcs: map<int, Lxc>, now: map<int, Lxc>, ls: seq<Link>, done: seq<Link>, nodes: seq<int>, i: nat)
    requires Counted(lxcs, ls) && Taken(lxcs, now, done) && Enumerates(nodes, ls) && i < |nodes|
    ensures nodes[i] in now
  {
    assert nodes[i] in nodes;
  }

  lemma {:induction false} LinksAreNodes(ls: seq<Line>)
    ensures AllNodes(LinksOf(ls))
    decreases |ls|
  {
    if ls != [] {
      LinksAreNodes(ls[..|ls| - 1]);
    }
  }

  // ----- both passes

  /**
   For an accepted description with the expected number of nodes, every link is attached once,
   and each interface that was counted for a node gets exactly one link end. At the end the
   next free interface of every node is the number of its interfaces.
   */
  method ParseTopology(ls: seq<Line>, nodes: seq<int>, nrSerialDevs: nat, expNodes: nat)
    returns (ok: bool, attached: seq<Attached>, lxcs: map<int, Lxc>)
    requires Enumerates(nodes, LinksOf(ls))
    ensures ok <==> Accepted(ls, nrSerialDevs) && |nodes| == expNodes
    ensures ok ==> attached == Assigned(ByDevice(LinksOf(ls), Devices(nodes)))
    ensures ok ==> multiset(Links(attached)) == multiset(LinksOf(ls))
    ensures ok ==> forall i :: 0 <= i < |attached| ==> Ascending(attached[i].link)
    ensures ok ==> forall v, i: nat :: v in nodes ==>
                     v in lxcs && PluggedIn(attached, Node(v), i) == if i < lxcs[v].nIntf then 1 else 0
    ensures ok ==> forall v :: v in lxcs ==> lxcs[v].nxtIntf == lxcs[v].nIntf == Ends(LinksOf(ls), Node(v))
  {
    attached := [];
    ok, lxcs := CountLinks(ls, nrSerialDevs);
    if !ok || |nodes| != expNodes {
      return false, attached, lxcs;
    }
    ghost var links, counted := LinksOf(ls), lxcs;
    LinksAreNodes(ls);
    attached, lxcs := AttachAll(lxcs, nodes, links);
    AllAttached(counted, lxcs, links, nodes);
    LinksAscend(ls, attached);
  }

  /** Attaching links keeps their direction. */
  lemma LinksAscend(ls: seq<Line>, attached: seq<Attached>)
    requires multiset(Links(attached)) == multiset(LinksOf(ls))
    requires forall i :: 0 <= i < |ls| ==> ls[i].node1 != ls[i].node2
    ensures forall i :: 0 <= i < |attached| ==> Ascending(attached[i].link)
  {
    hide LinksOf, LinkOf;
    forall i | 0 <= i < |attached|
      ensures Ascending(attached[i].link)
    {
      assert Links(attached)[i] in multiset(LinksOf(ls));
      LinkIsFromLine(ls, attached[i].link);
    }
  }

  lemma {:induction false} LinkIsFromLine(ls: seq<Line>, k: Link)
    requires k in LinksOf(ls) && forall i :: 0 <= i < |ls| ==> ls[i].node1 != ls[i].node2
    ensures Ascending(k)
    decreases |ls|
  {
    if ls != [] {
      hide LinkOf;
      LinkJoinsLine(ls[|ls| - 1]);
      if k in LinksOf(ls[..|ls| - 1]) {
        LinkIsFromLine(ls[..|ls| - 1], k);
      }
    }
  }

  /** What attaching all links in the order of the nodes gives. */
  lemma AllAttached(counted: map<int, Lxc>, lxcs: map<int, Lxc>, ls: seq<Link>, nodes: seq<int>)
    requires Counted(counted, ls) && NoLoops(ls) && AllNodes(ls) && Enumerates(nodes, ls)
    requires Taken(counted, lxcs, ByDevice(ls, Devices(nodes)))
    ensures multiset(Links(Assigned(ByDevice(ls, Devices(nodes))))) == multiset(ls)
    ensures forall v, i: nat :: v in nodes ==>
              v in lxcs && PluggedIn(Assigned(ByDevice(ls, Devices(nodes))), Node(v), i)
                  == if i < lxcs[v].nIntf then 1 else 0
    ensures forall v :: v in lxcs ==> lxcs[v].nxtIntf == lxcs[v].nIntf == Ends(ls, Node(v))
  {
    var order := Devices(nodes);
    var done := ByDevice(ls, order);
    forall i | 0 <= i < |ls|
      ensures ls[i].src in order
    {
      EndsCount(ls, ls[i]);
      assert ls[i].src == Node(ls[i].src.id) && ls[i].src.id in nodes;
      var k :| 0 <= k < |nodes| && nodes[k] == ls[i].src.id;
      assert order[k] == ls[i].src;
    }
    ByDeviceIsPermutation(ls, order);
    NoLoopsInPermutation(ls, done);
    EachLinkOnce(done);
    forall v | v in lxcs
      ensures lxcs[v].nxtIntf == lxcs[v].nIntf == Ends(ls, Node(v))
    {
      EndsOfPermutation(ls, done, Node(v));
    }
    forall v, i: nat | v in nodes
      ensures v in lxcs && PluggedIn(Assigned(done), Node(v), i) == if i < lxcs[v].nIntf then 1 else 0
    {
      EachInterfaceOnce(done, Node(v), i);
    }
  }
}
