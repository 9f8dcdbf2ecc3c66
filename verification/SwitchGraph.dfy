/** The switch graph: built from the controller's link list, pruned of one-direction links, searched depth first. */
module SwitchGraph {
  import opened SetSizes

  type Dpid = nat
  type Port = nat

  datatype Option<T> = None | Some(value: T)

  datatype Neighbor = Neighbor(port: Port, dpid: Dpid)
  datatype Link = Link(src: Dpid, srcPort: Port, dst: Dpid, dstPort: Port)

  type Adjacency = map<Dpid, seq<Neighbor>>

  // ---------------------------------------------------------------- neighbours and ports

  // The first recorded port towards a switch.
  function FirstPort(ns: seq<Neighbor>, to: Dpid): Option<Port> {
    if ns == [] then None
    else if ns[0].dpid == to then Some(ns[0].port)
    else FirstPort(ns[1..], to)
  }

  predicate Adjacent(g: Adjacency, a: Dpid, b: Dpid) { a in g && FirstPort(g[a], b).Some? }

  ghost predicate Closed(g: Adjacency) { forall a, b :: Adjacent(g, a, b) ==> b in g }

  lemma {:induction false} FirstPortAppend(ns: seq<Neighbor>, more: seq<Neighbor>, to: Dpid)
    ensures FirstPort(ns + more, to) == if FirstPort(ns, to).Some? then FirstPort(ns, to) else FirstPort(more, to)
  {
    if ns == [] {
      assert ns + more == more;
    } else {
      assert (ns + more)[1..] == ns[1..] + more;
      FirstPortAppend(ns[1..], more, to);
    }
  }

  lemma {:induction false} FirstPortSome(ns: seq<Neighbor>, to: Dpid)
    ensures FirstPort(ns, to).Some? <==> exists i :: 0 <= i < |ns| && ns[i].dpid == to
    ensures FirstPort(ns, to).Some? ==> Neighbor(FirstPort(ns, to).value, to) in ns
  {
    if ns != [] {
      FirstPortSome(ns[1..], to);
      if i :| 0 <= i < |ns| && ns[i].dpid == to {
        assert i > 0 ==> ns[1..][i - 1] == ns[i];
      }
      if i :| 0 <= i < |ns[1..]| && ns[1..][i].dpid == to {
        assert ns[i + 1] == ns[1..][i];
      }
    }
  }

  method IsNeighborExist(neighbors: seq<Neighbor>, viaPort: Option<Port>, toDestDpid: Dpid) returns (exist: bool)
    ensures viaPort.Some? ==> (exist <==> Neighbor(viaPort.value, toDestDpid) in neighbors)
    ensures viaPort.None? ==> (exist <==> FirstPort(neighbors, toDestDpid).Some?)
  {
    FirstPortSome(neighbors, toDestDpid);
    for i := 0 to |neighbors|
      invariant forall j :: 0 <= j < i ==>
                neighbors[j].dpid != toDestDpid || (viaPort.Some? && neighbors[j].port != viaPort.value)
    {
      if neighbors[i].dpid == toDestDpid {
        if viaPort.Some? {
          if neighbors[i].port == viaPort.value {
            return true;
          }
        } else {
          return true;
        }
      }
    }
    return false;
  }

  method GetPortToNeighbor(neighbors: seq<Neighbor>, destDpid: Dpid) returns (port: Option<Port>)
    ensures port == FirstPort(neighbors, destDpid)
  {
    assert neighbors[0..] == neighbors;
    for i := 0 to |neighbors|
      invariant FirstPort(neighbors, destDpid) == FirstPort(neighbors[i..], destDpid)
    {
      assert neighbors[i..][1..] == neighbors[i + 1..];
      if neighbors[i].dpid == destDpid {
        return Some(neighbors[i].port);
      }
    }
    return None;
  }

  // ---------------------------------------------------------------- building

  function AddNeighbor(g: Adjacency, a: Dpid, n: Neighbor): Adjacency
    requires a in g
  {
    if n in g[a] then g else g[a := g[a] + [n]]
  }

  predicate Known(nodes: set<Dpid>, links: seq<Link>) {
    forall i :: 0 <= i < |links| ==> links[i].src in nodes && links[i].dst in nodes
  }

  function AddLink(g: Adjacency, l: Link): Adjacency
    requires l.src in g && l.dst in g
  {
    AddNeighbor(AddNeighbor(g, l.src, Neighbor(l.srcPort, l.dst)), l.dst, Neighbor(l.dstPort, l.src))
  }

  function Built(nodes: set<Dpid>, links: seq<Link>): (g: Adjacency)
    requires Known(nodes, links)
    ensures g.Keys == nodes
  {
    if links == [] then map a | a in nodes :: []
    else AddLink(Built(nodes, links[..|links| - 1]), links[|links| - 1])
  }

  // Adjacency is mutual.
  ghost predicate Mutual(g: Adjacency) {
    forall a, b :: a in g && b in g ==> (Adjacent(g, a, b) <==> Adjacent(g, b, a))
  }

  // The link joins port p of a to port q of b.
  predicate Joins(l: Link, a: Dpid, p: Port, b: Dpid, q: Port) {
    l == Link(a, p, b, q) || l == Link(b, q, a, p)
  }

  // The ports first recorded at both ends of an adjacency belong to one link.
  ghost predicate SameLink(g: Adjacency, links: seq<Link>, a: Dpid, b: Dpid)
    requires Adjacent(g, a, b) && Adjacent(g, b, a)
  {
    exists i :: 0 <= i < |links| && Joins(links[i], a, FirstPort(g[a], b).value, b, FirstPort(g[b], a).value)
  }

  ghost predicate WellBuilt(g: Adjacency, links: seq<Link>) {
    && Closed(g) && Mutual(g)
    && forall a, b :: a != b && Adjacent(g, a, b) && Adjacent(g, b, a) ==> SameLink(g, links, a, b)
  }

  lemma FirstPortAfterAdd(g: Adjacency, a: Dpid, n: Neighbor, x: Dpid, y: Dpid)
    requires a in g && x in g
    ensures FirstPort(AddNeighbor(g, a, n)[x], y)
         == if FirstPort(g[x], y).None? && x == a && y == n.dpid then Some(n.port) else FirstPort(g[x], y)
  {
    if x == a {
      FirstPortAppend(g[a], [n], y);
      FirstPortSome(g[a], y);
    }
  }

  lemma FirstPortAfterLink(g: Adjacency, l: Link, x: Dpid, y: Dpid)
    requires l.src in g && l.dst in g && x in g && l.src != l.dst
    ensures FirstPort(AddLink(g, l)[x], y)
         == if FirstPort(g[x], y).Some? then FirstPort(g[x], y)
            else if x == l.src && y == l.dst then Some(l.srcPort)
            else if x == l.dst && y == l.src then Some(l.dstPort)
            else None
  {
    FirstPortAfterAdd(g, l.src, Neighbor(l.srcPort, l.dst), x, y);
    FirstPortAfterAdd(AddNeighbor(g, l.src, Neighbor(l.srcPort, l.dst)), l.dst, Neighbor(l.dstPort, l.src), x, y);
  }

  lemma FirstPortAfterLoop(g: Adjacency, l: Link, x: Dpid, y: Dpid)
    requires l.src in g && x in g && l.src == l.dst
    ensures FirstPort(g[x], y).Some? ==> FirstPort(AddLink(g, l)[x], y) == FirstPort(g[x], y)
    ensures FirstPort(AddLink(g, l)[x], y).Some? <==> FirstPort(g[x], y).Some? || x == y == l.src
  {
    FirstPortAfterAdd(g, l.src, Neighbor(l.srcPort, l.dst), x, y);
    FirstPortAfterAdd(AddNeighbor(g, l.src, Neighbor(l.srcPort, l.dst)), l.dst, Neighbor(l.dstPort, l.src), x, y);
  }

  lemma LinkKeepsClosedAndMutual(g: Adjacency, l: Link)
    requires l.src in g && l.dst in g && Closed(g) && Mutual(g)
    ensures Closed(AddLink(g, l)) && Mutual(AddLink(g, l))
  {
    var g' := AddLink(g, l);
    forall a, b | a in g' ensures Adjacent(g', a, b) <==>
        Adjacent(g, a, b) || (a == l.src && b == l.dst) || (a == l.dst && b == l.src) {
      if l.src == l.dst {
        FirstPortAfterLoop(g, l, a, b);
      } else {
        FirstPortAfterLink(g, l, a, b);
      }
    }
  }

  lemma LinkKeepsSameLink(g: Adjacency, l: Link, before: seq<Link>, a: Dpid, b: Dpid)
    requires l.src in g && l.dst in g && WellBuilt(g, before) && a != b
    requires Adjacent(AddLink(g, l), a, b) && Adjacent(AddLink(g, l), b, a)
    ensures SameLink(AddLink(g, l), before + [l], a, b)
  {
    var links := before + [l];
    assert links[|before|] == l;
    if l.src == l.dst {
      FirstPortAfterLoop(g, l, a, b);
      FirstPortAfterLoop(g, l, b, a);
    } else {
      FirstPortAfterLink(g, l, a, b);
      FirstPortAfterLink(g, l, b, a);
    }
    if Adjacent(g, a, b) {
      assert Adjacent(g, b, a) && SameLink(g, before, a, b);
      var i :| 0 <= i < |before| && Joins(before[i], a, FirstPort(g[a], b).value, b, FirstPort(g[b], a).value);
      assert links[i] == before[i];
    } else {
      assert !Adjacent(g, b, a);
      assert Joins(links[|before|], a, FirstPort(AddLink(g, l)[a], b).value, b, FirstPort(AddLink(g, l)[b], a).value);
    }
  }

  /** In a graph built from a link list adjacency is mutual, and the ports first recorded at the two ends of an
      adjacency belong to one link, however many parallel links there are and whatever the order of the list. */
  lemma {:induction false} BuiltIsWellBuilt(nodes: set<Dpid>, links: seq<Link>)
    requires Known(nodes, links)
    ensures WellBuilt(Built(nodes, links), links)
  {
    var g := Built(nodes, links);
    if links == [] {
      assert forall a, b :: !Adjacent(g, a, b);
    } else {
      var before, l := links[..|links| - 1], links[|links| - 1];
      BuiltIsWellBuilt(nodes, before);
      LinkKeepsClosedAndMutual(Built(nodes, before), l);
      assert before + [l] == links;
      forall a, b | a != b && Adjacent(g, a, b) && Adjacent(g, b, a) ensures SameLink(g, links, a, b) {
        LinkKeepsSameLink(Built(nodes, before), l, before, a, b);
      }
    }
  }

  // ---- which neighbours a built graph has

  // The neighbour that a link gives to a switch at one of its ends.
  predicate GivesNeighbor(l: Link, a: Dpid, n: Neighbor) {
    (l.src == a && n == Neighbor(l.srcPort, l.dst)) || (l.dst == a && n == Neighbor(l.dstPort, l.src))
  }

  ghost predicate Given(links: seq<Link>, a: Dpid, n: Neighbor) {
    exists i :: 0 <= i < |links| && GivesNeighbor(links[i], a, n)
  }

  /** A switch has a neighbour by a port exactly when some link of the list gives it. */
  lemma {:induction false} BuiltIff(nodes: set<Dpid>, links: seq<Link>, a: Dpid, n: Neighbor)
    requires Known(nodes, links) && a in nodes
    ensures n in Built(nodes, links)[a] <==> Given(links, a, n)
  {
    if links != [] {
      var before, l := links[..|links| - 1], links[|links| - 1];
      BuiltIff(nodes, before, a, n);
      AddLinkIff(Built(nodes, before), l, a, n);
      GivenSnoc(before, l, a, n);
      assert before + [l] == links;
      hide AddLink;
      hide Given;
    }
  }

  lemma AddLinkIff(g: Adjacency, l: Link, a: Dpid, n: Neighbor)
    requires l.src in g && l.dst in g && a in g
    ensures n in AddLink(g, l)[a] <==> n in g[a] || GivesNeighbor(l, a, n)
  {
  }

  lemma GivenSnoc(before: seq<Link>, l: Link, a: Dpid, n: Neighbor)
    ensures Given(before + [l], a, n) <==> Given(before, a, n) || GivesNeighbor(l, a, n)
  {
    var links := before + [l];
    hide GivesNeighbor;
    assert links[|before|] == l;
    if i :| 0 <= i < |links| && GivesNeighbor(links[i], a, n) {
      assert i < |before| ==> before[i] == links[i];
    }
    if i :| 0 <= i < |before| && GivesNeighbor(before[i], a, n) {
      assert links[i] == before[i];
    }
  }

  predicate NoRepeats(ns: seq<Neighbor>) { forall i, j :: 0 <= i < j < |ns| ==> ns[i] != ns[j] }

  /** No neighbour is listed twice, however often its link is reported. */
  lemma {:induction false} BuiltHasNoRepeats(nodes: set<Dpid>, links: seq<Link>, a: Dpid)
    requires Known(nodes, links) && a in nodes
    ensures NoRepeats(Built(nodes, links)[a])
  {
    if links != [] {
      BuiltHasNoRepeats(nodes, links[..|links| - 1], a);
    }
  }

  // The port at switch a of a link between a and b.
  function PortAt(l: Link, a: Dpid, b: Dpid): Option<Port> {
    if l.src == a && l.dst == b then Some(l.srcPort)
    else if l.dst == a && l.src == b then Some(l.dstPort)
    else None
  }

  // The port at a of the first link of the list between a and b.
  ghost predicate FirstLinkPort(links: seq<Link>, a: Dpid, b: Dpid, port: Option<Port>) {
    if exists i :: 0 <= i < |links| && PortAt(links[i], a, b).Some? then
      exists i :: 0 <= i < |links| && PortAt(links[i], a, b).Some? && port == PortAt(links[i], a, b)
                  && forall j :: 0 <= j < i ==> PortAt(links[j], a, b).None?
    else
      port == None
  }

  lemma FirstPortAfterAny(g: Adjacency, l: Link, x: Dpid, y: Dpid)
    requires l.src in g && l.dst in g && x in g
    ensures FirstPort(AddLink(g, l)[x], y) == if FirstPort(g[x], y).Some? then FirstPort(g[x], y) else PortAt(l, x, y)
  {
    FirstPortAfterAdd(g, l.src, Neighbor(l.srcPort, l.dst), x, y);
    FirstPortAfterAdd(AddNeighbor(g, l.src, Neighbor(l.srcPort, l.dst)), l.dst, Neighbor(l.dstPort, l.src), x, y);
  }

  lemma FirstLinkSnoc(before: seq<Link>, l: Link, a: Dpid, b: Dpid, port: Option<Port>)
    requires FirstLinkPort(before, a, b, port)
    ensures FirstLinkPort(before + [l], a, b, if port.Some? then port else PortAt(l, a, b))
  {
    var links := before + [l];
    assert links[|before|] == l && forall i :: 0 <= i < |before| ==> links[i] == before[i];
    hide PortAt;
  }

  /** The port first recorded towards a switch is that of the first link of the list between the two. */
  lemma {:induction false} BuiltFirstPort(nodes: set<Dpid>, links: seq<Link>, a: Dpid, b: Dpid)
    requires Known(nodes, links) && a in nodes
    ensures FirstLinkPort(links, a, b, FirstPort(Built(nodes, links)[a], b))
  {
    hide FirstLinkPort;
    hide FirstPort;
    hide AddLink;
    hide PortAt;
    if links == [] {
      NoLinkPort(a, b);
    } else {
      var before, l := links[..|links| - 1], links[|links| - 1];
      BuiltFirstPort(nodes, before, a, b);
      FirstPortAfterAny(Built(nodes, before), l, a, b);
      FirstLinkSnoc(before, l, a, b, FirstPort(Built(nodes, before)[a], b));
      assert before + [l] == links;
    }
  }

  lemma NoLinkPort(a: Dpid, b: Dpid)
    ensures FirstLinkPort([], a, b, FirstPort([], b))
  {
  }

  // A walk over links of the list.
  ghost predicate Linked(nodes: set<Dpid>, links: seq<Link>, p: seq<Dpid>) {
    && p != [] && (forall i :: 0 <= i < |p| ==> p[i] in nodes)
    && forall i :: 0 <= i < |p| - 1 ==> HasLink(links, p[i], p[i + 1])
  }

  ghost predicate HasLink(links: seq<Link>, a: Dpid, b: Dpid) {
    exists j :: 0 <= j < |links| && PortAt(links[j], a, b).Some?
  }

  lemma LinkedIsPath(nodes: set<Dpid>, links: seq<Link>, p: seq<Dpid>)
    requires Known(nodes, links)
    ensures Linked(nodes, links, p) <==> IsPath(Built(nodes, links), p)
  {
    var g := Built(nodes, links);
    forall i | 0 <= i < |p| - 1 && p[i] in nodes
      ensures Adjacent(g, p[i], p[i + 1]) <==> HasLink(links, p[i], p[i + 1])
    {
      BuiltFirstPort(nodes, links, p[i], p[i + 1]);
    }
    hide Built;
    hide PortAt;
  }

  /** On a built graph a path is found exactly when the links of the list lead from one switch to the other. */
  lemma BuiltPathIff(nodes: set<Dpid>, links: seq<Link>, src: Dpid, dst: Dpid)
    requires Known(nodes, links) && src in nodes
    ensures Closed(Built(nodes, links))
    ensures FindPath(Built(nodes, links), src, dst).Some?
            <==> exists p :: Linked(nodes, links, p) && p[0] == src && p[|p| - 1] == dst
  {
    var g := Built(nodes, links);
    BuiltIsWellBuilt(nodes, links);
    FindPathCorrect(g, src, dst);
    hide Built;
    hide FindPath;
    if p :| PathFromTo(g, p, src, dst) {
      LinkedIsPath(nodes, links, p);
    }
    if p :| Linked(nodes, links, p) && p[0] == src && p[|p| - 1] == dst {
      LinkedIsPath(nodes, links, p);
      assert PathFromTo(g, p, src, dst);
    }
    hide IsPath;
    hide Linked;
  }

  // ---------------------------------------------------------------- one-direction links

  // The neighbour's own list, in the original graph, leads back.
  predicate LeadsBack(g: Adjacency, a: Dpid, n: Neighbor) { Adjacent(g, n.dpid, a) }

  function Kept(g: Adjacency, a: Dpid, ns: seq<Neighbor>): seq<Neighbor> {
    if ns == [] then []
    else if LeadsBack(g, a, ns[|ns| - 1]) then Kept(g, a, ns[..|ns| - 1]) + [ns[|ns| - 1]]
    else Kept(g, a, ns[..|ns| - 1])
  }

  function Pruned(g: Adjacency): Adjacency { map a | a in g :: Kept(g, a, g[a]) }

  lemma {:induction false} KeptIn(g: Adjacency, a: Dpid, ns: seq<Neighbor>, n: Neighbor)
    ensures n in Kept(g, a, ns) <==> n in ns && LeadsBack(g, a, n)
  {
    if ns != [] {
      KeptIn(g, a, ns[..|ns| - 1], n);
      assert ns == ns[..|ns| - 1] + [ns[|ns| - 1]];
    }
  }

  // The positions of a list whose neighbours lead back, in order, and the neighbours there.
  ghost predicate Picked(g: Adjacency, a: Dpid, ns: seq<Neighbor>, at: seq<nat>, kept: seq<Neighbor>) {
    && |at| == |kept|
    && (forall k :: 0 <= k < |at| ==> at[k] < |ns| && kept[k] == ns[at[k]] && LeadsBack(g, a, ns[at[k]]))
    && (forall k, l :: 0 <= k < l < |at| ==> at[k] < at[l])
    && (forall i :: 0 <= i < |ns| && LeadsBack(g, a, ns[i]) ==> i in at)
  }

  lemma PickLast(g: Adjacency, a: Dpid, ns: seq<Neighbor>, n: Neighbor, at: seq<nat>, kept: seq<Neighbor>)
    requires Picked(g, a, ns, at, kept)
    ensures if LeadsBack(g, a, n) then Picked(g, a, ns + [n], at + [|ns|], kept + [n])
            else Picked(g, a, ns + [n], at, kept)
  {
    hide LeadsBack;
    var all, at' := ns + [n], at + [|ns|];
    assert all[|ns|] == n && at'[|at|] == |ns|;
    assert forall i :: 0 <= i < |ns| ==> all[i] == ns[i];
    forall i | 0 <= i < |ns| && LeadsBack(g, a, all[i]) ensures i in at' {
      assert i in at;
    }
  }

  /** The pruning keeps the order. */
  lemma {:induction false} KeptPicks(g: Adjacency, a: Dpid, ns: seq<Neighbor>) returns (at: seq<nat>)
    ensures Picked(g, a, ns, at, Kept(g, a, ns))
  {
    hide *;
    if ns == [] {
      at := [];
      NothingPicked(g, a);
    } else {
      var front, n := ns[..|ns| - 1], ns[|ns| - 1];
      var before := KeptPicks(g, a, front);
      PickLast(g, a, front, n, before, Kept(g, a, front));
      KeptSnoc(g, a, ns);
      assert front + [n] == ns;
      at := if LeadsBack(g, a, n) then before + [|front|] else before;
    }
  }

  lemma NothingPicked(g: Adjacency, a: Dpid)
    ensures Picked(g, a, [], [], Kept(g, a, []))
  {
  }

  lemma KeptSnoc(g: Adjacency, a: Dpid, ns: seq<Neighbor>)
    requires ns != []
    ensures var front, n := ns[..|ns| - 1], ns[|ns| - 1];
            Kept(g, a, ns) == if LeadsBack(g, a, n) then Kept(g, a, front) + [n] else Kept(g, a, front)
  {
    hide LeadsBack;
  }

  lemma KeptLeadsTo(g: Adjacency, a: Dpid, b: Dpid)
    requires a in g
    ensures FirstPort(Kept(g, a, g[a]), b).Some? <==> Adjacent(g, a, b) && Adjacent(g, b, a)
  {
    var kept := Kept(g, a, g[a]);
    FirstPortSome(kept, b);
    FirstPortSome(g[a], b);
    if i :| 0 <= i < |kept| && kept[i].dpid == b {
      KeptIn(g, a, g[a], kept[i]);
      var j :| 0 <= j < |g[a]| && g[a][j] == kept[i];
    }
    if Adjacent(g, a, b) && Adjacent(g, b, a) {
      var n := Neighbor(FirstPort(g[a], b).value, b);
      KeptIn(g, a, g[a], n);
    }
  }

  lemma {:induction false} KeepsAll(g: Adjacency, a: Dpid, ns: seq<Neighbor>)
    requires forall n :: n in ns ==> LeadsBack(g, a, n)
    ensures Kept(g, a, ns) == ns
  {
    if ns != [] {
      KeepsAll(g, a, ns[..|ns| - 1]);
    }
  }

  /** Pruning changes nothing on a graph built from a link list. */
  lemma PruningBuiltIsIdentity(nodes: set<Dpid>, links: seq<Link>)
    requires Known(nodes, links)
    ensures Pruned(Built(nodes, links)) == Built(nodes, links)
  {
    var g := Built(nodes, links);
    BuiltIsWellBuilt(nodes, links);
    forall a | a in g ensures Kept(g, a, g[a]) == g[a] {
      forall n | n in g[a] ensures LeadsBack(g, a, n) {
        FirstPortSome(g[a], n.dpid);
        assert Adjacent(g, a, n.dpid);
      }
      KeepsAll(g, a, g[a]);
    }
  }

  // list.remove(x)
  function RemoveFirst(ns: seq<Neighbor>, n: Neighbor): seq<Neighbor> {
    if ns == [] then []
    else if ns[0] == n then ns[1..]
    else [ns[0]] + RemoveFirst(ns[1..], n)
  }

  lemma {:induction false} RemoveAfter(kept: seq<Neighbor>, n: Neighbor, rest: seq<Neighbor>)
    requires n !in kept
    ensures RemoveFirst(kept + [n] + rest, n) == kept + rest
  {
    var ns := kept + [n] + rest;
    if kept == [] {
      assert ns[1..] == rest && kept + rest == rest;
    } else {
      assert ns[1..] == kept[1..] + [n] + rest;
      RemoveAfter(kept[1..], n, rest);
      assert kept + rest == [kept[0]] + (kept[1..] + rest);
    }
  }

  // ---------------------------------------------------------------- depth-first search

  datatype Found = Found(path: Option<seq<Dpid>>, visited: set<Dpid>)

  function Search(g: Adjacency, visited: set<Dpid>, src: Dpid, dst: Dpid): (r: Found)
    requires Closed(g) && src in g && visited <= g.Keys
    ensures visited <= r.visited <= g.Keys
    decreases |g.Keys - visited|, 0, 0
  {
    if src in visited then Found(None, visited)
    else if src == dst then Found(Some([src]), visited + {src})
    else
      Shrinks(g.Keys, visited, src);
      Adjacents(g, src);
      var r := SearchNeighbors(g, visited + {src}, src, g[src], dst);
      Found(if r.path.Some? then Some([src] + r.path.value) else None, r.visited)
  }

  lemma Shrinks(nodes: set<Dpid>, visited: set<Dpid>, src: Dpid)
    requires src in nodes && src !in visited
    ensures |nodes - (visited + {src})| < |nodes - visited|
  {
    assert nodes - (visited + {src}) < nodes - visited;
    ProperSubsetSize(nodes - (visited + {src}), nodes - visited);
  }

  lemma ProperSubsetSize(a: set<Dpid>, b: set<Dpid>)
    requires a < b
    ensures |a| < |b|
  {
    assert b == a + (b - a);
    assert b - a != {};
  }

  lemma Adjacents(g: Adjacency, src: Dpid)
    requires src in g && Closed(g)
    ensures forall n :: n in g[src] ==> Adjacent(g, src, n.dpid) && n.dpid in g
  {
    forall n | n in g[src] ensures Adjacent(g, src, n.dpid) {
      FirstPortSome(g[src], n.dpid);
    }
  }

  // The loop over the neighbours ns of src.
  function SearchNeighbors(g: Adjacency, visited: set<Dpid>, src: Dpid, ns: seq<Neighbor>, dst: Dpid): (r: Found)
    requires Closed(g) && visited <= g.Keys
    requires forall n :: n in ns ==> n.dpid in g
    ensures visited <= r.visited <= g.Keys
    decreases |g.Keys - visited|, 1, |ns|
  {
    if ns == [] then Found(None, visited)
    else
      var r := Search(g, visited, ns[0].dpid, dst);
      if r.path.Some? then r
      else
        SubsetSize(g.Keys - r.visited, g.Keys - visited);
        SearchNeighbors(g, r.visited, src, ns[1..], dst)
  }

  predicate IsPath(g: Adjacency, p: seq<Dpid>) {
    && p != []
    && (forall i :: 0 <= i < |p| ==> p[i] in g)
    && forall i :: 0 <= i < |p| - 1 ==> Adjacent(g, p[i], p[i + 1])
  }

  predicate Simple(p: seq<Dpid>) { forall i, j :: 0 <= i < j < |p| ==> p[i] != p[j] }

  predicate PathFromTo(g: Adjacency, p: seq<Dpid>, src: Dpid, dst: Dpid) {
    IsPath(g, p) && p[0] == src && p[|p| - 1] == dst
  }

  predicate Fresh(p: seq<Dpid>, before: set<Dpid>, after: set<Dpid>) {
    forall i :: 0 <= i < |p| ==> p[i] !in before && p[i] in after
  }

  // What was visited by an unsuccessful search is closed under adjacency and does not hold the target.
  ghost predicate Exhausted(g: Adjacency, before: set<Dpid>, after: set<Dpid>, dst: Dpid) {
    && dst !in after - before
    && forall a, b :: a in after - before && Adjacent(g, a, b) ==> b in after
  }

  lemma PrependStep(g: Adjacency, src: Dpid, n: Neighbor, p: seq<Dpid>, before: set<Dpid>, after: set<Dpid>)
    requires src in g && n in g[src] && src !in before && src in after
    requires IsPath(g, p) && p[0] == n.dpid && Simple(p) && Fresh(p, before + {src}, after)
    ensures IsPath(g, [src] + p) && Simple([src] + p) && Fresh([src] + p, before, after)
  {
    FirstPortSome(g[src], n.dpid);
    var q := [src] + p;
    forall i | 0 <= i < |q| - 1 ensures Adjacent(g, q[i], q[i + 1]) {
      if i > 0 {
        assert q[i] == p[i - 1] && q[i + 1] == p[i];
      }
    }
  }

  lemma {:induction false} SearchSound(g: Adjacency, visited: set<Dpid>, src: Dpid, dst: Dpid)
    requires Closed(g) && src in g && visited <= g.Keys
    ensures var r := Search(g, visited, src, dst);
            r.path.Some? ==> PathFromTo(g, r.path.value, src, dst) && Simple(r.path.value)
                             && Fresh(r.path.value, visited, r.visited)
    decreases |g.Keys - visited|, 0, 0
  {
    if src !in visited && src != dst {
      Shrinks(g.Keys, visited, src);
      Adjacents(g, src);
      SearchNeighborsSound(g, visited + {src}, src, g[src], dst);
      var r := SearchNeighbors(g, visited + {src}, src, g[src], dst);
      if r.path.Some? {
        var n :| n in g[src] && n.dpid == r.path.value[0];
        PrependStep(g, src, n, r.path.value, visited, r.visited);
      }
    }
  }

  lemma {:induction false} SearchNeighborsSound(g: Adjacency, visited: set<Dpid>, src: Dpid, ns: seq<Neighbor>,
                                                dst: Dpid)
    requires Closed(g) && visited <= g.Keys
    requires forall n :: n in ns ==> n.dpid in g
    ensures var r := SearchNeighbors(g, visited, src, ns, dst);
            r.path.Some? ==> IsPath(g, r.path.value) && r.path.value[|r.path.value| - 1] == dst && Simple(r.path.value)
                             && Fresh(r.path.value, visited, r.visited)
                             && exists n :: n in ns && n.dpid == r.path.value[0]
    decreases |g.Keys - visited|, 1, |ns|
  {
    if ns != [] {
      var r := Search(g, visited, ns[0].dpid, dst);
      SearchSound(g, visited, ns[0].dpid, dst);
      if r.path.None? {
        SubsetSize(g.Keys - r.visited, g.Keys - visited);
        SearchNeighborsSound(g, r.visited, src, ns[1..], dst);
      }
    }
  }

  lemma {:induction false} SearchExhausts(g: Adjacency, visited: set<Dpid>, src: Dpid, dst: Dpid)
    requires Closed(g) && src in g && visited <= g.Keys
    ensures var r := Search(g, visited, src, dst);
            r.path.None? ==> src in r.visited && Exhausted(g, visited, r.visited, dst)
    decreases |g.Keys - visited|, 0, 0
  {
    if src !in visited && src != dst {
      Shrinks(g.Keys, visited, src);
      Adjacents(g, src);
      SearchNeighborsExhausts(g, visited + {src}, src, g[src], dst);
      var r := SearchNeighbors(g, visited + {src}, src, g[src], dst);
      if r.path.None? {
        forall a, b | a in r.visited - visited && Adjacent(g, a, b) ensures b in r.visited {
          if a == src {
            FirstPortSome(g[src], b);
          }
        }
      }
    }
  }

  lemma {:induction false} SearchNeighborsExhausts(g: Adjacency, visited: set<Dpid>, src: Dpid, ns: seq<Neighbor>,
                                                   dst: Dpid)
    requires Closed(g) && visited <= g.Keys
    requires forall n :: n in ns ==> n.dpid in g
    ensures var r := SearchNeighbors(g, visited, src, ns, dst);
            r.path.None? ==> (forall n :: n in ns ==> n.dpid in r.visited) && Exhausted(g, visited, r.visited, dst)
    decreases |g.Keys - visited|, 1, |ns|
  {
    if ns != [] {
      var r := Search(g, visited, ns[0].dpid, dst);
      SearchExhausts(g, visited, ns[0].dpid, dst);
      if r.path.None? {
        SubsetSize(g.Keys - r.visited, g.Keys - visited);
        SearchNeighborsExhausts(g, r.visited, src, ns[1..], dst);
        assert ns == [ns[0]] + ns[1..];
      }
    }
  }

  lemma {:induction false} PathStaysIn(g: Adjacency, p: seq<Dpid>, s: set<Dpid>)
    requires IsPath(g, p) && p[0] in s
    requires forall a, b :: a in s && Adjacent(g, a, b) ==> b in s
    ensures p[|p| - 1] in s
  {
    if |p| > 1 {
      assert Adjacent(g, p[0], p[1]);
      forall i | 0 <= i < |p[1..]| - 1 ensures Adjacent(g, p[1..][i], p[1..][i + 1]) {
        assert Adjacent(g, p[i + 1], p[i + 2]);
      }
      PathStaysIn(g, p[1..], s);
    }
  }

  // With no visited bit set: a simple path from source to target, or none when there is no path at all.
  function FindPath(g: Adjacency, src: Dpid, dst: Dpid): Option<seq<Dpid>>
    requires Closed(g) && src in g
  {
    Search(g, {}, src, dst).path
  }

  /** The search is sound and complete. */
  lemma FindPathCorrect(g: Adjacency, src: Dpid, dst: Dpid)
    requires Closed(g) && src in g
    ensures FindPath(g, src, dst).Some? ==>
              PathFromTo(g, FindPath(g, src, dst).value, src, dst) && Simple(FindPath(g, src, dst).value)
    ensures FindPath(g, src, dst).None? <==> forall p :: !PathFromTo(g, p, src, dst)
  {
    SearchSound(g, {}, src, dst);
    SearchExhausts(g, {}, src, dst);
    var r := Search(g, {}, src, dst);
    if r.path.None? {
      forall p | PathFromTo(g, p, src, dst) ensures false {
        PathStaysIn(g, p, r.visited);
      }
    }
  }

  // ---- which of the paths is found

  // Every path from a to the target meets one of the switches to avoid.
  ghost predicate NoWay(g: Adjacency, a: Dpid, avoid: set<Dpid>, dst: Dpid) {
    forall q :: PathFromTo(g, q, a, dst) ==> exists j :: 0 <= j < |q| && q[j] in avoid
  }

  // At position i of path p the neighbours listed before the one taken lead nowhere, except back to the path or to
  // the switches above it.
  ghost predicate TakesFirst(g: Adjacency, above: set<Dpid>, p: seq<Dpid>, i: nat, dst: Dpid)
    requires i + 1 < |p| && p[i] in g
  {
    exists k :: 0 <= k < |g[p[i]]| && g[p[i]][k].dpid == p[i + 1]
                && forall l :: 0 <= l < k ==> NoWay(g, g[p[i]][l].dpid, above + Upto(p, i), dst)
  }

  function Upto(p: seq<Dpid>, i: nat): set<Dpid>
    requires i < |p|
  {
    Elements(p[..i + 1])
  }

  function Elements(p: seq<Dpid>): set<Dpid> { set a | a in p }

  ghost predicate FirstPath(g: Adjacency, above: set<Dpid>, p: seq<Dpid>, dst: Dpid) {
    forall i :: 0 <= i < |p| - 1 ==> p[i] in g && TakesFirst(g, above, p, i, dst)
  }

  // Of what was visited, all but the switches above the current one is finished: it leads nowhere else.
  ghost predicate Finished(g: Adjacency, visited: set<Dpid>, above: set<Dpid>, dst: Dpid) {
    && above <= visited && dst !in visited - above
    && forall a, b :: a in visited - above && Adjacent(g, a, b) ==> b in visited
  }

  lemma {:induction false} FinishedHasNoWay(g: Adjacency, visited: set<Dpid>, above: set<Dpid>, a: Dpid, dst: Dpid)
    requires Finished(g, visited, above, dst) && a in visited
    ensures NoWay(g, a, above, dst)
  {
    forall q | PathFromTo(g, q, a, dst) ensures exists j :: 0 <= j < |q| && q[j] in above {
      if forall j :: 0 <= j < |q| ==> q[j] !in above {
        StaysFinished(g, visited, above, q);
      }
    }
  }

  lemma {:induction false} StaysFinished(g: Adjacency, visited: set<Dpid>, above: set<Dpid>, q: seq<Dpid>)
    requires IsPath(g, q) && q[0] in visited && forall j :: 0 <= j < |q| ==> q[j] !in above
    requires forall a, b :: a in visited - above && Adjacent(g, a, b) ==> b in visited
    ensures q[|q| - 1] in visited - above
  {
    if |q| > 1 {
      assert Adjacent(g, q[0], q[1]);
      var rest := q[1..];
      forall i | 0 <= i < |rest| - 1 ensures Adjacent(g, rest[i], rest[i + 1]) {
        assert Adjacent(g, q[i + 1], q[i + 2]);
      }
      StaysFinished(g, visited, above, rest);
    }
  }

  lemma {:induction false} SearchFirst(g: Adjacency, visited: set<Dpid>, above: set<Dpid>, src: Dpid, dst: Dpid)
    requires Closed(g) && src in g && visited <= g.Keys && Finished(g, visited, above, dst)
    ensures var r := Search(g, visited, src, dst);
            if r.path.Some? then FirstPath(g, above, r.path.value, dst)
            else Finished(g, r.visited, above, dst) && src in r.visited
    decreases |g.Keys - visited|, 0, 0
  {
    if src !in visited && src != dst {
      Shrinks(g.Keys, visited, src);
      Adjacents(g, src);
      assert g[src][0..] == g[src];
      NeighborsFirst(g, visited + {src}, above + {src}, src, 0, dst);
      SearchExhausts(g, visited, src, dst);
      var r := SearchNeighbors(g, visited + {src}, src, g[src], dst);
      if r.path.Some? {
        PrependFirst(g, above, src, r.path.value, dst);
      }
    }
  }

  // The neighbours from the k-th on are tried when those before it have failed.
  lemma {:induction false} NeighborsFirst(g: Adjacency, visited: set<Dpid>, above: set<Dpid>, src: Dpid, k: nat,
                                          dst: Dpid)
    requires Closed(g) && visited <= g.Keys && src in g && k <= |g[src]|
    requires forall n :: n in g[src] ==> n.dpid in g
    requires Finished(g, visited, above, dst) && forall l :: 0 <= l < k ==> g[src][l].dpid in visited
    ensures var r := SearchNeighbors(g, visited, src, g[src][k..], dst);
            if r.path.Some? then
              && FirstPath(g, above, r.path.value, dst) && r.path.value != []
              && exists i :: && k <= i < |g[src]| && g[src][i].dpid == r.path.value[0]
                             && forall l :: 0 <= l < i ==> NoWay(g, g[src][l].dpid, above, dst)
            else Finished(g, r.visited, above, dst)
    decreases |g.Keys - visited|, 1, |g[src]| - k
  {
    if k < |g[src]| {
      var ns := g[src][k..];
      assert ns[0] == g[src][k] && ns[1..] == g[src][k + 1..];
      var r := Search(g, visited, ns[0].dpid, dst);
      SearchFirst(g, visited, above, ns[0].dpid, dst);
      SearchSound(g, visited, ns[0].dpid, dst);
      if r.path.None? {
        SubsetSize(g.Keys - r.visited, g.Keys - visited);
        NeighborsFirst(g, r.visited, above, src, k + 1, dst);
      } else {
        forall l | 0 <= l < k ensures NoWay(g, g[src][l].dpid, above, dst) {
          FinishedHasNoWay(g, visited, above, g[src][l].dpid, dst);
        }
      }
    }
  }

  lemma PrependFirst(g: Adjacency, above: set<Dpid>, src: Dpid, p: seq<Dpid>, dst: Dpid)
    requires src in g && p != [] && FirstPath(g, above + {src}, p, dst)
    requires exists i :: && 0 <= i < |g[src]| && g[src][i].dpid == p[0]
                         && forall l :: 0 <= l < i ==> NoWay(g, g[src][l].dpid, above + {src}, dst)
    ensures FirstPath(g, above, [src] + p, dst)
  {
    var q := [src] + p;
    hide NoWay;
    forall i | 0 <= i < |q| - 1 ensures q[i] in g && TakesFirst(g, above, q, i, dst) {
      if i == 0 {
        assert Upto(q, 0) == {src};
      } else {
        assert q[i] == p[i - 1] && q[i + 1] == p[i];
        assert TakesFirst(g, above + {src}, p, i - 1, dst);
        UptoCons(src, p, i - 1);
        assert above + Upto(q, i) == above + {src} + Upto(p, i - 1);
      }
    }
  }

  lemma UptoCons(src: Dpid, p: seq<Dpid>, i: nat)
    requires i < |p|
    ensures Upto([src] + p, i + 1) == {src} + Upto(p, i)
  {
    assert ([src] + p)[..i + 2] == [src] + p[..i + 1];
  }

  // Where path q leaves path p it takes a neighbour that is listed later.
  ghost predicate LeavesLater(g: Adjacency, p: seq<Dpid>, q: seq<Dpid>) {
    exists i: nat, k: nat :: LeavesAfter(g, p, q, i, k)
  }

  ghost predicate LeavesAfter(g: Adjacency, p: seq<Dpid>, q: seq<Dpid>, i: nat, k: nat) {
    && i < |p| - 1 && i < |q| - 1 && p[..i + 1] == q[..i + 1] && p[i] in g
    && k < |g[p[i]]| && g[p[i]][k].dpid == p[i + 1]
    && forall l :: 0 <= l < |g[p[i]]| && g[p[i]][l].dpid == q[i + 1] ==> k < l
  }

  /** Of all simple paths the first one is found, in the order of the neighbour lists. */
  lemma FindPathFirst(g: Adjacency, src: Dpid, dst: Dpid, q: seq<Dpid>)
    requires Closed(g) && src in g && PathFromTo(g, q, src, dst) && Simple(q)
    ensures FindPath(g, src, dst).Some?
    ensures FindPath(g, src, dst).value != q ==> LeavesLater(g, FindPath(g, src, dst).value, q)
  {
    FindPathCorrect(g, src, dst);
    SearchFirst(g, {}, {}, src, dst);
    var p := FindPath(g, src, dst).value;
    if p != q {
      var i := LeavesAt(g, p, q, src, dst);
      assert TakesFirst(g, {}, p, i, dst);
      LaterThan(g, p, q, i, dst);
    }
  }

  lemma {:induction false} LeavesAt(g: Adjacency, p: seq<Dpid>, q: seq<Dpid>, src: Dpid, dst: Dpid) returns (i: nat)
    requires PathFromTo(g, p, src, dst) && Simple(p) && PathFromTo(g, q, src, dst) && Simple(q) && p != q
    ensures i < |p| - 1 && i < |q| - 1 && p[..i + 1] == q[..i + 1] && p[i + 1] != q[i + 1]
  {
    i := 0;
    assert p[..1] == [p[0]] && q[..1] == [q[0]];
    while i < |p| - 1 && i < |q| - 1 && p[i + 1] == q[i + 1]
      invariant i < |p| && i < |q| && p[..i + 1] == q[..i + 1]
      decreases |p| - i
    {
      assert p[..i + 2] == p[..i + 1] + [p[i + 1]] && q[..i + 2] == q[..i + 1] + [q[i + 1]];
      i := i + 1;
    }
    assert p[i] == p[..i + 1][i] == q[..i + 1][i] == q[i];
  }

  lemma LaterThan(g: Adjacency, p: seq<Dpid>, q: seq<Dpid>, i: nat, dst: Dpid)
    requires IsPath(g, q) && Simple(q) && q[|q| - 1] == dst && i < |p| - 1 && i < |q| - 1 && p[i] in g
    requires p[..i + 1] == q[..i + 1] && p[i + 1] != q[i + 1] && TakesFirst(g, {}, p, i, dst)
    ensures LeavesLater(g, p, q)
  {
    var k :| 0 <= k < |g[p[i]]| && g[p[i]][k].dpid == p[i + 1]
             && forall l :: 0 <= l < k ==> NoWay(g, g[p[i]][l].dpid, {} + Upto(p, i), dst);
    forall l | 0 <= l < |g[p[i]]| && g[p[i]][l].dpid == q[i + 1] ensures k < l {
      if l < k {
        RestIsAWay(g, p, q, i, dst);
      }
    }
    assert LeavesAfter(g, p, q, i, k);
  }

  // The rest of a simple path avoids its beginning.
  lemma RestIsAWay(g: Adjacency, p: seq<Dpid>, q: seq<Dpid>, i: nat, dst: Dpid)
    requires IsPath(g, q) && Simple(q) && q[|q| - 1] == dst && i < |q| - 1 && i < |p| && p[..i + 1] == q[..i + 1]
    ensures !NoWay(g, q[i + 1], {} + Upto(p, i), dst)
  {
    var rest := q[i + 1..];
    forall j | 0 <= j < |rest| - 1 ensures Adjacent(g, rest[j], rest[j + 1]) {
      assert Adjacent(g, q[i + 1 + j], q[i + 2 + j]);
    }
    assert PathFromTo(g, rest, q[i + 1], dst);
    forall j | 0 <= j < |rest| ensures rest[j] !in {} + Upto(p, i) {
      forall l | 0 <= l <= i ensures p[l] != rest[j] {
        assert p[l] == p[..i + 1][l] == q[l];
      }
    }
  }
}
