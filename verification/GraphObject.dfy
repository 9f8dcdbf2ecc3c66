/** The graph object of the traffic steering application: nodes with a neighbour list and a visited bit, updated in
    place while the graph is built, pruned and searched. */
module GraphObject {
  import opened SetSizes
  import opened SwitchGraph

  datatype NodeData = NodeData(neighbors: seq<Neighbor>, isVisited: bool)

  type Nodes = map<Dpid, NodeData>

  function AdjacencyOf(nodes: Nodes): Adjacency { map a | a in nodes :: nodes[a].neighbors }

  function VisitedOf(nodes: Nodes): set<Dpid> { set a | a in nodes && nodes[a].isVisited }

  function WithNeighbors(nodes: Nodes, a: Dpid, ns: seq<Neighbor>): Nodes
    requires a in nodes
  {
    nodes[a := NodeData(ns, nodes[a].isVisited)]
  }

  class Graph {
    var nodes: Nodes

    constructor ()
      ensures nodes == map[]
    {
      nodes := map[];
    }

    method AddNode(dpid: Dpid)
      modifies this
      ensures nodes == if dpid in old(nodes) then old(nodes) else old(nodes)[dpid := NodeData([], false)]
    {
      if dpid !in nodes {
        nodes := nodes[dpid := NodeData([], false)];
      }
    }

    method AddNeighborIfNew(a: Dpid, port: Port, b: Dpid)
      requires a in nodes
      modifies this
      ensures AdjacencyOf(nodes) == AddNeighbor(AdjacencyOf(old(nodes)), a, Neighbor(port, b))
      ensures VisitedOf(nodes) == VisitedOf(old(nodes))
    {
      var exist := IsNeighborExist(nodes[a].neighbors, Some(port), b);
      if !exist {
        nodes := nodes[a := NodeData(nodes[a].neighbors + [Neighbor(port, b)], nodes[a].isVisited)];
      }
    }

    /** Drops the neighbour entries that the neighbour does not return, testing the graph while changing it. */
    method RemoveOneDirectionLinks()
      modifies this
      ensures AdjacencyOf(nodes) == Pruned(AdjacencyOf(old(nodes)))
      ensures VisitedOf(nodes) == VisitedOf(old(nodes))
    {
      ghost var g := AdjacencyOf(nodes);
      var todo := nodes.Keys;
      while todo != {}
        invariant todo <= nodes.Keys == g.Keys
        invariant PartlyPruned(g, AdjacencyOf(nodes), todo)
        invariant VisitedOf(nodes) == VisitedOf(old(nodes))
        decreases |todo|
      {
        var a :| a in todo;
        PruneNode(a, g, todo);
        todo := todo - {a};
      }
      assert AdjacencyOf(nodes) == Pruned(g);
    }

    method PruneNode(a: Dpid, ghost g: Adjacency, ghost todo: set<Dpid>)
      requires a in todo && todo <= nodes.Keys == g.Keys
      requires PartlyPruned(g, AdjacencyOf(nodes), todo)
      modifies this
      ensures nodes.Keys == g.Keys
      ensures PartlyPruned(g, AdjacencyOf(nodes), todo - {a})
      ensures VisitedOf(nodes) == VisitedOf(old(nodes))
    {
      hide Kept;
      var neighborsCopy := nodes[a].neighbors;
      assert neighborsCopy == AdjacencyOf(nodes)[a] == g[a];
      PruneStarts(g, nodes, a, neighborsCopy);
      for i := 0 to |neighborsCopy|
        invariant nodes == WithNeighbors(old(nodes), a, Kept(g, a, neighborsCopy[..i]) + neighborsCopy[i..])
      {
        TestsStayOriginal(g, old(nodes), todo, a, neighborsCopy, i);
        PruneEntry(a, neighborsCopy, i, g);
      }
      PruneEnds(g, old(nodes), todo, a, neighborsCopy);
    }

    method PruneEntry(a: Dpid, neighborsCopy: seq<Neighbor>, i: nat, ghost g: Adjacency)
      requires a in nodes && i < |neighborsCopy|
      requires nodes[a].neighbors == Kept(g, a, neighborsCopy[..i]) + neighborsCopy[i..]
      requires Adjacent(AdjacencyOf(nodes), neighborsCopy[i].dpid, a) <==> LeadsBack(g, a, neighborsCopy[i])
      modifies this
      ensures nodes == WithNeighbors(old(nodes), a, Kept(g, a, neighborsCopy[..i + 1]) + neighborsCopy[i + 1..])
    {
      var n := neighborsCopy[i];
      ghost var kept := Kept(g, a, neighborsCopy[..i]);
      assert neighborsCopy[..i + 1][..i] == neighborsCopy[..i];
      assert nodes[a].neighbors == kept + [n] + neighborsCopy[i + 1..];
      var back := false;
      if n.dpid in nodes {
        back := IsNeighborExist(nodes[n.dpid].neighbors, None, a);
      }
      if !back {
        KeptIn(g, a, neighborsCopy[..i], n);
        RemoveAfter(kept, n, neighborsCopy[i + 1..]);
        nodes := nodes[a := NodeData(RemoveFirst(nodes[a].neighbors, n), nodes[a].isVisited)];
      } else {
        assert WithNeighbors(nodes, a, nodes[a].neighbors) == nodes;
      }
    }

    // ---- search

    method TurnOffVisitedBit()
      modifies this
      ensures VisitedOf(nodes) == {} && AdjacencyOf(nodes) == AdjacencyOf(old(nodes))
    {
      var todo := nodes.Keys;
      while todo != {}
        invariant todo <= nodes.Keys && AdjacencyOf(nodes) == AdjacencyOf(old(nodes))
        invariant VisitedOf(nodes) <= todo
        decreases |todo|
      {
        var a :| a in todo;
        nodes := nodes[a := NodeData(nodes[a].neighbors, false)];
        todo := todo - {a};
      }
    }

    method SetVisited(a: Dpid)
      requires a in nodes
      modifies this
      ensures AdjacencyOf(nodes) == AdjacencyOf(old(nodes)) && VisitedOf(nodes) == VisitedOf(old(nodes)) + {a}
    {
      nodes := nodes[a := NodeData(nodes[a].neighbors, true)];
    }

    method GetPath(src: Dpid, dst: Dpid) returns (path: Option<seq<Dpid>>)
      requires src in nodes && Closed(AdjacencyOf(nodes))
      modifies this
      ensures AdjacencyOf(nodes) == AdjacencyOf(old(nodes))
      ensures Found(path, VisitedOf(nodes)) == Search(AdjacencyOf(old(nodes)), VisitedOf(old(nodes)), src, dst)
      decreases |AdjacencyOf(nodes).Keys - VisitedOf(nodes)|, 0
    {
      ghost var g, visited := AdjacencyOf(nodes), VisitedOf(nodes);
      NodeIs(nodes, src);
      SearchStep(g, visited, src, dst);
      hide *;
      if nodes[src].isVisited {
        return None;
      }
      SetVisited(src);
      NodeIs(nodes, src);
      if src == dst {
        return Some([src]);
      }
      var tail := GetPathVia(src, nodes[src].neighbors, dst);
      return if tail.Some? then Some([src] + tail.value) else None;
    }

    // The loop over the neighbours of a node.
    method GetPathVia(src: Dpid, srcNeighbors: seq<Neighbor>, dst: Dpid) returns (tail: Option<seq<Dpid>>)
      requires Closed(AdjacencyOf(nodes)) && forall n :: n in srcNeighbors ==> n.dpid in AdjacencyOf(nodes)
      modifies this
      ensures AdjacencyOf(nodes) == AdjacencyOf(old(nodes))
      ensures Found(tail, VisitedOf(nodes))
           == SearchNeighbors(AdjacencyOf(old(nodes)), VisitedOf(old(nodes)), src, srcNeighbors, dst)
      decreases |AdjacencyOf(nodes).Keys - VisitedOf(nodes)|, 1
    {
      hide Search;
      hide Closed;
      ghost var g, visited := AdjacencyOf(nodes), VisitedOf(nodes);
      assert srcNeighbors[0..] == srcNeighbors;
      for i := 0 to |srcNeighbors|
        invariant AdjacencyOf(nodes) == g && visited <= VisitedOf(nodes)
        invariant SearchNeighbors(g, visited, src, srcNeighbors, dst)
               == SearchNeighbors(g, VisitedOf(nodes), src, srcNeighbors[i..], dst)
      {
        assert srcNeighbors[i..][1..] == srcNeighbors[i + 1..];
        SubsetSize(g.Keys - VisitedOf(nodes), g.Keys - visited);
        tail := GetPath(srcNeighbors[i].dpid, dst);
        if tail.Some? {
          return;
        }
      }
      return None;
    }

    /** Finds a simple path, and fails only when there is none. */
    method FindPathBetweenNodes(src: Dpid, dst: Dpid) returns (path: Option<seq<Dpid>>)
      requires src in nodes && Closed(AdjacencyOf(nodes))
      modifies this
      ensures AdjacencyOf(nodes) == AdjacencyOf(old(nodes))
      ensures path == FindPath(AdjacencyOf(old(nodes)), src, dst)
    {
      assert src in AdjacencyOf(nodes);
      TurnOffVisitedBit();
      assert src in AdjacencyOf(nodes);
      path := GetPath(src, dst);
    }
  }

  lemma NodeIs(nodes: Nodes, a: Dpid)
    requires a in nodes
    ensures a in AdjacencyOf(nodes) && AdjacencyOf(nodes)[a] == nodes[a].neighbors
    ensures AdjacencyOf(nodes).Keys == nodes.Keys
    ensures VisitedOf(nodes) <= nodes.Keys && (nodes[a].isVisited <==> a in VisitedOf(nodes))
  {
  }

  // What one level of the search needs to know.
  lemma SearchStep(g: Adjacency, visited: set<Dpid>, src: Dpid, dst: Dpid)
    requires Closed(g) && src in g && visited <= g.Keys
    ensures src in visited ==> Search(g, visited, src, dst) == Found(None, visited)
    ensures src !in visited && src == dst ==> Search(g, visited, src, dst) == Found(Some([src]), visited + {src})
    ensures src !in visited ==> |g.Keys - (visited + {src})| < |g.Keys - visited|
    ensures forall n :: n in g[src] ==> n.dpid in g
    ensures src !in visited && src != dst ==>
              var r := SearchNeighbors(g, visited + {src}, src, g[src], dst);
              Search(g, visited, src, dst)
              == Found(if r.path.Some? then Some([src] + r.path.value) else None, r.visited)
  {
    Adjacents(g, src);
    if src !in visited {
      Shrinks(g.Keys, visited, src);
    }
    hide SearchNeighbors;
    hide Closed;
  }

  // Nodes outside `todo` are pruned, the others still hold what the original graph g gave them.
  ghost predicate PartlyPruned(g: Adjacency, now: Adjacency, todo: set<Dpid>) {
    && now.Keys == g.Keys
    && forall a :: a in g ==> now[a] == if a in todo then g[a] else Kept(g, a, g[a])
  }

  lemma PruneStarts(g: Adjacency, before: Nodes, a: Dpid, copy: seq<Neighbor>)
    requires a in before && copy == before[a].neighbors
    ensures WithNeighbors(before, a, Kept(g, a, copy[..0]) + copy[0..]) == before
  {
    assert Kept(g, a, copy[..0]) + copy[0..] == copy;
  }

  lemma PruneEnds(g: Adjacency, before: Nodes, todo: set<Dpid>, a: Dpid, copy: seq<Neighbor>)
    requires a in before && a in todo && todo <= before.Keys == g.Keys && copy == g[a]
    requires PartlyPruned(g, AdjacencyOf(before), todo)
    ensures var after := WithNeighbors(before, a, Kept(g, a, copy[..|copy|]) + copy[|copy|..]);
            && after.Keys == g.Keys && PartlyPruned(g, AdjacencyOf(after), todo - {a})
            && VisitedOf(after) == VisitedOf(before)
  {
    hide Kept;
    var all := Kept(g, a, copy);
    assert copy[..|copy|] == copy && all + copy[|copy|..] == all;
    var after := WithNeighbors(before, a, all);
    assert AdjacencyOf(after) == AdjacencyOf(before)[a := all];
    assert VisitedOf(after) == VisitedOf(before);
  }

  lemma TestsStayOriginal(g: Adjacency, before: Nodes, todo: set<Dpid>, a: Dpid, copy: seq<Neighbor>, i: nat)
    requires a in todo && todo <= g.Keys && PartlyPruned(g, AdjacencyOf(before), todo) && copy == g[a] && i < |copy|
    requires a in before
    ensures Adjacent(AdjacencyOf(WithNeighbors(before, a, Kept(g, a, copy[..i]) + copy[i..])), copy[i].dpid, a)
            <==> LeadsBack(g, a, copy[i])
  {
    var now := AdjacencyOf(WithNeighbors(before, a, Kept(g, a, copy[..i]) + copy[i..]));
    assert forall x :: x in g && x != a ==> now[x] == AdjacencyOf(before)[x];
    TestIsOriginal(g, now, todo, a, Kept(g, a, copy[..i]), copy[i..]);
  }

  // The test made on the half-pruned graph answers for the original one.
  lemma TestIsOriginal(g: Adjacency, now: Adjacency, todo: set<Dpid>, a: Dpid, kept: seq<Neighbor>, rest: seq<Neighbor>)
    requires a in todo && todo <= g.Keys == now.Keys && rest != [] && rest[0] in g[a]
    requires now[a] == kept + rest
    requires forall x :: x in g && x != a ==> now[x] == if x in todo then g[x] else Kept(g, x, g[x])
    ensures Adjacent(now, rest[0].dpid, a) <==> LeadsBack(g, a, rest[0])
  {
    var b := rest[0].dpid;
    FirstPortSome(g[a], b);
    if b == a {
      FirstPortAppend(kept, rest, a);
    } else if b in g && b !in todo {
      KeptLeadsTo(g, b, a);
    }
  }

  function DpidSet(switches: seq<Dpid>): set<Dpid> { set a | a in switches }

  /** The graph of a list of switches and a list of links between them; pruning it removes nothing. */
  method BuildGraph(switches: seq<Dpid>, links: seq<Link>) returns (graph: Graph)
    requires Known(DpidSet(switches), links)
    ensures fresh(graph)
    ensures AdjacencyOf(graph.nodes) == Built(DpidSet(switches), links) && VisitedOf(graph.nodes) == {}
    ensures forall a, n :: a in switches ==>
              a in AdjacencyOf(graph.nodes) && (n in AdjacencyOf(graph.nodes)[a] <==> Given(links, a, n))
  {
    ghost var dpids := DpidSet(switches);
    graph := new Graph();
    for d := 0 to |switches|
      invariant graph.nodes == map a | a in switches[..d] :: NodeData([], false)
    {
      assert switches[..d + 1] == switches[..d] + [switches[d]];
      graph.AddNode(switches[d]);
    }
    assert switches[..|switches|] == switches;
    for d := 0 to |links|
      invariant AdjacencyOf(graph.nodes) == Built(dpids, links[..d]) && VisitedOf(graph.nodes) == {}
    {
      assert links[..d + 1][..d] == links[..d];
      assert links[d].src in AdjacencyOf(graph.nodes) && links[d].dst in AdjacencyOf(graph.nodes);
      graph.AddNeighborIfNew(links[d].src, links[d].srcPort, links[d].dst);
      assert links[d].dst in AdjacencyOf(graph.nodes);
      graph.AddNeighborIfNew(links[d].dst, links[d].dstPort, links[d].src);
    }
    assert links[..|links|] == links;
    PruningBuiltIsIdentity(dpids, links);
    forall a, n | a in switches ensures a in dpids && (n in Built(dpids, links)[a] <==> Given(links, a, n)) {
      BuiltIff(dpids, links, a, n);
    }
    graph.RemoveOneDirectionLinks();
  }
}
