/** Union-find over objects: parent links with path compression and ranks, updated in place. */
module UnionFind {
  import opened Powers
  import opened Forest

  // A set element has only a parent; a root made for it starts with rank 0 as its own parent.
  class Node {
    const isRootElm: bool
    var ufParent: Node?
    var ufRank: nat

    constructor Element()
      ensures !isRootElm && ufParent == null
    {
      isRootElm, ufParent, ufRank := false, null, 0;
    }

    constructor RootElm()
      ensures isRootElm && ufParent == this && ufRank == 0
    {
      isRootElm, ufParent, ufRank := true, this, 0;
    }

    function Rank(): int
      reads this
    {
      if isRootElm then ufRank else -1
    }

    // The fields are those recorded.
    ghost predicate Is(parent: map<Node, Node>, rank: map<Node, int>)
      reads this
    {
      this in parent && this in rank && ufParent == parent[this] && Rank() == rank[this]
    }
  }

  ghost predicate AllAre(parent: map<Node, Node>, rank: map<Node, int>)
    reads parent.Keys
  {
    forall n {:trigger n.Is(parent, rank)} :: n in parent ==> n.Is(parent, rank)
  }

  class UnionFind {
    // The fields of every node reachable, each node's root, the elements, and the unions performed.
    ghost var parent: map<Node, Node>
    ghost var rank: map<Node, int>
    ghost var rep: map<Node, Node>
    ghost var elements: set<Node>
    ghost var unions: set<(Node, Node)>

    ghost predicate Valid()
      reads this, parent.Keys
    {
      AllAre(parent, rank) && DisjointSets(parent, rank, rep, elements, unions)
    }

    constructor ()
      ensures Valid() && parent == map[] && elements == {} && unions == {}
    {
      parent, rank, rep, elements, unions := map[], map[], map[], {}, {};
    }

    /** An element gets a new root of its own; one that had a set leaves it, and the others stay connected as they
        were. */
    method MakeSet(x: Node)
      requires Valid() && !x.isRootElm
      modifies this, x
      ensures Valid() && elements == old(elements) + {x} && old(elements) <= old(rep.Keys)
      ensures unions == Planted(old(unions), old(elements), old(rep), x)
      ensures x.ufParent != null && fresh(x.ufParent)
      ensures parent == old(parent)[x := x.ufParent][x.ufParent := x.ufParent]
      ensures rank == old(rank)[x := -1][x.ufParent := 0]
      ensures rep == old(rep)[x := x.ufParent][x.ufParent := x.ufParent]
    {
      hide DisjointSets;
      hide Planted;
      ElementIsLeaf(parent, rank, rep, elements, unions, x);
      var root := new Node.RootElm();
      x.ufParent := root;
      PlantSet(parent, rank, rep, elements, unions, x, root);
      AllGrown(parent, rank, x, root);
      unions := Planted(unions, elements, rep, x);
      parent, rank, rep := parent[x := root][root := root], rank[x := -1][root := 0], rep[x := root][root := root];
      elements := elements + {x};
    }

    method SetParent(x: Node, to: Node)
      requires AllAre(parent, rank) && x in parent
      modifies this`parent, x`ufParent
      ensures parent == old(parent)[x := to] && x.ufParent == to && AllAre(parent, rank)
    {
      ghost var was := parent;
      x.ufParent := to;
      parent := parent[x := to];
      forall n | n in parent ensures n.Is(parent, rank) {
        assert old(n.Is(was, rank));
      }
    }

    method IncreaseRank(x: Node)
      requires AllAre(parent, rank) && x in parent && x.isRootElm
      modifies this`rank, x`ufRank
      ensures x in old(rank) && rank == old(rank)[x := old(rank)[x] + 1] && AllAre(parent, rank)
    {
      ghost var was := rank;
      assert x.Is(parent, rank);
      x.ufRank := x.ufRank + 1;
      rank := rank[x := rank[x] + 1];
      forall n | n in parent ensures n.Is(parent, rank) {
        assert old(n.Is(parent, was));
      }
    }

    ghost method Record(newRep: map<Node, Node>, newUnions: set<(Node, Node)>)
      requires AllAre(parent, rank)
      modifies this`rep, this`unions
      ensures rep == newRep && unions == newUnions && AllAre(parent, rank)
    {
      rep, unions := newRep, newUnions;
      forall n | n in parent ensures n.Is(parent, rank) {
        assert old(n.Is(parent, rank));
      }
    }

    /** Finds the root and points every node on the way at it; classes, ranks and unions stay. */
    method Find(x: Node) returns (root: Node)
      requires Valid() && x in parent
      modifies this`parent, parent.Keys
      ensures Valid() && root == rep[x]
      ensures parent == Compressed(old(parent), rank, rep, x) && parent.Keys == old(parent.Keys)
      ensures rank == old(rank) && rep == old(rep) && elements == old(elements) && unions == old(unions)
      decreases Gap(parent, rank, rep, x)
    {
      hide DisjointSets;
      hide Rooted;
      hide Gap;
      hide Compressed;
      hide AllAre;
      SearchStep(parent, rank, rep, elements, unions, x);
      ParentIs(parent, rank, x);
      if x.ufParent == x {
        return x;
      }
      root := Find(x.ufParent);
      SetParent(x, root);
      return x.ufParent;
    }

    /** Joins the classes of two elements: the root of lower rank goes under the other one; between equals the first
        element's root stays and rises by one. */
    method Union(x: Node, y: Node)
      requires Valid() && x in elements && y in elements
      modifies this`parent, this`rank, this`rep, this`unions, parent.Keys
      ensures Valid() && unions == With(old(unions), x, y) && parent.Keys == old(parent.Keys)
      ensures var xr, yr := old(rep)[x], old(rep)[y];
              && xr in old(rank) && yr in old(rank)
              && rep == (if old(rank)[xr] < old(rank)[yr] then Joined(old(rep), xr, yr) else Joined(old(rep), yr, xr))
              && rank == Risen(old(rank), xr, yr)
    {
      hide DisjointSets;
      hide AllAre;
      hide Joined;
      hide Compressed;
      hide With;
      hide Risen;
      RootsOf(parent, rank, rep, elements, unions, x, y);
      var xRoot := Find(x);
      var yRoot := Find(y);
      RootsAre(parent, rank, xRoot, yRoot);
      Link(xRoot, yRoot, x, y);
    }

    method Link(xRoot: Node, yRoot: Node, ghost x: Node, ghost y: Node)
      requires Valid() && x in elements && y in elements && xRoot in parent && yRoot in parent
      requires rep.Keys == parent.Keys == rank.Keys && xRoot == rep[x] && yRoot == rep[y]
      requires xRoot.isRootElm && yRoot.isRootElm && xRoot.ufRank == rank[xRoot] && yRoot.ufRank == rank[yRoot]
      modifies this`parent, this`rank, this`rep, this`unions, xRoot, yRoot
      ensures Valid() && unions == With(old(unions), x, y) && parent.Keys == old(parent.Keys)
      ensures rep == if old(rank)[xRoot] < old(rank)[yRoot] then Joined(old(rep), xRoot, yRoot)
                     else Joined(old(rep), yRoot, xRoot)
      ensures rank == Risen(old(rank), xRoot, yRoot)
    {
      hide DisjointSets;
      hide AllAre;
      hide With;
      hide Joined;
      ghost var all := With(unions, x, y);
      if xRoot.ufRank > yRoot.ufRank {
        HangSet(parent, rank, rep, elements, unions, x, y, xRoot, yRoot);
        SetParent(yRoot, xRoot);
        Record(Joined(rep, yRoot, xRoot), all);
      } else if xRoot.ufRank < yRoot.ufRank {
        HangSet(parent, rank, rep, elements, unions, x, y, yRoot, xRoot);
        SetParent(xRoot, yRoot);
        Record(Joined(rep, xRoot, yRoot), all);
      } else if xRoot != yRoot {
        RaiseSet(parent, rank, rep, elements, unions, x, y, xRoot, yRoot);
        SetParent(yRoot, xRoot);
        IncreaseRank(xRoot);
        Record(Joined(rep, yRoot, xRoot), all);
      } else {
        SameSet(parent, rank, rep, elements, unions, x, y);
        Record(rep, all);
      }
    }
  }

  /** Two elements are found at the same root exactly when the unions performed so far connect them. */
  lemma SameRootIff(u: UnionFind, x: Node, y: Node)
    requires u.Valid() && x in u.elements && y in u.elements
    ensures x in u.rep && y in u.rep && (u.rep[x] == u.rep[y] <==> Connected(u.unions, x, y))
  {
    hide Rooted;
    hide Heavy;
    hide Connected;
    SameRootIffConnected(u.unions, u.elements, u.rep, x, y);
  }

  /** A root of rank r heads at least 2^r of the roots that were made, and no element is more than one link further from
      its root than the logarithm of their number. */
  lemma RanksAreLogarithmic(u: UnionFind, x: Node)
    requires u.Valid() && x in u.elements
    ensures x in u.rep && u.rep[x] in u.rank && u.rank[u.rep[x]] >= 0 && u.rank.Keys == u.rep.Keys
    ensures |Headed(u.rank, u.rep, u.rep[x])| >= Pow2(u.rank[u.rep[x]])
    ensures Rooted(u.parent, u.rank, u.rep)
    ensures var d := Depth(u.parent, u.rank, u.rep, x); d == 0 || Pow2(d - 1) <= |Roots(u.rank)|
  {
    hide Classes;
    hide Headed;
    hide Depth;
    RootsOf(u.parent, u.rank, u.rep, u.elements, u.unions, x, x);
    assert x.Is(u.parent, u.rank);
    RootOf(u.parent, u.rank, u.rep, x);
    DepthIsLogarithmic(u.parent, u.rank, u.rep, x);
    hide Rooted;
  }

  lemma ElementIsLeaf(parent: map<Node, Node>, rank: map<Node, int>, rep: map<Node, Node>, elements: set<Node>,
                      unions: set<(Node, Node)>, x: Node)
    requires AllAre(parent, rank) && DisjointSets(parent, rank, rep, elements, unions) && !x.isRootElm
    ensures IsLeaf(rank, x)
  {
    hide Heavy;
    hide Classes;
    forall n | n in rank ensures rank[n] >= -1 && (n == x ==> rank[n] == -1) {
      assert n.Is(parent, rank);
    }
    hide Rooted;
  }

  // The maps after two nodes were added to them.
  lemma AllGrown(parent: map<Node, Node>, rank: map<Node, int>, x: Node, root: Node)
    requires forall n {:trigger n.Is(parent, rank)} :: n in parent && n != x ==> n.Is(parent, rank)
    requires root !in parent && x != root
    requires x.ufParent == root && x.Rank() == -1 && root.ufParent == root && root.Rank() == 0
    ensures AllAre(parent[x := root][root := root], rank[x := -1][root := 0])
  {
    var parent', rank' := parent[x := root][root := root], rank[x := -1][root := 0];
    forall n | n in parent' ensures n.Is(parent', rank') {
      if n != x && n != root {
        assert n.Is(parent, rank);
      }
    }
  }

  lemma ParentIs(parent: map<Node, Node>, rank: map<Node, int>, x: Node)
    requires AllAre(parent, rank) && x in parent
    ensures x.ufParent == parent[x]
  {
    assert x.Is(parent, rank);
  }

  lemma RootsAre(parent: map<Node, Node>, rank: map<Node, int>, x: Node, y: Node)
    requires AllAre(parent, rank) && x in parent && y in parent && x in rank && y in rank && rank[x] >= 0
    requires rank[y] >= 0
    ensures x.isRootElm && x.ufRank == rank[x] && y.isRootElm && y.ufRank == rank[y]
  {
    assert x.Is(parent, rank) && y.Is(parent, rank);
  }

  // What one level of the search needs to know.
  lemma SearchStep(parent: map<Node, Node>, rank: map<Node, int>, rep: map<Node, Node>, elements: set<Node>,
                   unions: set<(Node, Node)>, x: Node)
    requires DisjointSets(parent, rank, rep, elements, unions) && x in parent
    ensures Rooted(parent, rank, rep) && parent.Keys == rank.Keys == rep.Keys
    ensures parent[x] in parent && rep[parent[x]] == rep[x] && (parent[x] == x ==> rep[x] == x)
    ensures parent[x] != x ==> Gap(parent, rank, rep, parent[x]) < Gap(parent, rank, rep, x)
    ensures Compressed(parent, rank, rep, x)
         == if parent[x] == x then parent else Compressed(parent, rank, rep, parent[x])[x := rep[x]]
    ensures DisjointSets(Compressed(parent, rank, rep, x), rank, rep, elements, unions)
    ensures Compressed(parent, rank, rep, x).Keys == parent.Keys
  {
    hide Heavy;
    hide Classes;
    assert RootedAt(parent, rank, rep, x) && RootedAt(parent, rank, rep, parent[x]);
    CompressionIsSafe(parent, rank, rep, x);
  }

  lemma RootsOf(parent: map<Node, Node>, rank: map<Node, int>, rep: map<Node, Node>, elements: set<Node>,
                unions: set<(Node, Node)>, x: Node, y: Node)
    requires DisjointSets(parent, rank, rep, elements, unions) && x in elements && y in elements
    ensures x in parent && y in parent && parent.Keys == rank.Keys == rep.Keys
    ensures rep[x] in parent && rep[y] in parent && rank[rep[x]] >= 0 && rank[rep[y]] >= 0
  {
    hide Heavy;
    RootOf(parent, rank, rep, x);
    RootOf(parent, rank, rep, y);
  }
}
