/** Disjoint sets as a forest of parent links with ranks, and the classes it stands for. */
module Forest {
  import opened Powers
  import opened SetSizes

  // Every node is below its set's root. Ranks rise along every link; plain elements have rank -1, made roots 0 and up.
  ghost predicate Rooted<T>(parent: map<T, T>, rank: map<T, int>, rep: map<T, T>) {
    && parent.Keys == rank.Keys == rep.Keys
    && forall n {:trigger RootedAt(parent, rank, rep, n)} :: n in parent ==> RootedAt(parent, rank, rep, n)
  }

  ghost predicate RootedAt<T>(parent: map<T, T>, rank: map<T, int>, rep: map<T, T>, n: T)
    requires parent.Keys == rank.Keys == rep.Keys && n in parent
  {
    && parent[n] in parent && rep[n] in parent
    && rep[parent[n]] == rep[n] && rep[rep[n]] == rep[n] && (parent[n] == n <==> rep[n] == n)
    && (parent[n] != n ==> rank[n] < rank[parent[n]])
    && (rep[n] != n ==> rank[n] < rank[rep[n]])
    && rank[rep[n]] >= 0
  }

  function Joined<T>(rep: map<T, T>, from: T, to: T): map<T, T> {
    map n | n in rep :: if rep[n] == from then to else rep[n]
  }

  /** Pointing a node at its root changes no class and keeps the ranks rising. */
  lemma Compress<T>(parent: map<T, T>, rank: map<T, int>, rep: map<T, T>, x: T)
    requires Rooted(parent, rank, rep) && x in parent
    ensures Rooted(parent[x := rep[x]], rank, rep)
  {
    var parent' := parent[x := rep[x]];
    assert RootedAt(parent, rank, rep, x);
    forall n | n in parent' ensures RootedAt(parent', rank, rep, n) {
      assert RootedAt(parent, rank, rep, n);
      assert RootedAt(parent, rank, rep, rep[x]);
    }
  }

  // How far a node's rank is below its root's.
  ghost function Gap<T>(parent: map<T, T>, rank: map<T, int>, rep: map<T, T>, x: T): nat
    requires Rooted(parent, rank, rep) && x in parent
  {
    assert RootedAt(parent, rank, rep, x);
    rank[rep[x]] - rank[x]
  }

  // The links after a search from x: every node on the way to the root points at it.
  ghost function Compressed<T>(parent: map<T, T>, rank: map<T, int>, rep: map<T, T>, x: T): map<T, T>
    requires Rooted(parent, rank, rep) && x in parent
    decreases Gap(parent, rank, rep, x)
  {
    assert RootedAt(parent, rank, rep, x) && RootedAt(parent, rank, rep, parent[x]);
    if parent[x] == x then parent else Compressed(parent, rank, rep, parent[x])[x := rep[x]]
  }

  /** Compression changes no class; each link is as it was or leads to the root, and the searched node's does. */
  lemma {:induction false} CompressionIsSafe<T>(parent: map<T, T>, rank: map<T, int>, rep: map<T, T>, x: T)
    requires Rooted(parent, rank, rep) && x in parent
    ensures Rooted(Compressed(parent, rank, rep, x), rank, rep)
    ensures var after := Compressed(parent, rank, rep, x);
            && after.Keys == parent.Keys && after[x] == rep[x]
            && forall n :: n in parent ==> after[n] == parent[n] || after[n] == rep[n]
    decreases Gap(parent, rank, rep, x)
  {
    assert RootedAt(parent, rank, rep, x) && RootedAt(parent, rank, rep, parent[x]);
    if parent[x] != x {
      CompressionIsSafe(parent, rank, rep, parent[x]);
      Compress(Compressed(parent, rank, rep, parent[x]), rank, rep, x);
    }
  }

  /** Hanging a root under another one of higher rank joins the two classes. */
  lemma Hang<T>(parent: map<T, T>, rank: map<T, int>, rep: map<T, T>, under: T, root: T)
    requires Rooted(parent, rank, rep) && under in parent && root in parent && under != root
    requires rep[under] == under && rep[root] == root && rank[under] > rank[root]
    ensures Rooted(parent[root := under], rank, Joined(rep, root, under))
  {
    var parent', rep' := parent[root := under], Joined(rep, root, under);
    forall n | n in parent' ensures RootedAt(parent', rank, rep', n) {
      assert RootedAt(parent, rank, rep, n);
      assert RootedAt(parent, rank, rep, under);
      assert RootedAt(parent, rank, rep, root);
    }
  }

  // Raising a root's rank keeps the ranks rising.
  lemma Raise<T>(parent: map<T, T>, rank: map<T, int>, rep: map<T, T>, root: T)
    requires Rooted(parent, rank, rep) && root in parent && rep[root] == root
    ensures Rooted(parent, rank[root := rank[root] + 1], rep)
  {
    var rank' := rank[root := rank[root] + 1];
    forall n | n in parent ensures RootedAt(parent, rank', rep, n) {
      assert RootedAt(parent, rank, rep, n);
      assert RootedAt(parent, rank, rep, root);
    }
  }

  // An element is below everything else, so nothing hangs from it.
  predicate IsLeaf<T(==)>(rank: map<T, int>, x: T) {
    (x in rank ==> rank[x] == -1) && forall n :: n in rank ==> rank[n] >= -1
  }

  // An element gets a new root of its own; if it hung somewhere, it leaves.
  lemma Plant<T>(parent: map<T, T>, rank: map<T, int>, rep: map<T, T>, x: T, root: T)
    requires Rooted(parent, rank, rep) && IsLeaf(rank, x) && root !in parent && x != root
    ensures Rooted(parent[x := root][root := root], rank[x := -1][root := 0], rep[x := root][root := root])
  {
    var parent', rank', rep' := parent[x := root][root := root], rank[x := -1][root := 0], rep[x := root][root := root];
    forall n | n in parent' ensures RootedAt(parent', rank', rep', n) {
      if n in parent {
        assert RootedAt(parent, rank, rep, n);
      }
    }
  }

  // ---------------------------------------------------------------- class sizes

  function Roots<T>(rank: map<T, int>): set<T> { set n | n in rank && rank[n] >= 0 }

  // The made roots that ended up below a root, itself included.
  function Headed<T>(rank: map<T, int>, rep: map<T, T>, root: T): set<T>
    requires rank.Keys == rep.Keys
  {
    set n | n in rank && rank[n] >= 0 && rep[n] == root
  }

  // A root of rank r heads at least 2^r made roots.
  ghost predicate Heavy<T>(rank: map<T, int>, rep: map<T, T>)
    requires rank.Keys == rep.Keys
  {
    forall root :: root in rank && rep[root] == root && rank[root] >= 0 ==>
        |Headed(rank, rep, root)| >= Pow2(rank[root])
  }

  lemma HeadedOfJoin<T>(rank: map<T, int>, rep: map<T, T>, from: T, to: T)
    requires rank.Keys == rep.Keys && from != to
    ensures Headed(rank, Joined(rep, from, to), to) == Headed(rank, rep, to) + Headed(rank, rep, from)
    ensures |Headed(rank, Joined(rep, from, to), to)| == |Headed(rank, rep, to)| + |Headed(rank, rep, from)|
    ensures forall other :: other != to && other != from ==>
              Headed(rank, Joined(rep, from, to), other) == Headed(rank, rep, other)
  {
    assert Headed(rank, rep, to) !! Headed(rank, rep, from);
  }

  lemma HangKeepsHeavy<T>(rank: map<T, int>, rep: map<T, T>, under: T, root: T)
    requires rank.Keys == rep.Keys && Heavy(rank, rep) && under != root && under in rank && root in rank
    requires rep[under] == under && rep[root] == root
    ensures Heavy(rank, Joined(rep, root, under))
  {
    hide Headed;
    HeadedOfJoin(rank, rep, root, under);
  }

  // Two roots of the same rank: the one that takes the other over gets the next rank, and has the weight for it.
  lemma RaiseKeepsHeavy<T>(rank: map<T, int>, rep: map<T, T>, under: T, root: T)
    requires rank.Keys == rep.Keys && Heavy(rank, rep) && under != root && under in rank && root in rank
    requires rep[under] == under && rep[root] == root && rank[under] == rank[root] >= 0
    ensures Heavy(rank[under := rank[under] + 1], Joined(rep, root, under))
  {
    var rank', rep' := rank[under := rank[under] + 1], Joined(rep, root, under);
    hide Headed;
    HeadedOfJoin(rank, rep, root, under);
    forall r | r in rank' && rep'[r] == r && rank'[r] >= 0 ensures |Headed(rank', rep', r)| >= Pow2(rank'[r]) {
      HeadedOfRaise(rank, rep', under, r);
    }
  }

  lemma HeadedOfRaise<T>(rank: map<T, int>, rep: map<T, T>, raised: T, r: T)
    requires rank.Keys == rep.Keys && raised in rank && rank[raised] >= 0
    ensures Headed(rank[raised := rank[raised] + 1], rep, r) == Headed(rank, rep, r)
  {
  }

  lemma PlantKeepsHeavy<T>(rank: map<T, int>, rep: map<T, T>, x: T, root: T)
    requires rank.Keys == rep.Keys && Heavy(rank, rep) && IsLeaf(rank, x) && root !in rank && x != root
    requires forall n :: n in rep ==> rep[n] in rank
    ensures Heavy(rank[x := -1][root := 0], rep[x := root][root := root])
  {
    var rank', rep' := rank[x := -1][root := 0], rep[x := root][root := root];
    forall r | r in rank' && rep'[r] == r && rank'[r] >= 0 ensures |Headed(rank', rep', r)| >= Pow2(rank'[r]) {
      if r == root {
        assert Headed(rank', rep', r) == {root};
      } else {
        assert Headed(rank', rep', r) == Headed(rank, rep, r);
      }
    }
  }

  // ---------------------------------------------------------------- depth

  // Links between a node and its root.
  ghost function Depth<T>(parent: map<T, T>, rank: map<T, int>, rep: map<T, T>, x: T): nat
    requires Rooted(parent, rank, rep) && x in parent
    decreases Gap(parent, rank, rep, x)
  {
    assert RootedAt(parent, rank, rep, x) && RootedAt(parent, rank, rep, parent[x]);
    if parent[x] == x then 0 else 1 + Depth(parent, rank, rep, parent[x])
  }

  lemma {:induction false} DepthByRank<T>(parent: map<T, T>, rank: map<T, int>, rep: map<T, T>, x: T)
    requires Rooted(parent, rank, rep) && x in parent
    ensures Depth(parent, rank, rep, x) <= Gap(parent, rank, rep, x)
    decreases Gap(parent, rank, rep, x)
  {
    assert RootedAt(parent, rank, rep, x) && RootedAt(parent, rank, rep, parent[x]);
    if parent[x] != x {
      DepthByRank(parent, rank, rep, parent[x]);
    }
  }

  /** An element is at most one link further from its root than the logarithm of the number of sets made. */
  lemma DepthIsLogarithmic<T>(parent: map<T, T>, rank: map<T, int>, rep: map<T, T>, x: T)
    requires Rooted(parent, rank, rep) && Heavy(rank, rep) && x in parent && rank[x] >= -1
    ensures Depth(parent, rank, rep, x) == 0 || Pow2(Depth(parent, rank, rep, x) - 1) <= |Roots(rank)|
  {
    DepthByRank(parent, rank, rep, x);
    assert RootedAt(parent, rank, rep, x);
    if Depth(parent, rank, rep, x) > 0 {
      Pow2Grows(Depth(parent, rank, rep, x) - 1, rank[rep[x]]);
      SubsetSize(Headed(rank, rep, rep[x]), Roots(rank));
    }
  }

  // ---------------------------------------------------------------- connection

  function With<T(==)>(unions: set<(T, T)>, x: T, y: T): set<(T, T)> { unions + {(x, y)} }

  predicate Adjacent<T(==)>(unions: set<(T, T)>, x: T, y: T) { (x, y) in unions || (y, x) in unions }

  function Ends<T(==)>(unions: set<(T, T)>): set<T> { (set p | p in unions :: p.0) + (set p | p in unions :: p.1) }

  // One can get from x to y in n steps over the pairs united so far, in either direction.
  ghost predicate Steps<T>(unions: set<(T, T)>, n: nat, x: T, y: T) {
    if n == 0 then x == y
    else exists z :: z in Ends(unions) && Steps(unions, n - 1, x, z) && Adjacent(unions, z, y)
  }

  ghost predicate Connected<T>(unions: set<(T, T)>, x: T, y: T) {
    exists n: nat :: Steps(unions, n, x, y)
  }

  lemma ConnectedSelf<T>(unions: set<(T, T)>, x: T)
    ensures Connected(unions, x, x)
  {
    assert Steps(unions, 0, x, x);
  }

  lemma AdjacentEnds<T>(unions: set<(T, T)>, x: T, y: T)
    requires Adjacent(unions, x, y)
    ensures x in Ends(unions) && y in Ends(unions)
  {
    var p :| p in unions && (p == (x, y) || p == (y, x));
    assert p.0 in (set q | q in unions :: q.0) && p.1 in (set q | q in unions :: q.1);
  }

  lemma ConnectedStep<T>(unions: set<(T, T)>, x: T, y: T)
    requires Adjacent(unions, x, y)
    ensures Connected(unions, x, y)
  {
    AdjacentEnds(unions, x, y);
    assert Steps(unions, 0, x, x);
    assert Steps(unions, 1, x, y);
  }

  lemma {:induction false} StepsMore<T>(unions: set<(T, T)>, more: set<(T, T)>, n: nat, x: T, y: T)
    requires Steps(unions, n, x, y) && unions <= more
    ensures Steps(more, n, x, y)
  {
    if n > 0 {
      var z :| z in Ends(unions) && Steps(unions, n - 1, x, z) && Adjacent(unions, z, y);
      StepsMore(unions, more, n - 1, x, z);
      AdjacentEnds(more, z, y);
    }
  }

  lemma ConnectedMore<T>(unions: set<(T, T)>, more: set<(T, T)>, x: T, y: T)
    requires Connected(unions, x, y) && unions <= more
    ensures Connected(more, x, y)
  {
    var n: nat :| Steps(unions, n, x, y);
    StepsMore(unions, more, n, x, y);
  }

  lemma {:induction false} StepsThrough<T>(unions: set<(T, T)>, m: nat, n: nat, x: T, y: T, z: T)
    requires Steps(unions, m, x, y) && Steps(unions, n, y, z)
    ensures Steps(unions, m + n, x, z)
  {
    if n > 0 {
      var w :| w in Ends(unions) && Steps(unions, n - 1, y, w) && Adjacent(unions, w, z);
      StepsThrough(unions, m, n - 1, x, y, w);
    }
  }

  lemma ConnectedThrough<T>(unions: set<(T, T)>, x: T, y: T, z: T)
    requires Connected(unions, x, y) && Connected(unions, y, z)
    ensures Connected(unions, x, z)
  {
    var m: nat :| Steps(unions, m, x, y);
    var n: nat :| Steps(unions, n, y, z);
    StepsThrough(unions, m, n, x, y, z);
  }

  // Same root exactly when connected; the pairs united are elements.
  ghost predicate Classes<T>(unions: set<(T, T)>, elements: set<T>, rep: map<T, T>) {
    && elements <= rep.Keys
    && (forall p :: p in unions ==> p.0 in elements && p.1 in elements && rep[p.0] == rep[p.1])
    && (forall x, y :: x in elements && y in elements && rep[x] == rep[y] ==> Connected(unions, x, y))
  }

  lemma {:induction false} StepsKeepRoot<T>(unions: set<(T, T)>, elements: set<T>, rep: map<T, T>, n: nat, x: T, y: T)
    requires Classes(unions, elements, rep) && x in elements && Steps(unions, n, x, y)
    ensures y in elements && rep[x] == rep[y]
  {
    hide Connected;
    if n > 0 {
      var z :| z in Ends(unions) && Steps(unions, n - 1, x, z) && Adjacent(unions, z, y);
      StepsKeepRoot(unions, elements, rep, n - 1, x, z);
    }
  }

  /** Two elements have the same root exactly when the unions performed connect them. */
  lemma SameRootIffConnected<T>(unions: set<(T, T)>, elements: set<T>, rep: map<T, T>, x: T, y: T)
    requires Classes(unions, elements, rep) && x in elements && y in elements
    ensures rep[x] == rep[y] <==> Connected(unions, x, y)
  {
    if Connected(unions, x, y) {
      var n: nat :| Steps(unions, n, x, y);
      StepsKeepRoot(unions, elements, rep, n, x, y);
    }
  }

  lemma UnionKeepsClasses<T>(unions: set<(T, T)>, elements: set<T>, rep: map<T, T>, x: T, y: T, from: T, to: T)
    requires Classes(unions, elements, rep) && x in elements && y in elements
    requires (rep[x] == to && rep[y] == from) || (rep[x] == from && rep[y] == to)
    ensures Classes(With(unions, x, y), elements, Joined(rep, from, to))
  {
    hide Connected;
    var all, rep' := With(unions, x, y), Joined(rep, from, to);
    ConnectedStep(all, x, y);
    ConnectedStep(all, y, x);
    forall a, b | a in elements && b in elements && rep'[a] == rep'[b] ensures Connected(all, a, b) {
      if rep[a] == rep[b] {
        ConnectedMore(unions, all, a, b);
      } else if rep[a] == rep[x] {
        ConnectedVia(unions, all, a, x, y, b);
      } else {
        ConnectedVia(unions, all, a, y, x, b);
      }
    }
  }

  lemma ConnectedVia<T>(unions: set<(T, T)>, more: set<(T, T)>, a: T, x: T, y: T, b: T)
    requires Connected(unions, a, x) && Connected(more, x, y) && Connected(unions, y, b) && unions <= more
    ensures Connected(more, a, b)
  {
    hide Connected;
    ConnectedMore(unions, more, a, x);
    ConnectedMore(unions, more, y, b);
    ConnectedThrough(more, a, x, y);
    ConnectedThrough(more, a, y, b);
  }

  // The connections among the elements other than x.
  function Restricted<T(==)>(elements: set<T>, rep: map<T, T>, x: T): set<(T, T)>
    requires elements <= rep.Keys
  {
    set a, b | a in elements - {x} && b in elements - {x} && rep[a] == rep[b] :: (a, b)
  }

  // The unions that still count after x was made a set of its own.
  function Planted<T(==)>(unions: set<(T, T)>, elements: set<T>, rep: map<T, T>, x: T): set<(T, T)>
    requires elements <= rep.Keys
  {
    if x in elements then Restricted(elements, rep, x) else unions
  }

  /** Those are exactly the pairs of other elements that the unions connected before. */
  lemma RestrictedIsConnected<T>(unions: set<(T, T)>, elements: set<T>, rep: map<T, T>, x: T, a: T, b: T)
    requires Classes(unions, elements, rep)
    ensures (a, b) in Restricted(elements, rep, x) <==>
              a in elements - {x} && b in elements - {x} && Connected(unions, a, b)
  {
    hide Connected;
    if a in elements && b in elements {
      SameRootIffConnected(unions, elements, rep, a, b);
    }
  }

  lemma PlantKeepsClasses<T>(unions: set<(T, T)>, elements: set<T>, rep: map<T, T>, x: T, root: T)
    requires Classes(unions, elements, rep) && root !in rep && x != root
    requires forall n :: n in rep ==> rep[n] in rep && rep[n] != x
    ensures Classes(Planted(unions, elements, rep, x), elements + {x}, rep[x := root][root := root])
  {
    hide Connected;
    var left := Planted(unions, elements, rep, x);
    ConnectedSelf(left, x);
    if x in elements {
      forall a, b | a in elements - {x} && b in elements - {x} && rep[a] == rep[b] ensures Connected(left, a, b) {
        assert (a, b) in left;
        ConnectedStep(left, a, b);
      }
    }
  }

  // ---------------------------------------------------------------- all together

  // The ranks after two roots were joined: of two equals the first one rises.
  function Risen<T(==)>(rank: map<T, int>, x: T, y: T): map<T, int>
    requires x in rank && y in rank
  {
    if rank[x] == rank[y] && x != y then rank[x := rank[x] + 1] else rank
  }

  ghost predicate DisjointSets<T>(parent: map<T, T>, rank: map<T, int>, rep: map<T, T>, elements: set<T>,
                                  unions: set<(T, T)>) {
    Rooted(parent, rank, rep) && Heavy(rank, rep) && Classes(unions, elements, rep)
  }

  lemma PlantSet<T>(parent: map<T, T>, rank: map<T, int>, rep: map<T, T>, elements: set<T>, unions: set<(T, T)>, x: T,
                    root: T)
    requires DisjointSets(parent, rank, rep, elements, unions) && IsLeaf(rank, x) && root !in parent && x != root
    ensures elements <= rep.Keys
    ensures DisjointSets(parent[x := root][root := root], rank[x := -1][root := 0], rep[x := root][root := root],
                         elements + {x}, Planted(unions, elements, rep, x))
  {
    hide Heavy;
    hide Connected;
    hide Planted;
    forall n | n in rep ensures rep[n] in rep && rep[n] != x {
      assert RootedAt(parent, rank, rep, n);
    }
    Plant(parent, rank, rep, x, root);
    PlantKeepsHeavy(rank, rep, x, root);
    PlantKeepsClasses(unions, elements, rep, x, root);
    hide Rooted;
  }

  lemma RootOf<T>(parent: map<T, T>, rank: map<T, int>, rep: map<T, T>, x: T)
    requires Rooted(parent, rank, rep) && x in parent
    ensures rep[x] in parent && rep[rep[x]] == rep[x] && rank[rep[x]] >= 0
  {
    assert RootedAt(parent, rank, rep, x);
  }

  // The class of lower rank goes under the other one.
  lemma HangSet<T>(parent: map<T, T>, rank: map<T, int>, rep: map<T, T>, elements: set<T>, unions: set<(T, T)>, x: T,
                   y: T, under: T, root: T)
    requires DisjointSets(parent, rank, rep, elements, unions) && x in elements && y in elements
    requires (under, root) == (rep[x], rep[y]) || (under, root) == (rep[y], rep[x])
    requires under in rank && root in rank && rank[under] > rank[root]
    ensures DisjointSets(parent[root := under], rank, Joined(rep, root, under), elements, With(unions, x, y))
  {
    hide Heavy;
    hide RootedAt;
    RootOf(parent, rank, rep, x);
    RootOf(parent, rank, rep, y);
    Hang(parent, rank, rep, under, root);
    HangKeepsHeavy(rank, rep, under, root);
    UnionKeepsClasses(unions, elements, rep, x, y, root, under);
    hide Rooted;
    hide Classes;
  }

  // Of two classes of equal rank, the first one's root rises.
  lemma RaiseSet<T>(parent: map<T, T>, rank: map<T, int>, rep: map<T, T>, elements: set<T>, unions: set<(T, T)>, x: T,
                    y: T, under: T, root: T)
    requires DisjointSets(parent, rank, rep, elements, unions) && x in elements && y in elements
    requires under == rep[x] && root == rep[y] && under != root
    requires under in rank && root in rank && rank[under] == rank[root]
    ensures DisjointSets(parent[root := under], rank[under := rank[under] + 1], Joined(rep, root, under), elements,
                         With(unions, x, y))
  {
    hide Heavy;
    hide RootedAt;
    RootOf(parent, rank, rep, x);
    RootOf(parent, rank, rep, y);
    Raise(parent, rank, rep, under);
    Hang(parent, rank[under := rank[under] + 1], rep, under, root);
    RaiseKeepsHeavy(rank, rep, under, root);
    UnionKeepsClasses(unions, elements, rep, x, y, root, under);
    hide Rooted;
    hide Classes;
  }

  // Two elements of one class.
  lemma SameSet<T>(parent: map<T, T>, rank: map<T, int>, rep: map<T, T>, elements: set<T>, unions: set<(T, T)>, x: T,
                   y: T)
    requires DisjointSets(parent, rank, rep, elements, unions) && x in elements && y in elements && rep[x] == rep[y]
    ensures Joined(rep, rep[y], rep[x]) == rep && DisjointSets(parent, rank, rep, elements, With(unions, x, y))
  {
    hide Heavy;
    hide Rooted;
    assert Joined(rep, rep[y], rep[x]) == rep;
    UnionKeepsClasses(unions, elements, rep, x, y, rep[y], rep[x]);
    hide Classes;
  }
}
