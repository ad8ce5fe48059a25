/** Walking a connected cluster in which every node has two neighbours gives the whole ring. */
module Rings {
  import opened Graphs

  predicate Ring(g: Graph) {
    |g| >= 4 && forall a | a in g :: |g[a]| == 2
  }

  predicate Complete(g: Graph) {
    forall a | a in g :: |g[a]| == |g| - 1
  }

  ghost predicate Distinct(order: seq<Addr>) {
    forall i, j | 0 <= i < j < |order| :: order[i] != order[j]
  }

  function Members(order: seq<Addr>): set<Addr> {
    set x | x in order
  }

  ghost predicate Linked(g: Graph, order: seq<Addr>, i: nat) {
    i + 1 < |order| && order[i] in g && order[i + 1] in g[order[i]]
  }

  /** Distinct nodes, each a neighbour of the one before it. */
  ghost predicate Chain(g: Graph, order: seq<Addr>) {
    && order != [] && Distinct(order)
    && (forall i | 0 <= i < |order| :: order[i] in g)
    && (forall i | 0 <= i < |order| - 1 :: Linked(g, order, i))
  }

  /** A cycle through every node, including the edge that closes it. */
  ghost predicate HamiltonianCycle(g: Graph, order: seq<Addr>) {
    && Chain(g, order)
    && Members(order) == g.Keys
    && order[0] in g[order[|order| - 1]]
  }

  lemma {:induction false} DistinctSize(order: seq<Addr>)
    requires Distinct(order)
    ensures |Members(order)| == |order|
  {
    if order != [] {
      var front, last := order[..|order| - 1], order[|order| - 1];
      DistinctSize(front);
      assert Members(order) == Members(front) + {last};
      assert last !in Members(front);
    }
  }

  lemma TwoMembers(s: set<Addr>, a: Addr, b: Addr)
    requires |s| == 2 && a in s && b in s && a != b
    ensures s == {a, b}
  {
    SubsetSize({a, b}, s);
  }

  /** A node inside the chain has no neighbours but the ones before and after it. */
  lemma Interior(g: Graph, order: seq<Addr>, i: nat)
    requires Symmetric(g) && Ring(g) && Chain(g, order) && 0 < i < |order| - 1
    ensures g[order[i]].Keys == {order[i - 1], order[i + 1]}
  {
    assert Linked(g, order, i - 1) && Linked(g, order, i);
    PeerIsNode(g, order[i - 1], order[i]);
    TwoMembers(g[order[i]].Keys, order[i - 1], order[i + 1]);
  }

  /** If the chain cannot be continued, its last node is a neighbour of its first. */
  lemma StuckMeansClosed(g: Graph, order: seq<Addr>)
    requires Symmetric(g) && Ring(g) && Chain(g, order)
    requires g[order[|order| - 1]].Keys <= Members(order)
    ensures |order| >= 3 && g[order[|order| - 1]].Keys == {order[|order| - 2], order[0]}
  {
    var n := |order|;
    var last := order[n - 1];
    assert |g[last]| == 2;
    SelfIsNoPeer(g, last);
    assert n > 1;
    var before := order[n - 2];
    assert Linked(g, order, n - 2);
    PeerIsNode(g, before, last);
    var x := OtherPeer(g[last].Keys, before);
    var j :| 0 <= j < n && order[j] == x;
    if 0 < j < n - 1 {
      Interior(g, order, j);
      PeerIsNode(g, last, x);
      assert false;
    }
    assert j == 0;
    TwoMembers(g[last].Keys, before, x);
  }

  lemma SelfIsNoPeer(g: Graph, a: Addr)
    requires Symmetric(g) && a in g
    ensures a !in g[a]
  {
  }

  lemma OtherPeer(s: set<Addr>, a: Addr) returns (x: Addr)
    requires |s| == 2 && a in s
    ensures x in s && x != a
  {
    var t := s - {a};
    assert |t| == 1;
    x := Least(t);
  }

  /** A chain that has closed on itself is closed under links, so it holds every node the head has a path to. */
  lemma ClosedHoldsAll(g: Graph, order: seq<Addr>, paths: Paths)
    requires Symmetric(g) && Ring(g) && Chain(g, order) && Rooted(g, order[0], paths) && paths.Keys == g.Keys
    requires |order| >= 3 && g[order[|order| - 1]].Keys == {order[|order| - 2], order[0]}
    ensures Members(order) == g.Keys
  {
    var n := |order|;
    var last := order[n - 1];
    assert order[0] in g[last].Keys;
    PeerIsNode(g, last, order[0]);
    assert Linked(g, order, 0);
    TwoMembers(g[order[0]].Keys, order[1], last);
    forall a, b | a in Members(order) && a in g && b in g[a]
      ensures b in Members(order)
    {
      var i :| 0 <= i < n && order[i] == a;
      if 0 < i < n - 1 {
        Interior(g, order, i);
      }
    }
    forall v | v in g
      ensures v in Members(order)
    {
      ClosedSetsHoldAll(g, order[0], paths, Members(order), v);
    }
  }

  /** While nodes are missing, the last node of the chain has a neighbour outside it. */
  lemma NeverStuck(g: Graph, order: seq<Addr>, paths: Paths)
    requires Symmetric(g) && Ring(g) && Chain(g, order) && Rooted(g, order[0], paths) && paths.Keys == g.Keys
    requires |order| < |g|
    ensures g[order[|order| - 1]].Keys - Members(order) != {}
  {
    var peers := g[order[|order| - 1]].Keys;
    if peers - Members(order) == {} {
      AllInside(peers, Members(order));
      StuckMeansClosed(g, order);
      ClosedHoldsAll(g, order, paths);
      DistinctSize(order);
    }
  }

  lemma AllInside(a: set<Addr>, b: set<Addr>)
    requires a - b == {}
    ensures a <= b
  {
    forall x | x in a
      ensures x in b
    {
      assert x in b || x in a - b;
    }
  }

  /** A chain of all nodes closes. */
  lemma FullChainCloses(g: Graph, order: seq<Addr>)
    requires Symmetric(g) && Ring(g) && Chain(g, order) && |order| == |g|
    ensures HamiltonianCycle(g, order)
  {
    DistinctSize(order);
    assert Members(order) <= g.Keys;
    SubsetSize(Members(order), g.Keys);
    var last := order[|order| - 1];
    forall b | b in g[last]
      ensures b in Members(order)
    {
      PeerIsNode(g, last, b);
    }
    StuckMeansClosed(g, order);
    assert order[0] in g[last].Keys;
  }

  lemma Lengthen(g: Graph, order: seq<Addr>, x: Addr)
    requires Symmetric(g) && Chain(g, order) && x in g[order[|order| - 1]] && x !in Members(order)
    ensures Chain(g, order + [x])
  {
    var longer := order + [x];
    PeerIsNode(g, order[|order| - 1], x);
    forall i | 0 <= i < |longer| - 1
      ensures Linked(g, longer, i)
    {
      if i < |order| - 1 {
        assert Linked(g, order, i);
      }
    }
  }

  /** Two neighbours, followed from the head by always taking an unvisited one, the lesser first. */
  method WalkRing(g: Graph, head: Addr, ghost paths: Paths) returns (order: seq<Addr>)
    requires Symmetric(g) && Ring(g) && Rooted(g, head, paths) && paths.Keys == g.Keys
    ensures HamiltonianCycle(g, order) && order[0] == head
    ensures |order| > 1 && forall b | b in g[head] :: order[1] <= b
  {
    order := [head];
    while |order| < |g|
      invariant Chain(g, order) && order[0] == head && |order| <= |g|
      invariant |order| > 1 ==> forall b | b in g[head] :: order[1] <= b
    {
      NeverStuck(g, order, paths);
      var peers := g[order[|order| - 1]].Keys - Members(order);
      var next := Least(peers);
      Lengthen(g, order, next);
      if |order| == 1 {
        SelfIsNoPeer(g, head);
        assert peers == g[head].Keys;
      }
      order := order + [next];
    }
    FullChainCloses(g, order);
  }
}
