/** The launcher accepts the links of every planned cluster: a ring or a complete network in the planned order. */
module PlannedTopologies {
  import opened Results
  import opened Graphs
  import opened Rings
  import opened LinkTables
  import opened Topologies
  import opened RankOrder
  import opened Addressing
  import opened Planner
  import opened LaunchLinks

  /** No planned subnet contains a management address, as the planner checks. */
  ghost predicate Separate(l: Layout) {
    !Overlaps(l.order, SubnetList(l.base, Subnets(l)))
  }

  /** A plan that was not refused keeps its subnets clear of the management addresses. */
  lemma AcceptedPlansAreSeparate(order: seq<Addr>, wiring: Wiring, pool: Network, mtu: int)
    requires PoolFault(order, wiring, pool, mtu).None?
    ensures Separate(Layout(order, wiring, pool.base))
  {
    assert Subnets(Layout(order, wiring, pool.base)) == Needed(order, wiring);
  }

  lemma NotManagement(l: Layout, i: nat, s: nat, k: nat)
    requires Plannable(l) && Separate(l) && i < |l.order| && s < Subnets(l) && k < |l.order|
    ensures AddressAt(l, i, s) != l.order[k]
  {
    var subnet := SubnetList(l.base, Subnets(l))[s];
    assert !Contains(subnet, l.order[k]);
  }

  // ----- the links, one by one -----

  lemma LinkIs(l: Layout, k: nat)
    requires Plannable(l) && k < |Links(l)|
    ensures var pair := Pairs(l)[k / 2];
            && pair in Pairs(l) && pair.0 < |l.order| && pair.1 < |l.order| && pair.0 != pair.1
            && Links(l)[k] == LinkAt(l, pair, k % 2) && PairSubnet(l, pair, k % 2) < Subnets(l)
            && (l.wiring.AroundRing? ==> PairSubnet(l, pair, k % 2) == k)
  {
    PairsAre(l);
    var pair := Pairs(l)[k / 2];
    assert pair in Pairs(l);
    BothOnSubnet(l, pair, k % 2);
  }

  /** Each end of a link is a planned address of its node. */
  lemma JoinedAddresses(l: Layout, a: Addr, x: Addr, b: Addr, y: Addr) returns (i: nat, j: nat, s: nat)
    requires Plannable(l) && Joins(Links(l), a, x, b, y)
    ensures i < |l.order| && j < |l.order| && i != j && s < Subnets(l) && Paired(Pairs(l), i, j)
    ensures a == l.order[i] && x == AddressAt(l, i, s) && b == l.order[j] && y == AddressAt(l, j, s)
  {
    var link := if Link(a, x, b, y) in Links(l) then Link(a, x, b, y) else Link(b, y, a, x);
    var k :| 0 <= k < |Links(l)| && Links(l)[k] == link;
    LinkIs(l, k);
    var pair := Pairs(l)[k / 2];
    s := PairSubnet(l, pair, k % 2);
    if link == Link(a, x, b, y) {
      i, j := pair.0, pair.1;
    } else {
      i, j := pair.1, pair.0;
    }
    assert pair == (pair.0, pair.1);
  }

  lemma PairedJoins(l: Layout, i: nat, j: nat) returns (s: nat)
    requires Plannable(l) && i < |l.order| && j < |l.order| && Paired(Pairs(l), i, j)
    ensures Joins(Links(l), l.order[i], AddressAt(l, i, s), l.order[j], AddressAt(l, j, s))
  {
    var pair := if (i, j) in Pairs(l) then (i, j) else (j, i);
    var p :| 0 <= p < |Pairs(l)| && Pairs(l)[p] == pair;
    assert (2 * p) / 2 == p && (2 * p) % 2 == 0;
    LinkIs(l, 2 * p);
    hide Plannable, AddressAt, Pairs;
    s := PairSubnet(l, pair, 0);
    assert Links(l)[2 * p] == LinkAt(l, pair, 0);
  }

  lemma LinkEnds(l: Layout)
    requires Plannable(l)
    ensures InNodes(l.order, Links(l))
  {
    forall k | 0 <= k < |Links(l)|
      ensures Links(l)[k].a != Links(l)[k].b && Links(l)[k].a in l.order && Links(l)[k].b in l.order
    {
      LinkIs(l, k);
    }
  }

  /** No link is listed twice, in either direction. */
  lemma LinksDiffer(l: Layout, j: nat, k: nat)
    requires Plannable(l) && j < k < |Links(l)|
    ensures Links(l)[j] != Links(l)[k] && Links(l)[j] != Links(l)[k].Swapped()
  {
    LinkIs(l, j);
    LinkIs(l, k);
    PairsAre(l);
    var p, q := Pairs(l)[j / 2], Pairs(l)[k / 2];
    var s, t := PairSubnet(l, p, j % 2), PairSubnet(l, q, k % 2);
    AddressesAreUnique(l, p.0, s, q.0, t);
    AddressesAreUnique(l, p.0, s, q.1, t);
    AddressesAreUnique(l, p.1, s, q.0, t);
    AddressesAreUnique(l, p.1, s, q.1, t);
    hide Links, AddressAt, Plannable;
    if s == t {
      assert j / 2 < k / 2;
    }
  }

  lemma OneOwner(l: Layout, address: Addr, m: Addr, n: Addr)
    requires Plannable(l) && Separate(l) && Claims(l.order, Links(l), m, address)
             && Claims(l.order, Links(l), n, address)
    ensures m == n
  {
    var i, s := ClaimedBy(l, m, address);
    var j, t := ClaimedBy(l, n, address);
    if m != address && n != address {
      AddressesAreUnique(l, i, s, j, t);
    } else if m != address {
      NotManagement(l, i, s, j);
    } else if n != address {
      NotManagement(l, j, t, i);
    }
  }

  /** A claim is a node's management address or a planned address of its own. */
  lemma ClaimedBy(l: Layout, m: Addr, address: Addr) returns (i: nat, s: nat)
    requires Plannable(l) && Claims(l.order, Links(l), m, address)
    ensures i < |l.order| && l.order[i] == m
    ensures m != address ==> s < Subnets(l) && address == AddressAt(l, i, s)
  {
    if m == address && m in l.order {
      i :| 0 <= i < |l.order| && l.order[i] == m;
      s := 0;
    } else {
      var b, y :| Joins(Links(l), m, address, b, y);
      var j;
      i, j, s := JoinedAddresses(l, m, address, b, y);
    }
  }

  lemma LinksAreAcceptable(l: Layout)
    requires Plannable(l) && Separate(l)
    ensures Acceptable(l.order, Links(l))
  {
    LinkEnds(l);
    forall j, k | 0 <= j < k < |Links(l)|
      ensures Links(l)[j] != Links(l)[k] && Links(l)[j] != Links(l)[k].Swapped()
    {
      LinksDiffer(l, j, k);
    }
    forall address, m, n | Claims(l.order, Links(l), m, address) && Claims(l.order, Links(l), n, address)
      ensures m == n
    {
      OneOwner(l, address, m, n);
    }
    hide Links, Claims;
  }

  // ----- the neighbour table -----

  /** The neighbour table of the planned links. */
  ghost function PlannedTable(l: Layout): (g: Graph)
    requires Plannable(l) && Acceptable(l.order, Links(l))
  {
    AcceptableTable(l.order, Links(l));
    TableOf(AdjacencyOf(l.order, Links(l)))
  }

  lemma Neighbours(l: Layout, i: nat, j: nat)
    requires Plannable(l) && Acceptable(l.order, Links(l)) && i < |l.order| && j < |l.order|
    ensures l.order[i] in PlannedTable(l)
    ensures l.order[j] in PlannedTable(l)[l.order[i]] <==> Paired(Pairs(l), i, j)
  {
    AcceptableTable(l.order, Links(l));
    var adj := AdjacencyOf(l.order, Links(l));
    var a, b := l.order[i], l.order[j];
    assert a in Members(l.order);
    TableEntry(adj, l.order, Links(l), a, b);
    if b in TableOf(adj)[a] {
      var x, y :| Joins(Links(l), a, x, b, y);
      var i', j', s := JoinedAddresses(l, a, x, b, y);
      assert i' == i && j' == j;
    }
    if Paired(Pairs(l), i, j) {
      var s := PairedJoins(l, i, j);
    }
  }

  lemma TableIsSymmetric(l: Layout)
    requires Plannable(l) && Acceptable(l.order, Links(l))
    ensures Symmetric(PlannedTable(l)) && PlannedTable(l).Keys == Members(l.order)
  {
    AcceptableTable(l.order, Links(l));
  }

  /** Neighbours are known once it is known which of the listed nodes are neighbours. */
  lemma PeersAreExactly(g: Graph, order: seq<Addr>, node: Addr, peers: set<Addr>)
    requires Symmetric(g) && g.Keys == Members(order) && node in g && peers <= Members(order)
    requires forall j | 0 <= j < |order| :: order[j] in g[node] <==> order[j] in peers
    ensures g[node].Keys == peers
  {
    forall n
      ensures n in g[node].Keys <==> n in peers
    {
      if n in g[node] {
        PeerIsNode(g, node, n);
      }
      if n in Members(order) {
        var j :| 0 <= j < |order| && order[j] == n;
      }
    }
  }

  /** Around a ring a node's neighbours are the next node and the one before; otherwise all the others. */
  function RingPeers(l: Layout, i: nat): set<Addr>
    requires i < |l.order|
  {
    if l.wiring.AroundRing? then {l.order[Successor(|l.order|, i)], l.order[Predecessor(|l.order|, i)]}
    else Members(l.order) - {l.order[i]}
  }

  lemma IsRingPeer(l: Layout, i: nat, j: nat)
    requires Plannable(l) && i < |l.order| && j < |l.order|
    ensures l.order[j] in RingPeers(l, i) <==> Paired(Pairs(l), i, j)
    ensures RingPeers(l, i) <= Members(l.order)
  {
    PairsAre(l);
    hide Pairs, Paired;
  }

  lemma NeighbourSet(l: Layout, i: nat)
    requires Plannable(l) && Acceptable(l.order, Links(l)) && i < |l.order|
    ensures l.order[i] in PlannedTable(l) && PlannedTable(l)[l.order[i]].Keys == RingPeers(l, i)
  {
    Neighbours(l, i, i);
    TableIsSymmetric(l);
    IsRingPeer(l, i, i);
    hide PlannedTable, Acceptable, Pairs, Links, Symmetric, Members, RingPeers, Plannable;
    forall j | 0 <= j < |l.order|
      ensures l.order[j] in PlannedTable(l)[l.order[i]] <==> l.order[j] in RingPeers(l, i)
    {
      Neighbours(l, i, j);
      IsRingPeer(l, i, j);
    }
    PeersAreExactly(PlannedTable(l), l.order, l.order[i], RingPeers(l, i));
  }

  /** How many neighbours each node has. */
  lemma Degree(l: Layout, i: nat)
    requires Plannable(l) && Acceptable(l.order, Links(l)) && i < |l.order|
    ensures l.order[i] in PlannedTable(l)
    ensures |PlannedTable(l)[l.order[i]]| == if l.wiring.AroundRing? then 2 else |l.order| - 1
  {
    NeighbourSet(l, i);
    RingPeersCount(l, i);
    var peers := PlannedTable(l)[l.order[i]];
    hide *;
    assert |peers| == |peers.Keys|;
  }

  lemma RingPeersCount(l: Layout, i: nat)
    requires Plannable(l) && i < |l.order|
    ensures |RingPeers(l, i)| == if l.wiring.AroundRing? then 2 else |l.order| - 1
  {
    var n, node := |l.order|, l.order[i];
    DistinctSize(l.order);
    assert node in Members(l.order);
    if l.wiring.AroundRing? {
      assert l.order[Successor(n, i)] != l.order[Predecessor(n, i)];
    }
    hide Members, Distinct;
  }

  /** Nodes listed each as a neighbour of the one before are all reached from the first. */
  lemma {:induction false} WalkReaches(g: Graph, order: seq<Addr>, i: nat)
    requires Symmetric(g) && i < |order| && order[0] in g && forall k | 0 <= k < |order| - 1 :: Linked(g, order, k)
    ensures order[i] in AllPaths(g, order[0])
  {
    AllPathsFinished(g, order[0]);
    var paths := AllPaths(g, order[0]);
    assert order[0] in paths;
    hide AllPaths, Symmetric;
    if i > 0 {
      WalkReaches(g, order, i - 1);
      assert Linked(g, order, i - 1);
      var before, node := order[i - 1], order[i];
      assert Explored(g, paths, before) && node in g[before];
    }
  }

  lemma NextIsLinked(l: Layout, k: nat)
    requires Plannable(l) && Acceptable(l.order, Links(l)) && k < |l.order| - 1
    ensures Linked(PlannedTable(l), l.order, k)
  {
    Neighbours(l, k, k + 1);
    PairsAre(l);
    hide PlannedTable, Acceptable, Links, Pairs, PairsBetween, Paired;
    assert Successor(|l.order|, k) == k + 1;
  }

  /** Planned links connect every node to the first. */
  lemma LinksConnect(l: Layout)
    requires Plannable(l) && Separate(l)
    ensures Acceptable(l.order, Links(l)) && Connected(l.order, Links(l))
  {
    LinksAreAcceptable(l);
    TableIsSymmetric(l);
    AcceptableTable(l.order, Links(l));
    var g, head := PlannedTable(l), l.order[0];
    assert head in Members(l.order);
    AllPathsFinished(g, head);
    hide AllPaths, Pairs;
    forall k | 0 <= k < |l.order| - 1
      ensures Linked(g, l.order, k)
    {
      NextIsLinked(l, k);
    }
    hide Plannable, Links, PlannedTable, Linked;
    forall n | n in g
      ensures n in AllPaths(g, head)
    {
      assert n in Members(l.order);
      var i :| 0 <= i < |l.order| && l.order[i] == n;
      WalkReaches(g, l.order, i);
    }
  }

  // ----- what the launcher makes of a plan -----

  /** Four or more nodes around a ring are a ring; three of them, or nodes on a common network, are complete. */
  lemma Classified(l: Layout)
    requires Plannable(l) && Acceptable(l.order, Links(l))
    ensures l.wiring.AroundRing? && |l.order| >= 4 ==> Ring(PlannedTable(l)) && !Complete(PlannedTable(l))
    ensures l.wiring.OnePort? || |l.order| == 3 ==> Complete(PlannedTable(l))
  {
    TableIsSymmetric(l);
    DistinctSize(l.order);
    var g := PlannedTable(l);
    assert |g| == |g.Keys| == |l.order|;
    var head := l.order[0];
    assert head in Members(l.order);
    forall n | n in g
      ensures |g[n]| == if l.wiring.AroundRing? then 2 else |l.order| - 1
    {
      assert n in Members(l.order);
      var i :| 0 <= i < |l.order| && l.order[i] == n;
      Degree(l, i);
    }
    ByDegree(g, head, if l.wiring.AroundRing? then 2 else |l.order| - 1);
    hide *;
  }

  lemma ByDegree(g: Graph, head: Addr, degree: int)
    requires head in g && forall n | n in g :: |g[n]| == degree
    ensures Ring(g) <==> |g| >= 4 && degree == 2
    ensures Complete(g) <==> degree == |g| - 1
  {
  }

  lemma AroundTheOrder(l: Layout)
    requires Plannable(l) && Acceptable(l.order, Links(l)) && l.wiring.AroundRing?
    ensures Around(PlannedTable(l), l.order)
  {
    hide PlannedTable, Acceptable, Links, Pairs;
    PairsAre(l);
    forall i | 0 <= i < |l.order|
      ensures l.order[i] in PlannedTable(l) && After(l.order, i) in PlannedTable(l)[l.order[i]]
    {
      Neighbours(l, i, Successor(|l.order|, i));
    }
  }

  lemma TableIsPlanned(l: Layout, t: Topology)
    requires Plannable(l) && Acceptable(l.order, Links(l)) && Valid(t) && t.nodes == l.order && t.links == Links(l)
    ensures Table(t) == PlannedTable(l)
  {
  }

  /**
   * From planner to launcher: the links written for a plan pass every check a topology is
   * built with, give a ring for four nodes or more around one and a complete network
   * otherwise, and the planned order is an order the launcher accepts.
   */
  lemma PlansLaunch(l: Layout, t: Topology)
    requires Plannable(l) && Separate(l)
    ensures Acceptable(l.order, Links(l)) && Connected(l.order, Links(l))
    ensures Valid(t) && t.nodes == l.order && t.links == Links(l) ==>
              && Table(t) == PlannedTable(l) && OrderAllowed(t, l.order)
              && (l.wiring.AroundRing? && |l.order| >= 4 ==> Ring(Table(t)) && !Complete(Table(t)))
              && (l.wiring.OnePort? || |l.order| == 3 ==> Complete(Table(t)))
  {
    hide Selectable, Selection, PlannedTable, Acceptable, Links, Connected;
    LinksConnect(l);
    if Valid(t) && t.nodes == l.order && t.links == Links(l) {
      Classified(l);
      SameNodesSelectable(t, l.order[0], l.order);
      TableIsPlanned(l, t);
      hide Valid;
      if l.wiring.AroundRing? {
        AroundTheOrder(l);
      }
      assert OrderAllowed(t, l.order);
    }
  }
}
