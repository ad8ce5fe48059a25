/** Ordering the ranks of a saved cluster and checking an order that a user selects. */
module RankOrder {
  import opened Results
  import opened Graphs
  import opened Rings
  import opened LinkTables
  import opened Topologies

  // ----- copy paths -----

  /** Reachability over links that go both ways does not depend on where it starts. */
  lemma ReachedFromAnywhere(g: Graph, a: Addr, b: Addr)
    requires Symmetric(g) && Reaches(g, a) && b in g
    ensures Reaches(g, b)
  {
    AllPathsFinished(g, a);
    AllPathsFinished(g, b);
    var near := AllPaths(g, b).Keys;
    var far := g.Keys - near;
    assert near <= g.Keys;
    forall x, y | x in near && x in g && y in g[x]
      ensures y in near
    {
      assert Explored(g, AllPaths(g, b), x);
    }
    if a in far {
      forall x, y | x in far && x in g && y in g[x]
        ensures y in far
      {
        PeerIsNode(g, x, y);
      }
      ClosedSetsHoldAll(g, a, AllPaths(g, a), far, b);
      assert false;
    }
    forall v | v in g
      ensures v in near
    {
      ClosedSetsHoldAll(g, a, AllPaths(g, a), near, v);
    }
  }

  method Paths(t: Topology, head: Addr) returns (r: Result<Graphs.Paths, Fault>)
    requires Valid(t)
    ensures r == if head in t.nodes then Ok(AllPaths(Table(t), head)) else Err(UnknownHead)
  {
    r := PathsOver(t.adj, head);
    if head in t.nodes {
      ReachedFromAnywhere(Table(t), t.nodes[0], head);
    }
  }

  /** A hop from `u` dials an end of a link they share, and no link between them has a lesser one there. */
  ghost predicate DialsLeast(t: Topology, u: Addr, hop: Hop) {
    && (exists x :: Joins(t.links, u, x, hop.0, hop.1))
    && forall x, y | Joins(t.links, u, x, hop.0, y) :: hop.1 <= y
  }

  /** A hop dials the right address of the right node, and is where the route to it ends. */
  ghost predicate GoodHop(t: Topology, head: Addr, paths: Graphs.Paths, p: seq<Hop>, k: nat)
    requires k < |p|
  {
    && p[k].1 in t.owners && t.owners[p[k].1] == p[k].0
    && DialsLeast(t, if k == 0 then head else p[k - 1].0, p[k])
    && p[k].0 in paths && paths[p[k].0] == p[..k + 1]
  }

  /**
   * From any head, every node has a copy path. It is a shortest walk over links;
   * each hop dials an address of the hop's own, the least its predecessor shares a
   * link with; and the route to any hop on it is the beginning of the path itself.
   */
  lemma CopyPathsAreRoutes(t: Topology, head: Addr, v: Addr)
    requires Valid(t) && head in t.nodes && v in t.nodes
    ensures var paths := AllPaths(Table(t), head);
            && v in paths
            && var p := paths[v];
            && Walk(Table(t), Trail(head, p)) && Trail(head, p)[|p|] == v
            && (forall w | Walk(Table(t), w) && w[0] == head && w[|w| - 1] == v :: |p| <= |w| - 1)
            && forall k | 0 <= k < |p| :: GoodHop(t, head, paths, p, k)
  {
    var g := Table(t);
    ReachedFromAnywhere(g, t.nodes[0], head);
    ShortestPaths(g, head, v);
    hide Valid, AllPaths, Walk, GoodHop, TableOf;
    var p := AllPaths(g, head)[v];
    forall k | 0 <= k < |p|
      ensures GoodHop(t, head, AllPaths(g, head), p, k)
    {
      HopIsGood(t, head, v, k);
    }
  }

  lemma HopIsGood(t: Topology, head: Addr, v: Addr, k: nat)
    requires Valid(t) && head in t.nodes && v in AllPaths(Table(t), head) && k < |AllPaths(Table(t), head)[v]|
    ensures GoodHop(t, head, AllPaths(Table(t), head), AllPaths(Table(t), head)[v], k)
  {
    hide AllPaths, Walk, DialsLeast, TableOf, Dialled;
    ShortestPaths(Table(t), head, v);
    PrefixesArePaths(Table(t), head, v, k);
    DialledOwner(t, head, AllPaths(Table(t), head)[v], k);
  }

  lemma EntryOwner(t: Topology, u: Addr, v: Addr)
    requires Valid(t) && u in Table(t) && v in Table(t)[u]
    ensures Table(t)[u][v] in t.owners && t.owners[Table(t)[u][v]] == v
    ensures DialsLeast(t, u, (v, Table(t)[u][v]))
  {
    OwnersAre(t.nodes, t.links);
    TableEntry(t.adj, t.nodes, t.links, u, v);
    var y := Table(t)[u][v];
    var x :| Joins(t.links, u, x, v, y);
    assert Joins(t.links, v, y, u, x);
    assert Claims(t.nodes, t.links, v, y);
  }

  lemma {:induction false} DialledOwner(t: Topology, head: Addr, path: seq<Hop>, k: nat)
    requires Valid(t) && Dialled(Table(t), head, path) && k < |path|
    ensures path[k].1 in t.owners && t.owners[path[k].1] == path[k].0
    ensures DialsLeast(t, if k == 0 then head else path[k - 1].0, path[k])
    decreases |path|
  {
    var g := Table(t);
    if k == |path| - 1 {
      EntryOwner(t, Before(head, path), path[k].0);
    } else {
      hide Valid, TableOf, DialsLeast;
      DialledOwner(t, head, path[..|path| - 1], k);
    }
  }

  lemma {:induction false} OwnersAre(nodes: seq<Addr>, links: seq<Link>)
    requires WellFormed(nodes, links)
    ensures OwnersRecord(OwnersOf(nodes, links), nodes, links)
  {
    if links == [] {
      NoLinksOwners(nodes);
    } else {
      var front, l := links[..|links| - 1], links[|links| - 1];
      assert links == front + [l];
      forall address, m, n | Claims(nodes, front, m, address) && Claims(nodes, front, n, address)
        ensures m == n
      {
        ClaimsStay(nodes, front, links, m, address);
        ClaimsStay(nodes, front, links, n, address);
      }
      OwnersAre(nodes, front);
      var owners := OwnersOf(nodes, front);
      ClaimsOneMore(nodes, front, l, l.a, l.x);
      ClaimsOneMore(nodes, front, l, l.b, l.y);
      if l.x in owners {
        ClaimsStay(nodes, front, links, owners[l.x], l.x);
      }
      if l.y in owners {
        ClaimsStay(nodes, front, links, owners[l.y], l.y);
      }
      ClaimsOneMore(nodes, front, l, l.b, l.x);
      OwnersOneMore(owners, nodes, front, l);
    }
  }

  // ----- rank order -----

  /** Head first; then by address in a complete network, or around the ring towards the lesser neighbour. */
  ghost predicate Ranked(g: Graph, head: Addr, order: seq<Addr>) {
    && order != [] && order[0] == head && Distinct(order) && Members(order) == g.Keys
    && (Complete(g) ==> forall i, j | 0 < i < j < |order| :: order[i] < order[j])
    && (!Complete(g) ==>
          && Ring(g) && HamiltonianCycle(g, order)
          && |order| > 1 && forall b | b in g[head] :: order[1] <= b)
  }

  method RankOrder(t: Topology, head: Addr) returns (r: Result<seq<Addr>, Fault>)
    requires Valid(t)
    ensures r.Ok? <==> head in t.nodes && (Complete(Table(t)) || Ring(Table(t)))
    ensures r.Ok? ==> Ranked(Table(t), head, r.value)
    ensures r.Err? ==> r.error == if head in t.nodes then NeitherCompleteNorRing else UnknownHead
  {
    var paths := Paths(t, head);
    if paths.Err? {
      return Err(paths.error);
    }
    ReachedFromAnywhere(Table(t), t.nodes[0], head);
    r := Rank(TableOf(t.adj), head, paths.value);
  }

  /** Ranks of a network whose copy paths from the head are known. */
  method Rank(g: Graph, head: Addr, ghost paths: Graphs.Paths) returns (r: Result<seq<Addr>, Fault>)
    requires Symmetric(g) && Reaches(g, head) && paths == AllPaths(g, head)
    ensures r.Ok? <==> Complete(g) || Ring(g)
    ensures r.Ok? ==> Ranked(g, head, r.value)
    ensures r.Err? ==> r.error == NeitherCompleteNorRing
  {
    AllPathsFinished(g, head);
    hide AllPaths, Ranked, HamiltonianCycle;
    if Complete(g) {
      var order := [head] + Ascending(g.Keys - {head});
      CompleteRanked(g, head, order);
      return Ok(order);
    }
    if !Ring(g) {
      return Err(NeitherCompleteNorRing);
    }
    hide Symmetric, Ring;
    var order := WalkRing(g, head, paths);
    RingRanked(g, head, order);
    return Ok(order);
  }

  lemma CompleteRanked(g: Graph, head: Addr, order: seq<Addr>)
    requires Complete(g) && head in g && order == [head] + Ascending(g.Keys - {head})
    ensures Ranked(g, head, order)
  {
    hide *;
    HeadFirst(head, Ascending(g.Keys - {head}), g.Keys);
    AscendingIsRanked(g, head, order);
  }

  lemma AscendingIsRanked(g: Graph, head: Addr, order: seq<Addr>)
    requires Complete(g) && order != [] && order[0] == head && Distinct(order) && Members(order) == g.Keys
    requires forall i, j | 0 < i < j < |order| :: order[i] < order[j]
    ensures Ranked(g, head, order)
  {
    hide Complete, Distinct, Members;
  }

  lemma RingRanked(g: Graph, head: Addr, order: seq<Addr>)
    requires Ring(g) && !Complete(g) && HamiltonianCycle(g, order) && order[0] == head
    requires |order| > 1 && forall b | b in g[head] :: order[1] <= b
    ensures Ranked(g, head, order)
  {
    hide Complete, Distinct, Members, Ring;
  }

  lemma HeadFirst(head: Addr, rest: seq<Addr>, all: set<Addr>)
    requires head in all && forall x :: x in rest <==> x in all - {head}
    requires forall i, j | 0 <= i < j < |rest| :: rest[i] < rest[j]
    ensures Distinct([head] + rest) && Members([head] + rest) == all
    ensures forall i, j | 0 < i < j < |[head] + rest| :: ([head] + rest)[i] < ([head] + rest)[j]
  {
    hide *;
    HeadFirstMembers(head, rest, all);
    NotHead(head, rest, all);
    HeadFirstDistinct(head, rest);
  }

  lemma NotHead(head: Addr, rest: seq<Addr>, all: set<Addr>)
    requires forall x :: x in rest <==> x in all - {head}
    ensures forall i | 0 <= i < |rest| :: rest[i] != head
  {
    forall i | 0 <= i < |rest|
      ensures rest[i] != head
    {
      var x := rest[i];
      assert x in rest;
    }
  }

  lemma HeadFirstDistinct(head: Addr, rest: seq<Addr>)
    requires forall i | 0 <= i < |rest| :: rest[i] != head
    requires forall i, j | 0 <= i < j < |rest| :: rest[i] < rest[j]
    ensures Distinct([head] + rest)
    ensures forall i, j | 0 < i < j < |[head] + rest| :: ([head] + rest)[i] < ([head] + rest)[j]
  {
    var order := [head] + rest;
    assert forall i | 0 < i < |order| :: order[i] == rest[i - 1];
    assert order[0] == head;
  }

  lemma HeadFirstMembers(head: Addr, rest: seq<Addr>, all: set<Addr>)
    requires head in all && forall x :: x in rest <==> x in all - {head}
    ensures Members([head] + rest) == all
  {
    forall x
      ensures x in Members([head] + rest) <==> x in all
    {
      assert x in [head] + rest <==> x == head || x in rest;
    }
  }

  // ----- a selected order -----

  function Kept(links: seq<Link>, nodes: seq<Addr>): seq<Link> {
    if links == [] then []
    else
      var l := links[|links| - 1];
      if l.a in nodes && l.b in nodes
      then Kept(links[..|links| - 1], nodes) + [l]
      else Kept(links[..|links| - 1], nodes)
  }

  function After(order: seq<Addr>, i: nat): Addr
    requires i < |order|
  {
    if i + 1 < |order| then order[i + 1] else order[0]
  }

  /** Each node is a neighbour of the one listed before it, the first of the last. */
  ghost predicate Around(g: Graph, order: seq<Addr>) {
    forall i | 0 <= i < |order| :: order[i] in g && After(order, i) in g[order[i]]
  }

  ghost predicate Selectable(t: Topology, nodes: seq<Addr>) {
    Members(nodes) <= Members(t.nodes) && Acceptable(nodes, Kept(t.links, nodes))
      && Connected(nodes, Kept(t.links, nodes))
  }

  /** The neighbour table of the selected nodes. */
  ghost function Selection(t: Topology, nodes: seq<Addr>): Graph
    requires Selectable(t, nodes)
  {
    TableOf(AdjacencyOf(nodes, Kept(t.links, nodes)))
  }

  /** Any connected choice of pairwise linked nodes, or the whole of a ring in its order. */
  ghost predicate OrderAllowed(t: Topology, nodes: seq<Addr>) {
    && Selectable(t, nodes)
    && var g := Selection(t, nodes);
       Complete(g) || (Ring(g) && Around(g, nodes))
  }

  method KeptLinks(links: seq<Link>, nodes: seq<Addr>) returns (kept: seq<Link>)
    ensures kept == Kept(links, nodes)
  {
    kept := [];
    for k := 0 to |links|
      invariant kept == Kept(links[..k], nodes)
    {
      assert links[..k + 1][..k] == links[..k];
      if links[k].a in nodes && links[k].b in nodes {
        kept := kept + [links[k]];
      }
    }
    assert links[..|links|] == links;
  }

  method Subset(t: Topology, nodes: seq<Addr>) returns (r: Result<Topology, Fault>)
    requires Valid(t)
    ensures r.Ok? <==> Selectable(t, nodes)
    ensures r.Ok? ==> Valid(r.value) && Table(r.value) == Selection(t, nodes) && r.value.nodes == nodes
  {
    if !(Members(nodes) <= Members(t.nodes)) {
      return Err(UnknownSelection);
    }
    var links := KeptLinks(t.links, nodes);
    hide Acceptable, Connected, Refused;
    r := Build(nodes, links);
    if r.Err? && Acceptable(nodes, links) {
      AcceptableNotRefused(r.error, nodes, links);
    }
  }

  method ValidateOrder(t: Topology, nodes: seq<Addr>) returns (fault: Option<Fault>)
    requires Valid(t)
    ensures fault == None <==> OrderAllowed(t, nodes)
  {
    hide Selectable, Selection;
    var selected := Subset(t, nodes);
    if selected.Err? {
      return Some(selected.error);
    }
    assert Railed(selected.value.adj) && TableOf(selected.value.adj).Keys == Members(nodes);
    hide Valid, TableOf;
    var g := TableOf(selected.value.adj);
    if Complete(g) {
      return None;
    }
    if !Ring(g) {
      return Some(BreaksRing);
    }
    var around := CheckAround(g, nodes);
    return if around then None else Some(WrongOrder);
  }

  method CheckAround(g: Graph, nodes: seq<Addr>) returns (ok: bool)
    requires Members(nodes) == g.Keys
    ensures ok <==> Around(g, nodes)
  {
    forall i | 0 <= i < |nodes|
      ensures nodes[i] in g
    {
      assert nodes[i] in Members(nodes);
    }
    hide Members;
    for i := 0 to |nodes|
      invariant forall j | 0 <= j < i :: After(nodes, j) in g[nodes[j]]
    {
      if After(nodes, i) !in g[nodes[i]] {
        return false;
      }
    }
    return true;
  }

  lemma {:induction false} KeptAll(links: seq<Link>, nodes: seq<Addr>)
    requires InNodes(nodes, links)
    ensures Kept(links, nodes) == links
  {
    if links == [] {
      assert Kept([], nodes) == [];
    } else {
      var front, l := links[..|links| - 1], links[|links| - 1];
      assert forall i | 0 <= i < |front| :: front[i] == links[i];
      KeptAll(front, nodes);
      KeptLast(front, l, nodes);
      assert links == front + [l];
    }
    hide *;
  }

  lemma KeptLast(links: seq<Link>, l: Link, nodes: seq<Addr>)
    requires l.a in nodes && l.b in nodes
    ensures Kept(links + [l], nodes) == Kept(links, nodes) + [l]
  {
    assert (links + [l])[..|links|] == links;
  }

  lemma {:induction false} SameNodesSameTables(nodes: seq<Addr>, nodes': seq<Addr>, links: seq<Link>)
    requires Members(nodes) == Members(nodes') && InNodes(nodes, links) && InNodes(nodes', links)
    ensures AdjacencyOf(nodes, links) == AdjacencyOf(nodes', links)
  {
    if links == [] {
      assert forall n :: n in nodes <==> n in Members(nodes);
      assert forall n :: n in nodes' <==> n in Members(nodes');
    } else {
      SameNodesSameTables(nodes, nodes', links[..|links| - 1]);
    }
  }

  lemma SameNodesAcceptable(nodes: seq<Addr>, nodes': seq<Addr>, links: seq<Link>)
    requires Acceptable(nodes, links) && nodes' != [] && Distinct(nodes') && Members(nodes) == Members(nodes')
    ensures Acceptable(nodes', links)
  {
    assert forall n :: n in nodes <==> n in Members(nodes);
    assert forall n :: n in nodes' <==> n in Members(nodes');
    forall n, address
      ensures Claims(nodes', links, n, address) <==> Claims(nodes, links, n, address)
    {
    }
  }

  lemma WellFormedInNodes(nodes: seq<Addr>, links: seq<Link>)
    requires WellFormed(nodes, links)
    ensures InNodes(nodes, links)
  {
  }

  lemma SameNodesSelectable(t: Topology, head: Addr, order: seq<Addr>)
    requires Valid(t) && head in t.nodes && order != [] && order[0] == head
    requires Distinct(order) && Members(order) == Members(t.nodes)
    ensures Selectable(t, order) && Selection(t, order) == Table(t)
  {
    hide WellFormed, InNodes, AdjacencyOf, Kept, OwnersOf;
    assert forall n :: n in t.nodes <==> n in Members(t.nodes);
    assert forall n :: n in order <==> n in Members(order);
    WellFormedInNodes(t.nodes, t.links);
    SameNodesAcceptable(t.nodes, order, t.links);
    KeptAll(t.links, order);
    SameNodesSameTables(t.nodes, order, t.links);
    ReachedFromAnywhere(Table(t), t.nodes[0], head);
  }

  lemma RingOrderGoesAround(g: Graph, order: seq<Addr>)
    requires HamiltonianCycle(g, order)
    ensures Around(g, order)
  {
    forall i | 0 <= i < |order|
      ensures order[i] in g && After(order, i) in g[order[i]]
    {
      if i < |order| - 1 {
        assert Linked(g, order, i);
      }
    }
  }

  /** The order the program computes is an order the program accepts. */
  lemma RankOrderIsAllowed(t: Topology, head: Addr, order: seq<Addr>)
    requires Valid(t) && head in t.nodes && Ranked(Table(t), head, order)
    ensures OrderAllowed(t, order)
  {
    SameNodesSelectable(t, head, order);
    hide Valid, Selectable, TableOf, HamiltonianCycle, Around;
    if !Complete(Table(t)) {
      RingOrderGoesAround(Table(t), order);
    }
  }
}
