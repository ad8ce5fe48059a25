/** What a cluster's saved links say about neighbours, rails and address ownership. */
module LinkTables {
  import opened Results
  import opened Graphs
  import opened Rings

  /** A cable: node `a` at link address `x`, node `b` at link address `y`. */
  datatype Link = Link(a: Addr, x: Addr, b: Addr, y: Addr) {
    function Swapped(): Link {
      Link(b, y, a, x)
    }
  }

  /** For each node and neighbour, the parallel rails between them as (own address, peer address). */
  type Adjacency = map<Addr, map<Addr, seq<(Addr, Addr)>>>

  datatype Topology = Topology(nodes: seq<Addr>, links: seq<Link>, adj: Adjacency, owners: map<Addr, Addr>)

  datatype Fault =
    | BadNodes
    | BadLink
    | UnknownNode
    | SharedAddress
    | DuplicateLink
    | Disconnected
    | UnknownHead
    | NeitherCompleteNorRing
    | UnknownSelection
    | BreaksRing
    | WrongOrder

  // ----- what the links say -----

  ghost predicate Joins(links: seq<Link>, a: Addr, x: Addr, b: Addr, y: Addr) {
    Link(a, x, b, y) in links || Link(b, y, a, x) in links
  }

  /** `node` answers to `address`: its own management address, or an end of one of its links. */
  ghost predicate Claims(nodes: seq<Addr>, links: seq<Link>, node: Addr, address: Addr) {
    (node == address && node in nodes) || exists b, y :: Joins(links, node, address, b, y)
  }

  ghost predicate WellFormed(nodes: seq<Addr>, links: seq<Link>) {
    && (forall i | 0 <= i < |links| :: links[i].a != links[i].b && links[i].a in nodes && links[i].b in nodes)
    && (forall i, j | 0 <= i < j < |links| :: links[i] != links[j] && links[i] != links[j].Swapped())
    && (forall address, m, n | Claims(nodes, links, m, address) && Claims(nodes, links, n, address) :: m == n)
  }

  // ----- the tables built from them -----

  function AddRail(adj: Adjacency, a: Addr, b: Addr, rail: (Addr, Addr)): Adjacency
    requires a in adj
  {
    adj[a := adj[a][b := (if b in adj[a] then adj[a][b] else []) + [rail]]]
  }

  function AdjacencyOf(nodes: seq<Addr>, links: seq<Link>): (adj: Adjacency)
    requires forall i | 0 <= i < |links| :: links[i].a in nodes && links[i].b in nodes
    ensures adj.Keys == Members(nodes)
  {
    if links == [] then map n | n in nodes :: map[]
    else
      var l := links[|links| - 1];
      AddRail(AddRail(AdjacencyOf(nodes, links[..|links| - 1]), l.a, l.b, (l.x, l.y)), l.b, l.a, (l.y, l.x))
  }

  function OwnersOf(nodes: seq<Addr>, links: seq<Link>): map<Addr, Addr> {
    if links == [] then map n | n in nodes :: n
    else
      var l := links[|links| - 1];
      OwnersOf(nodes, links[..|links| - 1])[l.x := l.a][l.y := l.b]
  }

  /** The least peer address among parallel rails: one deterministic rail. */
  function LeastPeer(rails: seq<(Addr, Addr)>): (y: Addr)
    requires rails != []
    ensures exists i :: 0 <= i < |rails| && rails[i].1 == y
    ensures forall i | 0 <= i < |rails| :: y <= rails[i].1
  {
    var last := rails[|rails| - 1].1;
    if |rails| == 1 then last
    else
      var y := LeastPeer(rails[..|rails| - 1]);
      if last < y then last else y
  }

  /** No empty rail lists: a neighbour is recorded with its first rail. */
  ghost predicate Railed(adj: Adjacency) {
    forall a, b | a in adj && b in adj[a] :: adj[a][b] != []
  }

  function TableOf(adj: Adjacency): Graph
    requires Railed(adj)
  {
    map a | a in adj :: map b | b in adj[a] :: LeastPeer(adj[a][b])
  }

  ghost predicate HasRail(adj: Adjacency, a: Addr, x: Addr, b: Addr, y: Addr) {
    a in adj && b in adj[a] && (x, y) in adj[a][b]
  }

  /** Rails recorded are exactly the links, seen from both ends. */
  ghost predicate Records(adj: Adjacency, nodes: seq<Addr>, links: seq<Link>) {
    && adj.Keys == Members(nodes) && Railed(adj)
    && forall a, x, b, y :: HasRail(adj, a, x, b, y) <==> Joins(links, a, x, b, y)
  }

  lemma AddRailKeeps(adj: Adjacency, a: Addr, b: Addr, rail: (Addr, Addr))
    requires a in adj && Railed(adj)
    ensures Railed(AddRail(adj, a, b, rail)) && AddRail(adj, a, b, rail).Keys == adj.Keys
  {
  }

  lemma AddRailAdds(adj: Adjacency, a: Addr, b: Addr, rail: (Addr, Addr), p: Addr, x: Addr, q: Addr, y: Addr)
    requires a in adj && Railed(adj)
    ensures HasRail(AddRail(adj, a, b, rail), p, x, q, y)
       <==> HasRail(adj, p, x, q, y) || (p == a && q == b && (x, y) == rail)
  {
  }

  lemma {:induction false} AdjacencyRecords(nodes: seq<Addr>, links: seq<Link>)
    requires forall i | 0 <= i < |links| :: links[i].a in nodes && links[i].b in nodes
    ensures Records(AdjacencyOf(nodes, links), nodes, links)
  {
    if links != [] {
      var front, l := links[..|links| - 1], links[|links| - 1];
      AdjacencyRecords(nodes, front);
      var adj0 := AdjacencyOf(nodes, front);
      var adj1 := AddRail(adj0, l.a, l.b, (l.x, l.y));
      var adj2 := AddRail(adj1, l.b, l.a, (l.y, l.x));
      assert adj2 == AdjacencyOf(nodes, links);
      AddRailKeeps(adj0, l.a, l.b, (l.x, l.y));
      AddRailKeeps(adj1, l.b, l.a, (l.y, l.x));
      assert links == front + [l];
      hide HasRail, Railed, AddRail, AdjacencyOf;
      forall a, x, b, y
        ensures HasRail(adj2, a, x, b, y) <==> Joins(links, a, x, b, y)
      {
        AddRailAdds(adj0, l.a, l.b, (l.x, l.y), a, x, b, y);
        AddRailAdds(adj1, l.b, l.a, (l.y, l.x), a, x, b, y);
        JoinsOneMore(front, l, a, x, b, y);
      }
    }
  }

  lemma JoinsOneMore(links: seq<Link>, l: Link, a: Addr, x: Addr, b: Addr, y: Addr)
    ensures Joins(links + [l], a, x, b, y)
            <==> Joins(links, a, x, b, y) || l == Link(a, x, b, y) || l == Link(b, y, a, x)
  {
  }

  lemma RailAt(adj: Adjacency, a: Addr, b: Addr, i: nat)
    requires a in adj && b in adj[a] && i < |adj[a][b]|
    ensures HasRail(adj, a, adj[a][b][i].0, b, adj[a][b][i].1)
  {
    assert adj[a][b][i] == (adj[a][b][i].0, adj[a][b][i].1);
  }

  /** A table entry is the least of the peer's link addresses towards the node. */
  lemma TableEntry(adj: Adjacency, nodes: seq<Addr>, links: seq<Link>, a: Addr, b: Addr)
    requires Records(adj, nodes, links) && a in adj
    ensures b in TableOf(adj)[a] <==> exists x, y :: Joins(links, a, x, b, y)
    ensures b in TableOf(adj)[a] ==>
              && (exists x :: Joins(links, a, x, b, TableOf(adj)[a][b]))
              && forall x, y | Joins(links, a, x, b, y) :: TableOf(adj)[a][b] <= y
  {
    if b in adj[a] {
      var rails := adj[a][b];
      var i :| 0 <= i < |rails| && rails[i].1 == LeastPeer(rails);
      RailAt(adj, a, b, i);
      forall x, y | Joins(links, a, x, b, y)
        ensures LeastPeer(rails) <= y
      {
        assert HasRail(adj, a, x, b, y);
        var k :| 0 <= k < |rails| && rails[k] == (x, y);
      }
    }
    assert forall x, y :: HasRail(adj, a, x, b, y) <==> Joins(links, a, x, b, y);
  }

  lemma TableSymmetric(adj: Adjacency, nodes: seq<Addr>, links: seq<Link>)
    requires Records(adj, nodes, links) && forall l | l in links :: l.a != l.b && l.a in nodes && l.b in nodes
    ensures Symmetric(TableOf(adj)) && TableOf(adj).Keys == Members(nodes)
  {
    var g := TableOf(adj);
    forall a, b | a in g && b in g[a]
      ensures b in g && a != b && a in g[b]
    {
      TableEntry(adj, nodes, links, a, b);
      var x, y :| Joins(links, a, x, b, y);
      assert Joins(links, b, y, a, x);
      TableEntry(adj, nodes, links, b, a);
    }
  }

  /** The table, and with it every copy path, does not depend on the order in which links are listed. */
  lemma TableIgnoresOrder(adj: Adjacency, adj': Adjacency, nodes: seq<Addr>, nodes': seq<Addr>, links: seq<Link>,
                          links': seq<Link>)
    requires Records(adj, nodes, links) && Records(adj', nodes', links') && Members(nodes) == Members(nodes')
    requires forall a, x, b, y :: Joins(links, a, x, b, y) <==> Joins(links', a, x, b, y)
    ensures TableOf(adj) == TableOf(adj')
  {
    var g, g' := TableOf(adj), TableOf(adj');
    forall a | a in g
      ensures a in g' && g[a] == g'[a]
    {
      forall b
        ensures b in g[a] <==> b in g'[a]
        ensures b in g[a] && b in g'[a] ==> g[a][b] == g'[a][b]
      {
        TableEntry(adj, nodes, links, a, b);
        TableEntry(adj', nodes', links', a, b);
      }
    }
  }

  // ----- building a topology -----

  ghost predicate InNodes(nodes: seq<Addr>, links: seq<Link>) {
    forall i | 0 <= i < |links| :: links[i].a != links[i].b && links[i].a in nodes && links[i].b in nodes
  }

  /** A checked topology: its tables are those of its links, and every node can be reached from the first. */
  ghost predicate Valid(t: Topology) {
    && t.nodes != [] && Distinct(t.nodes) && WellFormed(t.nodes, t.links)
    && t.adj == AdjacencyOf(t.nodes, t.links) && t.owners == OwnersOf(t.nodes, t.links)
    && Records(t.adj, t.nodes, t.links) && Symmetric(Table(t)) && Table(t).Keys == Members(t.nodes)
    && Reaches(Table(t), t.nodes[0])
  }

  function Table(t: Topology): Graph
    requires Railed(t.adj)
  {
    TableOf(t.adj)
  }

  ghost predicate Reaches(g: Graph, head: Addr)
    requires Symmetric(g)
  {
    head in g && AllPaths(g, head).Keys == g.Keys
  }

  /** The rails of links seen so far give each address one owner. */
  ghost predicate OwnersRecord(owners: map<Addr, Addr>, nodes: seq<Addr>, links: seq<Link>) {
    forall address, n :: address in owners && owners[address] == n <==> Claims(nodes, links, n, address)
  }

  lemma NoLinksOwners(nodes: seq<Addr>)
    ensures OwnersRecord(OwnersOf(nodes, []), nodes, [])
  {
    assert forall a, x, b, y :: !Joins([], a, x, b, y);
  }

  lemma ClaimsOneMore(nodes: seq<Addr>, links: seq<Link>, l: Link, n: Addr, address: Addr)
    ensures Claims(nodes, links + [l], n, address)
       <==> Claims(nodes, links, n, address) || (n == l.a && address == l.x) || (n == l.b && address == l.y)
  {
    if Claims(nodes, links + [l], n, address) && !(n == address && n in nodes) {
      var b, y :| Joins(links + [l], n, address, b, y);
      JoinsOneMore(links, l, n, address, b, y);
    }
    if Claims(nodes, links, n, address) && !(n == address && n in nodes) {
      var b, y :| Joins(links, n, address, b, y);
      JoinsOneMore(links, l, n, address, b, y);
    }
    JoinsOneMore(links, l, l.a, l.x, l.b, l.y);
    JoinsOneMore(links, l, l.b, l.y, l.a, l.x);
  }

  lemma OwnersOneMore(owners: map<Addr, Addr>, nodes: seq<Addr>, links: seq<Link>, l: Link)
    requires OwnersRecord(owners, nodes, links)
    requires (l.x in owners ==> owners[l.x] == l.a) && (l.y in owners ==> owners[l.y] == l.b)
             && (l.x == l.y ==> l.a == l.b)
    ensures OwnersRecord(owners[l.x := l.a][l.y := l.b], nodes, links + [l])
  {
    var next := owners[l.x := l.a][l.y := l.b];
    forall address, n
      ensures address in next && next[address] == n <==> Claims(nodes, links + [l], n, address)
    {
      ClaimsOneMore(nodes, links, l, n, address);
    }
  }

  lemma OwnersAreUnique(owners: map<Addr, Addr>, nodes: seq<Addr>, links: seq<Link>)
    requires OwnersRecord(owners, nodes, links)
    ensures forall address, m, n | Claims(nodes, links, m, address) && Claims(nodes, links, n, address) :: m == n
  {
  }

  /** Why a list of links is refused, or nothing. */
  ghost predicate Refused(fault: Fault, nodes: seq<Addr>, links: seq<Link>) {
    match fault
    case BadNodes => nodes == [] || !Distinct(nodes)
    case BadLink => exists l :: l in links && l.a == l.b
    case UnknownNode => exists l :: l in links && (l.a !in nodes || l.b !in nodes)
    case SharedAddress =>
      exists address, m, n :: m != n && Claims(nodes, links, m, address) && Claims(nodes, links, n, address)
    case DuplicateLink =>
      exists i, j :: 0 <= i < j < |links| && (links[i] == links[j] || links[i] == links[j].Swapped())
    case _ => false
  }

  method CheckNodes(nodes: seq<Addr>) returns (ok: bool)
    ensures ok <==> nodes != [] && Distinct(nodes)
  {
    if |Members(nodes)| == |nodes| {
      SizeMeansDistinct(nodes);
      return nodes != [];
    }
    if Distinct(nodes) {
      DistinctSize(nodes);
    }
    return false;
  }

  lemma {:induction false} SizeMeansDistinct(order: seq<Addr>)
    requires |Members(order)| == |order|
    ensures Distinct(order)
  {
    if order != [] {
      var front, last := order[..|order| - 1], order[|order| - 1];
      assert Members(order) == Members(front) + {last};
      MembersSize(front);
      SizeMeansDistinct(front);
      assert last !in Members(front);
    }
  }

  lemma {:induction false} MembersSize(order: seq<Addr>)
    ensures |Members(order)| <= |order|
  {
    if order != [] {
      var front, last := order[..|order| - 1], order[|order| - 1];
      MembersSize(front);
      assert Members(order) == Members(front) + {last};
    }
  }
}
