/** Checking a cluster's saved links, routing copies over them, and ordering the ranks. */
module Topologies {
  import opened Results
  import opened Graphs
  import opened Rings
  import opened LinkTables

  // ----- building -----

  method OwnAddress(owners: map<Addr, Addr>, node: Addr, address: Addr) returns (r: Result<map<Addr, Addr>, Fault>)
    ensures r.Err? <==> address in owners && owners[address] != node
    ensures r.Err? ==> r.error == SharedAddress
    ensures r.Ok? ==> r.value == owners[address := node]
  {
    if address in owners && owners[address] != node {
      return Err(SharedAddress);
    }
    return Ok(owners[address := node]);
  }

  ghost predicate NoRepeats(links: seq<Link>) {
    forall i, j | 0 <= i < j < |links| :: links[i] != links[j] && links[i] != links[j].Swapped()
  }

  /** The checks of one link against those before it, in the program's order. */
  method AddLink(nodes: seq<Addr>, before: seq<Link>, owners: map<Addr, Addr>, l: Link)
    returns (r: Result<map<Addr, Addr>, Fault>)
    requires OwnersRecord(owners, nodes, before)
    requires InNodes(nodes, before) && NoRepeats(before) && owners == OwnersOf(nodes, before)
    ensures r.Ok? ==> InNodes(nodes, before + [l]) && NoRepeats(before + [l])
                      && OwnersRecord(r.value, nodes, before + [l]) && r.value == OwnersOf(nodes, before + [l])
    ensures r.Err? ==> Refused(r.error, nodes, before + [l])
  {
    if l.a == l.b {
      assert (before + [l])[|before|] == l;
      return Err(BadLink);
    }
    if l.a !in nodes || l.b !in nodes {
      assert (before + [l])[|before|] == l;
      return Err(UnknownNode);
    }
    var first := OwnAddress(owners, l.a, l.x);
    if first.Err? {
      ClaimsOneMore(nodes, before, l, l.a, l.x);
      ClaimsOneMore(nodes, before, l, owners[l.x], l.x);
      return Err(SharedAddress);
    }
    var second := OwnAddress(first.value, l.b, l.y);
    if second.Err? {
      ClaimsOneMore(nodes, before, l, l.b, l.y);
      ClaimsOneMore(nodes, before, l, first.value[l.y], l.y);
      return Err(SharedAddress);
    }
    if l in before || l.Swapped() in before {
      ghost var i :| 0 <= i < |before| && (before[i] == l || before[i] == l.Swapped());
      assert (before + [l])[i] == before[i] && (before + [l])[|before|] == l;
      return Err(DuplicateLink);
    }
    OwnersOneMore(owners, nodes, before, l);
    assert (before + [l])[..|before|] == before;
    return Ok(second.value);
  }

  lemma RefusedStays(fault: Fault, nodes: seq<Addr>, front: seq<Link>, links: seq<Link>)
    requires front <= links && Refused(fault, nodes, front)
    ensures Refused(fault, nodes, links)
  {
    match fault
    case SharedAddress =>
      var address, m, n :| m != n && Claims(nodes, front, m, address) && Claims(nodes, front, n, address);
      ClaimsStay(nodes, front, links, m, address);
      ClaimsStay(nodes, front, links, n, address);
    case DuplicateLink =>
      var i, j :| 0 <= i < j < |front| && (front[i] == front[j] || front[i] == front[j].Swapped());
      assert links[i] == front[i] && links[j] == front[j];
    case _ =>
  }

  lemma ClaimsStay(nodes: seq<Addr>, front: seq<Link>, links: seq<Link>, n: Addr, address: Addr)
    requires front <= links && Claims(nodes, front, n, address)
    ensures Claims(nodes, links, n, address)
  {
    if !(n == address && n in nodes) {
      var b, y :| Joins(front, n, address, b, y);
      assert Joins(links, n, address, b, y);
    }
  }

  /** The node list and links pass every check short of connectivity. */
  ghost predicate Acceptable(nodes: seq<Addr>, links: seq<Link>) {
    nodes != [] && Distinct(nodes) && InNodes(nodes, links) && WellFormed(nodes, links)
  }

  lemma AcceptableNotRefused(fault: Fault, nodes: seq<Addr>, links: seq<Link>)
    requires Acceptable(nodes, links)
    ensures !Refused(fault, nodes, links)
  {
  }

  /** All but connectivity: the tables, or why the links are refused. */
  method Tables(nodes: seq<Addr>, links: seq<Link>) returns (r: Result<(Adjacency, map<Addr, Addr>), Fault>)
    ensures r.Ok? ==> Acceptable(nodes, links) && r.value == (AdjacencyOf(nodes, links), OwnersOf(nodes, links))
    ensures r.Err? ==> Refused(r.error, nodes, links)
  {
    var ok := CheckNodes(nodes);
    if !ok {
      return Err(BadNodes);
    }
    var adj: Adjacency := map n | n in nodes :: map[];
    var owners := map n | n in nodes :: n;
    NoLinksOwners(nodes);
    assert TabledUpTo(nodes, links[..0], adj, owners);
    hide *;
    for k := 0 to |links|
      invariant TabledUpTo(nodes, links[..k], adj, owners)
    {
      var l := links[k];
      assert links[..k + 1] == links[..k] + [l];
      var next := TableLink(nodes, links[..k], adj, owners, l);
      if next.Err? {
        RefusedStays(next.error, nodes, links[..k + 1], links);
        return Err(next.error);
      }
      adj, owners := next.value.0, next.value.1;
    }
    assert links[..|links|] == links;
    TabledIsAcceptable(nodes, links, adj, owners);
    return Ok((adj, owners));
  }

  /** The tables of the links so far, which have passed every check. */
  ghost predicate TabledUpTo(nodes: seq<Addr>, links: seq<Link>, adj: Adjacency, owners: map<Addr, Addr>) {
    && InNodes(nodes, links) && NoRepeats(links)
    && owners == OwnersOf(nodes, links) && OwnersRecord(owners, nodes, links)
    && adj == AdjacencyOf(nodes, links)
  }

  method TableLink(nodes: seq<Addr>, before: seq<Link>, adj: Adjacency, owners: map<Addr, Addr>, l: Link)
    returns (r: Result<(Adjacency, map<Addr, Addr>), Fault>)
    requires TabledUpTo(nodes, before, adj, owners)
    ensures r.Ok? ==> TabledUpTo(nodes, before + [l], r.value.0, r.value.1)
    ensures r.Err? ==> Refused(r.error, nodes, before + [l])
  {
    hide OwnersRecord, OwnersOf, AdjacencyOf, NoRepeats, Refused;
    var next := AddLink(nodes, before, owners, l);
    if next.Err? {
      return Err(next.error);
    }
    AdjacencyOneMore(nodes, before, l);
    return Ok((AddRail(AddRail(adj, l.a, l.b, (l.x, l.y)), l.b, l.a, (l.y, l.x)), next.value));
  }

  lemma TabledIsAcceptable(nodes: seq<Addr>, links: seq<Link>, adj: Adjacency, owners: map<Addr, Addr>)
    requires TabledUpTo(nodes, links, adj, owners) && nodes != [] && Distinct(nodes)
    ensures Acceptable(nodes, links) && adj == AdjacencyOf(nodes, links) && owners == OwnersOf(nodes, links)
  {
    OwnersAreUnique(owners, nodes, links);
    hide Claims, AdjacencyOf, OwnersOf, OwnersRecord, Distinct;
  }

  lemma AdjacencyOneMore(nodes: seq<Addr>, links: seq<Link>, l: Link)
    requires InNodes(nodes, links + [l]) && InNodes(nodes, links)
    ensures l.a in AdjacencyOf(nodes, links) && l.b in AdjacencyOf(nodes, links)
    ensures AdjacencyOf(nodes, links + [l])
         == AddRail(AddRail(AdjacencyOf(nodes, links), l.a, l.b, (l.x, l.y)), l.b, l.a, (l.y, l.x))
  {
    assert (links + [l])[..|links|] == links && (links + [l])[|links|] == l;
  }

  // ----- copy paths -----

  lemma FullMeansAll(g: Graph, paths: Paths)
    requires paths.Keys <= g.Keys
    ensures |paths| == |g| <==> paths.Keys == g.Keys
  {
    SubsetSize(paths.Keys, g.Keys);
    assert |paths| == |paths.Keys| && |g| == |g.Keys|;
  }

  /** One node's turn: its neighbours in address order, new ones recorded by their least rail and queued. */
  method Visit(adj: Adjacency, node: Addr, queue: seq<Addr>, paths: Paths) returns (queue': seq<Addr>, paths': Paths)
    requires Railed(adj) && node in adj && node in paths
    ensures Graphs.Search(queue', paths')
         == Expand(TableOf(adj), node, Ascending(TableOf(adj)[node].Keys), Graphs.Search(queue, paths))
  {
    hide Expand, Ascending;
    ghost var g := TableOf(adj);
    var peers := Ascending(adj[node].Keys);
    assert adj[node].Keys == g[node].Keys;
    ghost var next := Expand(g, node, peers, Graphs.Search(queue, paths));
    queue', paths' := queue, paths;
    assert peers[0..] == peers;
    for k := 0 to |peers|
      invariant node in paths' && forall p | p in peers[k..] :: p in g[node]
      invariant Expand(g, node, peers[k..], Graphs.Search(queue', paths')) == next
    {
      var peer := peers[k];
      assert peers[k..][1..] == peers[k + 1..] && peers[k..][0] == peer;
      ExpandStep(g, node, peers[k..], Graphs.Search(queue', paths'));
      assert peer in g[node];
      if peer !in paths' {
        paths' := paths'[peer := paths'[node] + [(peer, LeastPeer(adj[node][peer]))]];
        queue' := queue' + [peer];
      }
    }
    ExpandNone(g, node, peers[|peers|..], Graphs.Search(queue', paths'));
  }

  /** The breadth-first search over the rail lists themselves. */
  method Search(adj: Adjacency, head: Addr) returns (paths: Paths)
    requires Railed(adj) && Symmetric(TableOf(adj)) && head in adj
    ensures paths == AllPaths(TableOf(adj), head)
  {
    ghost var g := TableOf(adj);
    assert g.Keys == adj.Keys;
    hide Expand, AllPaths, Symmetric, TableOf;
    paths := map[head := []];
    var queue := [head];
    BfsStart(g, head);
    while queue != []
      invariant Proper(g, Graphs.Search(queue, paths))
      invariant Bfs(g, Graphs.Search(queue, paths)) == AllPaths(g, head)
      decreases |g.Keys - paths.Keys|, |queue|
    {
      BfsStep(g, Graphs.Search(queue, paths));
      BfsShrinks(g, Graphs.Search(queue, paths));
      assert queue[0] in queue;
      queue, paths := Visit(adj, queue[0], queue[1..], paths);
    }
  }

  lemma BfsStart(g: Graph, head: Addr)
    requires Symmetric(g) && head in g
    ensures Proper(g, Graphs.Search([head], map[head := []]))
    ensures Bfs(g, Graphs.Search([head], map[head := []])) == AllPaths(g, head)
  {
  }

  ghost function Next(g: Graph, s: Graphs.Search): Graphs.Search
    requires Proper(g, s) && s.queue != []
  {
    Expand(g, s.queue[0], Ascending(g[s.queue[0]].Keys), s.(queue := s.queue[1..]))
  }

  lemma BfsStep(g: Graph, s: Graphs.Search)
    requires Symmetric(g) && Proper(g, s) && s.queue != []
    ensures Proper(g, Next(g, s)) && Bfs(g, Next(g, s)) == Bfs(g, s)
  {
    ExpandProper(g, s.queue[0], Ascending(g[s.queue[0]].Keys), s.(queue := s.queue[1..]));
  }

  lemma BfsShrinks(g: Graph, s: Graphs.Search)
    requires Symmetric(g) && Proper(g, s) && s.queue != []
    ensures |g.Keys - Next(g, s).paths.Keys| <= |g.Keys - s.paths.Keys|
    ensures |g.Keys - Next(g, s).paths.Keys| == |g.Keys - s.paths.Keys| ==> |Next(g, s).queue| < |s.queue|
  {
    ExpandProper(g, s.queue[0], Ascending(g[s.queue[0]].Keys), s.(queue := s.queue[1..]));
    FewerLeft(g.Keys, s.paths.Keys, Next(g, s).paths.Keys);
  }

  lemma ExpandStep(g: Graph, node: Addr, peers: seq<Addr>, s: Graphs.Search)
    requires node in g && node in s.paths && peers != [] && forall p | p in peers :: p in g[node]
    ensures Expand(g, node, peers, s) == Expand(g, node, peers[1..], Found(g, node, peers[0], s))
  {
  }

  lemma ExpandNone(g: Graph, node: Addr, peers: seq<Addr>, s: Graphs.Search)
    requires node in g && node in s.paths && peers == []
    ensures Expand(g, node, peers, s) == s
  {
  }

  lemma PathsWithin(g: Graph, head: Addr)
    requires Symmetric(g) && head in g
    ensures AllPaths(g, head).Keys <= g.Keys
  {
    AllPathsFinished(g, head);
  }

  method PathsOver(adj: Adjacency, head: Addr) returns (r: Result<Paths, Fault>)
    requires Railed(adj) && Symmetric(TableOf(adj))
    ensures r.Ok? <==> Reaches(TableOf(adj), head)
    ensures r.Ok? ==> r.value == AllPaths(TableOf(adj), head)
    ensures r.Err? ==> r.error == if head in adj then Disconnected else UnknownHead
  {
    if head !in adj {
      return Err(UnknownHead);
    }
    var paths := Search(adj, head);
    PathsWithin(TableOf(adj), head);
    FullMeansAll(TableOf(adj), paths);
    TableSize(adj);
    if |paths| != |adj| {
      return Err(Disconnected);
    }
    return Ok(paths);
  }

  lemma TableSize(adj: Adjacency)
    requires Railed(adj)
    ensures |TableOf(adj)| == |adj|
  {
    assert TableOf(adj).Keys == adj.Keys;
    assert |adj| == |adj.Keys| && |TableOf(adj)| == |TableOf(adj).Keys|;
  }

  /** A topology exists exactly for acceptable links that connect every node to the first. */
  method Build(nodes: seq<Addr>, links: seq<Link>) returns (r: Result<Topology, Fault>)
    ensures r.Ok? ==> Valid(r.value) && r.value.nodes == nodes && r.value.links == links
    ensures r.Ok? ==> Acceptable(nodes, links) && Connected(nodes, links)
    ensures r.Err? ==> Refused(r.error, nodes, links)
                       || (r.error == Disconnected && Acceptable(nodes, links) && !Connected(nodes, links))
  {
    var tables := Tables(nodes, links);
    if tables.Err? {
      return Err(tables.error);
    }
    var (adj, owners) := tables.value;
    AcceptableTable(nodes, links);
    assert nodes[0] in Members(nodes);
    hide Symmetric, Railed, Records, WellFormed;
    var paths := PathsOver(adj, nodes[0]);
    if paths.Err? {
      return Err(paths.error);
    }
    return Ok(Topology(nodes, links, adj, owners));
  }

  /** Every node can be reached from the first over the links' table. */
  ghost predicate Connected(nodes: seq<Addr>, links: seq<Link>) {
    && nodes != [] && InNodes(nodes, links)
    && var adj := AdjacencyOf(nodes, links);
    && Railed(adj) && Symmetric(TableOf(adj)) && Reaches(TableOf(adj), nodes[0])
  }

  lemma AcceptableTable(nodes: seq<Addr>, links: seq<Link>)
    requires Acceptable(nodes, links)
    ensures Records(AdjacencyOf(nodes, links), nodes, links)
    ensures var g := TableOf(AdjacencyOf(nodes, links)); Symmetric(g) && g.Keys == Members(nodes)
  {
    AdjacencyRecords(nodes, links);
    forall l | l in links
      ensures l.a != l.b && l.a in nodes && l.b in nodes
    {
      var i :| 0 <= i < |links| && links[i] == l;
    }
    TableSymmetric(AdjacencyOf(nodes, links), nodes, links);
  }
}
