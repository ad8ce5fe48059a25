/** Which of several shortest copy paths the search takes: the first in the order of node addresses. */
module CopyOrder {
  import opened Graphs

  // ----- walks in the order of their nodes -----

  ghost predicate Less(a: seq<Addr>, b: seq<Addr>) {
    exists k :: 0 <= k < |a| && k < |b| && a[..k] == b[..k] && a[k] < b[k]
  }

  lemma LessTransitive(a: seq<Addr>, b: seq<Addr>, c: seq<Addr>)
    requires Less(a, b) && Less(b, c)
    ensures Less(a, c)
  {
    var j :| 0 <= j < |a| && j < |b| && a[..j] == b[..j] && a[j] < b[j];
    var k :| 0 <= k < |b| && k < |c| && b[..k] == c[..k] && b[k] < c[k];
    var m := if j < k then j else k;
    assert a[..m] == a[..j][..m] && b[..j][..m] == b[..m] && b[..k][..m] == b[..m] && c[..k][..m] == c[..m];
    assert j < k ==> b[..k][j] == b[j] && c[..k][j] == c[j];
    assert k < j ==> a[..j][k] == a[k] && b[..j][k] == b[k];
    assert a[m] < c[m];
  }

  lemma LessExtended(a: seq<Addr>, b: seq<Addr>, x: Addr, y: Addr)
    requires Less(a, b) || (a == b && x < y)
    ensures Less(a + [x], b + [y])
  {
    var k := |a|;
    if Less(a, b) {
      k :| 0 <= k < |a| && k < |b| && a[..k] == b[..k] && a[k] < b[k];
    }
    var p, q := a + [x], b + [y];
    assert p[..k] == a[..k] && q[..k] == b[..k];
    assert p[k] < q[k];
  }

  /** The nodes of a known path, from the head. */
  ghost function To(head: Addr, paths: Paths, v: Addr): (w: seq<Addr>)
    requires v in paths
    ensures |w| == |paths[v]| + 1
  {
    Trail(head, paths[v])
  }

  /** ... and without the last. */
  ghost function FrontTo(head: Addr, paths: Paths, v: Addr): seq<Addr>
    requires v in paths
  {
    To(head, paths, v)[..|paths[v]|]
  }

  lemma ToIs(g: Graph, head: Addr, paths: Paths, v: Addr)
    requires Rooted(g, head, paths) && v in paths && paths[v] != []
    ensures To(head, paths, v) == FrontTo(head, paths, v) + [v]
  {
    PathExtends(g, head, paths, v);
  }

  /** Nodes one step farther than `u` are reached through nodes no later than `u`. */
  ghost predicate First(g: Graph, head: Addr, paths: Paths, u: Addr)
    requires u in paths && u in g
  {
    forall w | w in g[u] && w in paths && |paths[w]| == |paths[u]| + 1 ::
      FrontTo(head, paths, w) == To(head, paths, u) || Less(FrontTo(head, paths, w), To(head, paths, u))
  }

  // ----- the search goes in this order -----

  /** The queue is in order, nearer nodes first. */
  ghost predicate InOrder(head: Addr, s: Search) {
    && (forall q | q in s.queue :: q in s.paths)
    && forall i, j | 0 <= i < j < |s.queue| ::
         || |s.paths[s.queue[i]]| < |s.paths[s.queue[j]]|
         || Less(To(head, s.paths, s.queue[i]), To(head, s.paths, s.queue[j]))
  }

  ghost predicate FirstOffQueue(g: Graph, head: Addr, s: Search, node: Addr) {
    forall u | u in s.paths && u in g && u !in s.queue && u != node :: First(g, head, s.paths, u)
  }

  /** Between expansions: the farthest nodes come from before the nearest ones still queued. */
  ghost predicate Ordered(g: Graph, head: Addr, s: Search) {
    && InOrder(head, s)
    && (forall u | u in s.paths && u in g && u !in s.queue :: First(g, head, s.paths, u))
    && (s.queue != [] ==>
          && s.queue[0] in s.paths
          && forall v, q | v in s.paths && q in s.queue && |s.paths[q]| == |s.paths[s.queue[0]]|
                           && |s.paths[v]| == |s.paths[q]| + 1 ::
               Less(FrontTo(head, s.paths, v), To(head, s.paths, q)))
  }

  /** The farthest nodes come from before `node`, or from it and before the peers still to be looked at. */
  ghost predicate FromBefore(head: Addr, node: Addr, peers: seq<Addr>, s: Search)
    requires node in s.paths
  {
    forall v | v in s.paths && |s.paths[v]| == |s.paths[node]| + 1 ::
      || Less(FrontTo(head, s.paths, v), To(head, s.paths, node))
      || (FrontTo(head, s.paths, v) == To(head, s.paths, node) && forall p | p in peers :: v < p)
  }

  ghost predicate AfterNode(head: Addr, node: Addr, s: Search)
    requires node in s.paths
  {
    forall q | q in s.queue && q in s.paths && |s.paths[q]| == |s.paths[node]| ::
      Less(To(head, s.paths, node), To(head, s.paths, q))
  }

  ghost predicate OrderedWhile(g: Graph, head: Addr, node: Addr, peers: seq<Addr>, s: Search) {
    && node in s.paths && InOrder(head, s) && AfterNode(head, node, s) && FromBefore(head, node, peers, s)
    && FirstOffQueue(g, head, s, node)
  }

  ghost predicate Rising(peers: seq<Addr>) {
    forall i, j | 0 <= i < j < |peers| :: peers[i] < peers[j]
  }

  lemma FoundPath(g: Graph, head: Addr, node: Addr, peer: Addr, s: Search)
    requires node in g && node in s.paths && peer in g[node] && peer !in s.paths
    ensures var next := Found(g, node, peer, s);
            && To(head, next.paths, peer) == To(head, s.paths, node) + [peer]
            && FrontTo(head, next.paths, peer) == To(head, s.paths, node)
            && |next.paths[peer]| == |s.paths[node]| + 1
            && forall v | v in s.paths ::
                 && To(head, next.paths, v) == To(head, s.paths, v)
                 && FrontTo(head, next.paths, v) == FrontTo(head, s.paths, v)
                 && next.paths[v] == s.paths[v]
  {
    var next := Found(g, node, peer, s);
    assert next.paths[peer][..|s.paths[node]|] == s.paths[node];
  }

  lemma FoundInOrder(g: Graph, head: Addr, node: Addr, level: nat, peers: seq<Addr>, s: Search)
    requires Symmetric(g) && Expanding(g, head, node, level, s) && OrderedWhile(g, head, node, peers, s)
    requires peers != [] && peers[0] in g[node] && peers[0] !in s.paths
    ensures InOrder(head, Found(g, node, peers[0], s))
  {
    var peer := peers[0];
    assert peer in peers;
    var next := Found(g, node, peer, s);
    FoundPath(g, head, node, peer, s);
    forall q | q in s.queue
      ensures |next.paths[q]| < |next.paths[peer]| || Less(To(head, next.paths, q), To(head, next.paths, peer))
    {
      if |s.paths[q]| == level + 1 {
        ToIs(g, head, s.paths, q);
        LessExtended(FrontTo(head, s.paths, q), To(head, s.paths, node), q, peer);
      }
    }
    hide Less, To, FrontTo;
  }

  lemma FoundFirst(g: Graph, head: Addr, node: Addr, level: nat, peer: Addr, s: Search)
    requires Symmetric(g) && Expanding(g, head, node, level, s) && FirstOffQueue(g, head, s, node)
    requires peer in g[node] && peer !in s.paths
    ensures FirstOffQueue(g, head, Found(g, node, peer, s), node)
  {
    FoundPath(g, head, node, peer, s);
    var next := Found(g, node, peer, s);
    assert peer in next.queue by {
      assert next.queue[|s.queue|] == peer;
    }
    assert forall v :: v in next.queue <==> v in s.queue || v == peer;
    hide Less, To, FrontTo, Found, Rooted, Levelled;
    forall u | u in next.paths && u in g && u !in next.queue && u != node
      ensures First(g, head, next.paths, u)
    {
      assert u in s.paths && First(g, head, s.paths, u) && Explored(g, s.paths, u);
    }
  }

  lemma FoundOrdered(g: Graph, head: Addr, node: Addr, level: nat, peers: seq<Addr>, s: Search)
    requires Symmetric(g) && Expanding(g, head, node, level, s) && OrderedWhile(g, head, node, peers, s)
    requires peers != [] && Rising(peers) && peers[0] in g[node]
    ensures OrderedWhile(g, head, node, peers[1..], Found(g, node, peers[0], s))
  {
    hide Less, To, FrontTo, Symmetric, Expanding, First, InOrder, FirstOffQueue;
    var peer, rest := peers[0], peers[1..];
    ExpandingNode(g, head, node, level, s);
    RisingRest(peers);
    if peer !in s.paths {
      FoundInOrder(g, head, node, level, peers, s);
      FoundFirst(g, head, node, level, peer, s);
      FoundPath(g, head, node, peer, s);
      FoundAfter(g, head, node, peers, s);
    }
  }

  lemma RisingRest(peers: seq<Addr>)
    requires peers != [] && Rising(peers)
    ensures forall p | p in peers[1..] :: p in peers && peers[0] < p
  {
  }

  /** A new node comes from the node being expanded, and is not as near as it. */
  lemma FoundAfter(g: Graph, head: Addr, node: Addr, peers: seq<Addr>, s: Search)
    requires node in g && node in s.paths && peers != [] && peers[0] in g[node] && peers[0] !in s.paths
    requires AfterNode(head, node, s) && FromBefore(head, node, peers, s) && Rising(peers)
    ensures AfterNode(head, node, Found(g, node, peers[0], s))
    ensures FromBefore(head, node, peers[1..], Found(g, node, peers[0], s))
  {
    var peer := peers[0];
    FoundPath(g, head, node, peer, s);
    RisingRest(peers);
    var next := Found(g, node, peer, s);
    assert forall v :: v in next.queue <==> v in s.queue || v == peer;
    hide Less, To, FrontTo, Found, Rising;
  }

  lemma ExpandingNode(g: Graph, head: Addr, node: Addr, level: nat, s: Search)
    requires Expanding(g, head, node, level, s)
    ensures node in g && node in s.paths && |s.paths[node]| == level
    ensures forall v | v in s.paths :: v in g && |s.paths[v]| <= level + 1
    ensures forall q | q in s.queue :: q in s.paths && level <= |s.paths[q]|
  {
    assert forall v | v in s.paths :: v in g.Keys;
  }

  lemma {:induction false} ExpandOrdered(g: Graph, head: Addr, node: Addr, level: nat, peers: seq<Addr>, s: Search)
    requires Symmetric(g) && Expanding(g, head, node, level, s) && OrderedWhile(g, head, node, peers, s)
    requires Rising(peers) && forall p | p in peers :: p in g[node]
    ensures OrderedWhile(g, head, node, [], Expand(g, node, peers, s))
    decreases |peers|
  {
    hide OrderedWhile, Expanding, Symmetric;
    ExpandingNode(g, head, node, level, s);
    if peers != [] {
      assert peers[0] in peers;
      FoundOrdered(g, head, node, level, peers, s);
      FoundExpanding(g, head, node, level, peers[0], s);
      ExpandOrdered(g, head, node, level, peers[1..], Found(g, node, peers[0], s));
    }
  }

  lemma PopInOrder(head: Addr, s: Search)
    requires InOrder(head, s) && s.queue != []
    ensures var node, next := s.queue[0], s.(queue := s.queue[1..]);
            node in s.paths && InOrder(head, next) && AfterNode(head, node, next)
  {
    hide Less, To;
    var node, next := s.queue[0], s.(queue := s.queue[1..]);
    assert forall i | 0 <= i < |next.queue| :: next.queue[i] == s.queue[i + 1];
    assert node in s.queue;
    forall q | q in next.queue && |s.paths[q]| == |s.paths[node]|
      ensures Less(To(head, s.paths, node), To(head, s.paths, q))
    {
      var i :| 0 <= i < |next.queue| && next.queue[i] == q;
      assert s.queue[i + 1] == q;
    }
  }

  lemma PopOrdered(g: Graph, head: Addr, peers: seq<Addr>, s: Search)
    requires Ordered(g, head, s) && s.queue != []
    ensures OrderedWhile(g, head, s.queue[0], peers, s.(queue := s.queue[1..]))
  {
    PopInOrder(head, s);
    var node, next := s.queue[0], s.(queue := s.queue[1..]);
    assert s.queue == [node] + next.queue;
    assert node in s.queue;
    hide Less, To, FrontTo, First, InOrder, AfterNode;
  }

  lemma ExpandedOrdered(g: Graph, head: Addr, node: Addr, level: nat, s: Search)
    requires Expanding(g, head, node, level, s) && OrderedWhile(g, head, node, [], s)
    ensures Ordered(g, head, s)
  {
    hide Less, To, FrontTo, Expanding;
    ExpandingNode(g, head, node, level, s);
    assert First(g, head, s.paths, node);
    hide First;
    if s.queue != [] {
      forall v, q | v in s.paths && q in s.queue && |s.paths[q]| == |s.paths[s.queue[0]]|
                    && |s.paths[v]| == |s.paths[q]| + 1
        ensures Less(FrontTo(head, s.paths, v), To(head, s.paths, q))
      {
        assert Less(To(head, s.paths, node), To(head, s.paths, q));
        if FrontTo(head, s.paths, v) != To(head, s.paths, node) {
          LessTransitive(FrontTo(head, s.paths, v), To(head, s.paths, node), To(head, s.paths, q));
        }
      }
    }
  }

  lemma {:induction false} BfsOrdered(g: Graph, head: Addr, s: Search)
    requires Symmetric(g) && Proper(g, s) && Searching(g, head, s) && Ordered(g, head, s)
    ensures forall u | u in Bfs(g, s) && u in g :: First(g, head, Bfs(g, s), u)
    decreases |g.Keys - s.paths.Keys|, |s.queue|
  {
    if s.queue != [] {
      hide Searching, Expanding, Ordered, OrderedWhile, First, Explored, Symmetric, Expand;
      var node := s.queue[0];
      var peers := Ascending(g[node].Keys);
      var popped := s.(queue := s.queue[1..]);
      var next := Expand(g, node, peers, popped);
      PopExpanding(g, head, s);
      PopOrdered(g, head, peers, s);
      ExpandProper(g, node, peers, popped);
      ExpandExpanding(g, head, node, |s.paths[node]|, peers, popped);
      ExpandOrdered(g, head, node, |s.paths[node]|, peers, popped);
      FewerLeft(g.Keys, s.paths.Keys, next.paths.Keys);
      ExpandedSearching(g, head, node, |s.paths[node]|, next);
      ExpandedOrdered(g, head, node, |s.paths[node]|, next);
      BfsOrdered(g, head, next);
    }
  }

  // ----- so does every walk -----

  lemma AllFirst(g: Graph, head: Addr)
    requires Symmetric(g) && head in g
    ensures forall u | u in AllPaths(g, head) && u in g :: First(g, head, AllPaths(g, head), u)
  {
    var s := Search([head], map[head := []]);
    assert Ordered(g, head, s);
    BfsOrdered(g, head, s);
  }

  /** A shortest walk is a shortest walk to its last node but one, and a step from there. */
  lemma ShortestFront(g: Graph, head: Addr, paths: Paths, w: seq<Addr>)
    requires Finished(g, head, paths) && |w| > 1
    requires Walk(g, w) && w[0] == head && w[|w| - 1] in paths && |paths[w[|w| - 1]]| == |w| - 1
    ensures var front, u, v := w[..|w| - 1], w[|w| - 2], w[|w| - 1];
            && Walk(g, front) && u in g && v in g[u] && u in paths && |paths[u]| == |w| - 2
            && To(head, paths, v) == FrontTo(head, paths, v) + [v] && w == front + [v]
  {
    hide To, FrontTo, Rooted, Explored;
    var front, u, v := w[..|w| - 1], w[|w| - 2], w[|w| - 1];
    assert front[|front| - 1] == u && front[0] == head;
    WalksAreCovered(g, head, paths, front);
    ExploredStep(g, paths, u, v);
    ToIs(g, head, paths, v);
    assert w == front + [v];
  }

  lemma ExploredStep(g: Graph, paths: Paths, u: Addr, v: Addr)
    requires u in paths && u in g && Explored(g, paths, u) && v in g[u]
    ensures v in paths && |paths[v]| <= |paths[u]| + 1
  {
  }

  lemma {:induction false} PathIsFirst(g: Graph, head: Addr, paths: Paths, w: seq<Addr>)
    requires Finished(g, head, paths) && forall u | u in paths && u in g :: First(g, head, paths, u)
    requires Walk(g, w) && w[0] == head && w[|w| - 1] in paths && |paths[w[|w| - 1]]| == |w| - 1
    ensures var t := To(head, paths, w[|w| - 1]); t == w || Less(t, w)
    decreases |w|
  {
    var v := w[|w| - 1];
    if |w| == 1 {
      assert w == [head];
    } else {
      hide Less, To, FrontTo, Finished, Walk;
      var front, u := w[..|w| - 1], w[|w| - 2];
      ShortestFront(g, head, paths, w);
      PathIsFirst(g, head, paths, front);
      assert First(g, head, paths, u);
      LastStep(To(head, paths, u), FrontTo(head, paths, v), front, v);
    }
  }

  lemma LastStep(middle: seq<Addr>, a: seq<Addr>, b: seq<Addr>, v: Addr)
    requires a == middle || Less(a, middle)
    requires middle == b || Less(middle, b)
    ensures a + [v] == b + [v] || Less(a + [v], b + [v])
  {
    if a != b {
      if a != middle && middle != b {
        LessTransitive(a, middle, b);
      }
      LessExtended(a, b, v, v);
    }
  }

  /** Of all shortest walks to a node, its path is the first in the order of the nodes' addresses. */
  lemma FirstOfShortest(g: Graph, head: Addr, w: seq<Addr>)
    requires Symmetric(g) && head in g && Walk(g, w) && w[0] == head
    ensures w[|w| - 1] in AllPaths(g, head)
    ensures var p := AllPaths(g, head)[w[|w| - 1]];
            |p| < |w| - 1 || (|p| == |w| - 1 && (Trail(head, p) == w || Less(Trail(head, p), w)))
  {
    AllPathsFinished(g, head);
    AllFirst(g, head);
    hide AllPaths, First, Finished, Less, Walk;
    WalksAreCovered(g, head, AllPaths(g, head), w);
    if |AllPaths(g, head)[w[|w| - 1]]| == |w| - 1 {
      PathIsFirst(g, head, AllPaths(g, head), w);
    }
  }
}
