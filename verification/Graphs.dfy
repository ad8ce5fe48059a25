/**
 * Breadth-first copy paths and ring walks over the neighbour table of a cluster.
 * A node's table gives, for each neighbour, the link address used to reach it.
 */
module Graphs {
  type Addr = int

  type Graph = map<Addr, map<Addr, Addr>>

  /** One hop of a copy path: the node reached and the link address dialled. */
  type Hop = (Addr, Addr)

  type Paths = map<Addr, seq<Hop>>

  /** Neighbours are nodes, never the node itself, and know each other. */
  ghost predicate Symmetric(g: Graph) {
    forall a, b | a in g && b in g[a] :: b in g && a != b && a in g[b]
  }

  lemma PeerIsNode(g: Graph, node: Addr, peer: Addr)
    requires Symmetric(g) && node in g && peer in g[node]
    ensures peer in g && peer != node && node in g[peer]
  {
  }

  // ----- ascending order -----

  function Least(s: set<Addr>): (m: Addr)
    requires s != {}
    ensures m in s && forall x | x in s :: m <= x
  {
    LeastExists(s);
    var m :| m in s && forall x | x in s :: m <= x;
    m
  }

  lemma {:induction false} FindLeast(s: set<Addr>) returns (m: Addr)
    requires s != {}
    ensures m in s && forall x | x in s :: m <= x
  {
    if x: Addr :| x in s {
      var t := s - {x};
      m := x;
      if t != {} {
        var n := FindLeast(t);
        m := if n < x then n else x;
      }
      assert forall z | z in s :: z == x || z in t;
    } else {
      assert forall x: Addr :: x !in s;
      assert false;
    }
  }

  lemma LeastExists(s: set<Addr>)
    requires s != {}
    ensures exists m :: m in s && forall x | x in s :: m <= x
  {
    var m := FindLeast(s);
  }

  function Ascending(s: set<Addr>): (r: seq<Addr>)
    ensures forall x :: x in r <==> x in s
    ensures |r| == |s|
    ensures forall i, j | 0 <= i < j < |r| :: r[i] < r[j]
  {
    if s == {} then []
    else
      var least := Least(s);
      var rest := Ascending(s - {least});
      LeastFirst(s, least, rest);
      [least] + rest
  }

  lemma LeastFirst(s: set<Addr>, least: Addr, rest: seq<Addr>)
    requires least in s && (forall x | x in s :: least <= x) && |rest| == |s - {least}|
    requires forall x :: x in rest <==> x in s - {least}
    requires forall i, j | 0 <= i < j < |rest| :: rest[i] < rest[j]
    ensures var r := [least] + rest;
            && (forall x :: x in r <==> x in s)
            && |r| == |s|
            && (forall i, j | 0 <= i < j < |r| :: r[i] < r[j])
  {
    var r := [least] + rest;
    forall x
      ensures x in r <==> x in s
    {
      assert x in r <==> x == least || x in rest;
    }
    forall i, j | 0 <= i < j < |r|
      ensures r[i] < r[j]
    {
      var x := rest[j - 1];
      assert r[j] == x && x in rest;
    }
  }

  // ----- the search -----

  datatype Search = Search(queue: seq<Addr>, paths: Paths)

  function Found(g: Graph, node: Addr, peer: Addr, s: Search): Search
    requires node in g && node in s.paths && peer in g[node]
  {
    if peer in s.paths then s
    else Search(s.queue + [peer], s.paths[peer := s.paths[node] + [(peer, g[node][peer])]])
  }

  /** Look at the neighbours `peers` of `node` in turn, recording and queueing the new ones. */
  function Expand(g: Graph, node: Addr, peers: seq<Addr>, s: Search): (r: Search)
    requires node in g && node in s.paths && forall p | p in peers :: p in g[node]
    ensures s.paths.Keys <= r.paths.Keys
  {
    if peers == [] then s else Expand(g, node, peers[1..], Found(g, node, peers[0], s))
  }

  ghost predicate Proper(g: Graph, s: Search) {
    && s.paths.Keys <= g.Keys
    && forall q | q in s.queue :: q in s.paths
  }

  lemma {:induction false} ExpandProper(g: Graph, node: Addr, peers: seq<Addr>, s: Search)
    requires Symmetric(g) && Proper(g, s) && node in s.paths && forall p | p in peers :: p in g[node]
    ensures Proper(g, Expand(g, node, peers, s))
    ensures Expand(g, node, peers, s).queue == s.queue || s.paths.Keys != Expand(g, node, peers, s).paths.Keys
    decreases |peers|
  {
    if peers != [] {
      var next := Found(g, node, peers[0], s);
      assert peers[0] in peers;
      assert Proper(g, next);
      ExpandProper(g, node, peers[1..], next);
      assert next == s || (peers[0] in next.paths && peers[0] !in s.paths);
    }
  }

  lemma SubsetSize<T>(b: set<T>, a: set<T>)
    requires b <= a
    ensures |b| <= |a| && (|b| == |a| ==> b == a)
  {
    var rest := a - b;
    assert a == b + rest && b !! rest;
  }

  lemma FewerLeft<T>(all: set<T>, before: set<T>, after: set<T>)
    requires before <= after <= all
    ensures |all - after| <= |all - before|
    ensures before != after ==> |all - after| < |all - before|
  {
    SubsetSize(all - after, all - before);
    if before != after {
      var x :| x in after && x !in before;
      assert x in all - before && x !in all - after;
    }
  }

  function Bfs(g: Graph, s: Search): (r: Paths)
    requires Symmetric(g) && Proper(g, s)
    decreases |g.Keys - s.paths.Keys|, |s.queue|
  {
    if s.queue == [] then s.paths
    else
      var node := s.queue[0];
      var popped := s.(queue := s.queue[1..]);
      var next := Expand(g, node, Ascending(g[node].Keys), popped);
      ExpandProper(g, node, Ascending(g[node].Keys), popped);
      FewerLeft(g.Keys, s.paths.Keys, next.paths.Keys);
      Bfs(g, next)
  }

  function AllPaths(g: Graph, head: Addr): Paths
    requires Symmetric(g) && head in g
  {
    Bfs(g, Search([head], map[head := []]))
  }

  // ----- what the search keeps -----

  /** The node a path comes from just before its last hop. */
  function Before(head: Addr, path: seq<Hop>): Addr
    requires path != []
  {
    if |path| == 1 then head else path[|path| - 2].0
  }

  /** The path to `v` extends the path of a neighbour by the neighbour's own link to `v`. */
  ghost predicate Extends(g: Graph, head: Addr, paths: Paths, v: Addr)
    requires v in paths
  {
    var p := paths[v];
    && p != [] && p[|p| - 1].0 == v
    && var u := Before(head, p);
    && u in paths && u in g && v in g[u]
    && p[|p| - 1].1 == g[u][v]
    && paths[u] == p[..|p| - 1]
  }

  /** Every path starts at the head, follows links, and has all its prefixes as paths of their own. */
  ghost predicate Rooted(g: Graph, head: Addr, paths: Paths) {
    && head in paths && head in g && paths[head] == []
    && paths.Keys <= g.Keys
    && forall v | v in paths && v != head :: Extends(g, head, paths, v)
  }

  ghost predicate Explored(g: Graph, paths: Paths, v: Addr)
    requires v in paths && v in g
  {
    forall w | w in g[v] :: w in paths && |paths[w]| <= |paths[v]| + 1
  }

  /** The queue holds distinct known nodes, nearest first, at distance `level` or one more. */
  ghost predicate Levelled(s: Search, level: nat) {
    && (forall i | 0 <= i < |s.queue| :: s.queue[i] in s.paths && level <= |s.paths[s.queue[i]]| <= level + 1)
    && (forall i, j | 0 <= i < j < |s.queue| ::
          s.queue[i] != s.queue[j] && |s.paths[s.queue[i]]| <= |s.paths[s.queue[j]]|)
  }

  /** While `node` is being expanded at distance `level`. */
  ghost predicate Expanding(g: Graph, head: Addr, node: Addr, level: nat, s: Search) {
    && Rooted(g, head, s.paths) && Levelled(s, level)
    && node in s.paths && node !in s.queue && |s.paths[node]| == level
    && (forall v | v in s.paths :: |s.paths[v]| <= level + 1)
    && (forall v | v in s.paths && v !in s.queue :: |s.paths[v]| <= level && (v == node || Explored(g, s.paths, v)))
  }

  /** Between expansions: everything off the queue is explored and no farther than the queue's front. */
  ghost predicate Searching(g: Graph, head: Addr, s: Search) {
    && Rooted(g, head, s.paths)
    && (forall v | v in s.paths && v !in s.queue :: Explored(g, s.paths, v))
    && (s.queue != [] ==>
          && s.queue[0] in s.paths
          && Levelled(s, |s.paths[s.queue[0]]|)
          && (forall v | v in s.paths && v !in s.queue :: |s.paths[v]| <= |s.paths[s.queue[0]]|))
  }

  lemma FoundRooted(g: Graph, head: Addr, node: Addr, peer: Addr, s: Search)
    requires Rooted(g, head, s.paths) && node in s.paths && peer in g && peer in g[node] && peer !in s.paths
    ensures Rooted(g, head, Found(g, node, peer, s).paths)
  {
    var paths := Found(g, node, peer, s).paths;
    var p := paths[peer];
    assert p[..|p| - 1] == s.paths[node];
    assert Before(head, p) == node by {
      if node != head {
        assert Extends(g, head, s.paths, node);
      } else {
        assert |p| == 1;
      }
    }
    forall v | v in paths && v != head && v != peer
      ensures Extends(g, head, paths, v)
    {
      assert Extends(g, head, s.paths, v);
    }
  }

  lemma FoundLevelled(g: Graph, head: Addr, node: Addr, level: nat, peer: Addr, s: Search)
    requires node in g && node in s.paths && peer in g[node] && peer !in s.paths
    requires Levelled(s, level) && |s.paths[node]| == level
    ensures Levelled(Found(g, node, peer, s), level)
  {
  }

  lemma FoundExplored(g: Graph, node: Addr, peer: Addr, s: Search, v: Addr)
    requires node in g && node in s.paths && peer in g[node] && peer !in s.paths
    requires v in s.paths && v in g && Explored(g, s.paths, v)
    ensures Explored(g, Found(g, node, peer, s).paths, v)
  {
  }

  lemma FoundExpanding(g: Graph, head: Addr, node: Addr, level: nat, peer: Addr, s: Search)
    requires Symmetric(g) && Expanding(g, head, node, level, s) && peer in g[node]
    ensures Expanding(g, head, node, level, Found(g, node, peer, s)) && peer in Found(g, node, peer, s).paths
  {
    assert node in g.Keys && s.paths.Keys <= g.Keys;
    PeerIsNode(g, node, peer);
    hide Rooted, Levelled, Explored, Symmetric;
    if peer !in s.paths {
      FoundRooted(g, head, node, peer, s);
      FoundLevelled(g, head, node, level, peer, s);
      var next := Found(g, node, peer, s);
      assert |next.paths[peer]| == level + 1;
      assert next.paths[node] == s.paths[node];
      assert next.queue[|s.queue|] == peer;
      assert forall i | 0 <= i < |s.queue| :: next.queue[i] == s.queue[i];
      forall v | v in next.paths && v !in next.queue && v != node
        ensures |next.paths[v]| <= level && Explored(g, next.paths, v)
      {
        assert v in s.paths && v !in s.queue;
        FoundExplored(g, node, peer, s, v);
      }
    }
  }

  lemma {:induction false} ExpandExpanding(g: Graph, head: Addr, node: Addr, level: nat, peers: seq<Addr>, s: Search)
    requires Symmetric(g) && Expanding(g, head, node, level, s) && forall p | p in peers :: p in g[node]
    ensures var r := Expand(g, node, peers, s);
            && Expanding(g, head, node, level, r)
            && (forall p | p in peers :: p in r.paths)
    decreases |peers|
  {
    if peers != [] {
      FoundExpanding(g, head, node, level, peers[0], s);
      var next := Found(g, node, peers[0], s);
      ExpandExpanding(g, head, node, level, peers[1..], next);
      forall p | p in peers
        ensures p in Expand(g, node, peers, s).paths
      {
        assert p == peers[0] || p in peers[1..];
      }
    }
  }

  lemma PopExpanding(g: Graph, head: Addr, s: Search)
    requires Searching(g, head, s) && s.queue != []
    ensures Expanding(g, head, s.queue[0], |s.paths[s.queue[0]]|, s.(queue := s.queue[1..]))
  {
    var node, next := s.queue[0], s.(queue := s.queue[1..]);
    assert s.queue == [node] + next.queue;
    forall v | v in s.paths
      ensures |s.paths[v]| <= |s.paths[node]| + 1
    {
      if v in s.queue {
        var i :| 0 <= i < |s.queue| && s.queue[i] == v;
      }
    }
  }

  lemma ExpandedSearching(g: Graph, head: Addr, node: Addr, level: nat, s: Search)
    requires Expanding(g, head, node, level, s) && forall p | p in g[node] :: p in s.paths
    ensures Searching(g, head, s)
  {
    if s.queue != [] {
      var front := s.queue[0];
      forall i | 0 <= i < |s.queue|
        ensures |s.paths[front]| <= |s.paths[s.queue[i]]| <= |s.paths[front]| + 1
      {
      }
    }
  }

  lemma {:induction false} BfsKeeps(g: Graph, head: Addr, s: Search)
    requires Symmetric(g) && Proper(g, s) && Searching(g, head, s)
    ensures Rooted(g, head, Bfs(g, s)) && forall v | v in Bfs(g, s) :: Explored(g, Bfs(g, s), v)
    decreases |g.Keys - s.paths.Keys|, |s.queue|
  {
    if s.queue != [] {
      hide Searching, Expanding, Rooted, Explored, Symmetric, Expand;
      var node := s.queue[0];
      var peers := Ascending(g[node].Keys);
      var popped := s.(queue := s.queue[1..]);
      var next := Expand(g, node, peers, popped);
      PopExpanding(g, head, s);
      ExpandProper(g, node, peers, popped);
      ExpandExpanding(g, head, node, |s.paths[node]|, peers, popped);
      FewerLeft(g.Keys, s.paths.Keys, next.paths.Keys);
      ExpandedSearching(g, head, node, |s.paths[node]|, next);
      BfsKeeps(g, head, next);
    }
  }

  // ----- main results on paths -----

  ghost predicate Walk(g: Graph, w: seq<Addr>) {
    && w != [] && w[0] in g
    && (|w| > 1 ==>
          && Walk(g, w[..|w| - 1])
          && w[|w| - 2] in g && w[|w| - 1] in g[w[|w| - 2]])
  }

  ghost predicate Finished(g: Graph, head: Addr, paths: Paths) {
    Rooted(g, head, paths) && forall v | v in paths :: Explored(g, paths, v)
  }

  lemma AllPathsFinished(g: Graph, head: Addr)
    requires Symmetric(g) && head in g
    ensures Finished(g, head, AllPaths(g, head))
  {
    BfsKeeps(g, head, Search([head], map[head := []]));
  }

  /** Every node a walk leads to has a path, and the path is no longer than the walk. */
  lemma {:induction false} WalksAreCovered(g: Graph, head: Addr, paths: Paths, w: seq<Addr>)
    requires Finished(g, head, paths) && Walk(g, w) && w[0] == head
    ensures w[|w| - 1] in paths && |paths[w[|w| - 1]]| <= |w| - 1
    decreases |w|
  {
    if |w| > 1 {
      var front, u, v := w[..|w| - 1], w[|w| - 2], w[|w| - 1];
      assert u in g && v in g[u];
      WalksAreCovered(g, head, paths, front);
      assert Explored(g, paths, u);
    }
  }

  function Trail(head: Addr, path: seq<Hop>): (w: seq<Addr>)
    ensures |w| == |path| + 1 && w[0] == head
  {
    if path == [] then [head] else Trail(head, path[..|path| - 1]) + [path[|path| - 1].0]
  }

  /** Each hop follows a link and dials the address its predecessor has for it. */
  ghost predicate Dialled(g: Graph, head: Addr, path: seq<Hop>) {
    path != [] ==>
      && Dialled(g, head, path[..|path| - 1])
      && var u := Before(head, path);
      && u in g && path[|path| - 1].0 in g[u] && path[|path| - 1].1 == g[u][path[|path| - 1].0]
  }

  lemma {:induction false} PathWalks(g: Graph, head: Addr, paths: Paths, v: Addr)
    requires Rooted(g, head, paths) && v in paths
    ensures Walk(g, Trail(head, paths[v])) && Trail(head, paths[v])[|paths[v]|] == v && Dialled(g, head, paths[v])
    decreases |paths[v]|
  {
    if v != head {
      assert Extends(g, head, paths, v);
      var p := paths[v];
      var u := Before(head, p);
      PathWalks(g, head, paths, u);
      var t := Trail(head, p);
      assert t[..|t| - 1] == Trail(head, paths[u]);
      assert t[|t| - 2] == u && t[|t| - 1] == v;
      assert t[0] == head;
    }
  }

  lemma PathExtends(g: Graph, head: Addr, paths: Paths, v: Addr)
    requires Rooted(g, head, paths) && v in paths && paths[v] != []
    ensures var p := paths[v];
            && p[|p| - 1].0 == v
            && Before(head, p) in paths && paths[Before(head, p)] == p[..|p| - 1]
  {
    assert Extends(g, head, paths, v);
  }

  lemma {:induction false} PrefixIsPath(g: Graph, head: Addr, paths: Paths, v: Addr, k: nat)
    requires Rooted(g, head, paths) && v in paths && k < |paths[v]|
    ensures paths[v][k].0 in paths && paths[paths[v][k].0] == paths[v][..k + 1]
    decreases |paths[v]|
  {
    hide *;
    PathExtends(g, head, paths, v);
    var p := paths[v];
    if k == |p| - 1 {
      assert p[..k + 1] == p;
    } else {
      PrefixIsPath(g, head, paths, Before(head, p), k);
      assert p[..|p| - 1][..k + 1] == p[..k + 1];
    }
  }

  /** The search reaches exactly what can be reached, by shortest paths that are walks over dialled links. */
  lemma ShortestPaths(g: Graph, head: Addr, v: Addr)
    requires Symmetric(g) && head in g
    ensures v in AllPaths(g, head) <==> exists w :: Walk(g, w) && w[0] == head && w[|w| - 1] == v
    ensures v in AllPaths(g, head) ==>
              var p := AllPaths(g, head)[v];
              && Walk(g, Trail(head, p)) && Trail(head, p)[|p|] == v && Dialled(g, head, p)
              && forall w | Walk(g, w) && w[0] == head && w[|w| - 1] == v :: |p| <= |w| - 1
  {
    AllPathsFinished(g, head);
    var paths := AllPaths(g, head);
    hide AllPaths, Finished, Walk;
    forall w | Walk(g, w) && w[0] == head && w[|w| - 1] == v
      ensures v in paths && |paths[v]| <= |w| - 1
    {
      WalksAreCovered(g, head, paths, w);
    }
    if v in paths {
      PathWalks(g, head, paths, v);
    }
  }

  /** The route to a jump host is the beginning of every route through it. */
  lemma PrefixesArePaths(g: Graph, head: Addr, v: Addr, k: nat)
    requires Symmetric(g) && head in g && v in AllPaths(g, head) && k < |AllPaths(g, head)[v]|
    ensures var p := AllPaths(g, head)[v];
            p[k].0 in AllPaths(g, head) && AllPaths(g, head)[p[k].0] == p[..k + 1]
  {
    AllPathsFinished(g, head);
    hide AllPaths;
    PrefixIsPath(g, head, AllPaths(g, head), v, k);
  }

  /** A set of nodes with the head that no link leaves holds every node with a path. */
  lemma {:induction false} ClosedSetsHoldAll(g: Graph, head: Addr, paths: Paths, s: set<Addr>, v: Addr)
    requires Rooted(g, head, paths) && head in s && v in paths
    requires forall a, b | a in s && a in g && b in g[a] :: b in s
    ensures v in s
    decreases |paths[v]|
  {
    if v != head {
      assert Extends(g, head, paths, v);
      ClosedSetsHoldAll(g, head, paths, s, Before(head, paths[v]));
    }
  }
}
