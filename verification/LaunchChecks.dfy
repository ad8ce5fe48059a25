/** What is checked of the selected ranks before anything is deployed, and what passing means on a ring. */
module LaunchChecks {
  import opened Results
  import opened Graphs
  import opened Rings
  import opened LinkTables
  import opened Topologies
  import opened RankOrder

  type Environment = map<string, string>

  datatype LaunchFault =
    | HeadNotFirst
    | SizesNotPositive
    | TooFewNodes
    | BadOrder(fault: Fault)
    | RayOnRing
    | NotTensorOnly
    | RingSetting(key: string)

  /** Parallel sizes read from the command; without any, each is one and every node takes part. */
  datatype Sizes = Sizes(given: bool, tensor: int, pipeline: int, data: int) {
    function Ranks(): int {
      tensor * pipeline * data
    }
  }

  /** What the collectives are told on a ring. */
  const RING_SETTINGS: seq<(string, string)> := [
    ("NCCL_ALGO", "Ring"), ("NCCL_NET_PLUGIN", "none"),
    ("NCCL_IB_SUBNET_AWARE_ROUTING", "1"), ("NCCL_IB_MERGE_NICS", "0")]

  function RingEnvironment(): Environment {
    map[RING_SETTINGS[0].0 := RING_SETTINGS[0].1, RING_SETTINGS[1].0 := RING_SETTINGS[1].1,
        RING_SETTINGS[2].0 := RING_SETTINGS[2].1, RING_SETTINGS[3].0 := RING_SETTINGS[3].1]
  }

  predicate SettingAgrees(env: Environment, k: nat)
    requires k < |RING_SETTINGS|
  {
    RING_SETTINGS[k].0 in env ==> env[RING_SETTINGS[k].0] == RING_SETTINGS[k].1
  }

  // ----- the check -----

  predicate SizesFit(nodes: seq<Addr>, sizes: Sizes) {
    && sizes.tensor >= 1 && sizes.pipeline >= 1 && sizes.data >= 1
    && (sizes.given ==> 0 <= sizes.Ranks() <= |nodes|)
  }

  /** The nodes that get a rank. */
  function Selected(nodes: seq<Addr>, sizes: Sizes): seq<Addr>
    requires SizesFit(nodes, sizes)
  {
    if sizes.given then nodes[..sizes.Ranks()] else nodes
  }

  /** Ranks around a ring, and not just a pair of its neighbours. */
  predicate OnRing(t: Topology, selected: seq<Addr>)
    requires Railed(t.adj)
  {
    Ring(TableOf(t.adj)) && |selected| > 2
  }

  ghost predicate Launchable(t: Topology, nodes: seq<Addr>, sizes: Sizes, ray: bool, env: Environment)
    requires Valid(t)
  {
    && nodes != [] && nodes[0] == t.nodes[0] && SizesFit(nodes, sizes)
    && OrderAllowed(t, Selected(nodes, sizes))
    && (OnRing(t, Selected(nodes, sizes)) ==>
          && !ray && (sizes.given ==> sizes.pipeline == 1 && sizes.data == 1)
          && forall k | 0 <= k < |RING_SETTINGS| :: SettingAgrees(env, k))
  }

  lemma RanksArePositive(sizes: Sizes)
    requires sizes.tensor >= 1 && sizes.pipeline >= 1 && sizes.data >= 1
    ensures sizes.Ranks() >= 1
  {
    AtLeastOne(sizes.tensor, sizes.pipeline);
    AtLeastOne(sizes.tensor * sizes.pipeline, sizes.data);
  }

  lemma AtLeastOne(a: int, b: int)
    requires a >= 1 && b >= 1
    ensures a * b >= 1
  {
  }

  method CheckSettings(env: Environment) returns (fault: Option<LaunchFault>)
    ensures fault == None <==> forall k | 0 <= k < |RING_SETTINGS| :: SettingAgrees(env, k)
  {
    for k := 0 to |RING_SETTINGS|
      invariant forall i | 0 <= i < k :: SettingAgrees(env, i)
    {
      if !SettingAgrees(env, k) {
        return Some(RingSetting(RING_SETTINGS[k].0));
      }
    }
    return None;
  }

  /** Accepted exactly when launchable, with the settings of a ring where the ranks are around one. */
  method ValidateLaunch(t: Topology, nodes: seq<Addr>, sizes: Sizes, ray: bool, env: Environment)
    returns (r: Result<Environment, LaunchFault>)
    requires Valid(t)
    ensures r.Ok? <==> Launchable(t, nodes, sizes, ray, env)
    ensures r.Ok? ==>
              r.value == if OnRing(t, Selected(nodes, sizes)) then RingEnvironment() else map[]
  {
    hide OrderAllowed, SettingAgrees, TableOf;
    if nodes == [] || nodes[0] != t.nodes[0] {
      return Err(HeadNotFirst);
    }
    if sizes.tensor < 1 || sizes.pipeline < 1 || sizes.data < 1 {
      return Err(SizesNotPositive);
    }
    RanksArePositive(sizes);
    if sizes.given && sizes.Ranks() > |nodes| {
      return Err(TooFewNodes);
    }
    var selected := Selected(nodes, sizes);
    var fault := ValidateOrder(t, selected);
    if fault.Some? {
      return Err(BadOrder(fault.value));
    }
    if !OnRing(t, selected) {
      return Ok(map[]);
    }
    if ray {
      return Err(RayOnRing);
    }
    if sizes.given && (sizes.pipeline != 1 || sizes.data != 1) {
      return Err(NotTensorOnly);
    }
    var setting := CheckSettings(env);
    return if setting.Some? then Err(setting.value) else Ok(RingEnvironment());
  }

  // ----- what passing means on a ring -----

  lemma {:induction false} KeptIs(links: seq<Link>, nodes: seq<Addr>, l: Link)
    ensures l in Kept(links, nodes) <==> l in links && l.a in nodes && l.b in nodes
  {
    if links != [] {
      var front, last := links[..|links| - 1], links[|links| - 1];
      KeptIs(front, nodes, l);
      assert links == front + [last];
    }
  }

  /** Selected nodes keep some of their neighbours, and gain none. */
  lemma SelectionIsWithin(t: Topology, nodes: seq<Addr>, a: Addr)
    requires Valid(t) && Selectable(t, nodes) && a in nodes
    ensures Selection(t, nodes).Keys == Members(nodes) && Symmetric(Selection(t, nodes))
    ensures a in Selection(t, nodes) && a in Table(t) && Selection(t, nodes)[a].Keys <= Table(t)[a].Keys
  {
    var kept := Kept(t.links, nodes);
    AcceptableTable(nodes, kept);
    assert a in Members(nodes) && a in Members(t.nodes);
    hide AdjacencyOf, Symmetric, Acceptable, Connected, Kept;
    forall b | b in Selection(t, nodes)[a].Keys
      ensures b in Table(t)[a].Keys
    {
      TableEntry(AdjacencyOf(nodes, kept), nodes, kept, a, b);
      var x, y :| Joins(kept, a, x, b, y);
      KeptIs(t.links, nodes, Link(a, x, b, y));
      KeptIs(t.links, nodes, Link(b, y, a, x));
      assert Joins(t.links, a, x, b, y);
      TableEntry(t.adj, t.nodes, t.links, a, b);
    }
  }

  /** A table of some of a network's nodes, with some of their links. */
  ghost predicate PartOf(part: Graph, g: Graph, nodes: seq<Addr>) {
    && nodes != [] && part.Keys == Members(nodes) && |part| == |nodes| && Symmetric(part)
    && forall a | a in nodes :: a in part && a in g && part[a].Keys <= g[a].Keys
  }

  lemma SelectionIsPart(t: Topology, nodes: seq<Addr>)
    requires Valid(t) && Selectable(t, nodes)
    ensures PartOf(Selection(t, nodes), Table(t), nodes)
  {
    assert nodes[0] in nodes;
    forall a | a in nodes
      ensures a in Selection(t, nodes) && a in Table(t) && Selection(t, nodes)[a].Keys <= Table(t)[a].Keys
    {
      SelectionIsWithin(t, nodes, a);
    }
    SelectionIsWithin(t, nodes, nodes[0]);
    DistinctSize(nodes);
    assert |Selection(t, nodes)| == |Selection(t, nodes).Keys|;
    hide Symmetric, Selection, TableOf, Connected;
  }

  /** All pairs linked, or a ring gone around. */
  ghost predicate Shaped(part: Graph, nodes: seq<Addr>) {
    Complete(part) || (Ring(part) && Around(part, nodes))
  }

  /** On a ring, more than two selected nodes keep all of their neighbours. */
  lemma KeepsNeighbours(part: Graph, g: Graph, nodes: seq<Addr>, a: Addr)
    requires PartOf(part, g, nodes) && Shaped(part, nodes) && Ring(g) && |nodes| > 2 && a in nodes
    ensures a in part && a in g && part[a].Keys == g[a].Keys <= Members(nodes) && |part[a]| == 2
  {
    hide Around, Members;
    assert |part[a]| >= 2 && |g[a]| == 2;
    assert |part[a]| == |part[a].Keys| && |g[a]| == |g[a].Keys|;
    SubsetSize(part[a].Keys, g[a].Keys);
    forall b | b in part[a].Keys
      ensures b in Members(nodes)
    {
      PeerIsNode(part, a, b);
    }
  }

  /** Nodes that no link leaves are all the nodes. */
  lemma ClosedIsAll(g: Graph, head: Addr, s: set<Addr>, a: Addr)
    requires Symmetric(g) && Reaches(g, head) && a in s && s <= g.Keys
    requires forall x | x in s :: g[x].Keys <= s
    ensures s == g.Keys
  {
    ReachedFromAnywhere(g, head, a);
    AllPathsFinished(g, a);
    hide AllPaths, Explored, Symmetric;
    forall v | v in g.Keys
      ensures v in s
    {
      ClosedSetsHoldAll(g, a, AllPaths(g, a), s, v);
    }
  }

  lemma PartIsWhole(part: Graph, g: Graph, nodes: seq<Addr>, head: Addr)
    requires PartOf(part, g, nodes) && Shaped(part, nodes) && Symmetric(g) && Reaches(g, head)
    requires Ring(g) && |nodes| > 2
    ensures Members(nodes) == g.Keys
  {
    var s := Members(nodes);
    assert forall x :: x in s <==> x in nodes;
    hide Shaped, PartOf, Members, Symmetric, Reaches, Ring;
    forall x | x in s
      ensures x in g && g[x].Keys <= s
    {
      KeepsNeighbours(part, g, nodes, x);
    }
    var first := nodes[0];
    assert first in nodes;
    ClosedIsAll(g, head, s, first);
  }

  /** Of a whole ring, only a ring can be left, so it is gone around. */
  lemma WholeIsRing(part: Graph, g: Graph, nodes: seq<Addr>)
    requires PartOf(part, g, nodes) && Shaped(part, nodes) && Ring(g) && |nodes| > 2 && Members(nodes) == g.Keys
    ensures Ring(part) && Around(part, nodes)
  {
    var first := nodes[0];
    assert first in nodes;
    KeepsNeighbours(part, g, nodes, first);
    assert |part| == |part.Keys| == |g.Keys| == |g|;
    hide Around, Symmetric;
    assert !Complete(part);
  }

  lemma AroundPart(part: Graph, g: Graph, nodes: seq<Addr>)
    requires PartOf(part, g, nodes) && Around(part, nodes)
    ensures Around(g, nodes)
  {
    hide After, Members, Symmetric;
    forall i | 0 <= i < |nodes|
      ensures nodes[i] in g && After(nodes, i) in g[nodes[i]]
    {
      var a := nodes[i];
      assert a in nodes && part[a].Keys <= g[a].Keys;
      assert After(nodes, i) in part[a].Keys;
    }
  }

  lemma PairIsLinked(part: Graph, g: Graph, nodes: seq<Addr>)
    requires PartOf(part, g, nodes) && Shaped(part, nodes) && |nodes| == 2
    ensures nodes[0] in g && nodes[1] in g[nodes[0]]
  {
    hide Around;
    var a := nodes[0];
    assert a in nodes && |part[a]| == 1;
    var peers := part[a].Keys;
    assert |peers| == 1;
    var b := Least(peers);
    PeerIsNode(part, a, b);
    assert b in Members(nodes) && b != a;
    assert b == nodes[1];
  }

  /**
   * A ring is launched whole and in its physical order, or as a pair of neighbours, or as one node:
   * no other selection of its nodes passes the check.
   */
  lemma RingLaunchedWhole(t: Topology, nodes: seq<Addr>)
    requires Valid(t) && Ring(Table(t)) && OrderAllowed(t, nodes)
    ensures |nodes| > 2 ==> Members(nodes) == Members(t.nodes) && Around(Table(t), nodes)
    ensures |nodes| == 2 ==> nodes[0] in Table(t) && nodes[1] in Table(t)[nodes[0]]
  {
    hide Selectable, Selection, Ring, Complete, Around, PartOf, Symmetric, Reaches;
    SelectionIsPart(t, nodes);
    var part, g := Selection(t, nodes), Table(t);
    assert Shaped(part, nodes);
    if |nodes| > 2 {
      PartIsWhole(part, g, nodes, t.nodes[0]);
      WholeIsRing(part, g, nodes);
      AroundPart(part, g, nodes);
    } else if |nodes| == 2 {
      PairIsLinked(part, g, nodes);
    }
  }
}
