/** The launch environment written for a planned cluster, and the links it lists. */
module LaunchLinks {
  import opened Results
  import opened Graphs
  import opened Rings
  import opened LinkTables
  import opened Addressing
  import opened Planner

  /** Ranks coordinate over CX7, or over the management network with their CX7 links listed. */
  datatype LaunchEnv =
    | OverCx7(ranks: seq<Addr>, copyHosts: seq<Addr>, localIp: Addr, ethIf: Name)
    | OverManagement(nodes: seq<Addr>, localIp: Addr, ethIf: Name, links: seq<Link>, ringPlugin: bool,
                     ringAlgorithm: bool)

  datatype EnvFault = NoManagementInterface | MixedManagementInterfaces

  // ----- which nodes are linked -----

  /** The pairs whose first position is below `i`, each position with every later one. */
  function PairsBelow(n: nat, i: nat): seq<(nat, nat)>
    requires i <= n
  {
    if i == 0 then [] else PairsBelow(n, i - 1) + seq(n - i, k requires 0 <= k => (i - 1, i + k))
  }

  function RingPairs(n: nat): seq<(nat, nat)> {
    seq(n, i requires 0 <= i < n => (i, Successor(n, i)))
  }

  function Pairs(l: Layout): seq<(nat, nat)> {
    if l.wiring.AroundRing? then RingPairs(|l.order|) else PairsBelow(|l.order|, |l.order|)
  }

  ghost predicate PairsBetween(pairs: seq<(nat, nat)>, n: nat) {
    && (forall p | 0 <= p < |pairs| :: pairs[p].0 < n && pairs[p].1 < n && pairs[p].0 != pairs[p].1)
    && forall p, q | 0 <= p < q < |pairs| :: pairs[p] != pairs[q] && pairs[p] != (pairs[q].1, pairs[q].0)
  }

  ghost predicate Paired(pairs: seq<(nat, nat)>, i: nat, j: nat) {
    (i, j) in pairs || (j, i) in pairs
  }

  lemma {:induction false} PairsBelowHold(n: nat, i: nat, x: nat, y: nat)
    requires i <= n
    ensures (x, y) in PairsBelow(n, i) <==> x < i && x < y < n
  {
    if i > 0 {
      PairsBelowHold(n, i - 1, x, y);
      var now := seq(n - i, k requires 0 <= k => (i - 1, i + k));
      assert forall k | 0 <= k < |now| :: now[k] == (i - 1, i + k);
      if x == i - 1 && x < y < n {
        assert now[y - i] == (x, y);
      }
    }
  }

  lemma {:induction false} PairsBelowBetween(n: nat, i: nat)
    requires i <= n
    ensures PairsBetween(PairsBelow(n, i), n)
  {
    if i > 0 {
      PairsBelowBetween(n, i - 1);
      var before, now := PairsBelow(n, i - 1), seq(n - i, k requires 0 <= k => (i - 1, i + k));
      forall p | 0 <= p < |before|
        ensures before[p].0 < i - 1 && before[p].0 < before[p].1
      {
        assert (before[p].0, before[p].1) in before;
        PairsBelowHold(n, i - 1, before[p].0, before[p].1);
      }
      LaterPairs(n, i, before, now);
    }
  }

  lemma LaterPairs(n: nat, i: nat, before: seq<(nat, nat)>, now: seq<(nat, nat)>)
    requires 0 < i <= n && PairsBetween(before, n) && |now| == n - i
    requires forall p | 0 <= p < |before| :: before[p].0 < i - 1 && before[p].0 < before[p].1
    requires forall k | 0 <= k < |now| :: now[k] == (i - 1, i + k)
    ensures PairsBetween(before + now, n)
  {
  }

  lemma RingPairsAre(n: nat)
    requires n >= 3
    ensures PairsBetween(RingPairs(n), n)
    ensures forall x: nat, y: nat :: (x, y) in RingPairs(n) <==> x < n && y == Successor(n, x)
  {
    var pairs := RingPairs(n);
    forall x: nat, y: nat
      ensures (x, y) in pairs <==> x < n && y == Successor(n, x)
    {
      if x < n && y == Successor(n, x) {
        assert pairs[x] == (x, y);
      }
    }
  }

  lemma PairsAre(l: Layout)
    requires Plannable(l)
    ensures PairsBetween(Pairs(l), |l.order|)
    ensures forall i: nat, j: nat | i < |l.order| && j < |l.order| ::
              Paired(Pairs(l), i, j) <==>
              if l.wiring.AroundRing? then j == Successor(|l.order|, i) || i == Successor(|l.order|, j)
                                          else i != j
  {
    if l.wiring.AroundRing? {
      RingPairsAre(|l.order|);
    } else {
      PairsBelowBetween(|l.order|, |l.order|);
      forall i: nat, j: nat
        ensures (i, j) in Pairs(l) <==> i < j < |l.order|
      {
        PairsBelowHold(|l.order|, |l.order|, i, j);
      }
    }
    hide PairsBetween, RingPairs, PairsBelow, Plannable;
  }

  // ----- the links -----

  /** The subnet of a rail of the cable between a pair. */
  function PairSubnet(l: Layout, pair: (nat, nat), rail: nat): nat {
    2 * (if l.wiring.AroundRing? then pair.0 else 0) + rail
  }

  function LinkAt(l: Layout, pair: (nat, nat), rail: nat): Link
    requires pair.0 < |l.order| && pair.1 < |l.order|
  {
    var s := PairSubnet(l, pair, rail);
    Link(l.order[pair.0], AddressAt(l, pair.0, s), l.order[pair.1], AddressAt(l, pair.1, s))
  }

  ghost predicate InRange(l: Layout, pairs: seq<(nat, nat)>) {
    forall p | 0 <= p < |pairs| :: pairs[p].0 < |l.order| && pairs[p].1 < |l.order|
  }

  function LinksOf(l: Layout, pairs: seq<(nat, nat)>): (links: seq<Link>)
    requires InRange(l, pairs)
    ensures |links| == 2 * |pairs|
    ensures forall k | 0 <= k < |links| :: links[k] == LinkAt(l, pairs[k / 2], k % 2)
  {
    if pairs == [] then []
    else
      var last := pairs[|pairs| - 1];
      LinksOf(l, pairs[..|pairs| - 1]) + [LinkAt(l, last, 0), LinkAt(l, last, 1)]
  }

  /** The links a layout has, by the pairs it cables. */
  ghost function Links(l: Layout): seq<Link>
    requires Plannable(l)
  {
    PairsAre(l);
    LinksOf(l, Pairs(l))
  }

  lemma BothOnSubnet(l: Layout, pair: (nat, nat), rail: nat)
    requires Plannable(l) && pair in Pairs(l) && rail < 2
    ensures pair.0 < |l.order| && pair.1 < |l.order| && pair.0 != pair.1
    ensures var s := PairSubnet(l, pair, rail);
            && s < Subnets(l) && s % 2 == rail
            && PortAt(l, pair.0, s / 2) >= 0 && PortAt(l, pair.1, s / 2) >= 0
            && (l.wiring.AroundRing? ==> PortAt(l, pair.0, s / 2) == 0 && PortAt(l, pair.1, s / 2) == 1)
            && (l.wiring.OnePort? ==>
                  PortAt(l, pair.0, s / 2) == PortOf(l, pair.0) && PortAt(l, pair.1, s / 2) == PortOf(l, pair.1))
  {
    PairsAre(l);
    var p :| 0 <= p < |Pairs(l)| && Pairs(l)[p] == pair;
    PortIsListedIf(l, pair.0);
    PortIsListedIf(l, pair.1);
    if l.wiring.AroundRing? {
      RingPairsAre(|l.order|);
      assert (pair.0, pair.1) in RingPairs(|l.order|);
      assert Predecessor(|l.order|, pair.1) == pair.0;
    }
  }

  /** The port by which a node is cabled when it uses one port. */
  function PortOf(l: Layout, i: nat): int
    requires i < |l.order|
  {
    if l.wiring.OnePort? && l.order[i] in l.wiring.ports then l.wiring.ports[l.order[i]] else 0
  }

  // ----- writing the environment -----

  method ListPairs(l: Layout) returns (pairs: seq<(nat, nat)>)
    ensures pairs == Pairs(l)
  {
    var n := |l.order|;
    pairs := [];
    if l.wiring.AroundRing? {
      for i := 0 to n
        invariant pairs == RingPairs(n)[..i]
      {
        pairs := pairs + [(i, Successor(n, i))];
      }
      return;
    }
    for i := 0 to n
      invariant pairs == PairsBelow(n, i)
    {
      ghost var row := seq(n - i - 1, k requires 0 <= k => (i, i + 1 + k));
      for j := i + 1 to n
        invariant pairs == PairsBelow(n, i) + row[..j - i - 1]
      {
        pairs := pairs + [(i, j)];
      }
      assert row[..n - i - 1] == row;
      assert row == seq(n - (i + 1), k requires 0 <= k => (i + 1 - 1, i + 1 + k));
    }
  }

  /** An address as the plan has it, by interface. */
  method PlannedAddress(l: Layout, mtu: int, plan: Plan, i: nat, port: int, rail: nat, ghost s: nat)
    returns (address: Addr)
    requires Plannable(l) && Planned(l, mtu, plan) && i < |l.order| && s < Subnets(l) && s % 2 == rail
    requires port >= 0 && port == PortAt(l, i, s / 2)
    ensures address == AddressAt(l, i, s)
  {
    HeldInterface(l, i, NameAt(l, i, s), Subnets(l), s);
    assert plan[l.order[i]] == PlanUpTo(l, mtu, i, Subnets(l));
    address := plan[l.order[i]].interfaces[Cx7(port, rail)].ip;
  }

  method PlannedLink(l: Layout, mtu: int, plan: Plan, pair: (nat, nat), rail: nat) returns (link: Link)
    requires Plannable(l) && Planned(l, mtu, plan) && pair in Pairs(l) && rail < 2
    ensures pair.0 < |l.order| && pair.1 < |l.order| && link == LinkAt(l, pair, rail)
  {
    BothOnSubnet(l, pair, rail);
    ghost var s := PairSubnet(l, pair, rail);
    var near := if l.wiring.AroundRing? then 0 else PortOf(l, pair.0);
    var far := if l.wiring.AroundRing? then 1 else PortOf(l, pair.1);
    hide PortAt, Planned;
    var x := PlannedAddress(l, mtu, plan, pair.0, near, rail, s);
    var y := PlannedAddress(l, mtu, plan, pair.1, far, rail, s);
    link := Link(l.order[pair.0], x, l.order[pair.1], y);
  }

  method ListLinks(l: Layout, mtu: int, plan: Plan) returns (links: seq<Link>)
    requires Plannable(l) && Planned(l, mtu, plan)
    ensures links == Links(l)
  {
    var pairs := ListPairs(l);
    PairsAre(l);
    assert InRange(l, pairs) && InRange(l, pairs[..0]) && LinksOf(l, pairs[..0]) == [];
    links := [];
    assert Links(l) == LinksOf(l, pairs);
    hide *;
    for p := 0 to |pairs|
      invariant InRange(l, pairs[..p]) && links == LinksOf(l, pairs[..p])
    {
      LinksOneMore(l, pairs, p);
      var first := PlannedLink(l, mtu, plan, pairs[p], 0);
      var second := PlannedLink(l, mtu, plan, pairs[p], 1);
      links := links + [first, second];
    }
    assert pairs[..|pairs|] == pairs;
  }

  lemma LinksOneMore(l: Layout, pairs: seq<(nat, nat)>, p: nat)
    requires InRange(l, pairs) && p < |pairs|
    ensures InRange(l, pairs[..p]) && InRange(l, pairs[..p + 1]) && pairs[p].0 < |l.order| && pairs[p].1 < |l.order|
    ensures pairs[p] in pairs
    ensures LinksOf(l, pairs[..p + 1]) == LinksOf(l, pairs[..p]) + [LinkAt(l, pairs[p], 0), LinkAt(l, pairs[p], 1)]
  {
    assert pairs[..p + 1][..p] == pairs[..p];
    hide LinkAt;
  }

  /** All nodes use the same port, so their CX7 addresses on its first rail can serve as ranks. */
  predicate Uniform(l: Layout)
    requires Plannable(l)
  {
    l.wiring.OnePort? && forall i | 0 <= i < |l.order| :: PortOf(l, i) == PortOf(l, 0)
  }

  method RankAddresses(l: Layout, mtu: int, plan: Plan, port: int) returns (ranks: seq<Addr>)
    requires Plannable(l) && Planned(l, mtu, plan) && Uniform(l) && port == PortOf(l, 0)
    ensures |ranks| == |l.order| && forall i | 0 <= i < |ranks| :: ranks[i] == AddressAt(l, i, 0)
  {
    ranks := [];
    for k := 0 to |l.order|
      invariant |ranks| == k && forall i | 0 <= i < k :: ranks[i] == AddressAt(l, i, 0)
    {
      PortIsListedIf(l, k);
      assert PortOf(l, k) == port;
      var address := PlannedAddress(l, mtu, plan, k, port, 0, 0);
      ranks := ranks + [address];
    }
  }

  /** The interfaces holding each node's management address are one interface of one name everywhere. */
  ghost predicate ManagedBy(order: seq<Addr>, management: map<Addr, seq<Name>>, name: Name) {
    forall i | 0 <= i < |order| :: order[i] in management && management[order[i]] == [name]
  }

  method CommonInterface(order: seq<Addr>, management: map<Addr, seq<Name>>) returns (r: Result<Name, EnvFault>)
    requires order != [] && forall i | 0 <= i < |order| :: order[i] in management
    ensures r.Ok? ==> ManagedBy(order, management, r.value)
    ensures r.Err? ==> forall name :: !ManagedBy(order, management, name)
  {
    var names: set<Name> := {};
    for k := 0 to |order|
      invariant forall i | 0 <= i < k :: |management[order[i]]| == 1 && management[order[i]][0] in names
      invariant forall name | name in names :: exists i :: 0 <= i < k && management[order[i]] == [name]
      invariant k > 0 ==> names != {}
    {
      var held := management[order[k]];
      if |held| != 1 {
        return Err(NoManagementInterface);
      }
      assert held == [held[0]];
      names := names + {held[0]};
    }
    forall name | ManagedBy(order, management, name)
      ensures names == {name}
    {
      assert forall other | other in names :: other == name;
    }
    if |names| != 1 {
      return Err(MixedManagementInterfaces);
    }
    var name := management[order[0]][0];
    SubsetSize({name}, names);
    return Ok(name);
  }

  /** The launch environment of a planned cluster. */
  method ClusterEnv(l: Layout, mtu: int, plan: Plan, management: map<Addr, seq<Name>>)
    returns (r: Result<LaunchEnv, EnvFault>)
    requires Plannable(l) && Planned(l, mtu, plan) && forall i | 0 <= i < |l.order| :: l.order[i] in management
    ensures Uniform(l) ==>
              && r.Ok? && r.value.OverCx7? && |r.value.ranks| == |l.order|
              && (forall i | 0 <= i < |l.order| :: r.value.ranks[i] == AddressAt(l, i, 0))
              && r.value.localIp == r.value.ranks[0] && r.value.copyHosts == r.value.ranks[1..]
              && r.value.ethIf == Cx7(PortOf(l, 0), 0)
    ensures !Uniform(l) && r.Ok? ==>
              && r.value.OverManagement? && r.value.nodes == l.order && r.value.localIp == l.order[0]
              && ManagedBy(l.order, management, r.value.ethIf) && r.value.links == Links(l)
              && r.value.ringPlugin == l.wiring.AroundRing?
              && r.value.ringAlgorithm == (l.wiring.AroundRing? && |l.order| >= 4)
    ensures !Uniform(l) && r.Err? ==> forall name :: !ManagedBy(l.order, management, name)
  {
    hide Planned, Links, ManagedBy;
    if Uniform(l) {
      var port := PortOf(l, 0);
      var ranks := RankAddresses(l, mtu, plan, port);
      return Ok(OverCx7(ranks, ranks[1..], ranks[0], Cx7(port, 0)));
    }
    var name := CommonInterface(l.order, management);
    if name.Err? {
      return Err(name.error);
    }
    var links := ListLinks(l, mtu, plan);
    var ring := l.wiring.AroundRing?;
    return Ok(OverManagement(l.order, l.order[0], name.value, links, ring, ring && |l.order| >= 4));
  }
}
