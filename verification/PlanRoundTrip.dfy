/** A plan can be read back from the addresses it assigned, and from nothing else. */
module PlanRoundTrip {
  import opened Results
  import opened Graphs
  import opened Rings
  import opened Addressing
  import opened Planner
  import opened RingDetection
  import opened SavedPlans
  import opened PlanTargets

  // ----- the ring read back -----

  lemma NetworkAt(l: Layout, mtu: int, nodes: seq<Addr>, saved: map<Addr, Saved>, i: nat, name: Name, s: nat)
    requires Plannable(l) && Saves(l, mtu, nodes, saved) && i < |l.order| && OnSubnet(l, i, s)
             && name == NameAt(l, i, s)
    ensures NetworksOn(NetworksOf(nodes, saved), l.order[i], name) == {SubnetAt(l, s)}
  {
    var node := l.order[i];
    assert node in Members(l.order);
    Assigned(l, i, s);
    AddressIsHost(l, i, s);
  }

  lemma RingShares(l: Layout, mtu: int, nodes: seq<Addr>, saved: map<Addr, Saved>, i: nat, j: nat, rail: int)
    requires Plannable(l) && l.wiring.AroundRing? && Saves(l, mtu, nodes, saved)
    requires i < |l.order| && j < |l.order| && 0 <= rail <= 1
    ensures Shares(NetworksOf(nodes, saved), l.order[i], l.order[j], rail) <==> j == Successor(|l.order|, i)
  {
    hide NetworksOn, NetworksOf, Predecessor, Successor, Distinct, Members, SubnetAt;
    var before := Predecessor(|l.order|, j);
    NetworkAt(l, mtu, nodes, saved, i, Cx7(0, rail), 2 * i + rail);
    NetworkAt(l, mtu, nodes, saved, j, Cx7(1, rail), 2 * before + rail);
    Singletons(SubnetAt(l, 2 * i + rail), SubnetAt(l, 2 * before + rail));
    PredecessorIs(|l.order|, i, j);
    SubnetsEqual(l, 2 * i + rail, 2 * before + rail);
  }

  lemma PredecessorIs(n: nat, i: nat, j: nat)
    requires i < n && j < n
    ensures Predecessor(n, j) == i <==> j == Successor(n, i)
  {
  }

  lemma SubnetsEqual(l: Layout, s: nat, t: nat)
    ensures SubnetAt(l, s) == SubnetAt(l, t) <==> s == t
  {
  }

  lemma Singletons<T>(a: T, b: T)
    ensures {a} * {b} != {} <==> a == b
  {
    assert a == b ==> a in {a} * {b};
  }

  /** The planned ring is a ring of shared subnets, as seen from any list of the same nodes with the same head. */
  lemma PlannedRing(l: Layout, mtu: int, nodes: seq<Addr>, saved: map<Addr, Saved>)
    requires Plannable(l) && l.wiring.AroundRing? && Saves(l, mtu, nodes, saved) && nodes != []
             && nodes[0] == l.order[0]
    ensures SubnetRing(nodes, NetworksOf(nodes, saved), l.order)
  {
    var nets := NetworksOf(nodes, saved);
    forall i | 0 <= i < |l.order|
      ensures SharesNext(nodes, nets, l.order, i)
    {
      var next := Successor(|l.order|, i);
      var peer := l.order[next];
      assert peer in Members(nodes) && peer != l.order[i];
      forall p, rail | p in nodes && p != l.order[i] && 0 <= rail <= 1
        ensures Shares(nets, l.order[i], p, rail) <==> p == peer
      {
        var j := PositionOf(l, nodes, p);
        RingShares(l, mtu, nodes, saved, i, j, rail);
      }
    }
  }

  /** Only one ring of shared subnets starts at a given head. */
  lemma {:induction false} RingsAgree(nodes: seq<Addr>, nets: Networks, order: seq<Addr>, order': seq<Addr>, i: nat)
    requires nodes != [] && SubnetRing(nodes, nets, order) && SubnetRing(nodes, nets, order') && i < |order|
    ensures |order| == |order'| && order[i] == order'[i]
  {
    DistinctSize(order);
    DistinctSize(order');
    if i > 0 {
      RingsAgree(nodes, nets, order, order', i - 1);
      assert SharesNext(nodes, nets, order, i - 1) && SharesNext(nodes, nets, order', i - 1);
      OnlySharesOnce(nodes, nets, order[i - 1], order[i], order'[i]);
    }
  }

  lemma RingIsUnique(nodes: seq<Addr>, nets: Networks, order: seq<Addr>, order': seq<Addr>)
    requires nodes != [] && SubnetRing(nodes, nets, order) && SubnetRing(nodes, nets, order')
    ensures order == order'
  {
    forall i | 0 <= i < |order|
      ensures |order| == |order'| && order[i] == order'[i]
    {
      RingsAgree(nodes, nets, order, order', i);
    }
    assert order != [];
    RingsAgree(nodes, nets, order, order', 0);
  }

  // ----- targets, peers and subnets read back -----

  lemma SamePings(l: Layout, mtu: int, nodes: seq<Addr>, saved: map<Addr, Saved>, i: nat)
    requires Plannable(l) && Saves(l, mtu, nodes, saved) && i < |l.order|
    ensures var pings, pings' := PingsUpTo(l, i, Subnets(l)), SavedPings(nodes, saved, l.order[i], NAMES);
            multiset(pings) == multiset(pings') && multiset(Addresses(pings)) == multiset(Addresses(pings'))
  {
    var pings, pings' := PingsUpTo(l, i, Subnets(l)), SavedPings(nodes, saved, l.order[i], NAMES);
    PingsDiffer(l, i, Subnets(l));
    SavedPingsDiffer(l, mtu, nodes, saved, i, NAMES);
    hide *;
    forall x
      ensures x in pings <==> x in pings'
    {
      SamePing(l, mtu, nodes, saved, i, x);
    }
    SameElements(pings, pings');
    SameAddresses(pings, pings');
  }

  lemma SamePing(l: Layout, mtu: int, nodes: seq<Addr>, saved: map<Addr, Saved>, i: nat, x: (Name, Addr))
    requires Plannable(l) && Saves(l, mtu, nodes, saved) && i < |l.order|
    ensures x in PingsUpTo(l, i, Subnets(l)) <==> x in SavedPings(nodes, saved, l.order[i], NAMES)
  {
    PingsListed(l, i, Subnets(l), x);
    SavedPingsListed(l, mtu, nodes, saved, i, NAMES, x);
    hide *;
    if TargetBelow(l, i, x, Subnets(l)) {
      TargetIsReadBack(l, mtu, nodes, saved, i, x);
    }
    if ReadBack(l, nodes, saved, i, x) {
      ReadBackIsTarget(l, mtu, nodes, saved, i, x);
    }
  }

  lemma TakeOne(t: seq<(Name, Addr)>, x: (Name, Addr)) returns (a: seq<(Name, Addr)>, b: seq<(Name, Addr)>)
    requires x in multiset(t)
    ensures t == a + [x] + b && multiset(a + b) == multiset(t) - multiset{x}
  {
    var k :| 0 <= k < |t| && t[k] == x;
    a, b := t[..k], t[k + 1..];
    assert t == a + [x] + b;
  }

  lemma AddressesAppend(s: seq<(Name, Addr)>, t: seq<(Name, Addr)>)
    ensures Addresses(s + t) == Addresses(s) + Addresses(t)
  {
  }

  lemma {:induction false} SameAddresses(s: seq<(Name, Addr)>, t: seq<(Name, Addr)>)
    requires multiset(s) == multiset(t)
    ensures multiset(Addresses(s)) == multiset(Addresses(t))
    decreases |s|
  {
    if s == [] {
      assert |multiset(t)| == 0;
    } else {
      var front, x := s[..|s| - 1], s[|s| - 1];
      assert s == front + [x];
      var a, b := TakeOne(t, x);
      SameAddresses(front, a + b);
      AddressesAppend(front, [x]);
      AddressesAppend(a + [x], b);
      AddressesAppend(a, [x]);
      AddressesAppend(a, b);
    }
  }

  lemma {:induction false} PeersAre(order: seq<Addr>, node: Addr, n: Addr)
    ensures n in Peers(order, node) <==> n in order && n != node
  {
    if order != [] {
      PeersAre(order[..|order| - 1], node, n);
      assert order == order[..|order| - 1] + [order[|order| - 1]];
    }
  }

  lemma {:induction false} PeersOnce(order: seq<Addr>, node: Addr)
    requires NoDuplicates(order)
    ensures NoDuplicates(Peers(order, node))
  {
    if order != [] {
      var front, last := order[..|order| - 1], order[|order| - 1];
      LastIsNew(order);
      PeersOnce(front, node);
      PeersAre(front, node, last);
      AppendDisjoint(Peers(front, node), if last != node then [last] else []);
    }
  }

  lemma SamePeers(nodes: seq<Addr>, order: seq<Addr>, node: Addr)
    requires Distinct(nodes) && Distinct(order) && Members(nodes) == Members(order)
    ensures multiset(Peers(nodes, node)) == multiset(Peers(order, node))
    ensures multiset(nodes) == multiset(order)
  {
    forall n
      ensures n in nodes <==> n in order
      ensures n in Peers(nodes, node) <==> n in Peers(order, node)
    {
      assert n in Members(nodes) <==> n in Members(order);
      PeersAre(nodes, node, n);
      PeersAre(order, node, n);
    }
    PeersOnce(nodes, node);
    PeersOnce(order, node);
    SameElements(Peers(nodes, node), Peers(order, node));
    SameElements(nodes, order);
  }

  lemma SameSubnets(l: Layout, mtu: int, nodes: seq<Addr>, saved: map<Addr, Saved>)
    requires Plannable(l) && Saves(l, mtu, nodes, saved)
    ensures SavedSubnets(nodes, saved) == SubnetSet(l.base, Subnets(l))
  {
    forall n | n in SavedSubnets(nodes, saved)
      ensures n in SubnetSet(l.base, Subnets(l))
    {
      var node, name :| node in nodes && name in saved[node].interfaces && n == NetworkOf(saved[node].interfaces[name]);
      var i := PositionOf(l, nodes, node);
      var s := AssignedOn(l, i, name);
      assert SubnetList(l.base, Subnets(l))[s] == n;
    }
    forall n | n in SubnetSet(l.base, Subnets(l))
      ensures n in SavedSubnets(nodes, saved)
    {
      var s :| 0 <= s < Subnets(l) && SubnetList(l.base, Subnets(l))[s] == n;
      SubnetIsUsed(l, s);
      var i := if l.wiring.AroundRing? then s / 2 else 0;
      Assigned(l, i, s);
      AddressIsHost(l, i, s);
      var node := l.order[i];
      assert node in Members(nodes);
      assert NameAt(l, i, s) in saved[node].interfaces;
    }
  }

  /** Every subnet of the plan has the first node of its cable on it. */
  lemma SubnetIsUsed(l: Layout, s: nat)
    requires Plannable(l) && s < Subnets(l)
    ensures var i := if l.wiring.AroundRing? then s / 2 else 0; i < |l.order| && OnSubnet(l, i, s)
  {
    PortIsListedIf(l, 0);
  }

  // ----- the round trip -----

  /** The same plan for a node, up to the order in which nodes and targets are listed. */
  ghost predicate SamePlan(p: NodePlan, q: NodePlan) {
    && p.interfaces == q.interfaces && p.mtu == q.mtu && p.subnets == q.subnets && p.managementIp == q.managementIp
    && multiset(p.nodes) == multiset(q.nodes)
    && multiset(p.pings) == multiset(q.pings) && multiset(p.sshTargets) == multiset(q.sshTargets)
  }

  /** The journals hold what the plan assigned, and nothing more is known. */
  ghost predicate SavedFrom(plan: Plan, nodes: seq<Addr>, saved: map<Addr, Saved>) {
    forall n | n in nodes :: n in plan && n in saved && saved[n] == Saved.Saved(plan[n].interfaces, plan[n].mtu)
  }

  lemma PlanIsSaved(l: Layout, mtu: int, plan: Plan, nodes: seq<Addr>, saved: map<Addr, Saved>)
    requires Plannable(l) && Planned(l, mtu, plan) && SavedFrom(plan, nodes, saved)
    requires Distinct(nodes) && Members(nodes) == Members(l.order)
    ensures Saves(l, mtu, nodes, saved)
  {
    forall i | 0 <= i < |l.order|
      ensures l.order[i] in saved && saved[l.order[i]] == Saved.Saved(Interfaces(l, i), mtu)
    {
      var node := l.order[i];
      assert node in Members(nodes);
      assert plan[node] == PlanUpTo(l, mtu, i, Subnets(l));
    }
  }

  /** What a node's saved interfaces show of the wiring. */
  lemma WiringShows(l: Layout, mtu: int, nodes: seq<Addr>, saved: map<Addr, Saved>, n: Addr)
    requires Plannable(l) && Saves(l, mtu, nodes, saved) && n in nodes
    ensures n in saved && saved[n].mtu == mtu && Usable(saved[n])
    ensures l.wiring.AroundRing? ==> UsesBoth(saved[n].interfaces)
    ensures l.wiring.OnePort? ==> n in l.wiring.ports && OnlyPort(saved[n].interfaces) == Some(l.wiring.ports[n])
    ensures l.wiring.OnePort? ==> forall rail | 0 <= rail <= 1 :: RailNetwork(saved[n], rail) == Some(SubnetAt(l, rail))
  {
    var i := PositionOf(l, nodes, n);
    InterfaceNames(l, i);
    if l.wiring.OnePort? {
      Assigned(l, i, 0);
      Assigned(l, i, 1);
      AddressIsHost(l, i, 0);
      AddressIsHost(l, i, 1);
    }
  }

  lemma WiringIsReadable(l: Layout, mtu: int, nodes: seq<Addr>, saved: map<Addr, Saved>)
    requires Plannable(l) && Saves(l, mtu, nodes, saved) && nodes != [] && nodes[0] == l.order[0]
    ensures RingOrOnePort(nodes, saved)
  {
    forall n | n in nodes
      ensures l.wiring.AroundRing? ==> UsesBoth(saved[n].interfaces)
      ensures l.wiring.OnePort? ==> OnlyPort(saved[n].interfaces).Some?
      ensures l.wiring.OnePort? ==>
                forall rail | 0 <= rail <= 1 :: RailNetwork(saved[n], rail) == Some(SubnetAt(l, rail))
    {
      WiringShows(l, mtu, nodes, saved, n);
    }
    if l.wiring.AroundRing? {
      PlannedRing(l, mtu, nodes, saved);
      DistinctSize(nodes);
      DistinctSize(l.order);
    }
    hide UsesBoth, OnlyPort, RailNetwork, SubnetRing, Saves, SubnetAt, Members, Distinct;
  }

  /** Saved plans are always recoverable, given that any required live state matches. */
  lemma PlanIsRecoverable(l: Layout, mtu: int, plan: Plan, nodes: seq<Addr>, saved: map<Addr, Saved>, live: Live,
                          requireActive: bool)
    requires Plannable(l) && Planned(l, mtu, plan) && SavedFrom(plan, nodes, saved)
    requires nodes != [] && Distinct(nodes) && Members(nodes) == Members(l.order) && nodes[0] == l.order[0]
    requires forall n | n in nodes :: n in live && (requireActive ==> Active(saved[n], live[n], mtu))
    ensures Recoverable(nodes, saved, live, requireActive)
  {
    PlanIsSaved(l, mtu, plan, nodes, saved);
    WiringIsReadable(l, mtu, nodes, saved);
    hide RingOrOnePort, Planned, Plannable, Saves, Active, Usable, Members, Distinct;
    forall n | n in nodes
      ensures saved[n].mtu == mtu && Usable(saved[n])
    {
      WiringShows(l, mtu, nodes, saved, n);
    }
    var first := nodes[0];
    assert first in nodes;
  }

  /**
   * Whatever is recovered from the addresses a plan assigned is that plan: the exact ring
   * order, or the port of every node, and each node's interfaces, MTU, subnets and targets.
   * A two-node cluster is called direct whatever it was called when it was planned.
   */
  lemma RoundTrip(l: Layout, mtu: int, plan: Plan, nodes: seq<Addr>, saved: map<Addr, Saved>, r: Recovered)
    requires Plannable(l) && Planned(l, mtu, plan) && SavedFrom(plan, nodes, saved)
    requires nodes != [] && Distinct(nodes) && Members(nodes) == Members(l.order) && nodes[0] == l.order[0]
    requires RecoveredFrom(nodes, saved, r)
    ensures l.wiring.AroundRing? ==> r.kind == Kind.Ring && r.order == l.order && r.ports == map[]
    ensures l.wiring.OnePort? ==> r.kind == (if |nodes| == 2 then Direct else Switch) && r.ports == l.wiring.ports
    ensures r.plan.Keys == plan.Keys
    ensures forall n | n in nodes :: n in plan && SamePlan(r.plan[n], plan[n])
  {
    PlanIsSaved(l, mtu, plan, nodes, saved);
    WiringReadBack(l, mtu, nodes, saved, r);
    forall n | n in nodes
      ensures n in plan && SamePlan(r.plan[n], plan[n])
    {
      NodeReadBack(l, mtu, plan, nodes, saved, n);
    }
  }

  lemma WiringReadBack(l: Layout, mtu: int, nodes: seq<Addr>, saved: map<Addr, Saved>, r: Recovered)
    requires Plannable(l) && Saves(l, mtu, nodes, saved) && nodes != [] && nodes[0] == l.order[0]
    requires RecoveredFrom(nodes, saved, r)
    ensures l.wiring.AroundRing? ==> r.kind == Kind.Ring && r.order == l.order && r.ports == map[]
    ensures l.wiring.OnePort? ==> r.kind == (if |nodes| == 2 then Direct else Switch) && r.ports == l.wiring.ports
  {
    var head := nodes[0];
    assert head in nodes;
    WiringShows(l, mtu, nodes, saved, head);
    OneUseOnly(saved[head]);
    PortsReadBack(l, mtu, nodes, saved, r.ports);
    hide UsesBoth, OnlyPort, RailNetwork, Saves, PortsRead, PlanRead, Members, Distinct;
    if l.wiring.AroundRing? {
      PlannedRing(l, mtu, nodes, saved);
      hide SubnetRing;
      assert r.kind == Kind.Ring;
      RingIsUnique(nodes, NetworksOf(nodes, saved), r.order, l.order);
    }
  }

  lemma PortsReadBack(l: Layout, mtu: int, nodes: seq<Addr>, saved: map<Addr, Saved>, ports: map<Addr, int>)
    requires Plannable(l) && Saves(l, mtu, nodes, saved) && PortsRead(nodes, saved, ports)
    ensures l.wiring.AroundRing? ==> ports == map[]
    ensures l.wiring.OnePort? ==> ports == l.wiring.ports
  {
    forall n | n in nodes
      ensures l.wiring.AroundRing? ==> OnlyPort(saved[n].interfaces).None?
      ensures l.wiring.OnePort? ==> n in l.wiring.ports && OnlyPort(saved[n].interfaces) == Some(l.wiring.ports[n])
    {
      WiringShows(l, mtu, nodes, saved, n);
      OneUseOnly(saved[n]);
    }
    hide UsesBoth, OnlyPort, RailNetwork;
    forall n
      ensures n in nodes <==> n in Members(l.order)
    {
      assert n in nodes <==> n in Members(nodes);
    }
    hide Members, Distinct;
    if l.wiring.AroundRing? {
      assert forall n :: n !in ports;
    } else {
      forall n
        ensures n in ports <==> n in l.wiring.ports
      {
        assert n in l.wiring.ports.Keys <==> n in Members(l.order);
      }
    }
  }

  lemma NodeReadBack(l: Layout, mtu: int, plan: Plan, nodes: seq<Addr>, saved: map<Addr, Saved>, n: Addr)
    requires Plannable(l) && Planned(l, mtu, plan) && Saves(l, mtu, nodes, saved) && n in nodes
    ensures n in plan && SamePlan(RecoveredNode(nodes, saved, n), plan[n])
  {
    var i := PositionOf(l, nodes, n);
    assert plan[n] == PlanUpTo(l, mtu, i, Subnets(l));
    SamePings(l, mtu, nodes, saved, i);
    SamePeers(nodes, l.order, n);
    SameSubnets(l, mtu, nodes, saved);
    var first := nodes[0];
    assert first in nodes;
    var k := PositionOf(l, nodes, first);
    hide PingsUpTo, SavedPings, Addresses, Peers, SavedSubnets, SubnetSet, InterfacesUpTo, Members, Distinct, NAMES;
  }
}
