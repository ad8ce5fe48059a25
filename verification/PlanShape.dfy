/** What a plan gives each node, written out: its interfaces, its ping targets and its SSH targets. */
module PlanShape {
  import opened Results
  import opened Graphs
  import opened Rings
  import opened Addressing
  import opened Planner
  import opened LinkTables
  import opened LaunchLinks

  // ----- which pools are taken -----

  function Dotted(a: int, b: int, c: int, d: int): int {
    ((a * 256 + b) * 256 + c) * 256 + d
  }

  /** All addresses from the first to the last lie between these two. */
  predicate Between(first: Addr, last: Addr, low: Addr, high: Addr) {
    low <= first && last <= high
  }

  /** The addresses the subnets of the plan take up. */
  function Taken(order: seq<Addr>, wiring: Wiring): int {
    if wiring.AroundRing? then 512 * |order| else 512
  }

  lemma PoolIs(order: seq<Addr>, wiring: Wiring, pool: Network, mtu: int)
    requires pool.base % BlockSize(pool.prefix) == 0
    ensures var last := pool.base + BlockSize(pool.prefix) - 1;
            PoolFault(order, wiring, pool, mtu) == None
            <==> (&& 68 <= mtu <= 65535
                  && (|| Between(pool.base, last, Dotted(10, 0, 0, 0), Dotted(10, 255, 255, 255))
                      || Between(pool.base, last, Dotted(172, 16, 0, 0), Dotted(172, 31, 255, 255))
                      || Between(pool.base, last, Dotted(192, 168, 0, 0), Dotted(192, 168, 255, 255)))
                  && pool.prefix <= 24 && Taken(order, wiring) <= BlockSize(pool.prefix)
                  && forall k | 0 <= k < |order| ::
                       !(pool.base <= order[k] < pool.base + Taken(order, wiring)))
  {
    var needed, size := Needed(order, wiring), BlockSize(pool.prefix);
    var subnets := SubnetList(pool.base, needed);
    hide BlockSize;
    assert size / 256 < needed <==> size < 256 * needed;
    forall k | 0 <= k < |order|
      ensures (exists s :: 0 <= s < |subnets| && Contains(subnets[s], order[k]))
         <==> pool.base <= order[k] < pool.base + 256 * needed
    {
      InSubnets(pool.base, needed, order[k]);
    }
  }

  lemma InSubnets(base: Addr, count: nat, a: Addr)
    ensures (exists s :: 0 <= s < count && Contains(SubnetList(base, count)[s], a)) <==> base <= a < base + 256 * count
  {
    if base <= a < base + 256 * count {
      var s := (a - base) / 256;
      assert Contains(SubnetList(base, count)[s], a);
    }
  }

  // ----- cables a node is not on -----

  ghost predicate Unplugged(l: Layout, i: nat, a: nat, b: nat)
    requires Plannable(l) && i < |l.order|
  {
    forall cable: nat | a <= cable < b :: PortAt(l, i, cable) < 0
  }

  lemma {:induction false} PingsSkip(l: Layout, i: nat, a: nat, b: nat)
    requires Plannable(l) && i < |l.order| && a <= b <= Cables(l) && Unplugged(l, i, a, b)
    ensures PingsUpTo(l, i, 2 * b) == PingsUpTo(l, i, 2 * a)
  {
    hide PortAt, Plannable, TargetsAt;
    if a < b {
      PingsSkip(l, i, a, b - 1);
      assert PortAt(l, i, b - 1) < 0;
      assert PingsUpTo(l, i, 2 * b - 1) == PingsUpTo(l, i, 2 * b - 2) + [];
    }
  }

  /** What a cable the node is on adds: the targets on its first rail, then those on its second. */
  lemma PingsOfCable(l: Layout, i: nat, cable: nat)
    requires Plannable(l) && i < |l.order| && cable < Cables(l) && PortAt(l, i, cable) >= 0
    ensures PingsUpTo(l, i, 2 * cable + 2)
         == PingsUpTo(l, i, 2 * cable)
            + (TargetsAt(l, i, 2 * cable, OnCable(l, cable)) + TargetsAt(l, i, 2 * cable + 1, OnCable(l, cable)))
  {
    hide PortAt, Plannable, TargetsAt, OnCable;
    assert (2 * cable + 1) / 2 == cable;
    var first := TargetsAt(l, i, 2 * cable, OnCable(l, cable));
    var second := TargetsAt(l, i, 2 * cable + 1, OnCable(l, cable));
    assert PingsUpTo(l, i, 2 * cable + 1) == PingsUpTo(l, i, 2 * cable) + first;
    assert PingsUpTo(l, i, 2 * cable + 2) == PingsUpTo(l, i, 2 * cable + 1) + second;
  }

  // ----- what each node is given -----

  /** The address of the node at position `j` on one rail of a cable. */
  function End(l: Layout, j: nat, cable: nat, rail: int): Addr {
    l.base + 256 * (2 * cable + rail) + 11 + j
  }

  /** All but the node at position `i`, in order. */
  function Others(order: seq<Addr>, i: nat): seq<Addr>
    requires i < |order|
  {
    order[..i] + order[i + 1..]
  }

  lemma {:induction false} PeersAre(order: seq<Addr>, i: nat)
    requires Distinct(order) && i < |order|
    ensures Peers(order, order[i]) == Others(order, i)
  {
    var front, last := order[..|order| - 1], order[|order| - 1];
    if i == |front| {
      AllPeers(front, last);
      assert Others(order, i) == front;
    } else {
      assert front[i] == order[i];
      PeersAre(front, i);
      assert Others(order, i) == Others(front, i) + [last];
    }
  }

  lemma {:induction false} AllPeers(order: seq<Addr>, node: Addr)
    requires node !in order
    ensures Peers(order, node) == order
  {
    if order != [] {
      AllPeers(order[..|order| - 1], node);
    }
  }

  /** What every plan says of a node besides its own interfaces and targets. */
  lemma PlanCommon(l: Layout, mtu: int, plan: Plan, i: nat)
    requires Plannable(l) && Planned(l, mtu, plan) && i < |l.order|
    ensures l.order[i] in plan
    ensures var p := plan[l.order[i]];
            && p.mtu == mtu && p.nodes == l.order && p.managementIp == l.order[i]
            && (forall n :: n in p.subnets <==> exists s :: 0 <= s < Subnets(l) && n == Network(l.base + 256 * s, 24))
            && |p.sshTargets| == |l.order| - 1 + |p.pings|
            && p.sshTargets[..|l.order| - 1] == Others(l.order, i)
            && forall k | 0 <= k < |p.pings| :: p.sshTargets[|l.order| - 1 + k] == p.pings[k].1
  {
    hide Plannable, InterfacesUpTo, PingsUpTo;
    var p := PlanUpTo(l, mtu, i, Subnets(l));
    assert plan[l.order[i]] == p;
    PlannableDistinct(l);
    PeersAre(l.order, i);
    SubnetsAre(l.base, Subnets(l));
  }

  lemma PlannableDistinct(l: Layout)
    requires Plannable(l)
    ensures Distinct(l.order)
  {
  }

  lemma SubnetsAre(base: Addr, count: nat)
    ensures forall n :: n in SubnetSet(base, count) <==> exists s :: 0 <= s < count && n == Network(base + 256 * s, 24)
  {
    var list := SubnetList(base, count);
    hide SubnetList;
    forall n
      ensures n in SubnetSet(base, count) <==> exists s :: 0 <= s < count && n == Network(base + 256 * s, 24)
    {
      if s :| 0 <= s < count && n == Network(base + 256 * s, 24) {
        assert list[s] == n;
      }
    }
  }

  // ----- around a ring -----

  /** The one target of a node on each rail of a ring cable: the other end. */
  function Towards(l: Layout, port: int, cable: nat, j: nat): seq<(Name, Addr)> {
    [(Cx7(port, 0), End(l, j, cable, 0)), (Cx7(port, 1), End(l, j, cable, 1))]
  }

  lemma OneTarget(l: Layout, i: nat, cable: nat, j: nat, rail: int)
    requires Plannable(l) && l.wiring.AroundRing? && i < |l.order| && cable < |l.order| && 0 <= rail < 2
    requires OnCable(l, cable) == [i, j] || OnCable(l, cable) == [j, i]
    requires i != j
    ensures TargetsAt(l, i, 2 * cable + rail, OnCable(l, cable))
         == [(Cx7(PortAt(l, i, cable), rail), End(l, j, cable, rail))]
  {
    var on, s := OnCable(l, cable), 2 * cable + rail;
    assert s / 2 == cable && s % 2 == rail;
    assert on[..1] == [on[0]] && [on[0]][..0] == [];
    hide PortAt, Plannable, OnCable;
    assert TargetsAt(l, i, s, []) == [];
    assert TargetsAt(l, i, s, [on[0]])
        == if on[0] != i then [(NameAt(l, i, s), AddressAt(l, on[0], s))] else [];
  }

  lemma RingCable(l: Layout, i: nat, cable: nat, j: nat)
    requires Plannable(l) && l.wiring.AroundRing? && i < |l.order| && cable < |l.order|
    requires (cable == i && j == Successor(|l.order|, i)) || (cable == j && j == Predecessor(|l.order|, i))
    ensures var port := if cable == i then 0 else 1;
            PingsUpTo(l, i, 2 * cable + 2) == PingsUpTo(l, i, 2 * cable) + Towards(l, port, cable, j)
  {
    RingEnds(l, i, cable, j);
    hide PortAt, Plannable, OnCable, Predecessor, Successor;
    OneTarget(l, i, cable, j, 0);
    OneTarget(l, i, cable, j, 1);
    PingsOfCable(l, i, cable);
  }

  lemma RingEnds(l: Layout, i: nat, cable: nat, j: nat)
    requires Plannable(l) && l.wiring.AroundRing? && i < |l.order| && cable < |l.order|
    requires (cable == i && j == Successor(|l.order|, i)) || (cable == j && j == Predecessor(|l.order|, i))
    ensures i != j && cable < Cables(l) && (OnCable(l, cable) == [i, j] || OnCable(l, cable) == [j, i])
    ensures PortAt(l, i, cable) == if cable == i then 0 else 1
  {
  }

  /**
   * Around a ring, a node has four interfaces: both rails of port 0 on its own cable, which leads to the next
   * node, and both rails of port 1 on the cable of the node before it; and the only targets it pings are the
   * other ends of those.
   */
  lemma RingPlan(l: Layout, mtu: int, plan: Plan, i: nat)
    requires Plannable(l) && l.wiring.AroundRing? && Planned(l, mtu, plan) && i < |l.order|
    ensures l.order[i] in plan
    ensures var n := |l.order|;
            var next, before := if i + 1 < n then i + 1 else 0, if i > 0 then i - 1 else n - 1;
            && plan[l.order[i]].interfaces
               == map[Cx7(0, 0) := Cidr(End(l, i, i, 0), 24), Cx7(0, 1) := Cidr(End(l, i, i, 1), 24),
                      Cx7(1, 0) := Cidr(End(l, i, before, 0), 24), Cx7(1, 1) := Cidr(End(l, i, before, 1), 24)]
            && plan[l.order[i]].pings
               == if i > 0 then Towards(l, 1, before, before) + Towards(l, 0, i, next)
                  else Towards(l, 0, i, next) + Towards(l, 1, before, before)
  {
    hide InterfacesUpTo, PingsUpTo, Towards, End, PlanUpTo;
    PlanOfNode(l, mtu, plan, i);
    RingInterfaces(l, i);
    RingPings(l, i);
  }

  lemma PlanOfNode(l: Layout, mtu: int, plan: Plan, i: nat)
    requires Plannable(l) && Planned(l, mtu, plan) && i < |l.order|
    ensures l.order[i] in plan
    ensures plan[l.order[i]].interfaces == InterfacesUpTo(l, i, Subnets(l))
    ensures plan[l.order[i]].pings == PingsUpTo(l, i, Subnets(l))
  {
    hide Plannable, InterfacesUpTo, PingsUpTo;
    assert plan[l.order[i]] == PlanUpTo(l, mtu, i, Subnets(l));
  }

  lemma RingInterfaces(l: Layout, i: nat)
    requires Plannable(l) && l.wiring.AroundRing? && i < |l.order|
    ensures var before := Predecessor(|l.order|, i);
            InterfacesUpTo(l, i, Subnets(l))
            == map[Cx7(0, 0) := Cidr(End(l, i, i, 0), 24), Cx7(0, 1) := Cidr(End(l, i, i, 1), 24),
                   Cx7(1, 0) := Cidr(End(l, i, before, 0), 24), Cx7(1, 1) := Cidr(End(l, i, before, 1), 24)]
  {
    var before := Predecessor(|l.order|, i);
    var all := InterfacesUpTo(l, i, Subnets(l));
    forall port, rail | 0 <= port < 2 && 0 <= rail < 2
      ensures var cable := if port == 0 then i else before;
              Cx7(port, rail) in all && all[Cx7(port, rail)] == Cidr(End(l, i, cable, rail), 24)
    {
      var s := 2 * (if port == 0 then i else before) + rail;
      RingHolds(l, i, port, rail);
      HeldInterface(l, i, Cx7(port, rail), Subnets(l), s);
    }
    forall name | name in all
      ensures name in {Cx7(0, 0), Cx7(0, 1), Cx7(1, 0), Cx7(1, 1)}
    {
      InterfaceHeld(l, i, name, Subnets(l));
    }
    hide InterfacesUpTo, Predecessor;
  }

  lemma RingHolds(l: Layout, i: nat, port: int, rail: int)
    requires Plannable(l) && l.wiring.AroundRing? && i < |l.order| && 0 <= port < 2 && 0 <= rail < 2
    ensures var s := 2 * (if port == 0 then i else Predecessor(|l.order|, i)) + rail;
            0 <= s < Subnets(l) && Holds(l, i, Cx7(port, rail), s)
  {
  }

  lemma RingPings(l: Layout, i: nat)
    requires Plannable(l) && l.wiring.AroundRing? && i < |l.order|
    ensures var next, before := Successor(|l.order|, i), Predecessor(|l.order|, i);
            PingsUpTo(l, i, Subnets(l))
            == if i > 0 then Towards(l, 1, before, before) + Towards(l, 0, i, next)
               else Towards(l, 0, i, next) + Towards(l, 1, before, before)
  {
    hide *;
    var n, next, before := |l.order|, Successor(|l.order|, i), Predecessor(|l.order|, i);
    RingAround(l, i);
    RingUnplugged(l, i);
    RingCable(l, i, i, next);
    RingCable(l, i, before, before);
    NoPings(l, i);
    if i > 0 {
      PingsSkip(l, i, 0, before);
      PingsSkip(l, i, i + 1, n);
      Begins(PingsUpTo(l, i, 0), Towards(l, 1, before, before));
    } else {
      PingsSkip(l, i, 1, n - 1);
      Begins(PingsUpTo(l, i, 0), Towards(l, 0, i, next));
    }
  }

  lemma Begins<T>(none: seq<T>, s: seq<T>)
    requires none == []
    ensures none + s == s
  {
  }

  lemma RingAround(l: Layout, i: nat)
    requires Plannable(l) && l.wiring.AroundRing? && i < |l.order|
    ensures var before := Predecessor(|l.order|, i);
            && before == (if i > 0 then i - 1 else |l.order| - 1) && Cables(l) == |l.order|
            && Subnets(l) == 2 * |l.order| && |l.order| > 2
  {
  }

  lemma NoPings(l: Layout, i: nat)
    requires Plannable(l) && i < |l.order|
    ensures PingsUpTo(l, i, 0) == []
  {
  }

  lemma RingUnplugged(l: Layout, i: nat)
    requires Plannable(l) && l.wiring.AroundRing? && i < |l.order|
    ensures i > 0 ==> Unplugged(l, i, 0, i - 1) && Unplugged(l, i, i + 1, |l.order|)
    ensures i == 0 ==> Unplugged(l, i, 1, |l.order| - 1)
  {
  }

  // ----- on a common network -----

  /** Every other node's address on one rail of the common network. */
  function AllOthers(l: Layout, i: nat, port: int, rail: int): (r: seq<(Name, Addr)>)
    requires i < |l.order|
    ensures |r| == |l.order| - 1
    ensures forall k | 0 <= k < |r| :: r[k] == (Cx7(port, rail), End(l, if k < i then k else k + 1, 0, rail))
  {
    seq(|l.order| - 1, k requires 0 <= k => (Cx7(port, rail), End(l, if k < i then k else k + 1, 0, rail)))
  }

  /**
   * On a common network, a node has the two rails of its own port, and pings every other node in order
   * on the first rail and then on the second.
   */
  lemma OnePortPlan(l: Layout, mtu: int, plan: Plan, i: nat)
    requires Plannable(l) && l.wiring.OnePort? && Planned(l, mtu, plan) && i < |l.order|
    ensures l.order[i] in plan && l.order[i] in l.wiring.ports
    ensures var port := l.wiring.ports[l.order[i]];
            && plan[l.order[i]].interfaces
               == map[Cx7(port, 0) := Cidr(End(l, i, 0, 0), 24), Cx7(port, 1) := Cidr(End(l, i, 0, 1), 24)]
            && plan[l.order[i]].pings == AllOthers(l, i, port, 0) + AllOthers(l, i, port, 1)
  {
    hide InterfacesUpTo, PingsUpTo, AllOthers, End, PlanUpTo;
    PortIsListed(l, i);
    PlanOfNode(l, mtu, plan, i);
    OnePortInterfaces(l, i);
    OnePortPings(l, i);
  }

  lemma OnePortInterfaces(l: Layout, i: nat)
    requires Plannable(l) && l.wiring.OnePort? && i < |l.order|
    ensures l.order[i] in l.wiring.ports
    ensures var port := l.wiring.ports[l.order[i]];
            InterfacesUpTo(l, i, Subnets(l))
            == map[Cx7(port, 0) := Cidr(End(l, i, 0, 0), 24), Cx7(port, 1) := Cidr(End(l, i, 0, 1), 24)]
  {
    PortIsListed(l, i);
    var port, all := l.wiring.ports[l.order[i]], InterfacesUpTo(l, i, Subnets(l));
    HeldInterface(l, i, Cx7(port, 0), Subnets(l), 0);
    HeldInterface(l, i, Cx7(port, 1), Subnets(l), 1);
    forall name | name in all
      ensures name in {Cx7(port, 0), Cx7(port, 1)}
    {
      InterfaceHeld(l, i, name, Subnets(l));
    }
    hide InterfacesUpTo;
  }

  lemma OnePortPings(l: Layout, i: nat)
    requires Plannable(l) && l.wiring.OnePort? && i < |l.order|
    ensures l.order[i] in l.wiring.ports
    ensures var port := l.wiring.ports[l.order[i]];
            PingsUpTo(l, i, Subnets(l)) == AllOthers(l, i, port, 0) + AllOthers(l, i, port, 1)
  {
    OnlyCable(l, i);
    hide *;
    var port, on := l.wiring.ports[l.order[i]], OnCable(l, 0);
    assert on[..|l.order|] == on;
    OthersUpTo(l, i, port, 0, |l.order|);
    OthersUpTo(l, i, port, 1, |l.order|);
    var first, second := AllOthers(l, i, port, 0), AllOthers(l, i, port, 1);
    assert first[..|l.order| - 1] == first && second[..|l.order| - 1] == second;
    PingsOfCable(l, i, 0);
    NoPings(l, i);
    Begins(PingsUpTo(l, i, 0), first + second);
  }

  lemma OnlyCable(l: Layout, i: nat)
    requires Plannable(l) && l.wiring.OnePort? && i < |l.order|
    ensures Cables(l) == 1 && Subnets(l) == 2 && l.order[i] in l.wiring.ports
    ensures PortAt(l, i, 0) == l.wiring.ports[l.order[i]] >= 0
    ensures |OnCable(l, 0)| == |l.order| && forall k | 0 <= k < |l.order| :: OnCable(l, 0)[k] == k
  {
    PortIsListed(l, i);
  }

  lemma {:induction false} OthersUpTo(l: Layout, i: nat, port: int, rail: int, m: nat)
    requires Plannable(l) && l.wiring.OnePort? && i < |l.order| && m <= |l.order| && 0 <= rail < 2
    requires PortAt(l, i, 0) == port && |OnCable(l, 0)| == |l.order|
    ensures TargetsAt(l, i, rail, OnCable(l, 0)[..m]) == AllOthers(l, i, port, rail)[..if m <= i then m else m - 1]
  {
    hide PortAt, Plannable, AllOthers, OnCable;
    var on, others := OnCable(l, 0), AllOthers(l, i, port, rail);
    if m > 0 {
      OnlyCable(l, i);
      OthersUpTo(l, i, port, rail, m - 1);
      assert on[..m][..m - 1] == on[..m - 1] && on[m - 1] == m - 1;
      OtherAt(l, i, port, rail, m - 1);
    }
  }

  lemma OtherAt(l: Layout, i: nat, port: int, rail: int, j: nat)
    requires Plannable(l) && i < |l.order| && j < |l.order| && 0 <= rail < 2 && PortAt(l, i, 0) == port
    ensures j != i ==>
              AllOthers(l, i, port, rail)[if j < i then j else j - 1] == (NameAt(l, i, rail), AddressAt(l, j, rail))
  {
    hide PortAt, Plannable;
    assert rail / 2 == 0 && rail % 2 == rail;
  }

  // ----- the links a launch environment lists -----

  /** Around a ring, two links for each node: the rails of its own cable, to the next node's port on them. */
  lemma RingLinks(l: Layout)
    requires Plannable(l) && l.wiring.AroundRing?
    ensures |Links(l)| == 2 * |l.order|
    ensures forall i: nat, rail: nat | i < |l.order| && rail < 2 ::
              var next := if i + 1 < |l.order| then i + 1 else 0;
              Links(l)[2 * i + rail] == Link(l.order[i], End(l, i, i, rail), l.order[next], End(l, next, i, rail))
  {
    PairsAre(l);
    hide Plannable;
    forall i: nat, rail: nat | i < |l.order| && rail < 2
      ensures var next := if i + 1 < |l.order| then i + 1 else 0;
              Links(l)[2 * i + rail] == Link(l.order[i], End(l, i, i, rail), l.order[next], End(l, next, i, rail))
    {
      assert (2 * i + rail) / 2 == i && (2 * i + rail) % 2 == rail;
      assert Pairs(l)[i] == (i, Successor(|l.order|, i));
    }
  }

  /** The link between two nodes on one rail of a common network. */
  ghost predicate IsCommonLink(l: Layout, link: Link, i: nat, j: nat, rail: nat) {
    && i < j < |l.order| && rail < 2
    && link == Link(l.order[i], End(l, i, 0, rail), l.order[j], End(l, j, 0, rail))
  }

  lemma CommonPairs(l: Layout)
    requires Plannable(l) && l.wiring.OnePort?
    ensures forall i: nat, j: nat :: (i, j) in Pairs(l) <==> i < j < |l.order|
  {
    forall i: nat, j: nat
      ensures (i, j) in Pairs(l) <==> i < j < |l.order|
    {
      PairsBelowHold(|l.order|, |l.order|, i, j);
    }
  }

  /** On a common network, exactly the links between an earlier and a later node on either rail. */
  lemma CommonLinks(l: Layout, link: Link)
    requires Plannable(l) && l.wiring.OnePort?
    ensures link in Links(l) <==> exists i: nat, j: nat, rail: nat :: IsCommonLink(l, link, i, j, rail)
  {
    hide Plannable, Pairs, Links, LinkAt, IsCommonLink;
    CommonPairs(l);
    if link in Links(l) {
      var k :| 0 <= k < |Links(l)| && Links(l)[k] == link;
      LinkOfPair(l, k);
    }
    if i: nat, j: nat, rail: nat :| IsCommonLink(l, link, i, j, rail) {
      PairLinked(l, link, i, j, rail);
    }
  }

  lemma LinkOfPair(l: Layout, k: nat)
    requires Plannable(l) && l.wiring.OnePort? && k < |Links(l)|
    ensures exists i: nat, j: nat, rail: nat :: IsCommonLink(l, Links(l)[k], i, j, rail)
  {
    CommonPairs(l);
    PairsAre(l);
    hide Plannable, Pairs;
    var pair := Pairs(l)[k / 2];
    assert pair == (pair.0, pair.1) && pair in Pairs(l);
    assert IsCommonLink(l, Links(l)[k], pair.0, pair.1, k % 2);
  }

  lemma PairLinked(l: Layout, link: Link, i: nat, j: nat, rail: nat)
    requires Plannable(l) && l.wiring.OnePort? && IsCommonLink(l, link, i, j, rail)
    ensures link in Links(l)
  {
    CommonPairs(l);
    PairsAre(l);
    hide Plannable, Pairs;
    assert (i, j) in Pairs(l);
    var p :| 0 <= p < |Pairs(l)| && Pairs(l)[p] == (i, j);
    assert (2 * p + rail) / 2 == p && (2 * p + rail) % 2 == rail;
    assert Links(l)[2 * p + rail] == link;
  }
}
