/** Assigning a subnet to each rail of each cable, and an address on it to each node the cable reaches. */
module Planner {
  import opened Results
  import opened Graphs
  import opened Rings
  import opened Addressing

  datatype NodePlan = NodePlan(interfaces: map<Name, Cidr>, mtu: int, nodes: seq<Addr>, subnets: set<Network>,
                               managementIp: Addr, pings: seq<(Name, Addr)>, sshTargets: seq<Addr>)

  type Plan = map<Addr, NodePlan>

  datatype PlanFault = BadMtu | NotPrivate | NoWholeSubnets | TooFewSubnets | OverlapsManagement

  // ----- the pool -----

  predicate Within(n: Network, first: Addr, size: int) {
    first <= n.base && n.base + BlockSize(n.prefix) <= first + size
  }

  /** Inside 10.0.0.0/8, 172.16.0.0/12 or 192.168.0.0/16. */
  predicate Private(n: Network) {
    Within(n, 0x0A00_0000, 0x100_0000) || Within(n, 0xAC10_0000, 0x10_0000) || Within(n, 0xC0A8_0000, 0x1_0000)
  }

  function SubnetList(base: Addr, count: nat): (r: seq<Network>)
    ensures |r| == count && forall s | 0 <= s < count :: r[s] == Network(base + 256 * s, 24)
  {
    if count == 0 then [] else SubnetList(base, count - 1) + [Network(base + 256 * (count - 1), 24)]
  }

  function SubnetSet(base: Addr, count: nat): set<Network> {
    set n | n in SubnetList(base, count)
  }

  predicate Contains(n: Network, address: Addr) {
    n.base <= address < n.base + BlockSize(n.prefix)
  }

  predicate Overlaps(order: seq<Addr>, subnets: seq<Network>) {
    exists k, s | 0 <= k < |order| && 0 <= s < |subnets| :: Contains(subnets[s], order[k])
  }

  function Needed(order: seq<Addr>, wiring: Wiring): nat {
    if wiring.AroundRing? then |order| * 2 else 2
  }

  /** Why a pool cannot hold the plan, in the order in which it is checked. */
  function PoolFault(order: seq<Addr>, wiring: Wiring, pool: Network, mtu: int): Option<PlanFault> {
    if !(68 <= mtu <= 65535) then Some(BadMtu)
    else if !Private(pool) then Some(NotPrivate)
    else if pool.prefix > 24 then Some(NoWholeSubnets)
    else if BlockSize(pool.prefix) / 256 < Needed(order, wiring) then Some(TooFewSubnets)
    else if Overlaps(order, SubnetList(pool.base, Needed(order, wiring))) then Some(OverlapsManagement)
    else None
  }

  // ----- reachability targets -----

  /** Every node but this one, in the listed order. */
  function Peers(order: seq<Addr>, node: Addr): seq<Addr> {
    if order == [] then []
    else Peers(order[..|order| - 1], node) + if order[|order| - 1] != node then [order[|order| - 1]] else []
  }

  /** The addresses on subnet `s` of the listed positions other than `i`, each with the interface it is reached by. */
  function TargetsAt(l: Layout, i: nat, s: nat, on: seq<nat>): seq<(Name, Addr)>
    requires Plannable(l) && i < |l.order|
  {
    if on == [] then []
    else
      var j := on[|on| - 1];
      TargetsAt(l, i, s, on[..|on| - 1]) + if j != i then [(NameAt(l, i, s), AddressAt(l, j, s))] else []
  }

  function PingsUpTo(l: Layout, i: nat, s: nat): seq<(Name, Addr)>
    requires Plannable(l) && i < |l.order| && s <= Subnets(l)
  {
    if s == 0 then []
    else PingsUpTo(l, i, s - 1)
         + if PortAt(l, i, (s - 1) / 2) < 0 then [] else TargetsAt(l, i, s - 1, OnCable(l, (s - 1) / 2))
  }

  function Addresses(targets: seq<(Name, Addr)>): seq<Addr> {
    seq(|targets|, k requires 0 <= k < |targets| => targets[k].1)
  }

  function PlanUpTo(l: Layout, mtu: int, i: nat, s: nat): NodePlan
    requires Plannable(l) && i < |l.order| && s <= Subnets(l)
  {
    NodePlan(InterfacesUpTo(l, i, s), mtu, l.order, SubnetSet(l.base, Subnets(l)), l.order[i],
             PingsUpTo(l, i, s), Peers(l.order, l.order[i]) + Addresses(PingsUpTo(l, i, s)))
  }

  /** The plan has an entry for exactly the listed nodes, filled in for the first `s` subnets. */
  ghost predicate PlannedUpTo(l: Layout, mtu: int, plan: Plan, s: nat)
    requires Plannable(l) && s <= Subnets(l)
  {
    && plan.Keys == Members(l.order)
    && forall i | 0 <= i < |l.order| :: l.order[i] in plan && plan[l.order[i]] == PlanUpTo(l, mtu, i, s)
  }

  ghost predicate Planned(l: Layout, mtu: int, plan: Plan)
    requires Plannable(l)
  {
    PlannedUpTo(l, mtu, plan, Subnets(l))
  }

  // ----- making the plan -----

  method ListPeers(order: seq<Addr>, node: Addr) returns (peers: seq<Addr>)
    ensures peers == Peers(order, node)
  {
    peers := [];
    for k := 0 to |order|
      invariant peers == Peers(order[..k], node)
    {
      assert order[..k + 1][..k] == order[..k];
      if order[k] != node {
        peers := peers + [order[k]];
      }
    }
    assert order[..|order|] == order;
  }

  ghost predicate StartedUpTo(l: Layout, mtu: int, plan: Plan, k: nat)
    requires Plannable(l) && k <= |l.order|
  {
    && plan.Keys == Members(l.order[..k])
    && forall i | 0 <= i < k :: l.order[i] in plan && plan[l.order[i]] == PlanUpTo(l, mtu, i, 0)
  }

  method StartPlan(l: Layout, mtu: int) returns (plan: Plan)
    requires Plannable(l)
    ensures PlannedUpTo(l, mtu, plan, 0)
  {
    plan := map[];
    assert StartedUpTo(l, mtu, plan, 0);
    for k := 0 to |l.order|
      invariant StartedUpTo(l, mtu, plan, k)
    {
      var node := l.order[k];
      var peers := ListPeers(l.order, node);
      EmptyPlan(l, mtu, k);
      StartOneMore(l, mtu, plan, k);
      hide *;
      plan := plan[node := NodePlan(map[], mtu, l.order, SubnetSet(l.base, Subnets(l)), node, [], peers)];
    }
    assert l.order[..|l.order|] == l.order;
  }

  lemma StartOneMore(l: Layout, mtu: int, plan: Plan, k: nat)
    requires Plannable(l) && k < |l.order| && StartedUpTo(l, mtu, plan, k)
    ensures StartedUpTo(l, mtu, plan[l.order[k] := PlanUpTo(l, mtu, k, 0)], k + 1)
  {
    hide PlanUpTo, Members;
    MembersOneMore(l.order, k);
    assert forall i | 0 <= i < k :: l.order[i] != l.order[k];
  }

  lemma EmptyPlan(l: Layout, mtu: int, i: nat)
    requires Plannable(l) && i < |l.order|
    ensures PlanUpTo(l, mtu, i, 0) == NodePlan(map[], mtu, l.order, SubnetSet(l.base, Subnets(l)), l.order[i], [],
                                               Peers(l.order, l.order[i]))
  {
    assert Peers(l.order, l.order[i]) + Addresses([]) == Peers(l.order, l.order[i]);
  }

  lemma MembersOneMore(order: seq<Addr>, k: nat)
    requires k < |order|
    ensures Members(order[..k + 1]) == Members(order[..k]) + {order[k]}
  {
    assert order[..k + 1] == order[..k] + [order[k]];
  }

  function IndexOf(order: seq<Addr>, node: Addr): (i: nat)
    requires node in order
    ensures i < |order| && order[i] == node && forall k | 0 <= k < i :: order[k] != node
  {
    if order[0] == node then 0 else 1 + IndexOf(order[1..], node)
  }

  /** What joining the `s`-th subnet adds to a node's plan. */
  lemma PlanStep(l: Layout, mtu: int, i: nat, s: nat)
    requires Plannable(l) && i < |l.order| && s < Subnets(l)
    ensures PortAt(l, i, s / 2) < 0 ==> PlanUpTo(l, mtu, i, s + 1) == PlanUpTo(l, mtu, i, s)
    ensures PortAt(l, i, s / 2) >= 0 ==>
              var p, targets := PlanUpTo(l, mtu, i, s), TargetsAt(l, i, s, OnCable(l, s / 2));
              PlanUpTo(l, mtu, i, s + 1)
              == p.(interfaces := p.interfaces[NameAt(l, i, s) := Cidr(AddressAt(l, i, s), 24)],
                    pings := p.pings + targets, sshTargets := p.sshTargets + Addresses(targets))
  {
    var before := PingsUpTo(l, i, s);
    var after := PingsUpTo(l, i, s + 1);
    if PortAt(l, i, s / 2) >= 0 {
      var targets := TargetsAt(l, i, s, OnCable(l, s / 2));
      assert after == before + targets;
      assert Addresses(after) == Addresses(before) + Addresses(targets);
      var peers := Peers(l.order, l.order[i]);
      assert peers + Addresses(after) == (peers + Addresses(before)) + Addresses(targets);
    } else {
      assert after == before;
    }
  }

  /** One endpoint: a node, the port its cable is in, and its address on the cable's subnet. */
  type Endpoint = (Addr, Name, Addr)

  ghost predicate EndpointsOf(l: Layout, s: nat, ends: seq<Endpoint>)
    requires Plannable(l) && s < Subnets(l)
  {
    var on := OnCable(l, s / 2);
    && |ends| == |on|
    && forall k | 0 <= k < |on| ::
         on[k] < |l.order| && ends[k] == (l.order[on[k]], NameAt(l, on[k], s), AddressAt(l, on[k], s))
  }

  /** The addresses other endpoints have, as targets of one interface. */
  method OtherEnds(l: Layout, s: nat, ends: seq<Endpoint>, k: nat) returns (targets: seq<(Name, Addr)>)
    requires Plannable(l) && s < Subnets(l) && EndpointsOf(l, s, ends) && k < |ends|
    ensures targets == TargetsAt(l, OnCable(l, s / 2)[k], s, OnCable(l, s / 2))
  {
    ghost var on := OnCable(l, s / 2);
    targets := [];
    for j := 0 to |ends|
      invariant targets == TargetsAt(l, on[k], s, on[..j])
    {
      assert on[..j + 1][..j] == on[..j];
      if ends[j].0 != ends[k].0 {
        targets := targets + [(ends[k].1, ends[j].2)];
      }
    }
    assert on[..|on|] == on;
  }

  method ListEndpoints(l: Layout, s: nat) returns (ends: seq<Endpoint>)
    requires Plannable(l) && s < Subnets(l)
    ensures EndpointsOf(l, s, ends)
  {
    OnCableDistinct(l, s / 2);
    var on := OnCable(l, s / 2);
    ends := [];
    for k := 0 to |on|
      invariant |ends| == k
      invariant forall j | 0 <= j < k :: ends[j] == (l.order[on[j]], NameAt(l, on[j], s), AddressAt(l, on[j], s))
    {
      var node := l.order[on[k]];
      ends := ends + [(node, NameAt(l, on[k], s), l.base + 256 * s + 11 + IndexOf(l.order, node))];
    }
  }

  /** On subnet `s`, the positions in `joined` have been dealt with and the others have not. */
  ghost function Entries(l: Layout, mtu: int, s: nat, joined: seq<nat>): (r: seq<NodePlan>)
    requires Plannable(l) && s < Subnets(l)
    ensures |r| == |l.order|
  {
    seq(|l.order|, j requires 0 <= j < |l.order| => PlanUpTo(l, mtu, j, Stage(joined, j, s)))
  }

  ghost predicate Lists(plan: Plan, order: seq<Addr>, entries: seq<NodePlan>)
    requires |entries| == |order|
  {
    && plan.Keys == Members(order)
    && forall j | 0 <= j < |order| :: order[j] in plan && plan[order[j]] == entries[j]
  }

  function Stage(joined: seq<nat>, i: nat, s: nat): (stage: nat)
    ensures stage <= s + 1
  {
    if i in joined then s + 1 else s
  }

  method JoinOne(l: Layout, mtu: int, plan: Plan, s: nat, ends: seq<Endpoint>, k: nat) returns (plan': Plan)
    requires Plannable(l) && s < Subnets(l) && EndpointsOf(l, s, ends) && k < |ends|
    requires Lists(plan, l.order, Entries(l, mtu, s, OnCable(l, s / 2)[..k]))
    ensures Lists(plan', l.order, Entries(l, mtu, s, OnCable(l, s / 2)[..k + 1]))
  {
    ghost var on := OnCable(l, s / 2);
    OnCableDistinct(l, s / 2);
    ghost var i := on[k];
    OnCableIsPlugged(l, s / 2, i);
    StagesOneMore(on, k, s);
    PlanStep(l, mtu, i, s);
    JoinedEntry(l, mtu, plan, s, k);
    hide PlanUpTo, PortAt, OnCable, TargetsAt, AddressAt, Plannable, PlanUpTo, Distinct, Stage;
    var (node, name, address) := ends[k];
    var targets := OtherEnds(l, s, ends, k);
    var p := plan[node];
    assert p == Entries(l, mtu, s, on[..k])[i] == PlanUpTo(l, mtu, i, s);
    hide Lists, Entries;
    plan' := plan[node := p.(interfaces := p.interfaces[name := Cidr(address, 24)],
                             pings := p.pings + targets, sshTargets := p.sshTargets + Addresses(targets))];
  }

  lemma JoinedEntry(l: Layout, mtu: int, plan: Plan, s: nat, k: nat)
    requires Plannable(l) && s < Subnets(l) && k < |OnCable(l, s / 2)|
    requires Lists(plan, l.order, Entries(l, mtu, s, OnCable(l, s / 2)[..k]))
    ensures var i := OnCable(l, s / 2)[k];
            i < |l.order|
              && Lists(plan[l.order[i] := PlanUpTo(l, mtu, i, s + 1)], l.order,
                       Entries(l, mtu, s, OnCable(l, s / 2)[..k + 1]))
  {
    OnCableDistinct(l, s / 2);
    EntriesOneMore(l, mtu, s, k);
    hide *;
    var on := OnCable(l, s / 2);
    EntryReplaced(l.order, plan, Entries(l, mtu, s, on[..k]), on[k], PlanUpTo(l, mtu, on[k], s + 1));
  }

  lemma EntriesOneMore(l: Layout, mtu: int, s: nat, k: nat)
    requires Plannable(l) && s < Subnets(l) && k < |OnCable(l, s / 2)|
    ensures var on := OnCable(l, s / 2);
            && on[k] < |l.order|
            && Entries(l, mtu, s, on[..k + 1]) == Entries(l, mtu, s, on[..k])[on[k] := PlanUpTo(l, mtu, on[k], s + 1)]
  {
    OnCableDistinct(l, s / 2);
    StagesOneMore(OnCable(l, s / 2), k, s);
    hide OnCable, PlanUpTo, Stage, PortAt;
  }

  lemma EntryReplaced(order: seq<Addr>, plan: Plan, entries: seq<NodePlan>, i: nat, entry: NodePlan)
    requires Distinct(order) && |entries| == |order| && i < |order| && Lists(plan, order, entries)
    ensures Lists(plan[order[i] := entry], order, entries[i := entry])
  {
    assert forall j | 0 <= j < |order| && j != i :: order[j] != order[i];
    assert order[i] in plan && plan[order[i] := entry].Keys == plan.Keys;
  }

  lemma StagesOneMore(on: seq<nat>, k: nat, s: nat)
    requires k < |on| && forall a, b | 0 <= a < b < |on| :: on[a] != on[b]
    ensures Stage(on[..k], on[k], s) == s && Stage(on[..k + 1], on[k], s) == s + 1
    ensures forall j: nat :: j != on[k] ==> Stage(on[..k + 1], j, s) == Stage(on[..k], j, s)
  {
    assert on[..k + 1] == on[..k] + [on[k]];
  }

  /** Give every endpoint of one cable and rail its address, and the others as targets. */
  method Join(l: Layout, mtu: int, plan: Plan, s: nat) returns (plan': Plan)
    requires Plannable(l) && s < Subnets(l) && PlannedUpTo(l, mtu, plan, s)
    ensures PlannedUpTo(l, mtu, plan', s + 1)
  {
    var ends := ListEndpoints(l, s);
    ghost var on := OnCable(l, s / 2);
    assert Lists(plan, l.order, Entries(l, mtu, s, on[..0]));
    hide Lists, Entries;
    plan' := plan;
    for k := 0 to |ends|
      invariant Lists(plan', l.order, Entries(l, mtu, s, on[..k]))
    {
      plan' := JoinOne(l, mtu, plan', s, ends, k);
    }
    assert on[..|ends|] == on;
    AllJoined(l, mtu, plan', s);
  }

  lemma AllJoined(l: Layout, mtu: int, plan: Plan, s: nat)
    requires Plannable(l) && s < Subnets(l) && Lists(plan, l.order, Entries(l, mtu, s, OnCable(l, s / 2)))
    ensures PlannedUpTo(l, mtu, plan, s + 1)
  {
    forall i | 0 <= i < |l.order|
      ensures Entries(l, mtu, s, OnCable(l, s / 2))[i] == PlanUpTo(l, mtu, i, s + 1)
    {
      EntryJoined(l, mtu, s, i);
    }
    hide PlanUpTo, Entries, OnCable, Members, Plannable, Distinct;
  }

  lemma EntryJoined(l: Layout, mtu: int, s: nat, i: nat)
    requires Plannable(l) && s < Subnets(l) && i < |l.order|
    ensures Entries(l, mtu, s, OnCable(l, s / 2))[i] == PlanUpTo(l, mtu, i, s + 1)
  {
    OnCableIsPlugged(l, s / 2, i);
    PlanStep(l, mtu, i, s);
    hide PlanUpTo, OnCable, PortAt;
  }

  /**
   * The planner: a pool that is too small, not private, or that holds a management
   * address is refused; otherwise each cable gets two subnets, one for each rail.
   */
  method MakePlan(order: seq<Addr>, wiring: Wiring, pool: Network, mtu: int) returns (r: Result<Plan, PlanFault>)
    requires pool.base % BlockSize(pool.prefix) == 0
    requires Plannable(Layout(order, wiring, 0))
    ensures r.Err? <==> PoolFault(order, wiring, pool, mtu).Some?
    ensures r.Err? ==> PoolFault(order, wiring, pool, mtu) == Some(r.error)
    ensures r.Ok? ==> pool.base % 256 == 0 && Planned(Layout(order, wiring, pool.base), mtu, r.value)
  {
    var fault := PoolFault(order, wiring, pool, mtu);
    if fault.Some? {
      return Err(fault.value);
    }
    AlignedPool(pool);
    hide PoolFault;
    var plan := FillPlan(Layout(order, wiring, pool.base), mtu);
    return Ok(plan);
  }

  method FillPlan(l: Layout, mtu: int) returns (plan: Plan)
    requires Plannable(l)
    ensures Planned(l, mtu, plan)
  {
    hide PlannedUpTo, Plannable;
    plan := StartPlan(l, mtu);
    for cable := 0 to Cables(l)
      invariant PlannedUpTo(l, mtu, plan, 2 * cable)
    {
      plan := Join(l, mtu, plan, 2 * cable);
      plan := Join(l, mtu, plan, 2 * cable + 1);
    }
  }

  lemma AlignedPool(pool: Network)
    requires pool.base % BlockSize(pool.prefix) == 0 && pool.prefix <= 24
    ensures pool.base % 256 == 0
  {
    var m := PowerOfTwo(24 - pool.prefix);
    hide PowerOfTwo;
    MultipleOfBoth(pool.base, 256, m);
  }

  lemma MultipleOfBoth(x: int, a: int, b: int)
    requires a > 0 && b > 0 && a * b > 0 && x % (a * b) == 0
    ensures x % a == 0
  {
    var k := x / (a * b);
    assert x == (a * b) * k;
    Regroup(a, b, k);
    Multiple(a, b * k);
  }

  lemma Regroup(a: int, b: int, k: int)
    ensures (a * b) * k == a * (b * k)
  {
  }

  lemma Multiple(a: int, k: int)
    requires a > 0
    ensures (a * k) % a == 0
  {
    var q, r := (a * k) / a, (a * k) % a;
    assert a * k == a * q + r;
    assert r == a * (k - q) by {
      assert a * (k - q) == a * k - a * q;
    }
    Between(a, k - q);
  }

  lemma Between(a: int, d: int)
    requires 0 <= a * d < a
    ensures d == 0
  {
    if d >= 1 {
      Grows(a, d);
    } else if d <= -1 {
      Shrinks(a, d);
    }
  }

  lemma Shrinks(a: int, d: int)
    requires a > 0 && d <= -1
    ensures a * d <= -a
  {
  }

  lemma Grows(a: int, d: int)
    requires a > 0 && d >= 1
    ensures a * d >= a
  {
  }
}
