/** Recovering the cable order of a ring from shared subnets or from LLDP observations. */
module RingDetection {
  import opened Results
  import opened Graphs
  import opened Rings
  import opened Addressing

  // ----- following a successor map -----

  /** `order` lists every node once, from the first, each followed by its successor and the last by the first. */
  ghost predicate SingleCycle(nodes: seq<Addr>, next: map<Addr, Addr>, order: seq<Addr>)
    requires nodes != []
  {
    && Distinct(order) && Members(order) == Members(nodes) && order != [] && order[0] == nodes[0]
    && forall i | 0 <= i < |order| :: Step(next, order, i)
  }

  ghost predicate Step(next: map<Addr, Addr>, order: seq<Addr>, i: nat) {
    i < |order| && order[i] in next && next[order[i]] == order[Successor(|order|, i)]
  }

  ghost predicate Follows(next: map<Addr, Addr>, order: seq<Addr>) {
    && Distinct(order) && order != []
    && (forall i | 0 <= i < |order| :: order[i] in next)
    && forall i | 0 <= i < |order| - 1 :: Step(next, order, i)
  }

  lemma {:induction false} FollowsTheCycle(nodes: seq<Addr>, next: map<Addr, Addr>, order: seq<Addr>, cycle: seq<Addr>,
                                           i: nat)
    requires nodes != [] && SingleCycle(nodes, next, cycle) && Follows(next, order) && order[0] == nodes[0]
    requires |order| <= |cycle| && i < |order|
    ensures order[i] == cycle[i]
  {
    if i > 0 {
      FollowsTheCycle(nodes, next, order, cycle, i - 1);
      assert Step(next, order, i - 1) && Step(next, cycle, i - 1);
    }
  }

  lemma FollowsWithin(nodes: seq<Addr>, next: map<Addr, Addr>, order: seq<Addr>)
    requires Distinct(nodes) && Follows(next, order) && next.Keys == Members(nodes)
    ensures |order| <= |nodes| && (|order| == |nodes| ==> Members(order) == Members(nodes))
  {
    DistinctSize(nodes);
    DistinctSize(order);
    assert Members(order) <= Members(nodes);
    SubsetSize(Members(order), Members(nodes));
  }

  lemma NoOtherCycle(nodes: seq<Addr>, next: map<Addr, Addr>, order: seq<Addr>, cycle: seq<Addr>)
    requires nodes != [] && Distinct(nodes) && next.Keys == Members(nodes)
    requires Follows(next, order) && order[0] == nodes[0] && next[order[|order| - 1]] in order
    requires SingleCycle(nodes, next, cycle)
    ensures order == cycle
  {
    FollowsWithin(nodes, next, order);
    DistinctSize(nodes);
    DistinctSize(cycle);
    forall i | 0 <= i < |order|
      ensures order[i] == cycle[i]
    {
      FollowsTheCycle(nodes, next, order, cycle, i);
    }
    var last := |order| - 1;
    assert Step(next, cycle, last);
    if |order| < |cycle| {
      assert false;
    }
  }

  /** Walk from the first node until a node repeats; the walk is a ring when it closes having seen every node. */
  method FollowCycle(nodes: seq<Addr>, next: map<Addr, Addr>) returns (r: Option<seq<Addr>>)
    requires nodes != [] && Distinct(nodes) && next.Keys == Members(nodes)
    requires forall n | n in next :: next[n] in next
    ensures r.Some? ==> SingleCycle(nodes, next, r.value)
    ensures r.None? ==> forall order :: !SingleCycle(nodes, next, order)
  {
    var order := [nodes[0]];
    StartFollows(nodes, next);
    hide SingleCycle, Follows, Members, Distinct;
    while next[order[|order| - 1]] !in order
      invariant order != [] && order[0] == nodes[0] && order[|order| - 1] in next && Follows(next, order)
      decreases |nodes| - |order|
    {
      FollowsWithin(nodes, next, order);
      OneFurther(next, order);
      var peer := next[order[|order| - 1]];
      order := order + [peer];
      FollowsWithin(nodes, next, order);
    }
    if |order| == |nodes| && next[order[|order| - 1]] == order[0] {
      ClosedIsCycle(nodes, next, order);
    }
    if |order| == |nodes| && next[order[|order| - 1]] == order[0] {
      return Some(order);
    }
    forall cycle
      ensures !SingleCycle(nodes, next, cycle)
    {
      if SingleCycle(nodes, next, cycle) {
        WalkFindsCycle(nodes, next, order, cycle);
        assert false;
      }
    }
    return None;
  }

  lemma StartFollows(nodes: seq<Addr>, next: map<Addr, Addr>)
    requires nodes != [] && next.Keys == Members(nodes)
    ensures Follows(next, [nodes[0]]) && nodes[0] in next
  {
    assert nodes[0] in Members(nodes);
    hide Members;
  }

  lemma ClosedIsCycle(nodes: seq<Addr>, next: map<Addr, Addr>, order: seq<Addr>)
    requires nodes != [] && Distinct(nodes) && Follows(next, order) && next.Keys == Members(nodes)
    requires order[0] == nodes[0] && |order| == |nodes| && next[order[|order| - 1]] == order[0]
    ensures SingleCycle(nodes, next, order)
  {
    FollowsWithin(nodes, next, order);
    assert Step(next, order, |order| - 1);
  }

  lemma WalkFindsCycle(nodes: seq<Addr>, next: map<Addr, Addr>, order: seq<Addr>, cycle: seq<Addr>)
    requires nodes != [] && Distinct(nodes) && next.Keys == Members(nodes)
    requires Follows(next, order) && order[0] == nodes[0] && next[order[|order| - 1]] in order
    requires SingleCycle(nodes, next, cycle)
    ensures |order| == |nodes| && next[order[|order| - 1]] == order[0]
  {
    NoOtherCycle(nodes, next, order, cycle);
    DistinctSize(nodes);
    DistinctSize(cycle);
    assert Step(next, cycle, |cycle| - 1);
  }

  lemma OneFurther(next: map<Addr, Addr>, order: seq<Addr>)
    requires Follows(next, order) && next[order[|order| - 1]] !in order && next[order[|order| - 1]] in next
    ensures Follows(next, order + [next[order[|order| - 1]]])
  {
    var longer := order + [next[order[|order| - 1]]];
    forall i | 0 <= i < |longer| - 1
      ensures Step(next, longer, i)
    {
      if i < |order| - 1 {
        assert Step(next, order, i);
      }
    }
  }

  // ----- shared subnets -----

  /** The networks each CX7 interface has addresses on. */
  type Networks = map<Addr, map<Name, set<Network>>>

  function NetworksOn(nets: Networks, node: Addr, name: Name): set<Network> {
    if node in nets && name in nets[node] then nets[node][name] else {}
  }

  /** Port 0 of `a` and port 1 of `b` have addresses on a common network, on this rail. */
  predicate Shares(nets: Networks, a: Addr, b: Addr, rail: int) {
    NetworksOn(nets, a, Cx7(0, rail)) * NetworksOn(nets, b, Cx7(1, rail)) != {}
  }

  /** On both rails, `b` is the one other node that port 0 of `a` shares a network with. */
  ghost predicate OnlyShares(nodes: seq<Addr>, nets: Networks, a: Addr, b: Addr) {
    b in nodes && b != a
    && forall p, rail | p in nodes && p != a && 0 <= rail <= 1 :: Shares(nets, a, p, rail) <==> p == b
  }

  ghost predicate SubnetRing(nodes: seq<Addr>, nets: Networks, order: seq<Addr>)
    requires nodes != []
  {
    && Distinct(order) && Members(order) == Members(nodes) && order != [] && order[0] == nodes[0]
    && forall i | 0 <= i < |order| :: SharesNext(nodes, nets, order, i)
  }

  ghost predicate SharesNext(nodes: seq<Addr>, nets: Networks, order: seq<Addr>, i: nat) {
    i < |order| && OnlyShares(nodes, nets, order[i], order[Successor(|order|, i)])
  }

  method Matching(nodes: seq<Addr>, nets: Networks, node: Addr, rail: int) returns (matches: seq<Addr>)
    requires Distinct(nodes)
    ensures Distinct(matches)
    ensures forall p :: p in matches <==> p in nodes && p != node && Shares(nets, node, p, rail)
  {
    matches := [];
    for k := 0 to |nodes|
      invariant Distinct(matches)
      invariant forall p :: p in matches <==> p in nodes[..k] && p != node && Shares(nets, node, p, rail)
    {
      assert nodes[..k + 1] == nodes[..k] + [nodes[k]];
      if nodes[k] != node && Shares(nets, node, nodes[k], rail) {
        matches := matches + [nodes[k]];
      }
    }
    assert nodes[..|nodes|] == nodes;
  }

  method OnlySharing(nodes: seq<Addr>, nets: Networks, node: Addr) returns (r: Option<Addr>)
    requires Distinct(nodes)
    ensures r.Some? ==> OnlyShares(nodes, nets, node, r.value)
    ensures r.None? ==> forall b :: !OnlyShares(nodes, nets, node, b)
  {
    var first := Matching(nodes, nets, node, 0);
    var second := Matching(nodes, nets, node, 1);
    hide Shares;
    if |first| != 1 || first != second {
      forall b
        ensures !OnlyShares(nodes, nets, node, b)
      {
        if OnlyShares(nodes, nets, node, b) {
          OnlyElement(first, b);
          OnlyElement(second, b);
        }
      }
      return None;
    }
    var b := first[0];
    assert forall p :: p in first <==> p == b;
    assert b in first;
    forall p, rail | p in nodes && p != node && 0 <= rail <= 1
      ensures Shares(nets, node, p, rail) <==> p == b
    {
      assert p in second <==> p == b;
      assert rail == 0 || rail == 1;
    }
    return Some(first[0]);
  }

  lemma OnlyElement(s: seq<Addr>, b: Addr)
    requires Distinct(s) && forall p :: p in s <==> p == b
    ensures s == [b]
  {
    assert b in s;
    DistinctSize(s);
    assert Members(s) == {b};
    assert s[0] in s;
  }

  lemma OnlySharesOnce(nodes: seq<Addr>, nets: Networks, a: Addr, b: Addr, c: Addr)
    requires OnlyShares(nodes, nets, a, b) && OnlyShares(nodes, nets, a, c)
    ensures b == c
  {
    assert Shares(nets, a, b, 0) <==> b == c;
    assert Shares(nets, a, b, 0);
  }

  /** Ring order from subnets: found exactly when both rails agree on one ring through every node. */
  method DetectRing(nodes: seq<Addr>, nets: Networks) returns (r: Option<seq<Addr>>)
    requires nodes != [] && Distinct(nodes)
    ensures r.Some? ==> SubnetRing(nodes, nets, r.value)
    ensures r.None? ==> forall order :: !SubnetRing(nodes, nets, order)
  {
    var next: map<Addr, Addr> := map[];
    hide OnlyShares;
    for k := 0 to |nodes|
      invariant next.Keys == Members(nodes[..k])
      invariant forall n | n in next :: OnlyShares(nodes, nets, n, next[n])
    {
      var peer := OnlySharing(nodes, nets, nodes[k]);
      if peer.None? {
        forall order
          ensures !SubnetRing(nodes, nets, order)
        {
          if SubnetRing(nodes, nets, order) {
            RingShares(nodes, nets, order, nodes[k]);
          }
        }
        return None;
      }
      MembersGrow(nodes, k);
      next := next[nodes[k] := peer.value];
    }
    assert nodes[..|nodes|] == nodes;
    NextStays(nodes, nets, next);
    r := FollowCycle(nodes, next);
    CyclesAreSubnetRings(nodes, nets, next);
  }

  lemma MembersGrow(order: seq<Addr>, k: nat)
    requires k < |order|
    ensures Members(order[..k + 1]) == Members(order[..k]) + {order[k]}
  {
    assert order[..k + 1] == order[..k] + [order[k]];
  }

  lemma NextStays(nodes: seq<Addr>, nets: Networks, next: map<Addr, Addr>)
    requires next.Keys == Members(nodes) && forall n | n in next :: OnlyShares(nodes, nets, n, next[n])
    ensures forall n | n in next :: next[n] in next
  {
    forall n | n in next
      ensures next[n] in next
    {
      assert next[n] in Members(nodes);
    }
  }

  lemma RingShares(nodes: seq<Addr>, nets: Networks, order: seq<Addr>, node: Addr)
    requires nodes != [] && node in nodes && SubnetRing(nodes, nets, order)
    ensures exists b :: OnlyShares(nodes, nets, node, b)
  {
    assert node in Members(order);
    var i :| 0 <= i < |order| && order[i] == node;
    assert SharesNext(nodes, nets, order, i);
  }

  lemma CyclesAreSubnetRings(nodes: seq<Addr>, nets: Networks, next: map<Addr, Addr>)
    requires nodes != [] && next.Keys == Members(nodes) && forall n | n in next :: OnlyShares(nodes, nets, n, next[n])
    ensures forall order :: SingleCycle(nodes, next, order) <==> SubnetRing(nodes, nets, order)
  {
    forall order
      ensures SingleCycle(nodes, next, order) <==> SubnetRing(nodes, nets, order)
    {
      CycleIsSubnetRing(nodes, nets, next, order);
    }
  }

  lemma CycleIsSubnetRing(nodes: seq<Addr>, nets: Networks, next: map<Addr, Addr>, order: seq<Addr>)
    requires nodes != [] && next.Keys == Members(nodes) && forall n | n in next :: OnlyShares(nodes, nets, n, next[n])
    ensures SingleCycle(nodes, next, order) <==> SubnetRing(nodes, nets, order)
  {
    if Distinct(order) && Members(order) == Members(nodes) && order != [] && order[0] == nodes[0] {
      forall i | 0 <= i < |order|
        ensures Step(next, order, i) <==> SharesNext(nodes, nets, order, i)
      {
        assert order[i] in Members(order);
        if OnlyShares(nodes, nets, order[i], order[Successor(|order|, i)]) {
          OnlySharesOnce(nodes, nets, order[i], next[order[i]], order[Successor(|order|, i)]);
        }
      }
      hide OnlyShares, Successor, Distinct, Members, Step, SharesNext;
    }
  }
}
