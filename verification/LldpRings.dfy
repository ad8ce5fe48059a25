/** Ring order from LLDP: which remote ports each physical port hears on both of its twins. */
module LldpRings {
  import opened Results
  import opened Graphs
  import opened Rings
  import opened Addressing
  import opened RingDetection

  datatype Interface = Interface(name: Name, mac: string)

  /** A node's interfaces, and the MAC addresses heard on each. */
  datatype Report = Report(links: seq<Interface>, heard: map<Name, seq<string>>)

  type Inventory = map<Addr, Report>

  /** A physical port: a node and one of its two QSFP ports. */
  type Port = (Addr, int)

  function LowerChar(c: char): char {
    if 'A' <= c <= 'Z' then c - 'A' + 'a' else c
  }

  function Lower(s: string): string {
    seq(|s|, i requires 0 <= i < |s| => LowerChar(s[i]))
  }

  predicate IsCx7(name: Name) {
    name.Cx7? && 0 <= name.port <= 1 && 0 <= name.rail <= 1
  }

  // ----- who owns which MAC -----

  /** The ports of the first CX7 interfaces listed, with their MAC addresses, node by node. */
  function OwnPorts(node: Addr, links: seq<Interface>): seq<(string, Port)> {
    if links == [] then []
    else
      var l := links[|links| - 1];
      OwnPorts(node, links[..|links| - 1]) + if IsCx7(l.name) then [(Lower(l.mac), (node, l.name.port))] else []
  }

  function AllPorts(nodes: seq<Addr>, inventory: Inventory): seq<(string, Port)>
    requires forall n | n in nodes :: n in inventory
  {
    if nodes == [] then []
    else
      var n := nodes[|nodes| - 1];
      AllPorts(nodes[..|nodes| - 1], inventory) + OwnPorts(n, inventory[n].links)
  }

  /** Every CX7 interface has a MAC, and no two the same. */
  ghost predicate Identified(ports: seq<(string, Port)>) {
    && (forall i | 0 <= i < |ports| :: ports[i].0 != "")
    && forall i, j | 0 <= i < j < |ports| :: ports[i].0 != ports[j].0
  }

  ghost predicate Identities(ids: map<string, Port>, ports: seq<(string, Port)>) {
    && (forall mac | mac in ids :: (mac, ids[mac]) in ports)
    && forall i | 0 <= i < |ports| :: ports[i].0 in ids && ids[ports[i].0] == ports[i].1
  }

  lemma PrefixIdentified(front: seq<(string, Port)>, ports: seq<(string, Port)>)
    requires front <= ports && Identified(ports)
    ensures Identified(front)
  {
    forall i | 0 <= i < |front|
      ensures front[i] == ports[i]
    {
    }
  }

  lemma IdentityAdded(ids: map<string, Port>, ports: seq<(string, Port)>, mac: string, port: Port)
    requires Identified(ports) && Identities(ids, ports)
    ensures Identified(ports + [(mac, port)]) <==> mac != "" && mac !in ids
    ensures mac !in ids ==> Identities(ids[mac := port], ports + [(mac, port)])
  {
    var more := ports + [(mac, port)];
    assert more[|ports|].0 == mac;
    assert forall i | 0 <= i < |ports| :: more[i] == ports[i];
    if mac in ids {
      var i :| 0 <= i < |ports| && ports[i] == (mac, ids[mac]);
      assert more[i].0 == mac;
    }
  }

  method IdentifyNode(node: Addr, links: seq<Interface>, ids: map<string, Port>, ghost before: seq<(string, Port)>)
    returns (r: Option<map<string, Port>>)
    requires Identified(before) && Identities(ids, before)
    ensures r.Some? <==> Identified(before + OwnPorts(node, links))
    ensures r.Some? ==> Identities(r.value, before + OwnPorts(node, links))
  {
    var ids' := ids;
    assert before + [] == before;
    hide Identified, Identities, Lower;
    for k := 0 to |links|
      invariant Identified(before + OwnPorts(node, links[..k]))
      invariant Identities(ids', before + OwnPorts(node, links[..k]))
    {
      assert links[..k + 1][..k] == links[..k];
      ghost var own := OwnPorts(node, links[..k]);
      assert own + [] == own;
      if IsCx7(links[k].name) {
        var mac, port := Lower(links[k].mac), (node, links[k].name.port);
        assert before + (own + [(mac, port)]) == (before + own) + [(mac, port)];
        IdentityAdded(ids', before + own, mac, port);
        if mac == "" || mac in ids' {
          OwnPortsGrow(node, links, k + 1);
          if Identified(before + OwnPorts(node, links)) {
            PrefixIdentified(before + OwnPorts(node, links[..k + 1]), before + OwnPorts(node, links));
          }
          return None;
        }
        ids' := ids'[mac := port];
      }
    }
    assert links[..|links|] == links;
    return Some(ids');
  }

  lemma {:induction false} OwnPortsGrow(node: Addr, links: seq<Interface>, k: nat)
    requires k <= |links|
    ensures OwnPorts(node, links[..k]) <= OwnPorts(node, links)
    decreases |links| - k
  {
    if k < |links| {
      OwnPortsGrow(node, links, k + 1);
      assert links[..k + 1][..k] == links[..k];
    } else {
      assert links[..k] == links;
    }
  }

  lemma {:induction false} AllPortsGrow(nodes: seq<Addr>, inventory: Inventory, k: nat)
    requires k <= |nodes| && forall n | n in nodes :: n in inventory
    ensures AllPorts(nodes[..k], inventory) <= AllPorts(nodes, inventory)
    decreases |nodes| - k
  {
    if k < |nodes| {
      AllPortsGrow(nodes, inventory, k + 1);
      assert nodes[..k + 1][..k] == nodes[..k];
    } else {
      assert nodes[..k] == nodes;
    }
  }

  method Identify(nodes: seq<Addr>, inventory: Inventory) returns (r: Option<map<string, Port>>)
    requires forall n | n in nodes :: n in inventory
    ensures r.Some? <==> Identified(AllPorts(nodes, inventory))
    ensures r.Some? ==> Identities(r.value, AllPorts(nodes, inventory))
  {
    var ids: map<string, Port> := map[];
    hide OwnPorts;
    for k := 0 to |nodes|
      invariant Identified(AllPorts(nodes[..k], inventory))
      invariant Identities(ids, AllPorts(nodes[..k], inventory))
    {
      assert nodes[..k + 1][..k] == nodes[..k];
      var next := IdentifyNode(nodes[k], inventory[nodes[k]].links, ids, AllPorts(nodes[..k], inventory));
      hide Identified, Identities;
      if next.None? {
        AllPortsGrow(nodes, inventory, k + 1);
        if Identified(AllPorts(nodes, inventory)) {
          PrefixIdentified(AllPorts(nodes[..k + 1], inventory), AllPorts(nodes, inventory));
        }
        return None;
      }
      ids := next.value;
    }
    assert nodes[..|nodes|] == nodes;
    return Some(ids);
  }

  // ----- what a port hears -----

  function HeardOn(r: Report, name: Name): seq<string> {
    if name in r.heard then r.heard[name] else []
  }

  /** Every MAC heard is a known port's, and apart from the node's own ports only `peer` is heard. */
  ghost predicate HearsOnly(ids: map<string, Port>, macs: seq<string>, node: Addr, peer: Port) {
    && peer.0 != node
    && (forall k | 0 <= k < |macs| ::
          Lower(macs[k]) in ids && (ids[Lower(macs[k])].0 == node || ids[Lower(macs[k])] == peer))
    && exists k :: 0 <= k < |macs| && ids[Lower(macs[k])] == peer
  }

  lemma OneDiffers(peers: seq<Port>, peer: Port) returns (i: nat)
    requires |peers| > 1 && forall i, j | 0 <= i < j < |peers| :: peers[i] != peers[j]
    ensures i < |peers| && peers[i] != peer
  {
    i := if peers[0] != peer then 0 else 1;
    assert peers[0] != peers[1];
  }

  method HearTwin(ids: map<string, Port>, macs: seq<string>, node: Addr) returns (r: Option<Port>)
    ensures r.Some? ==> HearsOnly(ids, macs, node, r.value)
    ensures r.None? ==> forall peer :: !HearsOnly(ids, macs, node, peer)
  {
    var peers: seq<Port> := [];
    hide Lower;
    for k := 0 to |macs|
      invariant forall j | 0 <= j < k :: Lower(macs[j]) in ids
      invariant forall j | 0 <= j < k :: ids[Lower(macs[j])].0 != node ==> ids[Lower(macs[j])] in peers
      invariant forall p | p in peers :: p.0 != node && exists j :: 0 <= j < k && ids[Lower(macs[j])] == p
      invariant forall i, j | 0 <= i < j < |peers| :: peers[i] != peers[j]
    {
      var mac := Lower(macs[k]);
      if mac !in ids {
        return None;
      }
      if ids[mac].0 != node && ids[mac] !in peers {
        peers := peers + [ids[mac]];
      }
    }
    if |peers| != 1 {
      forall peer
        ensures !HearsOnly(ids, macs, node, peer)
      {
        if |peers| > 1 {
          var i := OneDiffers(peers, peer);
          assert peers[i] in peers;
        }
      }
      return None;
    }
    assert peers[0] in peers;
    return Some(peers[0]);
  }

  /** Both twins of a port hear only one remote port, the opposite one of another node. */
  ghost predicate Cabled(inventory: Inventory, ids: map<string, Port>, near: Port, far: Port)
    requires near.0 in inventory
  {
    && far.1 == 1 - near.1
    && forall rail | 0 <= rail <= 1 :: HearsOnly(ids, HeardOn(inventory[near.0], Cx7(near.1, rail)), near.0, far)
  }

  lemma HearsOnlyOnce(ids: map<string, Port>, macs: seq<string>, node: Addr, p: Port, q: Port)
    requires HearsOnly(ids, macs, node, p) && HearsOnly(ids, macs, node, q)
    ensures p == q
  {
  }

  method FarEnd(inventory: Inventory, ids: map<string, Port>, near: Port) returns (r: Option<Port>)
    requires near.0 in inventory
    ensures r.Some? ==> Cabled(inventory, ids, near, r.value)
    ensures r.None? ==> forall far :: !Cabled(inventory, ids, near, far)
  {
    var first := HearTwin(ids, HeardOn(inventory[near.0], Cx7(near.1, 0)), near.0);
    var second := HearTwin(ids, HeardOn(inventory[near.0], Cx7(near.1, 1)), near.0);
    hide HearsOnly;
    forall far | Cabled(inventory, ids, near, far)
      ensures first == Some(far) && second == Some(far)
    {
      assert HearsOnly(ids, HeardOn(inventory[near.0], Cx7(near.1, 0)), near.0, far);
      assert HearsOnly(ids, HeardOn(inventory[near.0], Cx7(near.1, 1)), near.0, far);
      if first.Some? {
        HearsOnlyOnce(ids, HeardOn(inventory[near.0], Cx7(near.1, 0)), near.0, far, first.value);
      }
      if second.Some? {
        HearsOnlyOnce(ids, HeardOn(inventory[near.0], Cx7(near.1, 1)), near.0, far, second.value);
      }
    }
    if first.Some? && second.Some? && first == second && first.value.1 == 1 - near.1 {
      return first;
    }
    return None;
  }

  lemma CabledOnce(inventory: Inventory, ids: map<string, Port>, near: Port, p: Port, q: Port)
    requires near.0 in inventory && Cabled(inventory, ids, near, p) && Cabled(inventory, ids, near, q)
    ensures p == q
  {
    assert HearsOnly(ids, HeardOn(inventory[near.0], Cx7(near.1, 0)), near.0, p);
    assert HearsOnly(ids, HeardOn(inventory[near.0], Cx7(near.1, 0)), near.0, q);
    HearsOnlyOnce(ids, HeardOn(inventory[near.0], Cx7(near.1, 0)), near.0, p, q);
  }

  // ----- the ring -----

  ghost predicate Known(nodes: seq<Addr>, inventory: Inventory) {
    nodes != [] && Distinct(nodes) && forall n | n in nodes :: n in inventory
  }

  /** Port 0 of the `i`-th node and port 1 of the next one hear only each other. */
  ghost predicate JoinsNext(inventory: Inventory, ids: map<string, Port>, order: seq<Addr>, i: nat) {
    && i < |order|
    && var peer := order[Successor(|order|, i)];
    && order[i] in inventory && peer in inventory
    && Cabled(inventory, ids, (order[i], 0), (peer, 1)) && Cabled(inventory, ids, (peer, 1), (order[i], 0))
  }

  ghost predicate CableRing(nodes: seq<Addr>, inventory: Inventory, ids: map<string, Port>, order: seq<Addr>)
    requires nodes != []
  {
    && Distinct(order) && Members(order) == Members(nodes) && order != [] && order[0] == nodes[0]
    && forall i | 0 <= i < |order| :: JoinsNext(inventory, ids, order, i)
  }

  /** Every CX7 MAC is identified, and following the cables from port 0 to port 1 gives `order` and closes. */
  ghost predicate LldpRing(nodes: seq<Addr>, inventory: Inventory, order: seq<Addr>)
    requires Known(nodes, inventory)
  {
    && Identified(AllPorts(nodes, inventory))
    && exists ids :: Identities(ids, AllPorts(nodes, inventory)) && CableRing(nodes, inventory, ids, order)
  }

  lemma SameIdentities(ids: map<string, Port>, ids': map<string, Port>, ports: seq<(string, Port)>)
    requires Identities(ids, ports) && Identities(ids', ports)
    ensures ids == ids'
  {
    forall mac | mac in ids
      ensures mac in ids' && ids'[mac] == ids[mac]
    {
      var i :| 0 <= i < |ports| && ports[i] == (mac, ids[mac]);
    }
    forall mac | mac in ids'
      ensures mac in ids
    {
      var i :| 0 <= i < |ports| && ports[i] == (mac, ids'[mac]);
    }
  }

  /** On a ring, each port has its place: the cable to the next node or from the one before. */
  lemma RingPort(nodes: seq<Addr>, inventory: Inventory, ids: map<string, Port>, order: seq<Addr>, near: Port)
    returns (far: Port)
    requires Known(nodes, inventory) && CableRing(nodes, inventory, ids, order) && near.0 in nodes && 0 <= near.1 <= 1
    ensures far.0 in nodes && far.1 == 1 - near.1 && far.0 in inventory
    ensures Cabled(inventory, ids, near, far) && Cabled(inventory, ids, far, near)
  {
    assert near.0 in Members(order);
    var i :| 0 <= i < |order| && order[i] == near.0;
    var j := if near.1 == 0 then Successor(|order|, i) else Predecessor(|order|, i);
    assert JoinsNext(inventory, ids, order, i) && JoinsNext(inventory, ids, order, j);
    far := (order[j], 1 - near.1);
    assert order[j] in Members(nodes);
  }

  /** The far end of both ports of each of the first nodes. */
  ghost predicate FarEnds(inventory: Inventory, ids: map<string, Port>, ends: map<Port, Port>, nodes: seq<Addr>) {
    && (forall p: Port :: p in ends <==> p.0 in nodes && 0 <= p.1 <= 1)
    && forall p: Port | p in ends :: p.0 in inventory && Cabled(inventory, ids, p, ends[p])
  }

  lemma KnownAt(nodes: seq<Addr>, inventory: Inventory, k: nat)
    requires Known(nodes, inventory) && k < |nodes|
    ensures nodes[k] in inventory
  {
    assert nodes[k] in nodes;
  }

  method AllFarEnds(nodes: seq<Addr>, inventory: Inventory, ids: map<string, Port>) returns (r: Option<map<Port, Port>>)
    requires Known(nodes, inventory)
    ensures r.Some? ==> FarEnds(inventory, ids, r.value, nodes)
    ensures r.None? ==> forall order :: !CableRing(nodes, inventory, ids, order)
  {
    var ends: map<Port, Port> := map[];
    hide Cabled, CableRing;
    for k := 0 to |nodes|
      invariant FarEnds(inventory, ids, ends, nodes[..k])
    {
      KnownAt(nodes, inventory, k);
      var zero := FarEnd(inventory, ids, (nodes[k], 0));
      var one := FarEnd(inventory, ids, (nodes[k], 1));
      if zero.None? || one.None? {
        forall order
          ensures !CableRing(nodes, inventory, ids, order)
        {
          if CableRing(nodes, inventory, ids, order) {
            var far0 := RingPort(nodes, inventory, ids, order, (nodes[k], 0));
            var far1 := RingPort(nodes, inventory, ids, order, (nodes[k], 1));
          }
        }
        return None;
      }
      assert nodes[..k + 1] == nodes[..k] + [nodes[k]];
      ends := ends[(nodes[k], 0) := zero.value][(nodes[k], 1) := one.value];
    }
    assert nodes[..|nodes|] == nodes;
    return Some(ends);
  }

  ghost predicate Reciprocal(ends: map<Port, Port>) {
    forall p | p in ends :: ends[p] in ends && ends[ends[p]] == p
  }

  lemma RingsAreReciprocal(nodes: seq<Addr>, inventory: Inventory, ids: map<string, Port>, ends: map<Port, Port>,
                           order: seq<Addr>)
    requires Known(nodes, inventory) && FarEnds(inventory, ids, ends, nodes) && CableRing(nodes, inventory, ids, order)
    ensures Reciprocal(ends)
  {
    forall p | p in ends
      ensures ends[p] in ends && ends[ends[p]] == p
    {
      var far := RingPort(nodes, inventory, ids, order, p);
      CabledOnce(inventory, ids, p, far, ends[p]);
      CabledOnce(inventory, ids, far, p, ends[far]);
    }
  }

  method CheckReciprocal(nodes: seq<Addr>, ends: map<Port, Port>) returns (ok: bool)
    requires forall p: Port :: p in ends <==> p.0 in nodes && 0 <= p.1 <= 1
    ensures ok <==> Reciprocal(ends)
  {
    for k := 0 to |nodes|
      invariant forall i, port | 0 <= i < k && 0 <= port <= 1 ::
                  ends[(nodes[i], port)] in ends && ends[ends[(nodes[i], port)]] == (nodes[i], port)
    {
      for port := 0 to 2
        invariant forall i | 0 <= i < port :: ends[(nodes[k], i)] in ends && ends[ends[(nodes[k], i)]] == (nodes[k], i)
      {
        var near := (nodes[k], port);
        if ends[near] !in ends || ends[ends[near]] != near {
          return false;
        }
      }
    }
    return true;
  }

  /** With reciprocal far ends, following port 0 around is the same as following the cables. */
  lemma CycleIsCableRing(nodes: seq<Addr>, inventory: Inventory, ids: map<string, Port>, ends: map<Port, Port>,
                         next: map<Addr, Addr>, order: seq<Addr>)
    requires Known(nodes, inventory) && FarEnds(inventory, ids, ends, nodes) && Reciprocal(ends)
    requires next.Keys == Members(nodes) && forall n | n in next :: (n, 0) in ends && next[n] == ends[(n, 0)].0
    ensures SingleCycle(nodes, next, order) <==> CableRing(nodes, inventory, ids, order)
  {
    if Distinct(order) && Members(order) == Members(nodes) && order != [] && order[0] == nodes[0] {
      forall i | 0 <= i < |order|
        ensures Step(next, order, i) <==> JoinsNext(inventory, ids, order, i)
      {
        assert order[i] in Members(order) && order[Successor(|order|, i)] in Members(order);
        StepIsCable(nodes, inventory, ids, ends, next, order, i);
      }
    }
  }

  lemma StepIsCable(nodes: seq<Addr>, inventory: Inventory, ids: map<string, Port>, ends: map<Port, Port>,
                    next: map<Addr, Addr>, order: seq<Addr>, i: nat)
    requires FarEnds(inventory, ids, ends, nodes) && Reciprocal(ends) && i < |order|
    requires order[i] in nodes && order[Successor(|order|, i)] in nodes
    requires order[i] in next && next[order[i]] == ends[(order[i], 0)].0
    ensures Step(next, order, i) <==> JoinsNext(inventory, ids, order, i)
  {
    var near, peer := (order[i], 0), order[Successor(|order|, i)];
    assert near in ends && Cabled(inventory, ids, near, ends[near]);
    assert Cabled(inventory, ids, ends[near], near);
    if Step(next, order, i) {
      assert ends[near] == (peer, 1);
    }
    if JoinsNext(inventory, ids, order, i) {
      CabledOnce(inventory, ids, near, ends[near], (peer, 1));
    }
  }

  /** Ring order from LLDP: found exactly when the identified, reciprocal, twin-agreeing cables form one ring. */
  method DetectLldpRing(nodes: seq<Addr>, inventory: Inventory) returns (r: Option<seq<Addr>>)
    requires Known(nodes, inventory)
    ensures r.Some? ==> LldpRing(nodes, inventory, r.value)
    ensures r.None? ==> forall order :: !LldpRing(nodes, inventory, order)
  {
    var identities := Identify(nodes, inventory);
    if identities.None? {
      return None;
    }
    var ids := identities.value;
    OnlyIdentities(nodes, inventory, ids);
    hide LldpRing, CableRing, FarEnds;
    var ends := AllFarEnds(nodes, inventory, ids);
    if ends.None? {
      return None;
    }
    r := CloseRing(nodes, inventory, ids, ends.value);
  }

  lemma OnlyIdentities(nodes: seq<Addr>, inventory: Inventory, ids: map<string, Port>)
    requires Known(nodes, inventory) && Identified(AllPorts(nodes, inventory))
             && Identities(ids, AllPorts(nodes, inventory))
    ensures forall order :: LldpRing(nodes, inventory, order) <==> CableRing(nodes, inventory, ids, order)
  {
    hide CableRing;
    forall order
      ensures LldpRing(nodes, inventory, order) <==> CableRing(nodes, inventory, ids, order)
    {
      if LldpRing(nodes, inventory, order) {
        var ids' :| Identities(ids', AllPorts(nodes, inventory)) && CableRing(nodes, inventory, ids', order);
        SameIdentities(ids, ids', AllPorts(nodes, inventory));
      }
    }
  }

  lemma NextStaysIn(nodes: seq<Addr>, ends: map<Port, Port>, next: map<Addr, Addr>)
    requires (forall p: Port :: p in ends <==> p.0 in nodes && 0 <= p.1 <= 1) && Reciprocal(ends)
    requires next == map n | n in nodes :: ends[(n, 0)].0
    ensures next.Keys == Members(nodes) && forall n | n in next :: next[n] in next
  {
    forall n | n in next
      ensures next[n] in next
    {
      assert (n, 0) in ends && ends[(n, 0)] in ends;
    }
  }

  method CloseRing(nodes: seq<Addr>, inventory: Inventory, ids: map<string, Port>, ends: map<Port, Port>)
    returns (r: Option<seq<Addr>>)
    requires Known(nodes, inventory) && FarEnds(inventory, ids, ends, nodes)
    ensures r.Some? ==> CableRing(nodes, inventory, ids, r.value)
    ensures r.None? ==> forall order :: !CableRing(nodes, inventory, ids, order)
  {
    var reciprocal := CheckReciprocal(nodes, ends);
    if !reciprocal {
      forall order
        ensures !CableRing(nodes, inventory, ids, order)
      {
        if CableRing(nodes, inventory, ids, order) {
          RingsAreReciprocal(nodes, inventory, ids, ends, order);
        }
      }
      return None;
    }
    var next := map n | n in nodes :: ends[(n, 0)].0;
    NextStaysIn(nodes, ends, next);
    hide CableRing, SingleCycle, Cabled, FarEnds;
    forall order
      ensures SingleCycle(nodes, next, order) <==> CableRing(nodes, inventory, ids, order)
    {
      CycleIsCableRing(nodes, inventory, ids, ends, next, order);
    }
    r := FollowCycle(nodes, next);
  }
}
