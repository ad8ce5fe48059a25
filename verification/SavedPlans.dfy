/** Recovering a cluster's plan from the addresses saved on its nodes. */
module SavedPlans {
  import opened Results
  import opened Graphs
  import opened Rings
  import opened Addressing
  import opened Planner
  import opened RingDetection

  /** What a node's journal keeps of the setup request. */
  datatype Saved = Saved(interfaces: map<Name, Cidr>, mtu: int)

  datatype LiveLink = LiveLink(addresses: set<Cidr>, mtu: int)

  type Live = map<Addr, map<Name, LiveLink>>

  datatype Kind = Ring | Direct | Switch

  datatype Recovered = Recovered(kind: Kind, order: seq<Addr>, ports: map<Addr, int>, plan: Plan)

  datatype SavedFault = MtusDiffer | Unrecognized | NotActive | NoClosedRing | RailsDiffer | MixedWiring

  const NAMES: seq<Name> := [Cx7(0, 0), Cx7(0, 1), Cx7(1, 0), Cx7(1, 1)]

  // ----- what a set of saved interfaces is -----

  predicate UsesOnly(interfaces: map<Name, Cidr>, port: int) {
    interfaces.Keys == {Cx7(port, 0), Cx7(port, 1)}
  }

  predicate UsesBoth(interfaces: map<Name, Cidr>) {
    interfaces.Keys == {Cx7(0, 0), Cx7(0, 1), Cx7(1, 0), Cx7(1, 1)}
  }

  /** The one port whose twins are the saved interfaces, if there is one. */
  function OnlyPort(interfaces: map<Name, Cidr>): Option<int> {
    if UsesOnly(interfaces, 0) then Some(0) else if UsesOnly(interfaces, 1) then Some(1) else None
  }

  predicate Active(s: Saved, links: map<Name, LiveLink>, mtu: int) {
    forall name | name in s.interfaces ::
      name in links && s.interfaces[name] in links[name].addresses && links[name].mtu == mtu
  }

  function NetworksOf(nodes: seq<Addr>, saved: map<Addr, Saved>): Networks
    requires forall n | n in nodes :: n in saved
  {
    map n | n in nodes :: map name | name in saved[n].interfaces :: {NetworkOf(saved[n].interfaces[name])}
  }

  function CommonMtu(nodes: seq<Addr>, saved: map<Addr, Saved>): int
    requires nodes != [] && forall n | n in nodes :: n in saved
  {
    var first := nodes[0];
    assert first in nodes;
    saved[first].mtu
  }

  /** Every node uses one port, and on each rail they all have the same network. */
  ghost predicate OnePortEach(nodes: seq<Addr>, saved: map<Addr, Saved>)
    requires forall n | n in nodes :: n in saved
  {
    && (forall n | n in nodes :: OnlyPort(saved[n].interfaces).Some?)
    && forall m, n, rail | m in nodes && n in nodes && 0 <= rail <= 1 ::
         RailNetwork(saved[m], rail) == RailNetwork(saved[n], rail)
  }

  function RailNetwork(s: Saved, rail: int): Option<Network> {
    var port := OnlyPort(s.interfaces);
    if port.Some? && Cx7(port.value, rail) in s.interfaces
    then Some(NetworkOf(s.interfaces[Cx7(port.value, rail)]))
    else None
  }

  ghost predicate BothPortsEach(nodes: seq<Addr>, saved: map<Addr, Saved>)
    requires forall n | n in nodes :: n in saved
  {
    forall n | n in nodes :: UsesBoth(saved[n].interfaces)
  }

  predicate Usable(s: Saved) {
    OnlyPort(s.interfaces).Some? || UsesBoth(s.interfaces)
  }

  /** One MTU, recognizable interfaces, and, when asked, all of them live. */
  ghost predicate Sound(nodes: seq<Addr>, saved: map<Addr, Saved>, live: Live, requireActive: bool)
    requires nodes != [] && forall n | n in nodes :: n in saved && n in live
  {
    && (forall n | n in nodes :: saved[n].mtu == CommonMtu(nodes, saved))
    && (forall n | n in nodes :: Usable(saved[n]))
    && (requireActive ==> forall n | n in nodes :: Active(saved[n], live[n], CommonMtu(nodes, saved)))
  }

  ghost predicate RingOrOnePort(nodes: seq<Addr>, saved: map<Addr, Saved>)
    requires nodes != [] && forall n | n in nodes :: n in saved
  {
    || (BothPortsEach(nodes, saved) && |nodes| >= 3
        && exists order :: SubnetRing(nodes, NetworksOf(nodes, saved), order))
    || OnePortEach(nodes, saved)
  }

  /** What the saved state must say for a plan to be recovered from it. */
  ghost predicate Recoverable(nodes: seq<Addr>, saved: map<Addr, Saved>, live: Live, requireActive: bool)
    requires nodes != [] && forall n | n in nodes :: n in saved && n in live
  {
    Sound(nodes, saved, live, requireActive) && RingOrOnePort(nodes, saved)
  }

  // ----- targets that share a network -----

  /** The addresses among these interfaces that lie on `network`. */
  function OnNetwork(interfaces: map<Name, Cidr>, names: seq<Name>, network: Network): seq<Addr> {
    if names == [] then []
    else
      var name := names[|names| - 1];
      OnNetwork(interfaces, names[..|names| - 1], network)
      + if name in interfaces && NetworkOf(interfaces[name]) == network then [interfaces[name].ip] else []
  }

  /** The addresses that nodes other than `node` have on `network`. */
  function PeersOnNetwork(nodes: seq<Addr>, saved: map<Addr, Saved>, node: Addr, network: Network): seq<Addr>
    requires forall n | n in nodes :: n in saved
  {
    if nodes == [] then []
    else
      var peer := nodes[|nodes| - 1];
      PeersOnNetwork(nodes[..|nodes| - 1], saved, node, network)
      + if peer == node then [] else OnNetwork(saved[peer].interfaces, NAMES, network)
  }

  function Via(name: Name, targets: seq<Addr>): seq<(Name, Addr)> {
    seq(|targets|, k requires 0 <= k < |targets| => (name, targets[k]))
  }

  /** Each interface of `node` with every address of another node on its network. */
  function SavedPings(nodes: seq<Addr>, saved: map<Addr, Saved>, node: Addr, names: seq<Name>): seq<(Name, Addr)>
    requires (forall n | n in nodes :: n in saved) && node in saved
  {
    if names == [] then []
    else
      var name := names[|names| - 1];
      SavedPings(nodes, saved, node, names[..|names| - 1])
      + if name in saved[node].interfaces
        then Via(name, PeersOnNetwork(nodes, saved, node, NetworkOf(saved[node].interfaces[name])))
        else []
  }

  function SavedSubnets(nodes: seq<Addr>, saved: map<Addr, Saved>): set<Network>
    requires forall n | n in nodes :: n in saved
  {
    set n, name | n in nodes && name in saved[n].interfaces :: NetworkOf(saved[n].interfaces[name])
  }

  function RecoveredNode(nodes: seq<Addr>, saved: map<Addr, Saved>, node: Addr): NodePlan
    requires nodes != [] && (forall n | n in nodes :: n in saved) && node in nodes
  {
    var pings := SavedPings(nodes, saved, node, NAMES);
    NodePlan(saved[node].interfaces, CommonMtu(nodes, saved), nodes, SavedSubnets(nodes, saved), node,
             pings, Peers(nodes, node) + Addresses(pings))
  }

  ghost predicate WiringRead(nodes: seq<Addr>, saved: map<Addr, Saved>, kind: Kind, order: seq<Addr>)
    requires nodes != [] && forall n | n in nodes :: n in saved
  {
    && (kind == Ring ==> BothPortsEach(nodes, saved) && SubnetRing(nodes, NetworksOf(nodes, saved), order))
    && (kind != Ring ==> order == nodes && (kind == Direct <==> |nodes| == 2) && OnePortEach(nodes, saved))
  }

  /** The one-port nodes, each with its port. */
  ghost predicate PortsRead(nodes: seq<Addr>, saved: map<Addr, Saved>, ports: map<Addr, int>)
    requires forall n | n in nodes :: n in saved
  {
    && (forall n :: n in ports <==> n in nodes && OnlyPort(saved[n].interfaces).Some?)
    && forall n | n in ports :: OnlyPort(saved[n].interfaces) == Some(ports[n])
  }

  ghost predicate PlanRead(nodes: seq<Addr>, saved: map<Addr, Saved>, plan: Plan)
    requires nodes != [] && forall n | n in nodes :: n in saved
  {
    && plan.Keys == Members(nodes)
    && forall n | n in nodes :: plan[n] == RecoveredNode(nodes, saved, n)
  }

  /** The plan read off the saved addresses, with the ring order or the port of each node. */
  ghost predicate RecoveredFrom(nodes: seq<Addr>, saved: map<Addr, Saved>, r: Recovered)
    requires nodes != [] && forall n | n in nodes :: n in saved
  {
    && WiringRead(nodes, saved, r.kind, r.order)
    && PortsRead(nodes, saved, r.ports)
    && PlanRead(nodes, saved, r.plan)
  }

  // ----- reading the plan back -----

  method ListOnNetwork(interfaces: map<Name, Cidr>, network: Network) returns (targets: seq<Addr>)
    ensures targets == OnNetwork(interfaces, NAMES, network)
  {
    targets := [];
    for k := 0 to |NAMES|
      invariant targets == OnNetwork(interfaces, NAMES[..k], network)
    {
      assert NAMES[..k + 1][..k] == NAMES[..k];
      var name := NAMES[k];
      if name in interfaces && NetworkOf(interfaces[name]) == network {
        targets := targets + [interfaces[name].ip];
      }
    }
    assert NAMES[..|NAMES|] == NAMES;
  }

  method ListPeersOnNetwork(nodes: seq<Addr>, saved: map<Addr, Saved>, node: Addr, network: Network)
    returns (targets: seq<Addr>)
    requires forall n | n in nodes :: n in saved
    ensures targets == PeersOnNetwork(nodes, saved, node, network)
  {
    targets := [];
    for k := 0 to |nodes|
      invariant targets == PeersOnNetwork(nodes[..k], saved, node, network)
    {
      assert nodes[..k + 1][..k] == nodes[..k];
      if nodes[k] != node {
        var more := ListOnNetwork(saved[nodes[k]].interfaces, network);
        targets := targets + more;
      }
    }
    assert nodes[..|nodes|] == nodes;
  }

  method ListPings(nodes: seq<Addr>, saved: map<Addr, Saved>, node: Addr) returns (pings: seq<(Name, Addr)>)
    requires (forall n | n in nodes :: n in saved) && node in saved
    ensures pings == SavedPings(nodes, saved, node, NAMES)
  {
    pings := [];
    for k := 0 to |NAMES|
      invariant pings == SavedPings(nodes, saved, node, NAMES[..k])
    {
      assert NAMES[..k + 1][..k] == NAMES[..k];
      var name := NAMES[k];
      if name in saved[node].interfaces {
        var targets := ListPeersOnNetwork(nodes, saved, node, NetworkOf(saved[node].interfaces[name]));
        pings := pings + Via(name, targets);
      }
    }
    assert NAMES[..|NAMES|] == NAMES;
  }

  method ReadPlan(nodes: seq<Addr>, saved: map<Addr, Saved>) returns (plan: Plan)
    requires nodes != [] && forall n | n in nodes :: n in saved
    ensures PlanRead(nodes, saved, plan)
  {
    plan := map[];
    var subnets := SavedSubnets(nodes, saved);
    hide SavedPings, Members, SavedSubnets, Peers;
    assert nodes[..0] == [];
    for k := 0 to |nodes|
      invariant forall n :: n in plan <==> n in nodes[..k]
      invariant forall n | n in plan :: n in nodes && plan[n] == RecoveredNode(nodes, saved, n)
    {
      var node := nodes[k];
      var pings := ListPings(nodes, saved, node);
      var peers := ListPeers(nodes, node);
      assert nodes[..k + 1] == nodes[..k] + [nodes[k]];
      plan := plan[node := NodePlan(saved[node].interfaces, CommonMtu(nodes, saved), nodes, subnets, node, pings,
                                    peers + Addresses(pings))];
    }
    assert nodes[..|nodes|] == nodes;
    KeysAreMembers(nodes, plan);
  }

  lemma KeysAreMembers(nodes: seq<Addr>, plan: Plan)
    requires forall n :: n in plan <==> n in nodes
    ensures plan.Keys == Members(nodes)
  {
    assert forall n :: n in plan.Keys <==> n in Members(nodes);
  }

  /** MTUs agree, interfaces are recognizable, and, if asked, all are live; then the port of each one-port node. */
  method CheckSaved(nodes: seq<Addr>, saved: map<Addr, Saved>, live: Live, requireActive: bool)
    returns (r: Result<map<Addr, int>, SavedFault>)
    requires nodes != [] && forall n | n in nodes :: n in saved && n in live
    ensures r.Ok? ==> Sound(nodes, saved, live, requireActive) && (forall n | n in nodes :: Usable(saved[n]))
                      && PortsRead(nodes, saved, r.value)
    ensures r.Err? ==> !Sound(nodes, saved, live, requireActive)
  {
    var mtu := CommonMtu(nodes, saved);
    if exists n | n in nodes :: saved[n].mtu != mtu {
      return Err(MtusDiffer);
    }
    var ports: map<Addr, int> := map[];
    for k := 0 to |nodes|
      invariant forall n | n in nodes[..k] ::
                  n in nodes && Usable(saved[n]) && (requireActive ==> Active(saved[n], live[n], mtu))
      invariant forall n :: n in ports <==> n in nodes[..k] && OnlyPort(saved[n].interfaces).Some?
      invariant forall n | n in ports :: OnlyPort(saved[n].interfaces) == Some(ports[n])
    {
      var node := nodes[k];
      assert node in nodes && nodes[..k + 1] == nodes[..k] + [node];
      var port := OnlyPort(saved[node].interfaces);
      if !Usable(saved[node]) {
        return Err(Unrecognized);
      }
      if requireActive && !Active(saved[node], live[node], mtu) {
        return Err(NotActive);
      }
      if port.Some? {
        ports := ports[node := port.value];
      }
    }
    assert nodes[..|nodes|] == nodes;
    return Ok(ports);
  }

  lemma OneUseOnly(s: Saved)
    ensures !(OnlyPort(s.interfaces).Some? && UsesBoth(s.interfaces))
  {
    assert UsesBoth(s.interfaces) ==> Cx7(0, 0) in s.interfaces.Keys && Cx7(1, 0) in s.interfaces.Keys;
  }

  function RailNetworks(nodes: seq<Addr>, saved: map<Addr, Saved>, rail: int): set<Option<Network>>
    requires forall n | n in nodes :: n in saved
  {
    set n | n in nodes :: RailNetwork(saved[n], rail)
  }

  lemma OneNetwork(nodes: seq<Addr>, saved: map<Addr, Saved>, rail: int)
    requires nodes != [] && forall n | n in nodes :: n in saved
    ensures |RailNetworks(nodes, saved, rail)| == 1
       <==> forall m, n | m in nodes && n in nodes :: RailNetwork(saved[m], rail) == RailNetwork(saved[n], rail)
  {
    var networks := RailNetworks(nodes, saved, rail);
    var head := nodes[0];
    assert head in nodes;
    var first := RailNetwork(saved[head], rail);
    assert first in networks;
    hide RailNetwork;
    if forall m, n | m in nodes && n in nodes :: RailNetwork(saved[m], rail) == RailNetwork(saved[n], rail) {
      assert networks == {first};
    } else {
      var m, n :| m in nodes && n in nodes && RailNetwork(saved[m], rail) != RailNetwork(saved[n], rail);
      SubsetSize({RailNetwork(saved[m], rail), RailNetwork(saved[n], rail)}, networks);
    }
  }

  method CheckRails(nodes: seq<Addr>, saved: map<Addr, Saved>) returns (same: bool)
    requires nodes != [] && forall n | n in nodes :: n in saved && OnlyPort(saved[n].interfaces).Some?
    ensures same <==> OnePortEach(nodes, saved)
  {
    hide RailNetworks, OnlyPort, RailNetwork;
    OneNetwork(nodes, saved, 0);
    OneNetwork(nodes, saved, 1);
    for rail := 0 to 2
      invariant forall m, n, before | m in nodes && n in nodes && 0 <= before < rail ::
                  RailNetwork(saved[m], before) == RailNetwork(saved[n], before)
    {
      if |RailNetworks(nodes, saved, rail)| != 1 {
        return false;
      }
    }
    return true;
  }

  /** Which of the two kinds of wiring the saved interfaces can be. */
  lemma KindsDiffer(nodes: seq<Addr>, saved: map<Addr, Saved>, ports: map<Addr, int>)
    requires nodes != [] && forall n | n in nodes :: n in saved && Usable(saved[n])
    requires PortsRead(nodes, saved, ports)
    ensures BothPortsEach(nodes, saved) <==> ports == map[]
    ensures ports != map[] && (exists n :: n in nodes && n !in ports) ==> !OnePortEach(nodes, saved)
    ensures ports == map[] ==> !OnePortEach(nodes, saved)
  {
    forall n | n in nodes
      ensures UsesBoth(saved[n].interfaces) <==> n !in ports
    {
      OneUseOnly(saved[n]);
    }
    hide UsesBoth, OnlyPort;
    if BothPortsEach(nodes, saved) {
      assert forall n :: n !in ports;
    }
    var first := nodes[0];
    assert first in nodes;
  }

  method ReadWiring(nodes: seq<Addr>, saved: map<Addr, Saved>, ports: map<Addr, int>)
    returns (r: Result<(Kind, seq<Addr>), SavedFault>)
    requires nodes != [] && Distinct(nodes) && forall n | n in nodes :: n in saved && Usable(saved[n])
    requires PortsRead(nodes, saved, ports)
    ensures r.Ok? <==> RingOrOnePort(nodes, saved)
    ensures r.Ok? ==> WiringRead(nodes, saved, r.value.0, r.value.1)
  {
    KindsDiffer(nodes, saved, ports);
    hide SubnetRing, BothPortsEach, OnePortEach, OnlyPort, Usable;
    if ports == map[] && |nodes| >= 3 {
      var found := DetectRing(nodes, NetworksOf(nodes, saved));
      return if found.None? then Err(NoClosedRing) else Ok((Ring, found.value));
    }
    if forall n | n in nodes :: n in ports {
      var same := CheckRails(nodes, saved);
      var first := nodes[0];
      assert first in nodes;
      return if same then Ok((if |nodes| == 2 then Direct else Switch, nodes)) else Err(RailsDiffer);
    }
    return Err(MixedWiring);
  }

  /**
   * Sound saved state: one MTU; the twins of one port, or of both, on every node; and, when asked, every
   * saved address live on its interface, which has that MTU.
   */
  lemma SoundIs(nodes: seq<Addr>, saved: map<Addr, Saved>, live: Live, requireActive: bool)
    requires nodes != [] && forall n | n in nodes :: n in saved && n in live
    ensures Sound(nodes, saved, live, requireActive)
       <==> && (forall m, n | m in nodes && n in nodes :: saved[m].mtu == saved[n].mtu)
            && (forall n | n in nodes ::
                  saved[n].interfaces.Keys in {{Cx7(0, 0), Cx7(0, 1)}, {Cx7(1, 0), Cx7(1, 1)},
                                               {Cx7(0, 0), Cx7(0, 1), Cx7(1, 0), Cx7(1, 1)}})
            && (requireActive ==>
                  forall n, name | n in nodes && name in saved[n].interfaces ::
                    && name in live[n] && saved[n].interfaces[name] in live[n][name].addresses
                    && live[n][name].mtu == saved[n].mtu)
  {
    var first := nodes[0];
    assert first in nodes;
    forall n | n in nodes
      ensures Usable(saved[n])
         <==> saved[n].interfaces.Keys in {{Cx7(0, 0), Cx7(0, 1)}, {Cx7(1, 0), Cx7(1, 1)},
                                           {Cx7(0, 0), Cx7(0, 1), Cx7(1, 0), Cx7(1, 1)}}
    {
    }
    hide Usable;
  }

  /** The saved configuration: refused exactly when the saved state does not determine one. */
  method SavedConfiguration(nodes: seq<Addr>, saved: map<Addr, Saved>, live: Live, requireActive: bool)
    returns (r: Result<Recovered, SavedFault>)
    requires nodes != [] && Distinct(nodes) && forall n | n in nodes :: n in saved && n in live
    ensures r.Ok? <==> Recoverable(nodes, saved, live, requireActive)
    ensures r.Ok? ==> RecoveredFrom(nodes, saved, r.value)
  {
    var ports := CheckSaved(nodes, saved, live, requireActive);
    if ports.Err? {
      return Err(ports.error);
    }
    hide RingOrOnePort, Usable, OnlyPort, Sound, PortsRead, PlanRead;
    var wiring := ReadWiring(nodes, saved, ports.value);
    if wiring.Err? {
      return Err(wiring.error);
    }
    hide WiringRead, RecoveredNode;
    var plan := ReadPlan(nodes, saved);
    return Ok(Recovered(wiring.value.0, wiring.value.1, ports.value, plan));
  }
}
