/** The targets planned for a node are the targets read back from the addresses the plan assigned. */
module PlanTargets {
  import opened Results
  import opened Graphs
  import opened Rings
  import opened Addressing
  import opened Planner
  import opened RingDetection
  import opened SavedPlans

  // ----- lists without repetition -----

  /** What `Distinct` asks of addresses, asked of names, positions and pairs too. */
  ghost predicate NoDuplicates<T>(s: seq<T>) {
    forall i, j | 0 <= i < j < |s| :: s[i] != s[j]
  }

  ghost predicate Disjoint<T>(s: seq<T>, t: seq<T>) {
    forall x | x in s :: x !in t
  }

  lemma AppendDisjoint<T>(s: seq<T>, t: seq<T>)
    requires NoDuplicates(s) && NoDuplicates(t) && Disjoint(s, t)
    ensures NoDuplicates(s + t)
  {
    var u := s + t;
    forall i, j | 0 <= i < j < |u|
      ensures u[i] != u[j]
    {
      if i < |s| <= j {
        assert s[i] in s && t[j - |s|] in t;
      }
    }
  }

  lemma {:induction false} SameElements<T>(s: seq<T>, t: seq<T>)
    requires NoDuplicates(s) && NoDuplicates(t) && forall x :: x in s <==> x in t
    ensures multiset(s) == multiset(t)
  {
    forall x
      ensures multiset(s)[x] == multiset(t)[x]
    {
      CountedOnce(s, x);
      CountedOnce(t, x);
    }
  }

  lemma {:induction false} CountedOnce<T>(s: seq<T>, x: T)
    requires NoDuplicates(s)
    ensures multiset(s)[x] == if x in s then 1 else 0
  {
    if s != [] {
      var front, last := s[..|s| - 1], s[|s| - 1];
      LastIsNew(s);
      CountedOnce(front, x);
      assert s == front + [last];
    }
  }

  // ----- what each node was assigned -----

  ghost predicate OnSubnet(l: Layout, i: nat, s: nat)
    requires Plannable(l) && i < |l.order|
  {
    s < Subnets(l) && PortAt(l, i, s / 2) >= 0
  }

  /** An interface is assigned exactly on the subnets its node is on. */
  lemma Assigned(l: Layout, i: nat, s: nat)
    requires Plannable(l) && i < |l.order| && OnSubnet(l, i, s)
    ensures NameAt(l, i, s) in Interfaces(l, i) && Interfaces(l, i)[NameAt(l, i, s)] == Cidr(AddressAt(l, i, s), 24)
  {
    HeldInterface(l, i, NameAt(l, i, s), Subnets(l), s);
  }

  lemma AssignedOn(l: Layout, i: nat, name: Name) returns (s: nat)
    requires Plannable(l) && i < |l.order| && name in Interfaces(l, i)
    ensures OnSubnet(l, i, s) && name == NameAt(l, i, s) && Interfaces(l, i)[name] == Cidr(AddressAt(l, i, s), 24)
    ensures NetworkOf(Interfaces(l, i)[name]) == Network(l.base + 256 * s, 24)
  {
    InterfaceHeld(l, i, name, Subnets(l));
    s :| 0 <= s < Subnets(l) && Holds(l, i, name, s) && Interfaces(l, i)[name] == Cidr(AddressAt(l, i, s), 24);
    AddressIsHost(l, i, s);
  }

  /** Around a ring every node has all four interfaces; otherwise the two twins of its own port. */
  lemma InterfaceNames(l: Layout, i: nat)
    requires Plannable(l) && i < |l.order|
    ensures l.wiring.AroundRing? ==> UsesBoth(Interfaces(l, i))
    ensures l.wiring.OnePort? ==>
              l.order[i] in l.wiring.ports && OnlyPort(Interfaces(l, i)) == Some(l.wiring.ports[l.order[i]])
  {
    if l.wiring.AroundRing? {
      RingInterfaceNames(l, i);
    } else {
      OnePortInterfaceNames(l, i);
    }
  }

  lemma NamesArePorts(l: Layout, i: nat, name: Name)
    requires Plannable(l) && i < |l.order| && name in Interfaces(l, i)
    ensures name.Cx7? && 0 <= name.rail <= 1 && name.port in {0, 1}
    ensures l.wiring.OnePort? ==> l.order[i] in l.wiring.ports && name.port == l.wiring.ports[l.order[i]]
  {
    PortIsListedIf(l, i);
    var s := AssignedOn(l, i, name);
  }

  lemma RingInterfaceNames(l: Layout, i: nat)
    requires Plannable(l) && i < |l.order| && l.wiring.AroundRing?
    ensures UsesBoth(Interfaces(l, i))
  {
    var before, all := Predecessor(|l.order|, i), Interfaces(l, i);
    Assigned(l, i, 2 * i);
    Assigned(l, i, 2 * i + 1);
    Assigned(l, i, 2 * before);
    Assigned(l, i, 2 * before + 1);
    assert {Cx7(0, 0), Cx7(0, 1), Cx7(1, 0), Cx7(1, 1)} <= all.Keys;
    hide Interfaces;
    forall name | name in all
      ensures name in {Cx7(0, 0), Cx7(0, 1), Cx7(1, 0), Cx7(1, 1)}
    {
      NamesArePorts(l, i, name);
    }
  }

  lemma OnePortInterfaceNames(l: Layout, i: nat)
    requires Plannable(l) && i < |l.order| && l.wiring.OnePort?
    ensures l.order[i] in l.wiring.ports && OnlyPort(Interfaces(l, i)) == Some(l.wiring.ports[l.order[i]])
  {
    PortIsListedIf(l, i);
    var port, all := l.wiring.ports[l.order[i]], Interfaces(l, i);
    Assigned(l, i, 0);
    Assigned(l, i, 1);
    hide Interfaces;
    forall name | name in all
      ensures name in {Cx7(port, 0), Cx7(port, 1)}
    {
      NamesArePorts(l, i, name);
    }
    assert UsesOnly(all, port);
    assert port == 1 ==> Cx7(1, 0) in all.Keys && !UsesOnly(all, 0);
  }

  // ----- targets in the plan -----

  /** `x` is an interface of the `i`-th node with the address another node has on the same subnet. */
  ghost predicate Target(l: Layout, i: nat, x: (Name, Addr), s: nat, j: nat)
    requires Plannable(l) && i < |l.order|
  {
    && j < |l.order| && j != i && OnSubnet(l, i, s) && OnSubnet(l, j, s)
    && x == (NameAt(l, i, s), AddressAt(l, j, s))
  }

  lemma {:induction false} TargetsListed(l: Layout, i: nat, s: nat, on: seq<nat>, x: (Name, Addr))
    requires Plannable(l) && i < |l.order|
    ensures x in TargetsAt(l, i, s, on)
            <==> x.0 == NameAt(l, i, s) && exists j :: j in on && j != i && x.1 == AddressAt(l, j, s)
  {
    if on != [] {
      var front, j := on[..|on| - 1], on[|on| - 1];
      TargetsListed(l, i, s, front, x);
      assert on == front + [j];
    }
  }

  lemma LastIsNew<T>(s: seq<T>)
    requires s != [] && NoDuplicates(s)
    ensures s[|s| - 1] !in s[..|s| - 1] && NoDuplicates(s[..|s| - 1])
  {
    var front := s[..|s| - 1];
    forall i | 0 <= i < |front|
      ensures front[i] != s[|s| - 1]
    {
      assert s[i] != s[|s| - 1];
    }
  }

  lemma {:induction false} TargetsDiffer(l: Layout, i: nat, s: nat, on: seq<nat>)
    requires Plannable(l) && i < |l.order| && NoDuplicates(on)
    requires forall k | 0 <= k < |on| :: on[k] < |l.order|
    ensures NoDuplicates(TargetsAt(l, i, s, on))
  {
    if on != [] {
      var front, j := on[..|on| - 1], on[|on| - 1];
      TargetsDiffer(l, i, s, front);
      assert on == front + [j];
      forall x | x in TargetsAt(l, i, s, front)
        ensures x != (NameAt(l, i, s), AddressAt(l, j, s))
      {
        TargetsListed(l, i, s, front, x);
        LastIsNew(on);
      }
      AppendDisjoint(TargetsAt(l, i, s, front), if j != i then [(NameAt(l, i, s), AddressAt(l, j, s))] else []);
    }
  }

  ghost predicate TargetOn(l: Layout, i: nat, x: (Name, Addr), s: nat)
    requires Plannable(l) && i < |l.order|
  {
    exists j :: Target(l, i, x, s, j)
  }

  ghost predicate TargetBelow(l: Layout, i: nat, x: (Name, Addr), s: nat)
    requires Plannable(l) && i < |l.order|
  {
    exists t :: 0 <= t < s && TargetOn(l, i, x, t)
  }

  lemma TargetBelowStep(l: Layout, i: nat, x: (Name, Addr), s: nat)
    requires Plannable(l) && i < |l.order|
    ensures TargetBelow(l, i, x, s + 1) <==> TargetBelow(l, i, x, s) || TargetOn(l, i, x, s)
  {
    hide Plannable, TargetOn;
  }

  lemma NothingListed(l: Layout, i: nat, x: (Name, Addr))
    requires Plannable(l) && i < |l.order|
    ensures x !in PingsUpTo(l, i, 0) && !TargetBelow(l, i, x, 0)
  {
  }

  lemma {:induction false} PingsListed(l: Layout, i: nat, s: nat, x: (Name, Addr))
    requires Plannable(l) && i < |l.order| && s <= Subnets(l)
    ensures x in PingsUpTo(l, i, s) <==> TargetBelow(l, i, x, s)
  {
    hide *;
    if s == 0 {
      NothingListed(l, i, x);
    } else {
      PingsListed(l, i, s - 1, x);
      PingsListedStep(l, i, s - 1, x);
      TargetBelowStep(l, i, x, s - 1);
    }
  }

  lemma PingsListedStep(l: Layout, i: nat, s: nat, x: (Name, Addr))
    requires Plannable(l) && i < |l.order| && s < Subnets(l)
    ensures x in PingsUpTo(l, i, s + 1) <==> x in PingsUpTo(l, i, s) || TargetOn(l, i, x, s)
  {
    var on := OnCable(l, s / 2);
    OnCableDistinct(l, s / 2);
    if PortAt(l, i, s / 2) >= 0 {
      TargetsListed(l, i, s, on, x);
      assert PingsUpTo(l, i, s + 1) == PingsUpTo(l, i, s) + TargetsAt(l, i, s, on);
      forall j: nat
        ensures Target(l, i, x, s, j) <==> j in on && j != i && x == (NameAt(l, i, s), AddressAt(l, j, s))
      {
        if j < |l.order| {
          OnCableIsPlugged(l, s / 2, j);
        }
      }
      hide PingsUpTo, TargetsAt, OnCable, AddressAt, NameAt, PortAt, Target, Plannable;
    }
  }

  /** A target's address tells the subnet it is on. */
  lemma TargetSubnet(l: Layout, i: nat, x: (Name, Addr), s: nat)
    requires Plannable(l) && i < |l.order| && TargetOn(l, i, x, s)
    ensures (x.1 - l.base) / 256 == s
  {
  }

  lemma {:induction false} PingsDiffer(l: Layout, i: nat, s: nat)
    requires Plannable(l) && i < |l.order| && s <= Subnets(l)
    ensures NoDuplicates(PingsUpTo(l, i, s))
  {
    if s > 0 {
      PingsDiffer(l, i, s - 1);
      if PortAt(l, i, (s - 1) / 2) >= 0 {
        PingsDifferStep(l, i, s - 1);
      }
    }
  }

  lemma PingsDifferStep(l: Layout, i: nat, s: nat)
    requires Plannable(l) && i < |l.order| && s < Subnets(l) && NoDuplicates(PingsUpTo(l, i, s)) && OnSubnet(l, i, s)
    ensures NoDuplicates(PingsUpTo(l, i, s) + TargetsAt(l, i, s, OnCable(l, s / 2)))
  {
    var on := OnCable(l, s / 2);
    OnCableDistinct(l, s / 2);
    TargetsDiffer(l, i, s, on);
    var before, now := PingsUpTo(l, i, s), TargetsAt(l, i, s, on);
    forall x | x in before
      ensures (x.1 - l.base) / 256 < s
    {
      PingsListed(l, i, s, x);
      var t :| 0 <= t < s && TargetOn(l, i, x, t);
      TargetSubnet(l, i, x, t);
    }
    forall x | x in now
      ensures (x.1 - l.base) / 256 == s
    {
      TargetsListed(l, i, s, on, x);
      var k :| k in on && k != i && x.1 == AddressAt(l, k, s);
    }
    AppendDisjoint(before, now);
  }

  // ----- targets read back -----

  /** The `s`-th subnet as a network. */
  function SubnetAt(l: Layout, s: nat): Network {
    Network(l.base + 256 * s, 24)
  }

  /** A node has at most one interface on a subnet of the plan: the one for its port there. */
  lemma OneOnSubnet(l: Layout, j: nat, s: nat, name: Name)
    requires Plannable(l) && j < |l.order| && s < Subnets(l)
    ensures name in Interfaces(l, j) && NetworkOf(Interfaces(l, j)[name]) == SubnetAt(l, s)
       <==> OnSubnet(l, j, s) && name == NameAt(l, j, s)
    ensures OnSubnet(l, j, s) ==> NameAt(l, j, s) in NAMES && NameAt(l, j, s) in Interfaces(l, j)
                                  && Interfaces(l, j)[NameAt(l, j, s)] == Cidr(AddressAt(l, j, s), 24)
  {
    if name in Interfaces(l, j) {
      var t := AssignedOn(l, j, name);
    }
    if OnSubnet(l, j, s) {
      Assigned(l, j, s);
      AddressIsHost(l, j, s);
      assert NAMES[2 * PortAt(l, j, s / 2) + s % 2] == NameAt(l, j, s);
    }
  }

  lemma {:induction false} OnNetworkListed(l: Layout, j: nat, names: seq<Name>, s: nat)
    requires Plannable(l) && j < |l.order| && s < Subnets(l) && NoDuplicates(names)
    ensures OnNetwork(Interfaces(l, j), names, SubnetAt(l, s))
         == if OnSubnet(l, j, s) && NameAt(l, j, s) in names then [AddressAt(l, j, s)] else []
  {
    if names != [] {
      var front, name := names[..|names| - 1], names[|names| - 1];
      LastIsNew(names);
      OnNetworkListed(l, j, front, s);
      OneOnSubnet(l, j, s, name);
      assert names == front + [name];
    }
    hide OnSubnet, Interfaces, Plannable, SubnetAt, AddressAt, NameAt, NetworkOf;
  }

  /** The saved state holds the planned interfaces of every node. */
  ghost predicate Saves(l: Layout, mtu: int, nodes: seq<Addr>, saved: map<Addr, Saved>)
    requires Plannable(l)
  {
    && Distinct(nodes) && Members(nodes) == Members(l.order)
    && (forall n | n in nodes :: n in saved)
    && forall i | 0 <= i < |l.order| :: l.order[i] in saved && saved[l.order[i]] == Saved.Saved(Interfaces(l, i), mtu)
  }

  lemma PositionOf(l: Layout, nodes: seq<Addr>, node: Addr) returns (i: nat)
    requires Members(nodes) == Members(l.order) && node in nodes
    ensures i < |l.order| && l.order[i] == node
  {
    assert node in Members(l.order);
    i :| 0 <= i < |l.order| && l.order[i] == node;
  }

  ghost predicate SharesSubnet(l: Layout, i: nat, s: nat, within: seq<Addr>, j: nat)
    requires Plannable(l)
  {
    j < |l.order| && j != i && l.order[j] in within && OnSubnet(l, j, s)
  }

  ghost predicate ListsPeers(l: Layout, saved: map<Addr, Saved>, within: seq<Addr>, i: nat, s: nat, a: Addr)
    requires Plannable(l) && i < |l.order| && forall n | n in within :: n in saved
  {
    a in PeersOnNetwork(within, saved, l.order[i], SubnetAt(l, s))
    <==> exists j :: SharesSubnet(l, i, s, within, j) && a == AddressAt(l, j, s)
  }

  lemma {:induction false} PeersListed(l: Layout, mtu: int, nodes: seq<Addr>, saved: map<Addr, Saved>, k: nat, i: nat,
                                       s: nat, a: Addr)
    requires Plannable(l) && Saves(l, mtu, nodes, saved) && i < |l.order| && s < Subnets(l) && k <= |nodes|
    ensures ListsPeers(l, saved, nodes[..k], i, s, a)
  {
    if k > 0 {
      PeersListed(l, mtu, nodes, saved, k - 1, i, s, a);
      PeersListedStep(l, mtu, nodes, saved, k - 1, i, s, a);
    }
  }

  /** The addresses the next node adds to those on a subnet: its own there, if it is another node. */
  lemma PeersOneMore(l: Layout, mtu: int, nodes: seq<Addr>, saved: map<Addr, Saved>, k: nat, i: nat, s: nat, p: nat)
    requires Plannable(l) && Saves(l, mtu, nodes, saved) && i < |l.order| && s < Subnets(l) && k < |nodes|
    requires p < |l.order| && l.order[p] == nodes[k]
    ensures PeersOnNetwork(nodes[..k + 1], saved, l.order[i], SubnetAt(l, s))
         == PeersOnNetwork(nodes[..k], saved, l.order[i], SubnetAt(l, s))
            + if p != i && OnSubnet(l, p, s) then [AddressAt(l, p, s)] else []
  {
    assert nodes[..k + 1][..k] == nodes[..k] && nodes[..k + 1][k] == nodes[k];
    OnNetworkListed(l, p, NAMES, s);
    OneOnSubnet(l, p, s, NameAt(l, p, s));
    hide OnNetwork, OnSubnet, Interfaces, SubnetAt, AddressAt, NameAt;
  }

  lemma SharesOneMore(l: Layout, nodes: seq<Addr>, k: nat, i: nat, s: nat, p: nat, j: nat)
    requires Plannable(l) && k < |nodes| && p < |l.order| && l.order[p] == nodes[k]
    ensures SharesSubnet(l, i, s, nodes[..k + 1], j)
       <==> SharesSubnet(l, i, s, nodes[..k], j) || (j == p && p != i && OnSubnet(l, p, s))
  {
    assert nodes[..k + 1] == nodes[..k] + [nodes[k]];
    assert forall j | 0 <= j < |l.order| :: l.order[j] == nodes[k] <==> j == p;
    hide OnSubnet, Plannable;
  }

  lemma PeersListedStep(l: Layout, mtu: int, nodes: seq<Addr>, saved: map<Addr, Saved>, k: nat, i: nat, s: nat, a: Addr)
    requires Plannable(l) && Saves(l, mtu, nodes, saved) && i < |l.order| && s < Subnets(l) && k < |nodes|
    requires ListsPeers(l, saved, nodes[..k], i, s, a)
    ensures ListsPeers(l, saved, nodes[..k + 1], i, s, a)
  {
    assert nodes[k] in nodes;
    var p := PositionOf(l, nodes, nodes[k]);
    PeersOneMore(l, mtu, nodes, saved, k, i, s, p);
    hide OnSubnet, Interfaces, Plannable, SubnetAt, AddressAt, PeersOnNetwork, Saves, SharesSubnet, Members, Distinct;
    forall j: nat
      ensures SharesSubnet(l, i, s, nodes[..k + 1], j)
         <==> SharesSubnet(l, i, s, nodes[..k], j) || (j == p && p != i && OnSubnet(l, p, s))
    {
      SharesOneMore(l, nodes, k, i, s, p, j);
    }
  }

  lemma {:induction false} PeersDiffer(l: Layout, mtu: int, nodes: seq<Addr>, saved: map<Addr, Saved>, k: nat, i: nat,
                                       s: nat)
    requires Plannable(l) && Saves(l, mtu, nodes, saved) && i < |l.order| && s < Subnets(l) && k <= |nodes|
    ensures NoDuplicates(PeersOnNetwork(nodes[..k], saved, l.order[i], SubnetAt(l, s)))
  {
    if k > 0 {
      PeersDiffer(l, mtu, nodes, saved, k - 1, i, s);
      var peer := nodes[k - 1];
      assert peer in nodes;
      var p := PositionOf(l, nodes, peer);
      PeersOneMore(l, mtu, nodes, saved, k - 1, i, s, p);
      NewPeer(l, mtu, nodes, saved, k - 1, i, s, p);
      hide PeersOnNetwork, Plannable, Saves, OnSubnet;
      AppendDisjoint(PeersOnNetwork(nodes[..k - 1], saved, l.order[i], SubnetAt(l, s)),
                     if p != i && OnSubnet(l, p, s) then [AddressAt(l, p, s)] else []);
    }
  }

  lemma NewPeer(l: Layout, mtu: int, nodes: seq<Addr>, saved: map<Addr, Saved>, k: nat, i: nat, s: nat, p: nat)
    requires Plannable(l) && Saves(l, mtu, nodes, saved) && i < |l.order| && s < Subnets(l) && k < |nodes|
    requires p < |l.order| && l.order[p] == nodes[k]
    ensures AddressAt(l, p, s) !in PeersOnNetwork(nodes[..k], saved, l.order[i], SubnetAt(l, s))
  {
    PeersListed(l, mtu, nodes, saved, k, i, s, AddressAt(l, p, s));
    hide PeersOnNetwork, OnSubnet, Plannable, SubnetAt;
    assert forall j | 0 <= j < k :: nodes[j] != nodes[k];
    assert nodes[k] !in nodes[..k];
    assert forall j: nat :: AddressAt(l, j, s) == AddressAt(l, p, s) ==> j == p;
  }

  ghost predicate ReadBack(l: Layout, nodes: seq<Addr>, saved: map<Addr, Saved>, i: nat, x: (Name, Addr))
    requires Plannable(l) && i < |l.order| && forall n | n in nodes :: n in saved
  {
    && x.0 in Interfaces(l, i)
    && x.1 in PeersOnNetwork(nodes, saved, l.order[i], NetworkOf(Interfaces(l, i)[x.0]))
  }

  lemma {:induction false} SavedPingsListed(l: Layout, mtu: int, nodes: seq<Addr>, saved: map<Addr, Saved>, i: nat,
                                            names: seq<Name>, x: (Name, Addr))
    requires Plannable(l) && Saves(l, mtu, nodes, saved) && i < |l.order|
    ensures x in SavedPings(nodes, saved, l.order[i], names) <==> x.0 in names && ReadBack(l, nodes, saved, i, x)
  {
    if names != [] {
      var front, name := names[..|names| - 1], names[|names| - 1];
      SavedPingsListed(l, mtu, nodes, saved, i, front, x);
      assert names == front + [name];
    }
    hide PeersOnNetwork, Plannable, Interfaces, NetworkOf;
  }

  lemma {:induction false} SavedPingsDiffer(l: Layout, mtu: int, nodes: seq<Addr>, saved: map<Addr, Saved>, i: nat,
                                            names: seq<Name>)
    requires Plannable(l) && Saves(l, mtu, nodes, saved) && i < |l.order| && NoDuplicates(names)
    ensures NoDuplicates(SavedPings(nodes, saved, l.order[i], names))
  {
    if names != [] {
      var front, name := names[..|names| - 1], names[|names| - 1];
      LastIsNew(names);
      SavedPingsDiffer(l, mtu, nodes, saved, i, front);
      if name in Interfaces(l, i) {
        SavedPingsDifferStep(l, mtu, nodes, saved, i, front, name);
      }
    }
  }

  lemma SavedPingsDifferStep(l: Layout, mtu: int, nodes: seq<Addr>, saved: map<Addr, Saved>, i: nat, names: seq<Name>,
                             name: Name)
    requires Plannable(l) && Saves(l, mtu, nodes, saved) && i < |l.order| && name in Interfaces(l, i) && name !in names
    requires NoDuplicates(SavedPings(nodes, saved, l.order[i], names))
    ensures var now := Via(name, PeersOnNetwork(nodes, saved, l.order[i], NetworkOf(Interfaces(l, i)[name])));
            NoDuplicates(SavedPings(nodes, saved, l.order[i], names) + now)
  {
    var s := AssignedOn(l, i, name);
    PeersDiffer(l, mtu, nodes, saved, |nodes|, i, s);
    assert nodes[..|nodes|] == nodes;
    var before, targets := SavedPings(nodes, saved, l.order[i], names),
      PeersOnNetwork(nodes, saved, l.order[i], SubnetAt(l, s));
    forall x | x in before
      ensures x.0 != name
    {
      SavedPingsListed(l, mtu, nodes, saved, i, names, x);
    }
    ViaDiffer(before, name, targets);
  }

  lemma ViaDiffer(before: seq<(Name, Addr)>, name: Name, targets: seq<Addr>)
    requires NoDuplicates(before) && NoDuplicates(targets) && forall x | x in before :: x.0 != name
    ensures NoDuplicates(before + Via(name, targets))
  {
    AppendDisjoint(before, Via(name, targets));
  }

  /** An interface read back with an address is a target of the plan. */
  lemma ReadBackIsTarget(l: Layout, mtu: int, nodes: seq<Addr>, saved: map<Addr, Saved>, i: nat, x: (Name, Addr))
    requires Plannable(l) && Saves(l, mtu, nodes, saved) && i < |l.order| && ReadBack(l, nodes, saved, i, x)
    ensures TargetBelow(l, i, x, Subnets(l))
  {
    assert nodes[..|nodes|] == nodes;
    var s := AssignedOn(l, i, x.0);
    PeersListed(l, mtu, nodes, saved, |nodes|, i, s, x.1);
    var j :| SharesSubnet(l, i, s, nodes, j) && x.1 == AddressAt(l, j, s);
    assert Target(l, i, x, s, j);
    hide Plannable, Saves, Target, PeersOnNetwork, Interfaces;
    assert TargetOn(l, i, x, s);
  }

  /** And the other way round: every target of the plan is read back. */
  lemma TargetIsReadBack(l: Layout, mtu: int, nodes: seq<Addr>, saved: map<Addr, Saved>, i: nat, x: (Name, Addr))
    requires Plannable(l) && Saves(l, mtu, nodes, saved) && i < |l.order| && TargetBelow(l, i, x, Subnets(l))
    ensures x.0 in NAMES && ReadBack(l, nodes, saved, i, x)
  {
    assert nodes[..|nodes|] == nodes;
    var s :| 0 <= s < Subnets(l) && TargetOn(l, i, x, s);
    var j: nat :| Target(l, i, x, s, j);
    OneOnSubnet(l, i, s, x.0);
    var peer := l.order[j];
    assert peer in Members(l.order);
    PeersListed(l, mtu, nodes, saved, |nodes|, i, s, x.1);
    hide Plannable, Saves, PeersOnNetwork, Interfaces, OnSubnet, NAMES;
    assert SharesSubnet(l, i, s, nodes, j);
  }
}
