/** Which cable, subnet and address each node's ports get, as functions of the node order and wiring. */
module Addressing {
  import opened Graphs
  import opened Rings

  /** A CX7 interface name, by QSFP port and by twin (rail), or any other interface. */
  datatype Name = Cx7(port: int, rail: int) | Other(name: string)

  type Prefix = p: int | 0 <= p <= 32

  datatype Cidr = Cidr(ip: Addr, prefix: Prefix)

  datatype Network = Network(base: Addr, prefix: Prefix)

  function PowerOfTwo(k: nat): (r: nat)
    ensures r > 0
  {
    if k == 0 then 1 else 2 * PowerOfTwo(k - 1)
  }

  /** The addresses in a network of this prefix length: two to the power of the bits left. */
  function BlockSize(prefix: Prefix): (size: int)
    ensures size > 0
    ensures prefix == 24 ==> size == 256
  {
    if prefix <= 24 then 256 * PowerOfTwo(24 - prefix) else PowerOfTwo(32 - prefix)
  }

  function NetworkOf(c: Cidr): Network {
    Network(c.ip - c.ip % BlockSize(c.prefix), c.prefix)
  }

  /** A ring from port 0 to port 1 of the next node, or one port of every node on a common network. */
  datatype Wiring = AroundRing | OnePort(ports: map<Addr, int>)

  datatype Layout = Layout(order: seq<Addr>, wiring: Wiring, base: Addr)

  /** What the configurator asks of a node list and wiring before it plans addresses. */
  ghost predicate Plannable(l: Layout) {
    && Distinct(l.order) && 2 <= |l.order| <= 244
    && (l.wiring.AroundRing? ==> |l.order| >= 3)
    && (l.wiring.OnePort? ==> l.wiring.ports.Keys == Members(l.order)
                              && forall n | n in l.wiring.ports :: l.wiring.ports[n] in {0, 1})
    && l.base % 256 == 0
  }

  lemma PortIsListed(l: Layout, i: nat)
    requires Plannable(l) && l.wiring.OnePort? && i < |l.order|
    ensures l.order[i] in l.wiring.ports && l.wiring.ports[l.order[i]] in {0, 1}
  {
    assert l.order[i] in Members(l.order);
  }

  function Cables(l: Layout): nat {
    if l.wiring.AroundRing? then |l.order| else 1
  }

  function Successor(n: nat, i: nat): (j: nat)
    requires i < n
    ensures j < n
  {
    if i + 1 < n then i + 1 else 0
  }

  function Predecessor(n: nat, i: nat): (j: nat)
    requires i < n
    ensures j < n && Successor(n, j) == i
    ensures n > 1 ==> j != i
    ensures n > 2 ==> j != Successor(n, i)
    ensures forall k | 0 <= k < n :: Successor(n, k) == i ==> k == j
  {
    if i > 0 then i - 1 else n - 1
  }

  /** The port by which the `i`-th node is on a cable, or -1. */
  function PortAt(l: Layout, i: nat, cable: nat): (port: int)
    requires Plannable(l) && i < |l.order|
    ensures port in {-1, 0, 1}
  {
    if l.wiring.AroundRing? then
      if cable == i then 0
      else if cable == Predecessor(|l.order|, i) then 1
      else -1
    else
      PortIsListed(l, i);
      if cable == 0 then l.wiring.ports[l.order[i]] else -1
  }

  /** The nodes on a cable, by position. */
  function OnCable(l: Layout, cable: nat): seq<nat>
    requires cable < Cables(l)
  {
    if l.wiring.AroundRing? then [cable, Successor(|l.order|, cable)] else seq(|l.order|, i => i)
  }

  lemma OnCableIsPlugged(l: Layout, cable: nat, i: nat)
    requires Plannable(l) && cable < Cables(l) && i < |l.order|
    ensures i in OnCable(l, cable) <==> PortAt(l, i, cable) >= 0
  {
    PortIsListedIf(l, i);
    if l.wiring.OnePort? {
      assert OnCable(l, cable)[i] == i;
    }
  }

  lemma PortIsListedIf(l: Layout, i: nat)
    requires Plannable(l) && i < |l.order|
    ensures l.wiring.OnePort? ==> l.order[i] in l.wiring.ports && l.wiring.ports[l.order[i]] in {0, 1}
  {
    if l.wiring.OnePort? {
      PortIsListed(l, i);
    }
  }

  lemma OnCableDistinct(l: Layout, cable: nat)
    requires Plannable(l) && cable < Cables(l)
    ensures forall k | 0 <= k < |OnCable(l, cable)| :: OnCable(l, cable)[k] < |l.order|
    ensures forall j, k | 0 <= j < k < |OnCable(l, cable)| :: OnCable(l, cable)[j] != OnCable(l, cable)[k]
  {
  }

  // ----- one subnet for each rail of each cable -----

  /** The `i`-th node's address in the `s`-th /24 of the pool. */
  function AddressAt(l: Layout, i: nat, s: nat): Addr {
    l.base + 256 * s + 11 + i
  }

  function NameAt(l: Layout, i: nat, s: nat): Name
    requires Plannable(l) && i < |l.order|
  {
    Cx7(PortAt(l, i, s / 2), s % 2)
  }

  /** The interfaces the `i`-th node has on the first `s` subnets. */
  function InterfacesUpTo(l: Layout, i: nat, s: nat): map<Name, Cidr>
    requires Plannable(l) && i < |l.order|
  {
    if s == 0 then map[]
    else
      var before := InterfacesUpTo(l, i, s - 1);
      if PortAt(l, i, (s - 1) / 2) < 0 then before
      else before[NameAt(l, i, s - 1) := Cidr(AddressAt(l, i, s - 1), 24)]
  }

  function Subnets(l: Layout): nat {
    2 * Cables(l)
  }

  function Interfaces(l: Layout, i: nat): map<Name, Cidr>
    requires Plannable(l) && i < |l.order|
  {
    InterfacesUpTo(l, i, Subnets(l))
  }

  /** The `i`-th node's interface `name` is the one on the `s`-th subnet. */
  ghost predicate Holds(l: Layout, i: nat, name: Name, s: nat)
    requires Plannable(l) && i < |l.order|
  {
    PortAt(l, i, s / 2) >= 0 && name == NameAt(l, i, s)
  }

  lemma HoldsOnce(l: Layout, i: nat, name: Name, s: nat, t: nat)
    requires Plannable(l) && i < |l.order| && Holds(l, i, name, s) && Holds(l, i, name, t)
    ensures s == t
  {
  }

  lemma {:induction false} InterfaceHeld(l: Layout, i: nat, name: Name, s: nat)
    requires Plannable(l) && i < |l.order|
    ensures name in InterfacesUpTo(l, i, s) ==>
              exists t :: 0 <= t < s && Holds(l, i, name, t)
                && InterfacesUpTo(l, i, s)[name] == Cidr(AddressAt(l, i, t), 24)
  {
    if s > 0 {
      InterfaceHeld(l, i, name, s - 1);
      if name in InterfacesUpTo(l, i, s) {
        if Holds(l, i, name, s - 1) {
          assert InterfacesUpTo(l, i, s)[name] == Cidr(AddressAt(l, i, s - 1), 24);
        } else {
          assert name in InterfacesUpTo(l, i, s - 1);
        }
      }
    }
  }

  lemma {:induction false} HeldInterface(l: Layout, i: nat, name: Name, s: nat, t: nat)
    requires Plannable(l) && i < |l.order| && t < s && Holds(l, i, name, t)
    ensures name in InterfacesUpTo(l, i, s) && InterfacesUpTo(l, i, s)[name] == Cidr(AddressAt(l, i, t), 24)
  {
    if t < s - 1 {
      HeldInterface(l, i, name, s - 1, t);
      if Holds(l, i, name, s - 1) {
        HoldsOnce(l, i, name, s - 1, t);
        assert false;
      }
    }
  }

  /** Every planned address is a host address of its own /24, and tells which node it is. */
  lemma AddressIsHost(l: Layout, i: nat, s: nat)
    requires Plannable(l) && i < |l.order|
    ensures NetworkOf(Cidr(AddressAt(l, i, s), 24)) == Network(l.base + 256 * s, 24)
    ensures AddressAt(l, i, s) % 256 == 11 + i && 11 <= AddressAt(l, i, s) % 256 <= 254
  {
    Remainder(l.base / 256 + s, 11 + i);
    hide Plannable, BlockSize;
  }

  lemma Remainder(k: int, r: nat)
    requires r < 256
    ensures (256 * k + r) % 256 == r
  {
  }

  /** No two interfaces of the plan share an address; sharing a network means sharing a cable and rail. */
  lemma AddressesAreUnique(l: Layout, i: nat, s: nat, j: nat, t: nat)
    requires Plannable(l) && i < |l.order| && j < |l.order|
    ensures AddressAt(l, i, s) == AddressAt(l, j, t) <==> i == j && s == t
    ensures NetworkOf(Cidr(AddressAt(l, i, s), 24)) == NetworkOf(Cidr(AddressAt(l, j, t), 24)) <==> s == t
  {
    AddressIsHost(l, i, s);
    AddressIsHost(l, j, t);
  }
}
