/** Route messages as values, and their bytes in a saved dump. */
module RouteMessages {
  import opened Results
  import opened RouteDump

  /** An attribute that holds no others: incoming or outgoing interface, or bytes that name none. */
  datatype Leaf = In(index: u32) | Out(index: u32) | Plain(kind: nat, data: seq<byte>, pad: seq<byte>)

  /** One next hop of a multipath route: two bytes of flags and weight, an interface, attributes of its own. */
  datatype Hop = Hop(flags: seq<byte>, index: u32, leaves: seq<Leaf>)

  datatype Attribute = Single(leaf: Leaf) | Multipath(hops: seq<Hop>)

  /** A route: the rest of its message header, address family, the rest of its route header, attributes. */
  datatype Message = Message(header: seq<byte>, family: byte, route: seq<byte>, attributes: seq<Attribute>)

  // ----- bytes -----

  function Half(n: nat): (b: seq<byte>)
    ensures |b| == 2
  {
    [n % 0x100, n / 0x100 % 0x100]
  }

  function Word(n: nat): (b: seq<byte>)
    ensures |b| == 4
  {
    WordBytes(n % 0x1_0000_0000)
  }

  function EncodeLeaf(l: Leaf): seq<byte> {
    match l
    case In(index) => Half(8) + Half(3) + WordBytes(index)
    case Out(index) => Half(8) + Half(4) + WordBytes(index)
    case Plain(kind, data, pad) => Half(4 + |data|) + Half(kind) + (data + pad)
  }

  function EncodeLeaves(ls: seq<Leaf>): seq<byte> {
    if ls == [] then [] else EncodeLeaf(ls[0]) + EncodeLeaves(ls[1..])
  }

  function EncodeHop(h: Hop): seq<byte> {
    var rest := EncodeLeaves(h.leaves);
    Half(8 + |rest|) + h.flags + WordBytes(h.index) + rest
  }

  function EncodeHops(hs: seq<Hop>): seq<byte> {
    if hs == [] then [] else EncodeHop(hs[0]) + EncodeHops(hs[1..])
  }

  function EncodeAttribute(a: Attribute): seq<byte> {
    match a
    case Single(leaf) => EncodeLeaf(leaf)
    case Multipath(hops) =>
      var rest := EncodeHops(hops);
      Half(4 + |rest|) + Half(9) + rest
  }

  function EncodeAttributes(xs: seq<Attribute>): seq<byte> {
    if xs == [] then [] else EncodeAttribute(xs[0]) + EncodeAttributes(xs[1..])
  }

  function EncodeMessage(m: Message): seq<byte> {
    var rest := EncodeAttributes(m.attributes);
    Word(28 + |rest|) + Half(24) + m.header + [m.family] + m.route + rest
  }

  function EncodeMessages(ms: seq<Message>): seq<byte> {
    if ms == [] then [] else EncodeMessage(ms[0]) + EncodeMessages(ms[1..])
  }

  function Encode(ms: seq<Message>): seq<byte> {
    WordBytes(MAGIC) + EncodeMessages(ms)
  }

  // ----- what can be encoded -----

  /** Kinds that hold interfaces, nested encapsulation or next-hop objects are no plain bytes. */
  predicate PlainKind(kind: nat) {
    kind <= 32 && kind !in {3, 4, 9, 22, 30}
  }

  predicate LeafFits(l: Leaf) {
    l.Plain? ==> PlainKind(l.kind) && 4 + |l.data| < 0x1_0000 && 4 + |l.data| + |l.pad| == Aligned(4 + |l.data|)
  }

  predicate HopFits(h: Hop) {
    && |h.flags| == 2 && 8 + |EncodeLeaves(h.leaves)| < 0x1_0000
    && forall i | 0 <= i < |h.leaves| :: LeafFits(h.leaves[i])
  }

  predicate AttributeFits(a: Attribute) {
    match a
    case Single(leaf) => LeafFits(leaf)
    case Multipath(hops) =>
      4 + |EncodeHops(hops)| < 0x1_0000 && forall i | 0 <= i < |hops| :: HopFits(hops[i])
  }

  predicate MessageFits(m: Message) {
    && |m.header| == 10 && |m.route| == 11 && m.family in {2, 10}
    && 28 + |EncodeAttributes(m.attributes)| < 0x1_0000_0000
    && forall i | 0 <= i < |m.attributes| :: AttributeFits(m.attributes[i])
  }

  predicate AllFit(ms: seq<Message>) {
    forall i | 0 <= i < |ms| :: MessageFits(ms[i])
  }

  // ----- interfaces -----

  function Image(m: map<u32, u32>, index: u32): u32 {
    if index != 0 && index in m then m[index] else index
  }

  function MapLeaf(m: map<u32, u32>, l: Leaf): Leaf {
    match l
    case In(index) => In(Image(m, index))
    case Out(index) => Out(Image(m, index))
    case Plain(_, _, _) => l
  }

  function MapLeaves(m: map<u32, u32>, ls: seq<Leaf>): seq<Leaf> {
    if ls == [] then [] else [MapLeaf(m, ls[0])] + MapLeaves(m, ls[1..])
  }

  function MapHop(m: map<u32, u32>, h: Hop): Hop {
    Hop(h.flags, Image(m, h.index), MapLeaves(m, h.leaves))
  }

  function MapHops(m: map<u32, u32>, hs: seq<Hop>): seq<Hop> {
    if hs == [] then [] else [MapHop(m, hs[0])] + MapHops(m, hs[1..])
  }

  function MapAttribute(m: map<u32, u32>, a: Attribute): Attribute {
    match a
    case Single(leaf) => Single(MapLeaf(m, leaf))
    case Multipath(hops) => Multipath(MapHops(m, hops))
  }

  function MapAttributes(m: map<u32, u32>, xs: seq<Attribute>): seq<Attribute> {
    if xs == [] then [] else [MapAttribute(m, xs[0])] + MapAttributes(m, xs[1..])
  }

  function MapMessage(m: map<u32, u32>, x: Message): Message {
    x.(attributes := MapAttributes(m, x.attributes))
  }

  function MapMessages(m: map<u32, u32>, ms: seq<Message>): seq<Message> {
    if ms == [] then [] else [MapMessage(m, ms[0])] + MapMessages(m, ms[1..])
  }

  /** The interfaces named, in reading order. */
  function LeafIndexes(l: Leaf): seq<u32> {
    if l.Plain? then [] else [l.index]
  }

  function LeavesIndexes(ls: seq<Leaf>): seq<u32> {
    if ls == [] then [] else LeafIndexes(ls[0]) + LeavesIndexes(ls[1..])
  }

  function HopsIndexes(hs: seq<Hop>): seq<u32> {
    if hs == [] then [] else [hs[0].index] + LeavesIndexes(hs[0].leaves) + HopsIndexes(hs[1..])
  }

  function AttributeIndexes(a: Attribute): seq<u32> {
    match a
    case Single(leaf) => LeafIndexes(leaf)
    case Multipath(hops) => HopsIndexes(hops)
  }

  function AttributesIndexes(xs: seq<Attribute>): seq<u32> {
    if xs == [] then [] else AttributeIndexes(xs[0]) + AttributesIndexes(xs[1..])
  }

  function Indexes(ms: seq<Message>): seq<u32> {
    if ms == [] then [] else AttributesIndexes(ms[0].attributes) + Indexes(ms[1..])
  }

  /** The first nonzero index without an image. */
  function FirstUnknown(m: map<u32, u32>, xs: seq<u32>): (r: Option<u32>)
    ensures r == None <==> forall i | 0 <= i < |xs| :: xs[i] == 0 || xs[i] in m
    ensures r.Some? ==> r.value in xs && r.value != 0 && r.value !in m
  {
    if xs == [] then None
    else if xs[0] != 0 && xs[0] !in m then Some(xs[0])
    else
      var rest := FirstUnknown(m, xs[1..]);
      assert rest == None ==> forall i | 1 <= i < |xs| :: xs[i] == xs[1..][i - 1];
      rest
  }
}
