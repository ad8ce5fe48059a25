/** The reading of a dump against its messages: what it accepts, what it lists, and what rewriting makes of it. */
module RouteEncoding {
  import opened Results
  import opened RouteDump
  import opened RouteMessages

  // ----- bytes in place -----

  ghost predicate At(d: seq<byte>, o: nat, b: seq<byte>) {
    o + |b| <= |d| && d[o..o + |b|] == b
  }

  lemma AtJoin(d: seq<byte>, o: nat, a: seq<byte>, b: seq<byte>)
    ensures At(d, o, a + b) <==> At(d, o, a) && At(d, o + |a|, b)
  {
    if o + |a + b| <= |d| {
      var whole, x, y := d[o..o + |a + b|], d[o..o + |a|], d[o + |a|..o + |a| + |b|];
      assert whole == x + y;
      assert whole[..|a|] == x && whole[|a|..] == y && (a + b)[..|a|] == a && (a + b)[|a|..] == b;
    }
  }

  lemma AtHalf(d: seq<byte>, o: nat, n: nat)
    requires n < 0x1_0000
    ensures At(d, o, Half(n)) <==> o + 2 <= |d| && U16(d, o) == n
  {
    if o + 2 <= |d| {
      var s := d[o..o + 2];
      assert s[0] == d[o] && s[1] == d[o + 1];
      assert s == [d[o], d[o + 1]];
    }
  }

  lemma AtWord(d: seq<byte>, o: nat, w: u32)
    ensures At(d, o, WordBytes(w)) <==> o + 4 <= |d| && U32(d, o) == w
  {
    if o + 4 <= |d| {
      var s := d[o..o + 4];
      assert s[0] == d[o] && s[1] == d[o + 1] && s[2] == d[o + 2] && s[3] == d[o + 3];
      assert U32(s, 0) == U32(d, o);
      if U32(d, o) == w {
        WordsDetermineBytes(s, WordBytes(w), 0);
        assert s[0..4] == s && WordBytes(w)[0..4] == WordBytes(w);
      }
    }
  }

  /** Bytes that a rewriting leaves alone. */
  lemma AtKept(d: seq<byte>, r: seq<byte>, o: nat, b: seq<byte>)
    requires At(d, o, b) && |r| == |d| && forall k | o <= k < o + |b| :: r[k] == d[k]
    ensures At(r, o, b)
  {
  }

  // ----- one attribute -----

  function LeafLength(l: Leaf): nat {
    if l.Plain? then 4 + |l.data| else 8
  }

  function LeafKind(l: Leaf): nat {
    match l
    case In(_) => 3
    case Out(_) => 4
    case Plain(kind, _, _) => kind
  }

  function LeafPayload(l: Leaf): seq<byte> {
    if l.Plain? then l.data + l.pad else WordBytes(l.index)
  }

  lemma LeafParts(l: Leaf)
    requires LeafFits(l)
    ensures EncodeLeaf(l) == Half(LeafLength(l)) + Half(LeafKind(l)) + LeafPayload(l)
    ensures |EncodeLeaf(l)| == Aligned(LeafLength(l)) && 4 <= LeafLength(l) < 0x1_0000 && LeafKind(l) <= 32
  {
    hide WordBytes;
  }

  /** An attribute's header and payload, read. */
  lemma AttributeRead(d: seq<byte>, o: nat, length: nat, kind: nat, payload: seq<byte>)
    requires length < 0x1_0000 && kind < 0x1_0000
    ensures At(d, o, Half(length) + Half(kind) + payload)
       <==> o + 4 + |payload| <= |d| && U16(d, o) == length && U16(d, o + 2) == kind && At(d, o + 4, payload)
  {
    hide Half, U16;
    AtJoin(d, o, Half(length) + Half(kind), payload);
    AtJoin(d, o, Half(length), Half(kind));
    AtHalf(d, o, length);
    AtHalf(d, o + 2, kind);
  }

  lemma LeafRead(d: seq<byte>, o: nat, l: Leaf)
    requires LeafFits(l) && At(d, o, EncodeLeaf(l))
    ensures o + Aligned(LeafLength(l)) <= |d| && U16(d, o) == LeafLength(l) && U16(d, o + 2) == LeafKind(l)
    ensures At(d, o + 4, LeafPayload(l))
  {
    hide EncodeLeaf, U16, Half, LeafPayload, LeafFits;
    LeafParts(l);
    AttributeRead(d, o, LeafLength(l), LeafKind(l), LeafPayload(l));
  }

  // ----- what reading a value's bytes comes to -----

  /** Accepted if every nonzero index has an image; otherwise the first that has none is the fault. */
  ghost predicate Outcome(scan: Scan, m: map<u32, u32>, xs: seq<u32>) {
    var unknown := FirstUnknown(m, xs);
    if unknown == None then scan.Ok? else scan == Err(UnknownInterface(unknown.value))
  }

  lemma {:induction false} FirstUnknownJoin(m: map<u32, u32>, xs: seq<u32>, ys: seq<u32>)
    ensures FirstUnknown(m, xs + ys) == if FirstUnknown(m, xs) == None then FirstUnknown(m, ys) else FirstUnknown(m, xs)
  {
    if xs == [] {
      assert xs + ys == ys;
    } else {
      FirstUnknownJoin(m, xs[1..], ys);
      assert (xs + ys)[1..] == xs[1..] + ys;
    }
  }

  lemma OutcomeJoin(a: Scan, b: Scan, m: map<u32, u32>, xs: seq<u32>, ys: seq<u32>)
    requires Outcome(a, m, xs) && Outcome(b, m, ys)
    ensures Outcome(Chain(a, b), m, xs + ys)
  {
    hide FirstUnknown;
    FirstUnknownJoin(m, xs, ys);
  }

  lemma NoneOutcome(m: map<u32, u32>)
    ensures Outcome(Ok([]), m, [])
  {
  }

  lemma WordOutcome(d: seq<byte>, m: map<u32, u32>, o: nat, index: u32)
    requires o + 4 <= |d| && U32(d, o) == index
    ensures Outcome(ScanWord(d, m, o), m, [index])
  {
    hide U32;
    assert FirstUnknown(m, [index]) == if index != 0 && index !in m then Some(index) else None;
  }

  lemma LeafOutcome(d: seq<byte>, m: map<u32, u32>, o: nat, l: Leaf, multipath: bool)
    requires LeafFits(l) && o + Aligned(LeafLength(l)) <= |d| && At(d, o + 4, LeafPayload(l))
    ensures o + LeafLength(l) <= |d| && LeafLength(l) >= 4
    ensures Outcome(ScanPayload(d, m, o, LeafLength(l), LeafKind(l), multipath), m, LeafIndexes(l))
  {
    hide ScanWord, FirstUnknown, WordBytes, U32, Outcome;
    if l.Plain? {
      NoneOutcome(m);
    } else {
      AtWord(d, o + 4, l.index);
      WordOutcome(d, m, o + 4, l.index);
    }
  }

  lemma AttributesStep(d: seq<byte>, m: map<u32, u32>, start: nat, end: nat, multipath: bool, length: nat, kind: nat)
    requires start + 4 <= end <= |d| && U16(d, start) == length && U16(d, start + 2) == kind
    requires length >= 4 && start + Aligned(length) <= end
    ensures ScanAttributes(d, m, start, end, multipath)
         == Chain(ScanPayload(d, m, start, length, kind, multipath),
                  ScanAttributes(d, m, start + Aligned(length), end, multipath))
  {
    hide ScanPayload, U16, Chain, Aligned;
  }

  lemma NoAttributes(d: seq<byte>, m: map<u32, u32>, start: nat, multipath: bool)
    requires start <= |d|
    ensures ScanAttributes(d, m, start, start, multipath) == Ok([])
  {
  }

  lemma LeavesUnfold(ls: seq<Leaf>)
    requires ls != []
    ensures EncodeLeaves(ls) == EncodeLeaf(ls[0]) + EncodeLeaves(ls[1..])
    ensures LeavesIndexes(ls) == LeafIndexes(ls[0]) + LeavesIndexes(ls[1..])
  {
    hide EncodeLeaf, LeafIndexes;
  }

  lemma NoLeaves()
    ensures EncodeLeaves([]) == [] && LeavesIndexes([]) == []
  {
  }

  ghost predicate LeavesFit(ls: seq<Leaf>) {
    forall i | 0 <= i < |ls| :: LeafFits(ls[i])
  }

  lemma {:induction false} LeavesOutcome(d: seq<byte>, m: map<u32, u32>, o: nat, ls: seq<Leaf>)
    requires LeavesFit(ls) && At(d, o, EncodeLeaves(ls))
    ensures o + |EncodeLeaves(ls)| <= |d|
    ensures Outcome(ScanAttributes(d, m, o, o + |EncodeLeaves(ls)|, false), m, LeavesIndexes(ls))
    ensures |EncodeLeaves(ls)| % 4 == 0
    decreases |ls|
  {
    hide ScanAttributes, EncodeLeaves, EncodeLeaf, LeavesIndexes, LeafIndexes, Outcome, LeafFits, LeafPayload, U16,
         Chain;
    NoLeaves();
    if ls == [] {
      NoAttributes(d, m, o, false);
      NoneOutcome(m);
    } else {
      var l, rest := ls[0], ls[1..];
      LeavesUnfold(ls);
      LeafParts(l);
      var next, end := o + Aligned(LeafLength(l)), o + |EncodeLeaves(ls)|;
      AtJoin(d, o, EncodeLeaf(l), EncodeLeaves(rest));
      LeavesOutcome(d, m, next, rest);
      LeafRead(d, o, l);
      LeafOutcome(d, m, o, l, false);
      AttributesStep(d, m, o, end, false, LeafLength(l), LeafKind(l));
      OutcomeJoin(ScanPayload(d, m, o, LeafLength(l), LeafKind(l), false), ScanAttributes(d, m, next, end, false), m,
                  LeafIndexes(l), LeavesIndexes(rest));
    }
  }

  // ----- next hops -----

  function HopLength(h: Hop): nat {
    8 + |EncodeLeaves(h.leaves)|
  }

  lemma HopRead(d: seq<byte>, o: nat, h: Hop)
    requires HopFits(h)
    ensures |EncodeHop(h)| == HopLength(h) < 0x1_0000
    ensures At(d, o, EncodeHop(h))
       <==> o + HopLength(h) <= |d| && U16(d, o) == HopLength(h) && At(d, o + 2, h.flags) && U32(d, o + 4) == h.index
            && At(d, o + 8, EncodeLeaves(h.leaves))
  {
    hide U16, U32, Half, WordBytes, EncodeLeaves, LeafFits;
    var rest := EncodeLeaves(h.leaves);
    AtJoin(d, o, Half(8 + |rest|) + h.flags + WordBytes(h.index), rest);
    AtJoin(d, o, Half(8 + |rest|) + h.flags, WordBytes(h.index));
    AtJoin(d, o, Half(8 + |rest|), h.flags);
    AtHalf(d, o, 8 + |rest|);
    AtWord(d, o + 4, h.index);
  }

  lemma HopStep(d: seq<byte>, m: map<u32, u32>, o: nat, stop: nat, length: nat)
    requires o + 8 <= o + Aligned(length) <= stop <= |d| && U16(d, o) == length && length >= 8
    ensures ScanHop(d, m, o, stop) == Chain(ScanWord(d, m, o + 4), ScanAttributes(d, m, o + 8, o + length, false))
    ensures ScanHops(d, m, o, stop) == Chain(ScanHop(d, m, o, stop), ScanHops(d, m, o + Aligned(length), stop))
  {
    hide U16, ScanWord, ScanAttributes, Aligned;
  }

  lemma NoHops(d: seq<byte>, m: map<u32, u32>, o: nat)
    requires o <= |d|
    ensures ScanHops(d, m, o, o) == Ok([])
  {
  }

  lemma AlignedAlready(n: nat)
    requires n % 4 == 0
    ensures Aligned(n) == n
  {
  }

  lemma HopOutcome(d: seq<byte>, m: map<u32, u32>, o: nat, h: Hop, stop: nat)
    requires HopFits(h) && At(d, o, EncodeHop(h)) && o + |EncodeHop(h)| <= stop <= |d|
    ensures HopLength(h) % 4 == 0 && o + 2 <= |d| && U16(d, o) == HopLength(h)
    ensures Outcome(ScanHop(d, m, o, stop), m, [h.index] + LeavesIndexes(h.leaves))
  {
    hide U16, U32, ScanWord, ScanAttributes, ScanHops, EncodeHop, EncodeLeaves, LeavesIndexes, Outcome, Chain, LeafFits;
    HopRead(d, o, h);
    LeavesOutcome(d, m, o + 8, h.leaves);
    AlignedAlready(HopLength(h));
    HopStep(d, m, o, stop, HopLength(h));
    WordOutcome(d, m, o + 4, h.index);
    OutcomeJoin(ScanWord(d, m, o + 4), ScanAttributes(d, m, o + 8, o + HopLength(h), false), m,
                [h.index], LeavesIndexes(h.leaves));
  }

  ghost predicate HopsFit(hs: seq<Hop>) {
    forall i | 0 <= i < |hs| :: HopFits(hs[i])
  }

  lemma HopsUnfold(hs: seq<Hop>)
    requires hs != []
    ensures EncodeHops(hs) == EncodeHop(hs[0]) + EncodeHops(hs[1..])
    ensures HopsIndexes(hs) == ([hs[0].index] + LeavesIndexes(hs[0].leaves)) + HopsIndexes(hs[1..])
  {
    hide EncodeHop, LeavesIndexes;
  }

  lemma NoHopsEncoded()
    ensures EncodeHops([]) == [] && HopsIndexes([]) == []
  {
  }

  lemma {:induction false} HopsOutcome(d: seq<byte>, m: map<u32, u32>, o: nat, hs: seq<Hop>)
    requires HopsFit(hs) && At(d, o, EncodeHops(hs))
    ensures o + |EncodeHops(hs)| <= |d| && |EncodeHops(hs)| % 4 == 0
    ensures Outcome(ScanHops(d, m, o, o + |EncodeHops(hs)|), m, HopsIndexes(hs))
    decreases |hs|
  {
    hide ScanHops, ScanHop, EncodeHops, EncodeHop, HopsIndexes, LeavesIndexes, Outcome, HopFits, U16, Chain,
         EncodeLeaves;
    NoHopsEncoded();
    if hs == [] {
      NoHops(d, m, o);
      NoneOutcome(m);
    } else {
      var h, rest, stop := hs[0], hs[1..], o + |EncodeHops(hs)|;
      HopsUnfold(hs);
      AtJoin(d, o, EncodeHop(h), EncodeHops(rest));
      HopRead(d, o, h);
      HopsOutcome(d, m, o + HopLength(h), rest);
      HopOutcome(d, m, o, h, stop);
      AlignedAlready(HopLength(h));
      HopStep(d, m, o, stop, HopLength(h));
      OutcomeJoin(ScanHop(d, m, o, stop), ScanHops(d, m, o + HopLength(h), stop), m,
                  [h.index] + LeavesIndexes(h.leaves), HopsIndexes(rest));
    }
  }

  // ----- attributes -----

  function AttributeLength(a: Attribute): nat {
    match a
    case Single(leaf) => LeafLength(leaf)
    case Multipath(hops) => 4 + |EncodeHops(hops)|
  }

  function AttributeKind(a: Attribute): nat {
    if a.Single? then LeafKind(a.leaf) else 9
  }

  lemma AttributeOutcome(d: seq<byte>, m: map<u32, u32>, o: nat, a: Attribute)
    requires AttributeFits(a) && At(d, o, EncodeAttribute(a))
    ensures |EncodeAttribute(a)| == Aligned(AttributeLength(a)) && 4 <= AttributeLength(a)
    ensures o + |EncodeAttribute(a)| <= |d|
    ensures U16(d, o) == AttributeLength(a) && U16(d, o + 2) == AttributeKind(a)
    ensures Outcome(ScanPayload(d, m, o, AttributeLength(a), AttributeKind(a), true), m, AttributeIndexes(a))
  {
    hide ScanHops, EncodeHops, EncodeLeaf, HopsIndexes, LeafIndexes, Outcome, HopFits, LeafFits, LeafPayload, U16, Half;
    match a
    case Single(l) =>
      LeafParts(l);
      LeafRead(d, o, l);
      LeafOutcome(d, m, o, l, true);
    case Multipath(hops) =>
      AttributeRead(d, o, 4 + |EncodeHops(hops)|, 9, EncodeHops(hops));
      HopsOutcome(d, m, o + 4, hops);
      AlignedAlready(4 + |EncodeHops(hops)|);
  }

  ghost predicate AttributesFit(xs: seq<Attribute>) {
    forall i | 0 <= i < |xs| :: AttributeFits(xs[i])
  }

  lemma AttributesUnfold(xs: seq<Attribute>)
    requires xs != []
    ensures EncodeAttributes(xs) == EncodeAttribute(xs[0]) + EncodeAttributes(xs[1..])
    ensures AttributesIndexes(xs) == AttributeIndexes(xs[0]) + AttributesIndexes(xs[1..])
  {
    hide EncodeAttribute, AttributeIndexes;
  }

  lemma NoAttributesEncoded()
    ensures EncodeAttributes([]) == [] && AttributesIndexes([]) == []
  {
  }

  lemma {:induction false} AttributesOutcome(d: seq<byte>, m: map<u32, u32>, o: nat, xs: seq<Attribute>)
    requires AttributesFit(xs) && At(d, o, EncodeAttributes(xs))
    ensures o + |EncodeAttributes(xs)| <= |d| && |EncodeAttributes(xs)| % 4 == 0
    ensures Outcome(ScanAttributes(d, m, o, o + |EncodeAttributes(xs)|, true), m, AttributesIndexes(xs))
    decreases |xs|
  {
    hide ScanAttributes, ScanPayload, EncodeAttributes, EncodeAttribute, AttributesIndexes, AttributeIndexes, Outcome,
         AttributeFits, AttributeLength, AttributeKind, U16, Chain;
    NoAttributesEncoded();
    if xs == [] {
      NoAttributes(d, m, o, true);
      NoneOutcome(m);
    } else {
      var a, rest, end := xs[0], xs[1..], o + |EncodeAttributes(xs)|;
      AttributesUnfold(xs);
      AtJoin(d, o, EncodeAttribute(a), EncodeAttributes(rest));
      AttributeOutcome(d, m, o, a);
      var next := o + Aligned(AttributeLength(a));
      AttributesOutcome(d, m, next, rest);
      AttributesStep(d, m, o, end, true, AttributeLength(a), AttributeKind(a));
      OutcomeJoin(ScanPayload(d, m, o, AttributeLength(a), AttributeKind(a), true),
                  ScanAttributes(d, m, next, end, true), m, AttributeIndexes(a), AttributesIndexes(rest));
    }
  }

  // ----- messages -----

  function MessageLength(x: Message): nat {
    28 + |EncodeAttributes(x.attributes)|
  }

  /** A message's fixed fields in place. */
  lemma MessageRead(d: seq<byte>, o: nat, x: Message)
    requires MessageFits(x)
    ensures |EncodeMessage(x)| == MessageLength(x) < 0x1_0000_0000
    ensures At(d, o, EncodeMessage(x))
       <==> o + MessageLength(x) <= |d| && U32(d, o) == MessageLength(x) && U16(d, o + 4) == 24
            && At(d, o + 6, x.header) && d[o + 16] == x.family && At(d, o + 17, x.route)
            && At(d, o + 28, EncodeAttributes(x.attributes))
  {
    hide U16, U32, Half, WordBytes, EncodeAttributes, AttributeFits;
    var rest := EncodeAttributes(x.attributes);
    var fixed := Word(28 + |rest|) + Half(24) + x.header;
    AtJoin(d, o, fixed + [x.family] + x.route, rest);
    AtJoin(d, o, fixed + [x.family], x.route);
    AtJoin(d, o, fixed, [x.family]);
    AtJoin(d, o, Word(28 + |rest|) + Half(24), x.header);
    AtJoin(d, o, Word(28 + |rest|), Half(24));
    AtWord(d, o, 28 + |rest|);
    AtHalf(d, o + 4, 24);
    AtByte(d, o + 16, x.family);
  }

  lemma AtByte(d: seq<byte>, o: nat, b: byte)
    ensures At(d, o, [b]) <==> o < |d| && d[o] == b
  {
    if o < |d| {
      assert d[o..o + 1] == [d[o]];
    }
  }

  lemma MessageStep(d: seq<byte>, m: map<u32, u32>, o: nat, length: nat)
    requires o + 28 <= |d| && U32(d, o) == length && 28 <= length && o + Aligned(length) <= |d|
    requires U16(d, o + 4) == 24 && d[o + 16] in {2, 10}
    ensures ScanMessage(d, m, o) == ScanAttributes(d, m, o + 28, o + length, true)
    ensures ScanMessages(d, m, o) == Chain(ScanMessage(d, m, o), ScanMessages(d, m, o + Aligned(length)))
  {
    hide U16, U32, ScanAttributes, Aligned;
  }

  lemma MessageOutcome(d: seq<byte>, m: map<u32, u32>, o: nat, x: Message)
    requires MessageFits(x) && At(d, o, EncodeMessage(x))
    ensures |EncodeMessage(x)| == MessageLength(x) && MessageLength(x) % 4 == 0 && o + MessageLength(x) <= |d|
    ensures U32(d, o) == MessageLength(x)
    ensures Outcome(ScanMessage(d, m, o), m, AttributesIndexes(x.attributes))
    ensures ScanMessages(d, m, o) == Chain(ScanMessage(d, m, o), ScanMessages(d, m, o + MessageLength(x)))
  {
    hide U16, U32, ScanAttributes, ScanMessage, ScanMessages, EncodeAttributes, EncodeMessage, AttributesIndexes,
         Outcome, AttributeFits, Chain;
    MessageRead(d, o, x);
    AttributesOutcome(d, m, o + 28, x.attributes);
    AlignedAlready(MessageLength(x));
    MessageStep(d, m, o, MessageLength(x));
  }

  lemma MessagesUnfold(ms: seq<Message>)
    requires ms != []
    ensures EncodeMessages(ms) == EncodeMessage(ms[0]) + EncodeMessages(ms[1..])
    ensures Indexes(ms) == AttributesIndexes(ms[0].attributes) + Indexes(ms[1..])
  {
    hide EncodeMessage, AttributesIndexes;
  }

  lemma NoMessagesEncoded()
    ensures EncodeMessages([]) == [] && Indexes([]) == []
  {
  }

  lemma NoMessagesScanned(d: seq<byte>, m: map<u32, u32>)
    ensures ScanMessages(d, m, |d|) == Ok([])
  {
  }

  lemma {:induction false} MessagesOutcome(d: seq<byte>, m: map<u32, u32>, o: nat, ms: seq<Message>)
    requires AllFit(ms) && At(d, o, EncodeMessages(ms)) && o + |EncodeMessages(ms)| == |d|
    ensures Outcome(ScanMessages(d, m, o), m, Indexes(ms))
    decreases |ms|
  {
    hide ScanMessages, ScanMessage, EncodeMessages, EncodeMessage, Indexes, AttributesIndexes, Outcome, MessageFits,
         U32, Chain, EncodeAttributes;
    NoMessagesEncoded();
    if ms == [] {
      NoMessagesScanned(d, m);
      NoneOutcome(m);
    } else {
      var x, rest := ms[0], ms[1..];
      MessagesUnfold(ms);
      AtJoin(d, o, EncodeMessage(x), EncodeMessages(rest));
      MessageOutcome(d, m, o, x);
      MessagesOutcome(d, m, o + MessageLength(x), rest);
      OutcomeJoin(ScanMessage(d, m, o), ScanMessages(d, m, o + MessageLength(x)), m,
                  AttributesIndexes(x.attributes), Indexes(rest));
    }
  }

  lemma DumpRead(d: seq<byte>, ms: seq<Message>)
    ensures d == Encode(ms)
       <==> At(d, 0, WordBytes(MAGIC)) && At(d, 4, EncodeMessages(ms)) && |d| == 4 + |EncodeMessages(ms)|
  {
    hide WordBytes, EncodeMessages;
    AtJoin(d, 0, WordBytes(MAGIC), EncodeMessages(ms));
    if |d| == |Encode(ms)| {
      assert d[0..|d|] == d;
    }
  }

  lemma DumpOutcome(ms: seq<Message>, m: map<u32, u32>)
    requires AllFit(ms)
    ensures Outcome(ScanDump(Encode(ms), m), m, Indexes(ms))
  {
    hide ScanMessages, EncodeMessages, Encode, Indexes, Outcome, MessageFits, U32, WordBytes;
    var d := Encode(ms);
    DumpRead(d, ms);
    AtWord(d, 0, MAGIC);
    MessagesOutcome(d, m, 4, ms);
  }

  // ----- what rewriting makes of a value's bytes -----

  lemma NoneMapped(d: seq<byte>, r: seq<byte>, m: map<u32, u32>, lo: nat, hi: nat)
    requires Stretch(Ok([]), d, r, m, lo, hi)
    ensures |r| == |d| && hi <= |d| && forall k | lo <= k < hi :: r[k] == d[k]
  {
    hide Translatable;
    assert forall k :: !Covered([], k);
  }

  lemma WordMapped(d: seq<byte>, r: seq<byte>, m: map<u32, u32>, lo: nat, o: nat, hi: nat)
    requires lo <= o && o + 4 <= hi && hi <= |d| && Stretch(ScanWord(d, m, o), d, r, m, lo, hi)
    ensures |r| == |d| && U32(r, o) == Image(m, U32(d, o))
    ensures forall k | lo <= k < hi && !(o <= k < o + 4) :: r[k] == d[k]
  {
    if U32(d, o) == 0 {
      NoneMapped(d, r, m, lo, hi);
    } else {
      assert ScanWord(d, m, o) == Ok([o]);
      assert [o][0] == o;
      hide U32;
      forall k | lo <= k < hi && !(o <= k < o + 4)
        ensures r[k] == d[k]
      {
        assert !Covered([o], k);
      }
    }
  }

  lemma PlainScanned(d: seq<byte>, m: map<u32, u32>, o: nat, l: Leaf, multipath: bool)
    requires LeafFits(l) && l.Plain? && o + LeafLength(l) <= |d|
    ensures ScanPayload(d, m, o, LeafLength(l), LeafKind(l), multipath) == Ok([])
  {
  }

  lemma LeafMapped(d: seq<byte>, r: seq<byte>, m: map<u32, u32>, o: nat, l: Leaf, multipath: bool)
    requires LeafFits(l) && At(d, o, EncodeLeaf(l)) && 4 <= LeafLength(l) && o + Aligned(LeafLength(l)) <= |d|
    requires Stretch(ScanPayload(d, m, o, LeafLength(l), LeafKind(l), multipath), d, r, m, o,
                     o + Aligned(LeafLength(l)))
    ensures At(r, o, EncodeLeaf(MapLeaf(m, l)))
  {
    hide EncodeLeaf, U16, U32, Half, WordBytes, Stretch, ScanWord, Image, LeafFits;
    var next := o + Aligned(LeafLength(l));
    LeafParts(l);
    if l.Plain? {
      PlainScanned(d, m, o, l, multipath);
      NoneMapped(d, r, m, o, next);
      AtKept(d, r, o, EncodeLeaf(l));
    } else {
      IndexLeafMapped(d, r, m, o, l);
    }
  }

  lemma IndexLeafMapped(d: seq<byte>, r: seq<byte>, m: map<u32, u32>, o: nat, l: Leaf)
    requires !l.Plain? && At(d, o, EncodeLeaf(l)) && o + 8 <= |d|
    requires Stretch(ScanWord(d, m, o + 4), d, r, m, o, o + 8)
    ensures At(r, o, EncodeLeaf(MapLeaf(m, l)))
  {
    hide U16, U32, Half, Stretch, ScanWord, Image, At;
    var mapped := MapLeaf(m, l);
    LeafParts(l);
    LeafParts(mapped);
    AttributeRead(d, o, 8, LeafKind(l), WordBytes(l.index));
    AtWord(d, o + 4, l.index);
    WordMapped(d, r, m, o, o + 4, o + 8);
    SameHalves(d, r, o);
    AtWord(r, o + 4, Image(m, l.index));
    AttributeRead(r, o, 8, LeafKind(l), WordBytes(Image(m, l.index)));
  }

  lemma SameHalves(d: seq<byte>, r: seq<byte>, o: nat)
    requires |r| == |d| && o + 4 <= |d| && forall k | o <= k < o + 4 :: r[k] == d[k]
    ensures U16(r, o) == U16(d, o) && U16(r, o + 2) == U16(d, o + 2)
  {
  }

  /** A stretch of one attribute and those after it comes apart between them. */
  lemma AttributesSplit(d: seq<byte>, r: seq<byte>, m: map<u32, u32>, o: nat, end: nat, multipath: bool,
                        length: nat, kind: nat)
    requires o + 4 <= end <= |d| && U16(d, o) == length && U16(d, o + 2) == kind
    requires length >= 4 && o + Aligned(length) <= end
    requires Stretch(ScanAttributes(d, m, o, end, multipath), d, r, m, o, end)
    ensures Stretch(ScanPayload(d, m, o, length, kind, multipath), d, r, m, o, o + Aligned(length))
    ensures Stretch(ScanAttributes(d, m, o + Aligned(length), end, multipath), d, r, m, o + Aligned(length), end)
  {
    hide *;
    AlignedCovers(length);
    var next := o + Aligned(length);
    var here, rest := ScanPayload(d, m, o, length, kind, multipath), ScanAttributes(d, m, next, end, multipath);
    AttributesStep(d, m, o, end, multipath, length, kind);
    PayloadPlaced(d, m, o, length, kind, multipath);
    Widen(here, d, m, o, o + 4, o + length);
    Lengthen(here, d, m, o, o + length, next);
    AttributesPlaced(d, m, next, end, multipath);
    Split(here, rest, d, r, m, o, next, next, end);
  }

  lemma AlignedCovers(n: nat)
    ensures n <= Aligned(n)
  {
  }

  lemma LeavesMap(m: map<u32, u32>, ls: seq<Leaf>)
    requires ls != [] && LeavesFit(ls)
    ensures EncodeLeaves(MapLeaves(m, ls)) == EncodeLeaf(MapLeaf(m, ls[0])) + EncodeLeaves(MapLeaves(m, ls[1..]))
    ensures |EncodeLeaf(MapLeaf(m, ls[0]))| == |EncodeLeaf(ls[0])|
  {
    hide Half, WordBytes, LeafFits;
    var mapped := MapLeaves(m, ls);
    assert mapped[0] == MapLeaf(m, ls[0]) && mapped[1..] == MapLeaves(m, ls[1..]);
    hide EncodeLeaves;
    LeavesUnfold(mapped);
  }

  lemma NoLeavesMapped(m: map<u32, u32>)
    ensures MapLeaves(m, []) == []
  {
  }

  lemma {:induction false} LeavesMapped(d: seq<byte>, r: seq<byte>, m: map<u32, u32>, o: nat, ls: seq<Leaf>)
    requires LeavesFit(ls) && At(d, o, EncodeLeaves(ls)) && o + |EncodeLeaves(ls)| <= |d|
    requires Stretch(ScanAttributes(d, m, o, o + |EncodeLeaves(ls)|, false), d, r, m, o, o + |EncodeLeaves(ls)|)
    ensures At(r, o, EncodeLeaves(MapLeaves(m, ls))) && |EncodeLeaves(MapLeaves(m, ls))| == |EncodeLeaves(ls)|
    decreases |ls|
  {
    hide ScanAttributes, EncodeLeaves, EncodeLeaf, MapLeaves, MapLeaf, LeafFits, LeafPayload, Stretch, U16, At;
    NoLeaves();
    if ls == [] {
      NoLeavesMapped(m);
      SameLength(ScanAttributes(d, m, o, o, false), d, r, m, o, o);
      AtNothing(r, o);
    } else {
      var l, rest, end := ls[0], ls[1..], o + |EncodeLeaves(ls)|;
      LeavesUnfold(ls);
      LeafParts(l);
      AtJoin(d, o, EncodeLeaf(l), EncodeLeaves(rest));
      LeafRead(d, o, l);
      AttributesSplit(d, r, m, o, end, false, LeafLength(l), LeafKind(l));
      LeafMapped(d, r, m, o, l, false);
      LeavesMapped(d, r, m, o + Aligned(LeafLength(l)), rest);
      LeavesMap(m, ls);
      AtJoin(r, o, EncodeLeaf(MapLeaf(m, l)), EncodeLeaves(MapLeaves(m, rest)));
    }
  }

  lemma AtNothing(d: seq<byte>, o: nat)
    requires o <= |d|
    ensures At(d, o, [])
  {
  }

  // ----- next hops -----

  lemma HopSplit(d: seq<byte>, r: seq<byte>, m: map<u32, u32>, o: nat, length: nat)
    requires 8 <= length && o + length <= |d|
    requires Stretch(Chain(ScanWord(d, m, o + 4), ScanAttributes(d, m, o + 8, o + length, false)), d, r, m, o,
                     o + length)
    ensures Stretch(ScanWord(d, m, o + 4), d, r, m, o, o + 8)
    ensures Stretch(ScanAttributes(d, m, o + 8, o + length, false), d, r, m, o + 8, o + length)
  {
    hide *;
    WordPlaced(d, m, o + 4);
    Widen(ScanWord(d, m, o + 4), d, m, o, o + 4, o + 8);
    AttributesPlaced(d, m, o + 8, o + length, false);
    Split(ScanWord(d, m, o + 4), ScanAttributes(d, m, o + 8, o + length, false), d, r, m, o, o + 8, o + 8, o + length);
  }

  lemma MappedHopFits(m: map<u32, u32>, h: Hop)
    requires HopFits(h) && |EncodeLeaves(MapLeaves(m, h.leaves))| == |EncodeLeaves(h.leaves)|
    ensures HopFits(MapHop(m, h)) && HopLength(MapHop(m, h)) == HopLength(h)
  {
    hide EncodeLeaves;
    MappedLeavesFit(m, h.leaves);
  }

  lemma {:induction false} MappedLeavesFit(m: map<u32, u32>, ls: seq<Leaf>)
    requires LeavesFit(ls)
    ensures LeavesFit(MapLeaves(m, ls)) && |MapLeaves(m, ls)| == |ls|
  {
    if ls != [] {
      MappedLeavesFit(m, ls[1..]);
    }
  }

  lemma HopMapped(d: seq<byte>, r: seq<byte>, m: map<u32, u32>, o: nat, h: Hop, stop: nat)
    requires HopFits(h) && At(d, o, EncodeHop(h)) && o + |EncodeHop(h)| <= stop <= |d|
    requires Stretch(ScanHop(d, m, o, stop), d, r, m, o, o + |EncodeHop(h)|)
    ensures At(r, o, EncodeHop(MapHop(m, h))) && |EncodeHop(MapHop(m, h))| == |EncodeHop(h)|
  {
    hide U16, U32, ScanWord, ScanAttributes, ScanHop, ScanHops, EncodeHop, EncodeLeaves, Stretch, Chain, LeafFits,
         Image;
    HopRead(d, o, h);
    HopOutcome(d, m, o, h, stop);
    AlignedAlready(HopLength(h));
    HopStep(d, m, o, stop, HopLength(h));
    HopSplit(d, r, m, o, HopLength(h));
    WordMapped(d, r, m, o, o + 4, o + 8);
    LeavesMapped(d, r, m, o + 8, h.leaves);
    MappedHopFits(m, h);
    HopHeaderKept(d, r, o, h);
    HopRead(r, o, MapHop(m, h));
  }

  lemma HopHeaderKept(d: seq<byte>, r: seq<byte>, o: nat, h: Hop)
    requires |h.flags| == 2 && |r| == |d| && o + 8 <= |d| && At(d, o + 2, h.flags)
    requires forall k | o <= k < o + 4 :: r[k] == d[k]
    ensures U16(r, o) == U16(d, o) && At(r, o + 2, h.flags)
  {
    AtKept(d, r, o + 2, h.flags);
  }

  lemma HopsSplit(d: seq<byte>, r: seq<byte>, m: map<u32, u32>, o: nat, stop: nat, length: nat)
    requires length >= 8 && length % 4 == 0 && o + length <= stop <= |d| && U16(d, o) == length
    requires Stretch(ScanHops(d, m, o, stop), d, r, m, o, stop)
    ensures Stretch(ScanHop(d, m, o, stop), d, r, m, o, o + length)
    ensures Stretch(ScanHops(d, m, o + length, stop), d, r, m, o + length, stop)
  {
    hide U16, ScanWord, ScanAttributes, ScanHop, ScanHops, Stretch, Placed, Chain, Aligned;
    AlignedAlready(length);
    HopStep(d, m, o, stop, length);
    if ScanHop(d, m, o, stop).Ok? {
      HopScanPlaced(d, m, o, stop);
    }
    HopsPlaced(d, m, o + length, stop);
    ChainOk(ScanHop(d, m, o, stop), ScanHops(d, m, o + length, stop), d, r, m, o, stop);
    Split(ScanHop(d, m, o, stop), ScanHops(d, m, o + length, stop), d, r, m, o, o + length, o + length, stop);
  }

  lemma ChainOk(a: Scan, b: Scan, d: seq<byte>, r: seq<byte>, m: map<u32, u32>, lo: nat, hi: nat)
    requires Stretch(Chain(a, b), d, r, m, lo, hi)
    ensures a.Ok? && b.Ok?
  {
  }

  lemma HopsMap(m: map<u32, u32>, hs: seq<Hop>)
    requires hs != []
    ensures EncodeHops(MapHops(m, hs)) == EncodeHop(MapHop(m, hs[0])) + EncodeHops(MapHops(m, hs[1..]))
  {
    hide EncodeHop, MapHop;
    var mapped := MapHops(m, hs);
    assert mapped[0] == MapHop(m, hs[0]) && mapped[1..] == MapHops(m, hs[1..]);
    hide EncodeHops;
    HopsUnfold(mapped);
  }

  lemma NoHopsMapped(m: map<u32, u32>)
    ensures MapHops(m, []) == []
  {
  }

  lemma {:induction false} HopsMapped(d: seq<byte>, r: seq<byte>, m: map<u32, u32>, o: nat, hs: seq<Hop>)
    requires HopsFit(hs) && At(d, o, EncodeHops(hs)) && o + |EncodeHops(hs)| <= |d|
    requires Stretch(ScanHops(d, m, o, o + |EncodeHops(hs)|), d, r, m, o, o + |EncodeHops(hs)|)
    ensures At(r, o, EncodeHops(MapHops(m, hs))) && |EncodeHops(MapHops(m, hs))| == |EncodeHops(hs)|
    decreases |hs|
  {
    hide ScanHops, ScanHop, EncodeHops, EncodeHop, MapHops, MapHop, HopFits, Stretch, U16, At, EncodeLeaves;
    NoHopsEncoded();
    if hs == [] {
      NoHopsMapped(m);
      SameLength(ScanHops(d, m, o, o), d, r, m, o, o);
      AtNothing(r, o);
    } else {
      var h, rest, stop := hs[0], hs[1..], o + |EncodeHops(hs)|;
      HopsUnfold(hs);
      AtJoin(d, o, EncodeHop(h), EncodeHops(rest));
      HopRead(d, o, h);
      HopOutcome(d, m, o, h, stop);
      HopsSplit(d, r, m, o, stop, HopLength(h));
      HopMapped(d, r, m, o, h, stop);
      HopsMapped(d, r, m, o + HopLength(h), rest);
      HopsMap(m, hs);
      AtJoin(r, o, EncodeHop(MapHop(m, h)), EncodeHops(MapHops(m, rest)));
    }
  }

  // ----- attributes -----

  lemma MultipathMapped(d: seq<byte>, r: seq<byte>, m: map<u32, u32>, o: nat, hs: seq<Hop>)
    requires HopsFit(hs) && 4 + |EncodeHops(hs)| < 0x1_0000 && At(d, o, EncodeAttribute(Multipath(hs)))
    requires o + 4 + |EncodeHops(hs)| <= |d|
    requires Stretch(ScanHops(d, m, o + 4, o + 4 + |EncodeHops(hs)|), d, r, m, o, o + 4 + |EncodeHops(hs)|)
    ensures At(r, o, EncodeAttribute(Multipath(MapHops(m, hs)))) && |EncodeHops(MapHops(m, hs))| == |EncodeHops(hs)|
  {
    hide U16, Half, EncodeHops, MapHops, ScanHops, HopFits, Stretch, At, Placed;
    var stop := o + 4 + |EncodeHops(hs)|;
    var scan := ScanHops(d, m, o + 4, stop);
    AttributeRead(d, o, 4 + |EncodeHops(hs)|, 9, EncodeHops(hs));
    Narrow(scan, d, r, m, o, o + 4, stop);
    HopsMapped(d, r, m, o + 4, hs);
    HopsPlaced(d, m, o + 4, stop);
    Kept(scan, d, r, m, o, stop, o + 4);
    SameLength(scan, d, r, m, o, stop);
    SameHalves(d, r, o);
    AttributeRead(r, o, 4 + |EncodeHops(hs)|, 9, EncodeHops(MapHops(m, hs)));
  }

  lemma AttributeMapped(d: seq<byte>, r: seq<byte>, m: map<u32, u32>, o: nat, a: Attribute)
    requires AttributeFits(a) && At(d, o, EncodeAttribute(a))
    requires 4 <= AttributeLength(a) && o + Aligned(AttributeLength(a)) <= |d|
    requires Stretch(ScanPayload(d, m, o, AttributeLength(a), AttributeKind(a), true), d, r, m,
                     o, o + Aligned(AttributeLength(a)))
    ensures At(r, o, EncodeAttribute(MapAttribute(m, a)))
    ensures |EncodeAttribute(MapAttribute(m, a))| == |EncodeAttribute(a)|
  {
    hide ScanHops, EncodeHops, EncodeLeaf, MapHops, MapLeaf, HopFits, LeafFits, Stretch, At, Half, ScanWord;
    match a
    case Single(l) =>
      LeafMapped(d, r, m, o, l, true);
      MappedLeafSize(m, l);
    case Multipath(hops) =>
      MultipathRead(d, o, hops);
      HopsOutcome(d, m, o + 4, hops);
      AlignedAlready(4 + |EncodeHops(hops)|);
      MultipathMapped(d, r, m, o, hops);
  }

  lemma MultipathRead(d: seq<byte>, o: nat, hs: seq<Hop>)
    requires 4 + |EncodeHops(hs)| < 0x1_0000 && At(d, o, EncodeAttribute(Multipath(hs)))
    ensures At(d, o + 4, EncodeHops(hs))
  {
    hide U16, Half, EncodeHops, At;
    AttributeRead(d, o, 4 + |EncodeHops(hs)|, 9, EncodeHops(hs));
  }

  lemma MappedLeafSize(m: map<u32, u32>, l: Leaf)
    ensures |EncodeLeaf(MapLeaf(m, l))| == |EncodeLeaf(l)|
  {
    hide Half, WordBytes;
  }

  lemma AttributesMap(m: map<u32, u32>, xs: seq<Attribute>)
    requires xs != []
    ensures EncodeAttributes(MapAttributes(m, xs))
         == EncodeAttribute(MapAttribute(m, xs[0])) + EncodeAttributes(MapAttributes(m, xs[1..]))
  {
    hide EncodeAttribute, MapAttribute;
    var mapped := MapAttributes(m, xs);
    assert mapped[0] == MapAttribute(m, xs[0]) && mapped[1..] == MapAttributes(m, xs[1..]);
    hide EncodeAttributes;
    AttributesUnfold(mapped);
  }

  lemma NoAttributesMapped(m: map<u32, u32>)
    ensures MapAttributes(m, []) == []
  {
  }

  lemma {:induction false} AttributesMapped(d: seq<byte>, r: seq<byte>, m: map<u32, u32>, o: nat, xs: seq<Attribute>)
    requires AttributesFit(xs) && At(d, o, EncodeAttributes(xs)) && o + |EncodeAttributes(xs)| <= |d|
    requires Stretch(ScanAttributes(d, m, o, o + |EncodeAttributes(xs)|, true), d, r, m, o, o + |EncodeAttributes(xs)|)
    ensures At(r, o, EncodeAttributes(MapAttributes(m, xs)))
    ensures |EncodeAttributes(MapAttributes(m, xs))| == |EncodeAttributes(xs)|
    decreases |xs|
  {
    hide ScanAttributes, EncodeAttributes, EncodeAttribute, MapAttributes, MapAttribute, AttributeFits, AttributeLength,
         AttributeKind, Stretch, U16, At, ScanPayload;
    NoAttributesEncoded();
    if xs == [] {
      NoAttributesMapped(m);
      SameLength(ScanAttributes(d, m, o, o, true), d, r, m, o, o);
      AtNothing(r, o);
    } else {
      var a, rest, end := xs[0], xs[1..], o + |EncodeAttributes(xs)|;
      AttributesUnfold(xs);
      AtJoin(d, o, EncodeAttribute(a), EncodeAttributes(rest));
      AttributeOutcome(d, m, o, a);
      AttributesSplit(d, r, m, o, end, true, AttributeLength(a), AttributeKind(a));
      AttributeMapped(d, r, m, o, a);
      AttributesMapped(d, r, m, o + Aligned(AttributeLength(a)), rest);
      AttributesMap(m, xs);
      AtJoin(r, o, EncodeAttribute(MapAttribute(m, a)), EncodeAttributes(MapAttributes(m, rest)));
    }
  }

  // ----- messages -----

  lemma {:induction false} MappedAttributesFit(m: map<u32, u32>, xs: seq<Attribute>)
    requires AttributesFit(xs)
    ensures AttributesFit(MapAttributes(m, xs)) && |EncodeAttributes(MapAttributes(m, xs))| == |EncodeAttributes(xs)|
  {
    hide EncodeAttributes, EncodeAttribute, AttributeFits, MapAttribute;
    NoAttributesEncoded();
    if xs != [] {
      MappedAttributesFit(m, xs[1..]);
      AttributesMap(m, xs);
      AttributesUnfold(xs);
      MappedAttributeFits(m, xs[0]);
    }
  }

  lemma MappedAttributeFits(m: map<u32, u32>, a: Attribute)
    requires AttributeFits(a)
    ensures AttributeFits(MapAttribute(m, a)) && |EncodeAttribute(MapAttribute(m, a))| == |EncodeAttribute(a)|
  {
    hide EncodeHops, MapHops, HopFits, EncodeLeaf;
    match a
    case Single(l) => MappedLeafSize(m, l);
    case Multipath(hops) => MappedHopsFit(m, hops);
  }

  lemma {:induction false} MappedLeavesSize(m: map<u32, u32>, ls: seq<Leaf>)
    requires LeavesFit(ls)
    ensures |EncodeLeaves(MapLeaves(m, ls))| == |EncodeLeaves(ls)|
  {
    hide EncodeLeaves, EncodeLeaf, LeafFits;
    NoLeaves();
    if ls != [] {
      MappedLeavesSize(m, ls[1..]);
      LeavesMap(m, ls);
      LeavesUnfold(ls);
    }
  }

  lemma {:induction false} MappedHopsFit(m: map<u32, u32>, hs: seq<Hop>)
    requires HopsFit(hs)
    ensures HopsFit(MapHops(m, hs)) && |MapHops(m, hs)| == |hs| && |EncodeHops(MapHops(m, hs))| == |EncodeHops(hs)|
  {
    hide EncodeHops, EncodeHop, MapHop, EncodeLeaves, MapLeaves;
    NoHopsEncoded();
    if hs != [] {
      MappedHopsFit(m, hs[1..]);
      HopsMap(m, hs);
      HopsUnfold(hs);
      OneHopFits(m, hs[0]);
    }
  }

  lemma OneHopFits(m: map<u32, u32>, h: Hop)
    requires HopFits(h)
    ensures HopFits(MapHop(m, h)) && |EncodeHop(MapHop(m, h))| == |EncodeHop(h)|
  {
    hide EncodeLeaves, LeafFits;
    MappedLeavesSize(m, h.leaves);
    MappedHopFits(m, h);
  }

  lemma MessageHeaderKept(d: seq<byte>, r: seq<byte>, o: nat, x: Message)
    requires |r| == |d| && o + 28 <= |d| && |x.header| == 10 && |x.route| == 11
    requires At(d, o + 6, x.header) && At(d, o + 17, x.route) && forall k | o <= k < o + 28 :: r[k] == d[k]
    ensures U32(r, o) == U32(d, o) && U16(r, o + 4) == U16(d, o + 4) && r[o + 16] == d[o + 16]
    ensures At(r, o + 6, x.header) && At(r, o + 17, x.route)
  {
    AtKept(d, r, o + 6, x.header);
    AtKept(d, r, o + 17, x.route);
  }

  /** Scanning an encoded message is scanning its attributes. */
  lemma MessageScan(d: seq<byte>, m: map<u32, u32>, o: nat, x: Message)
    requires MessageFits(x) && At(d, o, EncodeMessage(x))
    ensures var end := o + 28 + |EncodeAttributes(x.attributes)|;
            && |EncodeMessage(x)| == MessageLength(x) == end - o && end <= |d| && AttributesFit(x.attributes)
            && At(d, o + 28, EncodeAttributes(x.attributes))
            && ScanMessage(d, m, o) == ScanAttributes(d, m, o + 28, end, true)
  {
    hide *;
    MessageSize(x);
    MessageRead(d, o, x);
    AttributesOutcome(d, m, o + 28, x.attributes);
    AlignedAlready(MessageLength(x));
    MessageStep(d, m, o, MessageLength(x));
  }

  lemma MessageSize(x: Message)
    requires MessageFits(x)
    ensures MessageLength(x) == 28 + |EncodeAttributes(x.attributes)| && x.family in {2, 10}
    ensures AttributesFit(x.attributes)
  {
    hide EncodeAttributes, AttributeFits;
  }

  /** A stretch that ends with encoded attributes: what is before them is kept, and they are translated. */
  lemma AttributesStretch(d: seq<byte>, r: seq<byte>, m: map<u32, u32>, o: nat, first: nat, end: nat,
                          xs: seq<Attribute>)
    requires AttributesFit(xs) && At(d, first, EncodeAttributes(xs)) && end == first + |EncodeAttributes(xs)| <= |d|
    requires o <= first && Stretch(ScanAttributes(d, m, first, end, true), d, r, m, o, end)
    ensures |r| == |d| && At(r, first, EncodeAttributes(MapAttributes(m, xs)))
    ensures forall k | o <= k < first :: r[k] == d[k]
  {
    hide *;
    var scan := ScanAttributes(d, m, first, end, true);
    SameLength(scan, d, r, m, o, end);
    Narrow(scan, d, r, m, o, first, end);
    AttributesMapped(d, r, m, first, xs);
    AttributesPlaced(d, m, first, end, true);
    Kept(scan, d, r, m, o, end, first);
  }

  /** The translated message keeps its first words, and its attributes are those of the translation. */
  lemma MessagePartsMapped(d: seq<byte>, r: seq<byte>, m: map<u32, u32>, o: nat, x: Message)
    requires MessageFits(x) && At(d, o, EncodeMessage(x)) && o + |EncodeMessage(x)| <= |d|
    requires Stretch(ScanMessage(d, m, o), d, r, m, o, o + |EncodeMessage(x)|)
    ensures |EncodeMessage(x)| == MessageLength(x) && |r| == |d|
    ensures forall k | o <= k < o + 28 :: r[k] == d[k]
    ensures At(r, o + 28, EncodeAttributes(MapAttributes(m, x.attributes)))
  {
    hide *;
    MessageScan(d, m, o, x);
    AttributesStretch(d, r, m, o, o + 28, o + 28 + |EncodeAttributes(x.attributes)|, x.attributes);
  }

  lemma MessageMapped(d: seq<byte>, r: seq<byte>, m: map<u32, u32>, o: nat, x: Message)
    requires MessageFits(x) && At(d, o, EncodeMessage(x)) && o + |EncodeMessage(x)| <= |d|
    requires Stretch(ScanMessage(d, m, o), d, r, m, o, o + |EncodeMessage(x)|)
    ensures At(r, o, EncodeMessage(MapMessage(m, x))) && |EncodeMessage(MapMessage(m, x))| == |EncodeMessage(x)|
  {
    hide U16, U32, ScanMessage, EncodeAttributes, EncodeMessage, MapAttributes, AttributeFits, Stretch, At, Aligned;
    MessagePartsMapped(d, r, m, o, x);
    MessageRead(d, o, x);
    MessageHeaderKept(d, r, o, x);
    MappedAttributesFit(m, x.attributes);
    MessageRead(r, o, MapMessage(m, x));
  }

  lemma MessagesMap(m: map<u32, u32>, ms: seq<Message>)
    requires ms != []
    ensures EncodeMessages(MapMessages(m, ms))
         == EncodeMessage(MapMessage(m, ms[0])) + EncodeMessages(MapMessages(m, ms[1..]))
  {
    hide EncodeMessage, MapMessage;
    var mapped := MapMessages(m, ms);
    assert mapped[0] == MapMessage(m, ms[0]) && mapped[1..] == MapMessages(m, ms[1..]);
    hide EncodeMessages;
    MessagesUnfold(mapped);
  }

  lemma MessagesSplitAt(d: seq<byte>, r: seq<byte>, m: map<u32, u32>, o: nat, length: nat)
    requires 28 <= length && length % 4 == 0 && o + length <= |d| && U32(d, o) == length
    requires Stretch(ScanMessages(d, m, o), d, r, m, o, |d|)
    ensures ScanMessage(d, m, o).Ok? && Stretch(ScanMessage(d, m, o), d, r, m, o, o + length)
    ensures Stretch(ScanMessages(d, m, o + length), d, r, m, o + length, |d|)
  {
    hide *;
    AlignedAlready(length);
    SplitMessages(d, r, m, o);
  }

  lemma NoMessagesMapped(m: map<u32, u32>)
    ensures MapMessages(m, []) == []
  {
  }

  lemma {:induction false} MessagesMapped(d: seq<byte>, r: seq<byte>, m: map<u32, u32>, o: nat, ms: seq<Message>)
    requires AllFit(ms) && At(d, o, EncodeMessages(ms)) && o + |EncodeMessages(ms)| == |d|
    requires Stretch(ScanMessages(d, m, o), d, r, m, o, |d|)
    ensures At(r, o, EncodeMessages(MapMessages(m, ms))) && |EncodeMessages(MapMessages(m, ms))| == |EncodeMessages(ms)|
    decreases |ms|
  {
    hide ScanMessages, ScanMessage, EncodeMessages, EncodeMessage, EncodeAttributes, MapMessages, MapMessage,
         MessageFits, Stretch, U32, At, Outcome, Chain;
    NoMessagesEncoded();
    if ms == [] {
      NoMessagesMapped(m);
      SameLength(ScanMessages(d, m, o), d, r, m, o, |d|);
      AtNothing(r, o);
    } else {
      var x, rest := ms[0], ms[1..];
      MessagesUnfold(ms);
      AtJoin(d, o, EncodeMessage(x), EncodeMessages(rest));
      MessageOutcome(d, m, o, x);
      MessagesSplitAt(d, r, m, o, MessageLength(x));
      MessageMapped(d, r, m, o, x);
      MessagesMapped(d, r, m, o + MessageLength(x), rest);
      MessagesMap(m, ms);
      AtJoin(r, o, EncodeMessage(MapMessage(m, x)), EncodeMessages(MapMessages(m, rest)));
    }
  }

  // ----- the whole dump -----

  lemma DumpStretch(d: seq<byte>, m: map<u32, u32>)
    requires |d| >= 4 && U32(d, 0) == MAGIC && ScanDump(d, m).Ok?
    ensures var offs := ScanDump(d, m).value;
            && Translatable(d, m, offs)
            && var r := Patch(d, m, offs);
            Stretch(ScanMessages(d, m, 4), d, r, m, 4, |d|) && U32(r, 0) == MAGIC
  {
    hide ScanMessages, Patch, Translatable, U32, Covered;
    OnlyIndexesChange(d, m);
    var offs := ScanDump(d, m).value;
    var r := Patch(d, m, offs);
    Narrow(ScanDump(d, m), d, r, m, 0, 4, |d|);
    forall k | 0 <= k < 4
      ensures r[k] == d[k]
    {
      NotCovered(offs, k, |d|);
    }
    SameWord(d, r);
  }

  lemma NotCovered(offs: seq<nat>, k: nat, hi: nat)
    requires Spaced(offs, 4, hi) && k < 4
    ensures !Covered(offs, k)
  {
  }

  lemma SameWord(d: seq<byte>, r: seq<byte>)
    requires |r| == |d| >= 4 && forall k | 0 <= k < 4 :: r[k] == d[k]
    ensures U32(r, 0) == U32(d, 0)
  {
  }

  lemma DumpMapped(ms: seq<Message>, m: map<u32, u32>)
    requires AllFit(ms) && ScanDump(Encode(ms), m).Ok?
    ensures Translatable(Encode(ms), m, ScanDump(Encode(ms), m).value)
    ensures Patch(Encode(ms), m, ScanDump(Encode(ms), m).value) == Encode(MapMessages(m, ms))
  {
    hide ScanMessages, ScanDump, EncodeMessages, Encode, MapMessages, MessageFits, Stretch, U32, At, Patch,
         Translatable, WordBytes;
    var d := Encode(ms);
    DumpRead(d, ms);
    AtWord(d, 0, MAGIC);
    DumpStretch(d, m);
    var r := Patch(d, m, ScanDump(d, m).value);
    MessagesMapped(d, r, m, 4, ms);
    AtWord(r, 0, MAGIC);
    DumpRead(r, MapMessages(m, ms));
  }

  /**
   * The rewriter on the bytes of any messages: every nonzero interface is replaced by its image, incoming,
   * outgoing and in next hops alike, or the first one without an image is the fault.
   */
  method RewriteMessages(ms: seq<Message>, indexes: map<u32, u32>) returns (r: Result<seq<byte>, Error>)
    requires AllFit(ms)
    ensures r.Ok? <==> forall i | 0 <= i < |Indexes(ms)| :: Indexes(ms)[i] == 0 || Indexes(ms)[i] in indexes
    ensures r.Ok? ==> r.value == Encode(MapMessages(indexes, ms))
    ensures r.Err? ==> FirstUnknown(indexes, Indexes(ms)).Some?
                       && r.error == UnknownInterface(FirstUnknown(indexes, Indexes(ms)).value)
  {
    hide ScanDump, Encode, Indexes, AllFit, MapMessages, Patch;
    DumpOutcome(ms, indexes);
    if ScanDump(Encode(ms), indexes).Ok? {
      DumpMapped(ms, indexes);
    }
    r := RemapRouteDump(Encode(ms), indexes);
  }
}
