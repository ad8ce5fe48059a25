/** Every dump the reading accepts is the bytes of messages, so it accepts nothing else. */
module RouteParsing {
  import opened Results
  import opened RouteDump
  import opened RouteMessages
  import opened RouteEncoding

  // ----- attributes without attributes of their own -----

  lemma PayloadLeaf(d: seq<byte>, m: map<u32, u32>, o: nat, length: nat, kind: nat, multipath: bool) returns (l: Leaf)
    requires 4 <= length && o + Aligned(length) <= |d| && U16(d, o) == length && U16(d, o + 2) == kind
    requires ScanPayload(d, m, o, length, kind, multipath).Ok? && (kind == 9 ==> !multipath)
    ensures LeafFits(l) && At(d, o, EncodeLeaf(l)) && LeafLength(l) == length
  {
    hide *;
    if kind == 3 || kind == 4 {
      l := IndexLeaf(d, m, o, length, kind, multipath);
    } else {
      l := PlainLeaf(d, m, o, length, kind, multipath);
    }
    LeafParts(l);
    LeafIsRead(d, o, length, kind, l);
  }

  lemma IndexLeaf(d: seq<byte>, m: map<u32, u32>, o: nat, length: nat, kind: nat, multipath: bool) returns (l: Leaf)
    requires 4 <= length && o + Aligned(length) <= |d| && kind in {3, 4}
    requires ScanPayload(d, m, o, length, kind, multipath).Ok?
    ensures LeafFits(l) && LeafLength(l) == length && LeafKind(l) == kind && At(d, o + 4, LeafPayload(l))
  {
    hide U32, WordBytes, Half, ScanWord;
    var index := U32(d, o + 4);
    l := if kind == 3 then In(index) else Out(index);
    AtWord(d, o + 4, index);
  }

  lemma PlainLeaf(d: seq<byte>, m: map<u32, u32>, o: nat, length: nat, kind: nat, multipath: bool) returns (l: Leaf)
    requires 4 <= length && o + Aligned(length) <= |d| && U16(d, o) == length && U16(d, o + 2) == kind
    requires ScanPayload(d, m, o, length, kind, multipath).Ok? && (kind == 9 ==> !multipath) && kind !in {3, 4}
    ensures LeafFits(l) && LeafLength(l) == length && LeafKind(l) == kind && At(d, o + 4, LeafPayload(l))
  {
    hide U32, WordBytes, Half, ScanWord;
    l := Plain(kind, d[o + 4..o + length], d[o + length..o + Aligned(length)]);
    assert l.data + l.pad == d[o + 4..o + Aligned(length)];
    HalfBelow(d, o);
  }

  lemma HalfBelow(d: seq<byte>, o: nat)
    requires o + 2 <= |d|
    ensures U16(d, o) < 0x1_0000
  {
  }

  lemma LeafIsRead(d: seq<byte>, o: nat, length: nat, kind: nat, l: Leaf)
    requires LeafFits(l) && LeafLength(l) == length && LeafKind(l) == kind && At(d, o + 4, LeafPayload(l))
    requires o + 4 <= |d| && U16(d, o) == length && U16(d, o + 2) == kind
    ensures At(d, o, EncodeLeaf(l))
  {
    hide U16, Half, LeafPayload, EncodeLeaf, LeafFits;
    LeafParts(l);
    AttributeRead(d, o, length, kind, LeafPayload(l));
  }

  lemma AttributesOk(d: seq<byte>, m: map<u32, u32>, o: nat, end: nat, multipath: bool)
    requires o < end <= |d| && ScanAttributes(d, m, o, end, multipath).Ok?
    ensures var length, kind := U16(d, o), U16(d, o + 2);
            && 4 <= length && o + Aligned(length) <= end
            && ScanPayload(d, m, o, length, kind, multipath).Ok?
            && ScanAttributes(d, m, o + Aligned(length), end, multipath).Ok?
  {
    hide U16, ScanPayload, Aligned;
  }

  lemma Prepend<T>(x: T, xs: seq<T>)
    ensures ([x] + xs)[0] == x && ([x] + xs)[1..] == xs
  {
  }

  lemma {:induction false} LeavesParsed(d: seq<byte>, m: map<u32, u32>, o: nat, end: nat) returns (ls: seq<Leaf>)
    requires o <= end <= |d| && ScanAttributes(d, m, o, end, false).Ok?
    ensures LeavesFit(ls) && At(d, o, EncodeLeaves(ls)) && |EncodeLeaves(ls)| == end - o
    decreases end - o
  {
    hide ScanAttributes, ScanPayload, EncodeLeaf, EncodeLeaves, LeafFits, At, U16;
    ls := [];
    NoLeaves();
    if o == end {
      AtNothing(d, o);
    } else {
      AttributesOk(d, m, o, end, false);
      var length := U16(d, o);
      var l := PayloadLeaf(d, m, o, length, U16(d, o + 2), false);
      var rest := LeavesParsed(d, m, o + Aligned(length), end);
      ls := [l] + rest;
      Prepend(l, rest);
      LeavesUnfold(ls);
      LeafParts(l);
      AtJoin(d, o, EncodeLeaf(l), EncodeLeaves(rest));
    }
  }

  // ----- next hops -----

  lemma HopsOk(d: seq<byte>, m: map<u32, u32>, o: nat, stop: nat)
    requires o < stop <= |d| && ScanHops(d, m, o, stop).Ok?
    ensures var length := U16(d, o);
            && 8 <= length && o + Aligned(length) <= stop && o + length <= |d|
            && ScanAttributes(d, m, o + 8, o + length, false).Ok?
            && ScanHops(d, m, o + Aligned(length), stop).Ok?
  {
    hide U16, ScanAttributes, ScanWord;
  }

  lemma HopParsed(d: seq<byte>, m: map<u32, u32>, o: nat, length: nat) returns (h: Hop)
    requires 8 <= length && o + length <= |d| && U16(d, o) == length
    requires ScanAttributes(d, m, o + 8, o + length, false).Ok?
    ensures HopFits(h) && At(d, o, EncodeHop(h)) && HopLength(h) == |EncodeHop(h)| == length && length % 4 == 0
  {
    hide ScanAttributes, EncodeHop, EncodeLeaves, LeafFits, U16, U32;
    var leaves := LeavesParsed(d, m, o + 8, o + length);
    h := Hop(d[o + 2..o + 4], U32(d, o + 4), leaves);
    HalfBelow(d, o);
    LeavesOutcome(d, m, o + 8, leaves);
    HopRead(d, o, h);
  }

  lemma {:induction false} HopsParsed(d: seq<byte>, m: map<u32, u32>, o: nat, stop: nat) returns (hs: seq<Hop>)
    requires o <= stop <= |d| && ScanHops(d, m, o, stop).Ok?
    ensures HopsFit(hs) && At(d, o, EncodeHops(hs)) && |EncodeHops(hs)| == stop - o
    decreases stop - o
  {
    hide ScanHops, ScanHop, ScanAttributes, EncodeHop, EncodeHops, EncodeLeaves, HopFits, At, U16;
    hs := [];
    NoHopsEncoded();
    if o == stop {
      AtNothing(d, o);
    } else {
      HopsOk(d, m, o, stop);
      var length := U16(d, o);
      var h := HopParsed(d, m, o, length);
      AlignedAlready(length);
      var rest := HopsParsed(d, m, o + length, stop);
      hs := [h] + rest;
      Prepend(h, rest);
      HopsUnfold(hs);
      AtJoin(d, o, EncodeHop(h), EncodeHops(rest));
    }
  }

  // ----- attributes -----

  lemma MultipathParsed(d: seq<byte>, m: map<u32, u32>, o: nat, length: nat) returns (a: Attribute)
    requires 4 <= length && o + Aligned(length) <= |d| && U16(d, o) == length && U16(d, o + 2) == 9
    requires ScanPayload(d, m, o, length, 9, true).Ok?
    ensures AttributeFits(a) && At(d, o, EncodeAttribute(a)) && |EncodeAttribute(a)| == Aligned(length)
  {
    hide ScanHops, EncodeHops, HopFits, At, U16, Half;
    var hops := HopsParsed(d, m, o + 4, o + length);
    a := Multipath(hops);
    HalfBelow(d, o);
    AttributeRead(d, o, length, 9, EncodeHops(hops));
    HopsOutcome(d, m, o + 4, hops);
    AlignedAlready(length);
  }

  lemma SingleFits(l: Leaf)
    requires LeafFits(l)
    ensures AttributeFits(Single(l)) && EncodeAttribute(Single(l)) == EncodeLeaf(l)
    ensures |EncodeLeaf(l)| == Aligned(LeafLength(l))
  {
    LeafParts(l);
  }

  lemma AttributeParsed(d: seq<byte>, m: map<u32, u32>, o: nat, length: nat, kind: nat) returns (a: Attribute)
    requires 4 <= length && o + Aligned(length) <= |d| && U16(d, o) == length && U16(d, o + 2) == kind
    requires ScanPayload(d, m, o, length, kind, true).Ok?
    ensures AttributeFits(a) && At(d, o, EncodeAttribute(a)) && |EncodeAttribute(a)| == Aligned(length)
  {
    hide ScanPayload, AttributeFits, EncodeAttribute, EncodeLeaf, LeafFits, At, U16;
    if kind == 9 {
      a := MultipathParsed(d, m, o, length);
    } else {
      var l := PayloadLeaf(d, m, o, length, kind, true);
      a := Single(l);
      SingleFits(l);
    }
  }

  lemma {:induction false} AttributesParsed(d: seq<byte>, m: map<u32, u32>, o: nat, end: nat)
    returns (xs: seq<Attribute>)
    requires o <= end <= |d| && ScanAttributes(d, m, o, end, true).Ok?
    ensures AttributesFit(xs) && At(d, o, EncodeAttributes(xs)) && |EncodeAttributes(xs)| == end - o
    decreases end - o
  {
    hide ScanAttributes, ScanPayload, EncodeAttribute, EncodeAttributes, AttributeFits, At, U16;
    xs := [];
    NoAttributesEncoded();
    if o == end {
      AtNothing(d, o);
    } else {
      AttributesOk(d, m, o, end, true);
      var length := U16(d, o);
      var a := AttributeParsed(d, m, o, length, U16(d, o + 2));
      var rest := AttributesParsed(d, m, o + Aligned(length), end);
      xs := [a] + rest;
      Prepend(a, rest);
      AttributesUnfold(xs);
      AtJoin(d, o, EncodeAttribute(a), EncodeAttributes(rest));
    }
  }

  // ----- messages -----

  lemma MessagesOk(d: seq<byte>, m: map<u32, u32>, o: nat)
    requires o < |d| && ScanMessages(d, m, o).Ok?
    ensures o + 28 <= |d| && U16(d, o + 4) == 24 && d[o + 16] in {2, 10}
    ensures var length := U32(d, o);
            && 28 <= length && o + Aligned(length) <= |d| && o + length <= |d|
            && ScanAttributes(d, m, o + 28, o + length, true).Ok?
            && ScanMessages(d, m, o + Aligned(length)).Ok?
  {
    hide U16, U32, ScanAttributes;
  }

  lemma MessageParsed(d: seq<byte>, m: map<u32, u32>, o: nat, length: nat) returns (x: Message)
    requires 28 <= length && o + length <= |d| && U32(d, o) == length && U16(d, o + 4) == 24 && d[o + 16] in {2, 10}
    requires ScanAttributes(d, m, o + 28, o + length, true).Ok?
    ensures MessageFits(x) && At(d, o, EncodeMessage(x)) && |EncodeMessage(x)| == length && length % 4 == 0
  {
    hide ScanAttributes, EncodeMessage, EncodeAttributes, AttributeFits, U16, U32;
    var attributes := AttributesParsed(d, m, o + 28, o + length);
    x := Message(d[o + 6..o + 16], d[o + 16], d[o + 17..o + 28], attributes);
    AttributesOutcome(d, m, o + 28, attributes);
    MessageRead(d, o, x);
  }

  lemma {:induction false} MessagesParsed(d: seq<byte>, m: map<u32, u32>, o: nat) returns (ms: seq<Message>)
    requires o <= |d| && ScanMessages(d, m, o).Ok?
    ensures AllFit(ms) && At(d, o, EncodeMessages(ms)) && |EncodeMessages(ms)| == |d| - o
    decreases |d| - o
  {
    hide ScanMessages, ScanAttributes, EncodeMessage, EncodeMessages, MessageFits, At, U16, U32;
    ms := [];
    NoMessagesEncoded();
    if o == |d| {
      AtNothing(d, o);
    } else {
      MessagesOk(d, m, o);
      var length := U32(d, o);
      var x := MessageParsed(d, m, o, length);
      AlignedAlready(length);
      var rest := MessagesParsed(d, m, o + length);
      ms := [x] + rest;
      Prepend(x, rest);
      MessagesUnfold(ms);
      AtJoin(d, o, EncodeMessage(x), EncodeMessages(rest));
    }
  }

  lemma DumpParsed(d: seq<byte>, m: map<u32, u32>) returns (ms: seq<Message>)
    requires ScanDump(d, m).Ok?
    ensures AllFit(ms) && d == Encode(ms)
  {
    hide ScanMessages, EncodeMessages, Encode, MessageFits, U32, WordBytes;
    ms := MessagesParsed(d, m, 4);
    AtWord(d, 0, MAGIC);
    DumpRead(d, ms);
  }

  /** A dump is accepted exactly if it is the bytes of some messages all of whose interfaces are known. */
  lemma AcceptedExactlyMessages(d: seq<byte>, m: map<u32, u32>)
    ensures ScanDump(d, m).Ok?
       <==> exists ms :: AllFit(ms) && d == Encode(ms) && FirstUnknown(m, Indexes(ms)) == None
  {
    hide ScanDump, Encode, AllFit, Indexes, FirstUnknown;
    if ScanDump(d, m).Ok? {
      var ms := DumpParsed(d, m);
      DumpOutcome(ms, m);
      assert AllFit(ms) && d == Encode(ms) && FirstUnknown(m, Indexes(ms)) == None;
    }
    if ms :| AllFit(ms) && d == Encode(ms) && FirstUnknown(m, Indexes(ms)) == None {
      DumpOutcome(ms, m);
    }
  }

  /**
   * The rewriter on any bytes at all: they are accepted exactly if they are messages all of whose interfaces
   * are known, and then they come back with every interface replaced.
   */
  method Rewrite(data: seq<byte>, indexes: map<u32, u32>)
    returns (r: Result<seq<byte>, Error>, ghost ms: seq<Message>)
    ensures r.Ok? <==> exists xs :: AllFit(xs) && data == Encode(xs) && FirstUnknown(indexes, Indexes(xs)) == None
    ensures r.Ok? ==> AllFit(ms) && data == Encode(ms) && r.value == Encode(MapMessages(indexes, ms))
  {
    hide ScanDump, Encode, AllFit, Indexes, FirstUnknown, MapMessages, Patch;
    AcceptedExactlyMessages(data, indexes);
    ms := [];
    if ScanDump(data, indexes).Ok? {
      ms := DumpParsed(data, indexes);
      DumpMapped(ms, indexes);
    }
    r := RemapRouteDump(data, indexes);
  }
}
