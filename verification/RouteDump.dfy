/**
 * The in-place rewriter of a saved route dump: interface indexes inside a
 * stream of rtnetlink route messages are translated, every other byte stays.
 * The reading functions below look only at the bytes that were handed in; the
 * methods read and write one buffer, as the program does.
 */
module RouteDump {
  import opened Results

  type byte = b: int | 0 <= b < 256
  type u32 = w: int | 0 <= w < 0x1_0000_0000

  const MAGIC: u32 := 0x45311224

  datatype Error =
    | BadHeader
    | TruncatedMessage
    | BadMessage
    | BadFamily
    | TruncatedAttribute
    | BadAttributeLength
    | BadInterfaceReference
    | TruncatedNexthop
    | BadNexthopLength
    | UnsupportedAttribute(kind: nat)
    | UnknownInterface(index: u32)

  // ----- little-endian words -----

  function U16(d: seq<byte>, o: nat): nat
    requires o + 2 <= |d|
  {
    d[o] as int + 0x100 * d[o + 1] as int
  }

  function U32(d: seq<byte>, o: nat): u32
    requires o + 4 <= |d|
  {
    d[o] as int + 0x100 * (d[o + 1] as int + 0x100 * (d[o + 2] as int + 0x100 * d[o + 3] as int))
  }

  function WordBytes(w: u32): (b: seq<byte>)
    ensures |b| == 4 && U32(b, 0) == w
  {
    var high := w / 0x100;
    var higher := high / 0x100;
    [w % 0x100, high % 0x100, higher % 0x100, higher / 0x100]
  }

  lemma LowByte(x: byte, y: int, x': byte, y': int)
    requires x as int + 0x100 * y == x' as int + 0x100 * y'
    ensures x == x' && y == y'
  {
  }

  lemma WordsDetermineBytes(a: seq<byte>, b: seq<byte>, o: nat)
    requires o + 4 <= |a| == |b|
    requires U32(a, o) == U32(b, o)
    ensures a[o..o + 4] == b[o..o + 4]
  {
    var a1, b1 := a[o + 1] as int + 0x100 * (a[o + 2] as int + 0x100 * a[o + 3] as int),
                  b[o + 1] as int + 0x100 * (b[o + 2] as int + 0x100 * b[o + 3] as int);
    LowByte(a[o], a1, b[o], b1);
    LowByte(a[o + 1], a[o + 2] as int + 0x100 * a[o + 3] as int, b[o + 1], b[o + 2] as int + 0x100 * b[o + 3] as int);
    LowByte(a[o + 2], a[o + 3] as int, b[o + 2], b[o + 3] as int);
  }

  /** Lengths are rounded up to a multiple of four. */
  function Aligned(n: nat): (r: nat)
    ensures n <= r < n + 4 && r % 4 == 0
  {
    (n + 3) / 4 * 4
  }

  // ----- reading: where the interface indexes are -----

  type Scan = Result<seq<nat>, Error>

  function Chain(first: Scan, rest: Scan): Scan {
    if first.Err? then first else if rest.Err? then rest else Ok(first.value + rest.value)
  }

  lemma ChainEmpty(scan: Scan)
    ensures Chain(Ok([]), scan) == scan == Chain(scan, Ok([]))
  {
    assert scan.Ok? ==> [] + scan.value == scan.value == scan.value + [];
  }

  lemma ChainAssociates(a: Scan, b: Scan, c: Scan)
    ensures Chain(a, Chain(b, c)) == Chain(Chain(a, b), c)
  {
    assert a.Ok? && b.Ok? && c.Ok? ==> a.value + (b.value + c.value) == a.value + b.value + c.value;
  }

  /** Offsets of four-byte words that lie in [lo, hi) and do not overlap. */
  ghost predicate Spaced(offs: seq<nat>, lo: nat, hi: nat) {
    && (forall i | 0 <= i < |offs| :: lo <= offs[i] && offs[i] + 4 <= hi)
    && (forall i, j | 0 <= i < j < |offs| :: offs[i] + 4 <= offs[j])
  }

  /** Words of `d` that name an interface, each with an image under `m`. */
  ghost predicate Translatable(d: seq<byte>, m: map<u32, u32>, offs: seq<nat>) {
    forall i | 0 <= i < |offs| :: offs[i] + 4 <= |d| && U32(d, offs[i]) != 0 && U32(d, offs[i]) in m
  }

  /** One index word: zero means "no interface" and needs no translation. */
  function ScanWord(d: seq<byte>, m: map<u32, u32>, o: nat): Scan
    requires o + 4 <= |d|
  {
    var w := U32(d, o);
    if w == 0 then Ok([]) else if w !in m then Err(UnknownInterface(w)) else Ok([o])
  }

  function ScanAttributes(d: seq<byte>, m: map<u32, u32>, start: nat, end: nat, multipath: bool): Scan
    requires start <= end <= |d|
    decreases if multipath then 2 else 0, end - start
  {
    if start == end then Ok([])
    else if end - start < 4 then Err(TruncatedAttribute)
    else
      var length, kind := U16(d, start), U16(d, start + 2);
      var next := start + Aligned(length);
      if length < 4 || next > end then Err(BadAttributeLength)
      else Chain(ScanPayload(d, m, start, length, kind, multipath), ScanAttributes(d, m, next, end, multipath))
  }

  function ScanPayload(d: seq<byte>, m: map<u32, u32>, start: nat, length: nat, kind: nat, multipath: bool): Scan
    requires 4 <= length && start + length <= |d|
    decreases if multipath then 2 else 0, 0
  {
    if kind == 3 || kind == 4 then
      if length != 8 then Err(BadInterfaceReference) else ScanWord(d, m, start + 4)
    else if kind == 9 && multipath then ScanHops(d, m, start + 4, start + length)
    else if kind == 9 || kind == 22 || kind == 30 || kind > 32 then Err(UnsupportedAttribute(kind))
    else Ok([])
  }

  /** One rtnexthop record: its interface word and its own attributes, which may not nest further. */
  function ScanHop(d: seq<byte>, m: map<u32, u32>, payload: nat, stop: nat): (r: Scan)
    requires payload <= stop <= |d|
    ensures r.Ok? ==> payload + 8 <= stop && 8 <= U16(d, payload) && payload + Aligned(U16(d, payload)) <= stop
    decreases 1, 0
  {
    if stop - payload < 8 then Err(TruncatedNexthop)
    else
      var length := U16(d, payload);
      if length < 8 || payload + Aligned(length) > stop then Err(BadNexthopLength)
      else Chain(ScanWord(d, m, payload + 4), ScanAttributes(d, m, payload + 8, payload + length, false))
  }

  function ScanHops(d: seq<byte>, m: map<u32, u32>, payload: nat, stop: nat): Scan
    requires payload <= stop <= |d|
    decreases 1, stop - payload + 1
  {
    if payload == stop then Ok([])
    else
      var hop := ScanHop(d, m, payload, stop);
      if hop.Err? then hop else Chain(hop, ScanHops(d, m, payload + Aligned(U16(d, payload)), stop))
  }

  /** What is wrong with the message header at `offset`: length, kind (RTM_NEWROUTE) or family (IPv4, IPv6). */
  function MessageFault(d: seq<byte>, offset: nat): (fault: Option<Error>)
    requires offset <= |d|
    ensures fault == None ==> offset + 28 <= |d| && 28 <= U32(d, offset) && offset + Aligned(U32(d, offset)) <= |d|
  {
    if |d| - offset < 28 then Some(TruncatedMessage)
    else
      var length, kind := U32(d, offset), U16(d, offset + 4);
      if length < 28 || offset + Aligned(length) > |d| || kind != 24 then Some(BadMessage)
      else if d[offset + 16] != 2 && d[offset + 16] != 10 then Some(BadFamily)
      else None
  }

  function ScanMessage(d: seq<byte>, m: map<u32, u32>, offset: nat): (r: Scan)
    requires offset <= |d|
    ensures r.Ok? ==> offset + 28 <= |d| && 28 <= U32(d, offset) && offset + Aligned(U32(d, offset)) <= |d|
  {
    var fault := MessageFault(d, offset);
    if fault.Some? then Err(fault.value)
    else ScanAttributes(d, m, offset + 28, offset + U32(d, offset), true)
  }

  function ScanMessages(d: seq<byte>, m: map<u32, u32>, offset: nat): Scan
    requires offset <= |d|
    decreases |d| - offset
  {
    if offset == |d| then Ok([])
    else
      var message := ScanMessage(d, m, offset);
      if message.Err? then message else Chain(message, ScanMessages(d, m, offset + Aligned(U32(d, offset))))
  }

  /** Every nonzero interface index of the stream, by offset, or the first fault met. */
  function ScanDump(d: seq<byte>, m: map<u32, u32>): Scan
  {
    if |d| < 4 || U32(d, 0) != MAGIC then Err(BadHeader) else ScanMessages(d, m, 4)
  }

  // ----- writing -----

  function Put(d: seq<byte>, o: nat, w: u32): (r: seq<byte>)
    requires o + 4 <= |d|
    ensures |r| == |d| && U32(r, o) == w
    ensures forall k | 0 <= k < |d| && !(o <= k < o + 4) :: r[k] == d[k]
  {
    d[..o] + WordBytes(w) + d[o + 4..]
  }

  /** `d` with each listed word replaced by its image, all images taken from `d`. */
  ghost function Patch(d: seq<byte>, m: map<u32, u32>, offs: seq<nat>): (r: seq<byte>)
    requires Translatable(d, m, offs)
    ensures |r| == |d|
  {
    if offs == [] then d
    else
      var last := offs[|offs| - 1];
      Put(Patch(d, m, offs[..|offs| - 1]), last, m[U32(d, last)])
  }

  ghost predicate Below(offs: seq<nat>, bound: nat) {
    forall i | 0 <= i < |offs| :: offs[i] + 4 <= bound
  }

  /** Nothing at or after the last patched word has changed yet. */
  lemma {:induction false} PatchBeyond(d: seq<byte>, m: map<u32, u32>, offs: seq<nat>, bound: nat)
    requires Translatable(d, m, offs) && Below(offs, bound)
    ensures forall k | bound <= k < |d| :: Patch(d, m, offs)[k] == d[k]
  {
    if offs != [] {
      PatchBeyond(d, m, offs[..|offs| - 1], bound);
    }
  }

  /** A word `o` is among those at `offs`. */
  ghost predicate Covered(offs: seq<nat>, k: nat) {
    exists i :: 0 <= i < |offs| && offs[i] <= k < offs[i] + 4
  }

  /** `r` is `d` inside [lo, hi) but for the words at `offs`, which hold their images under `m`. */
  ghost predicate Remapped(d: seq<byte>, r: seq<byte>, m: map<u32, u32>, offs: seq<nat>, lo: nat, hi: nat) {
    && |r| == |d| && hi <= |d|
    && Translatable(d, m, offs)
    && (forall i | 0 <= i < |offs| :: U32(r, offs[i]) == m[U32(d, offs[i])])
    && (forall k | lo <= k < hi && !Covered(offs, k) :: r[k] == d[k])
  }

  lemma PutElsewhere(d: seq<byte>, o: nat, w: u32, q: nat)
    requires q + 4 <= o && o + 4 <= |d|
    ensures U32(Put(d, o, w), q) == U32(d, q)
  {
  }

  lemma {:induction false} PatchRemaps(d: seq<byte>, m: map<u32, u32>, offs: seq<nat>, lo: nat)
    requires Translatable(d, m, offs) && Spaced(offs, lo, |d|)
    ensures Remapped(d, Patch(d, m, offs), m, offs, 0, |d|)
  {
    if offs != [] {
      var front := offs[..|offs| - 1];
      PatchRemaps(d, m, front, lo);
      var p, r, last := Patch(d, m, front), Patch(d, m, offs), offs[|offs| - 1];
      forall i | 0 <= i < |offs|
        ensures U32(r, offs[i]) == m[U32(d, offs[i])]
      {
        if i < |front| {
          assert front[i] == offs[i];
          PutElsewhere(p, last, m[U32(d, last)], offs[i]);
        }
      }
      forall k | 0 <= k < |d| && !Covered(offs, k)
        ensures r[k] == d[k]
      {
        assert !Covered(front, k) && !(last <= k < last + 4);
      }
    }
  }

  // ----- the in-place rewriter -----

  /** The words at `done` have been rewritten, all of them before the cursor, and nothing else. */
  ghost predicate Rewritten(now: seq<byte>, d: seq<byte>, m: map<u32, u32>, done: seq<nat>, cursor: nat) {
    Translatable(d, m, done) && Below(done, cursor) && now == Patch(d, m, done)
  }

  lemma Later(now: seq<byte>, d: seq<byte>, m: map<u32, u32>, done: seq<nat>, cursor: nat, cursor': nat)
    requires Rewritten(now, d, m, done, cursor) && cursor <= cursor'
    ensures Rewritten(now, d, m, done, cursor')
  {
  }

  /** The buffer and the fault reported are what the reading `scan` asks for. */
  ghost predicate Follows(scan: Scan, fault: Option<Error>, now: seq<byte>, d: seq<byte>, m: map<u32, u32>,
                          cursor: nat) {
    match scan
    case Err(e) => fault == Some(e)
    case Ok(offs) => fault == None && Rewritten(now, d, m, offs, cursor)
  }

  lemma ReadsOriginal(now: seq<byte>, d: seq<byte>, m: map<u32, u32>, done: seq<nat>, o: nat)
    requires Rewritten(now, d, m, done, o)
    ensures |now| == |d|
    ensures o + 2 <= |d| ==> U16(now, o) == U16(d, o)
    ensures o + 4 <= |d| ==> U32(now, o) == U32(d, o) && U16(now, o + 2) == U16(d, o + 2)
  {
    PatchBeyond(d, m, done, o);
  }

  lemma Extended(now: seq<byte>, d: seq<byte>, m: map<u32, u32>, done: seq<nat>, o: nat)
    requires o + 4 <= |d| && Rewritten(now, d, m, done, o) && U32(d, o) != 0 && U32(d, o) in m
    ensures |now| == |d| && Rewritten(Put(now, o, m[U32(d, o)]), d, m, done + [o], o + 4)
  {
    hide U32, Put;
    assert (done + [o])[..|done|] == done;
  }

  method WriteWord(output: array<byte>, o: nat, w: u32)
    requires o + 4 <= output.Length
    modifies output
    ensures output[..] == Put(old(output[..]), o, w)
  {
    var b := WordBytes(w);
    output[o], output[o + 1], output[o + 2], output[o + 3] := b[0], b[1], b[2], b[3];
  }

  method RemapWord(output: array<byte>, indexes: map<u32, u32>, o: nat, ghost d: seq<byte>, ghost done: seq<nat>)
    returns (fault: Option<Error>)
    requires o + 4 <= output.Length
    requires Rewritten(output[..], d, indexes, done, o)
    modifies output
    ensures Follows(Chain(Ok(done), ScanWord(d, indexes, o)), fault, output[..], d, indexes, o + 4)
  {
    hide U32, Put, Rewritten, Translatable;
    ReadsOriginal(output[..], d, indexes, done, o);
    var index := U32(output[..], o);
    if index == 0 {
      ChainEmpty(Ok(done));
      Later(output[..], d, indexes, done, o, o + 4);
      return None;
    }
    if index !in indexes {
      return Some(UnknownInterface(index));
    }
    Extended(output[..], d, indexes, done, o);
    WriteWord(output, o, indexes[index]);
    return None;
  }

  method RemapAttributes(output: array<byte>, indexes: map<u32, u32>, begin: nat, end: nat, multipath: bool,
                         ghost d: seq<byte>, ghost done: seq<nat>)
    returns (fault: Option<Error>)
    requires begin <= end <= output.Length
    requires Rewritten(output[..], d, indexes, done, begin)
    modifies output
    ensures Follows(Chain(Ok(done), ScanAttributes(d, indexes, begin, end, multipath)), fault, output[..], d, indexes,
                    end)
    decreases if multipath then 2 else 0, 1
  {
    hide Rewritten, U16, U32, ScanPayload, ScanHops;
    ReadsOriginal(output[..], d, indexes, done, begin);
    var start := begin;
    ghost var all := done;
    while start < end
      invariant start <= end <= output.Length == |d|
      invariant Rewritten(output[..], d, indexes, all, start)
      invariant Chain(Ok(done), ScanAttributes(d, indexes, begin, end, multipath))
             == Chain(Ok(all), ScanAttributes(d, indexes, start, end, multipath))
      decreases end - start
    {
      ReadsOriginal(output[..], d, indexes, all, start);
      if end - start < 4 {
        return Some(TruncatedAttribute);
      }
      var length, kind := U16(output[..], start), U16(output[..], start + 2);
      var aligned := Aligned(length);
      if length < 4 || start + aligned > end {
        return Some(BadAttributeLength);
      }
      ghost var here, rest := ScanPayload(d, indexes, start, length, kind, multipath),
                              ScanAttributes(d, indexes, start + aligned, end, multipath);
      ChainAssociates(Ok(all), here, rest);
      fault := RemapPayload(output, indexes, start, length, kind, multipath, d, all);
      if fault != None {
        return;
      }
      all := Chain(Ok(all), here).value;
      Later(output[..], d, indexes, all, start + length, start + aligned);
      start := start + aligned;
    }
    ChainEmpty(Ok(all));
    return None;
  }

  method RemapPayload(output: array<byte>, indexes: map<u32, u32>, start: nat, length: nat, kind: nat, multipath: bool,
                      ghost d: seq<byte>, ghost done: seq<nat>)
    returns (fault: Option<Error>)
    requires 4 <= length && start + length <= output.Length
    requires Rewritten(output[..], d, indexes, done, start)
    modifies output
    ensures Follows(Chain(Ok(done), ScanPayload(d, indexes, start, length, kind, multipath)), fault, output[..], d,
                    indexes, start + length)
    decreases if multipath then 2 else 0, 0
  {
    var payload, stop := start + 4, start + length;
    fault := None;
    if kind == 3 || kind == 4 {
      if length != 8 {
        return Some(BadInterfaceReference);
      }
      fault := RemapWord(output, indexes, payload, d, done);
    } else if kind == 9 && multipath {
      fault := RemapHops(output, indexes, payload, stop, d, done);
    } else if kind == 9 || kind == 22 || kind == 30 || kind > 32 {
      return Some(UnsupportedAttribute(kind));
    } else {
      ChainEmpty(Ok(done));
    }
  }

  method RemapHop(output: array<byte>, indexes: map<u32, u32>, payload: nat, stop: nat, ghost d: seq<byte>,
                  ghost done: seq<nat>)
    returns (fault: Option<Error>, next: nat)
    requires payload < stop <= output.Length
    requires Rewritten(output[..], d, indexes, done, payload)
    modifies output
    ensures Follows(Chain(Ok(done), ScanHop(d, indexes, payload, stop)), fault, output[..], d, indexes, next)
    ensures fault == None ==> payload + 2 <= |d| && next == payload + Aligned(U16(d, payload)) && payload < next <= stop
    decreases 0, 2
  {
    hide Rewritten, U16, ScanWord, ScanAttributes;
    ReadsOriginal(output[..], d, indexes, done, payload);
    next := payload;
    if stop - payload < 8 {
      return Some(TruncatedNexthop), next;
    }
    var length := U16(output[..], payload);
    if length < 8 || payload + Aligned(length) > stop {
      return Some(BadNexthopLength), next;
    }
    ghost var word, nested := ScanWord(d, indexes, payload + 4),
                              ScanAttributes(d, indexes, payload + 8, payload + length, false);
    ChainAssociates(Ok(done), word, nested);
    Later(output[..], d, indexes, done, payload, payload + 4);
    fault := RemapWord(output, indexes, payload + 4, d, done);
    if fault != None {
      return;
    }
    fault := RemapAttributes(output, indexes, payload + 8, payload + length, false, d, Chain(Ok(done), word).value);
    if fault != None {
      return;
    }
    next := payload + Aligned(length);
    Later(output[..], d, indexes, Chain(Ok(done), Chain(word, nested)).value, payload + length, next);
  }

  method RemapHops(output: array<byte>, indexes: map<u32, u32>, begin: nat, stop: nat,
                   ghost d: seq<byte>, ghost done: seq<nat>)
    returns (fault: Option<Error>)
    requires begin <= stop <= output.Length
    requires Rewritten(output[..], d, indexes, done, begin)
    modifies output
    ensures Follows(Chain(Ok(done), ScanHops(d, indexes, begin, stop)), fault, output[..], d, indexes, stop)
    decreases 1, 0
  {
    hide Rewritten, U16, U32, ScanHop;
    ReadsOriginal(output[..], d, indexes, done, begin);
    var payload := begin;
    ghost var all := done;
    while payload < stop
      invariant payload <= stop <= output.Length == |d|
      invariant Rewritten(output[..], d, indexes, all, payload)
      invariant Chain(Ok(done), ScanHops(d, indexes, begin, stop))
                == Chain(Ok(all), ScanHops(d, indexes, payload, stop))
      decreases stop - payload
    {
      ghost var hop := ScanHop(d, indexes, payload, stop);
      var next;
      fault, next := RemapHop(output, indexes, payload, stop, d, all);
      if fault != None {
        return;
      }
      ChainAssociates(Ok(all), hop, ScanHops(d, indexes, next, stop));
      all := Chain(Ok(all), hop).value;
      payload := next;
    }
    ChainEmpty(Ok(all));
    return None;
  }

  lemma SameHeader(now: seq<byte>, d: seq<byte>, m: map<u32, u32>, done: seq<nat>, o: nat)
    requires Rewritten(now, d, m, done, o) && o <= |d|
    ensures |now| == |d| && MessageFault(now, o) == MessageFault(d, o)
    ensures o + 28 <= |d| ==> U32(now, o) == U32(d, o)
  {
    PatchBeyond(d, m, done, o);
  }

  method RemapMessage(output: array<byte>, indexes: map<u32, u32>, offset: nat, ghost d: seq<byte>,
                      ghost done: seq<nat>)
    returns (fault: Option<Error>, next: nat)
    requires offset < output.Length
    requires Rewritten(output[..], d, indexes, done, offset)
    modifies output
    ensures Follows(Chain(Ok(done), ScanMessage(d, indexes, offset)), fault, output[..], d, indexes, next)
    ensures fault == None ==> offset + 4 <= |d| && next == offset + Aligned(U32(d, offset)) && offset < next <= |d|
  {
    assert |d| == output.Length;
    hide Rewritten, U32, MessageFault, ScanAttributes;
    SameHeader(output[..], d, indexes, done, offset);
    next := offset;
    fault := MessageFault(output[..], offset);
    if fault != None {
      return;
    }
    var length := U32(output[..], offset);
    Later(output[..], d, indexes, done, offset, offset + 28);
    fault := RemapAttributes(output, indexes, offset + 28, offset + length, true, d, done);
    if fault != None {
      return;
    }
    next := offset + Aligned(length);
    Later(output[..], d, indexes, Chain(Ok(done), ScanAttributes(d, indexes, offset + 28, offset + length, true)).value,
          offset + length, next);
  }

  lemma FirstMessage(d: seq<byte>, m: map<u32, u32>, offset: nat)
    requires offset <= |d|
    ensures var message, rest := ScanMessage(d, m, offset), ScanMessages(d, m, offset);
            if offset == |d| then rest == Ok([])
            else if message.Err? then rest == message
            else rest == Chain(message, ScanMessages(d, m, offset + Aligned(U32(d, offset))))
  {
  }

  method RemapMessages(output: array<byte>, indexes: map<u32, u32>, ghost d: seq<byte>) returns (fault: Option<Error>)
    requires 4 <= output.Length && output[..] == d
    modifies output
    ensures Follows(ScanMessages(d, indexes, 4), fault, output[..], d, indexes, |d|)
  {
    var offset := 4;
    ghost var all: seq<nat> := [];
    assert Rewritten(output[..], d, indexes, all, offset);
    ChainEmpty(ScanMessages(d, indexes, 4));
    hide Rewritten, U32, ScanMessage, ScanMessages, Aligned, MessageFault;
    while offset < output.Length
      invariant offset <= output.Length == |d|
      invariant Rewritten(output[..], d, indexes, all, offset)
      invariant ScanMessages(d, indexes, 4) == Chain(Ok(all), ScanMessages(d, indexes, offset))
      decreases output.Length - offset
    {
      ghost var message := ScanMessage(d, indexes, offset);
      FirstMessage(d, indexes, offset);
      var next;
      fault, next := RemapMessage(output, indexes, offset, d, all);
      if fault != None {
        return;
      }
      ChainAssociates(Ok(all), message, ScanMessages(d, indexes, next));
      all := Chain(Ok(all), message).value;
      offset := next;
    }
    FirstMessage(d, indexes, offset);
    ChainEmpty(Ok(all));
    return None;
  }

  method RemapRouteDump(data: seq<byte>, indexes: map<u32, u32>) returns (r: Result<seq<byte>, Error>)
    ensures ScanDump(data, indexes).Err? ==> r == Err(ScanDump(data, indexes).error)
    ensures ScanDump(data, indexes).Ok? ==>
              && Translatable(data, indexes, ScanDump(data, indexes).value)
              && r == Ok(Patch(data, indexes, ScanDump(data, indexes).value))
  {
    if |data| < 4 || U32(data, 0) != MAGIC {
      return Err(BadHeader);
    }
    var output := new byte[|data|](i requires 0 <= i < |data| => data[i]);
    assert output[..] == data;
    var fault := RemapMessages(output, indexes, data);
    return if fault == None then Ok(output[..]) else Err(fault.value);
  }

  // ----- where the words lie -----

  /** The words a successful reading of [lo, hi) returns are disjoint, in order, in range and known. */
  ghost predicate Placed(scan: Scan, d: seq<byte>, m: map<u32, u32>, lo: nat, hi: nat) {
    scan.Ok? ==> Spaced(scan.value, lo, hi) && Translatable(d, m, scan.value)
  }

  lemma Widen(scan: Scan, d: seq<byte>, m: map<u32, u32>, lo: nat, lo': nat, hi: nat)
    requires lo <= lo' && Placed(scan, d, m, lo', hi)
    ensures Placed(scan, d, m, lo, hi)
  {
  }

  lemma ChainPlaced(a: Scan, b: Scan, d: seq<byte>, m: map<u32, u32>, lo: nat, mid: nat, mid': nat, hi: nat)
    requires lo <= mid <= mid' <= hi && Placed(a, d, m, lo, mid) && Placed(b, d, m, mid', hi)
    ensures Placed(Chain(a, b), d, m, lo, hi)
  {
  }

  lemma WordPlaced(d: seq<byte>, m: map<u32, u32>, o: nat)
    requires o + 4 <= |d|
    ensures Placed(ScanWord(d, m, o), d, m, o, o + 4)
  {
  }

  lemma NonePlaced(d: seq<byte>, m: map<u32, u32>, lo: nat, hi: nat)
    ensures Placed(Ok([]), d, m, lo, hi)
  {
  }

  lemma {:induction false} AttributesPlaced(d: seq<byte>, m: map<u32, u32>, start: nat, end: nat, multipath: bool)
    requires start <= end <= |d|
    ensures Placed(ScanAttributes(d, m, start, end, multipath), d, m, start, end)
    decreases if multipath then 2 else 0, end - start
  {
    hide Spaced, Translatable, ScanPayload, U16, Chain;
    NonePlaced(d, m, start, end);
    if end - start >= 4 {
      var length, kind := U16(d, start), U16(d, start + 2);
      var next := start + Aligned(length);
      if length >= 4 && next <= end {
        var here, rest := ScanPayload(d, m, start, length, kind, multipath), ScanAttributes(d, m, next, end, multipath);
        PayloadPlaced(d, m, start, length, kind, multipath);
        Widen(here, d, m, start, start + 4, start + length);
        AttributesPlaced(d, m, next, end, multipath);
        ChainPlaced(here, rest, d, m, start, start + length, next, end);
      }
    }
  }

  lemma {:induction false} PayloadPlaced(d: seq<byte>, m: map<u32, u32>, start: nat, length: nat, kind: nat,
                                         multipath: bool)
    requires 4 <= length && start + length <= |d|
    ensures Placed(ScanPayload(d, m, start, length, kind, multipath), d, m, start + 4, start + length)
    decreases if multipath then 2 else 0, 0
  {
    hide Spaced, Translatable, ScanWord;
    NonePlaced(d, m, start + 4, start + length);
    if kind == 3 || kind == 4 {
      if length == 8 {
        WordPlaced(d, m, start + 4);
      }
    } else if kind == 9 && multipath {
      HopsPlaced(d, m, start + 4, start + length);
    }
  }

  lemma {:induction false} HopsPlaced(d: seq<byte>, m: map<u32, u32>, payload: nat, stop: nat)
    requires payload <= stop <= |d|
    ensures Placed(ScanHops(d, m, payload, stop), d, m, payload, stop)
    decreases 1, stop - payload, 1
  {
    hide Spaced, Translatable, ScanHop, U16, Aligned, Chain;
    NonePlaced(d, m, payload, stop);
    if payload < stop {
      var hop := ScanHop(d, m, payload, stop);
      if hop.Ok? {
        var next := payload + Aligned(U16(d, payload));
        HopScanPlaced(d, m, payload, stop);
        HopsPlaced(d, m, next, stop);
        ChainPlaced(hop, ScanHops(d, m, next, stop), d, m, payload, next, next, stop);
      }
    }
  }

  lemma {:induction false} HopScanPlaced(d: seq<byte>, m: map<u32, u32>, payload: nat, stop: nat)
    requires payload < stop <= |d| && ScanHop(d, m, payload, stop).Ok?
    ensures Placed(ScanHop(d, m, payload, stop), d, m, payload, payload + Aligned(U16(d, payload)))
    decreases 1, stop - payload, 0
  {
    hide Spaced, Translatable, ScanWord, ScanAttributes, U16, Chain;
    var length := U16(d, payload);
    var word, nested := ScanWord(d, m, payload + 4), ScanAttributes(d, m, payload + 8, payload + length, false);
    WordPlaced(d, m, payload + 4);
    AttributesPlaced(d, m, payload + 8, payload + length, false);
    Widen(word, d, m, payload, payload + 4, payload + 8);
    ChainPlaced(word, nested, d, m, payload, payload + 8, payload + 8, payload + length);
    Lengthen(Chain(word, nested), d, m, payload, payload + length, payload + Aligned(length));
  }

  lemma Lengthen(scan: Scan, d: seq<byte>, m: map<u32, u32>, lo: nat, hi: nat, hi': nat)
    requires hi <= hi' && Placed(scan, d, m, lo, hi)
    ensures Placed(scan, d, m, lo, hi')
  {
  }

  lemma {:induction false} MessagesPlaced(d: seq<byte>, m: map<u32, u32>, offset: nat)
    requires offset <= |d|
    ensures Placed(ScanMessages(d, m, offset), d, m, offset, |d|)
    decreases |d| - offset
  {
    hide Spaced, Translatable, ScanMessage, U32, Aligned, Chain;
    NonePlaced(d, m, offset, |d|);
    if offset < |d| {
      var message := ScanMessage(d, m, offset);
      if message.Ok? {
        var next := offset + Aligned(U32(d, offset));
        MessagePlaced(d, m, offset);
        MessagesPlaced(d, m, next);
        ChainPlaced(message, ScanMessages(d, m, next), d, m, offset, next, next, |d|);
      }
    }
  }

  lemma MessagePlaced(d: seq<byte>, m: map<u32, u32>, offset: nat)
    requires offset < |d| && ScanMessage(d, m, offset).Ok?
    ensures Placed(ScanMessage(d, m, offset), d, m, offset, offset + Aligned(U32(d, offset)))
  {
    hide Spaced, Translatable, U32, ScanAttributes;
    var length := U32(d, offset);
    AttributesPlaced(d, m, offset + 28, offset + length, true);
    Widen(ScanMessage(d, m, offset), d, m, offset, offset + 28, offset + length);
    Lengthen(ScanMessage(d, m, offset), d, m, offset, offset + length, offset + Aligned(length));
  }

  // ----- remapping there and back -----

  /** `back` undoes `m`, and `m` never produces the "no interface" index. */
  ghost predicate Undoes(back: map<u32, u32>, m: map<u32, u32>) {
    forall x | x in m && x != 0 :: m[x] != 0 && m[x] in back && back[m[x]] == x
  }

  /** A change confined to index words, read on a stretch whose words are those of `scan`. */
  ghost predicate Stretch(scan: Scan, d: seq<byte>, r: seq<byte>, m: map<u32, u32>, lo: nat, hi: nat) {
    scan.Ok? && |r| == |d| && hi <= |d| && Remapped(d, r, m, scan.value, lo, hi)
  }

  lemma Narrow(scan: Scan, d: seq<byte>, r: seq<byte>, m: map<u32, u32>, lo: nat, lo': nat, hi: nat)
    requires lo <= lo' <= hi && Stretch(scan, d, r, m, lo, hi)
    ensures Stretch(scan, d, r, m, lo', hi)
  {
  }

  lemma CoveredSplit(a: seq<nat>, b: seq<nat>, k: nat)
    ensures Covered(a + b, k) <==> Covered(a, k) || Covered(b, k)
  {
    if Covered(a + b, k) {
      var i :| 0 <= i < |a + b| && (a + b)[i] <= k < (a + b)[i] + 4;
      assert if i < |a| then a[i] <= k < a[i] + 4 else b[i - |a|] <= k < b[i - |a|] + 4;
    }
    if Covered(a, k) {
      var i :| 0 <= i < |a| && a[i] <= k < a[i] + 4;
      assert (a + b)[i] == a[i];
    }
    if Covered(b, k) {
      var i :| 0 <= i < |b| && b[i] <= k < b[i] + 4;
      assert (a + b)[|a| + i] == b[i];
    }
  }

  lemma Split(a: Scan, b: Scan, d: seq<byte>, r: seq<byte>, m: map<u32, u32>, lo: nat, mid: nat, mid': nat, hi: nat)
    requires lo <= mid <= mid' <= hi && Placed(a, d, m, lo, mid) && Placed(b, d, m, mid', hi)
    requires Stretch(Chain(a, b), d, r, m, lo, hi)
    ensures Stretch(a, d, r, m, lo, mid) && Stretch(b, d, r, m, mid', hi)
  {
    hide U32;
    var x, y := a.value, b.value;
    assert forall i | 0 <= i < |x| :: (x + y)[i] == x[i];
    assert forall i | 0 <= i < |y| :: (x + y)[|x| + i] == y[i];
    forall k | lo <= k < hi && !Covered(x, k) && !Covered(y, k)
      ensures r[k] == d[k]
    {
      CoveredSplit(x, y, k);
    }
  }

  /** Header bytes before the first word read the same before and after. */
  lemma Kept(scan: Scan, d: seq<byte>, r: seq<byte>, m: map<u32, u32>, lo: nat, hi: nat, first: nat)
    requires Stretch(scan, d, r, m, lo, hi) && lo <= first <= hi && Placed(scan, d, m, first, hi)
    ensures forall k | lo <= k < first :: r[k] == d[k]
  {
  }

  lemma StableWord(d: seq<byte>, r: seq<byte>, m: map<u32, u32>, back: map<u32, u32>, o: nat)
    requires o + 4 <= |d| && Stretch(ScanWord(d, m, o), d, r, m, o, o + 4) && Undoes(back, m)
    ensures ScanWord(r, back, o) == ScanWord(d, m, o)
  {
    var offs := ScanWord(d, m, o).value;
    if offs == [] {
      assert !Covered(offs, o) && !Covered(offs, o + 1) && !Covered(offs, o + 2) && !Covered(offs, o + 3);
    } else {
      assert U32(r, offs[0]) == m[U32(d, offs[0])];
    }
  }

  lemma {:induction false} StableAttributes(d: seq<byte>, r: seq<byte>, m: map<u32, u32>, back: map<u32, u32>,
                                            start: nat, end: nat, multipath: bool)
    requires start <= end <= |d| && Undoes(back, m)
    requires Stretch(ScanAttributes(d, m, start, end, multipath), d, r, m, start, end)
    ensures ScanAttributes(r, back, start, end, multipath) == ScanAttributes(d, m, start, end, multipath)
    decreases if multipath then 2 else 0, end - start
  {
    hide Remapped, Spaced, Translatable, Placed;
    if start < end {
      var length, kind := U16(d, start), U16(d, start + 2);
      var next := start + Aligned(length);
      var here, rest := ScanPayload(d, m, start, length, kind, multipath), ScanAttributes(d, m, next, end, multipath);
      assert Stretch(here, d, r, m, start, start + length) && Stretch(rest, d, r, m, next, end) by {
        PayloadPlaced(d, m, start, length, kind, multipath);
        Widen(here, d, m, start, start + 4, start + length);
        AttributesPlaced(d, m, next, end, multipath);
        Split(here, rest, d, r, m, start, start + length, next, end);
      }
      assert U16(r, start) == length && U16(r, start + 2) == kind by {
        PayloadPlaced(d, m, start, length, kind, multipath);
        Kept(here, d, r, m, start, start + length, start + 4);
      }
      StablePayload(d, r, m, back, start, length, kind, multipath);
      StableAttributes(d, r, m, back, next, end, multipath);
    }
  }

  lemma {:induction false} StablePayload(d: seq<byte>, r: seq<byte>, m: map<u32, u32>, back: map<u32, u32>,
                                         start: nat, length: nat, kind: nat, multipath: bool)
    requires 4 <= length && start + length <= |d| && Undoes(back, m)
    requires Stretch(ScanPayload(d, m, start, length, kind, multipath), d, r, m, start, start + length)
    ensures ScanPayload(r, back, start, length, kind, multipath) == ScanPayload(d, m, start, length, kind, multipath)
    decreases if multipath then 2 else 0, 0
  {
    if kind == 3 || kind == 4 {
      Narrow(ScanWord(d, m, start + 4), d, r, m, start, start + 4, start + 8);
      StableWord(d, r, m, back, start + 4);
    } else if kind == 9 && multipath {
      StableHops(d, r, m, back, start + 4, start + length);
    }
  }

  lemma {:induction false} StableHops(d: seq<byte>, r: seq<byte>, m: map<u32, u32>, back: map<u32, u32>,
                                      payload: nat, stop: nat)
    requires payload <= stop <= |d| && Undoes(back, m)
    requires Stretch(ScanHops(d, m, payload, stop), d, r, m, payload, stop)
    ensures ScanHops(r, back, payload, stop) == ScanHops(d, m, payload, stop)
    decreases 1, stop - payload + 1
  {
    hide Remapped, ScanHop, U16, Aligned;
    if payload < stop {
      SplitHops(d, r, m, payload, stop);
      StableHop(d, r, m, back, payload, stop);
      StableHops(d, r, m, back, payload + Aligned(U16(d, payload)), stop);
    }
  }

  lemma SplitHops(d: seq<byte>, r: seq<byte>, m: map<u32, u32>, payload: nat, stop: nat)
    requires payload < stop <= |d| && Stretch(ScanHops(d, m, payload, stop), d, r, m, payload, stop)
    ensures ScanHop(d, m, payload, stop).Ok?
    ensures var length := U16(d, payload);
            && Stretch(ScanHop(d, m, payload, stop), d, r, m, payload, payload + length)
            && Stretch(ScanHops(d, m, payload + Aligned(length), stop), d, r, m, payload + Aligned(length), stop)
  {
    hide Remapped, Spaced, Translatable;
    var length := U16(d, payload);
    var next := payload + Aligned(length);
    var hop, rest := ScanHop(d, m, payload, stop), ScanHops(d, m, next, stop);
    HopPlaced(d, m, payload, length);
    HopsPlaced(d, m, next, stop);
    Widen(hop, d, m, payload, payload + 4, payload + length);
    Split(hop, rest, d, r, m, payload, payload + length, next, stop);
  }

  lemma {:induction false} StableHop(d: seq<byte>, r: seq<byte>, m: map<u32, u32>, back: map<u32, u32>,
                                     payload: nat, stop: nat)
    requires payload < stop <= |d| && Undoes(back, m) && ScanHop(d, m, payload, stop).Ok?
    requires Stretch(ScanHop(d, m, payload, stop), d, r, m, payload, payload + U16(d, payload))
    ensures U16(r, payload) == U16(d, payload)
    ensures ScanHop(r, back, payload, stop) == ScanHop(d, m, payload, stop)
    decreases 1, 0
  {
    hide Remapped, Spaced, Translatable;
    var length := U16(d, payload);
    var word, nested := ScanWord(d, m, payload + 4), ScanAttributes(d, m, payload + 8, payload + length, false);
    var hop := Chain(word, nested);
    HopPlaced(d, m, payload, length);
    Kept(hop, d, r, m, payload, payload + length, payload + 4);
    Narrow(hop, d, r, m, payload, payload + 4, payload + length);
    AttributesPlaced(d, m, payload + 8, payload + length, false);
    WordPlaced(d, m, payload + 4);
    Split(word, nested, d, r, m, payload + 4, payload + 8, payload + 8, payload + length);
    StableWord(d, r, m, back, payload + 4);
    StableAttributes(d, r, m, back, payload + 8, payload + length, false);
  }

  lemma HopPlaced(d: seq<byte>, m: map<u32, u32>, payload: nat, length: nat)
    requires 8 <= length && payload + length <= |d|
    ensures Placed(Chain(ScanWord(d, m, payload + 4), ScanAttributes(d, m, payload + 8, payload + length, false)),
                   d, m, payload + 4, payload + length)
  {
    WordPlaced(d, m, payload + 4);
    AttributesPlaced(d, m, payload + 8, payload + length, false);
    ChainPlaced(ScanWord(d, m, payload + 4), ScanAttributes(d, m, payload + 8, payload + length, false),
                d, m, payload + 4, payload + 8, payload + 8, payload + length);
  }

  lemma {:induction false} StableMessages(d: seq<byte>, r: seq<byte>, m: map<u32, u32>, back: map<u32, u32>,
                                          offset: nat)
    requires offset <= |d| && Undoes(back, m)
    requires Stretch(ScanMessages(d, m, offset), d, r, m, offset, |d|)
    ensures ScanMessages(r, back, offset) == ScanMessages(d, m, offset)
    decreases |d| - offset
  {
    hide *;
    SameLength(ScanMessages(d, m, offset), d, r, m, offset, |d|);
    if offset < |d| {
      SplitMessages(d, r, m, offset);
      StableMessage(d, r, m, back, offset);
      StableMessages(d, r, m, back, offset + Aligned(U32(d, offset)));
      MessageStep(d, r, m, back, offset);
    } else {
      NoMessages(d, r, m, back, offset);
    }
  }

  lemma SameLength(scan: Scan, d: seq<byte>, r: seq<byte>, m: map<u32, u32>, lo: nat, hi: nat)
    requires Stretch(scan, d, r, m, lo, hi)
    ensures |r| == |d|
  {
  }

  lemma NoMessages(d: seq<byte>, r: seq<byte>, m: map<u32, u32>, back: map<u32, u32>, offset: nat)
    requires offset == |d| == |r|
    ensures ScanMessages(r, back, offset) == ScanMessages(d, m, offset)
  {
  }

  lemma MessageStep(d: seq<byte>, r: seq<byte>, m: map<u32, u32>, back: map<u32, u32>, offset: nat)
    requires offset < |d| == |r| && ScanMessage(d, m, offset).Ok? && U32(r, offset) == U32(d, offset)
    requires ScanMessage(r, back, offset) == ScanMessage(d, m, offset)
    requires var next := offset + Aligned(U32(d, offset)); ScanMessages(r, back, next) == ScanMessages(d, m, next)
    ensures ScanMessages(r, back, offset) == ScanMessages(d, m, offset)
  {
    hide ScanMessage, U32, Aligned, Chain;
  }

  lemma SplitMessages(d: seq<byte>, r: seq<byte>, m: map<u32, u32>, offset: nat)
    requires offset < |d| && Stretch(ScanMessages(d, m, offset), d, r, m, offset, |d|)
    ensures ScanMessage(d, m, offset).Ok? && offset + Aligned(U32(d, offset)) <= |d|
    ensures var length := U32(d, offset);
            && Stretch(ScanMessage(d, m, offset), d, r, m, offset, offset + length)
            && Stretch(ScanMessages(d, m, offset + Aligned(length)), d, r, m, offset + Aligned(length), |d|)
  {
    hide Remapped, Spaced, Translatable;
    var length := U32(d, offset);
    var next := offset + Aligned(length);
    var here, rest := ScanMessage(d, m, offset), ScanMessages(d, m, next);
    AttributesPlaced(d, m, offset + 28, offset + length, true);
    MessagesPlaced(d, m, next);
    Widen(here, d, m, offset, offset + 28, offset + length);
    Split(here, rest, d, r, m, offset, offset + length, next, |d|);
  }

  lemma StableMessage(d: seq<byte>, r: seq<byte>, m: map<u32, u32>, back: map<u32, u32>, offset: nat)
    requires offset < |d| && Undoes(back, m) && ScanMessage(d, m, offset).Ok?
    requires Stretch(ScanMessage(d, m, offset), d, r, m, offset, offset + U32(d, offset))
    ensures U32(r, offset) == U32(d, offset)
    ensures ScanMessage(r, back, offset) == ScanMessage(d, m, offset)
  {
    hide Remapped, Spaced, Translatable;
    var length := U32(d, offset);
    var here := ScanAttributes(d, m, offset + 28, offset + length, true);
    AttributesPlaced(d, m, offset + 28, offset + length, true);
    Kept(here, d, r, m, offset, offset + length, offset + 28);
    Narrow(here, d, r, m, offset, offset + 28, offset + length);
    StableAttributes(d, r, m, back, offset + 28, offset + length, true);
  }

  lemma DumpPlaced(d: seq<byte>, m: map<u32, u32>)
    ensures Placed(ScanDump(d, m), d, m, 4, |d|)
  {
    if |d| >= 4 {
      MessagesPlaced(d, m, 4);
    }
  }

  /**
   * An accepted stream keeps its length and every byte outside the nonzero
   * interface words; each of those words holds its image afterwards.
   */
  lemma OnlyIndexesChange(d: seq<byte>, m: map<u32, u32>)
    requires ScanDump(d, m).Ok?
    ensures Translatable(d, m, ScanDump(d, m).value) && Spaced(ScanDump(d, m).value, 4, |d|)
    ensures Remapped(d, Patch(d, m, ScanDump(d, m).value), m, ScanDump(d, m).value, 0, |d|)
  {
    DumpPlaced(d, m);
    PatchRemaps(d, m, ScanDump(d, m).value, 4);
  }

  lemma WordBack(d: seq<byte>, r: seq<byte>, s: seq<byte>, m: map<u32, u32>, back: map<u32, u32>, offs: seq<nat>,
                 i: nat)
    requires Remapped(d, r, m, offs, 0, |d|) && Remapped(r, s, back, offs, 0, |r|) && Undoes(back, m)
    requires i < |offs|
    ensures offs[i] + 4 <= |d| && U32(s, offs[i]) == U32(d, offs[i])
  {
    hide U32;
  }

  lemma PatchedBack(d: seq<byte>, r: seq<byte>, s: seq<byte>, m: map<u32, u32>, back: map<u32, u32>, offs: seq<nat>)
    requires Remapped(d, r, m, offs, 0, |d|) && Remapped(r, s, back, offs, 0, |r|) && Undoes(back, m)
    ensures s == d
  {
    hide Undoes, U32, Translatable;
    forall k | 0 <= k < |d|
      ensures s[k] == d[k]
    {
      if Covered(offs, k) {
        var i :| 0 <= i < |offs| && offs[i] <= k < offs[i] + 4;
        WordBack(d, r, s, m, back, offs, i);
        WordsDetermineBytes(s, d, offs[i]);
        assert s[k] == s[offs[i]..offs[i] + 4][k - offs[i]];
      }
    }
  }

  /** Translating with `m` and then with a map that undoes it gives the stream back, byte for byte. */
  lemma RoundTrip(d: seq<byte>, m: map<u32, u32>, back: map<u32, u32>)
    requires ScanDump(d, m).Ok? && Undoes(back, m)
    ensures var offs := ScanDump(d, m).value;
            && Translatable(d, m, offs)
            && var r := Patch(d, m, offs);
            && ScanDump(r, back) == Ok(offs)
            && Translatable(r, back, offs) && Patch(r, back, offs) == d
  {
    var offs := ScanDump(d, m).value;
    OnlyIndexesChange(d, m);
    var r := Patch(d, m, offs);
    Kept(Ok(offs), d, r, m, 0, |d|, 4);
    StableMessages(d, r, m, back, 4);
    OnlyIndexesChange(r, back);
    PatchedBack(d, r, Patch(r, back, offs), m, back, offs);
  }
}
