/** Hashed n-gram ids of packed batches, and what they are for each request by itself. */
module NGrams {
  import opened Results
  import opened Congruences
  import opened HashTables
  import opened Sequences

  // ----- shifting within a segment -----

  /** Position of each end-of-sequence token, -1 elsewhere. */
  function EosPositions(tokens: seq<int>, eos: int): seq<int> {
    seq(|tokens|, i requires 0 <= i < |tokens| => if tokens[i] == eos then i else -1)
  }

  /** Running maximum. */
  function CumMax(s: seq<int>): (r: seq<int>)
    ensures |r| == |s|
  {
    if |s| <= 1 then s
    else
      var before := CumMax(s[..|s| - 1]);
      before + [if before[|s| - 2] > s[|s| - 1] then before[|s| - 2] else s[|s| - 1]]
  }

  /** For each position, the last end-of-sequence position strictly before it, or -1. */
  function PreviousEos(tokens: seq<int>, eos: int): (r: seq<int>)
    ensures |r| == |tokens|
  {
    if tokens == [] then []
    else [-1] + CumMax(EosPositions(tokens, eos))[..|tokens| - 1]
  }

  function PositionInSegment(tokens: seq<int>, eos: int, p: nat): int
    requires p < |tokens|
  {
    p - PreviousEos(tokens, eos)[p] - 1
  }

  function ShiftApply(tokens: seq<int>, eos: int, shift: nat, p: nat): int
    requires p < |tokens|
  {
    if shift == 0 then tokens[p]
    else if p - shift >= 0 && PositionInSegment(tokens, eos, p) >= shift then tokens[p - shift]
    else eos
  }

  /** The token `shift` places back, or end-of-sequence when the sequence started or ended in between. */
  ghost function Direct(tokens: seq<int>, eos: int, shift: nat, p: nat): int
    requires p < |tokens|
  {
    if p < shift || exists i | p - shift <= i < p :: tokens[i] == eos then eos else tokens[p - shift]
  }

  lemma {:induction false} CumMaxOfEos(tokens: seq<int>, eos: int, s: seq<int>, p: nat)
    requires p < |s| && s <= EosPositions(tokens, eos)
    ensures var m := CumMax(s)[p];
            && -1 <= m <= p && (m >= 0 ==> tokens[m] == eos)
            && forall i | m < i <= p :: tokens[i] != eos
  {
    if |s| > 1 {
      var front := s[..|s| - 1];
      assert s[|s| - 1] == EosPositions(tokens, eos)[|s| - 1];
      CumMaxOfEos(tokens, eos, front, if p < |front| then p else |front| - 1);
    } else {
      assert s[0] == EosPositions(tokens, eos)[0];
    }
  }

  /** The last end-of-sequence before `p` is where it should be. */
  lemma PreviousEosIs(tokens: seq<int>, eos: int, p: nat)
    requires p < |tokens|
    ensures var e := PreviousEos(tokens, eos)[p];
            && -1 <= e < p && (e >= 0 ==> tokens[e] == eos)
            && forall i | e < i < p :: tokens[i] != eos
  {
    if p > 0 {
      CumMaxOfEos(tokens, eos, EosPositions(tokens, eos), p - 1);
    }
  }

  /** The running-maximum form of the shift is the direct one. */
  lemma ShiftIsDirect(tokens: seq<int>, eos: int, shift: nat, p: nat)
    requires p < |tokens|
    ensures ShiftApply(tokens, eos, shift, p) == Direct(tokens, eos, shift, p)
  {
    PreviousEosIs(tokens, eos, p);
    hide PreviousEos;
    var e := PreviousEos(tokens, eos)[p];
    if shift > 0 && p - shift >= 0 && e >= p - shift {
      assert tokens[e] == eos;
    }
  }

  /** A shift looks at no more than the last `shift` tokens: equal windows shift equally. */
  lemma DirectOfWindow(a: seq<int>, p: nat, b: seq<int>, q: nat, eos: int, shift: nat)
    requires p < |a| && q < |b| && shift <= p && shift <= q
    requires a[p - shift..p + 1] == b[q - shift..q + 1]
    ensures Direct(a, eos, shift, p) == Direct(b, eos, shift, q)
  {
    var w := a[p - shift..p + 1];
    assert forall k | 0 <= k <= shift :: w[k] == a[p - shift + k];
    assert forall k | 0 <= k <= shift :: w[k] == b[q - shift + k];
    EosInWindow(a, p, eos, shift, w);
    EosInWindow(b, q, eos, shift, w);
  }

  lemma EosInWindow(a: seq<int>, p: nat, eos: int, shift: nat, w: seq<int>)
    requires p < |a| && shift <= p && w == a[p - shift..p + 1]
    ensures (exists i | p - shift <= i < p :: a[i] == eos) <==> exists k | 0 <= k < shift :: w[k] == eos
  {
    assert forall k | 0 <= k <= shift :: w[k] == a[p - shift + k];
    if i :| p - shift <= i < p && a[i] == eos {
      assert w[i - (p - shift)] == eos;
    }
  }

  // ----- the ids of one position -----

  /** Hash settings: multipliers by shift, table sizes and offsets by head. */
  datatype Hashing = Hashing(vocabulary: int, eos: int, multipliers: seq<int>, headsPerNgram: nat, sizes: seq<int>,
                             offsets: seq<int>) {
    /** One more multiplier than the context is long, heads for every n-gram length from 2, and no product too large. */
    ghost predicate Valid() {
      && |multipliers| >= 2 && headsPerNgram > 0 && LaidOut(sizes, offsets)
      && |sizes| == (|multipliers| - 1) * headsPerNgram
      && IsToken(eos)
      && forall i, t | 0 <= i < |multipliers| && IsToken(t) :: 0 <= t * multipliers[i] < TWO63
    }

    predicate IsToken(t: int) {
      0 <= t < vocabulary
    }

    predicate AreTokens(tokens: seq<int>) {
      forall i | 0 <= i < |tokens| :: IsToken(tokens[i])
    }

    function Context(): int {
      |multipliers| - 1
    }
  }

  lemma ProductFits(h: Hashing, shifted: seq<int>, i: nat)
    requires h.Valid() && h.AreTokens(shifted) && i < |shifted| && i < |h.multipliers|
    ensures 0 <= shifted[i] * h.multipliers[i] < TWO63
  {
    var t := shifted[i];
    assert h.IsToken(t);
  }

  /** Products of shifted tokens and multipliers, mixed by exclusive or: never negative, never beyond 63 bits. */
  function Mixed(h: Hashing, shifted: seq<int>, ngram: nat): (m: nat)
    requires h.Valid() && h.AreTokens(shifted) && 0 < ngram <= |shifted| && ngram <= |h.multipliers|
    ensures m < TWO63
  {
    ProductFits(h, shifted, ngram - 1);
    var last := shifted[ngram - 1] * h.multipliers[ngram - 1];
    if ngram == 1 then last
    else
      XorFits63(Mixed(h, shifted, ngram - 1), last);
      Xor(Mixed(h, shifted, ngram - 1), last)
  }

  lemma XorFits63(a: nat, b: nat)
    requires a < TWO63 && b < TWO63
    ensures Xor(a, b) < TWO63
  {
    hide *;
    PowerOfTwo63();
    XorFits(a, b, 63);
  }

  lemma PowerOfTwo63()
    ensures Pow(2, 63) == TWO63
  {
    hide Pow;
    Eight();
    PowAdd(2, 3, 3);
    PowAdd(2, 6, 6);
    PowAdd(2, 12, 12);
    PowAdd(2, 24, 24);
    PowAdd(2, 48, 12);
    PowAdd(2, 60, 3);
  }

  lemma Eight()
    ensures Pow(2, 3) == 8
  {
  }

  /** The id of each head: heads come in blocks, one block for each n-gram length from 2. */
  function Ids(h: Hashing, shifted: seq<int>): (ids: seq<int>)
    requires h.Valid() && h.AreTokens(shifted) && |shifted| == |h.multipliers|
    ensures |ids| == |h.sizes|
  {
    seq(|h.sizes|, g requires 0 <= g < |h.sizes| =>
      BlockExists(h, g); HeadId(Mixed(h, shifted, 2 + g / h.headsPerNgram), h.sizes[g], h.offsets[g]))
  }

  lemma BlockExists(h: Hashing, g: nat)
    requires h.Valid() && g < |h.sizes|
    ensures 2 + g / h.headsPerNgram <= |h.multipliers|
  {
    hide LaidOut;
    QuotientBelow(g, |h.multipliers| - 1, h.headsPerNgram);
  }

  lemma QuotientBelow(g: nat, n: int, k: nat)
    requires k > 0 && g < n * k
    ensures g / k < n
  {
    assert k * (g / k) <= g;
    TimesAtLeast(k, n - g / k);
    assert k * (n - g / k) == n * k - k * (g / k);
  }

  // ----- packing a batch -----

  /** Flat tokens of several requests: where each starts, and where the last ends. */
  ghost predicate Starts(starts: seq<nat>) {
    |starts| >= 2 && starts[0] == 0 && forall i, j | 0 <= i < j < |starts| :: starts[i] <= starts[j]
  }

  /** The request a flat position belongs to; positions past the end fall to the last request. */
  function RequestOf(starts: seq<nat>, p: nat): (r: int)
    requires |starts| >= 2
    ensures r < |starts| - 1
  {
    var r := SearchRight(starts, p) - 1;
    if r > |starts| - 2 then |starts| - 2 else r
  }

  lemma RequestFound(starts: seq<nat>, p: nat)
    requires Starts(starts)
    ensures var r := RequestOf(starts, p);
            0 <= r && starts[r] <= p && (p < starts[|starts| - 1] ==> p < starts[r + 1])
  {
    SearchRightIs(starts, p);
  }

  /** A request's own position comes back to it. */
  lemma OwnRequest(starts: seq<nat>, p: nat, r: nat)
    requires Starts(starts) && r < |starts| - 1 && starts[r] <= p < starts[r + 1]
    ensures RequestOf(starts, p) == r
  {
    SearchRightIs(starts, p);
    RequestFound(starts, p);
    var from, to := starts[r], starts[r + 1];
  }

  function ColumnOf(starts: seq<nat>, p: nat, width: nat): int
    requires Starts(starts) && width > 0
  {
    RequestFound(starts, p);
    Clamp(p - starts[RequestOf(starts, p)], 0, width - 1)
  }

  /** Where a flat position is packed. */
  function SlotOf(starts: seq<nat>, p: nat, width: nat): (int, int)
    requires Starts(starts) && width > 0
  {
    (RequestOf(starts, p), ColumnOf(starts, p, width))
  }

  /** The first `valid` positions all fit in rows of this width without clamping. */
  ghost predicate Fits(starts: seq<nat>, valid: nat, width: nat)
    requires Starts(starts)
  {
    width > 0 && forall p: nat | p < valid :: Offset(starts, p) < width
  }

  ghost function Offset(starts: seq<nat>, p: nat): nat
    requires Starts(starts)
  {
    RequestFound(starts, p);
    p - starts[RequestOf(starts, p)]
  }

  lemma SlotsDiffer(starts: seq<nat>, p: nat, q: nat, valid: nat, width: nat)
    requires Starts(starts) && Fits(starts, valid, width) && p < valid && q < valid && p != q
    ensures SlotOf(starts, p, width) != SlotOf(starts, q, width)
  {
    RequestFound(starts, p);
    RequestFound(starts, q);
    assert Offset(starts, p) < width && Offset(starts, q) < width;
    hide RequestOf;
  }

  /** The flat tokens before `valid` are in their slots and every other slot of the used rows is end-of-sequence. */
  ghost predicate Packed(buffer: array2<int>, input: seq<int>, starts: seq<nat>, valid: nat, width: nat, eos: int)
    requires Starts(starts) && 0 < width <= buffer.Length1 && |starts| - 1 <= buffer.Length0 && valid <= |input|
    reads buffer
  {
    && (forall p: nat | p < valid :: At(buffer, SlotOf(starts, p, width)) == input[p])
    && forall r, c | 0 <= r < |starts| - 1 && 0 <= c < width ::
         buffer[r, c] == eos || exists p: nat :: p < valid && SlotOf(starts, p, width) == (r, c)
  }

  ghost function At(buffer: array2<int>, slot: (int, int)): int
    reads buffer
  {
    if 0 <= slot.0 < buffer.Length0 && 0 <= slot.1 < buffer.Length1 then buffer[slot.0, slot.1] else 0
  }

  lemma SlotInside(starts: seq<nat>, p: nat, width: nat)
    requires Starts(starts) && width > 0
    ensures 0 <= SlotOf(starts, p, width).0 < |starts| - 1 && 0 <= SlotOf(starts, p, width).1 < width
  {
    RequestFound(starts, p);
  }

  method Pack(buffer: array2<int>, input: seq<int>, starts: seq<nat>, valid: nat, width: nat, eos: int)
    requires Starts(starts) && 0 < width <= buffer.Length1 && |starts| - 1 <= buffer.Length0 && valid <= |input|
    requires Fits(starts, valid, width)
    modifies buffer
    ensures Packed(buffer, input, starts, valid, width, eos)
    ensures forall r, c | 0 <= r < buffer.Length0 && 0 <= c < buffer.Length1 && (r >= |starts| - 1 || c >= width) ::
              buffer[r, c] == old(buffer[r, c])
  {
    hide SlotOf, Starts, Fits;
    forall r, c | 0 <= r < |starts| - 1 && 0 <= c < width {
      buffer[r, c] := eos;
    }
    for p := 0 to valid
      invariant Packed(buffer, input, starts, p, width, eos)
      invariant forall r, c | 0 <= r < buffer.Length0 && 0 <= c < buffer.Length1 && (r >= |starts| - 1 || c >= width) ::
                  buffer[r, c] == old(buffer[r, c])
    {
      SlotInside(starts, p, width);
      forall q: nat | q < p
        ensures SlotOf(starts, q, width) != SlotOf(starts, p, width)
      {
        SlotsDiffer(starts, q, p, valid, width);
      }
      var slot := SlotOf(starts, p, width);
      buffer[slot.0, slot.1] := input[p];
    }
  }
}
