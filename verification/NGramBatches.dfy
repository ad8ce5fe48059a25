/** The ids of a packed batch are those each request would get by itself, in one pass or in chunks. */
module NGramBatches {
  import opened Results
  import opened Congruences
  import opened HashTables
  import opened NGrams

  datatype BatchFault = TooManyTokens | TooManyRequests | NoRequests

  // ----- the direct definition -----

  ghost function DirectShifts(h: Hashing, tokens: seq<int>): (shifted: seq<int>)
    requires tokens != []
    ensures |shifted| == |h.multipliers|
    ensures h.IsToken(h.eos) && h.AreTokens(tokens) ==> h.AreTokens(shifted)
  {
    seq(|h.multipliers|, j requires 0 <= j < |h.multipliers| => Direct(tokens, h.eos, j, |tokens| - 1))
  }

  /** The ids of the last token: a function of the tokens its own request has had so far. */
  ghost function DirectIds(h: Hashing, tokens: seq<int>): seq<int>
    requires h.Valid() && h.AreTokens(tokens) && tokens != []
  {
    Ids(h, DirectShifts(h, tokens))
  }

  /** A request's tokens up to a flat position, after its context. */
  function OwnTokens(input: seq<int>, starts: seq<nat>, contexts: seq<seq<int>>, p: nat): (tokens: seq<int>)
    requires Starts(starts) && |contexts| >= |starts| - 1 && p < |input|
    ensures tokens != []
  {
    RequestFound(starts, p);
    var r := RequestOf(starts, p);
    contexts[r] + input[starts[r]..p + 1]
  }

  // ----- the ids of a batch -----

  function Row(buffer: array2<int>, r: nat, width: nat): (row: seq<int>)
    requires r < buffer.Length0 && width <= buffer.Length1
    reads buffer
    ensures |row| == width
  {
    seq(width, c requires 0 <= c < width reads buffer => buffer[r, c])
  }

  ghost predicate Contexts(h: Hashing, contexts: seq<seq<int>>, requests: nat) {
    |contexts| >= requests && forall r | 0 <= r < |contexts| :: |contexts[r]| == h.Context() && h.AreTokens(contexts[r])
  }

  /** The tokens a request has had so far stand, after its context, at the beginning of its packed row. */
  lemma RowBegins(buffer: array2<int>, input: seq<int>, starts: seq<nat>, contexts: seq<seq<int>>, valid: nat,
                  width: nat, eos: int, p: nat)
    requires Starts(starts) && 0 < width <= buffer.Length1 && |starts| - 1 <= buffer.Length0 && valid <= |input|
    requires Packed(buffer, input, starts, valid, width, eos) && Fits(starts, valid, width)
    requires |contexts| >= |starts| - 1 && p < valid && p < starts[|starts| - 1]
    ensures 0 <= RequestOf(starts, p)
    ensures OwnTokens(input, starts, contexts, p)
         <= contexts[RequestOf(starts, p)] + Row(buffer, RequestOf(starts, p), width)
  {
    hide *;
    OffsetInside(starts, valid, width, p);
    var r := RequestOf(starts, p);
    var own, row := input[starts[r]..p + 1], Row(buffer, r, width);
    forall k | 0 <= k < |own|
      ensures row[k] == own[k]
    {
      PackedAt(buffer, input, starts, valid, width, eos, starts[r] + k, r);
    }
    PrefixJoins(contexts[r], own, row);
    OwnTokensAre(input, starts, contexts, p);
  }

  lemma OffsetInside(starts: seq<nat>, valid: nat, width: nat, p: nat)
    requires Starts(starts) && Fits(starts, valid, width) && p < valid && p < starts[|starts| - 1]
    ensures var r := RequestOf(starts, p);
            0 <= r && starts[r] <= p < starts[r + 1] && p - starts[r] < width
  {
    RequestFound(starts, p);
    assert Offset(starts, p) < width;
  }

  lemma OwnTokensAre(input: seq<int>, starts: seq<nat>, contexts: seq<seq<int>>, p: nat)
    requires Starts(starts) && |contexts| >= |starts| - 1 && p < |input|
    ensures var r := RequestOf(starts, p);
            0 <= r && starts[r] <= p && OwnTokens(input, starts, contexts, p) == contexts[r] + input[starts[r]..p + 1]
  {
    RequestFound(starts, p);
  }

  lemma PrefixJoins(context: seq<int>, own: seq<int>, row: seq<int>)
    requires |own| <= |row| && forall k | 0 <= k < |own| :: row[k] == own[k]
    ensures context + own <= context + row
  {
    assert (context + row)[..|context + own|] == context + own;
  }

  /** A valid position of a request is packed at its place in the request's row. */
  lemma PackedAt(buffer: array2<int>, input: seq<int>, starts: seq<nat>, valid: nat, width: nat, eos: int, q: nat,
                 r: nat)
    requires Starts(starts) && 0 < width <= buffer.Length1 && |starts| - 1 <= buffer.Length0 && valid <= |input|
    requires Packed(buffer, input, starts, valid, width, eos) && Fits(starts, valid, width)
    requires q < valid && r < |starts| - 1 && starts[r] <= q < starts[r + 1]
    ensures 0 <= q - starts[r] < width && Row(buffer, r, width)[q - starts[r]] == input[q]
  {
    OwnRequest(starts, q, r);
    hide RequestOf;
    assert Offset(starts, q) < width && SlotOf(starts, q, width) == (r, q - starts[r]);
    assert At(buffer, SlotOf(starts, q, width)) == input[q];
  }

  function ShiftedAt(h: Hashing, line: seq<int>, p: nat): (shifted: seq<int>)
    requires p < |line|
    ensures |shifted| == |h.multipliers|
    ensures h.IsToken(h.eos) && h.AreTokens(line) ==> h.AreTokens(shifted)
  {
    var shifted := seq(|h.multipliers|, j requires 0 <= j < |h.multipliers| => ShiftApply(line, h.eos, j, p));
    shifted
  }

  /** What the row-wise shifts give at a position is what the request's own tokens give. */
  lemma RowShiftsAreDirect(h: Hashing, line: seq<int>, tokens: seq<int>, p: nat)
    requires tokens <= line && |tokens| == p + 1 && p + 1 >= |h.multipliers|
    ensures ShiftedAt(h, line, p) == DirectShifts(h, tokens)
  {
    forall j | 0 <= j < |h.multipliers|
      ensures ShiftedAt(h, line, p)[j] == DirectShifts(h, tokens)[j]
    {
      ShiftIsDirect(line, h.eos, j, p);
      assert line[p - j..p + 1] == tokens[p - j..p + 1];
      DirectOfWindow(line, p, tokens, p, h.eos, j);
    }
  }

  lemma PackedTokens(h: Hashing, buffer: array2<int>, input: seq<int>, starts: seq<nat>, valid: nat, width: nat, r: nat)
    requires h.IsToken(h.eos) && h.AreTokens(input)
    requires Starts(starts) && 0 < width <= buffer.Length1 && |starts| - 1 <= buffer.Length0 && valid <= |input|
    requires Packed(buffer, input, starts, valid, width, h.eos) && r < |starts| - 1
    ensures h.AreTokens(Row(buffer, r, width))
  {
    forall c | 0 <= c < width
      ensures h.IsToken(buffer[r, c])
    {
      if buffer[r, c] != h.eos {
        var p: nat :| p < valid && SlotOf(starts, p, width) == (r, c);
        assert At(buffer, SlotOf(starts, p, width)) == input[p];
      }
    }
  }

  /** The packed line of any position is made of tokens and reaches it. */
  lemma LineReady(h: Hashing, buffer: array2<int>, input: seq<int>, starts: seq<nat>, contexts: seq<seq<int>>,
                  valid: nat, width: nat, p: nat)
    requires Starts(starts) && h.Valid() && h.AreTokens(input) && Contexts(h, contexts, |starts| - 1)
    requires 0 < width <= buffer.Length1 && |starts| - 1 <= buffer.Length0 && valid <= |input|
    requires Packed(buffer, input, starts, valid, width, h.eos)
    ensures |contexts| >= |starts| - 1
    ensures var (r, column) := SlotOf(starts, p, width);
            && 0 <= r < |starts| - 1 && 0 <= column < width && h.Context() >= 0
            && |contexts[r]| == h.Context() && h.AreTokens(contexts[r]) && h.AreTokens(Row(buffer, r, width))
            && h.AreTokens(contexts[r] + Row(buffer, r, width)) && h.IsToken(h.eos)
  {
    hide Packed, SlotOf, LaidOut, Starts;
    SlotInside(starts, p, width);
    PackedTokens(h, buffer, input, starts, valid, width, SlotOf(starts, p, width).0);
  }

  method TokenIds(h: Hashing, buffer: array2<int>, input: seq<int>, starts: seq<nat>, contexts: seq<seq<int>>,
                  valid: nat, width: nat, p: nat)
    returns (ids: seq<int>)
    requires Starts(starts) && h.Valid() && h.AreTokens(input) && Contexts(h, contexts, |starts| - 1)
    requires 0 < width <= buffer.Length1 && |starts| - 1 <= buffer.Length0 && valid <= |input|
    requires Packed(buffer, input, starts, valid, width, h.eos) && Fits(starts, valid, width) && p < |input|
    ensures p < valid && p < starts[|starts| - 1] ==>
              h.AreTokens(OwnTokens(input, starts, contexts, p))
                && ids == DirectIds(h, OwnTokens(input, starts, contexts, p))
  {
    hide *;
    LineReady(h, buffer, input, starts, contexts, valid, width, p);
    var (r, column) := SlotOf(starts, p, width);
    var line := contexts[r] + Row(buffer, r, width);
    var shifted := ShiftedAt(h, line, column + h.Context());
    ids := Ids(h, shifted);
    if p < valid && p < starts[|starts| - 1] {
      LineGivesOwn(h, buffer, input, starts, contexts, valid, width, p);
    }
  }

  /** At a token's place in its packed row, the ids are those of its request's own tokens. */
  lemma LineGivesOwn(h: Hashing, buffer: array2<int>, input: seq<int>, starts: seq<nat>, contexts: seq<seq<int>>,
                     valid: nat, width: nat, p: nat)
    requires Starts(starts) && h.Valid() && h.AreTokens(input) && Contexts(h, contexts, |starts| - 1)
    requires 0 < width <= buffer.Length1 && |starts| - 1 <= buffer.Length0 && valid <= |input|
    requires Packed(buffer, input, starts, valid, width, h.eos) && Fits(starts, valid, width)
    requires p < valid && p < starts[|starts| - 1]
    ensures var (r, column) := SlotOf(starts, p, width);
            var tokens := OwnTokens(input, starts, contexts, p);
            && 0 <= r < |starts| - 1 && 0 <= column < width && h.Context() >= 0
            && h.AreTokens(tokens) && h.IsToken(h.eos)
            && h.AreTokens(contexts[r] + Row(buffer, r, width))
            && Ids(h, ShiftedAt(h, contexts[r] + Row(buffer, r, width), column + h.Context())) == DirectIds(h, tokens)
  {
    hide *;
    LineReady(h, buffer, input, starts, contexts, valid, width, p);
    var (r, column) := SlotOf(starts, p, width);
    RowBegins(buffer, input, starts, contexts, valid, width, h.eos, p);
    OwnLength(h, input, starts, contexts, valid, width, p);
    var line, tokens := contexts[r] + Row(buffer, r, width), OwnTokens(input, starts, contexts, p);
    LineTokens(h, contexts[r], Row(buffer, r, width), tokens);
    LineIds(h, line, tokens, column + h.Context());
  }

  lemma LineIds(h: Hashing, line: seq<int>, tokens: seq<int>, p: nat)
    requires h.Valid() && h.AreTokens(line) && h.AreTokens(tokens)
    requires tokens <= line && |tokens| == p + 1 && p + 1 >= |h.multipliers|
    ensures Ids(h, ShiftedAt(h, line, p)) == DirectIds(h, tokens)
  {
    RowShiftsAreDirect(h, line, tokens, p);
    hide ShiftedAt, DirectShifts, Ids;
  }

  lemma OwnLength(h: Hashing, input: seq<int>, starts: seq<nat>, contexts: seq<seq<int>>, valid: nat, width: nat,
                  p: nat)
    requires Starts(starts) && h.Valid() && Contexts(h, contexts, |starts| - 1) && p < valid <= |input|
    requires Fits(starts, valid, width) && p < starts[|starts| - 1]
    ensures var (r, column) := SlotOf(starts, p, width);
            && r == RequestOf(starts, p) && column >= 0 && |h.multipliers| == h.Context() + 1
            && |OwnTokens(input, starts, contexts, p)| == column + h.Context() + 1
  {
    hide LaidOut;
    SlotInside(starts, p, width);
    RequestFound(starts, p);
    assert Offset(starts, p) < width;
  }

  lemma LineTokens(h: Hashing, context: seq<int>, row: seq<int>, tokens: seq<int>)
    requires h.AreTokens(context) && h.AreTokens(row) && tokens <= context + row
    ensures h.AreTokens(context + row) && h.AreTokens(tokens)
  {
    assert forall i | 0 <= i < |tokens| :: tokens[i] == (context + row)[i];
  }

  // ----- a whole batch -----

  ghost predicate SortedStarts(starts: seq<nat>) {
    |starts| >= 1 && starts[0] == 0 && forall i, j | 0 <= i < j < |starts| :: starts[i] <= starts[j]
  }

  method LongestRequest(starts: seq<nat>) returns (longest: nat)
    requires Starts(starts)
    ensures forall r | 0 <= r < |starts| - 1 :: starts[r + 1] - starts[r] <= longest
  {
    longest := 0;
    for r := 0 to |starts| - 1
      invariant forall q | 0 <= q < r :: starts[q + 1] - starts[q] <= longest
    {
      if starts[r + 1] - starts[r] > longest {
        longest := starts[r + 1] - starts[r];
      }
    }
  }

  lemma NarrowFits(starts: seq<nat>, valid: nat, width: nat, longest: nat, columns: nat)
    requires Starts(starts) && valid <= starts[|starts| - 1] && valid <= columns
    requires forall r | 0 <= r < |starts| - 1 :: starts[r + 1] - starts[r] <= longest
    requires width > 0 && (width >= longest || width >= columns)
    ensures Fits(starts, valid, width)
  {
    forall p: nat | p < valid
      ensures Offset(starts, p) < width
    {
      RequestFound(starts, p);
      var r := RequestOf(starts, p);
      assert starts[r + 1] - starts[r] <= longest;
    }
  }

  lemma WideFits(starts: seq<nat>, valid: nat, width: nat)
    requires Starts(starts) && valid <= width && width > 0
    ensures Fits(starts, valid, width)
  {
    forall p: nat | p < valid
      ensures Offset(starts, p) < width
    {
      RequestFound(starts, p);
    }
  }

  /**
   * The forward pass. Flat positions past the last start are padding: on the device they are
   * packed after the last request's tokens, in the offload process they are not packed at all.
   */
  method Forward(h: Hashing, buffer: array2<int>, input: seq<int>, starts: seq<nat>, contexts: seq<seq<int>>,
                 offload: bool)
    returns (r: Result<seq<seq<int>>, BatchFault>)
    requires h.Valid() && h.AreTokens(input) && SortedStarts(starts) && Contexts(h, contexts, |starts| - 1)
    requires buffer.Length1 > 0 && (offload || |starts| >= 2)
    modifies buffer
    ensures r.Err? <==> |input| > buffer.Length1 || |starts| - 1 > buffer.Length0 || (offload && |starts| == 1)
    ensures r.Err? ==> r.error == if |input| > buffer.Length1 then TooManyTokens
                                  else if |starts| - 1 > buffer.Length0 then TooManyRequests else NoRequests
    ensures r.Ok? ==> |r.value| == |input| && Starts(starts)
    ensures r.Ok? ==> forall p: nat | p < |input| && p < starts[|starts| - 1] ::
              && h.AreTokens(OwnTokens(input, starts, contexts, p))
              && r.value[p] == DirectIds(h, OwnTokens(input, starts, contexts, p))
  {
    if |input| > buffer.Length1 {
      return Err(TooManyTokens);
    }
    if |starts| - 1 > buffer.Length0 {
      return Err(TooManyRequests);
    }
    var width, valid := buffer.Length1, |input|;
    if offload {
      if |starts| - 1 <= 0 {
        return Err(NoRequests);
      }
      var longest := LongestRequest(starts);
      var wanted := if longest > 1 then longest else 1;
      width := if wanted < buffer.Length1 then wanted else buffer.Length1;
      var end := starts[|starts| - 1];
      valid := if end < |input| then end else |input|;
      NarrowFits(starts, valid, width, longest, buffer.Length1);
    } else {
      WideFits(starts, valid, width);
    }
    Pack(buffer, input, starts, valid, width, h.eos);
    var ids := AllIds(h, buffer, input, starts, contexts, valid, width);
    return Ok(ids);
  }

  method AllIds(h: Hashing, buffer: array2<int>, input: seq<int>, starts: seq<nat>, contexts: seq<seq<int>>, valid: nat,
                width: nat)
    returns (ids: seq<seq<int>>)
    requires Starts(starts) && h.Valid() && h.AreTokens(input) && Contexts(h, contexts, |starts| - 1)
    requires 0 < width <= buffer.Length1 && |starts| - 1 <= buffer.Length0 && valid <= |input|
    requires Packed(buffer, input, starts, valid, width, h.eos) && Fits(starts, valid, width)
    ensures |ids| == |input|
    ensures forall p: nat | p < valid && p < starts[|starts| - 1] ::
              && h.AreTokens(OwnTokens(input, starts, contexts, p))
              && ids[p] == DirectIds(h, OwnTokens(input, starts, contexts, p))
  {
    hide Packed, Fits, DirectIds, OwnTokens;
    ids := [];
    for p := 0 to |input|
      invariant |ids| == p
      invariant forall q: nat | q < p && q < valid && q < starts[|starts| - 1] ::
                  && h.AreTokens(OwnTokens(input, starts, contexts, q))
                  && ids[q] == DirectIds(h, OwnTokens(input, starts, contexts, q))
    {
      var own := TokenIds(h, buffer, input, starts, contexts, valid, width, p);
      ids := ids + [own];
    }
  }

  // ----- what ids depend on -----

  /** Only the last tokens, one for each multiplier, matter. */
  lemma DirectIdsOfWindow(h: Hashing, a: seq<int>, b: seq<int>)
    requires h.Valid() && h.AreTokens(a) && h.AreTokens(b)
    requires |a| >= |h.multipliers| && |b| >= |h.multipliers|
    requires a[|a| - |h.multipliers|..] == b[|b| - |h.multipliers|..]
    ensures DirectIds(h, a) == DirectIds(h, b)
  {
    var n, w := |h.multipliers|, a[|a| - |h.multipliers|..];
    forall j | 0 <= j < n
      ensures DirectShifts(h, a)[j] == DirectShifts(h, b)[j]
    {
      assert a[|a| - 1 - j..|a|] == w[n - 1 - j..];
      assert b[|b| - 1 - j..|b|] == w[n - 1 - j..];
      DirectOfWindow(a, |a| - 1, b, |b| - 1, h.eos, j);
    }
    assert DirectShifts(h, a) == DirectShifts(h, b);
  }

  /** A stream as it looks from its first token: an empty context of end-of-sequence tokens before it. */
  ghost function WithEmptyContext(h: Hashing, stream: seq<int>): (tokens: seq<int>)
    requires h.Context() >= 0
    ensures |tokens| == h.Context() + |stream|
    ensures h.IsToken(h.eos) && h.AreTokens(stream) ==> h.AreTokens(tokens)
  {
    var tokens := seq(h.Context(), _ => h.eos) + stream;
    tokens
  }

  /** The empty context stands for nothing: a shift past the first token gives end-of-sequence either way. */
  lemma EmptyContextIsNothing(h: Hashing, stream: seq<int>, shift: nat, p: nat)
    requires h.Context() >= 0 && p < |stream| && shift <= h.Context()
    ensures Direct(WithEmptyContext(h, stream), h.eos, shift, h.Context() + p) == Direct(stream, h.eos, shift, p)
  {
    var whole, n := WithEmptyContext(h, stream), h.Context();
    assert whole[n..] == stream;
    if p < shift {
      assert whole[n + p - shift] == h.eos;
    } else {
      assert whole[n + p - shift..n + p + 1] == whole[n..][p - shift..p + 1];
      DirectOfWindow(whole, n + p, stream, p, h.eos, shift);
    }
  }

  /** The context carried into a chunk: the last tokens before it. */
  ghost function Carried(h: Hashing, stream: seq<int>): (context: seq<int>)
    requires h.Context() >= 0
    ensures |context| == h.Context()
  {
    WithEmptyContext(h, stream)[|stream|..]
  }

  /**
   * Chunk invariance: however a stream is cut, a token's ids computed from its chunk and the
   * carried context are its ids in the whole stream.
   */
  lemma ChunksAgree(h: Hashing, stream: seq<int>, cut: nat)
    requires h.Valid() && h.AreTokens(stream) && cut < |stream|
    ensures h.AreTokens(Carried(h, stream[..cut]) + stream[cut..])
    ensures DirectIds(h, Carried(h, stream[..cut]) + stream[cut..]) == DirectIds(h, WithEmptyContext(h, stream))
  {
    var whole, chunk := WithEmptyContext(h, stream), Carried(h, stream[..cut]) + stream[cut..];
    assert chunk == whole[cut..] by {
      assert stream == stream[..cut] + stream[cut..];
    }
    DirectIdsOfWindow(h, chunk, whole);
  }

  /** A request's own tokens up to a position of its own: its context and then what the batch holds for it. */
  lemma OwnTokensOf(input: seq<int>, starts: seq<nat>, contexts: seq<seq<int>>, r: nat, p: nat)
    requires Starts(starts) && |contexts| >= |starts| - 1 && p < |input|
    requires r < |starts| - 1 && starts[r] <= p < starts[r + 1]
    ensures OwnTokens(input, starts, contexts, p) == contexts[r] + input[starts[r]..p + 1]
  {
    OwnRequest(starts, p, r);
  }

  /**
   * A request whose context was carried from the first part of its stream, and whose next part is in the
   * batch, gets there the ids of its whole stream up to each token.
   */
  lemma BatchIsStream(h: Hashing, input: seq<int>, starts: seq<nat>, contexts: seq<seq<int>>, r: nat, p: nat,
                      stream: seq<int>, cut: nat)
    requires h.Valid() && Starts(starts) && |contexts| >= |starts| - 1 && p < |input|
    requires r < |starts| - 1 && starts[r] <= p < starts[r + 1]
    requires h.AreTokens(stream) && cut <= |stream| && contexts[r] == Carried(h, stream[..cut])
    requires input[starts[r]..p + 1] == stream[cut..]
    ensures h.AreTokens(OwnTokens(input, starts, contexts, p))
    ensures DirectIds(h, OwnTokens(input, starts, contexts, p)) == DirectIds(h, WithEmptyContext(h, stream))
  {
    OwnTokensOf(input, starts, contexts, r, p);
    assert |input[starts[r]..p + 1]| > 0;
    ChunksAgree(h, stream, cut);
  }
}
