/** Setting up the n-gram hash of a layer, and where its ids lie in the embedding table. */
module NGramSetup {
  import opened Results
  import opened HashTables
  import opened NGrams

  datatype SetupFault = NgramTooShort | NoHeads | UnevenHeads

  /** Why a layer's dimensions are refused, in the order in which they are checked. */
  function DimensionFault(embedding: int, ngram: int, heads: int): Option<SetupFault> {
    if ngram < 2 then Some(NgramTooShort)
    else if heads <= 0 then Some(NoHeads)
    else if EvenHeads(embedding, TotalHeads(ngram, heads)) then None else Some(UnevenHeads)
  }

  function TotalHeads(ngram: int, heads: int): int {
    (ngram - 1) * heads
  }

  predicate EvenHeads(embedding: int, total: int) {
    total > 0 && embedding % total == 0
  }

  /** The whole setup: whatever the seed and the layer, the hash it builds is fit for any tokens of the vocabulary. */
  method Setup(vocabulary: int, eos: int, seed: int, layer: nat, embedding: int, ngram: int, heads: int, base: int)
    returns (r: Result<Hashing, SetupFault>)
    requires 0 <= eos < vocabulary < TWO63
    ensures r.Err? <==> DimensionFault(embedding, ngram, heads).Some?
    ensures r.Err? ==> Some(r.error) == DimensionFault(embedding, ngram, heads)
    ensures r.Ok? ==>
              var h := r.value;
              && h.Valid() && h.vocabulary == vocabulary && h.eos == eos && |h.multipliers| == ngram
                 && h.headsPerNgram == heads
              && (forall i | 0 <= i < ngram :: h.multipliers[i] == Drawn(vocabulary, DrawValue(seed, layer, i)))
              && forall g | 0 <= g < |h.sizes| :: h.sizes[g] == HeadSize(base, |h.sizes|, layer, g)
  {
    var fault := DimensionFault(embedding, ngram, heads);
    if fault.Some? {
      return Err(fault.value);
    }
    var total := TotalHeads(ngram, heads);
    hide Drawn, DrawValue, HeadSize, LaidOut, TotalHeads;
    var multipliers := BuildMultipliers(vocabulary, seed, layer, ngram);
    var sizes, offsets, end := BuildTables(base, total, layer);
    var h := Hashing(vocabulary, eos, multipliers, heads, sizes, offsets);
    BuiltIsValid(h, seed, layer);
    return Ok(h);
  }

  lemma BuiltIsValid(h: Hashing, seed: int, layer: nat)
    requires 0 <= h.eos < h.vocabulary < TWO63 && |h.multipliers| >= 2 && h.headsPerNgram > 0
    requires |h.sizes| == TotalHeads(|h.multipliers|, h.headsPerNgram) && LaidOut(h.sizes, h.offsets)
    requires forall i | 0 <= i < |h.multipliers| :: h.multipliers[i] == Drawn(h.vocabulary, DrawValue(seed, layer, i))
    ensures h.Valid()
  {
    hide Drawn, DrawValue, LaidOut;
    forall i, t | 0 <= i < |h.multipliers| && h.IsToken(t)
      ensures 0 <= t * h.multipliers[i] < TWO63
    {
      TokenProductsFit(h.vocabulary, DrawValue(seed, layer, i), t);
    }
  }

  /** An id is some mixed value's place in its head's table. */
  lemma IdIsHeads(h: Hashing, shifted: seq<int>, g: nat) returns (mixed: int)
    requires h.Valid() && h.AreTokens(shifted) && |shifted| == |h.multipliers| && g < |h.sizes|
    ensures |h.offsets| == |h.sizes| && h.sizes[g] > 0
    ensures Ids(h, shifted)[g] == HeadId(mixed, h.sizes[g], h.offsets[g])
  {
    BlockExists(h, g);
    mixed := Mixed(h, shifted, 2 + g / h.headsPerNgram);
    hide Mixed, HeadId;
  }

  /** Every id of a position is a row of its own head's table, and of the padded table as a whole. */
  lemma IdsAreRows(h: Hashing, shifted: seq<int>, g: nat, divisor: int)
    requires h.Valid() && h.AreTokens(shifted) && |shifted| == |h.multipliers| && g < |h.sizes| && divisor > 0
    ensures |h.offsets| == |h.sizes| && h.offsets[g] <= Ids(h, shifted)[g] < h.offsets[g] + h.sizes[g]
    ensures 0 <= Ids(h, shifted)[g] < Padded(Sum(h.sizes), divisor)
  {
    var mixed := IdIsHeads(h, shifted, g);
    assert LaidOut(h.sizes, h.offsets);
    hide *;
    IdsStayInRange(h.sizes, h.offsets, divisor, g, g, mixed, mixed);
  }

  /** Two heads never share a row, for any tokens at all. */
  lemma HeadsNeverShareRows(h: Hashing, shifted: seq<int>, shifted': seq<int>, g: nat, g': nat)
    requires h.Valid() && h.AreTokens(shifted) && |shifted| == |h.multipliers|
    requires h.AreTokens(shifted') && |shifted'| == |h.multipliers|
    requires g < |h.sizes| && g' < |h.sizes| && g != g'
    ensures Ids(h, shifted)[g] != Ids(h, shifted')[g']
  {
    var mixed := IdIsHeads(h, shifted, g);
    var mixed' := IdIsHeads(h, shifted', g');
    assert LaidOut(h.sizes, h.offsets);
    hide *;
    IdsStayInRange(h.sizes, h.offsets, 1, g, g', mixed, mixed');
  }
}
