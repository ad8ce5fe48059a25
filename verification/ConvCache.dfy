/** The batched passes over the shared cache: each row of a batch takes its turn on its own slot, in place. */
module ConvCache {
  import opened Results
  import opened Convolutions
  import opened ConvSlots
  import opened ConvPacking

  datatype ConvFault = InitialStatesMissing | InitialStatesShort | SlotsShort | CacheTooSmall

  /** The slot that padding rows of a batch are given; it is never written. */
  const NULL: nat := 0

  /** No slot but the null one is given to two rows. */
  ghost predicate DistinctSlots(slots: seq<nat>) {
    forall i, j | 0 <= i < j < |slots| && slots[i] != NULL :: slots[i] != slots[j]
  }

  ghost predicate Within(slots: seq<nat>, n: nat) {
    forall i | 0 <= i < |slots| :: slots[i] < n
  }

  /** What each row of a batch outputs. */
  function RowOutputs(turns: seq<Turn>): (rows: seq<seq<int>>)
    ensures |rows| == |turns| && forall i | 0 <= i < |turns| :: rows[i] == turns[i].outputs
  {
    seq(|turns|, i requires 0 <= i < |turns| => turns[i].outputs)
  }

  class Cache {
    const filter: Filter
    const capacity: nat
    const state: array<seq<int>>

    ghost predicate Valid()
      reads this, state
    {
      && filter.Valid() && filter.StateLen() <= capacity && state.Length > 0
      && forall s | 0 <= s < state.Length :: |state[s]| == capacity
    }

    constructor (filter: Filter, capacity: nat, slots: nat)
      requires filter.Valid() && filter.StateLen() <= capacity && slots > 0
      ensures Valid() && fresh(state) && this.filter == filter && this.capacity == capacity && state.Length == slots
    {
      this.filter := filter;
      this.capacity := capacity;
      var row := Zeros(capacity);
      state := new seq<int>[slots](_ => row);
    }

    /** Put rows into their slots; padding rows put back what the null slot holds. */
    method WriteBack(slots: seq<nat>, turns: seq<Turn>)
      requires Valid() && Within(slots, state.Length) && DistinctSlots(slots) && |turns| == |slots|
      requires forall i | 0 <= i < |turns| ::
                 |turns[i].row| == capacity && (slots[i] == NULL ==> turns[i].row == state[NULL])
      modifies state
      ensures Valid()
      ensures forall i | 0 <= i < |slots| && slots[i] != NULL :: state[slots[i]] == turns[i].row
      ensures forall s: nat | s < state.Length && (s == NULL || s !in slots) :: state[s] == old(state[s])
    {
      for k := 0 to |slots|
        invariant Valid()
        invariant forall i | 0 <= i < k && slots[i] != NULL :: state[slots[i]] == turns[i].row
        invariant forall s: nat | s < state.Length && (s == NULL || s !in slots[..k]) :: state[s] == old(state[s])
      {
        assert slots[..k + 1] == slots[..k] + [slots[k]];
        state[slots[k]] := turns[k].row;
      }
      assert slots[..|slots|] == slots;
    }

    /** The turn of a decoding row; rows on the null slot output zero and change nothing. */
    function DecodeAt(slots: seq<nat>, initial: seq<bool>, xs: seq<int>, i: nat): (t: Turn)
      requires Valid() && Within(slots, state.Length) && i < |slots| == |xs| && |slots| <= |initial|
      reads this, state
      ensures |t.outputs| == 1 && |t.row| == capacity
    {
      if slots[i] == NULL then Turn([0], state[NULL])
      else DecodeTurn(filter, state[slots[i]], initial[i], xs[i])
    }

    method DecodeBatched(xs: seq<int>, slots: seq<nat>, hasInitial: Option<seq<bool>>)
      returns (r: Result<seq<int>, ConvFault>)
      requires Valid() && Within(slots, state.Length) && DistinctSlots(slots) && |xs| == |slots|
      modifies state
      ensures Valid()
      ensures r.Err? <==> hasInitial.Some? && |hasInitial.value| < |slots|
      ensures r.Err? ==> r.error == InitialStatesShort && forall s | 0 <= s < state.Length :: state[s] == old(state[s])
      ensures r.Ok? ==> |r.value| == |slots|
      ensures r.Ok? ==> forall i | 0 <= i < |slots| ::
                var initial := if hasInitial.Some? then hasInitial.value else seq(|slots|, _ => true);
                && [r.value[i]] == old(DecodeAt(slots, initial, xs, i)).outputs
                && (slots[i] != NULL ==> state[slots[i]] == old(DecodeAt(slots, initial, xs, i)).row)
      ensures r.Ok? ==> forall i | 0 <= i < |slots| && slots[i] == NULL :: r.value[i] == 0
      ensures r.Ok? ==> forall s: nat | s < state.Length && (s == NULL || s !in slots) :: state[s] == old(state[s])
    {
      var initial := seq(|slots|, _ => true);
      if hasInitial.Some? {
        if |hasInitial.value| < |slots| {
          return Err(InitialStatesShort);
        }
        initial := hasInitial.value;
      }
      var out: seq<int> := [];
      var turns: seq<Turn> := [];
      for i := 0 to |slots|
        invariant |out| == i && |turns| == i
        invariant forall k | 0 <= k < i :: turns[k] == DecodeAt(slots, initial, xs, k) && [out[k]] == turns[k].outputs
      {
        var turn := DecodeAt(slots, initial, xs, i);
        out := out + [turn.outputs[0]];
        turns := turns + [turn];
        assert turn.outputs == [turn.outputs[0]];
      }
      WriteBack(slots, turns);
      return Ok(out);
    }

    function PrefillAt(slots: seq<nat>, initial: seq<bool>, xs: seq<int>, width: nat, i: nat): (t: Turn)
      requires Valid() && Within(slots, state.Length) && i < |slots| && i < |initial| && |xs| <= width
      reads this, state
      ensures |t.outputs| == |xs| && |t.row| == capacity
    {
      if slots[i] == NULL then Turn(Zeros(|xs|), state[NULL])
      else PrefillTurn(filter, state[slots[i]], initial[i], xs, width)
    }

    /** Chunks of several requests, laid end to end in `x`. */
    method PrefillBatched(x: seq<int>, starts: seq<nat>, slots: seq<nat>, hasInitial: Option<seq<bool>>, count: nat,
                          width: nat)
      returns (r: Result<seq<int>, ConvFault>)
      requires Valid() && Within(slots, state.Length) && DistinctSlots(slots)
      requires Bounds(starts, count, width) && starts[count] == |x|
      requires forall i | 0 <= i < count :: |Chunk(x, starts, i)| <= width
      modifies state
      ensures Valid()
      ensures r.Err? <==> hasInitial.None? || |slots| < count || |hasInitial.value| < count
      ensures r.Err? ==> forall s | 0 <= s < state.Length :: state[s] == old(state[s])
      ensures r.Ok? ==> |r.value| == |x|
      ensures r.Ok? ==> forall i | 0 <= i < count ::
                var turn := old(PrefillAt(slots, hasInitial.value, Chunk(x, starts, i), width, i));
                Chunk(r.value, starts, i) == turn.outputs && (slots[i] != NULL ==> state[slots[i]] == turn.row)
      ensures r.Ok? ==> forall i, t | 0 <= i < count && slots[i] == NULL && 0 <= t < |Chunk(r.value, starts, i)| ::
                Chunk(r.value, starts, i)[t] == 0
      ensures r.Ok? ==>
                forall s: nat | s < state.Length && (s == NULL || s !in slots[..count]) :: state[s] == old(state[s])
    {
      if hasInitial.None? {
        return Err(InitialStatesMissing);
      }
      if |slots| < count {
        return Err(SlotsShort);
      }
      var initial := hasInitial.value;
      if |initial| < count {
        return Err(InitialStatesShort);
      }
      if count == 0 || |x| == 0 {
        EmptyChunks(x, starts, count, width);
        return Ok([]);
      }
      WidthIsPositive(starts, count, width);
      var turns := PrefillTurns(x, starts, slots, initial, count, width);
      var out := Unpack(RowOutputs(turns), starts, width, |x|);
      WriteBack(slots[..count], turns);
      return Ok(out);
    }

    method PrefillTurns(x: seq<int>, starts: seq<nat>, slots: seq<nat>, initial: seq<bool>, count: nat, width: nat)
      returns (turns: seq<Turn>)
      requires Valid() && Within(slots, state.Length) && count <= |slots| && count <= |initial| && width > 0
      requires Bounds(starts, count, width) && starts[count] == |x|
      requires forall i | 0 <= i < count :: |Chunk(x, starts, i)| <= width
      ensures |turns| == count && Sized(RowOutputs(turns), starts)
      ensures forall i | 0 <= i < count :: turns[i] == PrefillAt(slots, initial, Chunk(x, starts, i), width, i)
    {
      var chunks := PackedChunks(x, starts, count, width);
      turns := [];
      hide PrefillTurn;
      for i := 0 to count
        modifies {}
        invariant |turns| == i
        invariant forall k | 0 <= k < i :: turns[k] == PrefillAt(slots, initial, Chunk(x, starts, k), width, k)
      {
        var turn := PrefillAt(slots, initial, chunks[i], width, i);
        turns := turns + [turn];
      }
      forall i | 0 <= i < count
        ensures starts[i + 1] == starts[i] + |RowOutputs(turns)[i]|
      {
        ChunkLength(x, starts, count, width, i);
      }
    }

    function SpecAt(slots: seq<nat>, accepted: seq<int>, xs: seq<int>, width: nat, i: nat): (t: Turn)
      requires Valid() && Within(slots, state.Length) && i < |slots| <= |accepted| && |xs| <= width
      requires (filter.StateLen() == 0 || filter.StateLen() + width - 1 <= capacity) && (slots[i] != NULL ==> xs != [])
      reads this, state
      ensures |t.outputs| == |xs| && |t.row| == capacity
    {
      if slots[i] == NULL
      then Turn(Outputs(filter, Zeros(filter.StateLen()) + xs + Zeros(width - |xs|), |xs|), state[NULL])
      else SpecTurn(filter, state[slots[i]], accepted[i], xs, width)
    }

    /** Candidates of several requests; flat rows past the last request are padding and output zero. */
    method SpecBatched(x: seq<int>, starts: seq<nat>, slots: seq<nat>, accepted: seq<int>, width: nat)
      returns (r: Result<seq<int>, ConvFault>)
      requires Valid() && Within(slots, state.Length) && DistinctSlots(slots) && |accepted| >= |slots| && width > 0
      requires Bounds(starts, |slots|, width) && starts[|slots|] <= |x|
      requires forall i | 0 <= i < |slots| ::
                 |Chunk(x, starts, i)| <= width && (slots[i] != NULL ==> Chunk(x, starts, i) != [])
      modifies state
      ensures Valid()
      ensures r.Err? <==> filter.StateLen() > 0 && capacity < filter.StateLen() + width - 1
      ensures r.Err? ==> r.error == CacheTooSmall && forall s | 0 <= s < state.Length :: state[s] == old(state[s])
      ensures r.Ok? ==> |r.value| == |x| && r.value[starts[|slots|]..] == Zeros(|x| - starts[|slots|])
      ensures r.Ok? ==> forall i | 0 <= i < |slots| ::
                var turn := old(SpecAt(slots, accepted, Chunk(x, starts, i), width, i));
                Chunk(r.value, starts, i) == turn.outputs && (slots[i] != NULL ==> state[slots[i]] == turn.row)
      ensures r.Ok? ==> forall s: nat | s < state.Length && (s == NULL || s !in slots) :: state[s] == old(state[s])
    {
      if filter.StateLen() > 0 && capacity < filter.StateLen() + width - 1 {
        return Err(CacheTooSmall);
      }
      var turns := SpecTurns(x, starts, slots, accepted, width);
      var out := Unpack(RowOutputs(turns), starts, width, |x|);
      WriteBack(slots, turns);
      return Ok(out);
    }

    /** The turns of all rows, each on its packed tokens. */
    method SpecTurns(x: seq<int>, starts: seq<nat>, slots: seq<nat>, accepted: seq<int>, width: nat)
      returns (turns: seq<Turn>)
      requires Valid() && Within(slots, state.Length) && |accepted| >= |slots| && width > 0
      requires Bounds(starts, |slots|, width) && starts[|slots|] <= |x|
      requires filter.StateLen() == 0 || filter.StateLen() + width - 1 <= capacity
      requires forall i | 0 <= i < |slots| ::
                 |Chunk(x, starts, i)| <= width && (slots[i] != NULL ==> Chunk(x, starts, i) != [])
      ensures |turns| == |slots| && Sized(RowOutputs(turns), starts)
      ensures forall i | 0 <= i < |slots| :: turns[i] == SpecAt(slots, accepted, Chunk(x, starts, i), width, i)
    {
      var chunks := PackedChunks(x, starts, |slots|, width);
      turns := [];
      hide SpecTurn, Outputs;
      for i := 0 to |slots|
        modifies {}
        invariant |turns| == i
        invariant forall k | 0 <= k < i :: turns[k] == SpecAt(slots, accepted, Chunk(x, starts, k), width, k)
      {
        var turn := SpecAt(slots, accepted, chunks[i], width, i);
        turns := turns + [turn];
      }
      forall i | 0 <= i < |slots|
        ensures starts[i + 1] == starts[i] + |RowOutputs(turns)[i]|
      {
        ChunkLength(x, starts, |slots|, width, i);
      }
    }

    /** Speculating, decoding and prefilling rows of one batch, each group well formed by itself. */
    ghost predicate GroupsFit(spec: Option<SpecGroup>, decode: DecodeGroup, prefill: PrefillGroup) {
      && filter.Valid()
      && Within(decode.slots, state.Length) && DistinctSlots(decode.slots) && |decode.x| == |decode.slots|
      && Within(prefill.slots, state.Length) && DistinctSlots(prefill.slots)
      && Bounds(prefill.starts, |prefill.slots|, prefill.width) && prefill.starts[|prefill.slots|] == |prefill.x|
      && (forall i | 0 <= i < |prefill.slots| :: |Chunk(prefill.x, prefill.starts, i)| <= prefill.width)
      && Apart(decode.slots, prefill.slots)
      && (spec.Some? ==>
            var g := spec.value;
            && Within(g.slots, state.Length) && DistinctSlots(g.slots) && |g.accepted| >= |g.slots| && g.width > 0
            && Bounds(g.starts, |g.slots|, g.width) && g.starts[|g.slots|] <= |g.x|
            && (forall i | 0 <= i < |g.slots| ::
                  |Chunk(g.x, g.starts, i)| <= g.width && (g.slots[i] != NULL ==> Chunk(g.x, g.starts, i) != []))
            && (filter.StateLen() == 0 || filter.StateLen() + g.width - 1 <= capacity)
            && Apart(g.slots, decode.slots) && Apart(g.slots, prefill.slots))
    }

    /**
     * A whole batch: speculating rows first, then decoding ones, then prefilling ones. Because no
     * two of them share a slot, each takes its turn on the row its slot held before the batch.
     */
    method Dispatch(spec: Option<SpecGroup>, decode: DecodeGroup, prefill: PrefillGroup)
      returns (r: Result<(seq<int>, seq<int>, seq<int>), ConvFault>)
      requires Valid() && GroupsFit(spec, decode, prefill)
      modifies state
      ensures Valid()
      ensures r.Ok? <==> |decode.initial| >= |decode.slots| && |prefill.initial| >= |prefill.slots|
      ensures r.Ok? && spec.Some? ==> forall i | 0 <= i < |spec.value.slots| ::
                var g := spec.value;
                var turn := old(SpecAt(g.slots, g.accepted, Chunk(g.x, g.starts, i), g.width, i));
                Chunk(r.value.0, g.starts, i) == turn.outputs && (g.slots[i] != NULL ==> state[g.slots[i]] == turn.row)
      ensures r.Ok? ==> |r.value.1| == |decode.slots|
      ensures r.Ok? ==> forall i | 0 <= i < |decode.slots| ::
                var turn := old(DecodeAt(decode.slots, decode.initial, decode.x, i));
                [r.value.1[i]] == turn.outputs
                && (decode.slots[i] != NULL ==> state[decode.slots[i]] == turn.row)
      ensures r.Ok? ==> forall i | 0 <= i < |prefill.slots| ::
                var turn := old(PrefillAt(prefill.slots, prefill.initial, Chunk(prefill.x, prefill.starts, i),
                                          prefill.width, i));
                Chunk(r.value.2, prefill.starts, i) == turn.outputs
                && (prefill.slots[i] != NULL ==> state[prefill.slots[i]] == turn.row)
      ensures state[NULL] == old(state[NULL])
      ensures forall s: nat | s < state.Length && s !in decode.slots && s !in prefill.slots
                              && (spec.Some? ==> s !in spec.value.slots) :: state[s] == old(state[s])
    {
      var speculated: seq<int> := [];
      if spec.Some? {
        var g := spec.value;
        var out := SpecBatched(g.x, g.starts, g.slots, g.accepted, g.width);
        speculated := out.value;
      }
      var decoded := DecodeBatched(decode.x, decode.slots, Some(decode.initial));
      if decoded.Err? {
        return Err(decoded.error);
      }
      assert prefill.slots[..|prefill.slots|] == prefill.slots;
      var prefilled := PrefillBatched(prefill.x, prefill.starts, prefill.slots, Some(prefill.initial), |prefill.slots|,
                                      prefill.width);
      if prefilled.Err? {
        return Err(prefilled.error);
      }
      return Ok((speculated, decoded.value, prefilled.value));
    }
  }

  /** A flat batch with tokens in it has a request with tokens in it. */
  lemma {:induction false} WidthIsPositive(starts: seq<nat>, n: nat, width: nat)
    requires Bounds(starts, n, width) && starts[n] > 0
    ensures width > 0
  {
    if width == 0 {
      NoWidthNoTokens(starts, n, n);
    }
  }

  lemma {:induction false} NoWidthNoTokens(starts: seq<nat>, n: nat, i: nat)
    requires Bounds(starts, n, 0) && i <= n
    ensures starts[i] == 0
  {
    if i > 0 {
      NoWidthNoTokens(starts, n, i - 1);
    }
  }

  lemma EmptyChunks(x: seq<int>, starts: seq<nat>, n: nat, width: nat)
    requires Bounds(starts, n, width) && starts[n] == |x| && (n == 0 || |x| == 0)
    ensures x == [] && forall i | 0 <= i < n :: Chunk(x, starts, i) == []
  {
  }

  datatype SpecGroup = SpecGroup(x: seq<int>, starts: seq<nat>, slots: seq<nat>, accepted: seq<int>, width: nat)

  datatype DecodeGroup = DecodeGroup(x: seq<int>, slots: seq<nat>, initial: seq<bool>)

  datatype PrefillGroup = PrefillGroup(x: seq<int>, starts: seq<nat>, slots: seq<nat>, initial: seq<bool>, width: nat)

  /** The groups share no slot but the null one. */
  ghost predicate Apart(slots: seq<nat>, slots': seq<nat>) {
    forall i, j | 0 <= i < |slots| && 0 <= j < |slots'| && slots[i] != NULL :: slots[i] != slots'[j]
  }
}
