/** Batches over the shared cache take every request the way it would go alone, over whole runs. */
module ConvBatches {
  import opened Results
  import opened Convolutions
  import opened ConvSlots
  import opened ConvRuns
  import opened ConvPacking
  import opened ConvCache

  /** What the metadata of one forward pass says: its speculating, decoding and prefilling rows. */
  datatype Groups = Groups(spec: Option<SpecGroup>, decode: DecodeGroup, prefill: PrefillGroup)

  type Outs = (seq<int>, seq<int>, seq<int>)

  /** The slots of the cache hold the rows of these requests. */
  ghost predicate Held(cache: Cache, requests: seq<Request>)
    reads cache.state
  {
    |requests| == cache.state.Length && forall s | 0 <= s < |requests| :: requests[s].row == cache.state[s]
  }

  // ----- rows and steps -----

  /** A speculating row carries its slot's step. */
  ghost predicate SpecRow(requests: seq<Request>, batch: Batch, g: SpecGroup, i: nat) {
    && i < |g.slots| && i < |g.accepted| && g.slots[i] < |requests| && g.slots[i] in batch
    && var step := batch[g.slots[i]];
       && step.Speculate? && step.candidates == Chunk(g.x, g.starts, i) && step.width == g.width
       && g.accepted[i] == requests[g.slots[i]].accepted
  }

  ghost predicate DecodeRow(requests: seq<Request>, batch: Batch, g: DecodeGroup, i: nat) {
    && i < |g.slots| && i < |g.x| && i < |g.initial| && g.slots[i] < |requests| && g.slots[i] in batch
    && batch[g.slots[i]] == Decode(g.x[i]) && g.initial[i] == (requests[g.slots[i]].stream != [])
  }

  ghost predicate PrefillRow(requests: seq<Request>, batch: Batch, g: PrefillGroup, i: nat) {
    && i < |g.slots| && i < |g.initial| && g.slots[i] < |requests| && g.slots[i] in batch
    && batch[g.slots[i]] == Prefill(Chunk(g.x, g.starts, i), g.width)
    && g.initial[i] == (requests[g.slots[i]].stream != [])
  }

  /** The groups carry exactly the steps of the batch, each in the row of its slot. */
  ghost predicate Carry(requests: seq<Request>, batch: Batch, g: Groups) {
    && NULL !in batch
    && (g.spec.Some? ==> forall i | 0 <= i < |g.spec.value.slots| && g.spec.value.slots[i] != NULL ::
          SpecRow(requests, batch, g.spec.value, i))
    && (forall i | 0 <= i < |g.decode.slots| && g.decode.slots[i] != NULL :: DecodeRow(requests, batch, g.decode, i))
    && (forall i | 0 <= i < |g.prefill.slots| && g.prefill.slots[i] != NULL ::
          PrefillRow(requests, batch, g.prefill, i))
    && forall s | s in batch ::
         (g.spec.Some? && s in g.spec.value.slots) || s in g.decode.slots || s in g.prefill.slots
  }

  /** Every speculating row takes its request's own turn: its outputs, and what its slot is left with. */
  ghost predicate SpecOwn(f: Filter, requests: seq<Request>, batch: Batch, g: SpecGroup, rows: seq<seq<int>>,
                          out: seq<int>)
    requires f.Valid() && LegalBatch(f, requests, batch) && |rows| == |requests|
  {
    forall i | 0 <= i < |g.slots| && g.slots[i] != NULL ::
      SpecRow(requests, batch, g, i)
      && var turn := TurnOf(f, requests[g.slots[i]], batch[g.slots[i]]);
         rows[g.slots[i]] == turn.row && Chunk(out, g.starts, i) == turn.outputs
  }

  ghost predicate DecodeOwn(f: Filter, requests: seq<Request>, batch: Batch, g: DecodeGroup, rows: seq<seq<int>>,
                            out: seq<int>)
    requires f.Valid() && LegalBatch(f, requests, batch) && |rows| == |requests|
  {
    |out| == |g.slots|
    && forall i | 0 <= i < |g.slots| && g.slots[i] != NULL ::
      DecodeRow(requests, batch, g, i)
      && var turn := TurnOf(f, requests[g.slots[i]], batch[g.slots[i]]);
         rows[g.slots[i]] == turn.row && [out[i]] == turn.outputs
  }

  ghost predicate PrefillOwn(f: Filter, requests: seq<Request>, batch: Batch, g: PrefillGroup, rows: seq<seq<int>>,
                             out: seq<int>)
    requires f.Valid() && LegalBatch(f, requests, batch) && |rows| == |requests|
  {
    forall i | 0 <= i < |g.slots| && g.slots[i] != NULL ::
      PrefillRow(requests, batch, g, i)
      && var turn := TurnOf(f, requests[g.slots[i]], batch[g.slots[i]]);
         rows[g.slots[i]] == turn.row && Chunk(out, g.starts, i) == turn.outputs
  }

  /** The slots that take no part keep their rows. */
  ghost predicate OthersKept(requests: seq<Request>, batch: Batch, rows: seq<seq<int>>) {
    |rows| == |requests| && forall s: nat | s < |rows| && s !in batch :: rows[s] == requests[s].row
  }

  /** Every request takes its own turn, whatever the others in its batch do. */
  ghost predicate AllOwn(f: Filter, requests: seq<Request>, batch: Batch, g: Groups, rows: seq<seq<int>>, out: Outs)
    requires f.Valid() && LegalBatch(f, requests, batch)
  {
    && OthersKept(requests, batch, rows)
    && (g.spec.Some? ==> SpecOwn(f, requests, batch, g.spec.value, rows, out.0))
    && DecodeOwn(f, requests, batch, g.decode, rows, out.1)
    && PrefillOwn(f, requests, batch, g.prefill, rows, out.2)
  }

  lemma OwnRowsAreAfter(f: Filter, requests: seq<Request>, batch: Batch, g: Groups, rows: seq<seq<int>>, out: Outs,
                        s: nat)
    requires f.Valid() && LegalBatch(f, requests, batch) && Carry(requests, batch, g)
    requires AllOwn(f, requests, batch, g, rows, out) && s < |requests|
    ensures AfterBatch(f, requests, batch)[s].row == rows[s]
  {
    hide TurnOf, SpecRow, DecodeRow, PrefillRow;
    if s in batch {
      if g.spec.Some? && s in g.spec.value.slots {
        var i :| 0 <= i < |g.spec.value.slots| && g.spec.value.slots[i] == s;
        assert SpecRow(requests, batch, g.spec.value, i);
      } else if s in g.decode.slots {
        var i :| 0 <= i < |g.decode.slots| && g.decode.slots[i] == s;
        assert DecodeRow(requests, batch, g.decode, i);
      } else {
        var i :| 0 <= i < |g.prefill.slots| && g.prefill.slots[i] == s;
        assert PrefillRow(requests, batch, g.prefill, i);
      }
    }
  }

  /** The rows of a cache, slot by slot. */
  function Rows(requests: seq<Request>): (rows: seq<seq<int>>)
    ensures |rows| == |requests| && forall s | 0 <= s < |rows| :: rows[s] == requests[s].row
  {
    seq(|requests|, s requires 0 <= s < |requests| => requests[s].row)
  }

  /** One forward pass over the shared cache is one step of every request that takes part. */
  method DispatchBatch(cache: Cache, g: Groups, ghost requests: seq<Request>, ghost batch: Batch) returns (out: Outs)
    requires cache.Valid() && cache.GroupsFit(g.spec, g.decode, g.prefill) && Held(cache, requests)
    requires |g.decode.initial| >= |g.decode.slots| && |g.prefill.initial| >= |g.prefill.slots|
    requires LegalBatch(cache.filter, requests, batch) && Carry(requests, batch, g)
    modifies cache.state
    ensures cache.Valid() && Held(cache, AfterBatch(cache.filter, requests, batch))
    ensures AllOwn(cache.filter, requests, batch, g, Rows(AfterBatch(cache.filter, requests, batch)), out)
  {
    var f := cache.filter;
    SpecTurns(f, requests, batch, g);
    OtherTurns(f, requests, batch, g);
    SlotsInBatch(requests, batch, g);
    hide TurnOf, DecodeTurn, PrefillTurn, SpecTurn, Chunk, Legal, AfterBatch, Carry, LegalBatch, SpecRow, DecodeRow,
      PrefillRow;
    var r := cache.Dispatch(g.spec, g.decode, g.prefill);
    out := r.value;
    ghost var rows := cache.state[..];
    assert OthersKept(requests, batch, rows);
    assert g.spec.Some? ==> SpecOwn(f, requests, batch, g.spec.value, rows, out.0);
    assert DecodeOwn(f, requests, batch, g.decode, rows, out.1);
    assert PrefillOwn(f, requests, batch, g.prefill, rows, out.2);
    hide OthersKept, SpecOwn, DecodeOwn, PrefillOwn;
    forall s: nat | s < |requests|
      ensures AfterBatch(f, requests, batch)[s].row == rows[s]
    {
      OwnRowsAreAfter(f, requests, batch, g, rows, out, s);
    }
    assert rows == Rows(AfterBatch(f, requests, batch));
  }

  lemma SlotsInBatch(requests: seq<Request>, batch: Batch, g: Groups)
    requires Carry(requests, batch, g)
    ensures forall s | s !in batch && s != NULL :: s !in g.decode.slots && s !in g.prefill.slots
    ensures g.spec.Some? ==> forall s | s !in batch && s != NULL :: s !in g.spec.value.slots
  {
  }

  /** The turn a speculating row takes is its request's. */
  lemma SpecTurns(f: Filter, requests: seq<Request>, batch: Batch, g: Groups)
    requires f.Valid() && LegalBatch(f, requests, batch) && Carry(requests, batch, g)
    ensures g.spec.Some? ==> forall i | 0 <= i < |g.spec.value.slots| && g.spec.value.slots[i] != NULL ::
              SpecRow(requests, batch, g.spec.value, i)
              && var s, h := g.spec.value.slots[i], g.spec.value;
                 TurnOf(f, requests[s], batch[s])
                 == SpecTurn(f, requests[s].row, h.accepted[i], Chunk(h.x, h.starts, i), h.width)
  {
  }

  lemma OtherTurns(f: Filter, requests: seq<Request>, batch: Batch, g: Groups)
    requires f.Valid() && LegalBatch(f, requests, batch) && Carry(requests, batch, g)
    ensures forall i | 0 <= i < |g.decode.slots| && g.decode.slots[i] != NULL ::
              DecodeRow(requests, batch, g.decode, i)
              && var s := g.decode.slots[i];
                 TurnOf(f, requests[s], batch[s]) == DecodeTurn(f, requests[s].row, g.decode.initial[i], g.decode.x[i])
    ensures forall i | 0 <= i < |g.prefill.slots| && g.prefill.slots[i] != NULL ::
              PrefillRow(requests, batch, g.prefill, i)
              && var s, h := g.prefill.slots[i], g.prefill;
                 TurnOf(f, requests[s], batch[s])
                 == PrefillTurn(f, requests[s].row, h.initial[i], Chunk(h.x, h.starts, i), h.width)
  {
  }

  // ----- whole runs over the cache -----

  /** Each forward pass carries the steps of its batch, for the requests as the passes before it left them. */
  ghost predicate CarryAll(f: Filter, requests: seq<Request>, batches: seq<Batch>, groups: seq<Groups>)
    requires f.Valid() && LegalBatches(f, requests, batches) && |groups| == |batches|
    decreases |batches|
  {
    batches != [] ==>
      && Carry(requests, batches[0], groups[0])
      && |groups[0].decode.initial| >= |groups[0].decode.slots|
         && |groups[0].prefill.initial| >= |groups[0].prefill.slots|
      && CarryAll(f, AfterBatch(f, requests, batches[0]), batches[1..], groups[1..])
  }

  ghost predicate OwnAll(f: Filter, requests: seq<Request>, batches: seq<Batch>, groups: seq<Groups>, outs: seq<Outs>)
    requires f.Valid() && LegalBatches(f, requests, batches) && |groups| == |batches| == |outs|
    requires CarryAll(f, requests, batches, groups)
    decreases |batches|
  {
    batches != [] ==>
      && AllOwn(f, requests, batches[0], groups[0], Rows(AfterBatch(f, requests, batches[0])), outs[0])
      && OwnAll(f, AfterBatch(f, requests, batches[0]), batches[1..], groups[1..], outs[1..])
  }

  /** Forward passes one after the other leave every slot where its request's own run leaves it. */
  method DispatchAll(cache: Cache, groups: seq<Groups>, ghost requests: seq<Request>, ghost batches: seq<Batch>)
    returns (outs: seq<Outs>)
    requires cache.Valid() && Held(cache, requests) && |groups| == |batches|
    requires forall k | 0 <= k < |groups| :: cache.GroupsFit(groups[k].spec, groups[k].decode, groups[k].prefill)
    requires LegalBatches(cache.filter, requests, batches) && CarryAll(cache.filter, requests, batches, groups)
    modifies cache.state
    ensures cache.Valid() && Held(cache, RunBatches(cache.filter, requests, batches))
    ensures |outs| == |groups| && OwnAll(cache.filter, requests, batches, groups, outs)
    decreases |groups|
  {
    outs := [];
    if groups != [] {
      var first := DispatchBatch(cache, groups[0], requests, batches[0]);
      var rest := DispatchAll(cache, groups[1..], AfterBatch(cache.filter, requests, batches[0]), batches[1..]);
      outs := [first] + rest;
      assert outs[1..] == rest;
    }
  }

  /** The outputs one slot's request gets for its accepted tokens, batch after batch. */
  ghost function SlotOutputs(f: Filter, requests: seq<Request>, batches: seq<Batch>, s: nat): seq<int>
    requires f.Valid() && LegalBatches(f, requests, batches) && s < |requests|
    decreases |batches|
  {
    if batches == [] then []
    else
      (if s in batches[0] then AcceptedOutputs(f, requests[s], batches[0][s]) else [])
      + SlotOutputs(f, AfterBatch(f, requests, batches[0]), batches[1..], s)
  }

  lemma {:induction false} SlotOutputsAreRunOutputs(f: Filter, requests: seq<Request>, batches: seq<Batch>, s: nat)
    requires f.Valid() && LegalBatches(f, requests, batches) && s < |requests| && f.StateLen() <= |requests[s].row|
    ensures LegalRun(f, requests[s], StepsOf(batches, s))
    ensures SlotOutputs(f, requests, batches, s) == RunOutputs(f, requests[s], StepsOf(batches, s))
    decreases |batches|
  {
    SlotsAreIndependent(f, requests, batches, s);
    if batches != [] {
      var next, rest := AfterBatch(f, requests, batches[0]), StepsOf(batches[1..], s);
      SlotOutputsAreRunOutputs(f, next, batches[1..], s);
      if s in batches[0] {
        assert ([batches[0][s]] + rest)[1..] == rest;
      } else {
        assert [] + rest == rest;
      }
    }
  }

  /**
   * Every request that begins in some slot of a shared cache, whatever the slot held before and
   * whatever other requests do in the same forward passes, gets the outputs of one causal
   * convolution over its accepted tokens, and leaves their window in its slot.
   */
  lemma EverySlotStreams(f: Filter, requests: seq<Request>, batches: seq<Batch>, s: nat)
    requires f.Valid() && LegalBatches(f, requests, batches) && s < |requests| && f.StateLen() <= |requests[s].row|
    requires requests[s].stream == [] && requests[s].accepted == 1
    ensures var inputs, final := AcceptedInputs(StepsOf(batches, s)), RunBatches(f, requests, batches)[s];
            && SlotOutputs(f, requests, batches, s) == seq(|inputs|, t => Causal(f, inputs, t))
            && final.stream == inputs && (inputs != [] ==> Holds(f, final.row, inputs, final.accepted))
  {
    SlotsAreIndependent(f, requests, batches, s);
    SlotOutputsAreRunOutputs(f, requests, batches, s);
    assert requests[s] == Request(requests[s].row, [], 1);
    StreamingEqualsOnePass(f, requests[s].row, StepsOf(batches, s));
  }
}
