/** Any mixture of prefill chunks, decodes and speculative steps streams the one causal convolution. */
module ConvRuns {
  import opened Convolutions
  import opened ConvSlots

  /** A step of one request; a speculative one with the number of its tokens that were then accepted. */
  datatype Step =
    | Prefill(chunk: seq<int>, width: nat)
    | Decode(x: int)
    | Speculate(candidates: seq<int>, width: nat, accepted: int)

  /** A request: its slot's row, its accepted inputs so far, and how many of them its last step brought. */
  datatype Request = Request(row: seq<int>, stream: seq<int>, accepted: int)

  /**
   * The scheduler's rules: chunks fit their row, a request is prefilled before it speculates, a
   * speculative step accepts at least one and at most all of its tokens, and a request whose last
   * step accepted several tokens at once goes on speculating.
   */
  ghost predicate Legal(f: Filter, r: Request, step: Step)
    requires f.Valid()
  {
    match step
    case Prefill(chunk, width) => |chunk| <= width && r.accepted == 1
    case Decode(x) => r.accepted == 1
    case Speculate(candidates, width, accepted) =>
      && r.stream != [] && 1 <= |candidates| <= width && 1 <= accepted <= |candidates|
      && r.accepted <= width && Retains(f, r.row, width)
  }

  ghost function TurnOf(f: Filter, r: Request, step: Step): Turn
    requires f.Valid() && f.StateLen() <= |r.row| && Legal(f, r, step)
  {
    match step
    case Prefill(chunk, width) => PrefillTurn(f, r.row, r.stream != [], chunk, width)
    case Decode(x) => DecodeTurn(f, r.row, r.stream != [], x)
    case Speculate(candidates, width, accepted) => SpecTurn(f, r.row, r.accepted, candidates, width)
  }

  /** The inputs a step adds to the request's stream. */
  function Accepted(step: Step): seq<int> {
    match step
    case Prefill(chunk, _) => chunk
    case Decode(x) => [x]
    case Speculate(candidates, _, accepted) =>
      if 0 <= accepted <= |candidates| then candidates[..accepted] else candidates
  }

  ghost function After(f: Filter, r: Request, step: Step): Request
    requires f.Valid() && f.StateLen() <= |r.row| && Legal(f, r, step)
  {
    Request(TurnOf(f, r, step).row, r.stream + Accepted(step), if step.Speculate? then step.accepted else 1)
  }

  /** The outputs of a step for the tokens accepted. */
  ghost function AcceptedOutputs(f: Filter, r: Request, step: Step): seq<int>
    requires f.Valid() && f.StateLen() <= |r.row| && Legal(f, r, step)
  {
    var outputs := TurnOf(f, r, step).outputs;
    if step.Speculate? then outputs[..step.accepted] else outputs
  }

  /** The slot holds the request's window once it has begun. */
  ghost predicate Streaming(f: Filter, r: Request)
    requires f.Valid()
  {
    && f.StateLen() <= |r.row|
    && (if r.stream == [] then r.accepted == 1 else Holds(f, r.row, r.stream, r.accepted))
  }

  lemma PrefillStreams(f: Filter, r: Request, step: Step)
    requires f.Valid() && Streaming(f, r) && Legal(f, r, step) && step.Prefill?
    ensures Streaming(f, After(f, r, step)) && AreCausal(f, AcceptedOutputs(f, r, step), r.stream, Accepted(step))
  {
    PrefillContinues(f, r.row, r.stream, r.stream != [], step.chunk, step.width);
    assert r.stream + [] == r.stream;
    hide PrefillTurn, Holds, AreCausal;
  }

  lemma DecodeStreams(f: Filter, r: Request, step: Step)
    requires f.Valid() && Streaming(f, r) && Legal(f, r, step) && step.Decode?
    ensures Streaming(f, After(f, r, step)) && AreCausal(f, AcceptedOutputs(f, r, step), r.stream, Accepted(step))
  {
    DecodeContinues(f, r.row, r.stream, r.stream != [], step.x);
    hide DecodeTurn, Holds;
  }

  lemma SpeculateStreams(f: Filter, r: Request, step: Step)
    requires f.Valid() && Streaming(f, r) && Legal(f, r, step) && step.Speculate?
    ensures Streaming(f, After(f, r, step)) && AreCausal(f, AcceptedOutputs(f, r, step), r.stream, Accepted(step))
  {
    SpecContinues(f, r.row, r.stream, r.accepted, step.candidates, step.width, step.accepted);
    hide SpecTurn, Holds;
    RejectedDoNotMatter(f, TurnOf(f, r, step).outputs, r.stream, step.candidates, step.accepted);
    hide AreCausal;
  }

  /** One step: the accepted tokens' outputs are causal, and the slot holds the new window. */
  lemma StepStreams(f: Filter, r: Request, step: Step)
    requires f.Valid() && Streaming(f, r) && Legal(f, r, step)
    ensures Streaming(f, After(f, r, step)) && AreCausal(f, AcceptedOutputs(f, r, step), r.stream, Accepted(step))
  {
    match step
    case Prefill(_, _) => PrefillStreams(f, r, step);
    case Decode(_) => DecodeStreams(f, r, step);
    case Speculate(_, _, _) => SpeculateStreams(f, r, step);
  }

  /** Outputs for the accepted tokens do not depend on the candidates after them. */
  lemma RejectedDoNotMatter(f: Filter, outputs: seq<int>, stream: seq<int>, xs: seq<int>, accepted: nat)
    requires f.Valid() && AreCausal(f, outputs, stream, xs) && accepted <= |xs|
    ensures AreCausal(f, outputs[..accepted], stream, xs[..accepted])
  {
    forall t | 0 <= t < accepted
      ensures outputs[t] == Causal(f, stream + xs[..accepted], |stream| + t)
    {
      assert (stream + xs[..accepted]) + xs[accepted..] == stream + xs;
      CausalIgnoresLater(f, stream + xs[..accepted], xs[accepted..], |stream| + t);
    }
  }

  // ----- whole runs -----

  ghost predicate LegalRun(f: Filter, r: Request, steps: seq<Step>)
    requires f.Valid() && f.StateLen() <= |r.row|
    decreases |steps|
  {
    steps != [] ==> Legal(f, r, steps[0]) && LegalRun(f, After(f, r, steps[0]), steps[1..])
  }

  ghost function Run(f: Filter, r: Request, steps: seq<Step>): Request
    requires f.Valid() && f.StateLen() <= |r.row| && LegalRun(f, r, steps)
    decreases |steps|
  {
    if steps == [] then r else Run(f, After(f, r, steps[0]), steps[1..])
  }

  ghost function RunOutputs(f: Filter, r: Request, steps: seq<Step>): seq<int>
    requires f.Valid() && f.StateLen() <= |r.row| && LegalRun(f, r, steps)
    decreases |steps|
  {
    if steps == [] then []
    else AcceptedOutputs(f, r, steps[0]) + RunOutputs(f, After(f, r, steps[0]), steps[1..])
  }

  function AcceptedInputs(steps: seq<Step>): seq<int> {
    if steps == [] then [] else Accepted(steps[0]) + AcceptedInputs(steps[1..])
  }

  lemma {:induction false} RunStreams(f: Filter, r: Request, steps: seq<Step>)
    requires f.Valid() && Streaming(f, r) && LegalRun(f, r, steps)
    ensures Run(f, r, steps).stream == r.stream + AcceptedInputs(steps)
    ensures Streaming(f, Run(f, r, steps))
    ensures AreCausal(f, RunOutputs(f, r, steps), r.stream, AcceptedInputs(steps))
    decreases |steps|
  {
    if steps == [] {
      assert r.stream + [] == r.stream;
    } else {
      StepStreams(f, r, steps[0]);
      RunStreams(f, After(f, r, steps[0]), steps[1..]);
      CausalJoins(f, AcceptedOutputs(f, r, steps[0]), RunOutputs(f, After(f, r, steps[0]), steps[1..]),
                  r.stream, Accepted(steps[0]), AcceptedInputs(steps[1..]));
    }
  }

  lemma CausalJoins(f: Filter, first: seq<int>, second: seq<int>, stream: seq<int>, xs: seq<int>, ys: seq<int>)
    requires f.Valid() && AreCausal(f, first, stream, xs) && AreCausal(f, second, stream + xs, ys)
    ensures AreCausal(f, first + second, stream, xs + ys) && stream + (xs + ys) == (stream + xs) + ys
  {
    var outputs := first + second;
    assert stream + (xs + ys) == (stream + xs) + ys;
    forall t | 0 <= t < |xs + ys|
      ensures outputs[t] == Causal(f, stream + (xs + ys), |stream| + t)
    {
      if t < |xs| {
        CausalIgnoresLater(f, stream + xs, ys, |stream| + t);
      }
    }
  }

  /**
   * Streaming equals one pass: from a slot with any contents, however a request's accepted tokens
   * were split into steps, its outputs are the zero-initialised causal convolution of all of them,
   * and what its slot holds for the next step is the window of the last accepted inputs.
   */
  lemma StreamingEqualsOnePass(f: Filter, row: seq<int>, steps: seq<Step>)
    requires f.Valid() && f.StateLen() <= |row| && LegalRun(f, Request(row, [], 1), steps)
    ensures var r, inputs := Run(f, Request(row, [], 1), steps), AcceptedInputs(steps);
            && r.stream == inputs
            && RunOutputs(f, Request(row, [], 1), steps) == seq(|inputs|, t => Causal(f, inputs, t))
            && (inputs != [] ==> Holds(f, r.row, inputs, r.accepted))
  {
    RunStreams(f, Request(row, [], 1), steps);
    assert [] + AcceptedInputs(steps) == AcceptedInputs(steps);
  }

  // ----- why a request that accepted several tokens goes on speculating -----

  /** What the inputs so far add to the next output. */
  ghost function Carried(f: Filter, stream: seq<int>): int
    requires f.Valid()
  {
    CausalTaps(f, stream, |stream|, |f.weights| - 1)
  }

  lemma {:induction false} LeadTapsIgnoreNext(f: Filter, stream: seq<int>, x: int, k: nat)
    requires f.Valid() && k < |f.weights|
    ensures CausalTaps(f, stream + [x], |stream|, k) == CausalTaps(f, stream, |stream|, k)
  {
    if k > 0 {
      LeadTapsIgnoreNext(f, stream, x, k - 1);
      NotNegative(|f.weights| - k - 1, f.dilation);
      Distribute(|f.weights|, k, f.dilation);
      Distribute(|f.weights| - k, 1, f.dilation);
      PastIgnoresLater(stream, [x], |stream| - (|f.weights| - k) * f.dilation);
      hide Past;
    }
  }

  lemma CausalSplits(f: Filter, stream: seq<int>, x: int)
    requires f.Valid()
    ensures Causal(f, stream + [x], |stream|) == Carried(f, stream) + f.weights[|f.weights| - 1] * x
  {
    LeadTapsIgnoreNext(f, stream, x, |f.weights| - 1);
    assert Past(stream + [x], |stream|) == x;
    hide Past;
  }

  /**
   * A decode straight after a speculative step continues from the first accepted token alone. So it
   * is right exactly when the tokens accepted after the first add nothing new to the next output.
   */
  lemma DecodeAfterSpeculation(f: Filter, row: seq<int>, stream: seq<int>, accepted: int, xs: seq<int>, width: nat,
                               next: nat, x: int)
    requires f.Valid() && Holds(f, row, stream, accepted) && accepted <= width && f.StateLen() <= |row|
    requires 1 <= |xs| <= width && Retains(f, row, width) && 1 <= next <= |xs|
    ensures var t, inputs := SpecTurn(f, row, accepted, xs, width), stream + xs[..next];
            (DecodeTurn(f, t.row, true, x).outputs == [Causal(f, inputs + [x], |inputs|)]
             <==> Carried(f, stream + xs[..1]) == Carried(f, inputs))
  {
    SpecContinues(f, row, stream, accepted, xs, width, 1);
    var t, first := SpecTurn(f, row, accepted, xs, width), stream + xs[..1];
    DecodeContinues(f, t.row, first, true, x);
    assert DecodeTurn(f, t.row, true, x).outputs == [Causal(f, first + [x], |first|)];
    hide *;
    NextDiffers(f, first, stream + xs[..next], x);
  }

  lemma NextDiffers(f: Filter, a: seq<int>, b: seq<int>, x: int)
    requires f.Valid()
    ensures [Causal(f, a + [x], |a|)] == [Causal(f, b + [x], |b|)] <==> Carried(f, a) == Carried(f, b)
  {
    CausalSplits(f, a, x);
    CausalSplits(f, b, x);
    hide *;
    assert [Causal(f, a + [x], |a|)][0] == Causal(f, a + [x], |a|);
  }

  /** It can be wrong: with two unit taps, after two accepted tokens that differ. */
  lemma DecodeAfterTwoAcceptedDiffers()
    ensures var f := Filter([1, 1], 1);
            var t := SpecTurn(f, [7, 0], 1, [10, 20], 2);
            && f.Valid() && Holds(f, [7, 0], [7], 1) && Holds(f, t.row, [7, 10, 20], 2)
            && DecodeTurn(f, t.row, true, 100).outputs != [Causal(f, [7, 10, 20, 100], 3)]
  {
    var f, row := Filter([1, 1], 1), [7, 0];
    assert Window(f, [7]) == [7] == row[0..1];
    SpecContinues(f, row, [7], 1, [10, 20], 2, 2);
    assert [7] + [10, 20][..2] == [7, 10, 20] && [7] + [10, 20][..1] == [7, 10];
    assert [7, 10, 20] + [100] == [7, 10, 20, 100];
    DecodeAfterSpeculation(f, row, [7], 1, [10, 20], 2, 2, 100);
    OneTap([7, 10]);
    OneTap([7, 10, 20]);
  }

  lemma OneTap(stream: seq<int>)
    requires stream != []
    ensures Carried(Filter([1, 1], 1), stream) == stream[|stream| - 1]
  {
    var f := Filter([1, 1], 1);
    assert CausalTaps(f, stream, |stream|, 1)
        == CausalTaps(f, stream, |stream|, 0) + f.weights[0] * Past(stream, |stream| - 1);
  }

  // ----- requests sharing a cache -----

  /** A batch: the step of each slot that takes part. */
  type Batch = map<nat, Step>

  ghost predicate LegalBatch(f: Filter, requests: seq<Request>, batch: Batch)
    requires f.Valid()
  {
    forall s | s in batch :: s < |requests| && f.StateLen() <= |requests[s].row| && Legal(f, requests[s], batch[s])
  }

  ghost function AfterBatch(f: Filter, requests: seq<Request>, batch: Batch): (next: seq<Request>)
    requires f.Valid() && LegalBatch(f, requests, batch)
    ensures |next| == |requests|
  {
    seq(|requests|, s requires 0 <= s < |requests| =>
      if s in batch then After(f, requests[s], batch[s]) else requests[s])
  }

  ghost predicate LegalBatches(f: Filter, requests: seq<Request>, batches: seq<Batch>)
    requires f.Valid()
    decreases |batches|
  {
    batches != [] ==>
      LegalBatch(f, requests, batches[0]) && LegalBatches(f, AfterBatch(f, requests, batches[0]), batches[1..])
  }

  ghost function RunBatches(f: Filter, requests: seq<Request>, batches: seq<Batch>): (final: seq<Request>)
    requires f.Valid() && LegalBatches(f, requests, batches)
    ensures |final| == |requests|
    decreases |batches|
  {
    if batches == [] then requests else RunBatches(f, AfterBatch(f, requests, batches[0]), batches[1..])
  }

  /** The steps one slot takes. */
  function StepsOf(batches: seq<Batch>, s: nat): seq<Step> {
    if batches == [] then []
    else (if s in batches[0] then [batches[0][s]] else []) + StepsOf(batches[1..], s)
  }

  /** What becomes of a slot depends on its own steps alone, whatever other slots do in the same batches. */
  lemma {:induction false} SlotsAreIndependent(f: Filter, requests: seq<Request>, batches: seq<Batch>, s: nat)
    requires f.Valid() && LegalBatches(f, requests, batches) && s < |requests| && f.StateLen() <= |requests[s].row|
    ensures LegalRun(f, requests[s], StepsOf(batches, s))
    ensures RunBatches(f, requests, batches)[s] == Run(f, requests[s], StepsOf(batches, s))
    decreases |batches|
  {
    if batches != [] {
      var next, rest := AfterBatch(f, requests, batches[0]), StepsOf(batches[1..], s);
      SlotsAreIndependent(f, next, batches[1..], s);
      if s in batches[0] {
        assert ([batches[0][s]] + rest)[1..] == rest;
      } else {
        assert [] + rest == rest;
      }
    }
  }
}
