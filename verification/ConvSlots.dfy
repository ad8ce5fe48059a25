/** What prefill, decode and speculative steps do to one request's cached state, and what they output. */
module ConvSlots {
  import opened Convolutions

  /** One request's turn: its outputs, and the row its cache slot is left with. */
  datatype Turn = Turn(outputs: seq<int>, row: seq<int>)

  /** Outputs over a history for the first `n` inputs after the window. */
  function Outputs(f: Filter, history: seq<int>, n: nat): (r: seq<int>)
    requires f.Valid() && n + f.StateLen() <= |history|
    ensures |r| == n && forall t | 0 <= t < n :: r[t] == Conv(f, history, t)
  {
    if n == 0 then [] else Outputs(f, history, n - 1) + [Conv(f, history, n - 1)]
  }

  function InitialWindow(f: Filter, row: seq<int>, hasInitial: bool): (w: seq<int>)
    requires f.Valid() && f.StateLen() <= |row|
    ensures |w| == f.StateLen()
  {
    if hasInitial then row[..f.StateLen()] else Zeros(f.StateLen())
  }

  function DecodeTurn(f: Filter, row: seq<int>, hasInitial: bool, x: int): (t: Turn)
    requires f.Valid() && f.StateLen() <= |row|
    ensures |t.row| == |row| && |t.outputs| == 1
  {
    var history := InitialWindow(f, row, hasInitial) + [x];
    Turn([Conv(f, history, 0)], history[1..] + row[f.StateLen()..])
  }

  /** A chunk of tokens, packed in a row of `width`; an empty one leaves the slot alone. */
  function PrefillTurn(f: Filter, row: seq<int>, hasInitial: bool, xs: seq<int>, width: nat): (t: Turn)
    requires f.Valid() && f.StateLen() <= |row| && |xs| <= width
    ensures |t.row| == |row| && |t.outputs| == |xs|
  {
    var n := f.StateLen();
    var history := InitialWindow(f, row, hasInitial) + xs + Zeros(width - |xs|);
    Turn(Outputs(f, history, |xs|), if xs == [] then row else history[|xs|..|xs| + n] + row[n..])
  }

  function Rollback(accepted: int, width: nat): (offset: nat)
    requires width > 0
    ensures offset < width
  {
    if accepted - 1 < 0 then 0 else if accepted - 1 > width - 1 then width - 1 else accepted - 1
  }

  /** The inputs before the candidates, after rolling back the last ones to those accepted. */
  function Lead(f: Filter, row: seq<int>, accepted: int, width: nat): (w: seq<int>)
    requires f.Valid() && width > 0 && Retains(f, row, width)
    ensures |w| == f.StateLen()
  {
    var back := Rollback(accepted, width);
    if f.StateLen() == 0 then [] else row[back..back + f.StateLen()]
  }

  /** The turn that continues from a window; all candidates stay in the slot. */
  function SpecFrom(f: Filter, row: seq<int>, lead: seq<int>, xs: seq<int>, width: nat): (t: Turn)
    requires f.Valid() && 1 <= |xs| <= width && Retains(f, row, width) && |lead| == f.StateLen()
    ensures |t.row| == |row| && |t.outputs| == |xs|
  {
    var n, history := f.StateLen(), lead + xs + Zeros(width - |xs|);
    Turn(Outputs(f, history, |xs|), if n == 0 then row else history[1..n + |xs|] + row[n + |xs| - 1..])
  }

  function SpecTurn(f: Filter, row: seq<int>, accepted: int, xs: seq<int>, width: nat): (t: Turn)
    requires f.Valid() && 1 <= |xs| <= width && Retains(f, row, width)
    ensures |t.row| == |row| && |t.outputs| == |xs|
  {
    SpecFrom(f, row, Lead(f, row, accepted, width), xs, width)
  }

  /** A slot with any state at all has room for the window and all but one of a row's candidates. */
  predicate Retains(f: Filter, row: seq<int>, width: nat)
    requires f.Valid()
  {
    f.StateLen() == 0 || f.StateLen() + width - 1 <= |row|
  }

  // ----- the window a slot holds -----

  /** The slot holds the stream's window, rolled back to the tokens accepted last. */
  ghost predicate Holds(f: Filter, row: seq<int>, stream: seq<int>, accepted: int)
    requires f.Valid()
  {
    && 1 <= accepted
    && (f.StateLen() == 0 || (&& accepted - 1 + f.StateLen() <= |row|
                              && row[accepted - 1..accepted - 1 + f.StateLen()] == Window(f, stream)))
  }

  /** Outputs of the one pass over the stream at the positions of `xs`, which follow it. */
  ghost predicate AreCausal(f: Filter, outputs: seq<int>, stream: seq<int>, xs: seq<int>)
    requires f.Valid()
  {
    && |outputs| == |xs|
    && forall t | 0 <= t < |xs| :: outputs[t] == Causal(f, stream + xs, |stream| + t)
  }

  lemma OutputsAreCausal(f: Filter, stream: seq<int>, xs: seq<int>, rest: seq<int>)
    requires f.Valid()
    ensures AreCausal(f, Outputs(f, Window(f, stream) + xs + rest, |xs|), stream, xs)
  {
    forall t | 0 <= t < |xs|
      ensures Conv(f, Window(f, stream) + xs + rest, t) == Causal(f, stream + xs, |stream| + t)
    {
      ContinuesCausally(f, stream, xs, rest, t);
    }
  }

  /** A slot can be continued from when it holds the window, or when there is nothing to continue. */
  ghost predicate Ready(f: Filter, row: seq<int>, stream: seq<int>, hasInitial: bool)
    requires f.Valid()
  {
    f.StateLen() <= |row| && if hasInitial then Holds(f, row, stream, 1) else stream == []
  }

  lemma WindowRead(f: Filter, row: seq<int>, stream: seq<int>, hasInitial: bool)
    requires f.Valid() && Ready(f, row, stream, hasInitial)
    ensures InitialWindow(f, row, hasInitial) == Window(f, stream)
  {
    EmptyWindow(f);
  }

  lemma DecodeContinues(f: Filter, row: seq<int>, stream: seq<int>, hasInitial: bool, x: int)
    requires f.Valid() && Ready(f, row, stream, hasInitial)
    ensures var t := DecodeTurn(f, row, hasInitial, x);
            t.outputs == [Causal(f, stream + [x], |stream|)] && Holds(f, t.row, stream + [x], 1)
  {
    WindowRead(f, row, stream, hasInitial);
    var n := f.StateLen();
    var history := Window(f, stream) + [x];
    assert history + [] == history;
    ContinuesCausally(f, stream, [x], [], 0);
    WindowMoves(f, stream, [x], [], 1);
    assert history[1..] == history[1..1 + n] && [x][..1] == [x];
    assert DecodeTurn(f, row, hasInitial, x).row[0..n] == history[1..];
  }

  lemma PrefillContinues(f: Filter, row: seq<int>, stream: seq<int>, hasInitial: bool, xs: seq<int>, width: nat)
    requires f.Valid() && Ready(f, row, stream, hasInitial) && |xs| <= width
    ensures var t := PrefillTurn(f, row, hasInitial, xs, width);
            && AreCausal(f, t.outputs, stream, xs)
            && (xs != [] ==> Holds(f, t.row, stream + xs, 1))
            && (xs == [] ==> t.row == row)
  {
    WindowRead(f, row, stream, hasInitial);
    var n, rest := f.StateLen(), Zeros(width - |xs|);
    OutputsAreCausal(f, stream, xs, rest);
    WindowMoves(f, stream, xs, rest, |xs|);
    assert xs[..|xs|] == xs;
    if xs != [] {
      var history := Window(f, stream) + xs + rest;
      assert PrefillTurn(f, row, hasInitial, xs, width).row[0..n] == history[|xs|..|xs| + n];
    }
  }

  /** Rolled back, a speculative step starts from the stream's window. */
  lemma LeadIsWindow(f: Filter, row: seq<int>, stream: seq<int>, accepted: int, width: nat)
    requires f.Valid() && Holds(f, row, stream, accepted) && accepted <= width && Retains(f, row, width)
    ensures Lead(f, row, accepted, width) == Window(f, stream)
  {
    hide Window;
  }

  /** Continuing from the window, the slot is left with the window up to any number of the candidates. */
  lemma SpecFromHolds(f: Filter, row: seq<int>, stream: seq<int>, xs: seq<int>, width: nat, next: nat)
    requires f.Valid() && 1 <= |xs| <= width && Retains(f, row, width) && 1 <= next <= |xs|
    ensures Holds(f, SpecFrom(f, row, Window(f, stream), xs, width).row, stream + xs[..next], next)
  {
    var n, rest := f.StateLen(), Zeros(width - |xs|);
    WindowMoves(f, stream, xs, rest, next);
    if n > 0 {
      ShiftedSlice(Window(f, stream) + xs + rest, n + |xs|, row[n + |xs| - 1..], next, n);
    }
    hide Outputs, Window, Zeros;
  }

  /** After a speculative step, whichever number of its tokens is accepted, the slot holds the window up to them. */
  lemma SpecContinues(f: Filter, row: seq<int>, stream: seq<int>, accepted: int, xs: seq<int>, width: nat, next: nat)
    requires f.Valid() && Holds(f, row, stream, accepted) && accepted <= width
    requires 1 <= |xs| <= width && Retains(f, row, width) && 1 <= next <= |xs|
    ensures var t := SpecTurn(f, row, accepted, xs, width);
            AreCausal(f, t.outputs, stream, xs) && Holds(f, t.row, stream + xs[..next], next)
  {
    LeadIsWindow(f, row, stream, accepted, width);
    SpecFromHolds(f, row, stream, xs, width, next);
    OutputsAreCausal(f, stream, xs, Zeros(width - |xs|));
    hide Outputs, AreCausal, Holds, Lead, Window, Zeros, Retains;
  }

  lemma ShiftedSlice(history: seq<int>, end: nat, rest: seq<int>, a: nat, n: nat)
    requires 1 <= a && a + n <= end <= |history|
    ensures (history[1..end] + rest)[a - 1..a - 1 + n] == history[a..a + n]
  {
    var row, slice := history[1..end] + rest, history[a..a + n];
    forall i | 0 <= i < n
      ensures row[a - 1..a - 1 + n][i] == slice[i]
    {
      assert row[a - 1 + i] == history[a + i];
    }
  }

  /** What lies in a slot behind the window, or behind the candidates of a speculative step, is never touched. */
  lemma RestOfSlotKept(f: Filter, row: seq<int>, hasInitial: bool, x: int, xs: seq<int>, accepted: int, width: nat)
    requires f.Valid() && f.StateLen() <= |row| && |xs| <= width
    ensures DecodeTurn(f, row, hasInitial, x).row[f.StateLen()..] == row[f.StateLen()..]
    ensures PrefillTurn(f, row, hasInitial, xs, width).row[f.StateLen()..] == row[f.StateLen()..]
    ensures 1 <= |xs| && Retains(f, row, width) && f.StateLen() > 0 ==>
              SpecTurn(f, row, accepted, xs, width).row[f.StateLen() + |xs| - 1..] == row[f.StateLen() + |xs| - 1..]
    ensures 1 <= |xs| && f.StateLen() == 0 ==> SpecTurn(f, row, accepted, xs, width).row == row
  {
    hide Outputs, InitialWindow, Lead;
  }
}
