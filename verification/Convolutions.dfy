/** A causal dilated convolution over a stream, and the window of inputs that lets it be continued. */
module Convolutions {

  /** One channel's weights, oldest input first, and the distance between the inputs they apply to. */
  datatype Filter = Filter(weights: seq<int>, dilation: nat) {
    ghost predicate Valid() {
      |weights| >= 1 && dilation >= 1
    }

    /** How many inputs before the current one an output depends on. */
    function StateLen(): nat
      requires |weights| >= 1
    {
      (|weights| - 1) * dilation
    }
  }

  // ----- the specification: one pass over the whole stream -----

  /** The input at a position, zero before the stream begins. */
  function Past(stream: seq<int>, i: int): int {
    if 0 <= i < |stream| then stream[i] else 0
  }

  ghost function CausalTaps(f: Filter, stream: seq<int>, t: int, k: nat): int
    requires f.Valid() && k <= |f.weights|
  {
    if k == 0 then 0
    else CausalTaps(f, stream, t, k - 1)
         + f.weights[k - 1] * Past(stream, t - (|f.weights| - k) * f.dilation)
  }

  /** The zero-initialised dilated causal convolution of a stream, at position `t`. */
  ghost function Causal(f: Filter, stream: seq<int>, t: int): int
    requires f.Valid()
  {
    CausalTaps(f, stream, t, |f.weights|)
  }

  // ----- the computation: a history of inputs, window first -----

  lemma Distribute(n: int, k: int, d: int)
    ensures (n - k) * d == n * d - k * d
  {
  }

  lemma NotNegative(k: int, d: int)
    requires k >= 0 && d >= 0
    ensures k * d >= 0
  {
  }

  lemma TapInside(f: Filter, k: nat)
    requires f.Valid() && k < |f.weights|
    ensures 0 <= k * f.dilation <= f.StateLen()
    ensures f.StateLen() - k * f.dilation == (|f.weights| - 1 - k) * f.dilation
  {
    Distribute(|f.weights| - 1, k, f.dilation);
    NotNegative(k, f.dilation);
    NotNegative(|f.weights| - 1 - k, f.dilation);
  }

  function Taps(f: Filter, history: seq<int>, t: nat, k: nat): int
    requires f.Valid() && k <= |f.weights| && t + f.StateLen() < |history|
  {
    if k == 0 then 0
    else
      TapInside(f, k - 1);
      Taps(f, history, t, k - 1) + f.weights[k - 1] * history[t + (k - 1) * f.dilation]
  }

  /** The `t`-th output over a history: the current input is `StateLen` places further on. */
  function Conv(f: Filter, history: seq<int>, t: nat): int
    requires f.Valid() && t + f.StateLen() < |history|
  {
    Taps(f, history, t, |f.weights|)
  }

  /** `n` inputs of a stream, from a position that may lie before its beginning. */
  function Inputs(stream: seq<int>, from: int, n: nat): (r: seq<int>)
    ensures |r| == n && forall i | 0 <= i < n :: r[i] == Past(stream, from + i)
  {
    seq(n, i => Past(stream, from + i))
  }

  lemma InputsSlice(stream: seq<int>, from: int, n: nat, a: nat, b: nat)
    requires a <= b <= n
    ensures Inputs(stream, from, n)[a..b] == Inputs(stream, from + a, b - a)
  {
  }

  /** One tap of a history is one tap of the specification. */
  lemma TapIsPast(f: Filter, history: seq<int>, t: nat, stream: seq<int>, p: int, k: nat)
    requires f.Valid() && k < |f.weights| && t + f.StateLen() < |history|
    requires history[t..t + f.StateLen() + 1] == Inputs(stream, p - f.StateLen(), f.StateLen() + 1)
    ensures 0 <= t + k * f.dilation < |history|
    ensures history[t + k * f.dilation] == Past(stream, p - (|f.weights| - 1 - k) * f.dilation)
  {
    TapInside(f, k);
    var i, n, lead := k * f.dilation, f.StateLen(), history[t..t + f.StateLen() + 1];
    hide *;
    assert lead[i] == history[t + i];
    assert lead[i] == Inputs(stream, p - n, n + 1)[i];
  }

  lemma {:induction false} TapsAreCausal(f: Filter, history: seq<int>, t: nat, stream: seq<int>, p: int, k: nat)
    requires f.Valid() && k <= |f.weights| && t + f.StateLen() < |history|
    requires history[t..t + f.StateLen() + 1] == Inputs(stream, p - f.StateLen(), f.StateLen() + 1)
    ensures Taps(f, history, t, k) == CausalTaps(f, stream, p, k)
  {
    if k > 0 {
      TapsAreCausal(f, history, t, stream, p, k - 1);
      TapIsPast(f, history, t, stream, p, k - 1);
      TapsStep(f, history, t, stream, p, k - 1);
    }
  }

  /** Both sums grow by one tap. */
  lemma TapsStep(f: Filter, history: seq<int>, t: nat, stream: seq<int>, p: int, k: nat)
    requires f.Valid() && k < |f.weights| && t + f.StateLen() < |history|
    requires 0 <= t + k * f.dilation < |history|
    ensures Taps(f, history, t, k + 1) == Taps(f, history, t, k) + f.weights[k] * history[t + k * f.dilation]
    ensures CausalTaps(f, stream, p, k + 1)
         == CausalTaps(f, stream, p, k) + f.weights[k] * Past(stream, p - (|f.weights| - 1 - k) * f.dilation)
  {
    hide Past;
  }

  // ----- windows -----

  function Zeros(n: nat): seq<int> {
    seq(n, _ => 0)
  }

  /** The last inputs of a stream, zeros standing for those before it began. */
  function Window(f: Filter, stream: seq<int>): (w: seq<int>)
    requires f.Valid()
    ensures |w| == f.StateLen()
  {
    Inputs(stream, |stream| - f.StateLen(), f.StateLen())
  }

  /** A window and the inputs after it are a stretch of the whole stream. */
  lemma HistoryIs(f: Filter, stream: seq<int>, xs: seq<int>)
    requires f.Valid()
    ensures Window(f, stream) + xs == Inputs(stream + xs, |stream| - f.StateLen(), f.StateLen() + |xs|)
  {
    var n := f.StateLen();
    var history, inputs := Window(f, stream) + xs, Inputs(stream + xs, |stream| - n, n + |xs|);
    forall i | 0 <= i < n + |xs|
      ensures history[i] == inputs[i]
    {
    }
  }

  /** Continuing from the window gives the outputs of the one pass. */
  lemma ContinuesCausally(f: Filter, stream: seq<int>, xs: seq<int>, rest: seq<int>, t: nat)
    requires f.Valid() && t < |xs|
    ensures Conv(f, Window(f, stream) + xs + rest, t) == Causal(f, stream + xs, |stream| + t)
  {
    var n, history := f.StateLen(), Window(f, stream) + xs + rest;
    HistoryIs(f, stream, xs);
    assert history[t..t + n + 1] == (Window(f, stream) + xs)[t..t + n + 1];
    InputsSlice(stream + xs, |stream| - n, n + |xs|, t, t + n + 1);
    TapsAreCausal(f, history, t, stream + xs, |stream| + t, |f.weights|);
  }

  /** `a` inputs on, the window has moved `a` places along the history. */
  lemma WindowMoves(f: Filter, stream: seq<int>, xs: seq<int>, rest: seq<int>, a: nat)
    requires f.Valid() && a <= |xs|
    ensures (Window(f, stream) + xs + rest)[a..a + f.StateLen()] == Window(f, stream + xs[..a])
  {
    var n, history := f.StateLen(), Window(f, stream) + xs + rest;
    HistoryIs(f, stream, xs[..a]);
    assert history[a..a + n] == (Window(f, stream) + xs[..a])[a..a + n];
    InputsSlice(stream + xs[..a], |stream| - n, n + a, a, a + n);
  }

  /** Nothing has come before an empty stream. */
  lemma EmptyWindow(f: Filter)
    requires f.Valid()
    ensures Window(f, []) == Zeros(f.StateLen())
  {
  }

  lemma {:induction false} TapsIgnoreLater(f: Filter, stream: seq<int>, later: seq<int>, t: int, k: nat)
    requires f.Valid() && t < |stream| && k <= |f.weights|
    ensures CausalTaps(f, stream + later, t, k) == CausalTaps(f, stream, t, k)
  {
    if k > 0 {
      TapsIgnoreLater(f, stream, later, t, k - 1);
      NotNegative(|f.weights| - k, f.dilation);
      PastIgnoresLater(stream, later, t - (|f.weights| - k) * f.dilation);
      hide Past;
      assert CausalTaps(f, stream + later, t, k) == CausalTaps(f, stream, t, k);
    }
  }

  lemma PastIgnoresLater(stream: seq<int>, later: seq<int>, i: int)
    requires i < |stream|
    ensures Past(stream + later, i) == Past(stream, i)
  {
  }

  /** Causality: an output does not depend on later inputs. */
  lemma CausalIgnoresLater(f: Filter, stream: seq<int>, later: seq<int>, t: int)
    requires f.Valid() && t < |stream|
    ensures Causal(f, stream + later, t) == Causal(f, stream, t)
  {
    TapsIgnoreLater(f, stream, later, t, |f.weights|);
  }

  // ----- what the specification is -----

  /** A stream that is zero but for one input. */
  function Impulse(n: nat, i: nat, x: int): (r: seq<int>)
    requires i < n
    ensures |r| == n && forall j | 0 <= j < n :: r[j] == if j == i then x else 0
  {
    Zeros(n)[i := x]
  }

  /** An input reaches an output through tap `k`, which is that many dilations back from the last. */
  ghost predicate Reaches(f: Filter, i: nat, t: int, k: nat)
    requires k < |f.weights|
  {
    t - i == (|f.weights| - 1 - k) * f.dilation
  }

  lemma OneTapReaches(f: Filter, i: nat, t: int, j: nat, k: nat)
    requires f.Valid() && j < k < |f.weights| && Reaches(f, i, t, k)
    ensures !Reaches(f, i, t, j)
  {
    var d := f.dilation;
    Distribute(|f.weights| - 1, j, d);
    Distribute(|f.weights| - 1, k, d);
    Distribute(k, j, d);
    assert (k - j) * d > 0 by {
      NotNegative(k - j - 1, d);
      assert (k - j) * d == (k - j - 1) * d + d;
    }
  }

  lemma {:induction false} TapsOfImpulse(f: Filter, n: nat, i: nat, x: int, t: int, j: nat)
    requires f.Valid() && i < n && j <= |f.weights|
    ensures forall k: nat | k < j && Reaches(f, i, t, k) :: CausalTaps(f, Impulse(n, i, x), t, j) == f.weights[k] * x
    ensures (forall k: nat | k < j :: !Reaches(f, i, t, k)) ==> CausalTaps(f, Impulse(n, i, x), t, j) == 0
  {
    if j > 0 {
      TapsOfImpulse(f, n, i, x, t, j - 1);
      forall k: nat | k < j - 1 && Reaches(f, i, t, k)
        ensures !Reaches(f, i, t, j - 1)
      {
        if Reaches(f, i, t, j - 1) {
          OneTapReaches(f, i, t, k, j - 1);
        }
      }
      TapOfImpulse(f, n, i, x, t, j - 1);
      hide Impulse, Reaches;
    }
  }

  lemma TapOfImpulse(f: Filter, n: nat, i: nat, x: int, t: int, k: nat)
    requires f.Valid() && i < n && k < |f.weights|
    ensures CausalTaps(f, Impulse(n, i, x), t, k + 1)
         == CausalTaps(f, Impulse(n, i, x), t, k) + if Reaches(f, i, t, k) then f.weights[k] * x else 0
  {
    var p := (|f.weights| - 1 - k) * f.dilation;
    assert CausalTaps(f, Impulse(n, i, x), t, k + 1)
        == CausalTaps(f, Impulse(n, i, x), t, k) + f.weights[k] * Past(Impulse(n, i, x), t - p);
    assert Past(Impulse(n, i, x), t - p) == if Reaches(f, i, t, k) then x else 0;
    hide *;
    TimesZero(f.weights[k]);
  }

  lemma TimesZero(w: int)
    ensures w * 0 == 0
  {
  }

  /** A single input comes out once through each tap, at that tap's distance, times its weight. */
  lemma CausalOfImpulse(f: Filter, n: nat, i: nat, x: int, t: int)
    requires f.Valid() && i < n
    ensures forall k: nat | k < |f.weights| && Reaches(f, i, t, k) :: Causal(f, Impulse(n, i, x), t) == f.weights[k] * x
    ensures (forall k: nat | k < |f.weights| :: !Reaches(f, i, t, k)) ==> Causal(f, Impulse(n, i, x), t) == 0
  {
    TapsOfImpulse(f, n, i, x, t, |f.weights|);
    hide CausalTaps, Reaches;
  }

  function Added(a: seq<int>, b: seq<int>): (r: seq<int>)
    requires |a| == |b|
    ensures |r| == |a| && forall i | 0 <= i < |a| :: r[i] == a[i] + b[i]
  {
    seq(|a|, i requires 0 <= i < |a| => a[i] + b[i])
  }

  lemma {:induction false} TapsAdd(f: Filter, a: seq<int>, b: seq<int>, t: int, k: nat)
    requires f.Valid() && |a| == |b| && k <= |f.weights|
    ensures CausalTaps(f, Added(a, b), t, k) == CausalTaps(f, a, t, k) + CausalTaps(f, b, t, k)
  {
    if k > 0 {
      TapsAdd(f, a, b, t, k - 1);
      var i, w := t - (|f.weights| - k) * f.dilation, f.weights[k - 1];
      assert Past(Added(a, b), i) == Past(a, i) + Past(b, i);
      hide Past;
      assert w * (Past(a, i) + Past(b, i)) == w * Past(a, i) + w * Past(b, i);
    }
  }

  /** Outputs of added streams add: with single inputs, this says what every output is. */
  lemma CausalAdds(f: Filter, a: seq<int>, b: seq<int>, t: int)
    requires f.Valid() && |a| == |b|
    ensures Causal(f, Added(a, b), t) == Causal(f, a, t) + Causal(f, b, t)
  {
    TapsAdd(f, a, b, t, |f.weights|);
  }
}
