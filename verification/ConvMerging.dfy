/** Taking a batch's tokens apart by kind, and putting the outputs back in the original order. */
module ConvMerging {

  /** The two index lists name every position of a batch, each once. */
  ghost predicate Splits(n: nat, first: seq<nat>, second: seq<nat>) {
    && |first| + |second| == n
    && (forall i | 0 <= i < |first| :: first[i] < n)
    && (forall i | 0 <= i < |second| :: second[i] < n)
    && (forall i, j | 0 <= i < j < |first| :: first[i] != first[j])
    && (forall i, j | 0 <= i < j < |second| :: second[i] != second[j])
    && (forall i, j | 0 <= i < |first| && 0 <= j < |second| :: first[i] != second[j])
  }

  function Gather(x: seq<int>, at: seq<nat>): (r: seq<int>)
    requires forall i | 0 <= i < |at| :: at[i] < |x|
    ensures |r| == |at| && forall i | 0 <= i < |r| :: r[i] == x[at[i]]
  {
    seq(|at|, i requires 0 <= i < |at| => x[at[i]])
  }

  /** Scatter outputs to the positions their tokens came from. */
  method CopyTo(out: array<int>, at: seq<nat>, ys: seq<int>)
    requires |at| == |ys| && forall i | 0 <= i < |at| :: at[i] < out.Length
    requires forall i, j | 0 <= i < j < |at| :: at[i] != at[j]
    modifies out
    ensures forall i | 0 <= i < |at| :: out[at[i]] == ys[i]
    ensures forall p | 0 <= p < out.Length && p !in at :: out[p] == old(out[p])
  {
    for k := 0 to |at|
      invariant forall i | 0 <= i < k :: out[at[i]] == ys[i]
      invariant forall p | 0 <= p < out.Length && p !in at :: out[p] == old(out[p])
    {
      var p := at[k];
      assert p in at;
      out[p] := ys[k];
    }
  }

  method Merge(n: nat, first: seq<nat>, ys: seq<int>, second: seq<nat>, zs: seq<int>) returns (out: seq<int>)
    requires Splits(n, first, second) && |ys| == |first| && |zs| == |second|
    ensures |out| == n
    ensures forall i | 0 <= i < |first| :: out[first[i]] == ys[i]
    ensures forall i | 0 <= i < |second| :: out[second[i]] == zs[i]
  {
    var a := new int[n];
    CopyTo(a, first, ys);
    forall i | 0 <= i < |first|
      ensures first[i] !in second
    {
    }
    CopyTo(a, second, zs);
    return a[..];
  }

  // ----- nothing is left over -----

  function Positions(at: seq<nat>): set<nat> {
    set p | p in at
  }

  lemma {:induction false} PositionsSize(at: seq<nat>)
    requires forall i, j | 0 <= i < j < |at| :: at[i] != at[j]
    ensures |Positions(at)| == |at|
  {
    if at != [] {
      var front, last := at[..|at| - 1], at[|at| - 1];
      PositionsSize(front);
      assert at == front + [last] && last !in front;
      assert Positions(at) == Positions(front) + {last};
    }
  }

  lemma {:induction false} BelowSize(s: set<nat>, n: nat)
    requires forall p | p in s :: p < n
    ensures |s| <= n
    ensures |s| == n ==> forall p: nat | p < n :: p in s
  {
    if n > 0 {
      BelowSize(s - {n - 1}, n - 1);
    } else {
      assert s == {};
    }
  }

  /** Every position is listed. */
  lemma SplitsCover(n: nat, first: seq<nat>, second: seq<nat>, p: nat)
    requires Splits(n, first, second) && p < n
    ensures p in first || p in second
  {
    var all := first + second;
    PositionsSize(all);
    BelowSize(Positions(all), n);
    assert p in Positions(all);
  }

  /** Taking a batch apart and putting it together changes nothing, so each output lands on its own token. */
  lemma MergeUndoesSplit(x: seq<int>, first: seq<nat>, second: seq<nat>, out: seq<int>)
    requires Splits(|x|, first, second) && |out| == |x|
    requires forall i | 0 <= i < |first| :: out[first[i]] == Gather(x, first)[i]
    requires forall i | 0 <= i < |second| :: out[second[i]] == Gather(x, second)[i]
    ensures out == x
  {
    forall p: nat | p < |x|
      ensures out[p] == x[p]
    {
      SplitsCover(|x|, first, second, p);
      if p in first {
        var i :| 0 <= i < |first| && first[i] == p;
        assert out[first[i]] == x[p];
      } else {
        var i :| 0 <= i < |second| && second[i] == p;
        assert out[second[i]] == x[p];
      }
    }
  }
}
