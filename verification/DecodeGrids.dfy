/** Flat decode tokens of several requests, grouped into one padded row for each request. */
module DecodeGrids {

  // ----- where each token goes -----

  /** Tokens in the first requests. */
  function Total(lens: seq<nat>): nat {
    if lens == [] then 0 else Total(lens[..|lens| - 1]) + lens[|lens| - 1]
  }

  /** Each value as often as its request has tokens. */
  function RepeatInterleave(values: seq<nat>, lens: seq<nat>): (r: seq<nat>)
    requires |values| == |lens|
    ensures |r| == Total(lens)
  {
    if lens == [] then []
    else
      var n := |lens| - 1;
      RepeatInterleave(values[..n], lens[..n]) + seq(lens[n], _ => values[n])
  }

  /** Where each request's tokens begin: the running sums, without the last. */
  function Starts(lens: seq<nat>): (r: seq<nat>)
    ensures |r| == |lens| && forall b | 0 <= b < |r| :: r[b] == Total(lens[..b])
  {
    seq(|lens|, b requires 0 <= b < |lens| => Total(lens[..b]))
  }

  function Numbers(n: nat): (r: seq<nat>)
    ensures |r| == n && forall i | 0 <= i < n :: r[i] == i
  {
    seq(n, i => i)
  }

  /** The request of every token. */
  function Requests(lens: seq<nat>): (r: seq<nat>)
    ensures |r| == Total(lens)
  {
    RepeatInterleave(Numbers(|lens|), lens)
  }

  /** The place of every token among its request's: its position less where the request begins. */
  function Places(lens: seq<nat>): (r: seq<int>)
    ensures |r| == Total(lens)
  {
    var starts := RepeatInterleave(Starts(lens), lens);
    seq(|starts|, p requires 0 <= p < |starts| => p - starts[p])
  }

  /** A repeated value comes from the request whose tokens surround the position. */
  lemma {:induction false} RepeatedFrom(values: seq<nat>, lens: seq<nat>, p: nat) returns (b: nat)
    requires |values| == |lens| && p < Total(lens)
    ensures b < |lens| && Total(lens[..b]) <= p < Total(lens[..b]) + lens[b]
    ensures RepeatInterleave(values, lens)[p] == values[b]
  {
    var n := |lens| - 1;
    if p < Total(lens[..n]) {
      b := RepeatedFrom(values[..n], lens[..n], p);
      assert lens[..n][..b] == lens[..b];
    } else {
      b := n;
    }
  }

  lemma {:induction false} TotalGrows(lens: seq<nat>, a: nat, b: nat)
    requires a < b <= |lens|
    ensures Total(lens[..a]) + lens[a] <= Total(lens[..b])
    decreases b
  {
    assert lens[..b][..b - 1] == lens[..b - 1];
    if a < b - 1 {
      TotalGrows(lens, a, b - 1);
    }
  }

  /** No two requests share a position. */
  lemma OneRequest(lens: seq<nat>, p: nat, a: nat, b: nat)
    requires a < |lens| && b < |lens|
    requires Total(lens[..a]) <= p < Total(lens[..a]) + lens[a]
    requires Total(lens[..b]) <= p < Total(lens[..b]) + lens[b]
    ensures a == b
  {
    hide Total;
    if a < b {
      TotalGrows(lens, a, b);
    } else if b < a {
      TotalGrows(lens, b, a);
    }
  }

  lemma RepeatedAt(values: seq<nat>, lens: seq<nat>, p: nat, b: nat)
    requires |values| == |lens| && b < |lens| && Total(lens[..b]) <= p < Total(lens[..b]) + lens[b]
    ensures p < Total(lens) && RepeatInterleave(values, lens)[p] == values[b]
  {
    hide Total, RepeatInterleave;
    TotalGrows(lens, b, |lens|);
    assert lens[..|lens|] == lens;
    var a := RepeatedFrom(values, lens, p);
    OneRequest(lens, p, a, b);
  }

  /** Every token has a place of its own request, as far in as it is among the request's tokens. */
  lemma PlacedInOwnRow(lens: seq<nat>, p: nat)
    requires p < Total(lens)
    ensures Requests(lens)[p] < |lens| && 0 <= Places(lens)[p] < lens[Requests(lens)[p]]
    ensures p == Starts(lens)[Requests(lens)[p]] + Places(lens)[p]
  {
    hide Total, RepeatInterleave;
    var b := RepeatedFrom(Starts(lens), lens, p);
    RepeatedAt(Numbers(|lens|), lens, p, b);
  }

  /** And every such place is some token's: the indices are a bijection. */
  lemma PlaceIsTaken(lens: seq<nat>, b: nat, t: nat)
    requires b < |lens| && t < lens[b]
    ensures var p := Starts(lens)[b] + t;
            p < Total(lens) && Requests(lens)[p] == b && Places(lens)[p] == t
  {
    hide Total, RepeatInterleave;
    var p := Starts(lens)[b] + t;
    RepeatedAt(Numbers(|lens|), lens, p, b);
    RepeatedAt(Starts(lens), lens, p, b);
  }

  // ----- the padded grid -----

  /** What a place holds when the tokens before `end` have been scattered. */
  function Scattered<T>(tokens: seq<T>, pad: T, lens: seq<nat>, b: nat, t: nat, end: nat): T
    requires b < |lens|
  {
    var p := Starts(lens)[b] + t;
    if t < lens[b] && p < end && p < |tokens| then tokens[p] else pad
  }

  predicate GoesTo(lens: seq<nat>, p: nat, b: nat, t: nat)
    requires p < Total(lens)
  {
    Requests(lens)[p] == b && Places(lens)[p] == t
  }

  lemma ScatteredStep<T>(tokens: seq<T>, pad: T, lens: seq<nat>, b: nat, t: nat, p: nat)
    requires b < |lens| && p < |tokens| == Total(lens)
    ensures Scattered(tokens, pad, lens, b, t, p + 1)
         == if GoesTo(lens, p, b, t) then tokens[p] else Scattered(tokens, pad, lens, b, t, p)
  {
    PlacedInOwnRow(lens, p);
    if t < lens[b] {
      PlaceIsTaken(lens, b, t);
    }
    hide Total, Requests, Places, Starts;
  }

  ghost predicate Filled<T>(grid: array2<T>, tokens: seq<T>, pad: T, lens: seq<nat>, end: nat)
    requires grid.Length0 == |lens|
    reads grid
  {
    forall b, t | 0 <= b < |lens| && 0 <= t < grid.Length1 :: grid[b, t] == Scattered(tokens, pad, lens, b, t, end)
  }

  lemma ScatteredSteps<T>(tokens: seq<T>, pad: T, lens: seq<nat>, width: nat, p: nat)
    requires p < |tokens| == Total(lens) && forall b | 0 <= b < |lens| :: lens[b] <= width
    ensures 0 <= Requests(lens)[p] < |lens| && 0 <= Places(lens)[p] < width
    ensures forall b, t: nat | 0 <= b < |lens| ::
              Scattered(tokens, pad, lens, b, t, p + 1)
              == if GoesTo(lens, p, b, t) then tokens[p] else Scattered(tokens, pad, lens, b, t, p)
  {
    hide *;
    PlacedInOwnRow(lens, p);
    forall b, t: nat | 0 <= b < |lens|
      ensures Scattered(tokens, pad, lens, b, t, p + 1)
           == if GoesTo(lens, p, b, t) then tokens[p] else Scattered(tokens, pad, lens, b, t, p)
    {
      ScatteredStep(tokens, pad, lens, b, t, p);
    }
  }

  lemma NothingScattered<T>(tokens: seq<T>, pad: T, lens: seq<nat>)
    ensures forall b, t: nat | 0 <= b < |lens| :: Scattered(tokens, pad, lens, b, t, 0) == pad
  {
  }

  lemma AllScattered<T>(tokens: seq<T>, pad: T, lens: seq<nat>, b: nat, t: nat)
    requires |tokens| == Total(lens) && b < |lens|
    ensures Starts(lens)[b] + lens[b] <= |tokens|
    ensures Scattered(tokens, pad, lens, b, t, |tokens|) == if t < lens[b] then tokens[Starts(lens)[b] + t] else pad
  {
    TotalGrows(lens, b, |lens|);
    assert lens[..|lens|] == lens;
    hide Total;
  }

  /** Each request's tokens in order at the head of its row, and padding after them. */
  ghost predicate PaddedRows<T>(grid: array2<T>, tokens: seq<T>, pad: T, lens: seq<nat>)
    reads grid
  {
    && grid.Length0 == |lens|
    && (forall b | 0 <= b < |lens| :: Starts(lens)[b] + lens[b] <= |tokens|)
    && forall b, t | 0 <= b < |lens| && 0 <= t < grid.Length1 ::
         grid[b, t] == if t < lens[b] then tokens[Starts(lens)[b] + t] else pad
  }

  /** Reading every token's place back gives the tokens. */
  lemma UnpaddingReturns<T>(grid: array2<T>, tokens: seq<T>, pad: T, lens: seq<nat>, p: nat)
    requires |tokens| == Total(lens) && PaddedRows(grid, tokens, pad, lens) && p < |tokens|
    requires forall b | 0 <= b < |lens| :: lens[b] <= grid.Length1
    ensures 0 <= Requests(lens)[p] < grid.Length0 && 0 <= Places(lens)[p] < grid.Length1
    ensures grid[Requests(lens)[p], Places(lens)[p]] == tokens[p]
  {
    hide Total, Requests, Places, Starts;
    PlacedInOwnRow(lens, p);
  }

  method Scatter<T>(tokens: seq<T>, pad: T, lens: seq<nat>, width: nat) returns (grid: array2<T>)
    requires |tokens| == Total(lens) && forall b | 0 <= b < |lens| :: lens[b] <= width
    ensures fresh(grid) && grid.Length1 == width && PaddedRows(grid, tokens, pad, lens)
  {
    hide Requests, Places, Scattered, Total, Starts;
    var requests, places := Requests(lens), Places(lens);
    grid := new T[|lens|, width]((_, _) => pad);
    NothingScattered(tokens, pad, lens);
    for p := 0 to |tokens|
      invariant grid.Length0 == |lens| && grid.Length1 == width && fresh(grid)
      invariant Filled(grid, tokens, pad, lens, p)
    {
      ScatteredSteps(tokens, pad, lens, width, p);
      grid[requests[p], places[p]] := tokens[p];
    }
    forall b | 0 <= b < |lens|
      ensures Starts(lens)[b] + lens[b] <= |tokens|
    {
      AllScattered(tokens, pad, lens, b, 0);
    }
    forall b, t: nat | 0 <= b < |lens|
      ensures Scattered(tokens, pad, lens, b, t, |tokens|) == if t < lens[b] then tokens[Starts(lens)[b] + t] else pad
    {
      AllScattered(tokens, pad, lens, b, t);
    }
  }

  // ----- rows end to end -----

  /** The flat position of a place in a grid of rows of this width. */
  function Place(b: nat, t: nat, width: nat): nat {
    b * width + t
  }

  lemma PlaceSteps(b: nat, t: nat, width: nat)
    ensures Place(0, 0, width) == 0 && Place(b, width, width) == Place(b + 1, 0, width)
    ensures Place(b, t + 1, width) == Place(b, t, width) + 1
  {
  }

  /** The places before the `t`-th of row `b` are in the flat list. */
  ghost predicate Flattened<T>(flat: seq<T>, grid: array2<T>, b: nat, t: nat)
    requires b <= grid.Length0 && t <= grid.Length1 && (b == grid.Length0 ==> t == 0)
    reads grid
  {
    forall a: nat, u: nat | (a < b && u < grid.Length1) || (a == b && u < t) ::
      Place(a, u, grid.Length1) < |flat| && flat[Place(a, u, grid.Length1)] == grid[a, u]
  }

  lemma FlattenedStep<T>(flat: seq<T>, grid: array2<T>, b: nat, t: nat)
    requires b < grid.Length0 && t < grid.Length1 && |flat| == Place(b, t, grid.Length1) && Flattened(flat, grid, b, t)
    ensures Flattened(flat + [grid[b, t]], grid, b, t + 1)
  {
    hide Place;
  }

  method Flatten<T>(grid: array2<T>) returns (flat: seq<T>)
    ensures |flat| == Place(grid.Length0, 0, grid.Length1)
    ensures Flattened(flat, grid, grid.Length0, 0)
  {
    hide Place;
    flat := [];
    PlaceSteps(0, 0, grid.Length1);
    for b := 0 to grid.Length0
      invariant |flat| == Place(b, 0, grid.Length1) && Flattened(flat, grid, b, 0)
    {
      PlaceSteps(b, 0, grid.Length1);
      for t := 0 to grid.Length1
        invariant |flat| == Place(b, t, grid.Length1) && Flattened(flat, grid, b, t)
      {
        PlaceSteps(b, t, grid.Length1);
        FlattenedStep(flat, grid, b, t);
        flat := flat + [grid[b, t]];
      }
    }
  }

  // ----- sequence lengths -----

  function OneMore(xs: seq<int>): (r: seq<int>)
    ensures |r| == |xs| && forall i | 0 <= i < |r| :: r[i] == xs[i] + 1
  {
    seq(|xs|, i requires 0 <= i < |xs| => xs[i] + 1)
  }

  /**
   * The length of its sequence for every place of the padded grid: that up to a decode token, the
   * token included, and zero for padding. Without padding, simply the first positions' lengths.
   */
  method SequenceLengths(positions: seq<int>, lens: seq<nat>, width: nat, padded: bool) returns (r: seq<int>)
    requires Total(lens) <= |positions| && (padded ==> forall b | 0 <= b < |lens| :: lens[b] <= width)
    ensures padded ==> |r| == Place(|lens|, 0, width)
    ensures padded ==> forall b: nat, t: nat | b < |lens| && t < width ::
              && Place(b, t, width) < |r| && Starts(lens)[b] + lens[b] <= |positions|
              && r[Place(b, t, width)] == if t < lens[b] then positions[Starts(lens)[b] + t] + 1 else 0
    ensures !padded ==> |r| == if Place(|lens|, 0, width) <= |positions| then Place(|lens|, 0, width) else |positions|
    ensures !padded ==> forall i | 0 <= i < |r| :: r[i] == positions[i] + 1
  {
    hide Place, Total, Starts;
    var n := Place(|lens|, 0, width);
    if !padded {
      return OneMore(positions[..if n <= |positions| then n else |positions|]);
    }
    var grid := Scatter(positions[..Total(lens)], -1, lens, width);
    var flat := Flatten(grid);
    r := OneMore(flat);
  }

  // ----- when rows end to end are the flat tokens -----

  /** Every token is in the flat list where the grid has it. */
  ghost predicate GridIsFlat(lens: seq<nat>, width: nat) {
    forall b, t | 0 <= b < |lens| && 0 <= t < lens[b] :: Place(b, t, width) == Starts(lens)[b] + t
  }

  /** Every request before one with tokens fills its row. */
  predicate FullBefore(lens: seq<nat>, width: nat) {
    forall a, b | 0 <= a < b < |lens| && lens[b] > 0 :: lens[a] == width
  }

  lemma {:induction false} FullPrefix(lens: seq<nat>, width: nat, b: nat)
    requires b <= |lens| && forall a | 0 <= a < |lens| :: lens[a] <= width
    ensures Total(lens[..b]) <= Place(b, 0, width)
    ensures Total(lens[..b]) == Place(b, 0, width) <==> forall a | 0 <= a < b :: lens[a] == width
  {
    if b > 0 {
      FullPrefix(lens, width, b - 1);
      PlaceSteps(b - 1, 0, width);
      assert lens[..b][..b - 1] == lens[..b - 1];
      assert Place(b, 0, width) == Place(b - 1, 0, width) + width;
    }
    hide Place;
  }

  /** Taking the first positions without padding is right exactly when only trailing rows are short. */
  lemma FlatExactlyWhenFull(lens: seq<nat>, width: nat)
    requires forall b | 0 <= b < |lens| :: lens[b] <= width
    ensures GridIsFlat(lens, width) <==> FullBefore(lens, width)
  {
    hide Total;
    if GridIsFlat(lens, width) {
      forall a, b | 0 <= a < b < |lens| && lens[b] > 0
        ensures lens[a] == width
      {
        FullPrefix(lens, width, b);
        assert Place(b, 0, width) == Starts(lens)[b] + 0;
      }
    }
    if FullBefore(lens, width) {
      forall b, t | 0 <= b < |lens| && 0 <= t < lens[b]
        ensures Place(b, t, width) == Starts(lens)[b] + t
      {
        FullPrefix(lens, width, b);
      }
    }
  }

  /** On a uniform batch the rows end to end are the tokens themselves, so a reshape does for the scatter. */
  lemma UniformIsReshape<T>(flat: seq<T>, grid: array2<T>, tokens: seq<T>, pad: T, lens: seq<nat>)
    requires |tokens| == Total(lens) && PaddedRows(grid, tokens, pad, lens)
    requires forall b | 0 <= b < |lens| :: lens[b] == grid.Length1
    requires |flat| == Place(grid.Length0, 0, grid.Length1) && Flattened(flat, grid, grid.Length0, 0)
    ensures flat == tokens
  {
    hide Total, Requests, Places, Place;
    var width := grid.Length1;
    FullPrefix(lens, width, |lens|);
    assert lens[..|lens|] == lens;
    FlatExactlyWhenFull(lens, width);
    forall p | 0 <= p < |tokens|
      ensures flat[p] == tokens[p]
    {
      PlacedInOwnRow(lens, p);
      UnpaddingReturns(grid, tokens, pad, lens, p);
      var b, t := Requests(lens)[p], Places(lens)[p];
      assert Place(b, t, width) == p;
    }
  }
}
