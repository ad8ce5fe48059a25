/** Cache budgets shared by ranks with different page sizes, and whether each host can hold them. */
module Capacity {

  // ----- division rounded up -----

  function CeilDiv(a: int, b: int): int
    requires b > 0
  {
    (a + b - 1) / b
  }

  lemma MulMonotone(x: int, y: int, k: int)
    requires x <= y && k >= 0
    ensures x * k <= y * k
  {
  }

  /** The least number of parts of size `b` that cover `a`. */
  lemma CeilDivIsLeast(a: int, b: int, n: int)
    requires b > 0
    ensures a <= CeilDiv(a, b) * b < a + b
    ensures n >= CeilDiv(a, b) <==> n * b >= a
  {
    var c := CeilDiv(a, b);
    assert (a + b - 1) == b * ((a + b - 1) / b) + (a + b - 1) % b;
    assert c * b == b * c;
    if n >= c {
      MulMonotone(c, n, b);
    } else {
      MulMonotone(n, c - 1, b);
      assert (c - 1) * b == c * b - b;
    }
  }

  /** The most whole parts of size `b` in `a`. */
  lemma FloorDivIsMost(a: int, b: int, n: int)
    requires b > 0
    ensures n <= a / b <==> n * b <= a
  {
    var q := a / b;
    assert a == b * q + a % b && q * b == b * q;
    if n <= q {
      MulMonotone(n, q, b);
    } else {
      MulMonotone(q + 1, n, b);
      assert (q + 1) * b == q * b + b;
    }
  }

  lemma CeilDivMonotone(a: int, a': int, b: int)
    requires b > 0 && a <= a'
    ensures CeilDiv(a, b) <= CeilDiv(a', b)
  {
    CeilDivIsLeast(a', b, 0);
    CeilDivIsLeast(a, b, CeilDiv(a', b));
  }

  function Max(s: seq<int>): (m: int)
    requires s != []
    ensures m in s && forall i | 0 <= i < |s| :: s[i] <= m
  {
    if |s| == 1 then s[0]
    else
      var m := Max(s[..|s| - 1]);
      if s[|s| - 1] > m then s[|s| - 1] else m
  }

  function Min(s: seq<int>): (m: int)
    requires s != []
    ensures m in s && forall i | 0 <= i < |s| :: m <= s[i]
  {
    if |s| == 1 then s[0]
    else
      var m := Min(s[..|s| - 1]);
      if s[|s| - 1] < m then s[|s| - 1] else m
  }

  // ----- one rank's cache -----

  /** A group of attention layers: how many, and how many tokens a block of theirs holds. */
  type Group = (int, int)

  datatype Model = Model(poolBytes: int, context: int, minimumContext: int, full: seq<Group>, residual: int,
                         slack: int) {
    predicate Valid() {
      && poolBytes > 0 && 1 <= minimumContext && residual >= 0 && slack >= 1
      && forall i | 0 <= i < |full| :: full[i].0 > 0 && full[i].1 > 0
    }
  }

  predicate GroupsValid(groups: seq<Group>) {
    forall i | 0 <= i < |groups| :: groups[i].0 > 0 && groups[i].1 > 0
  }

  function FullBlocks(groups: seq<Group>, context: int): int
    requires GroupsValid(groups)
  {
    if groups == [] then 0
    else
      var g := groups[|groups| - 1];
      FullBlocks(groups[..|groups| - 1], context) + g.0 * CeilDiv(context, g.1)
  }

  function TotalBlocks(m: Model, context: int, sequences: int): int
    requires m.Valid()
  {
    sequences * (m.residual + FullBlocks(m.full, context) + m.slack - 1) + 1
  }

  /** The cache bytes that `sequences` requests of this context need; callers check the profiled bounds. */
  function KvBytes(m: Model, context: int, sequences: int): int
    requires m.Valid()
  {
    TotalBlocks(m, context, sequences) * m.poolBytes
  }

  lemma {:induction false} FullBlocksGrow(groups: seq<Group>, context: int, context': int)
    requires GroupsValid(groups) && context <= context'
    ensures FullBlocks(groups, context) <= FullBlocks(groups, context')
  {
    if groups != [] {
      var g := groups[|groups| - 1];
      FullBlocksGrow(groups[..|groups| - 1], context, context');
      CeilDivMonotone(context, context', g.1);
      MulMonotone(CeilDiv(context, g.1), CeilDiv(context', g.1), g.0);
      assert g.0 * CeilDiv(context, g.1) == CeilDiv(context, g.1) * g.0;
      assert g.0 * CeilDiv(context', g.1) == CeilDiv(context', g.1) * g.0;
    }
  }

  lemma KvBytesGrow(m: Model, context: int, context': int)
    requires m.Valid() && context <= context'
    ensures KvBytes(m, context, 1) <= KvBytes(m, context', 1)
  {
    FullBlocksGrow(m.full, context, context');
    MulMonotone(TotalBlocks(m, context, 1), TotalBlocks(m, context', 1), m.poolBytes);
  }

  // ----- one budget for every rank -----

  function Blocks(pools: seq<int>, demands: seq<int>): (blocks: seq<int>)
    requires |pools| == |demands| && forall i | 0 <= i < |pools| :: pools[i] > 0
    ensures |blocks| == |pools| && forall i | 0 <= i < |pools| :: blocks[i] == CeilDiv(demands[i], pools[i])
  {
    seq(|pools|, i requires 0 <= i < |pools| => CeilDiv(demands[i], pools[i]))
  }

  function SharedBudget(pools: seq<int>, demands: seq<int>): int
    requires |pools| == |demands| > 0 && forall i | 0 <= i < |pools| :: pools[i] > 0
  {
    Max(Blocks(pools, demands)) * Max(pools)
  }

  /** With `budget` bytes, every rank holds at least as many whole blocks as the largest demand anywhere takes. */
  ghost predicate Serves(pools: seq<int>, demands: seq<int>, budget: int)
    requires |pools| == |demands| && forall i | 0 <= i < |pools| :: pools[i] > 0
  {
    forall i, j | 0 <= i < |pools| && 0 <= j < |pools| :: (budget / pools[i]) * pools[j] >= demands[j]
  }

  /** The shared budget is the least one byte value that serves every rank. */
  lemma SharedBudgetIsLeast(pools: seq<int>, demands: seq<int>, budget: int)
    requires |pools| == |demands| > 0 && forall i | 0 <= i < |pools| :: pools[i] > 0
    requires forall i | 0 <= i < |demands| :: demands[i] >= 0
    ensures Serves(pools, demands, budget) <==> budget >= SharedBudget(pools, demands)
  {
    var most, largest := Max(Blocks(pools, demands)), Max(pools);
    var top :| 0 <= top < |pools| && Blocks(pools, demands)[top] == most;
    var wide :| 0 <= wide < |pools| && pools[wide] == largest;
    CeilDivIsLeast(demands[top], pools[top], budget / largest);
    FloorDivIsMost(budget, largest, most);
    if Serves(pools, demands, budget) {
      assert (budget / pools[wide]) * pools[top] >= demands[top];
    }
    if budget >= most * largest {
      forall i, j | 0 <= i < |pools| && 0 <= j < |pools|
        ensures (budget / pools[i]) * pools[j] >= demands[j]
      {
        BlocksServe(pools, demands, budget, most, largest, i, j);
      }
    }
  }

  lemma BlocksServe(pools: seq<int>, demands: seq<int>, budget: int, most: int, largest: int, i: nat, j: nat)
    requires |pools| == |demands| && i < |pools| && j < |pools|
             && forall k | 0 <= k < |pools| :: 0 < pools[k] <= largest
    requires CeilDiv(demands[j], pools[j]) <= most && demands[j] >= 0 && budget >= most * largest
    ensures (budget / pools[i]) * pools[j] >= demands[j]
  {
    CeilDivIsLeast(demands[j], pools[j], 0);
    CeilDivIsLeast(demands[j], pools[j], most);
    CeilDivIsLeast(0, pools[j], CeilDiv(demands[j], pools[j]));
    CeilDivMonotone(0, demands[j], pools[j]);
    MulMonotone(pools[i], largest, most);
    assert pools[i] * most == most * pools[i] && largest * most == most * largest;
    FloorDivIsMost(budget, pools[i], most);
    CeilDivIsLeast(demands[j], pools[j], budget / pools[i]);
  }
}
