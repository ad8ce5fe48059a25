/** The utilization setting that gives every rank a cache budget. */
module Utilization {
  import opened Capacity

  /** A host with one rank: profiled peaks, budgets and utilization share, and the memory it has now, in bytes. */
  datatype Host = Host(before: int, after: int, profiledKv: int, growth: int, overhead: int, utilization: real,
                       total: int, available: int, model: Model) {
    predicate Valid() {
      total > 0 && model.Valid()
    }
  }

  predicate AllValid(hosts: seq<Host>) {
    hosts != [] && forall i | 0 <= i < |hosts| :: hosts[i].Valid()
  }

  // ----- the utilization setting -----

  function Thousandths(hosts: seq<Host>, kv: int): (needed: seq<int>)
    requires AllValid(hosts)
    ensures |needed| == |hosts|
    ensures forall i | 0 <= i < |hosts| :: needed[i] == CeilDiv(1000 * (hosts[i].overhead + kv), hosts[i].total)
  {
    seq(|hosts|, i requires 0 <= i < |hosts| => CeilDiv(1000 * (hosts[i].overhead + kv), hosts[i].total))
  }

  /** The largest share any rank needs, rounded up to a thousandth. */
  function Setting(hosts: seq<Host>, kv: int): int
    requires AllValid(hosts)
  {
    Max(Thousandths(hosts, kv))
  }

  /** The bytes a rank asks for under a setting. */
  function Request(setting: int, total: int): int {
    CeilDiv(setting * total, 1000)
  }

  ghost predicate Covers(hosts: seq<Host>, kv: int, setting: int) {
    forall i | 0 <= i < |hosts| :: setting * hosts[i].total >= 1000 * (hosts[i].overhead + kv)
  }

  /** The setting is the least number of thousandths whose share covers the budget on every rank. */
  lemma SettingIsLeast(hosts: seq<Host>, kv: int, setting: int)
    requires AllValid(hosts)
    ensures Covers(hosts, kv, setting) <==> setting >= Setting(hosts, kv)
  {
    var needed := Thousandths(hosts, kv);
    forall i | 0 <= i < |hosts|
      ensures setting >= needed[i] <==> setting * hosts[i].total >= 1000 * (hosts[i].overhead + kv)
    {
      CeilDivIsLeast(1000 * (hosts[i].overhead + kv), hosts[i].total, setting);
    }
    var top :| 0 <= top < |needed| && needed[top] == Max(needed);
  }

  /** Under the setting for a budget, the automatic cache of every rank is at least that budget. */
  lemma SettingGivesBudget(hosts: seq<Host>, kv: int, i: nat)
    requires AllValid(hosts) && i < |hosts|
    ensures Request(Setting(hosts, kv), hosts[i].total) - hosts[i].overhead >= kv
  {
    var setting := Setting(hosts, kv);
    SettingIsLeast(hosts, kv, setting);
    var share := setting * hosts[i].total;
    assert share >= 1000 * (hosts[i].overhead + kv);
    CeilDivIsLeast(share, 1000, 0);
  }

  function Pools(hosts: seq<Host>): (pools: seq<int>)
    requires AllValid(hosts)
    ensures |pools| == |hosts| && forall i | 0 <= i < |hosts| :: pools[i] == hosts[i].model.poolBytes > 0
  {
    seq(|hosts|, i requires 0 <= i < |hosts| => hosts[i].model.poolBytes)
  }

  function Demands(hosts: seq<Host>, context: int): (demands: seq<int>)
    requires AllValid(hosts)
    ensures |demands| == |hosts| && forall i | 0 <= i < |hosts| :: demands[i] == KvBytes(hosts[i].model, context, 1)
  {
    seq(|hosts|, i requires 0 <= i < |hosts| => KvBytes(hosts[i].model, context, 1))
  }

  /** The common budget for one request of this context. */
  function Budget(hosts: seq<Host>, context: int): int
    requires AllValid(hosts)
  {
    SharedBudget(Pools(hosts), Demands(hosts, context))
  }

  lemma {:induction false} MaxMonotone(s: seq<int>, t: seq<int>)
    requires |s| == |t| > 0 && forall i | 0 <= i < |s| :: s[i] <= t[i]
    ensures Max(s) <= Max(t)
  {
    var i :| 0 <= i < |s| && s[i] == Max(s);
  }

  lemma DemandNotNegative(m: Model, context: int)
    requires m.Valid() && context >= 1
    ensures TotalBlocks(m, context, 1) >= 1 && KvBytes(m, context, 1) >= 0
  {
    FullBlocksNotNegative(m.full, context);
    MulMonotone(0, TotalBlocks(m, context, 1), m.poolBytes);
  }

  lemma {:induction false} FullBlocksNotNegative(groups: seq<Group>, context: int)
    requires GroupsValid(groups) && context >= 1
    ensures FullBlocks(groups, context) >= 0
  {
    if groups != [] {
      var g := groups[|groups| - 1];
      FullBlocksNotNegative(groups[..|groups| - 1], context);
      CeilDivMonotone(0, context, g.1);
      CeilDivIsLeast(0, g.1, 0);
      MulMonotone(0, CeilDiv(context, g.1), g.0);
      assert g.0 * CeilDiv(context, g.1) == CeilDiv(context, g.1) * g.0;
    }
  }

  lemma BudgetGrows(hosts: seq<Host>, context: int, context': int)
    requires AllValid(hosts) && context <= context'
    ensures Budget(hosts, context) <= Budget(hosts, context')
  {
    var pools := Pools(hosts);
    var few, many := Blocks(pools, Demands(hosts, context)), Blocks(pools, Demands(hosts, context'));
    forall i | 0 <= i < |hosts|
      ensures few[i] <= many[i]
    {
      KvBytesGrow(hosts[i].model, context, context');
      CeilDivMonotone(KvBytes(hosts[i].model, context, 1), KvBytes(hosts[i].model, context', 1), pools[i]);
    }
    MaxMonotone(few, many);
    MulMonotone(Max(few), Max(many), Max(pools));
  }

  lemma SettingGrows(hosts: seq<Host>, kv: int, kv': int)
    requires AllValid(hosts) && kv <= kv'
    ensures Setting(hosts, kv) <= Setting(hosts, kv')
  {
    forall i | 0 <= i < |hosts|
      ensures Thousandths(hosts, kv)[i] <= Thousandths(hosts, kv')[i]
    {
      CeilDivMonotone(1000 * (hosts[i].overhead + kv), 1000 * (hosts[i].overhead + kv'), hosts[i].total);
    }
    MaxMonotone(Thousandths(hosts, kv), Thousandths(hosts, kv'));
  }

  /** End to end: under the rounded setting, every rank's automatic cache serves the context's demand on every rank. */
  lemma SettingServes(hosts: seq<Host>, context: int, i: nat, j: nat)
    requires AllValid(hosts) && i < |hosts| && j < |hosts| && context >= 1
    ensures var bytes := Request(Setting(hosts, Budget(hosts, context)), hosts[i].total) - hosts[i].overhead;
            (bytes / hosts[i].model.poolBytes) * hosts[j].model.poolBytes >= KvBytes(hosts[j].model, context, 1)
  {
    var budget := Budget(hosts, context);
    SettingGivesBudget(hosts, budget, i);
    hide *;
    BytesServe(hosts, context, Request(Setting(hosts, budget), hosts[i].total) - hosts[i].overhead, i, j);
  }

  lemma BytesServe(hosts: seq<Host>, context: int, bytes: int, i: nat, j: nat)
    requires AllValid(hosts) && i < |hosts| && j < |hosts| && context >= 1 && bytes >= Budget(hosts, context)
    ensures (bytes / hosts[i].model.poolBytes) * hosts[j].model.poolBytes >= KvBytes(hosts[j].model, context, 1)
  {
    var pools, demands := Pools(hosts), Demands(hosts, context);
    forall k | 0 <= k < |demands|
      ensures demands[k] >= 0
    {
      DemandNotNegative(hosts[k].model, context);
    }
    SharedBudgetIsLeast(pools, demands, bytes);
    hide SharedBudget, KvBytes, Serves;
    ServesBoth(pools, demands, bytes, i, j);
  }

  lemma ServesBoth(pools: seq<int>, demands: seq<int>, bytes: int, i: nat, j: nat)
    requires |pools| == |demands| && (forall k | 0 <= k < |pools| :: pools[k] > 0) && i < |pools| && j < |pools|
    requires Serves(pools, demands, bytes)
    ensures (bytes / pools[i]) * pools[j] >= demands[j]
  {
  }
}
