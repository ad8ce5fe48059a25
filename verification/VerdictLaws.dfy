/** The verdicts on a host, in the inequalities that decide them. */
module VerdictLaws {
  import opened Results
  import opened Capacity
  import opened Calibration
  import opened Utilization
  import opened CapacityCheck

  // ----- what a context needs -----

  function Weighted(groups: seq<Group>, blocks: seq<int>): int
    requires |groups| == |blocks|
  {
    if groups == [] then 0
    else Weighted(groups[..|groups| - 1], blocks[..|groups| - 1]) + groups[|groups| - 1].0 * blocks[|groups| - 1]
  }

  /** Each count is the least number of the group's blocks that hold this many tokens. */
  ghost predicate LeastBlocks(groups: seq<Group>, blocks: seq<int>, context: int) {
    && |blocks| == |groups|
    && forall i | 0 <= i < |groups| ::
         blocks[i] * groups[i].1 >= context && (blocks[i] - 1) * groups[i].1 < context
  }

  lemma {:induction false} FullBlocksAre(groups: seq<Group>, context: int) returns (blocks: seq<int>)
    requires GroupsValid(groups)
    ensures LeastBlocks(groups, blocks, context) && FullBlocks(groups, context) == Weighted(groups, blocks)
  {
    blocks := [];
    if groups != [] {
      var front, g := groups[..|groups| - 1], groups[|groups| - 1];
      var before := FullBlocksAre(front, context);
      CeilDivIsLeast(context, g.1, 0);
      assert (CeilDiv(context, g.1) - 1) * g.1 == CeilDiv(context, g.1) * g.1 - g.1;
      blocks := before + [CeilDiv(context, g.1)];
      assert blocks[..|front|] == before;
      assert forall i | 0 <= i < |front| :: groups[i] == front[i];
    }
  }

  /** One request of a context needs its groups' blocks, the residue and the slack, in pool blocks. */
  lemma DemandIs(m: Model, context: int) returns (blocks: seq<int>)
    requires m.Valid()
    ensures LeastBlocks(m.full, blocks, context)
    ensures KvBytes(m, context, 1) == (m.residual + Weighted(m.full, blocks) + m.slack) * m.poolBytes
  {
    blocks := FullBlocksAre(m.full, context);
  }

  /** `at` are the places of exactly the full-attention layouts, in order, and `full` their counts and block sizes. */
  ghost predicate FullAt(groups: seq<GroupLayout>, at: seq<nat>, full: seq<Group>) {
    && |at| == |full| && (forall i, j | 0 <= i < j < |at| :: at[i] < at[j])
    && (forall i | 0 <= i < |at| :: at[i] < |groups| && full[i] == (groups[at[i]].count, groups[at[i]].blockSize))
    && forall j: nat | j < |groups| :: j in at <==> groups[j].kind.FullAttention?
  }

  lemma OneMoreLayout(front: seq<GroupLayout>, last: GroupLayout, at: seq<nat>, full: seq<Group>)
    requires FullAt(front, at, full)
    ensures last.kind.FullAttention? ==>
              FullAt(front + [last], at + [|front|], full + [(last.count, last.blockSize)])
    ensures !last.kind.FullAttention? ==> FullAt(front + [last], at, full)
  {
    var groups := front + [last];
    assert forall j | 0 <= j < |front| :: groups[j] == front[j];
  }

  /** The groups a model keeps are those of the full-attention layouts. */
  lemma {:induction false} FullGroupsAre(groups: seq<GroupLayout>) returns (at: seq<nat>)
    ensures FullAt(groups, at, FullGroups(groups))
  {
    hide FullAt;
    at := [];
    if groups == [] {
      NoLayouts();
    } else {
      var front, last := groups[..|groups| - 1], groups[|groups| - 1];
      assert groups == front + [last];
      var before := FullGroupsAre(front);
      OneMoreLayout(front, last, before, FullGroups(front));
      assert FullGroups(front) + [] == FullGroups(front);
      at := if last.kind.FullAttention? then before + [|front|] else before;
    }
  }

  lemma NoLayouts()
    ensures FullAt([], [], FullGroups([]))
  {
  }

  function AllGroups(groups: seq<GroupLayout>): (r: seq<Group>)
    ensures |r| == |groups| && forall i | 0 <= i < |r| :: r[i] == (groups[i].count, groups[i].blockSize)
  {
    seq(|groups|, i requires 0 <= i < |groups| => (groups[i].count, groups[i].blockSize))
  }

  /** The slack is a null block, and for each group a block and those of the lookahead. */
  lemma {:induction false} SlackIs(groups: seq<GroupLayout>, speculative: nat) returns (lookahead: seq<int>)
    requires AllSafe(groups)
    ensures LeastBlocks(AllGroups(groups), lookahead, speculative)
    ensures Slack(groups, speculative) == 1 + Weighted(AllGroups(groups), OneMore(lookahead))
  {
    lookahead := [];
    if groups != [] {
      hide LeastBlocks, Weighted, OneMore, AllGroups, CeilDiv;
      var front, g := groups[..|groups| - 1], groups[|groups| - 1];
      var before := SlackIs(front, speculative);
      var least := CeilDiv(speculative, g.blockSize);
      lookahead := before + [least];
      LeastMore(front, g, before, speculative);
      assert groups == front + [g];
      assert g.count * (1 + least) == (1 + least) * g.count;
    }
  }

  function OneMore(counts: seq<int>): (r: seq<int>)
    ensures |r| == |counts| && forall i | 0 <= i < |r| :: r[i] == 1 + counts[i]
  {
    seq(|counts|, i requires 0 <= i < |counts| => 1 + counts[i])
  }

  lemma LeastMore(front: seq<GroupLayout>, g: GroupLayout, before: seq<int>, speculative: nat)
    requires g.blockSize > 0 && LeastBlocks(AllGroups(front), before, speculative)
    ensures var least := CeilDiv(speculative, g.blockSize);
            && LeastBlocks(AllGroups(front + [g]), before + [least], speculative)
            && Weighted(AllGroups(front + [g]), OneMore(before + [least]))
               == Weighted(AllGroups(front), OneMore(before)) + g.count * (1 + least)
  {
    CeilDivIsLeast(speculative, g.blockSize, 0);
    var least := CeilDiv(speculative, g.blockSize);
    hide CeilDiv;
    assert (least - 1) * g.blockSize == least * g.blockSize - g.blockSize;
    assert OneMore(before + [least])[..|front|] == OneMore(before);
    assert AllGroups(front + [g])[..|front|] == AllGroups(front);
  }

  // ----- one host -----

  /** The memory available covers the reserve on top of each peak of a start, and of the growth after it. */
  ghost predicate HasRoom(h: Host, kv: int, request: int, reserve: int) {
    && h.available >= reserve + h.before
    && h.available >= reserve + h.after - h.profiledKv + kv
    && h.available >= reserve
    && h.available >= reserve + h.growth + request
  }

  lemma RequiredIs(h: Host, kv: int, request: int, reserve: int)
    ensures h.available >= Required(h, kv, request, reserve) <==> HasRoom(h, kv, request, reserve)
  {
  }

  /** With this many bytes every rank holds, in its own blocks, as many as any rank needs for the context. */
  ghost predicate ServesAll(hosts: seq<Host>, context: int, bytes: int)
    requires AllValid(hosts)
  {
    forall i, j | 0 <= i < |hosts| && 0 <= j < |hosts| ::
      (bytes / hosts[i].model.poolBytes) * hosts[j].model.poolBytes >= KvBytes(hosts[j].model, context, 1)
  }

  /** The least cache that serves every rank, the least setting that gives it, and the bytes a host then asks for. */
  ghost predicate Settles(hosts: seq<Host>, context: int, i: nat, kv: int, setting: int, request: int)
    requires AllValid(hosts) && i < |hosts|
  {
    && (forall bytes :: ServesAll(hosts, context, bytes) <==> bytes >= kv)
    && (forall share :: Covers(hosts, kv, share) <==> share >= setting)
    && 1000 * (request - 1) < setting * hosts[i].total <= 1000 * request
  }

  lemma BudgetIs(hosts: seq<Host>, context: int, bytes: int)
    requires AllValid(hosts) && context >= 1
    ensures ServesAll(hosts, context, bytes) <==> bytes >= Budget(hosts, context)
  {
    var pools, demands := Pools(hosts), Demands(hosts, context);
    forall k | 0 <= k < |demands|
      ensures demands[k] >= 0
    {
      DemandNotNegative(hosts[k].model, context);
    }
    SharedBudgetIsLeast(pools, demands, bytes);
    hide SharedBudget, KvBytes;
  }

  lemma RequestIs(setting: int, total: int)
    ensures var request := Request(setting, total); 1000 * (request - 1) < setting * total <= 1000 * request
  {
    var share := setting * total;
    CeilDivIsLeast(share, 1000, 0);
  }

  lemma BudgetSettles(hosts: seq<Host>, context: int, i: nat)
    requires AllValid(hosts) && i < |hosts| && context >= 1
    ensures var kv := Budget(hosts, context);
            Settles(hosts, context, i, kv, Setting(hosts, kv), Request(Setting(hosts, kv), hosts[i].total))
  {
    var kv := Budget(hosts, context);
    hide Budget, Setting, Request, AllValid, ServesAll, Covers;
    forall bytes
      ensures ServesAll(hosts, context, bytes) <==> bytes >= kv
    {
      BudgetIs(hosts, context, bytes);
    }
    forall share
      ensures Covers(hosts, kv, share) <==> share >= Setting(hosts, kv)
    {
      SettingIsLeast(hosts, kv, share);
    }
    RequestIs(Setting(hosts, kv), hosts[i].total);
  }

  lemma HoldsIs(hosts: seq<Host>, context: int, reserve: int, i: nat)
    returns (kv: int, setting: int, request: int)
    requires AllValid(hosts) && i < |hosts| && context >= 1
    ensures Settles(hosts, context, i, kv, setting, request)
    ensures Holds(hosts, Budget(hosts, context), reserve, i)
       <==> HasRoom(hosts[i], kv, request, reserve) && setting <= 1000
  {
    hide Settles, Budget, Setting, Request, Required, HasRoom, AllValid;
    kv := Budget(hosts, context);
    setting := Setting(hosts, kv);
    request := Request(setting, hosts[i].total);
    BudgetSettles(hosts, context, i);
    RequiredIs(hosts[i], kv, request, reserve);
  }

  /** A target context is judged exactly if it is within every rank's bounds, and fits a host exactly if it has room. */
  lemma TargetIs(hosts: seq<Host>, context: int, reserve: int, i: nat)
    returns (kv: int, setting: int, request: int)
    requires AllValid(hosts) && i < |hosts|
    ensures TargetVerdict(hosts, context, reserve, i) == Unknown
       <==> exists j :: 0 <= j < |hosts| && !(hosts[j].model.minimumContext <= context <= hosts[j].model.context)
    ensures TargetVerdict(hosts, context, reserve, i) != Unknown ==>
              && Settles(hosts, context, i, kv, setting, request)
              && (TargetVerdict(hosts, context, reserve, i) == Fits
                  <==> HasRoom(hosts[i], kv, request, reserve) && setting <= 1000)
  {
    kv, setting, request := 0, 0, 0;
    if AllInBounds(hosts, context) {
      assert InBounds(hosts[0].model, context) && hosts[0].Valid();
      kv, setting, request := HoldsIs(hosts, context, reserve, i);
    }
    hide Holds, Settles, HasRoom;
  }

  /** The smallest context that every rank takes. */
  ghost predicate IsSmallest(hosts: seq<Host>, context: int) {
    && (forall j | 0 <= j < |hosts| :: hosts[j].model.minimumContext <= context)
    && exists j :: 0 <= j < |hosts| && hosts[j].model.minimumContext == context
  }

  lemma SmallestIs(hosts: seq<Host>)
    requires AllValid(hosts)
    ensures IsSmallest(hosts, MinimumContext(hosts)) && MinimumContext(hosts) >= 1
  {
    var least := seq(|hosts|, i requires 0 <= i < |hosts| => hosts[i].model.minimumContext);
    var top :| 0 <= top < |least| && least[top] == Max(least);
    assert MinimumContext(hosts) == least[top] && hosts[top].Valid();
    assert forall j | 0 <= j < |hosts| :: least[j] == hosts[j].model.minimumContext;
  }

  /**
   * The smallest cache fits a host exactly if it has room for it; it is ruled out exactly if the
   * memory is no more than the reserve on top of the peaks without any cache.
   */
  lemma AnyKvIs(hosts: seq<Host>, reserve: int, i: nat)
    returns (context: int, kv: int, setting: int, request: int)
    requires AllValid(hosts) && i < |hosts|
    ensures IsSmallest(hosts, context) && Settles(hosts, context, i, kv, setting, request)
    ensures AnyKvVerdict(hosts, reserve, i) == Fits
       <==> HasRoom(hosts[i], kv, request, reserve) && setting <= 1000
    ensures var h := hosts[i];
            AnyKvVerdict(hosts, reserve, i) == DoesNotFit
            <==> (&& !(HasRoom(h, kv, request, reserve) && setting <= 1000)
                  && (h.available <= reserve || h.available <= reserve + h.before
                      || h.available <= reserve + h.after - h.profiledKv))
  {
    context := MinimumContext(hosts);
    SmallestIs(hosts);
    kv, setting, request := HoldsIs(hosts, context, reserve, i);
    FloorIs(hosts[i], reserve);
    hide Holds, Settles, HasRoom, IsSmallest, MinimumContext, Budget, BelowFloor;
  }

  lemma FloorIs(h: Host, reserve: int)
    ensures BelowFloor(h, reserve)
       <==> || h.available <= reserve || h.available <= reserve + h.before
            || h.available <= reserve + h.after - h.profiledKv
  {
  }

  // ----- the profiled setting -----

  /** The least whole number of bytes that is at least the profiled share of the memory. */
  ghost predicate IsShare(h: Host, request: int) {
    request as real - 1.0 < h.total as real * h.utilization <= request as real
  }

  lemma ShareIs(h: Host)
    ensures IsShare(h, ProfiledRequest(h))
  {
  }

  /** Every rank has room for this many blocks beside its overhead. */
  ghost predicate EveryRankHas(hosts: seq<Host>, requests: seq<int>, blocks: int)
    requires |requests| == |hosts|
  {
    forall j | 0 <= j < |hosts| :: blocks * hosts[j].model.poolBytes + hosts[j].overhead <= requests[j]
  }

  /** The most blocks that every rank has room for. */
  ghost predicate IsShared(hosts: seq<Host>, requests: seq<int>, blocks: int)
    requires |requests| == |hosts|
  {
    forall b :: b <= blocks <==> EveryRankHas(hosts, requests, b)
  }

  function Requests(hosts: seq<Host>): (r: seq<int>)
    ensures |r| == |hosts| && forall j | 0 <= j < |r| :: r[j] == ProfiledRequest(hosts[j])
  {
    seq(|hosts|, j requires 0 <= j < |hosts| => ProfiledRequest(hosts[j]))
  }

  lemma SharedIs(hosts: seq<Host>)
    requires AllValid(hosts)
    ensures IsShared(hosts, Requests(hosts), SharedBlocks(hosts))
  {
    var own, blocks := EachOwnBlocks(hosts), SharedBlocks(hosts);
    var least :| 0 <= least < |own| && own[least] == blocks;
    forall b
      ensures b <= blocks <==> EveryRankHas(hosts, Requests(hosts), b)
    {
      forall j | 0 <= j < |hosts|
        ensures b <= own[j] <==> b * hosts[j].model.poolBytes + hosts[j].overhead <= Requests(hosts)[j]
      {
        OwnIs(hosts[j], b);
      }
      hide SharedBlocks, Requests, EachOwnBlocks;
      assert b <= blocks ==> forall j | 0 <= j < |hosts| :: b <= own[j];
    }
  }

  lemma OwnIs(h: Host, b: int)
    requires h.Valid()
    ensures b <= OwnBlocks(h) <==> b * h.model.poolBytes + h.overhead <= ProfiledRequest(h)
  {
    FloorDivIsMost(ProfiledRequest(h) - h.overhead, h.model.poolBytes, b);
    hide ProfiledRequest;
  }

  /**
   * The profiled setting suits a host exactly if it has room for the cache the shared blocks make, and
   * that cache is no smaller than the one profiled.
   */
  lemma ProfiledIs(hosts: seq<Host>, reserve: int, i: nat) returns (requests: seq<int>, blocks: int, kv: int)
    requires AllValid(hosts) && i < |hosts|
    ensures |requests| == |hosts| && forall j | 0 <= j < |hosts| :: IsShare(hosts[j], requests[j])
    ensures IsShared(hosts, requests, blocks)
    ensures kv == if blocks > 0 then blocks * hosts[i].model.poolBytes else 0
    ensures ProfiledVerdict(hosts, reserve, i) != Unknown
    ensures ProfiledVerdict(hosts, reserve, i) == Fits
       <==> HasRoom(hosts[i], kv, requests[i], reserve) && kv >= hosts[i].profiledKv
  {
    requests, blocks := Requests(hosts), SharedBlocks(hosts);
    forall j | 0 <= j < |hosts|
      ensures IsShare(hosts[j], requests[j])
    {
      ShareIs(hosts[j]);
    }
    SharedIs(hosts);
    kv := AutomaticKv(blocks, hosts[i].model.poolBytes);
    RequiredIs(hosts[i], kv, requests[i], reserve);
    hide SharedBlocks, Requests, IsShared, IsShare, HasRoom, Required, ProfiledRequest, AllValid;
  }

  // ----- the cluster -----

  /** A cluster verdict: ruled out if any host is, fitting if all hosts are, and unknown otherwise. */
  lemma ClusterIs(hosts: seq<Host>, context: int, reserve: int)
    requires AllValid(hosts)
    ensures var c := Cluster(AllVerdicts(hosts, context, reserve));
            && (c.profiled == DoesNotFit
                <==> exists i :: 0 <= i < |hosts| && ProfiledVerdict(hosts, reserve, i) == DoesNotFit)
            && (c.profiled == Fits <==> forall i | 0 <= i < |hosts| :: ProfiledVerdict(hosts, reserve, i) == Fits)
            && (c.target == DoesNotFit
                <==> exists i :: 0 <= i < |hosts| && TargetVerdict(hosts, context, reserve, i) == DoesNotFit)
            && (c.target == Fits <==> forall i | 0 <= i < |hosts| :: TargetVerdict(hosts, context, reserve, i) == Fits)
            && (c.anyKv == DoesNotFit
                <==> exists i :: 0 <= i < |hosts| && AnyKvVerdict(hosts, reserve, i) == DoesNotFit)
            && (c.anyKv == Fits <==> forall i | 0 <= i < |hosts| :: AnyKvVerdict(hosts, reserve, i) == Fits)
  {
    hide ProfiledVerdict, TargetVerdict, AnyKvVerdict, Aggregate, AllValid;
    var all := AllVerdicts(hosts, context, reserve);
    WorstIs(Profiled(all));
    WorstIs(Targets(all));
    WorstIs(AnyKvs(all));
    hide AllVerdicts, Profiled, Targets, AnyKvs;
    forall i | 0 <= i < |hosts|
      ensures Profiled(all)[i] == ProfiledVerdict(hosts, reserve, i)
      ensures Targets(all)[i] == TargetVerdict(hosts, context, reserve, i)
      ensures AnyKvs(all)[i] == AnyKvVerdict(hosts, reserve, i)
    {
      assert all[i] == HostVerdicts(hosts, context, reserve, i);
    }
  }

  lemma WorstIs(verdicts: seq<Verdict>)
    ensures Aggregate(verdicts) == DoesNotFit <==> exists i :: 0 <= i < |verdicts| && verdicts[i] == DoesNotFit
    ensures Aggregate(verdicts) == Fits <==> forall i | 0 <= i < |verdicts| :: verdicts[i] == Fits
  {
    forall i | 0 <= i < |verdicts|
      ensures verdicts[i] in verdicts
    {
    }
  }
}
