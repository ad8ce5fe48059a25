/** The verdicts on hosts asked to hold a cache: the profiled one, one for a target context, the smallest one. */
module CapacityCheck {
  import opened Results
  import opened Capacity
  import opened Utilization

  datatype Verdict = DoesNotFit | Unknown | Fits {
    function Rank(): int {
      match this
      case DoesNotFit => 0
      case Unknown => 1
      case Fits => 2
    }
  }

  datatype Verdicts = Verdicts(profiled: Verdict, target: Verdict, anyKv: Verdict)

  datatype BoundsError = ContextOutsideBounds

  function AtLeast(x: int, y: int): int {
    if x > y then x else y
  }

  /** The startup peak with another cache size; the cache is never taken off the loading peak. */
  function Peak(h: Host, kv: int): int {
    AtLeast(AtLeast(h.before, h.after - h.profiledKv + kv), 0)
  }

  function Required(h: Host, kv: int, request: int, reserve: int): int {
    AtLeast(Peak(h, kv), h.growth + request) + reserve
  }

  // ----- the profiled setting on this hardware -----

  /** The bytes a rank asks for under its profiled share, rounded up. */
  function ProfiledRequest(h: Host): int {
    -((-(h.total as real * h.utilization)).Floor)
  }

  /** The whole blocks a rank could hold by itself; negative when its request is below its overhead. */
  function OwnBlocks(h: Host): int
    requires h.Valid()
  {
    (ProfiledRequest(h) - h.overhead) / h.model.poolBytes
  }

  function EachOwnBlocks(hosts: seq<Host>): (own: seq<int>)
    requires AllValid(hosts)
    ensures |own| == |hosts| && forall i | 0 <= i < |own| :: own[i] == OwnBlocks(hosts[i])
  {
    seq(|hosts|, i requires 0 <= i < |hosts| => OwnBlocks(hosts[i]))
  }

  /** Every rank gets as many blocks as the poorest one can hold. */
  function SharedBlocks(hosts: seq<Host>): int
    requires AllValid(hosts)
  {
    Min(EachOwnBlocks(hosts))
  }

  function AutomaticKv(blocks: int, pool: int): int {
    AtLeast(0, blocks) * pool
  }

  function ProfiledVerdict(hosts: seq<Host>, reserve: int, i: nat): Verdict
    requires AllValid(hosts) && i < |hosts|
  {
    var h := hosts[i];
    var kv := AutomaticKv(SharedBlocks(hosts), h.model.poolBytes);
    if h.available >= Required(h, kv, ProfiledRequest(h), reserve) && kv >= h.profiledKv then Fits else DoesNotFit
  }

  // ----- the target context and the smallest cache -----

  predicate InBounds(m: Model, context: int) {
    m.minimumContext <= context <= m.context
  }

  predicate AllInBounds(hosts: seq<Host>, context: int) {
    forall i | 0 <= i < |hosts| :: InBounds(hosts[i].model, context)
  }

  /** The smallest context every rank can be given. */
  function MinimumContext(hosts: seq<Host>): int
    requires AllValid(hosts)
  {
    Max(seq(|hosts|, i requires 0 <= i < |hosts| => hosts[i].model.minimumContext))
  }

  /** Whether a host has the memory for a cache, with the setting that gives the cache to every rank. */
  predicate Holds(hosts: seq<Host>, kv: int, reserve: int, i: nat)
    requires AllValid(hosts) && i < |hosts|
  {
    var setting := Setting(hosts, kv);
    hosts[i].available >= Required(hosts[i], kv, Request(setting, hosts[i].total), reserve) && setting <= 1000
  }

  /** A context outside some rank's profiled bounds gets no verdict anywhere. */
  function TargetVerdict(hosts: seq<Host>, context: int, reserve: int, i: nat): Verdict
    requires AllValid(hosts) && i < |hosts|
  {
    if !AllInBounds(hosts, context) then Unknown
    else if Holds(hosts, Budget(hosts, context), reserve, i) then Fits
    else DoesNotFit
  }

  /** Not even the startup floor, a run without any cache, fits. */
  predicate BelowFloor(h: Host, reserve: int) {
    h.available <= Peak(h, 0) + reserve
  }

  /** Between the floor and the smallest useful cache nothing is claimed. */
  function Smallest(holds: bool, below: bool): Verdict {
    if holds then Fits else if below then DoesNotFit else Unknown
  }

  function AnyKvVerdict(hosts: seq<Host>, reserve: int, i: nat): Verdict
    requires AllValid(hosts) && i < |hosts|
  {
    Smallest(Holds(hosts, Budget(hosts, MinimumContext(hosts)), reserve, i), BelowFloor(hosts[i], reserve))
  }

  function Aggregate(verdicts: seq<Verdict>): Verdict {
    if DoesNotFit in verdicts then DoesNotFit else if Unknown in verdicts then Unknown else Fits
  }

  function HostVerdicts(hosts: seq<Host>, context: int, reserve: int, i: nat): Verdicts
    requires AllValid(hosts) && i < |hosts|
  {
    Verdicts(ProfiledVerdict(hosts, reserve, i), TargetVerdict(hosts, context, reserve, i),
             AnyKvVerdict(hosts, reserve, i))
  }

  function AllVerdicts(hosts: seq<Host>, context: int, reserve: int): (r: seq<Verdicts>)
    requires AllValid(hosts)
    ensures |r| == |hosts| && forall i | 0 <= i < |r| :: r[i] == HostVerdicts(hosts, context, reserve, i)
  {
    seq(|hosts|, i requires 0 <= i < |hosts| => HostVerdicts(hosts, context, reserve, i))
  }

  function Profiled(all: seq<Verdicts>): (r: seq<Verdict>)
    ensures |r| == |all| && forall i | 0 <= i < |r| :: r[i] == all[i].profiled
  {
    seq(|all|, i requires 0 <= i < |all| => all[i].profiled)
  }

  function Targets(all: seq<Verdicts>): (r: seq<Verdict>)
    ensures |r| == |all| && forall i | 0 <= i < |r| :: r[i] == all[i].target
  {
    seq(|all|, i requires 0 <= i < |all| => all[i].target)
  }

  function AnyKvs(all: seq<Verdicts>): (r: seq<Verdict>)
    ensures |r| == |all| && forall i | 0 <= i < |r| :: r[i] == all[i].anyKv
  {
    seq(|all|, i requires 0 <= i < |all| => all[i].anyKv)
  }

  /** The worst verdict of each kind. */
  function Cluster(all: seq<Verdicts>): Verdicts {
    Verdicts(Aggregate(Profiled(all)), Aggregate(Targets(all)), Aggregate(AnyKvs(all)))
  }

  /** Each host by itself, then the worst verdicts; an error when no context suits every rank. */
  method CheckCluster(hosts: seq<Host>, context: int, reserve: int) returns (r: Result<Verdicts, BoundsError>)
    requires AllValid(hosts)
    ensures r.Ok? <==> AllInBounds(hosts, MinimumContext(hosts))
    ensures r.Ok? ==> r.value == Cluster(AllVerdicts(hosts, context, reserve))
  {
    if !AllInBounds(hosts, MinimumContext(hosts)) {
      return Err(ContextOutsideBounds);
    }
    var all := CheckHosts(hosts, context, reserve);
    return Ok(Cluster(all));
  }

  method CheckHosts(hosts: seq<Host>, context: int, reserve: int) returns (all: seq<Verdicts>)
    requires AllValid(hosts)
    ensures all == AllVerdicts(hosts, context, reserve)
  {
    all := [];
    hide HostVerdicts, Host.Valid;
    for k := 0 to |hosts|
      invariant |all| == k
      invariant forall i | 0 <= i < k :: all[i] == HostVerdicts(hosts, context, reserve, i)
    {
      var verdicts := HostVerdicts(hosts, context, reserve, k);
      all := all + [verdicts];
    }
    assert all == AllVerdicts(hosts, context, reserve);
  }

  // ----- coherence -----

  lemma {:induction false} AggregateIsWorst(verdicts: seq<Verdict>)
    ensures forall i | 0 <= i < |verdicts| :: Aggregate(verdicts).Rank() <= verdicts[i].Rank()
    ensures Aggregate(verdicts) == Fits || exists i :: 0 <= i < |verdicts| && verdicts[i] == Aggregate(verdicts)
  {
    forall i | 0 <= i < |verdicts|
      ensures Aggregate(verdicts).Rank() <= verdicts[i].Rank()
    {
      assert verdicts[i] in verdicts;
    }
  }

  lemma AggregateMonotone(verdicts: seq<Verdict>, verdicts': seq<Verdict>)
    requires |verdicts| == |verdicts'| && forall i | 0 <= i < |verdicts| :: verdicts[i].Rank() <= verdicts'[i].Rank()
    ensures Aggregate(verdicts).Rank() <= Aggregate(verdicts').Rank()
  {
    AggregateIsWorst(verdicts);
    AggregateIsWorst(verdicts');
  }

  /** The automatic cache stays inside every rank's own budget, unless some rank has none at all. */
  lemma AutomaticKvWithinBudget(hosts: seq<Host>, i: nat)
    requires AllValid(hosts) && i < |hosts| && SharedBlocks(hosts) >= 0
    ensures AutomaticKv(SharedBlocks(hosts), hosts[i].model.poolBytes) <= ProfiledRequest(hosts[i]) - hosts[i].overhead
  {
    assert SharedBlocks(hosts) <= EachOwnBlocks(hosts)[i];
    FloorDivIsMost(ProfiledRequest(hosts[i]) - hosts[i].overhead, hosts[i].model.poolBytes, SharedBlocks(hosts));
    hide SharedBlocks, ProfiledRequest;
  }

  /** A rank gets its profiled cache back exactly when every rank's own blocks are enough for it. */
  lemma KeepsProfiledCache(hosts: seq<Host>, i: nat)
    requires AllValid(hosts) && i < |hosts|
    ensures AutomaticKv(SharedBlocks(hosts), hosts[i].model.poolBytes) >= hosts[i].profiledKv
       <==> forall j | 0 <= j < |hosts| ::
              AutomaticKv(OwnBlocks(hosts[j]), hosts[i].model.poolBytes) >= hosts[i].profiledKv
  {
    var blocks, pool := SharedBlocks(hosts), hosts[i].model.poolBytes;
    forall j | 0 <= j < |hosts|
      ensures AutomaticKv(blocks, pool) <= AutomaticKv(OwnBlocks(hosts[j]), pool)
    {
      assert blocks <= EachOwnBlocks(hosts)[j];
      MulMonotone(AtLeast(0, blocks), AtLeast(0, OwnBlocks(hosts[j])), pool);
    }
    var own := EachOwnBlocks(hosts);
    var least :| 0 <= least < |own| && blocks == own[least];
    hide SharedBlocks, OwnBlocks, AutomaticKv;
    assert AutomaticKv(OwnBlocks(hosts[least]), pool) == AutomaticKv(blocks, pool);
  }

  lemma RequestGrows(setting: int, setting': int, total: int)
    requires setting <= setting' && total > 0
    ensures Request(setting, total) <= Request(setting', total)
  {
    MulMonotone(setting, setting', total);
    CeilDivMonotone(setting * total, setting' * total, 1000);
  }

  /** A host that holds a cache holds every smaller one. */
  lemma SmallerHolds(hosts: seq<Host>, kv: int, kv': int, reserve: int, i: nat)
    requires AllValid(hosts) && i < |hosts| && kv <= kv' && Holds(hosts, kv', reserve, i)
    ensures Holds(hosts, kv, reserve, i)
  {
    SettingGrows(hosts, kv, kv');
    RequestGrows(Setting(hosts, kv), Setting(hosts, kv'), hosts[i].total);
    hide Setting, Request;
  }

  lemma MinimumIsLeast(hosts: seq<Host>, context: int)
    requires AllValid(hosts) && AllInBounds(hosts, context)
    ensures MinimumContext(hosts) <= context
  {
  }

  /** A host with room for the target context has room for the smallest cache. */
  lemma TargetFitsMeansAnyFits(hosts: seq<Host>, context: int, reserve: int, i: nat)
    requires AllValid(hosts) && i < |hosts| && TargetVerdict(hosts, context, reserve, i) == Fits
    ensures AnyKvVerdict(hosts, reserve, i) == Fits
  {
    var least := MinimumContext(hosts);
    MinimumIsLeast(hosts, context);
    BudgetGrows(hosts, least, context);
    SmallerHolds(hosts, Budget(hosts, least), Budget(hosts, context), reserve, i);
    hide MinimumContext, Budget, Holds;
  }

  /** If the target context fits the cluster, the smallest cache does, and the check raises no error. */
  lemma ClusterFitsMeansAnyFits(hosts: seq<Host>, context: int, reserve: int)
    requires AllValid(hosts) && Cluster(AllVerdicts(hosts, context, reserve)).target == Fits
    ensures Cluster(AllVerdicts(hosts, context, reserve)).anyKv == Fits && AllInBounds(hosts, MinimumContext(hosts))
  {
    var all := AllVerdicts(hosts, context, reserve);
    AggregateIsWorst(Targets(all));
    AggregateIsWorst(AnyKvs(all));
    forall i | 0 <= i < |hosts|
      ensures AnyKvs(all)[i] == Fits
    {
      TargetFitsAt(hosts, context, reserve, i);
      TargetFitsMeansAnyFits(hosts, context, reserve, i);
    }
    TargetFitsAt(hosts, context, reserve, 0);
    assert AllInBounds(hosts, context);
    LeastInBounds(hosts, context);
    hide AllVerdicts, AllInBounds, MinimumContext;
  }

  lemma TargetFitsAt(hosts: seq<Host>, context: int, reserve: int, i: nat)
    requires AllValid(hosts) && Cluster(AllVerdicts(hosts, context, reserve)).target == Fits && i < |hosts|
    ensures TargetVerdict(hosts, context, reserve, i) == Fits
  {
    var targets := Targets(AllVerdicts(hosts, context, reserve));
    AggregateIsWorst(targets);
    hide TargetVerdict, Aggregate;
    assert targets[i].Rank() >= 2;
  }

  lemma LeastInBounds(hosts: seq<Host>, context: int)
    requires AllValid(hosts) && AllInBounds(hosts, context)
    ensures AllInBounds(hosts, MinimumContext(hosts))
  {
    MinimumIsLeast(hosts, context);
    var least := seq(|hosts|, i requires 0 <= i < |hosts| => hosts[i].model.minimumContext);
    assert MinimumContext(hosts) == Max(least);
    forall i | 0 <= i < |hosts|
      ensures InBounds(hosts[i].model, MinimumContext(hosts))
    {
      assert least[i] <= Max(least) && InBounds(hosts[i].model, context);
    }
  }

  /** The same hosts, none with less memory available. */
  ghost predicate NoLessAvailable(hosts: seq<Host>, hosts': seq<Host>) {
    && |hosts| == |hosts'|
    && forall i | 0 <= i < |hosts| ::
         hosts[i].available <= hosts'[i].available && hosts'[i] == hosts[i].(available := hosts'[i].available)
  }

  lemma BudgetsIgnoreAvailable(hosts: seq<Host>, hosts': seq<Host>, context: int, kv: int)
    requires AllValid(hosts) && AllValid(hosts') && NoLessAvailable(hosts, hosts')
    ensures Budget(hosts, context) == Budget(hosts', context) && Setting(hosts, kv) == Setting(hosts', kv)
    ensures MinimumContext(hosts) == MinimumContext(hosts')
    ensures AllInBounds(hosts, context) == AllInBounds(hosts', context)
  {
    assert Pools(hosts) == Pools(hosts') && Demands(hosts, context) == Demands(hosts', context);
    assert Thousandths(hosts, kv) == Thousandths(hosts', kv);
    var a := seq(|hosts|, i requires 0 <= i < |hosts| => hosts[i].model.minimumContext);
    var b := seq(|hosts'|, i requires 0 <= i < |hosts'| => hosts'[i].model.minimumContext);
    assert a == b;
    assert MinimumContext(hosts) == Max(a) && MinimumContext(hosts') == Max(b);
  }

  lemma BlocksIgnoreAvailable(hosts: seq<Host>, hosts': seq<Host>)
    requires AllValid(hosts) && AllValid(hosts') && NoLessAvailable(hosts, hosts')
    ensures SharedBlocks(hosts) == SharedBlocks(hosts')
  {
    forall i | 0 <= i < |hosts|
      ensures OwnBlocks(hosts[i]) == OwnBlocks(hosts'[i])
    {
      RequiredIgnoresAvailable(hosts[i], hosts'[i].available, 0, 0, 0);
      hide ProfiledRequest;
    }
    assert EachOwnBlocks(hosts) == EachOwnBlocks(hosts');
  }

  lemma RequiredIgnoresAvailable(h: Host, available: int, kv: int, request: int, reserve: int)
    ensures Required(h.(available := available), kv, request, reserve) == Required(h, kv, request, reserve)
    ensures Peak(h.(available := available), kv) == Peak(h, kv)
    ensures ProfiledRequest(h.(available := available)) == ProfiledRequest(h)
  {
  }

  lemma HoldsNeverWorsens(hosts: seq<Host>, hosts': seq<Host>, kv: int, reserve: int, i: nat)
    requires AllValid(hosts) && AllValid(hosts') && NoLessAvailable(hosts, hosts') && i < |hosts|
    requires Holds(hosts, kv, reserve, i)
    ensures Holds(hosts', kv, reserve, i)
  {
    BudgetsIgnoreAvailable(hosts, hosts', 0, kv);
    RequiredIgnoresAvailable(hosts[i], hosts'[i].available, kv, Request(Setting(hosts, kv), hosts[i].total), reserve);
    hide Setting, Request, Required, AllValid;
  }

  lemma ProfiledNeverWorsens(hosts: seq<Host>, hosts': seq<Host>, reserve: int, i: nat)
    requires AllValid(hosts) && AllValid(hosts') && NoLessAvailable(hosts, hosts') && i < |hosts|
    ensures ProfiledVerdict(hosts, reserve, i).Rank() <= ProfiledVerdict(hosts', reserve, i).Rank()
  {
    BlocksIgnoreAvailable(hosts, hosts');
    var kv := AutomaticKv(SharedBlocks(hosts), hosts[i].model.poolBytes);
    RequiredIgnoresAvailable(hosts[i], hosts'[i].available, kv, ProfiledRequest(hosts[i]), reserve);
    hide SharedBlocks, AutomaticKv, Required, ProfiledRequest, AllValid;
  }

  lemma TargetNeverWorsens(hosts: seq<Host>, hosts': seq<Host>, context: int, reserve: int, i: nat)
    requires AllValid(hosts) && AllValid(hosts') && NoLessAvailable(hosts, hosts') && i < |hosts|
    ensures TargetVerdict(hosts, context, reserve, i).Rank() <= TargetVerdict(hosts', context, reserve, i).Rank()
  {
    BudgetsIgnoreAvailable(hosts, hosts', context, 0);
    if Holds(hosts, Budget(hosts, context), reserve, i) {
      HoldsNeverWorsens(hosts, hosts', Budget(hosts, context), reserve, i);
    }
    hide Holds, Budget, AllInBounds, AllValid, NoLessAvailable;
  }

  lemma FloorNeverWorsens(hosts: seq<Host>, hosts': seq<Host>, reserve: int, i: nat)
    requires NoLessAvailable(hosts, hosts') && i < |hosts| && BelowFloor(hosts'[i], reserve)
    ensures BelowFloor(hosts[i], reserve)
  {
    RequiredIgnoresAvailable(hosts[i], hosts'[i].available, 0, 0, reserve);
    hide Peak;
  }

  lemma SmallestMonotone(holds: bool, below: bool, holds': bool, below': bool)
    requires (holds ==> holds') && (below' ==> below)
    ensures Smallest(holds, below).Rank() <= Smallest(holds', below').Rank()
  {
  }

  lemma AnyKvNeverWorsens(hosts: seq<Host>, hosts': seq<Host>, reserve: int, i: nat)
    requires AllValid(hosts) && AllValid(hosts') && NoLessAvailable(hosts, hosts') && i < |hosts|
    ensures AnyKvVerdict(hosts, reserve, i).Rank() <= AnyKvVerdict(hosts', reserve, i).Rank()
  {
    var least := MinimumContext(hosts);
    BudgetsIgnoreAvailable(hosts, hosts', least, 0);
    if BelowFloor(hosts'[i], reserve) {
      FloorNeverWorsens(hosts, hosts', reserve, i);
    }
    var kv := Budget(hosts, least);
    if Holds(hosts, kv, reserve, i) {
      HoldsNeverWorsens(hosts, hosts', kv, reserve, i);
    }
    var was, now := Holds(hosts, kv, reserve, i), Holds(hosts', kv, reserve, i);
    assert AnyKvVerdict(hosts, reserve, i) == Smallest(was, BelowFloor(hosts[i], reserve));
    assert AnyKvVerdict(hosts', reserve, i) == Smallest(now, BelowFloor(hosts'[i], reserve));
    hide *;
    SmallestMonotone(was, BelowFloor(hosts[i], reserve), now, BelowFloor(hosts'[i], reserve));
  }

  /** More available memory never worsens a verdict of the cluster. */
  lemma MoreMemoryNeverWorsens(hosts: seq<Host>, hosts': seq<Host>, context: int, reserve: int)
    requires AllValid(hosts) && AllValid(hosts') && NoLessAvailable(hosts, hosts')
    ensures var was := Cluster(AllVerdicts(hosts, context, reserve));
            var now := Cluster(AllVerdicts(hosts', context, reserve));
            && was.profiled.Rank() <= now.profiled.Rank()
            && was.target.Rank() <= now.target.Rank()
            && was.anyKv.Rank() <= now.anyKv.Rank()
  {
    var was, now := AllVerdicts(hosts, context, reserve), AllVerdicts(hosts', context, reserve);
    forall i | 0 <= i < |hosts|
      ensures was[i].profiled.Rank() <= now[i].profiled.Rank() && was[i].target.Rank() <= now[i].target.Rank()
      ensures was[i].anyKv.Rank() <= now[i].anyKv.Rank()
    {
      ProfiledNeverWorsens(hosts, hosts', reserve, i);
      TargetNeverWorsens(hosts, hosts', context, reserve, i);
      AnyKvNeverWorsens(hosts, hosts', reserve, i);
      hide ProfiledVerdict, TargetVerdict, AnyKvVerdict;
    }
    hide AllVerdicts, NoLessAvailable, Aggregate, HostVerdicts;
    AggregateMonotone(Profiled(was), Profiled(now));
    AggregateMonotone(Targets(was), Targets(now));
    AggregateMonotone(AnyKvs(was), AnyKvs(now));
  }
}
