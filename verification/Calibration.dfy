/** Calibrating a cache model from one profiled run: what its groups and pool must look like, and what is inferred. */
module Calibration {
  import opened Results
  import opened Capacity

  datatype Kind = FullAttention | Mamba | SlidingWindow | Unsupported

  datatype GroupLayout = GroupLayout(kind: Kind, hostResident: bool, count: int, blockSize: int, page: int, layers: int)

  /** What a run recorded: pool blocks, requests that fit at once, bytes of storage, groups, context, lookahead. */
  datatype Profile = Profile(blocks: int, concurrency: real, storage: int, groups: seq<GroupLayout>, context: int,
                             speculative: nat)

  datatype CacheFault = MeasurementsMissing | UnsafeLayout | NotUniformPool | NotWholeBlocks | GeometryDisagrees

  // ----- rounding -----

  function Abs(x: real): real {
    if x < 0.0 then -x else x
  }

  function Larger(x: real, y: real): real {
    if x > y then x else y
  }

  /** To the nearest integer, a half to the even one. */
  function Round(x: real): int {
    var rest := x - x.Floor as real;
    if rest < 0.5 || (rest == 0.5 && x.Floor % 2 == 0) then x.Floor else x.Floor + 1
  }

  /** Rounding is to a nearest integer, and of two to the even one. */
  lemma RoundIsNearest(x: real, n: int)
    ensures Abs(x - Round(x) as real) <= Abs(x - n as real)
    ensures Abs(x - Round(x) as real) == Abs(x - n as real) && n != Round(x) ==> Round(x) % 2 == 0
  {
  }

  predicate IsClose(x: real, y: real) {
    Abs(x - y) <= Larger(0.00000001 * Larger(Abs(x), Abs(y)), 0.00001)
  }

  // ----- what a profile must look like -----

  predicate Measured(p: Profile) {
    p.blocks > 0 && p.concurrency > 0.0 && p.storage > 0 && p.groups != []
  }

  predicate Safe(g: GroupLayout) {
    !g.kind.Unsupported? && !g.hostResident && g.count > 0 && g.blockSize > 0 && g.page > 0 && g.layers > 0
  }

  predicate AllSafe(groups: seq<GroupLayout>) {
    forall i | 0 <= i < |groups| :: Safe(groups[i])
  }

  function Layers(groups: seq<GroupLayout>): (r: seq<int>)
    ensures |r| == |groups| && forall i | 0 <= i < |r| :: r[i] == groups[i].layers
  {
    seq(|groups|, i requires 0 <= i < |groups| => groups[i].layers)
  }

  /** One page size, and a block of the pool holds a page for every layer of the deepest group. */
  predicate UniformPool(p: Profile)
    requires p.groups != []
  {
    && (forall i | 0 <= i < |p.groups| :: p.groups[i].page == p.groups[0].page)
    && p.storage == p.blocks * (Max(Layers(p.groups)) * p.groups[0].page)
  }

  function PerRequest(p: Profile): int
    requires Measured(p)
  {
    Round(p.blocks as real / p.concurrency)
  }

  predicate WholeBlocks(p: Profile)
    requires Measured(p)
  {
    IsClose(p.blocks as real / p.concurrency, PerRequest(p) as real)
  }

  function FullGroups(groups: seq<GroupLayout>): (r: seq<Group>)
    ensures AllSafe(groups) ==> GroupsValid(r)
  {
    if groups == [] then []
    else
      var g := groups[|groups| - 1];
      FullGroups(groups[..|groups| - 1]) + if g.kind.FullAttention? then [(g.count, g.blockSize)] else []
  }

  /** A null block, and for every group lookahead and alignment. */
  function Slack(groups: seq<GroupLayout>, speculative: nat): (slack: int)
    requires AllSafe(groups)
    ensures slack >= 1
  {
    if groups == [] then 1
    else
      var g := groups[|groups| - 1];
      CeilDivIsLeast(speculative, g.blockSize, 0);
      MulMonotone(0, 1 + CeilDiv(speculative, g.blockSize), g.count);
      Slack(groups[..|groups| - 1], speculative) + (1 + CeilDiv(speculative, g.blockSize)) * g.count
  }

  predicate GeometryAgrees(p: Profile)
    requires Measured(p) && AllSafe(p.groups)
  {
    FullBlocks(FullGroups(p.groups), p.context) <= PerRequest(p)
  }

  ghost predicate Resizable(p: Profile) {
    Measured(p) && AllSafe(p.groups) && UniformPool(p) && WholeBlocks(p) && GeometryAgrees(p)
  }

  /** What each fault says of the profile. */
  predicate Explains(fault: CacheFault, p: Profile) {
    match fault
    case MeasurementsMissing => !Measured(p)
    case UnsafeLayout => !AllSafe(p.groups)
    case NotUniformPool => p.groups != [] && !UniformPool(p)
    case NotWholeBlocks => Measured(p) && !WholeBlocks(p)
    case GeometryDisagrees => Measured(p) && AllSafe(p.groups) && !GeometryAgrees(p)
  }

  // ----- the model -----

  method GroupsSafe(groups: seq<GroupLayout>) returns (ok: bool)
    ensures ok <==> AllSafe(groups)
  {
    for i := 0 to |groups|
      invariant forall j | 0 <= j < i :: Safe(groups[j])
    {
      if !Safe(groups[i]) {
        return false;
      }
    }
    return true;
  }

  lemma PoolIsPositive(p: Profile)
    requires Measured(p) && AllSafe(p.groups) && UniformPool(p)
    ensures Max(Layers(p.groups)) * p.groups[0].page > 0
  {
    assert Layers(p.groups)[0] <= Max(Layers(p.groups));
    MulMonotone(1, Max(Layers(p.groups)), p.groups[0].page);
  }

  function ModelOf(p: Profile): Model
    requires Measured(p) && AllSafe(p.groups)
  {
    Model(Max(Layers(p.groups)) * p.groups[0].page, p.context, p.speculative + 1, FullGroups(p.groups),
          PerRequest(p) - FullBlocks(FullGroups(p.groups), p.context), Slack(p.groups, p.speculative))
  }

  lemma ModelIsValid(p: Profile)
    requires Resizable(p)
    ensures ModelOf(p).Valid() && p.storage == p.blocks * ModelOf(p).poolBytes
  {
    hide PerRequest, WholeBlocks, Slack, FullGroups, FullBlocks, Max;
    PoolIsPositive(p);
  }

  lemma ChargedAsMeasured(p: Profile, sequences: int)
    requires Resizable(p)
    ensures ModelOf(p).Valid()
    ensures TotalBlocks(ModelOf(p), p.context, sequences)
         == sequences * (PerRequest(p) + Slack(p.groups, p.speculative) - 1) + 1
  {
    ModelIsValid(p);
    ModelCharges(ModelOf(p), PerRequest(p), sequences);
  }

  lemma ModelCharges(m: Model, perRequest: int, sequences: int)
    requires m.Valid() && m.residual + FullBlocks(m.full, m.context) == perRequest
    ensures TotalBlocks(m, m.context, sequences) == sequences * (perRequest + m.slack - 1) + 1
  {
    hide FullBlocks;
  }

  /**
   * The model of a profiled cache, if its layout can be resized: the pool's blocks make up the storage
   * measured, and requests of the profiled context are charged the blocks measured for them and slack.
   */
  method CacheModel(p: Profile) returns (r: Result<Model, CacheFault>)
    ensures r.Ok? <==> Resizable(p)
    ensures r.Ok? ==> r.value.Valid() && p.storage == p.blocks * r.value.poolBytes && r.value.context == p.context
    ensures r.Ok? ==> r.value.minimumContext == p.speculative + 1
    ensures r.Ok? ==> r.value.full == FullGroups(p.groups) && r.value.slack == Slack(p.groups, p.speculative)
    ensures r.Ok? ==> forall sequences ::
              TotalBlocks(r.value, p.context, sequences)
              == sequences * (PerRequest(p) + Slack(p.groups, p.speculative) - 1) + 1
    ensures r.Err? ==> Explains(r.error, p)
  {
    hide PerRequest, WholeBlocks, UniformPool, AllSafe, Slack, FullGroups, FullBlocks, TotalBlocks, Max, Model.Valid;
    if !Measured(p) {
      return Err(MeasurementsMissing);
    }
    var safe := GroupsSafe(p.groups);
    if !safe {
      return Err(UnsafeLayout);
    }
    if !UniformPool(p) {
      return Err(NotUniformPool);
    }
    if !WholeBlocks(p) {
      return Err(NotWholeBlocks);
    }
    var model := ModelOf(p);
    if model.residual < 0 {
      return Err(GeometryDisagrees);
    }
    ModelIsValid(p);
    forall sequences
      ensures TotalBlocks(model, p.context, sequences)
           == sequences * (PerRequest(p) + Slack(p.groups, p.speculative) - 1) + 1
    {
      ChargedAsMeasured(p, sequences);
    }
    return Ok(model);
  }
}
