/**
 * The head's manifest and the journals of all nodes, through every disk step of
 * setup, rollback, restore and maintenance. Node calls are synchronous: a call
 * may stop anywhere, and the head hears success only from one that finished.
 */
module ClusterRuns {
  import opened Results
  import opened Journal
  import opened Doctor
  import opened NodeRuns

  type NodeId = string

  datatype Manifest = Manifest(nodes: seq<NodeId>, transaction: string)

  /** What survives a crash anywhere: the manifest file on the head and every node's disk. */
  datatype Cluster = Cluster(manifest: Option<Manifest>, disks: map<NodeId, Disk>)

  /** How many disk steps a call makes before it stops, and whether a reply gets back. */
  datatype Line = Line(steps: nat, reply: bool)

  type Site = NodeId -> Context

  // ----- one call -----

  predicate Ours(d: Disk, transaction: string) {
    d.journal.Some? && d.journal.value.transaction == transaction
  }

  /** Every action but `prepare` insists on the transaction of the journal it finds. */
  function NodeTrace(c: Context, d: Disk, transaction: string, op: Operation): seq<Disk> {
    match op
    case Prepare(t) => if t == transaction then Trace(c, d, op) else []
    case _ => if Ours(d, transaction) then Trace(c, d, op) else []
  }

  /** The node does not refuse. Restoring a node without a journal is a success that does nothing. */
  predicate Takes(c: Context, d: Disk, transaction: string, op: Operation) {
    match op
    case Prepare(t) => t == transaction && d.journal == None
    case Restore => d.journal == None || (Ours(d, transaction) && CheckAccepts(c.digest, d))
    case Write(path, _) => Ours(d, transaction) && !Journalled(d.journal.value.entries, path)
    case StartNetwork => Ours(d, transaction)
    case Repair(_) => Ours(d, transaction) && d.journal.value.networkStarted
  }

  function Cut(trace: seq<Disk>, steps: nat): seq<Disk> {
    if steps <= |trace| then trace[..steps] else trace
  }

  predicate Succeeds(c: Context, d: Disk, transaction: string, op: Operation, line: Line) {
    Takes(c, d, transaction, op) && line.steps >= |NodeTrace(c, d, transaction, op)| && line.reply
  }

  function CallTrace(site: Site, cl: Cluster, n: NodeId, transaction: string, op: Operation,
                     line: Line): (r: seq<Cluster>)
    requires n in cl.disks
    ensures forall k | 0 <= k < |r| :: r[k].manifest == cl.manifest && r[k].disks.Keys == cl.disks.Keys
  {
    var t := Cut(NodeTrace(site(n), cl.disks[n], transaction, op), line.steps);
    seq(|t|, i requires 0 <= i < |t| => cl.(disks := cl.disks[n := t[i]]))
  }

  function Final(cl: Cluster, trace: seq<Cluster>): Cluster {
    if trace == [] then cl else trace[|trace| - 1]
  }

  // ----- restore and rollback -----

  /** What the network does to one restore: which preflights come back, and how each restore call goes. */
  datatype Weather = Weather(answers: NodeId -> bool, lines: NodeId -> Line)

  function Reversed(nodes: seq<NodeId>): (r: seq<NodeId>)
    ensures |r| == |nodes| && forall n :: n in r <==> n in nodes
  {
    if nodes == [] then [] else [nodes[|nodes| - 1]] + Reversed(nodes[..|nodes| - 1])
  }

  ghost predicate Listed(cl: Cluster, nodes: seq<NodeId>) {
    forall n | n in nodes :: n in cl.disks
  }

  predicate PreflightPasses(site: Site, cl: Cluster, n: NodeId, transaction: string, w: Weather)
    requires n in cl.disks
  {
    w.answers(n) && Takes(site(n), cl.disks[n], transaction, Restore)
  }

  function Ready(site: Site, cl: Cluster, nodes: seq<NodeId>, transaction: string, w: Weather): (r: seq<NodeId>)
    requires Listed(cl, nodes)
    ensures |r| <= |nodes| && forall n | n in r :: n in nodes && PreflightPasses(site, cl, n, transaction, w)
    ensures |r| == |nodes| <==> forall n | n in nodes :: PreflightPasses(site, cl, n, transaction, w)
  {
    if nodes == [] then []
    else (if PreflightPasses(site, cl, nodes[0], transaction, w) then [nodes[0]] else [])
         + Ready(site, cl, nodes[1..], transaction, w)
  }

  function RestoreEach(site: Site, cl: Cluster, ready: seq<NodeId>, transaction: string, w: Weather): (r: seq<Cluster>)
    requires Listed(cl, ready)
    ensures forall k | 0 <= k < |r| :: r[k].manifest == cl.manifest && r[k].disks.Keys == cl.disks.Keys
    decreases |ready|
  {
    if ready == [] then []
    else
      var t := CallTrace(site, cl, ready[0], transaction, Restore, w.lines(ready[0]));
      t + RestoreEach(site, Final(cl, t), ready[1..], transaction, w)
  }

  predicate AllRestored(site: Site, cl: Cluster, ready: seq<NodeId>, transaction: string, w: Weather)
    requires Listed(cl, ready)
    decreases |ready|
  {
    ready != [] ==>
      var t := CallTrace(site, cl, ready[0], transaction, Restore, w.lines(ready[0]));
      && Succeeds(site(ready[0]), cl.disks[ready[0]], transaction, Restore, w.lines(ready[0]))
      && AllRestored(site, Final(cl, t), ready[1..], transaction, w)
  }

  /** The restore of a whole cluster; only a complete one removes the manifest. */
  function RestoreClusterTrace(site: Site, cl: Cluster, nodes: seq<NodeId>, transaction: string, w: Weather,
                               bestEffort: bool)
    : (r: seq<Cluster>)
    requires Listed(cl, nodes)
    ensures forall k | 0 <= k < |r| :: r[k].disks.Keys == cl.disks.Keys
  {
    var ready := Ready(site, cl, Reversed(nodes), transaction, w);
    if |ready| < |nodes| && !bestEffort then []
    else
      var t := RestoreEach(site, cl, ready, transaction, w);
      if |ready| == |nodes| && AllRestored(site, cl, ready, transaction, w)
      then t + [Final(cl, t).(manifest := None)] else t
  }

  // ----- setup -----

  /** The file changes setup makes on one node, phase by phase. */
  datatype Actions = Actions(keys: seq<(Path, File)>, ssh: seq<(Path, File)>, network: seq<(Path, File)>,
                             env: seq<(Path, File)>)

  function Writes(n: NodeId, files: seq<(Path, File)>): seq<(NodeId, Operation)> {
    seq(|files|, i requires 0 <= i < |files| => (n, Write(files[i].0, files[i].1)))
  }

  function PrepareCalls(nodes: seq<NodeId>, transaction: string, actions: NodeId -> Actions): seq<(NodeId, Operation)> {
    if nodes == [] then []
    else [(nodes[0], Prepare(transaction))] + Writes(nodes[0], actions(nodes[0]).keys)
         + PrepareCalls(nodes[1..], transaction, actions)
  }

  function SshCalls(nodes: seq<NodeId>, actions: NodeId -> Actions): seq<(NodeId, Operation)> {
    if nodes == [] then [] else Writes(nodes[0], actions(nodes[0]).ssh) + SshCalls(nodes[1..], actions)
  }

  function NetworkCalls(nodes: seq<NodeId>, actions: NodeId -> Actions): seq<(NodeId, Operation)> {
    if nodes == [] then []
    else Writes(nodes[0], actions(nodes[0]).network) + [(nodes[0], StartNetwork)] + NetworkCalls(nodes[1..], actions)
  }

  /** Prepare everywhere, then SSH everywhere, then networking from the last node back, then the head's .env. */
  function SetupCalls(nodes: seq<NodeId>, transaction: string, actions: NodeId -> Actions): seq<(NodeId, Operation)> {
    PrepareCalls(nodes, transaction, actions) + SshCalls(nodes, actions) + NetworkCalls(Reversed(nodes), actions)
    + if nodes == [] then [] else Writes(nodes[0], actions(nodes[0]).env)
  }

  function RunCalls(site: Site, cl: Cluster, transaction: string, calls: seq<(NodeId, Operation)>, lines: nat -> Line,
                    k: nat)
    : (r: seq<Cluster>)
    requires k <= |calls| && forall i | 0 <= i < |calls| :: calls[i].0 in cl.disks
    ensures forall i | 0 <= i < |r| :: r[i].manifest == cl.manifest && r[i].disks.Keys == cl.disks.Keys
    decreases |calls| - k
  {
    if k == |calls| then []
    else
      var (n, op) := calls[k];
      var t := CallTrace(site, cl, n, transaction, op, lines(k));
      if Succeeds(site(n), cl.disks[n], transaction, op, lines(k))
      then t + RunCalls(site, Final(cl, t), transaction, calls, lines, k + 1) else t
  }

  predicate CallsSucceed(site: Site, cl: Cluster, transaction: string, calls: seq<(NodeId, Operation)>,
                         lines: nat -> Line, k: nat)
    requires k <= |calls| && forall i | 0 <= i < |calls| :: calls[i].0 in cl.disks
    decreases |calls| - k
  {
    k < |calls| ==>
      var (n, op) := calls[k];
      && Succeeds(site(n), cl.disks[n], transaction, op, lines(k))
      && CallsSucceed(site, Final(cl, CallTrace(site, cl, n, transaction, op, lines(k))), transaction, calls, lines,
                      k + 1)
  }

  datatype Command =
    | Setup(nodes: seq<NodeId>, transaction: string, actions: NodeId -> Actions, lines: nat -> Line, rollback: Weather)
    | RestoreAll(weather: Weather)
    | Maintain(calls: seq<(NodeId, Operation)>, lines: nat -> Line)

  /** Repairs and a later --save-env: calls on listed nodes that never touch the manifest. */
  predicate Maintenance(m: Manifest, calls: seq<(NodeId, Operation)>) {
    forall i | 0 <= i < |calls| :: calls[i].0 in m.nodes && (calls[i].1.Repair? || calls[i].1.Write?)
  }

  ghost predicate CallsListed(calls: seq<(NodeId, Operation)>, nodes: seq<NodeId>) {
    forall i | 0 <= i < |calls| :: calls[i].0 in nodes
  }

  lemma {:induction false} PhasesListed(part: seq<NodeId>, nodes: seq<NodeId>, transaction: string,
                                        actions: NodeId -> Actions)
    requires forall n | n in part :: n in nodes
    ensures CallsListed(PrepareCalls(part, transaction, actions), nodes)
    ensures CallsListed(SshCalls(part, actions), nodes) && CallsListed(NetworkCalls(part, actions), nodes)
  {
    if part != [] {
      assert part[0] in nodes;
      PhasesListed(part[1..], nodes, transaction, actions);
    }
  }

  lemma SetupListed(nodes: seq<NodeId>, transaction: string, actions: NodeId -> Actions)
    ensures CallsListed(SetupCalls(nodes, transaction, actions), nodes)
  {
    PhasesListed(nodes, nodes, transaction, actions);
    PhasesListed(Reversed(nodes), nodes, transaction, actions);
  }

  /** The manifest first; then the calls until one fails; then, if one did, a best-effort rollback. */
  function SetupTrace(site: Site, cl: Cluster, m: Manifest, calls: seq<(NodeId, Operation)>, lines: nat -> Line,
                      rollback: Weather)
    : seq<Cluster>
    requires Listed(cl, m.nodes) && CallsListed(calls, m.nodes)
  {
    var begun := cl.(manifest := Some(m));
    var t := RunCalls(site, begun, m.transaction, calls, lines, 0);
    [begun] + t
    + if CallsSucceed(site, begun, m.transaction, calls, lines, 0) then []
      else RestoreClusterTrace(site, Final(begun, t), m.nodes, m.transaction, rollback, true)
  }

  ghost function CommandTrace(site: Site, cl: Cluster, command: Command): seq<Cluster> {
    match command
    case Setup(nodes, transaction, actions, lines, rollback) =>
      if cl.manifest.Some? || !Listed(cl, nodes) then []
      else
        SetupListed(nodes, transaction, actions);
        SetupTrace(site, cl, Manifest(nodes, transaction), SetupCalls(nodes, transaction, actions), lines, rollback)
    case RestoreAll(weather) =>
      if cl.manifest == None || !Listed(cl, cl.manifest.value.nodes) then []
      else RestoreClusterTrace(site, cl, cl.manifest.value.nodes, cl.manifest.value.transaction, weather, false)
    case Maintain(calls, lines) =>
      if cl.manifest == None || !Maintenance(cl.manifest.value, calls) || !Listed(cl, cl.manifest.value.nodes) then []
      else RunCalls(site, cl, cl.manifest.value.transaction, calls, lines, 0)
  }
}
