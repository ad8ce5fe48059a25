/** The order of a setup: which calls have happened before networking starts anywhere. */
module ClusterOrder {
  import opened Results
  import opened Journal
  import opened Doctor
  import opened NodeRuns
  import opened ClusterRuns
  import opened ClusterSetup

  // ----- calls one after the other -----

  /** The cluster before call `k`, if each earlier call got as far as its line allows. */
  ghost function Stage(site: Site, cl: Cluster, transaction: string, calls: seq<(NodeId, Operation)>,
                       lines: nat -> Line, k: nat)
    : (r: Cluster)
    requires Calls(cl, calls, k)
    ensures r.manifest == cl.manifest && r.disks.Keys == cl.disks.Keys
  {
    if k == 0 then cl
    else
      var before := Stage(site, cl, transaction, calls, lines, k - 1);
      CallElsewhere(site, before, calls[k - 1].0, transaction, calls[k - 1].1, lines(k - 1));
      Final(before, CallTrace(site, before, calls[k - 1].0, transaction, calls[k - 1].1, lines(k - 1)))
  }

  ghost predicate SucceedsAt(site: Site, cl: Cluster, transaction: string, calls: seq<(NodeId, Operation)>,
                             lines: nat -> Line, k: nat)
    requires Calls(cl, calls, k) && k < |calls|
  {
    var (n, op) := calls[k];
    Succeeds(site(n), Stage(site, cl, transaction, calls, lines, k).disks[n], transaction, op, lines(k))
  }

  lemma NextStage(site: Site, cl: Cluster, transaction: string, calls: seq<(NodeId, Operation)>, lines: nat -> Line,
                  k: nat)
    requires Calls(cl, calls, k) && k < |calls|
    ensures var now := Stage(site, cl, transaction, calls, lines, k);
            var next := Stage(site, cl, transaction, calls, lines, k + 1);
            && next == Final(now, CallTrace(site, now, calls[k].0, transaction, calls[k].1, lines(k)))
            && CallsSucceed(site, now, transaction, calls, lines, k)
               == (&& SucceedsAt(site, cl, transaction, calls, lines, k)
                   && CallsSucceed(site, next, transaction, calls, lines, k + 1))
  {
    hide CallTrace, Succeeds, Final;
  }

  lemma NoCallsSucceed(site: Site, cl: Cluster, transaction: string, calls: seq<(NodeId, Operation)>,
                       lines: nat -> Line)
    requires Calls(cl, calls, |calls|)
    ensures CallsSucceed(site, cl, transaction, calls, lines, |calls|)
  {
  }

  /** A run of calls succeeds exactly if each of them does when it comes. */
  lemma {:induction false} SuccessIsEach(site: Site, cl: Cluster, transaction: string,
                                         calls: seq<(NodeId, Operation)>, lines: nat -> Line, k: nat)
    requires Calls(cl, calls, k)
    ensures CallsSucceed(site, Stage(site, cl, transaction, calls, lines, k), transaction, calls, lines, k)
       <==> forall i | k <= i < |calls| :: SucceedsAt(site, cl, transaction, calls, lines, i)
    decreases |calls| - k
  {
    hide SucceedsAt, Stage, CallsSucceed;
    if k < |calls| {
      NextStage(site, cl, transaction, calls, lines, k);
      SuccessIsEach(site, cl, transaction, calls, lines, k + 1);
    } else {
      NoCallsSucceed(site, Stage(site, cl, transaction, calls, lines, k), transaction, calls, lines);
    }
  }

  // ----- any moment of the calls -----

  ghost predicate Started(d: Disk, transaction: string) {
    Ours(d, transaction) && d.journal.value.networkStarted
  }

  /** The first `j` calls have happened, and networking has started only where one of them started it. */
  ghost predicate Progress(cl: Cluster, transaction: string, calls: seq<(NodeId, Operation)>, j: nat) {
    && Calls(cl, calls, j)
    && (forall i | 0 <= i < j :: Done(cl.disks[calls[i].0], transaction, calls[i].1))
    && (forall n | n in cl.disks && Started(cl.disks[n], transaction) :: (n, StartNetwork) in calls[..j])
  }

  /** A step of a setup action undoes nothing of earlier actions, and only one action starts networking. */
  lemma StepKeepsDone(c: Context, d: Disk, transaction: string, op: Operation, i: nat)
    requires SetupOperation(op) && i < |NodeTrace(c, d, transaction, op)|
    ensures var x := NodeTrace(c, d, transaction, op)[i];
            && (forall earlier: Operation | Done(d, transaction, earlier) :: Done(x, transaction, earlier))
            && (op.StartNetwork? ==> Done(x, transaction, op))
            && (Started(x, transaction) ==> Started(d, transaction) || op.StartNetwork?)
  {
    if op.Write? && Ours(d, transaction) {
      WriteSteps(c.digest, d, transaction, op.path, op.file);
      assert NodeTrace(c, d, transaction, op)[i] in WriteTrace(c.digest, d, op.path, op.file);
    }
    hide Journalled, WriteTrace;
  }

  lemma WriteSteps(digest: Data -> Digest, d: Disk, transaction: string, path: Path, f: File)
    requires Ours(d, transaction)
    ensures forall x | x in WriteTrace(digest, d, path, f) ::
              && (forall earlier: Operation | Done(d, transaction, earlier) :: Done(x, transaction, earlier))
              && (Started(x, transaction) ==> Started(d, transaction))
  {
    var entries, e := d.journal.value.entries, NewEntry(digest, d.files, path, f);
    forall p: Path
      ensures Journalled(entries + [e], p) <==> Journalled(entries, p) || p == e.path
    {
      OneMoreJournalled(entries, e, p);
    }
    hide Journalled;
  }

  lemma OneMoreCall(calls: seq<(NodeId, Operation)>, k: nat, c: (NodeId, Operation))
    requires k < |calls|
    ensures c in calls[..k + 1] <==> c in calls[..k] || c == calls[k]
  {
    assert calls[..k + 1] == calls[..k] + [calls[k]];
  }

  /** One more step on one node. */
  lemma StepProgress(cl: Cluster, transaction: string, calls: seq<(NodeId, Operation)>, k: nat, x: Disk, j: nat)
    requires Progress(cl, transaction, calls, k) && k < |calls| && k <= j <= k + 1
    requires var (n, op) := calls[k];
             && (forall earlier: Operation | Done(cl.disks[n], transaction, earlier) :: Done(x, transaction, earlier))
             && (Started(x, transaction) ==> Started(cl.disks[n], transaction) || (op.StartNetwork? && j == k + 1))
             && (j == k + 1 ==> Done(x, transaction, op))
    ensures Progress(cl.(disks := cl.disks[calls[k].0 := x]), transaction, calls, j)
  {
    hide Done, Started;
    forall c
      ensures c in calls[..k + 1] <==> c in calls[..k] || c == calls[k]
    {
      OneMoreCall(calls, k, c);
    }
  }

  lemma CallProgress(site: Site, cl: Cluster, transaction: string, calls: seq<(NodeId, Operation)>, k: nat, line: Line)
    requires Progress(cl, transaction, calls, k) && k < |calls| && SetupOperation(calls[k].1)
    ensures forall x | x in CallTrace(site, cl, calls[k].0, transaction, calls[k].1, line) ::
              Progress(x, transaction, calls, k) || Progress(x, transaction, calls, k + 1)
  {
    hide Progress, Done, Started, NodeTrace;
    var (n, op) := calls[k];
    assert n in cl.disks by {
      ProgressCalls(cl, transaction, calls, k);
    }
    var t := CallTrace(site, cl, n, transaction, op, line);
    var steps := NodeTrace(site(n), cl.disks[n], transaction, op);
    forall i | 0 <= i < |t|
      ensures Progress(t[i], transaction, calls, k) || Progress(t[i], transaction, calls, k + 1)
    {
      assert t[i] == cl.(disks := cl.disks[n := steps[i]]);
      StepKeepsDone(site(n), cl.disks[n], transaction, op, i);
      StepProgress(cl, transaction, calls, k, steps[i], if op.StartNetwork? then k + 1 else k);
    }
  }

  lemma ProgressCalls(cl: Cluster, transaction: string, calls: seq<(NodeId, Operation)>, k: nat)
    requires Progress(cl, transaction, calls, k)
    ensures Calls(cl, calls, k)
  {
  }

  lemma SuccessProgress(site: Site, cl: Cluster, transaction: string, calls: seq<(NodeId, Operation)>, k: nat,
                        line: Line)
    requires Progress(cl, transaction, calls, k) && k < |calls| && SetupOperation(calls[k].1)
    requires Succeeds(site(calls[k].0), cl.disks[calls[k].0], transaction, calls[k].1, line)
    ensures var t := CallTrace(site, cl, calls[k].0, transaction, calls[k].1, line);
            Progress(Final(cl, t), transaction, calls, k + 1)
  {
    hide Done, Started;
    var (n, op) := calls[k];
    var steps := NodeTrace(site(n), cl.disks[n], transaction, op);
    SuccessTakesSteps(site(n), cl.disks[n], transaction, op, line);
    SuccessStays(site, cl, n, transaction, op, line);
    StepKeepsDone(site(n), cl.disks[n], transaction, op, |steps| - 1);
    hide NodeTrace, Takes;
    StepProgress(cl, transaction, calls, k, steps[|steps| - 1], k + 1);
  }

  lemma SuccessTakesSteps(c: Context, d: Disk, transaction: string, op: Operation, line: Line)
    requires Succeeds(c, d, transaction, op, line) && SetupOperation(op)
    ensures NodeTrace(c, d, transaction, op) != []
  {
  }

  /** Every moment of a run of calls is somewhere in the order of the calls. */
  lemma {:induction false} EveryMoment(site: Site, cl: Cluster, transaction: string, calls: seq<(NodeId, Operation)>,
                                       lines: nat -> Line, k: nat)
    requires Progress(cl, transaction, calls, k) && SetupOperations(calls)
    ensures forall x | x in RunCalls(site, cl, transaction, calls, lines, k) ::
              exists j :: k <= j <= |calls| && Progress(x, transaction, calls, j)
    decreases |calls| - k
  {
    hide Progress, CallTrace, SetupOperation, Final;
    ProgressCalls(cl, transaction, calls, k);
    if k < |calls| {
      var (n, op) := calls[k];
      CallProgress(site, cl, transaction, calls, k, lines(k));
      if Succeeds(site(n), cl.disks[n], transaction, op, lines(k)) {
        SuccessProgress(site, cl, transaction, calls, k, lines(k));
        hide Succeeds;
        EveryMoment(site, Final(cl, CallTrace(site, cl, n, transaction, op, lines(k))), transaction, calls, lines,
                    k + 1);
      }
    }
  }

  // ----- what comes before networking starts -----

  /** Wherever the second call stands, the first one stands before it. */
  ghost predicate Before(calls: seq<(NodeId, Operation)>, c: (NodeId, Operation), later: (NodeId, Operation)) {
    forall i | 0 <= i < |calls| && calls[i] == later :: c in calls[..i]
  }

  lemma DoneBefore(x: Cluster, transaction: string, calls: seq<(NodeId, Operation)>, j: nat, c: (NodeId, Operation),
                   later: (NodeId, Operation))
    requires Progress(x, transaction, calls, j) && later in calls[..j] && Before(calls, c, later)
    ensures c.0 in x.disks && Done(x.disks[c.0], transaction, c.1)
  {
    hide Done, Started;
    var i :| 0 <= i < j && calls[..j][i] == later;
    assert calls[i] == later;
    var k :| 0 <= k < i && calls[..i][k] == c;
    assert calls[k] == c;
  }

  /** What stands before a call in a part still stands before it in the whole, if the rest does not have the call. */
  lemma BeforeInPart(a: seq<(NodeId, Operation)>, part: seq<(NodeId, Operation)>, b: seq<(NodeId, Operation)>,
                     c: (NodeId, Operation), later: (NodeId, Operation))
    requires later !in a && later !in b && (c in a || Before(part, c, later))
    ensures Before(a + part + b, c, later)
  {
    var calls := a + part + b;
    assert forall k | 0 <= k < |a| :: calls[k] in a;
    assert forall k | |a| + |part| <= k < |calls| :: calls[k] in b;
    forall i | 0 <= i < |calls| && calls[i] == later
      ensures c in calls[..i]
    {
      assert part[i - |a|] == later;
      assert calls[..i] == a + part[..i - |a|];
    }
  }

  ghost predicate DifferentNodes(nodes: seq<NodeId>) {
    forall i, j | 0 <= i < j < |nodes| :: nodes[i] != nodes[j]
  }

  lemma {:induction false} NoStartBefore(nodes: seq<NodeId>, transaction: string, actions: NodeId -> Actions, n: NodeId)
    ensures (n, StartNetwork) !in PrepareCalls(nodes, transaction, actions)
    ensures (n, StartNetwork) !in SshCalls(nodes, actions)
    ensures n !in nodes ==> (n, StartNetwork) !in NetworkCalls(nodes, actions)
  {
    if nodes != [] {
      NoStartBefore(nodes[1..], transaction, actions, n);
    }
  }

  /** Each node's networking is finished before the next node's is started. */
  lemma {:induction false} NetworkOrder(nodes: seq<NodeId>, actions: NodeId -> Actions, q: nat, p: nat,
                                        c: (NodeId, Operation))
    requires DifferentNodes(nodes) && q < p < |nodes|
    requires c in Writes(nodes[q], actions(nodes[q]).network) + [(nodes[q], StartNetwork)]
    ensures Before(NetworkCalls(nodes, actions), c, (nodes[p], StartNetwork))
  {
    var first, rest := Writes(nodes[0], actions(nodes[0]).network) + [(nodes[0], StartNetwork)],
                       NetworkCalls(nodes[1..], actions);
    if q > 0 {
      NetworkOrder(nodes[1..], actions, q - 1, p - 1, c);
    }
    BeforeInPart(first, rest, [], c, (nodes[p], StartNetwork));
    assert NetworkCalls(nodes, actions) == first + rest + [];
  }

  lemma {:induction false} ReversedAt(nodes: seq<NodeId>, i: nat)
    requires i < |nodes|
    ensures Reversed(nodes)[|nodes| - 1 - i] == nodes[i]
  {
    if i < |nodes| - 1 {
      ReversedAt(nodes[..|nodes| - 1], i);
    }
  }

  lemma ReversedDiffer(nodes: seq<NodeId>)
    requires DifferentNodes(nodes)
    ensures DifferentNodes(Reversed(nodes))
  {
    var n := |nodes|;
    forall i, j | 0 <= i < j < n
      ensures Reversed(nodes)[i] != Reversed(nodes)[j]
    {
      ReversedAt(nodes, n - 1 - i);
      ReversedAt(nodes, n - 1 - j);
    }
  }

  /** Where a setup starts networking, all keys and SSH files come before, and the networking of every later node. */
  lemma SetupOrder(nodes: seq<NodeId>, transaction: string, actions: NodeId -> Actions, a: nat, c: (NodeId, Operation))
    requires DifferentNodes(nodes) && a < |nodes|
    requires c in PrepareCalls(nodes, transaction, actions) || c in SshCalls(nodes, actions)
             || exists b :: && a < b < |nodes|
                            && c in Writes(nodes[b], actions(nodes[b]).network) + [(nodes[b], StartNetwork)]
    ensures Before(SetupCalls(nodes, transaction, actions), c, (nodes[a], StartNetwork))
  {
    hide PrepareCalls, SshCalls, NetworkCalls, Reversed, Before;
    var before := PrepareCalls(nodes, transaction, actions) + SshCalls(nodes, actions);
    var network, env := NetworkCalls(Reversed(nodes), actions), Writes(nodes[0], actions(nodes[0]).env);
    NoStartBefore(nodes, transaction, actions, nodes[a]);
    if b :| && a < b < |nodes|
            && c in Writes(nodes[b], actions(nodes[b]).network) + [(nodes[b], StartNetwork)] {
      ReversedDiffer(nodes);
      ReversedAt(nodes, a);
      ReversedAt(nodes, b);
      NetworkOrder(Reversed(nodes), actions, |nodes| - 1 - b, |nodes| - 1 - a, c);
    }
    BeforeInPart(before, network, env, c, (nodes[a], StartNetwork));
  }

  lemma NothingStarted(cl: Cluster, transaction: string, calls: seq<(NodeId, Operation)>)
    requires Calls(cl, calls, 0) && forall n | n in cl.disks :: !Ours(cl.disks[n], transaction)
    ensures Progress(cl, transaction, calls, 0)
  {
  }

  lemma HeldIfDone(d: Disk, transaction: string, files: seq<(Path, File)>)
    requires forall f | f in files :: Done(d, transaction, Write(f.0, f.1))
    ensures Holds(d, files)
  {
    hide Journalled;
  }

  /** The node has been prepared and has its keys and SSH files. */
  ghost predicate Reachable(d: Disk, transaction: string, actions: Actions) {
    Ours(d, transaction) && Holds(d, actions.keys) && Holds(d, actions.ssh)
  }

  /** A moment at which a node's networking has started. */
  ghost predicate StartedMoment(x: Cluster, nodes: seq<NodeId>, transaction: string, actions: NodeId -> Actions, j: nat,
                                a: nat) {
    && DifferentNodes(nodes) && a < |nodes| && Progress(x, transaction, SetupCalls(nodes, transaction, actions), j)
    && (nodes[a], StartNetwork) in SetupCalls(nodes, transaction, actions)[..j]
  }

  lemma DoneAtMoment(x: Cluster, nodes: seq<NodeId>, transaction: string, actions: NodeId -> Actions, j: nat, a: nat,
                     c: (NodeId, Operation))
    requires StartedMoment(x, nodes, transaction, actions, j, a)
    requires c in PrepareCalls(nodes, transaction, actions) || c in SshCalls(nodes, actions)
             || exists b :: && a < b < |nodes|
                            && c in Writes(nodes[b], actions(nodes[b]).network) + [(nodes[b], StartNetwork)]
    ensures c.0 in x.disks && Done(x.disks[c.0], transaction, c.1)
  {
    hide SetupCalls, PrepareCalls, SshCalls, Writes, Before, Progress, Done;
    SetupOrder(nodes, transaction, actions, a, c);
    DoneBefore(x, transaction, SetupCalls(nodes, transaction, actions), j, c, (nodes[a], StartNetwork));
  }

  lemma PreparedFirst(x: Cluster, nodes: seq<NodeId>, transaction: string, actions: NodeId -> Actions, j: nat, a: nat,
                      n: NodeId)
    requires StartedMoment(x, nodes, transaction, actions, j, a) && n in nodes
    ensures n in x.disks && Reachable(x.disks[n], transaction, actions(n))
  {
    hide PrepareCalls, SshCalls, StartedMoment, Journalled, Holds;
    PrepareHolds(nodes, transaction, actions, n);
    SshHolds(nodes, actions, n);
    DoneAtMoment(x, nodes, transaction, actions, j, a, (n, Prepare(transaction)));
    forall f | f in actions(n).keys
      ensures Done(x.disks[n], transaction, Write(f.0, f.1))
    {
      DoneAtMoment(x, nodes, transaction, actions, j, a, (n, Write(f.0, f.1)));
    }
    forall f | f in actions(n).ssh
      ensures Done(x.disks[n], transaction, Write(f.0, f.1))
    {
      DoneAtMoment(x, nodes, transaction, actions, j, a, (n, Write(f.0, f.1)));
    }
    HeldIfDone(x.disks[n], transaction, actions(n).keys);
    HeldIfDone(x.disks[n], transaction, actions(n).ssh);
  }

  lemma LaterFinished(x: Cluster, nodes: seq<NodeId>, transaction: string, actions: NodeId -> Actions, j: nat, a: nat,
                      b: nat)
    requires StartedMoment(x, nodes, transaction, actions, j, a) && a < b < |nodes|
    ensures nodes[b] in x.disks && Started(x.disks[nodes[b]], transaction)
            && Holds(x.disks[nodes[b]], actions(nodes[b]).network)
  {
    hide StartedMoment, Journalled, Holds, Writes;
    var n := nodes[b];
    WritesAre(n, actions(n).network);
    DoneAtMoment(x, nodes, transaction, actions, j, a, (n, StartNetwork));
    forall f | f in actions(n).network
      ensures Done(x.disks[n], transaction, Write(f.0, f.1))
    {
      DoneAtMoment(x, nodes, transaction, actions, j, a, (n, Write(f.0, f.1)));
    }
    HeldIfDone(x.disks[n], transaction, actions(n).network);
  }

  lemma MomentOf(site: Site, cl: Cluster, nodes: seq<NodeId>, transaction: string, actions: NodeId -> Actions,
                 lines: nat -> Line, x: Cluster, a: nat) returns (j: nat)
    requires Listed(cl, nodes) && DifferentNodes(nodes) && a < |nodes|
    requires forall n | n in cl.disks :: !Ours(cl.disks[n], transaction)
    requires x in CallStates(site, cl, nodes, transaction, actions, lines)
    requires nodes[a] in x.disks && Started(x.disks[nodes[a]], transaction)
    ensures StartedMoment(x, nodes, transaction, actions, j, a)
  {
    var calls, begun := SetupCalls(nodes, transaction, actions), Begun(cl, nodes, transaction);
    hide RunCalls, SetupCalls, Done, Started;
    SetupCallable(cl, nodes, transaction, actions);
    SetupCallsHold(nodes, transaction, actions, nodes[a]);
    NothingStarted(begun, transaction, calls);
    EveryMoment(site, begun, transaction, calls, lines, 0);
    j :| 0 <= j <= |calls| && Progress(x, transaction, calls, j);
  }

  /**
   * At every moment of the calls of a setup, once networking has started on a node, every listed node has
   * been prepared and has its keys and SSH files, and every node listed after it is finished: its
   * networking has been started too and it has its networking files.
   */
  lemma NetworkingLast(site: Site, cl: Cluster, nodes: seq<NodeId>, transaction: string, actions: NodeId -> Actions,
                       lines: nat -> Line, x: Cluster, a: nat)
    requires Listed(cl, nodes) && DifferentNodes(nodes) && a < |nodes|
    requires forall n | n in cl.disks :: !Ours(cl.disks[n], transaction)
    requires x in CallStates(site, cl, nodes, transaction, actions, lines)
    requires nodes[a] in x.disks && Started(x.disks[nodes[a]], transaction)
    ensures forall n | n in nodes :: n in x.disks && Reachable(x.disks[n], transaction, actions(n))
    ensures forall b | a < b < |nodes| ::
              Started(x.disks[nodes[b]], transaction) && Holds(x.disks[nodes[b]], actions(nodes[b]).network)
  {
    hide CallStates, Reachable, Started, Holds, StartedMoment;
    var j := MomentOf(site, cl, nodes, transaction, actions, lines, x, a);
    forall n | n in nodes
      ensures n in x.disks && Reachable(x.disks[n], transaction, actions(n))
    {
      PreparedFirst(x, nodes, transaction, actions, j, a, n);
    }
    forall b | a < b < |nodes|
      ensures Started(x.disks[nodes[b]], transaction) && Holds(x.disks[nodes[b]], actions(nodes[b]).network)
    {
      LaterFinished(x, nodes, transaction, actions, j, a, b);
    }
  }
}
