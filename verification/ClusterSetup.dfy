/** What a whole setup leaves behind: everything asked for if no call failed, and otherwise nothing. */
module ClusterSetup {
  import opened Results
  import opened Journal
  import opened Doctor
  import opened NodeRuns
  import opened ClusterRuns
  import opened ClusterSafety

  // ----- a rollback, node by node -----

  /** The node is free for this transaction: it has no journal, or this transaction's. */
  predicate Free(d: Disk, transaction: string) {
    d.journal == None || d.journal.value.transaction == transaction
  }

  /** The network lets every step of the node's restore happen. */
  predicate Undisturbed(d: Disk, line: Line) {
    d.journal == None || line.steps >= |RestoreTrace(d)|
  }

  lemma SafeNode(site: Site, origins: map<NodeId, Files>, foreign: set<string>, cl: Cluster, n: NodeId)
    requires Safe(site, origins, foreign, cl) && n in cl.disks
    ensures n in origins && NodeSafe(site(n), origins[n], foreign, cl.manifest, n, cl.disks[n])
    ensures Recoverable(site(n).digest, origins[n], cl.disks[n])
  {
    hide Recoverable;
  }

  /** From a safe state a node that is free passes the checks of a restore. */
  lemma FreeTakesRestore(c: Context, origin: Files, d: Disk, transaction: string)
    requires Recoverable(c.digest, origin, d)
    ensures Takes(c, d, transaction, Restore) <==> Free(d, transaction)
  {
    hide Accepted, Distinct, Journalled;
  }

  /** The call of one restore that gets through, and that of one that does not. */
  lemma RestoreCall(site: Site, cl: Cluster, n: NodeId, transaction: string, line: Line)
    requires n in cl.disks && Takes(site(n), cl.disks[n], transaction, Restore)
    ensures Succeeds(site(n), cl.disks[n], transaction, Restore, line)
       <==> line.reply && Undisturbed(cl.disks[n], line)
    ensures Undisturbed(cl.disks[n], line) ==>
              Final(cl, CallTrace(site, cl, n, transaction, Restore, line)).disks[n].journal == None
  {
    hide CheckAccepts;
    var d := cl.disks[n];
    if d.journal.Some? {
      hide Undo, UndoTrace, Pass;
    }
  }

  /** Only a node's own calls change its disk. */
  lemma CallElsewhere(site: Site, cl: Cluster, p: NodeId, transaction: string, op: Operation, line: Line)
    requires p in cl.disks
    ensures var after := Final(cl, CallTrace(site, cl, p, transaction, op, line));
            && after.manifest == cl.manifest && after.disks.Keys == cl.disks.Keys
            && forall n | n in cl.disks && n != p :: after.disks[n] == cl.disks[n]
  {
    hide NodeTrace, Cut;
  }

  lemma {:induction false} RestoredElsewhere(site: Site, cl: Cluster, ready: seq<NodeId>, transaction: string,
                                             w: Weather)
    requires Listed(cl, ready)
    ensures var after := Final(cl, RestoreEach(site, cl, ready, transaction, w));
            && after.manifest == cl.manifest && after.disks.Keys == cl.disks.Keys
            && forall n | n in cl.disks && n !in ready :: after.disks[n] == cl.disks[n]
    decreases |ready|
  {
    hide CallTrace;
    if ready != [] {
      CallElsewhere(site, cl, ready[0], transaction, Restore, w.lines(ready[0]));
      var t := CallTrace(site, cl, ready[0], transaction, Restore, w.lines(ready[0]));
      RestoredElsewhere(site, Final(cl, t), ready[1..], transaction, w);
    }
  }

  /** A node whose restore nothing disturbs loses its journal, whatever happens to the others. */
  lemma {:induction false} UndisturbedIsRestored(site: Site, cl: Cluster, ready: seq<NodeId>, transaction: string,
                                                 w: Weather, n: NodeId)
    requires Listed(cl, ready) && n in ready
    requires Takes(site(n), cl.disks[n], transaction, Restore) && Undisturbed(cl.disks[n], w.lines(n))
    ensures var after := Final(cl, RestoreEach(site, cl, ready, transaction, w));
            n in after.disks && after.disks[n].journal == None
    decreases |ready|
  {
    hide CallTrace, Takes, Undisturbed;
    var p := ready[0];
    var t := CallTrace(site, cl, p, transaction, Restore, w.lines(p));
    if p == n {
      RestoreCall(site, cl, n, transaction, w.lines(n));
      RestoreEachClears(site, Final(cl, t), ready[1..], transaction, w, n);
    } else {
      CallElsewhere(site, cl, p, transaction, Restore, w.lines(p));
      UndisturbedIsRestored(site, Final(cl, t), ready[1..], transaction, w, n);
    }
  }

  ghost predicate AllThrough(cl: Cluster, ready: seq<NodeId>, w: Weather)
    requires Listed(cl, ready)
  {
    forall n | n in ready :: w.lines(n).reply && Undisturbed(cl.disks[n], w.lines(n))
  }

  ghost predicate AllTake(site: Site, cl: Cluster, ready: seq<NodeId>, transaction: string)
    requires Listed(cl, ready)
  {
    forall n | n in ready :: Takes(site(n), cl.disks[n], transaction, Restore)
  }

  /** A restore of ready nodes reports success exactly if nothing disturbed any of them. */
  lemma {:induction false} EachRestored(site: Site, cl: Cluster, ready: seq<NodeId>, transaction: string, w: Weather)
    requires Listed(cl, ready) && AllTake(site, cl, ready, transaction)
    ensures AllRestored(site, cl, ready, transaction, w) <==> AllThrough(cl, ready, w)
    decreases |ready|
  {
    if ready != [] {
      hide Takes, Undisturbed, CallTrace, Final;
      var n := ready[0];
      var after := Final(cl, CallTrace(site, cl, n, transaction, Restore, w.lines(n)));
      RestoreCall(site, cl, n, transaction, w.lines(n));
      CallElsewhere(site, cl, n, transaction, Restore, w.lines(n));
      if w.lines(n).reply && Undisturbed(cl.disks[n], w.lines(n)) {
        assert Takes(site(n), after.disks[n], transaction, Restore) && Undisturbed(after.disks[n], w.lines(n)) by {
          NothingToRestore(site(n), after.disks[n], transaction, w.lines(n));
        }
        EachRestored(site, after, ready[1..], transaction, w);
        assert AllThrough(cl, ready, w) <==> AllThrough(after, ready[1..], w);
      }
    }
  }

  lemma NothingToRestore(c: Context, d: Disk, transaction: string, line: Line)
    requires d.journal == None
    ensures Takes(c, d, transaction, Restore) && Undisturbed(d, line)
  {
  }

  lemma {:induction false} ReadyAre(site: Site, cl: Cluster, nodes: seq<NodeId>, transaction: string, w: Weather)
    requires Listed(cl, nodes)
    ensures forall n | n in nodes && PreflightPasses(site, cl, n, transaction, w) ::
              n in Ready(site, cl, nodes, transaction, w)
  {
    hide PreflightPasses;
    if nodes != [] {
      ReadyAre(site, cl, nodes[1..], transaction, w);
    }
  }

  /** What a best-effort restore comes to: the restores of the ready nodes, and the manifest's end if all went well. */
  lemma BestEffortEnds(site: Site, cl: Cluster, nodes: seq<NodeId>, transaction: string, w: Weather)
    requires Listed(cl, nodes)
    ensures var ready := Ready(site, cl, Reversed(nodes), transaction, w);
            var after := Final(cl, RestoreEach(site, cl, ready, transaction, w));
            Final(cl, RestoreClusterTrace(site, cl, nodes, transaction, w, true))
            == if |ready| == |nodes| && AllRestored(site, cl, ready, transaction, w) then after.(manifest := None)
               else after
  {
    hide Ready, RestoreEach, AllRestored, Reversed;
  }

  /** From a safe state, a node is ready if it answers and is free. */
  lemma ReadyNode(site: Site, origins: map<NodeId, Files>, foreign: set<string>, cl: Cluster, nodes: seq<NodeId>,
                  transaction: string, w: Weather, n: NodeId)
    requires Safe(site, origins, foreign, cl) && Listed(cl, nodes) && n in nodes
    ensures w.answers(n) && Free(cl.disks[n], transaction)
       <==> n in Ready(site, cl, Reversed(nodes), transaction, w)
    ensures n in Ready(site, cl, Reversed(nodes), transaction, w) ==> Takes(site(n), cl.disks[n], transaction, Restore)
  {
    SafeNode(site, origins, foreign, cl, n);
    hide Safe, Takes, Free, Reversed, Ready, Recoverable;
    FreeTakesRestore(site(n), origins[n], cl.disks[n], transaction);
    ReadyAre(site, cl, Reversed(nodes), transaction, w);
  }

  /** The files of a safe node without a journal are its original ones. */
  lemma SafeWithoutJournal(site: Site, origins: map<NodeId, Files>, foreign: set<string>, cl: Cluster, n: NodeId)
    requires Safe(site, origins, foreign, cl) && n in cl.disks && cl.disks[n].journal == None
    ensures n in origins && cl.disks[n] == Disk(origins[n], None)
  {
    SafeNode(site, origins, foreign, cl, n);
  }

  /**
   * A best-effort restore from any safe state: each listed node that answers, is free, and is not
   * disturbed has its original files; each that does not answer or is not free, and each that is not
   * listed, is untouched; and the manifest goes exactly if all listed nodes were restored and said so.
   */
  lemma RollbackOutcome(site: Site, origins: map<NodeId, Files>, foreign: set<string>, cl: Cluster, m: Manifest,
                        w: Weather)
    requires Safe(site, origins, foreign, cl) && Governs(cl, m, foreign)
    ensures var after := Final(cl, RestoreClusterTrace(site, cl, m.nodes, m.transaction, w, true));
            && after.disks.Keys == cl.disks.Keys
            && (forall n | n in m.nodes && w.answers(n) && Free(cl.disks[n], m.transaction)
                           && Undisturbed(cl.disks[n], w.lines(n)) :: after.disks[n] == Disk(origins[n], None))
            && (forall n | n in cl.disks && (n !in m.nodes || !w.answers(n) || !Free(cl.disks[n], m.transaction)) ::
                  after.disks[n] == cl.disks[n])
            && (after.manifest == None <==>
                  forall n | n in m.nodes :: && w.answers(n) && Free(cl.disks[n], m.transaction)
                                             && w.lines(n).reply && Undisturbed(cl.disks[n], w.lines(n)))
  {
    hide Ready, RestoreEach, AllRestored, Takes, Free, Undisturbed, Safe, Reversed, RestoreClusterTrace, Final,
         NodeSafe, PreflightPasses;
    GovernsListed(cl, m, foreign);
    var ready := Ready(site, cl, Reversed(m.nodes), m.transaction, w);
    var after := Final(cl, RestoreEach(site, cl, ready, m.transaction, w));
    forall n | n in m.nodes
      ensures w.answers(n) && Free(cl.disks[n], m.transaction) <==> n in ready
      ensures n in ready ==> Takes(site(n), cl.disks[n], m.transaction, Restore)
    {
      ReadyNode(site, origins, foreign, cl, m.nodes, m.transaction, w, n);
    }
    BestEffortEnds(site, cl, m.nodes, m.transaction, w);
    RestoredElsewhere(site, cl, ready, m.transaction, w);
    assert Listed(cl, ready);
    RestoresEndSafe(site, origins, foreign, cl, m, ready, w);
    SafeKnows(site, origins, foreign, cl);
    forall n | n in ready && Undisturbed(cl.disks[n], w.lines(n))
      ensures after.disks[n] == Disk(origins[n], None)
    {
      UndisturbedIsRestored(site, cl, ready, m.transaction, w, n);
      SafeWithoutJournal(site, origins, foreign, after, n);
    }
    EachRestored(site, cl, ready, m.transaction, w);
    AllReady(site, cl, m.nodes, m.transaction, w);
  }

  lemma RestoresEndSafe(site: Site, origins: map<NodeId, Files>, foreign: set<string>, cl: Cluster, m: Manifest,
                        ready: seq<NodeId>, w: Weather)
    requires Safe(site, origins, foreign, cl) && Governs(cl, m, foreign) && forall n | n in ready :: n in m.nodes
    ensures Safe(site, origins, foreign, Final(cl, RestoreEach(site, cl, ready, m.transaction, w)))
  {
    hide Safe, RestoreEach;
    RestoreEachSafe(site, origins, foreign, cl, m, ready, w);
  }

  lemma AllReady(site: Site, cl: Cluster, nodes: seq<NodeId>, transaction: string, w: Weather)
    requires Listed(cl, nodes)
    ensures var ready := Ready(site, cl, Reversed(nodes), transaction, w);
            |ready| == |nodes| <==> forall n | n in nodes :: n in ready
  {
    hide PreflightPasses;
    var ready := Ready(site, cl, Reversed(nodes), transaction, w);
    if |ready| == |nodes| {
      ReadyIsAll(site, cl, Reversed(nodes), transaction, w);
    }
  }

  lemma GovernsListed(cl: Cluster, m: Manifest, foreign: set<string>)
    requires Governs(cl, m, foreign)
    ensures Listed(cl, m.nodes) && cl.manifest == Some(m) && forall n | n in m.nodes :: n in cl.disks
  {
  }

  lemma SafeKnows(site: Site, origins: map<NodeId, Files>, foreign: set<string>, cl: Cluster)
    requires Safe(site, origins, foreign, cl)
    ensures origins.Keys == cl.disks.Keys
  {
  }

  // ----- a setup that fails -----

  ghost predicate Calls(cl: Cluster, calls: seq<(NodeId, Operation)>, k: nat) {
    k <= |calls| && forall i | 0 <= i < |calls| :: calls[i].0 in cl.disks
  }

  /** Where the calls leave the cluster. */
  ghost function Reached(site: Site, cl: Cluster, transaction: string, calls: seq<(NodeId, Operation)>,
                         lines: nat -> Line, k: nat)
    : Cluster
    requires Calls(cl, calls, k)
  {
    Final(cl, RunCalls(site, cl, transaction, calls, lines, k))
  }

  lemma ReachedUnfolds(site: Site, cl: Cluster, transaction: string, calls: seq<(NodeId, Operation)>,
                       lines: nat -> Line, k: nat)
    requires Calls(cl, calls, k) && k < |calls|
    ensures var after := Final(cl, CallTrace(site, cl, calls[k].0, transaction, calls[k].1, lines(k)));
            && after.disks.Keys == cl.disks.Keys && after.manifest == cl.manifest && Calls(after, calls, k + 1)
            && Reached(site, cl, transaction, calls, lines, k)
               == if Succeeds(site(calls[k].0), cl.disks[calls[k].0], transaction, calls[k].1, lines(k))
                  then Reached(site, after, transaction, calls, lines, k + 1) else after
  {
    hide CallTrace, Succeeds;
    var (n, op) := calls[k];
    CallElsewhere(site, cl, n, transaction, op, lines(k));
  }

  /** A call leaves a free node free, and does nothing to one that is not. */
  lemma CallKeepsFree(site: Site, cl: Cluster, origin: Files, n: NodeId, transaction: string, op: Operation, line: Line)
    requires n in cl.disks && Recoverable(site(n).digest, origin, cl.disks[n])
    ensures var after := Final(cl, CallTrace(site, cl, n, transaction, op, line));
            && after.disks.Keys == cl.disks.Keys
            && (Free(cl.disks[n], transaction) ==> Free(after.disks[n], transaction))
            && (!Free(cl.disks[n], transaction) ==> after.disks[n] == cl.disks[n])
  {
    var d := cl.disks[n];
    if Ours(d, transaction) {
      StepsKeepTransaction(site(n), origin, d, transaction, op);
    }
    hide Recoverable, Trace;
  }

  /** Every listed node that was free still is, and every other node's disk is as it was. */
  ghost predicate OnlyFreeChange(before: Cluster, after: Cluster, nodes: seq<NodeId>, transaction: string) {
    && after.disks.Keys == before.disks.Keys
    && forall n | n in before.disks ::
         if n in nodes && Free(before.disks[n], transaction) then Free(after.disks[n], transaction)
         else after.disks[n] == before.disks[n]
  }

  lemma {:induction false} CallsChangeOnlyFree(site: Site, origins: map<NodeId, Files>, foreign: set<string>,
                                               cl: Cluster, m: Manifest, calls: seq<(NodeId, Operation)>,
                                               lines: nat -> Line, k: nat)
    requires Safe(site, origins, foreign, cl) && Governs(cl, m, foreign) && k <= |calls| && CallsListed(calls, m.nodes)
    ensures Calls(cl, calls, k)
    ensures var after := Reached(site, cl, m.transaction, calls, lines, k);
            && Safe(site, origins, foreign, after) && Governs(after, m, foreign)
            && OnlyFreeChange(cl, after, m.nodes, m.transaction)
    decreases |calls| - k
  {
    hide Safe, CallTrace, Succeeds, Recoverable, Free;
    if k < |calls| {
      var (n, op) := calls[k];
      var after := Final(cl, CallTrace(site, cl, n, m.transaction, op, lines(k)));
      SafeNode(site, origins, foreign, cl, n);
      CallEndsSafe(site, origins, foreign, cl, m, n, op, lines(k));
      CallKeepsFree(site, cl, origins[n], n, m.transaction, op, lines(k));
      CallElsewhere(site, cl, n, m.transaction, op, lines(k));
      CallsChangeOnlyFree(site, origins, foreign, after, m, calls, lines, k + 1);
      ReachedUnfolds(site, cl, m.transaction, calls, lines, k);
    } else {
      assert RunCalls(site, cl, m.transaction, calls, lines, k) == [];
    }
  }

  ghost function Begun(cl: Cluster, nodes: seq<NodeId>, transaction: string): Cluster {
    cl.(manifest := Some(Manifest(nodes, transaction)))
  }

  lemma SetupCallable(cl: Cluster, nodes: seq<NodeId>, transaction: string, actions: NodeId -> Actions)
    requires Listed(cl, nodes)
    ensures Calls(Begun(cl, nodes, transaction), SetupCalls(nodes, transaction, actions), 0)
    ensures CallsListed(SetupCalls(nodes, transaction, actions), nodes)
  {
    SetupListed(nodes, transaction, actions);
  }

  /** No call of the setup failed. */
  ghost predicate AllCallsSucceed(site: Site, cl: Cluster, nodes: seq<NodeId>, transaction: string,
                                  actions: NodeId -> Actions, lines: nat -> Line)
    requires Listed(cl, nodes)
  {
    SetupCallable(cl, nodes, transaction, actions);
    CallsSucceed(site, Begun(cl, nodes, transaction), transaction, SetupCalls(nodes, transaction, actions), lines, 0)
  }

  /** The cluster when the calls have ended, each successfully or the last not. */
  ghost function AfterCalls(site: Site, cl: Cluster, nodes: seq<NodeId>, transaction: string,
                            actions: NodeId -> Actions, lines: nat -> Line)
    : Cluster
    requires Listed(cl, nodes)
  {
    SetupCallable(cl, nodes, transaction, actions);
    Reached(site, Begun(cl, nodes, transaction), transaction, SetupCalls(nodes, transaction, actions), lines, 0)
  }

  /** Every state of the cluster while the calls are made. */
  ghost function CallStates(site: Site, cl: Cluster, nodes: seq<NodeId>, transaction: string,
                            actions: NodeId -> Actions, lines: nat -> Line)
    : seq<Cluster>
    requires Listed(cl, nodes)
  {
    SetupCallable(cl, nodes, transaction, actions);
    RunCalls(site, Begun(cl, nodes, transaction), transaction, SetupCalls(nodes, transaction, actions), lines, 0)
  }

  lemma SetupEnds(site: Site, cl: Cluster, nodes: seq<NodeId>, transaction: string, actions: NodeId -> Actions,
                  lines: nat -> Line, rollback: Weather)
    requires Listed(cl, nodes) && cl.manifest == None
    ensures var failed := AfterCalls(site, cl, nodes, transaction, actions, lines);
            && Listed(failed, nodes)
            && Final(cl, CommandTrace(site, cl, Setup(nodes, transaction, actions, lines, rollback)))
               == if AllCallsSucceed(site, cl, nodes, transaction, actions, lines) then failed
                  else Final(failed, RestoreClusterTrace(site, failed, nodes, transaction, rollback, true))
  {
    hide RunCalls, CallsSucceed, SetupCalls, RestoreClusterTrace;
    SetupCallable(cl, nodes, transaction, actions);
    var calls := SetupCalls(nodes, transaction, actions);
    var begun := Begun(cl, nodes, transaction);
    var t := RunCalls(site, begun, transaction, calls, lines, 0);
  }

  /**
   * A setup that fails and can roll back in fair weather leaves every disk of the cluster as it found
   * it, and no manifest exactly if no listed node was held by another transaction.
   */
  lemma FailedSetupUndone(site: Site, origins: map<NodeId, Files>, foreign: set<string>, cl: Cluster,
                          nodes: seq<NodeId>, transaction: string, actions: NodeId -> Actions, lines: nat -> Line,
                          rollback: Weather)
    requires Safe(site, origins, foreign, cl) && cl.manifest == None && Listed(cl, nodes) && transaction !in foreign
    requires !AllCallsSucceed(site, cl, nodes, transaction, actions, lines)
    requires FairWeather(rollback, AfterCalls(site, cl, nodes, transaction, actions, lines))
    ensures var after := Final(cl, CommandTrace(site, cl, Setup(nodes, transaction, actions, lines, rollback)));
            && after.disks == cl.disks
            && (after.manifest == None <==> forall n | n in nodes :: cl.disks[n].journal == None)
            && (after.manifest == None ==> forall n | n in nodes :: cl.disks[n] == Disk(origins[n], None))
  {
    hide *;
    var failed := AfterCalls(site, cl, nodes, transaction, actions, lines);
    SetupEnds(site, cl, nodes, transaction, actions, lines, rollback);
    CallsOfSetup(site, origins, foreign, cl, nodes, transaction, actions, lines);
    FairRollback(site, origins, foreign, cl, failed, nodes, transaction, rollback);
  }

  lemma FairRollback(site: Site, origins: map<NodeId, Files>, foreign: set<string>, cl: Cluster, failed: Cluster,
                     nodes: seq<NodeId>, transaction: string, rollback: Weather)
    requires Safe(site, origins, foreign, cl) && cl.manifest == None && Listed(cl, nodes) && transaction !in foreign
    requires Safe(site, origins, foreign, failed) && Governs(failed, Manifest(nodes, transaction), foreign)
    requires OnlyFreeChange(cl, failed, nodes, transaction) && FairWeather(rollback, failed)
    ensures Listed(failed, nodes)
    ensures var after := Final(failed, RestoreClusterTrace(site, failed, nodes, transaction, rollback, true));
            && after.disks == cl.disks
            && (after.manifest == None <==> forall n | n in nodes :: cl.disks[n].journal == None)
            && (after.manifest == None ==> forall n | n in nodes :: cl.disks[n] == Disk(origins[n], None))
  {
    hide Safe, RestoreClusterTrace, Governs, Final, Undisturbed, FairWeather, Free;
    GovernsListed(failed, Manifest(nodes, transaction), foreign);
    RollbackOutcome(site, origins, foreign, failed, Manifest(nodes, transaction), rollback);
    FairToAll(rollback, failed);
    UnconfiguredNodes(site, origins, foreign, cl, transaction);
    SafeKnows(site, origins, foreign, cl);
  }

  lemma CallsOfSetup(site: Site, origins: map<NodeId, Files>, foreign: set<string>, cl: Cluster, nodes: seq<NodeId>,
                     transaction: string, actions: NodeId -> Actions, lines: nat -> Line)
    requires Safe(site, origins, foreign, cl) && cl.manifest == None && Listed(cl, nodes) && transaction !in foreign
    ensures var failed := AfterCalls(site, cl, nodes, transaction, actions, lines);
            && Safe(site, origins, foreign, failed) && Governs(failed, Manifest(nodes, transaction), foreign)
            && OnlyFreeChange(cl, failed, nodes, transaction)
  {
    hide Safe, SetupCalls, Reached;
    var m, calls := Manifest(nodes, transaction), SetupCalls(nodes, transaction, actions);
    SetupCallable(cl, nodes, transaction, actions);
    BegunSafe(site, origins, foreign, cl, m);
    CallsChangeOnlyFree(site, origins, foreign, Begun(cl, nodes, transaction), m, calls, lines, 0);
  }

  lemma FairToAll(w: Weather, cl: Cluster)
    requires FairWeather(w, cl)
    ensures forall n :: w.answers(n) && w.lines(n).reply
    ensures forall n | n in cl.disks :: Undisturbed(cl.disks[n], w.lines(n))
  {
    hide RestoreTrace;
  }

  /** Before a setup a node is free for a new transaction if it has no journal, and then has its original files. */
  lemma UnconfiguredNodes(site: Site, origins: map<NodeId, Files>, foreign: set<string>, cl: Cluster,
                          transaction: string)
    requires Safe(site, origins, foreign, cl) && cl.manifest == None && transaction !in foreign
    ensures forall n | n in cl.disks ::
              && n in origins
              && (Free(cl.disks[n], transaction) <==> cl.disks[n].journal == None)
              && (cl.disks[n].journal == None ==> cl.disks[n] == Disk(origins[n], None))
  {
    forall n | n in cl.disks
      ensures n in origins
      ensures Free(cl.disks[n], transaction) <==> cl.disks[n].journal == None
      ensures cl.disks[n].journal == None ==> cl.disks[n] == Disk(origins[n], None)
    {
      SafeNode(site, origins, foreign, cl, n);
    }
  }

  // ----- a setup that succeeds -----

  /** What a call of setup was for is in place on the node. */
  ghost predicate Done(d: Disk, transaction: string, op: Operation) {
    && d.journal.Some? && d.journal.value.transaction == transaction
    && (op.Write? ==> Journalled(d.journal.value.entries, op.path) && Current(d.files, op.path) == Some(op.file))
    && (op.StartNetwork? ==> d.journal.value.networkStarted)
  }

  predicate SetupOperation(op: Operation) {
    op.Prepare? || op.Write? || op.StartNetwork?
  }

  /** A call that succeeds does what it was for, and undoes nothing of what earlier calls were for. */
  lemma SuccessStays(site: Site, cl: Cluster, n: NodeId, transaction: string, op: Operation, line: Line)
    requires n in cl.disks && SetupOperation(op) && Succeeds(site(n), cl.disks[n], transaction, op, line)
    ensures var after := Final(cl, CallTrace(site, cl, n, transaction, op, line));
            && n in after.disks && Done(after.disks[n], transaction, op)
            && forall earlier: Operation | Done(cl.disks[n], transaction, earlier) ::
                 Done(after.disks[n], transaction, earlier)
  {
    var d := cl.disks[n];
    if op.Write? {
      WriteIsDone(site(n).digest, d, transaction, op.path, op.file);
    }
    hide Journalled, WriteTrace;
  }

  lemma WriteIsDone(digest: Data -> Digest, d: Disk, transaction: string, path: Path, f: File)
    requires Ours(d, transaction) && !Journalled(d.journal.value.entries, path)
    ensures var t := WriteTrace(digest, d, path, f);
            && |t| == 2 && Done(t[1], transaction, Write(path, f))
            && forall earlier: Operation | Done(d, transaction, earlier) :: Done(t[1], transaction, earlier)
  {
    var entries, e := d.journal.value.entries, NewEntry(digest, d.files, path, f);
    forall p: Path
      ensures Journalled(entries + [e], p) <==> Journalled(entries, p) || p == e.path
    {
      OneMoreJournalled(entries, e, p);
    }
    hide Journalled;
  }

  ghost predicate SetupOperations(calls: seq<(NodeId, Operation)>) {
    forall i | 0 <= i < |calls| :: SetupOperation(calls[i].1)
  }

  /** When all calls have succeeded, what each was for is in place. */
  lemma {:induction false} SuccessesStay(site: Site, cl: Cluster, transaction: string,
                                         calls: seq<(NodeId, Operation)>, lines: nat -> Line, k: nat)
    requires Calls(cl, calls, k) && SetupOperations(calls) && CallsSucceed(site, cl, transaction, calls, lines, k)
    ensures var after := Reached(site, cl, transaction, calls, lines, k);
            && after.disks.Keys == cl.disks.Keys
            && (forall n, earlier: Operation | n in cl.disks && Done(cl.disks[n], transaction, earlier) ::
                  Done(after.disks[n], transaction, earlier))
            && forall i | k <= i < |calls| :: Done(after.disks[calls[i].0], transaction, calls[i].1)
    decreases |calls| - k
  {
    hide Done, SetupOperation, CallTrace, Succeeds;
    if k < |calls| {
      var (n, op) := calls[k];
      var next := Final(cl, CallTrace(site, cl, n, transaction, op, lines(k)));
      SuccessStays(site, cl, n, transaction, op, lines(k));
      CallElsewhere(site, cl, n, transaction, op, lines(k));
      ReachedUnfolds(site, cl, transaction, calls, lines, k);
      SuccessesStay(site, next, transaction, calls, lines, k + 1);
    } else {
      assert RunCalls(site, cl, transaction, calls, lines, k) == [];
    }
  }

  lemma WritesAre(n: NodeId, files: seq<(Path, File)>)
    ensures SetupOperations(Writes(n, files))
    ensures forall f | f in files :: (n, Write(f.0, f.1)) in Writes(n, files)
  {
    forall f | f in files
      ensures (n, Write(f.0, f.1)) in Writes(n, files)
    {
      var i :| 0 <= i < |files| && files[i] == f;
      assert Writes(n, files)[i] == (n, Write(f.0, f.1));
    }
  }

  lemma {:induction false} PrepareHolds(nodes: seq<NodeId>, transaction: string, actions: NodeId -> Actions, n: NodeId)
    ensures SetupOperations(PrepareCalls(nodes, transaction, actions))
    ensures n in nodes ==>
              && (n, Prepare(transaction)) in PrepareCalls(nodes, transaction, actions)
              && forall f | f in actions(n).keys :: (n, Write(f.0, f.1)) in PrepareCalls(nodes, transaction, actions)
  {
    hide Writes;
    if nodes != [] {
      WritesAre(nodes[0], actions(nodes[0]).keys);
      PrepareHolds(nodes[1..], transaction, actions, n);
    }
  }

  lemma {:induction false} SshHolds(nodes: seq<NodeId>, actions: NodeId -> Actions, n: NodeId)
    ensures SetupOperations(SshCalls(nodes, actions))
    ensures n in nodes ==> forall f | f in actions(n).ssh :: (n, Write(f.0, f.1)) in SshCalls(nodes, actions)
  {
    hide Writes;
    if nodes != [] {
      WritesAre(nodes[0], actions(nodes[0]).ssh);
      SshHolds(nodes[1..], actions, n);
    }
  }

  lemma {:induction false} NetworkHolds(nodes: seq<NodeId>, actions: NodeId -> Actions, n: NodeId)
    ensures SetupOperations(NetworkCalls(nodes, actions))
    ensures n in nodes ==>
              && (n, StartNetwork) in NetworkCalls(nodes, actions)
              && forall f | f in actions(n).network :: (n, Write(f.0, f.1)) in NetworkCalls(nodes, actions)
  {
    hide Writes;
    if nodes != [] {
      WritesAre(nodes[0], actions(nodes[0]).network);
      NetworkHolds(nodes[1..], actions, n);
    }
  }

  /** Every file of `files` is to be written to the node. */
  ghost predicate Asked(calls: seq<(NodeId, Operation)>, n: NodeId, files: seq<(Path, File)>) {
    forall f | f in files :: (n, Write(f.0, f.1)) in calls
  }

  lemma Joined(a: seq<(NodeId, Operation)>, b: seq<(NodeId, Operation)>, n: NodeId)
    ensures SetupOperations(a) && SetupOperations(b) ==> SetupOperations(a + b)
    ensures forall files | Asked(a, n, files) || Asked(b, n, files) :: Asked(a + b, n, files)
    ensures forall c | c in a || c in b :: c in a + b
  {
    hide SetupOperation;
  }

  /** All that setup is to do on a node. */
  lemma SetupCallsHold(nodes: seq<NodeId>, transaction: string, actions: NodeId -> Actions, n: NodeId)
    requires n in nodes
    ensures var calls := SetupCalls(nodes, transaction, actions);
            && SetupOperations(calls) && (n, Prepare(transaction)) in calls && (n, StartNetwork) in calls
            && Asked(calls, n, actions(n).keys) && Asked(calls, n, actions(n).ssh)
            && Asked(calls, n, actions(n).network) && (n == nodes[0] ==> Asked(calls, n, actions(n).env))
  {
    hide PrepareCalls, SshCalls, NetworkCalls, Reversed, Writes, SetupOperations;
    var prepare, ssh := PrepareCalls(nodes, transaction, actions), SshCalls(nodes, actions);
    var network, env := NetworkCalls(Reversed(nodes), actions), Writes(nodes[0], actions(nodes[0]).env);
    PrepareHolds(nodes, transaction, actions, n);
    SshHolds(nodes, actions, n);
    NetworkHolds(Reversed(nodes), actions, n);
    WritesAre(nodes[0], actions(nodes[0]).env);
    assert Asked(prepare, n, actions(n).keys) && Asked(ssh, n, actions(n).ssh);
    assert Asked(network, n, actions(n).network) && Asked(env, nodes[0], actions(nodes[0]).env);
    hide Asked;
    Joined(prepare, ssh, n);
    Joined(prepare + ssh, network, n);
    Joined(prepare + ssh + network, env, n);
  }

  /** Every file of `files` is on the disk as given. */
  ghost predicate Holds(d: Disk, files: seq<(Path, File)>) {
    forall f | f in files :: f.0 in d.files && d.files[f.0] == f.1
  }

  ghost predicate AllDone(cl: Cluster, transaction: string, calls: seq<(NodeId, Operation)>) {
    forall c | c in calls :: c.0 in cl.disks && Done(cl.disks[c.0], transaction, c.1)
  }

  lemma AskedIsHeld(cl: Cluster, transaction: string, calls: seq<(NodeId, Operation)>, n: NodeId,
                    files: seq<(Path, File)>)
    requires AllDone(cl, transaction, calls) && Asked(calls, n, files) && n in cl.disks
    ensures Holds(cl.disks[n], files)
  {
    hide Journalled;
    forall f | f in files
      ensures f.0 in cl.disks[n].files && cl.disks[n].files[f.0] == f.1
    {
      var c := (n, Write(f.0, f.1));
      assert c in calls;
    }
  }

  lemma AllCallsDone(site: Site, cl: Cluster, nodes: seq<NodeId>, transaction: string, actions: NodeId -> Actions,
                     lines: nat -> Line)
    requires Listed(cl, nodes) && nodes != [] && AllCallsSucceed(site, cl, nodes, transaction, actions, lines)
    ensures var after := AfterCalls(site, cl, nodes, transaction, actions, lines);
            && after.manifest == Some(Manifest(nodes, transaction)) && after.disks.Keys == cl.disks.Keys
            && AllDone(after, transaction, SetupCalls(nodes, transaction, actions))
  {
    hide SetupCalls, RunCalls, CallsSucceed, Done;
    SetupCallable(cl, nodes, transaction, actions);
    SetupCallsHold(nodes, transaction, actions, nodes[0]);
    SuccessesStay(site, Begun(cl, nodes, transaction), transaction, SetupCalls(nodes, transaction, actions), lines, 0);
  }

  /**
   * A setup none of whose calls fails leaves the manifest of its transaction on the head, and on every
   * listed node a journal of that transaction with networking started and every file it was to write,
   * as given; the head node also has its environment file.
   */
  lemma SetupConfigures(site: Site, cl: Cluster, nodes: seq<NodeId>, transaction: string, actions: NodeId -> Actions,
                        lines: nat -> Line, rollback: Weather, n: NodeId)
    requires cl.manifest == None && Listed(cl, nodes) && n in nodes
    requires AllCallsSucceed(site, cl, nodes, transaction, actions, lines)
    ensures var after := Final(cl, CommandTrace(site, cl, Setup(nodes, transaction, actions, lines, rollback)));
            && after.manifest == Some(Manifest(nodes, transaction)) && n in after.disks
            && after.disks[n].journal.Some? && after.disks[n].journal.value.transaction == transaction
            && after.disks[n].journal.value.networkStarted
            && Holds(after.disks[n], actions(n).keys) && Holds(after.disks[n], actions(n).ssh)
            && Holds(after.disks[n], actions(n).network) && (n == nodes[0] ==> Holds(after.disks[n], actions(n).env))
  {
    hide CommandTrace, SetupCalls, RestoreClusterTrace, AfterCalls, AllCallsSucceed, Asked, Holds;
    var calls := SetupCalls(nodes, transaction, actions);
    SetupEnds(site, cl, nodes, transaction, actions, lines, rollback);
    AllCallsDone(site, cl, nodes, transaction, actions, lines);
    var after := AfterCalls(site, cl, nodes, transaction, actions, lines);
    SetupCallsHold(nodes, transaction, actions, n);
    AskedIsHeld(after, transaction, calls, n, actions(n).keys);
    AskedIsHeld(after, transaction, calls, n, actions(n).ssh);
    AskedIsHeld(after, transaction, calls, n, actions(n).network);
    if n == nodes[0] {
      AskedIsHeld(after, transaction, calls, n, actions(n).env);
    }
    assert (n, StartNetwork) in calls;
  }
}
