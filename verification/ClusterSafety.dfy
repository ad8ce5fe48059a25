/** What every run of the cluster protocol keeps, whichever disk step a crash falls between. */
module ClusterSafety {
  import opened Results
  import opened Journal
  import opened Doctor
  import opened NodeRuns
  import opened ClusterRuns

  /**
   * One node: its journal leads back to its original files, and a journal of
   * this head's making is named by the manifest. Journals of other heads carry
   * a transaction in `foreign`.
   */
  ghost predicate NodeSafe(c: Context, origin: Files, foreign: set<string>, manifest: Option<Manifest>, n: NodeId,
                           d: Disk) {
    && Recoverable(c.digest, origin, d)
    && (d.journal.Some? && d.journal.value.transaction !in foreign ==>
          manifest.Some? && manifest.value.transaction == d.journal.value.transaction && n in manifest.value.nodes)
  }

  ghost predicate Safe(site: Site, origins: map<NodeId, Files>, foreign: set<string>, cl: Cluster) {
    && origins.Keys == cl.disks.Keys
    && (cl.manifest.Some? ==> cl.manifest.value.transaction !in foreign)
    && (forall n | n in cl.disks :: NodeSafe(site(n), origins[n], foreign, cl.manifest, n, cl.disks[n]))
  }

  /** The manifest of a run under way: this head's, for nodes it knows. */
  ghost predicate Governs(cl: Cluster, m: Manifest, foreign: set<string>) {
    cl.manifest == Some(m) && m.transaction !in foreign && Listed(cl, m.nodes)
  }

  lemma StepsKeepTransaction(c: Context, origin: Files, d: Disk, transaction: string, op: Operation)
    requires Recoverable(c.digest, origin, d)
    ensures forall k | 0 <= k < |NodeTrace(c, d, transaction, op)| ::
              var now := NodeTrace(c, d, transaction, op)[k];
              now.journal == None || Ours(now, transaction)
  {
    if Ours(d, transaction) {
      match op
      case Prepare(_) =>
      case Write(path, file) =>
      case StartNetwork =>
      case Restore =>
        forall k: nat | k < |RestoreTrace(d)| - 1
          ensures RestoreTrace(d)[k].journal == d.journal
        {
          JournalDeletedLast(d, k);
        }
      case Repair(blocked) =>
        RepairWithin(c, Wanted(c, d, blocked), d, d, 0);
    }
  }

  lemma PutSafe(site: Site, origins: map<NodeId, Files>, foreign: set<string>, cl: Cluster, m: Manifest, n: NodeId,
                d: Disk)
    requires Safe(site, origins, foreign, cl) && Governs(cl, m, foreign) && n in m.nodes
    requires Recoverable(site(n).digest, origins[n], d) && (d.journal == None || Ours(d, m.transaction))
    ensures var next := cl.(disks := cl.disks[n := d]);
            Safe(site, origins, foreign, next) && Governs(next, m, foreign)
  {
    hide Recoverable;
  }

  lemma CallSafe(site: Site, origins: map<NodeId, Files>, foreign: set<string>, cl: Cluster, m: Manifest,
                 n: NodeId, op: Operation, line: Line)
    requires Safe(site, origins, foreign, cl) && Governs(cl, m, foreign) && n in m.nodes
    ensures var t := CallTrace(site, cl, n, m.transaction, op, line);
            forall k | 0 <= k < |t| :: Safe(site, origins, foreign, t[k]) && Governs(t[k], m, foreign)
  {
    hide NodeTrace, Recoverable, Ours;
    var d, t := cl.disks[n], CallTrace(site, cl, n, m.transaction, op, line);
    var steps := NodeTrace(site(n), d, m.transaction, op);
    assert NodeSafe(site(n), origins[n], foreign, cl.manifest, n, d);
    NodeStepsRecoverable(site(n), origins[n], d, m.transaction, op);
    StepsKeepTransaction(site(n), origins[n], d, m.transaction, op);
    forall k | 0 <= k < |t|
      ensures Safe(site, origins, foreign, t[k]) && Governs(t[k], m, foreign)
    {
      hide Safe, Governs;
      PutSafe(site, origins, foreign, cl, m, n, steps[k]);
    }
  }

  lemma NodeStepsRecoverable(c: Context, origin: Files, d: Disk, transaction: string, op: Operation)
    requires Recoverable(c.digest, origin, d)
    ensures forall k | 0 <= k < |NodeTrace(c, d, transaction, op)| ::
              Recoverable(c.digest, origin, NodeTrace(c, d, transaction, op)[k])
  {
    hide Recoverable, Trace;
    StepsKeepRecoverable(c, origin, d, op);
  }

  lemma CallEndsSafe(site: Site, origins: map<NodeId, Files>, foreign: set<string>, cl: Cluster, m: Manifest,
                     n: NodeId, op: Operation, line: Line)
    requires Safe(site, origins, foreign, cl) && Governs(cl, m, foreign) && n in m.nodes
    ensures var after := Final(cl, CallTrace(site, cl, n, m.transaction, op, line));
            Safe(site, origins, foreign, after) && Governs(after, m, foreign)
  {
    CallSafe(site, origins, foreign, cl, m, n, op, line);
  }

  /** Every state of a trace is safe and still governed by the manifest. */
  ghost predicate TraceSafe(site: Site, origins: map<NodeId, Files>, foreign: set<string>, m: Manifest,
                            t: seq<Cluster>) {
    forall k | 0 <= k < |t| :: Safe(site, origins, foreign, t[k]) && Governs(t[k], m, foreign)
  }

  lemma {:induction false} RunCallsSafe(site: Site, origins: map<NodeId, Files>, foreign: set<string>, cl: Cluster,
                                        m: Manifest, calls: seq<(NodeId, Operation)>, lines: nat -> Line, k: nat)
    requires Safe(site, origins, foreign, cl) && Governs(cl, m, foreign) && k <= |calls| && CallsListed(calls, m.nodes)
    ensures TraceSafe(site, origins, foreign, m, RunCalls(site, cl, m.transaction, calls, lines, k))
    decreases |calls| - k
  {
    hide Safe, CallTrace, Succeeds;
    if k < |calls| {
      var (n, op) := calls[k];
      CallSafe(site, origins, foreign, cl, m, n, op, lines(k));
      CallEndsSafe(site, origins, foreign, cl, m, n, op, lines(k));
      RunCallsSafe(site, origins, foreign, Final(cl, CallTrace(site, cl, n, m.transaction, op, lines(k))), m, calls,
                   lines, k + 1);
    }
  }

  lemma {:induction false} RestoreEachSafe(site: Site, origins: map<NodeId, Files>, foreign: set<string>, cl: Cluster,
                                           m: Manifest, ready: seq<NodeId>, w: Weather)
    requires Safe(site, origins, foreign, cl) && Governs(cl, m, foreign) && forall n | n in ready :: n in m.nodes
    ensures TraceSafe(site, origins, foreign, m, RestoreEach(site, cl, ready, m.transaction, w))
    decreases |ready|
  {
    hide Safe, CallTrace;
    if ready != [] {
      CallSafe(site, origins, foreign, cl, m, ready[0], Restore, w.lines(ready[0]));
      CallEndsSafe(site, origins, foreign, cl, m, ready[0], Restore, w.lines(ready[0]));
      RestoreEachSafe(site, origins, foreign,
                      Final(cl, CallTrace(site, cl, ready[0], m.transaction, Restore, w.lines(ready[0]))),
                      m, ready[1..], w);
    }
  }

  // ----- a complete restore leaves no journal of this transaction -----

  lemma RestoreCallEffect(site: Site, cl: Cluster, n: NodeId, transaction: string, line: Line, p: NodeId)
    requires n in cl.disks && p in cl.disks
    ensures var after := Final(cl, CallTrace(site, cl, n, transaction, Restore, line));
            && (cl.disks[p].journal == None ==> after.disks[p].journal == None)
            && (p != n ==> after.disks[p] == cl.disks[p])
            && (p == n && Succeeds(site(n), cl.disks[n], transaction, Restore, line) ==> after.disks[n].journal == None)
  {
  }

  lemma {:induction false} RestoreEachClears(site: Site, cl: Cluster, ready: seq<NodeId>, transaction: string,
                                             w: Weather, p: NodeId)
    requires Listed(cl, ready) && p in cl.disks
    ensures var after := Final(cl, RestoreEach(site, cl, ready, transaction, w));
            && p in after.disks
            && (cl.disks[p].journal == None ==> after.disks[p].journal == None)
            && (p in ready && AllRestored(site, cl, ready, transaction, w) ==> after.disks[p].journal == None)
    decreases |ready|
  {
    hide CallTrace, Succeeds;
    if ready != [] {
      var t := CallTrace(site, cl, ready[0], transaction, Restore, w.lines(ready[0]));
      RestoreCallEffect(site, cl, ready[0], transaction, w.lines(ready[0]), p);
      RestoreEachClears(site, Final(cl, t), ready[1..], transaction, w, p);
    }
  }

  /** Once no listed node has a journal, the manifest may go. */
  lemma ManifestRemoved(site: Site, origins: map<NodeId, Files>, foreign: set<string>, cl: Cluster, m: Manifest)
    requires Safe(site, origins, foreign, cl) && Governs(cl, m, foreign)
    requires forall n | n in m.nodes :: cl.disks[n].journal == None
    ensures Safe(site, origins, foreign, cl.(manifest := None))
  {
    hide Recoverable;
    forall n | n in cl.disks
      ensures NodeSafe(site(n), origins[n], foreign, None, n, cl.disks[n])
    {
      assert NodeSafe(site(n), origins[n], foreign, cl.manifest, n, cl.disks[n]);
    }
  }

  /** The restores themselves, before the manifest goes. */
  lemma ReadyRestored(site: Site, origins: map<NodeId, Files>, foreign: set<string>, cl: Cluster, m: Manifest,
                      ready: seq<NodeId>, w: Weather)
    requires Safe(site, origins, foreign, cl) && Governs(cl, m, foreign) && forall n :: n in ready <==> n in m.nodes
    requires Listed(cl, ready) && AllRestored(site, cl, ready, m.transaction, w)
    ensures var after := Final(cl, RestoreEach(site, cl, ready, m.transaction, w));
            Safe(site, origins, foreign, after.(manifest := None))
  {
    hide Safe, AllRestored;
    var after := Final(cl, RestoreEach(site, cl, ready, m.transaction, w));
    RestoreEachSafe(site, origins, foreign, cl, m, ready, w);
    assert Safe(site, origins, foreign, after) && Governs(after, m, foreign);
    forall n | n in m.nodes
      ensures after.disks[n].journal == None
    {
      RestoreEachClears(site, cl, ready, m.transaction, w, n);
    }
    ManifestRemoved(site, origins, foreign, after, m);
  }

  lemma RestoreClusterSafe(site: Site, origins: map<NodeId, Files>, foreign: set<string>, cl: Cluster, m: Manifest,
                           w: Weather, bestEffort: bool)
    requires Safe(site, origins, foreign, cl) && Governs(cl, m, foreign)
    ensures var t := RestoreClusterTrace(site, cl, m.nodes, m.transaction, w, bestEffort);
            forall k | 0 <= k < |t| :: Safe(site, origins, foreign, t[k])
  {
    hide Safe, Ready, RestoreEach, AllRestored, Final;
    var nodes := Reversed(m.nodes);
    var ready := Ready(site, cl, nodes, m.transaction, w);
    RestoreEachSafe(site, origins, foreign, cl, m, ready, w);
    if |ready| == |m.nodes| && AllRestored(site, cl, ready, m.transaction, w) {
      ReadyIsAll(site, cl, nodes, m.transaction, w);
      ReadyRestored(site, origins, foreign, cl, m, ready, w);
    }
  }

  lemma {:induction false} ReadyIsAll(site: Site, cl: Cluster, nodes: seq<NodeId>, transaction: string, w: Weather)
    requires Listed(cl, nodes) && |Ready(site, cl, nodes, transaction, w)| == |nodes|
    ensures Ready(site, cl, nodes, transaction, w) == nodes
  {
    if nodes != [] {
      ReadyIsAll(site, cl, nodes[1..], transaction, w);
    }
  }

  /** The head picks a fresh identifier for every setup, never one of another head's. */
  ghost predicate FreshSetup(foreign: set<string>, command: Command) {
    command.Setup? ==> command.transaction !in foreign
  }

  lemma CommandSafe(site: Site, origins: map<NodeId, Files>, foreign: set<string>, cl: Cluster, command: Command)
    requires Safe(site, origins, foreign, cl) && FreshSetup(foreign, command)
    ensures var t := CommandTrace(site, cl, command);
            forall k | 0 <= k < |t| :: Safe(site, origins, foreign, t[k])
  {
    assert cl.manifest.Some? ==> cl.manifest.value.transaction !in foreign;
    hide Safe;
    match command
    case Setup(nodes, transaction, actions, lines, rollback) =>
      if cl.manifest == None && Listed(cl, nodes) {
        SetupListed(nodes, transaction, actions);
        SetupSafe(site, origins, foreign, cl, Manifest(nodes, transaction), SetupCalls(nodes, transaction, actions),
                  lines, rollback);
      }
    case RestoreAll(weather) =>
      if cl.manifest.Some? && Listed(cl, cl.manifest.value.nodes) {
        RestoreClusterSafe(site, origins, foreign, cl, cl.manifest.value, weather, false);
      }
    case Maintain(calls, lines) =>
      if cl.manifest.Some? && Maintenance(cl.manifest.value, calls) && Listed(cl, cl.manifest.value.nodes) {
        RunCallsSafe(site, origins, foreign, cl, cl.manifest.value, calls, lines, 0);
      }
  }

  lemma BegunSafe(site: Site, origins: map<NodeId, Files>, foreign: set<string>, cl: Cluster, m: Manifest)
    requires Safe(site, origins, foreign, cl) && cl.manifest == None && m.transaction !in foreign
    ensures Safe(site, origins, foreign, cl.(manifest := Some(m)))
  {
    assert forall n | n in cl.disks :: NodeSafe(site(n), origins[n], foreign, cl.manifest, n, cl.disks[n]);
  }

  lemma SetupSafe(site: Site, origins: map<NodeId, Files>, foreign: set<string>, cl: Cluster, m: Manifest,
                  calls: seq<(NodeId, Operation)>, lines: nat -> Line, rollback: Weather)
    requires Safe(site, origins, foreign, cl) && cl.manifest == None && Listed(cl, m.nodes)
    requires m.transaction !in foreign && CallsListed(calls, m.nodes)
    ensures var t := SetupTrace(site, cl, m, calls, lines, rollback);
            forall k | 0 <= k < |t| :: Safe(site, origins, foreign, t[k])
  {
    hide Safe, RestoreClusterTrace;
    var begun := cl.(manifest := Some(m));
    BegunSafe(site, origins, foreign, cl, m);
    RunCallsSafe(site, origins, foreign, begun, m, calls, lines, 0);
    var after := Final(begun, RunCalls(site, begun, m.transaction, calls, lines, 0));
    assert Safe(site, origins, foreign, after) && Governs(after, m, foreign);
    RestoreClusterSafe(site, origins, foreign, after, m, rollback, true);
  }

  // ----- whole runs -----

  /** A command of which only the first `steps` disk steps happen before everything stops. */
  datatype Episode = Episode(command: Command, steps: nat)

  ghost function AfterEpisode(site: Site, cl: Cluster, e: Episode): Cluster {
    var t := CommandTrace(site, cl, e.command);
    if t == [] || e.steps == 0 then cl else t[if e.steps <= |t| then e.steps - 1 else |t| - 1]
  }

  ghost function History(site: Site, cl: Cluster, episodes: seq<Episode>): Cluster {
    if episodes == [] then cl
    else AfterEpisode(site, History(site, cl, episodes[..|episodes| - 1]), episodes[|episodes| - 1])
  }

  /** No run, however often it is cut off, orphans a journal or loses a node's original files. */
  lemma {:induction false} EveryHistorySafe(site: Site, origins: map<NodeId, Files>, foreign: set<string>, cl: Cluster,
                                            episodes: seq<Episode>)
    requires Safe(site, origins, foreign, cl)
    requires forall k | 0 <= k < |episodes| :: FreshSetup(foreign, episodes[k].command)
    ensures Safe(site, origins, foreign, History(site, cl, episodes))
  {
    if episodes != [] {
      var front, last := episodes[..|episodes| - 1], episodes[|episodes| - 1];
      EveryHistorySafe(site, origins, foreign, cl, front);
      var now := History(site, cl, front);
      CommandSafe(site, origins, foreign, now, last.command);
    }
  }

  /**
   * Read off any history that began before the first setup: a journal of this
   * head on any node is named by a manifest still on the head, and where there is
   * no manifest every node (but those another head is configuring) has the files
   * it started with.
   */
  lemma NoOrphanedJournal(site: Site, origins: map<NodeId, Files>, foreign: set<string>, cl: Cluster,
                          episodes: seq<Episode>, n: NodeId)
    requires Safe(site, origins, foreign, cl) && n in History(site, cl, episodes).disks
    requires forall k | 0 <= k < |episodes| :: FreshSetup(foreign, episodes[k].command)
    ensures var now := History(site, cl, episodes);
            && n in origins
            && (now.disks[n].journal.Some? && now.disks[n].journal.value.transaction !in foreign ==>
                  && now.manifest.Some? && n in now.manifest.value.nodes
                  && now.manifest.value.transaction == now.disks[n].journal.value.transaction)
            && (&& now.manifest == None
                && (now.disks[n].journal.Some? ==> now.disks[n].journal.value.transaction !in foreign) ==>
                  now.disks[n] == Disk(origins[n], None))
  {
    EveryHistorySafe(site, origins, foreign, cl, episodes);
    var now := History(site, cl, episodes);
    assert NodeSafe(site(n), origins[n], foreign, now.manifest, n, now.disks[n]);
  }

  /** A cluster on which no setup has begun is safe, so the above speaks of everything that can follow. */
  lemma UnconfiguredIsSafe(site: Site, origins: map<NodeId, Files>, foreign: set<string>, cl: Cluster)
    requires cl.manifest == None && origins.Keys == cl.disks.Keys
    requires forall n | n in cl.disks :: cl.disks[n] == Disk(origins[n], None)
    ensures Safe(site, origins, foreign, cl)
  {
  }

  // ----- when a restore refuses -----

  /** A restore asked for by the user changes nothing anywhere unless every node's preflight passes. */
  lemma FailedPreflightChangesNothing(site: Site, cl: Cluster, nodes: seq<NodeId>, transaction: string, w: Weather,
                                      n: NodeId)
    requires Listed(cl, nodes) && n in nodes && !PreflightPasses(site, cl, n, transaction, w)
    ensures RestoreClusterTrace(site, cl, nodes, transaction, w, false) == []
  {
  }

  ghost predicate Untouched(t: seq<Cluster>, n: NodeId, d: Disk) {
    forall k | 0 <= k < |t| :: n in t[k].disks && t[k].disks[n] == d
  }

  lemma CallTouchesOnly(site: Site, cl: Cluster, p: NodeId, transaction: string, op: Operation, line: Line, n: NodeId)
    requires p in cl.disks && n in cl.disks && n != p
    ensures var t := CallTrace(site, cl, p, transaction, op, line);
            Untouched(t, n, cl.disks[n]) && n in Final(cl, t).disks && Final(cl, t).disks[n] == cl.disks[n]
  {
    hide NodeTrace, Cut;
  }

  lemma {:induction false} OthersUntouched(site: Site, cl: Cluster, ready: seq<NodeId>, transaction: string, w: Weather,
                                           n: NodeId)
    requires Listed(cl, ready) && n in cl.disks && n !in ready
    ensures Untouched(RestoreEach(site, cl, ready, transaction, w), n, cl.disks[n])
    decreases |ready|
  {
    hide CallTrace;
    if ready != [] {
      var line := w.lines(ready[0]);
      var t := CallTrace(site, cl, ready[0], transaction, Restore, line);
      CallTouchesOnly(site, cl, ready[0], transaction, Restore, line, n);
      hide Final;
      OthersUntouched(site, Final(cl, t), ready[1..], transaction, w, n);
    }
  }

  /**
   * A journalled file edited since, to neither version the journal knows, is never restored over: neither
   * a restore nor a rollback of the cluster touches its node, and the manifest stays.
   */
  lemma EditsAreNeverRestoredOver(site: Site, cl: Cluster, nodes: seq<NodeId>, transaction: string, w: Weather,
                                  bestEffort: bool, n: NodeId, e: Entry)
    requires Listed(cl, nodes) && n in nodes && cl.disks[n].journal.Some? && e in cl.disks[n].journal.value.entries
    requires !Accepted(site(n).digest, e, cl.disks[n].files)
    ensures var t := RestoreClusterTrace(site, cl, nodes, transaction, w, bestEffort);
            Untouched(t, n, cl.disks[n]) && forall k | 0 <= k < |t| :: t[k].manifest == cl.manifest
  {
    EditsFailPreflight(site, cl, n, transaction, w, e);
    RefusedIsUntouched(site, cl, nodes, transaction, w, bestEffort, n);
  }

  lemma EditsFailPreflight(site: Site, cl: Cluster, n: NodeId, transaction: string, w: Weather, e: Entry)
    requires n in cl.disks && cl.disks[n].journal.Some? && e in cl.disks[n].journal.value.entries
    requires !Accepted(site(n).digest, e, cl.disks[n].files)
    ensures !PreflightPasses(site, cl, n, transaction, w)
  {
    hide Accepted;
  }

  lemma RefusedIsUntouched(site: Site, cl: Cluster, nodes: seq<NodeId>, transaction: string, w: Weather,
                           bestEffort: bool, n: NodeId)
    requires Listed(cl, nodes) && n in nodes && !PreflightPasses(site, cl, n, transaction, w)
    ensures var t := RestoreClusterTrace(site, cl, nodes, transaction, w, bestEffort);
            Untouched(t, n, cl.disks[n]) && forall k | 0 <= k < |t| :: t[k].manifest == cl.manifest
  {
    var ready := Ready(site, cl, Reversed(nodes), transaction, w);
    assert n !in ready && n in Reversed(nodes);
    OthersUntouched(site, cl, ready, transaction, w, n);
    hide RestoreEach, AllRestored, Reversed, Ready, PreflightPasses;
  }

  // ----- when a restore completes -----

  ghost predicate FairWeather(w: Weather, cl: Cluster) {
    && (forall n :: w.answers(n) && w.lines(n).reply)
    && (forall n | n in cl.disks && cl.disks[n].journal.Some? :: w.lines(n).steps >= |RestoreTrace(cl.disks[n])|)
  }

  /** No listed node holds a journal of some other transaction. */
  ghost predicate Unclaimed(cl: Cluster, nodes: seq<NodeId>, transaction: string) {
    forall n | n in nodes && n in cl.disks :: cl.disks[n].journal == None || Ours(cl.disks[n], transaction)
  }

  lemma {:induction false} AllRestoredInFairWeather(site: Site, origins: map<NodeId, Files>, foreign: set<string>,
                                                    cl: Cluster, m: Manifest, ready: seq<NodeId>, w: Weather)
    requires Safe(site, origins, foreign, cl) && Governs(cl, m, foreign) && forall n | n in ready :: n in m.nodes
    requires FairWeather(w, cl) && Unclaimed(cl, m.nodes, m.transaction)
    ensures AllRestored(site, cl, ready, m.transaction, w)
    decreases |ready|
  {
    hide Safe, CallTrace, Succeeds, RestoreTrace;
    if ready != [] {
      var n := ready[0];
      FairCallSucceeds(site, origins, foreign, cl, m, n, w);
      CallEndsSafe(site, origins, foreign, cl, m, n, Restore, w.lines(n));
      var after := Final(cl, CallTrace(site, cl, n, m.transaction, Restore, w.lines(n)));
      forall p | p in cl.disks
        ensures after.disks[p] == cl.disks[p] || after.disks[p].journal == None
      {
        RestoreCallEffect(site, cl, n, m.transaction, w.lines(n), p);
      }
      AllRestoredInFairWeather(site, origins, foreign, after, m, ready[1..], w);
    }
  }

  lemma FairCallSucceeds(site: Site, origins: map<NodeId, Files>, foreign: set<string>, cl: Cluster, m: Manifest,
                         n: NodeId, w: Weather)
    requires Safe(site, origins, foreign, cl) && Governs(cl, m, foreign) && n in m.nodes
    requires FairWeather(w, cl) && Unclaimed(cl, m.nodes, m.transaction)
    ensures Succeeds(site(n), cl.disks[n], m.transaction, Restore, w.lines(n))
  {
    hide RestoreTrace;
    assert NodeSafe(site(n), origins[n], foreign, cl.manifest, n, cl.disks[n]);
  }

  /**
   * With every call going through, a restore from any safe state completes, giving
   * every listed node its original files and removing the manifest, exactly if no
   * listed node holds the journal of another transaction.
   */
  lemma RestoreCompletes(site: Site, origins: map<NodeId, Files>, foreign: set<string>, cl: Cluster, m: Manifest,
                         w: Weather)
    requires Safe(site, origins, foreign, cl) && Governs(cl, m, foreign) && FairWeather(w, cl)
    ensures var after := Final(cl, RestoreClusterTrace(site, cl, m.nodes, m.transaction, w, false));
            && (after.manifest == None <==> Unclaimed(cl, m.nodes, m.transaction))
            && (after.manifest == None ==>
                  forall n | n in m.nodes :: n in after.disks && after.disks[n] == Disk(origins[n], None))
  {
    var nodes := Reversed(m.nodes);
    var ready := Ready(site, cl, nodes, m.transaction, w);
    if Unclaimed(cl, m.nodes, m.transaction) {
      forall n | n in m.nodes
        ensures PreflightPasses(site, cl, n, m.transaction, w)
      {
        assert NodeSafe(site(n), origins[n], foreign, cl.manifest, n, cl.disks[n]);
      }
      ReadyIsAll(site, cl, nodes, m.transaction, w);
      AllRestoredInFairWeather(site, origins, foreign, cl, m, ready, w);
      RestoreClusterSafe(site, origins, foreign, cl, m, w, false);
      var after := Final(cl, RestoreClusterTrace(site, cl, m.nodes, m.transaction, w, false));
      forall n | n in m.nodes
        ensures after.disks[n] == Disk(origins[n], None)
      {
        RestoreEachClears(site, cl, ready, m.transaction, w, n);
        assert NodeSafe(site(n), origins[n], foreign, after.manifest, n, after.disks[n]);
      }
    } else {
      var n :| n in m.nodes && n in cl.disks && cl.disks[n].journal.Some? && !Ours(cl.disks[n], m.transaction);
      FailedPreflightChangesNothing(site, cl, m.nodes, m.transaction, w, n);
    }
  }
}
