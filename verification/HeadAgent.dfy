/** The head's side of the cluster protocol, recording the cluster after every disk step anywhere. */
module HeadAgent {
  import opened Results
  import opened Sequences
  import opened Journal
  import opened NodeRuns
  import opened ClusterRuns
  import opened ClusterSetup

  class Head {
    const site: Site
    var cluster: Cluster
    ghost var history: seq<Cluster>

    constructor (site: Site, cluster: Cluster)
      ensures this.site == site && this.cluster == cluster && Recorded()
    {
      this.site, this.cluster := site, cluster;
      history := [cluster];
    }

    ghost predicate Recorded()
      reads this
    {
      history != [] && history[|history| - 1] == cluster
    }

    /** One node action, as far as the connection lets it get. */
    method Call(n: NodeId, transaction: string, op: Operation, line: Line) returns (ok: bool)
      requires n in cluster.disks && Recorded()
      modifies this`cluster, this`history
      ensures ok == Succeeds(site(n), old(cluster).disks[n], transaction, op, line)
      ensures history == old(history) + CallTrace(site, old(cluster), n, transaction, op, line)
      ensures Recorded() && cluster == Final(old(cluster), CallTrace(site, old(cluster), n, transaction, op, line))
    {
      ok := Succeeds(site(n), cluster.disks[n], transaction, op, line);
      var t := CallTrace(site, cluster, n, transaction, op, line);
      history := history + t;
      cluster := Final(cluster, t);
    }

    method SaveManifest(m: Manifest)
      requires Recorded()
      modifies this`cluster, this`history
      ensures cluster == old(cluster).(manifest := Some(m)) && history == old(history) + [cluster] && Recorded()
    {
      cluster := cluster.(manifest := Some(m));
      history := history + [cluster];
    }

    method RemoveManifest()
      requires Recorded()
      modifies this`cluster, this`history
      ensures cluster == old(cluster).(manifest := None) && history == old(history) + [cluster] && Recorded()
    {
      cluster := cluster.(manifest := None);
      history := history + [cluster];
    }

    method Preflight(nodes: seq<NodeId>, transaction: string, w: Weather) returns (ready: seq<NodeId>)
      requires Listed(cluster, nodes)
      ensures ready == Ready(site, cluster, Reversed(nodes), transaction, w)
    {
      hide Ready, PreflightPasses, Reversed;
      ready := [];
      var k := |nodes|;
      assert nodes[..k] == nodes;
      ghost var all := Ready(site, cluster, Reversed(nodes), transaction, w);
      while k > 0
        invariant 0 <= k <= |nodes|
        invariant ready + Ready(site, cluster, Reversed(nodes[..k]), transaction, w) == all
      {
        k := k - 1;
        ghost var rest := Ready(site, cluster, Reversed(nodes[..k]), transaction, w);
        ReadyUnfolds(site, cluster, nodes, k, transaction, w);
        if PreflightPasses(site, cluster, nodes[k], transaction, w) {
          Associate(ready, [nodes[k]], rest);
          ready := ready + [nodes[k]];
        }
      }
      NoneReady(site, cluster, nodes, transaction, w);
    }

    method RestoreNodes(ready: seq<NodeId>, transaction: string, w: Weather) returns (complete: bool)
      requires Listed(cluster, ready) && Recorded()
      modifies this`cluster, this`history
      ensures history == old(history) + RestoreEach(site, old(cluster), ready, transaction, w)
      ensures Recorded() && cluster.manifest == old(cluster).manifest
      ensures complete == AllRestored(site, old(cluster), ready, transaction, w)
    {
      hide CallTrace, Succeeds, RestoreEach, AllRestored;
      complete := true;
      var k := 0;
      assert ready[0..] == ready;
      ghost var target := old(history) + RestoreEach(site, cluster, ready, transaction, w);
      ghost var all := AllRestored(site, cluster, ready, transaction, w);
      while k < |ready|
        invariant k <= |ready| && Recorded() && Listed(cluster, ready) && cluster.manifest == old(cluster).manifest
        invariant history + RestoreEach(site, cluster, ready[k..], transaction, w) == target
        invariant (complete && AllRestored(site, cluster, ready[k..], transaction, w)) == all
      {
        ghost var cl, h := cluster, history;
        RestoreUnfolds(site, cl, ready[k..], transaction, w);
        assert ready[k..][1..] == ready[k + 1..];
        var ok := Call(ready[k], transaction, Restore, w.lines(ready[k]));
        Associate(h, CallTrace(site, cl, ready[k], transaction, Restore, w.lines(ready[k])),
                  RestoreEach(site, cluster, ready[k + 1..], transaction, w));
        complete := complete && ok;
        k := k + 1;
      }
      RestoreUnfolds(site, cluster, ready[k..], transaction, w);
    }

    /** Check everywhere, then restore; the manifest goes only if nothing failed. */
    method RestoreCluster(nodes: seq<NodeId>, transaction: string, w: Weather, bestEffort: bool)
      returns (complete: bool)
      requires Listed(cluster, nodes) && Recorded()
      modifies this`cluster, this`history
      ensures history == old(history) + RestoreClusterTrace(site, old(cluster), nodes, transaction, w, bestEffort)
      ensures Recorded()
      ensures complete ==> cluster.manifest == None
      ensures !complete ==> cluster.manifest == old(cluster).manifest
    {
      hide RestoreEach, AllRestored, Ready, Reversed;
      ghost var cl, h := cluster, history;
      var ready := Preflight(nodes, transaction, w);
      if |ready| < |nodes| && !bestEffort {
        return false;
      }
      complete := RestoreNodes(ready, transaction, w);
      complete := complete && |ready| == |nodes|;
      ghost var t := RestoreEach(site, cl, ready, transaction, w);
      assert cluster == Final(cl, t);
      if complete {
        RemoveManifest();
        Associate(h, t, [cluster]);
      }
    }

    method RunAll(calls: seq<(NodeId, Operation)>, transaction: string, lines: nat -> Line) returns (ok: bool)
      requires Recorded() && forall i | 0 <= i < |calls| :: calls[i].0 in cluster.disks
      modifies this`cluster, this`history
      ensures history == old(history) + RunCalls(site, old(cluster), transaction, calls, lines, 0)
      ensures Recorded() && cluster.disks.Keys == old(cluster).disks.Keys
      ensures ok == CallsSucceed(site, old(cluster), transaction, calls, lines, 0)
    {
      hide CallTrace, Succeeds, RunCalls, CallsSucceed;
      ghost var target := old(history) + RunCalls(site, cluster, transaction, calls, lines, 0);
      ghost var all := CallsSucceed(site, cluster, transaction, calls, lines, 0);
      var k := 0;
      while k < |calls|
        invariant k <= |calls| && Recorded() && cluster.disks.Keys == old(cluster).disks.Keys
        invariant history + RunCalls(site, cluster, transaction, calls, lines, k) == target
        invariant CallsSucceed(site, cluster, transaction, calls, lines, k) == all
      {
        var (n, op) := calls[k];
        ghost var cl, h := cluster, history;
        CallsUnfold(site, cl, transaction, calls, lines, k);
        ok := Call(n, transaction, op, lines(k));
        if !ok {
          return false;
        }
        Associate(h, CallTrace(site, cl, n, transaction, op, lines(k)),
                  RunCalls(site, cluster, transaction, calls, lines, k + 1));
        k := k + 1;
      }
      CallsUnfold(site, cluster, transaction, calls, lines, k);
      return true;
    }

    /** Setup refuses to start over an existing manifest; a failed call rolls everything back it can. */
    method Setup(nodes: seq<NodeId>, transaction: string, actions: NodeId -> Actions, lines: nat -> Line,
                 rollback: Weather)
      returns (ok: bool)
      requires Listed(cluster, nodes) && Recorded()
      modifies this`cluster, this`history
      ensures Recorded()
      ensures history
           == old(history)
              + CommandTrace(site, old(cluster), Command.Setup(nodes, transaction, actions, lines, rollback))
      ensures cluster
           == Final(old(cluster),
                    CommandTrace(site, old(cluster), Command.Setup(nodes, transaction, actions, lines, rollback)))
      ensures ok <==> && old(cluster).manifest == None
                      && AllCallsSucceed(site, old(cluster), nodes, transaction, actions, lines)
    {
      hide RunCalls, RestoreClusterTrace, CallsSucceed, SetupCalls;
      if cluster.manifest.Some? {
        return false;
      }
      var calls := SetupCalls(nodes, transaction, actions);
      SetupListed(nodes, transaction, actions);
      SetupCallable(cluster, nodes, transaction, actions);
      ok := Attempt(Manifest(nodes, transaction), calls, lines, rollback);
    }

    method Attempt(m: Manifest, calls: seq<(NodeId, Operation)>, lines: nat -> Line, rollback: Weather)
      returns (ok: bool)
      requires Listed(cluster, m.nodes) && CallsListed(calls, m.nodes) && Recorded()
      modifies this`cluster, this`history
      ensures Recorded()
      ensures history == old(history) + SetupTrace(site, old(cluster), m, calls, lines, rollback)
      ensures cluster == Final(old(cluster), SetupTrace(site, old(cluster), m, calls, lines, rollback))
      ensures ok == CallsSucceed(site, old(cluster).(manifest := Some(m)), m.transaction, calls, lines, 0)
    {
      hide RunCalls, RestoreClusterTrace, CallsSucceed, SetupTrace, Final;
      ghost var h, cl := history, cluster;
      SetupUnfolds(site, cl, m, calls, lines, rollback);
      SaveManifest(m);
      ghost var begun := cluster;
      ok := RunAll(calls, m.transaction, lines);
      ghost var t := RunCalls(site, begun, m.transaction, calls, lines, 0);
      Associate(h, [begun], t);
      LastIsFinal(h + [begun], begun, t);
      if ok {
        assert [begun] + t + [] == [begun] + t;
      } else {
        var restored := RestoreCluster(m.nodes, m.transaction, rollback, true);
        Associate(h, [begun] + t, RestoreClusterTrace(site, Final(begun, t), m.nodes, m.transaction, rollback, true));
      }
      LastIsFinal(h, cl, SetupTrace(site, cl, m, calls, lines, rollback));
    }
  }

  lemma LastIsFinal(history: seq<Cluster>, cl: Cluster, t: seq<Cluster>)
    requires history != [] && history[|history| - 1] == cl
    ensures (history + t)[|history + t| - 1] == Final(cl, t)
  {
  }

  lemma SetupUnfolds(site: Site, cl: Cluster, m: Manifest, calls: seq<(NodeId, Operation)>, lines: nat -> Line,
                     rollback: Weather)
    requires Listed(cl, m.nodes) && CallsListed(calls, m.nodes)
    ensures var begun := cl.(manifest := Some(m));
            var t := RunCalls(site, begun, m.transaction, calls, lines, 0);
            && Listed(Final(begun, t), m.nodes)
            && SetupTrace(site, cl, m, calls, lines, rollback)
               == [begun] + t
                  + if CallsSucceed(site, begun, m.transaction, calls, lines, 0) then []
                    else RestoreClusterTrace(site, Final(begun, t), m.nodes, m.transaction, rollback, true)
  {
    hide RunCalls, RestoreClusterTrace, CallsSucceed;
  }

  lemma ReadyUnfolds(site: Site, cl: Cluster, nodes: seq<NodeId>, k: nat, transaction: string, w: Weather)
    requires k < |nodes| && Listed(cl, nodes)
    ensures var rest := Ready(site, cl, Reversed(nodes[..k]), transaction, w);
            Ready(site, cl, Reversed(nodes[..k + 1]), transaction, w)
            == if PreflightPasses(site, cl, nodes[k], transaction, w) then [nodes[k]] + rest else rest
  {
    assert nodes[..k + 1][..k] == nodes[..k];
    assert Reversed(nodes[..k + 1])[1..] == Reversed(nodes[..k]);
    var rest := Ready(site, cl, Reversed(nodes[..k]), transaction, w);
    assert [] + rest == rest;
  }

  lemma NoneReady(site: Site, cl: Cluster, nodes: seq<NodeId>, transaction: string, w: Weather)
    ensures Ready(site, cl, Reversed(nodes[..0]), transaction, w) == []
  {
  }

  lemma RestoreUnfolds(site: Site, cl: Cluster, ready: seq<NodeId>, transaction: string, w: Weather)
    requires Listed(cl, ready)
    ensures if ready == [] then
              RestoreEach(site, cl, ready, transaction, w) == [] && AllRestored(site, cl, ready, transaction, w)
            else
              var t := CallTrace(site, cl, ready[0], transaction, Restore, w.lines(ready[0]));
              && RestoreEach(site, cl, ready, transaction, w)
                 == t + RestoreEach(site, Final(cl, t), ready[1..], transaction, w)
              && AllRestored(site, cl, ready, transaction, w)
                 == (Succeeds(site(ready[0]), cl.disks[ready[0]], transaction, Restore, w.lines(ready[0]))
                     && AllRestored(site, Final(cl, t), ready[1..], transaction, w))
  {
  }

  lemma CallsUnfold(site: Site, cl: Cluster, transaction: string, calls: seq<(NodeId, Operation)>, lines: nat -> Line,
                    k: nat)
    requires k <= |calls| && forall i | 0 <= i < |calls| :: calls[i].0 in cl.disks
    ensures if k == |calls| then
              RunCalls(site, cl, transaction, calls, lines, k) == []
                && CallsSucceed(site, cl, transaction, calls, lines, k)
            else
              var (n, op) := calls[k];
              var t := CallTrace(site, cl, n, transaction, op, lines(k));
              var ok := Succeeds(site(n), cl.disks[n], transaction, op, lines(k));
              && RunCalls(site, cl, transaction, calls, lines, k)
                 == (if ok then t + RunCalls(site, Final(cl, t), transaction, calls, lines, k + 1) else t)
              && CallsSucceed(site, cl, transaction, calls, lines, k)
                 == (ok && CallsSucceed(site, Final(cl, t), transaction, calls, lines, k + 1))
  {
  }
}
