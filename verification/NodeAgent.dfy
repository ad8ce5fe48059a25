/**
 * The node-side program itself: a journal object held in memory, and the node
 * whose disk it changes one atomic step at a time. `history` records the disk
 * after every step, so each of its states is a place where a crash may strike.
 */
module NodeAgent {
  import opened Results
  import opened Sequences
  import opened Journal
  import opened Doctor
  import opened DoctorLaws

  datatype Refusal =
    | AlreadyChanged(path: Path)
    | ChangedSinceSetup(path: Path)
    | DockerGroupChanged
    | RoutesUnverified
    | NetworkingFailed
    | DockerFailed
    | NetworkNotStarted
    | FingerprintChanged

  /** What the world outside the files answers during a restore. */
  datatype World = World(dockerUnchanged: bool, routesVerified: bool, netplanApplies: bool, dockerRestores: bool)

  class Node {
    var files: Files
    var journal: Option<State>
    ghost var history: seq<Disk>

    constructor (files: Files)
      ensures Now() == Disk(files, None) && Recorded()
    {
      this.files, this.journal := files, None;
      history := [Disk(files, None)];
    }

    ghost predicate Recorded()
      reads this
    {
      history != [] && history[|history| - 1] == Now()
    }

    ghost function Now(): Disk
      reads this
    {
      Disk(files, journal)
    }

    /** A temporary file is renamed over `path`: the old contents or the new, nothing between. */
    method AtomicWrite(path: Path, f: File)
      modifies this
      ensures Now() == old(Now()).(files := old(files)[path := f])
      ensures history == old(history) + [Now()]
    {
      files := files[path := f];
      history := history + [Now()];
    }

    method Unlink(path: Path)
      modifies this
      ensures Now() == old(Now()).(files := old(files) - {path})
      ensures history == old(history) + [Now()]
    {
      files := files - {path};
      history := history + [Now()];
    }

    method SaveJournal(state: State)
      modifies this
      ensures Now() == old(Now()).(journal := Some(state))
      ensures history == old(history) + [Now()]
    {
      journal := Some(state);
      history := history + [Now()];
    }

    method DeleteJournal()
      modifies this
      ensures Now() == old(Now()).(journal := None)
      ensures history == old(history) + [Now()]
    {
      journal := None;
      history := history + [Now()];
    }
  }

  class JournalAgent {
    const node: Node
    const context: Context
    var state: State

    /** The journal in memory is the one on disk, as after loading it or saving it. */
    ghost predicate Saved()
      reads this, node
    {
      node.journal == Some(state) && node.Recorded()
    }

    /** Begin a transaction: an empty journal is on disk before anything else is changed. */
    constructor Prepare(node: Node, context: Context, transaction: string)
      requires node.journal == None && node.Recorded()
      modifies node
      ensures this.node == node && this.context == context && Saved()
      ensures node.Now() == old(node.Now()).(journal := Some(State(transaction, [], false)))
      ensures node.history == old(node.history) + [node.Now()]
    {
      this.node, this.context, this.state := node, context, State(transaction, [], false);
      new;
      node.SaveJournal(state);
    }

    /** Open the journal found on disk, as every later action of setup does. */
    constructor Load(node: Node, context: Context)
      requires node.journal.Some? && node.Recorded()
      ensures this.node == node && this.context == context && Saved()
    {
      this.node, this.context, this.state := node, context, node.journal.value;
    }

    method Write(path: Path, f: File) returns (refusal: Option<Refusal>)
      requires Saved()
      modifies this, node
      ensures Saved()
      ensures refusal == if Journalled(old(state).entries, path) then Some(AlreadyChanged(path)) else None
      ensures node.history == old(node.history) + WriteTrace(context.digest, old(node.Now()), path, f)
    {
      for k := 0 to |state.entries|
        invariant forall i | 0 <= i < k :: state.entries[i].path != path
      {
        if state.entries[k].path == path {
          return Some(AlreadyChanged(path));
        }
      }
      var before := if path in node.files then Some(node.files[path]) else None;
      var entry := Entry(path, before, context.digest(f.data), f.mode, f.uid, f.gid, Some(f.data));
      state := state.(entries := state.entries + [entry]);
      node.SaveJournal(state);
      node.AtomicWrite(path, f);
      return None;
    }

    method StartNetwork()
      requires Saved()
      modifies this, node
      ensures Saved() && node.Now() == old(node.Now()).(journal := Some(old(state).(networkStarted := true)))
      ensures node.history == old(node.history) + [node.Now()]
    {
      state := state.(networkStarted := true);
      node.SaveJournal(state);
    }

    method CheckRestore(world: World) returns (refusal: Option<Refusal>)
      requires Saved()
      ensures refusal == None
              <==> world.dockerUnchanged && world.routesVerified && CheckAccepts(context.digest, node.Now())
      ensures refusal == None ==>
                forall e | e in state.entries ::
                  Current(node.files, e.path) == e.before || Intact(context, e, Current(node.files, e.path))
      ensures refusal.Some? && refusal.value.ChangedSinceSetup? ==>
                exists i :: 0 <= i < |state.entries| && state.entries[i].path == refusal.value.path
                            && !Accepted(context.digest, state.entries[i], node.files)
    {
      if !world.dockerUnchanged {
        return Some(DockerGroupChanged);
      }
      CheckIs(context, node.Now());
      for k := 0 to |state.entries|
        invariant forall i | 0 <= i < k :: Accepted(context.digest, state.entries[i], node.files)
      {
        var e := state.entries[k];
        var current := if e.path in node.files then Some(node.files[e.path]) else None;
        if current != e.before {
          if !AsWritten(context.digest, e, current) {
            return Some(ChangedSinceSetup(e.path));
          }
        }
      }
      return if world.routesVerified then None else Some(RoutesUnverified);
    }

    method PutBackOne(e: Entry)
      requires Saved()
      modifies node
      ensures Saved() && node.files == SetTo(old(node.files), e.path, e.before)
      ensures node.history == old(node.history) + [node.Now()]
    {
      if e.before == None {
        node.Unlink(e.path);
      } else {
        node.AtomicWrite(e.path, e.before.value);
      }
    }

    /** One pass over the entries, newest first, touching only Netplan files or only the others. */
    method PutBack(network: bool)
      requires Saved()
      modifies node
      ensures Saved()
      ensures node.files == Undo(old(node.files), Pass(state.entries, network))
      ensures node.history == old(node.history) + UndoTrace(old(node.files), Pass(state.entries, network), Some(state))
    {
      hide Pass, Undo, UndoTrace, SetTo;
      var k := |state.entries|;
      assert state.entries[..k] == state.entries;
      ghost var start, all := node.files, Pass(state.entries, network);
      ghost var target := old(node.history) + UndoTrace(start, all, Some(state));
      while k > 0
        invariant 0 <= k <= |state.entries| && Saved()
        invariant Undo(node.files, Pass(state.entries[..k], network)) == Undo(start, all)
        invariant node.history + UndoTrace(node.files, Pass(state.entries[..k], network), Some(state)) == target
      {
        k := k - 1;
        PassUnfolds(state.entries, network, k);
        var e := state.entries[k];
        if IsNetwork(e.path) == network {
          ghost var rest, was, h := Pass(state.entries[..k], network), node.files, node.history;
          UndoUnfolds(was, e, rest, Some(state));
          PutBackOne(e);
          Associate(h, [node.Now()], UndoTrace(node.files, rest, Some(state)));
        }
      }
      NothingLeft(state.entries, network, node.files, Some(state));
    }

    /**
     * Done: the whole restore trace has happened. Refused: the checks failed and
     * nothing happened, or a command failed and a proper part of it happened.
     */
    method Restore(world: World) returns (refusal: Option<Refusal>)
      requires Saved()
      modifies node
      ensures node.Recorded()
      ensures refusal == None <==>
                && world.dockerUnchanged && world.routesVerified && CheckAccepts(context.digest, old(node.Now()))
                && (world.netplanApplies || !state.networkStarted) && world.dockerRestores
      ensures refusal == None ==> node.history == old(node.history) + RestoreTrace(old(node.Now()))
      ensures refusal != None ==>
                old(node.history) <= node.history && node.history < old(node.history) + RestoreTrace(old(node.Now()))
      ensures !world.dockerUnchanged || !world.routesVerified || !CheckAccepts(context.digest, old(node.Now())) ==>
                node.history == old(node.history)
    {
      hide Accepted, Undo, UndoTrace, Pass;
      ghost var entries := state.entries;
      ghost var mid := Undo(node.files, Pass(entries, true));
      ghost var first, second := UndoTrace(node.files, Pass(entries, true), Some(state)),
                                 UndoTrace(mid, Pass(entries, false), Some(state));
      assert RestoreTrace(node.Now()) == first + second + [Disk(Undo(mid, Pass(entries, false)), None)];
      refusal := CheckRestore(world);
      if refusal != None {
        return;
      }
      PutBack(true);
      if state.networkStarted && !world.netplanApplies {
        return Some(NetworkingFailed);
      }
      PutBack(false);
      if !world.dockerRestores {
        return Some(DockerFailed);
      }
      node.DeleteJournal();
      return None;
    }

    /** The report's file part: what to repair, and what to tell the user. */
    method DoctorReport() returns (refusal: Option<Refusal>, files: seq<Path>, issues: seq<(Path, bool)>)
      requires Saved()
      ensures refusal == if state.networkStarted then None else Some(NetworkNotStarted)
      ensures refusal == None ==> files == RepairFiles(context, state.entries, node.files)
                                  && issues == Issues(context, state.entries, node.files)
      ensures refusal == None ==>
                forall p :: p in files
                  <==> exists e :: e in state.entries && e.path == p && Mendable(context, e, Current(node.files, p))
    {
      files, issues := [], [];
      if !state.networkStarted {
        return Some(NetworkNotStarted), files, issues;
      }
      for k := 0 to |state.entries|
        invariant files == RepairFiles(context, state.entries[..k], node.files)
        invariant issues == Issues(context, state.entries[..k], node.files)
      {
        assert state.entries[..k + 1][..k] == state.entries[..k];
        var e := state.entries[k];
        var current := if e.path in node.files then Some(node.files[e.path]) else None;
        var verdict := Judge(context, e, current);
        if verdict == Repairable {
          files := files + [e.path];
        }
        if verdict != Clean {
          issues := issues + [(e.path, verdict == Repairable)];
        }
      }
      assert state.entries[..|state.entries|] == state.entries;
      forall p
        ensures p in files
           <==> exists e :: e in state.entries && e.path == p && Mendable(context, e, Current(node.files, p))
      {
        RepairFilesExactly(context, state.entries, node.files, p);
      }
      return None, files, issues;
    }

    method RepairNode(fingerprintMatches: bool, blockedNetwork: bool) returns (refusal: Option<Refusal>)
      requires Saved()
      modifies this, node
      ensures Saved()
      ensures refusal == None <==> old(state).networkStarted && fingerprintMatches
      ensures refusal != None ==> node.history == old(node.history) && node.Now() == old(node.Now())
      ensures refusal == None ==>
                var wanted := Wanted(context, old(node.Now()), blockedNetwork);
                && node.history == old(node.history) + RepairTrace(context, wanted, old(node.Now()), 0)
                && node.Now() == LastOf(old(node.Now()), RepairTrace(context, wanted, old(node.Now()), 0))
    {
      var files, issues;
      refusal, files, issues := DoctorReport();
      if refusal != None {
        return;
      }
      if !fingerprintMatches {
        return Some(FingerprintChanged);
      }
      var paths := set p | p in files && !(blockedNetwork && IsNetwork(p));
      assert paths == Wanted(context, node.Now(), blockedNetwork);
      RepairEntries(paths);
    }

    method RepairEntries(paths: set<Path>)
      requires Saved()
      modifies this, node
      ensures Saved()
      ensures node.history == old(node.history) + RepairTrace(context, paths, old(node.Now()), 0)
    {
      hide RepairTrace, EntrySteps;
      ghost var start, target := node.history, RepairTrace(context, paths, node.Now(), 0);
      var k := 0;
      while k < |state.entries|
        invariant Saved() && k <= |state.entries|
        invariant node.history + RepairTrace(context, paths, node.Now(), k) == start + target
        decreases |state.entries| - k
      {
        ghost var d, h := node.Now(), node.history;
        RepairUnfolds(context, paths, d, k);
        RepairEntry(paths, k);
        Associate(h, EntrySteps(context, paths, d, k), RepairTrace(context, paths, node.Now(), k + 1));
        k := k + 1;
      }
      RepairUnfolds(context, paths, node.Now(), k);
    }

    method RepairEntry(paths: set<Path>, k: nat)
      requires Saved() && k < |state.entries|
      modifies this, node
      ensures Saved() && |state.entries| == |old(state).entries|
      ensures node.history == old(node.history) + EntrySteps(context, paths, old(node.Now()), k)
      ensures node.Now() == LastOf(old(node.Now()), EntrySteps(context, paths, old(node.Now()), k))
    {
      var e := state.entries[k];
      var current := if e.path in node.files then Some(node.files[e.path]) else None;
      var recovered := Recover(context, e, current);
      if !recovered.Image? {
        return;
      }
      if e.afterData == None {
        state := state.(entries := state.entries[k := e.(afterData := Some(recovered.data))]);
        node.SaveJournal(state);
      }
      if e.path in paths {
        node.AtomicWrite(e.path, File(recovered.data, e.mode, e.uid, e.gid));
      }
    }
  }

  lemma RepairUnfolds(c: Context, wanted: set<Path>, d: Disk, k: nat)
    requires d.journal.Some? && k <= |d.journal.value.entries|
    ensures RepairTrace(c, wanted, d, k)
         == if k == |d.journal.value.entries| then []
            else EntrySteps(c, wanted, d, k) + RepairTrace(c, wanted, LastOf(d, EntrySteps(c, wanted, d, k)), k + 1)
  {
  }

  lemma PassUnfolds(entries: seq<Entry>, network: bool, k: nat)
    requires k < |entries|
    ensures Pass(entries[..k + 1], network)
         == if IsNetwork(entries[k].path) == network then [entries[k]] + Pass(entries[..k], network)
           else Pass(entries[..k], network)
  {
    assert entries[..k + 1][..k] == entries[..k];
    assert [] + Pass(entries[..k], network) == Pass(entries[..k], network);
  }

  lemma NothingLeft(entries: seq<Entry>, network: bool, files: Files, journal: Option<State>)
    ensures Pass(entries[..0], network) == []
    ensures Undo(files, []) == files && UndoTrace(files, [], journal) == []
  {
  }

  lemma UndoUnfolds(files: Files, e: Entry, rest: seq<Entry>, journal: Option<State>)
    ensures var next := SetTo(files, e.path, e.before);
            && Undo(files, [e] + rest) == Undo(next, rest)
            && UndoTrace(files, [e] + rest, journal) == [Disk(next, journal)] + UndoTrace(next, rest, journal)
  {
    assert ([e] + rest)[1..] == rest;
  }
}
