/** Saving the head's environment file through its journal, once; saving it again. */
module EnvInstall {
  import opened Results
  import opened Journal
  import opened Doctor
  import opened NodeAgent
  import opened EnvFile
  import EnvLaws

  datatype EnvRefusal = NotOwner | Unmergeable(fault: EnvFault) | ChangedDuringSetup | CheckFailed | AlreadySaved

  datatype Outcome = Installed | Unchanged | Refused(reason: EnvRefusal)

  /** The account that owns the file, and what it is to be told of the file it saw before setup. */
  datatype Request = Request(path: Path, uid: nat, gid: nat, values: seq<Setting>, seen: Option<File>)

  function TextOf(before: Option<File>): string {
    if before.Some? then before.value.data else ""
  }

  function NewFile(r: Request, before: Option<File>, text: string): File {
    File(text, 0x180, r.uid, if before.Some? then before.value.gid else r.gid)
  }

  /** What saving does to a disk: write the file, find nothing to do, or refuse. */
  function OutcomeOf(c: Context, d: Disk, world: World, r: Request): Outcome
    requires d.journal.Some?
  {
    var before := Current(d.files, r.path);
    var merged := Merge(TextOf(before), r.values);
    if before.Some? && before.value.uid != r.uid then Refused(NotOwner)
    else if merged.Err? then Refused(Unmergeable(merged.error))
    else if before != r.seen then Refused(ChangedDuringSetup)
    else if !Journalled(d.journal.value.entries, r.path) then Installed
    else if !(world.dockerUnchanged && world.routesVerified && CheckAccepts(c.digest, d)) then Refused(CheckFailed)
    else if before.Some? && before.value.data == merged.value then Unchanged
    else Refused(AlreadySaved)
  }

  function FileWritten(d: Disk, r: Request): File
    requires Merge(TextOf(Current(d.files, r.path)), r.values).Ok?
  {
    var before := Current(d.files, r.path);
    NewFile(r, before, Merge(TextOf(before), r.values).value)
  }

  /** The disk once the file is written. */
  function Saved(c: Context, d: Disk, r: Request): Disk
    requires d.journal.Some? && Merge(TextOf(Current(d.files, r.path)), r.values).Ok?
  {
    var f := FileWritten(d, r);
    var s := d.journal.value;
    Disk(d.files[r.path := f], Some(s.(entries := s.entries + [NewEntry(c.digest, d.files, r.path, f)])))
  }

  lemma SavedIsLast(c: Context, d: Disk, r: Request)
    requires d.journal.Some? && Merge(TextOf(Current(d.files, r.path)), r.values).Ok?
    requires !Journalled(d.journal.value.entries, r.path)
    ensures var trace := WriteTrace(c.digest, d, r.path, FileWritten(d, r));
            trace != [] && trace[|trace| - 1] == Saved(c, d, r)
  {
    hide Merge;
  }

  method InstallEnv(agent: JournalAgent, world: World, r: Request) returns (outcome: Outcome)
    requires agent.Saved()
    modifies agent, agent.node
    ensures agent.Saved()
    ensures outcome == OutcomeOf(agent.context, old(agent.node.Now()), world, r)
    ensures outcome == Installed ==>
              && Merge(TextOf(Current(old(agent.node.files), r.path)), r.values).Ok?
              && agent.node.history == old(agent.node.history)
                   + WriteTrace(agent.context.digest, old(agent.node.Now()), r.path,
                                FileWritten(old(agent.node.Now()), r))
              && agent.node.Now() == Saved(agent.context, old(agent.node.Now()), r)
    ensures outcome != Installed ==>
              agent.node.history == old(agent.node.history) && agent.node.Now() == old(agent.node.Now())
  {
    hide Merge, Saved;
    ghost var d := agent.node.Now();
    var before := Current(agent.node.files, r.path);
    if before.Some? && before.value.uid != r.uid {
      return Refused(NotOwner);
    }
    var merged := MergeEnv(TextOf(before), r.values);
    if merged.Err? {
      return Refused(Unmergeable(merged.error));
    }
    if before != r.seen {
      return Refused(ChangedDuringSetup);
    }
    if exists i | 0 <= i < |agent.state.entries| :: agent.state.entries[i].path == r.path {
      var refusal := agent.CheckRestore(world);
      if refusal.Some? {
        return Refused(CheckFailed);
      }
      return if before.Some? && before.value.data == merged.value then Unchanged else Refused(AlreadySaved);
    }
    var refusal := agent.Write(r.path, NewFile(r, before, merged.value));
    SavedIsLast(agent.context, d, r);
    return Installed;
  }

  // ----- saving again -----

  /** The check that passed before the save passes after it. */
  lemma SavedIsAccepted(c: Context, d: Disk, r: Request)
    requires d.journal.Some? && Merge(TextOf(Current(d.files, r.path)), r.values).Ok?
    requires !Journalled(d.journal.value.entries, r.path) && CheckAccepts(c.digest, d)
    ensures CheckAccepts(c.digest, Saved(c, d, r)) && Journalled(Saved(c, d, r).journal.value.entries, r.path)
  {
    hide Merge;
    var d', entries := Saved(c, d, r), d.journal.value.entries;
    OneMoreJournalled(entries, d'.journal.value.entries[|entries|], r.path);
    forall i | 0 <= i < |entries| + 1
      ensures Accepted(c.digest, d'.journal.value.entries[i], d'.files)
    {
      if i < |entries| {
        assert entries[i].path != r.path && Accepted(c.digest, entries[i], d.files);
      }
    }
  }

  /**
   * Saving a second time, whatever the values: the same text changes nothing, another is refused, and
   * either way the journal still holds the file from before the first save.
   */
  lemma SavingAgain(c: Context, d: Disk, world: World, r: Request, again: Request)
    requires d.journal.Some? && OutcomeOf(c, d, world, r) == Installed && EnvLaws.Printable(r.values)
    requires world.dockerUnchanged && world.routesVerified && CheckAccepts(c.digest, d)
    requires Merge(TextOf(Current(d.files, r.path)), r.values).Ok?
    requires again.path == r.path && again.uid == r.uid && again.seen == Some(FileWritten(d, r))
    ensures var first := Merge(TextOf(Current(d.files, r.path)), r.values);
            var second := Merge(TextOf(Current(d.files, r.path)), again.values);
            OutcomeOf(c, Saved(c, d, r), world, again)
            == if second.Err? then Refused(Unmergeable(second.error))
               else if second == first then Unchanged else Refused(AlreadySaved)
    ensures var entries := Saved(c, d, r).journal.value.entries;
            && entries[|entries| - 1].path == r.path && entries[|entries| - 1].before == Current(d.files, r.path)
  {
    hide Merge, CheckAccepts, EnvLaws.Printable, Journalled;
    var original := TextOf(Current(d.files, r.path));
    EnvLaws.MergeReplaces(original, r.values, again.values);
    SavedIsAccepted(c, d, r);
  }
}
