/**
 * Everything that can happen to one node's disk: setup writes, restores and
 * repairs in any order, each cut off after any number of disk steps.
 */
module NodeRuns {
  import opened Results
  import opened Journal
  import opened Doctor

  datatype Operation =
    | Prepare(transaction: string)
    | Write(path: Path, file: File)
    | StartNetwork
    | Restore
    | Repair(blockedNetwork: bool)

  /** The disk states an operation passes through if nothing interrupts it; none if it refuses to start. */
  function Trace(c: Context, d: Disk, op: Operation): seq<Disk> {
    if d.journal == None then
      if op.Prepare? then [d.(journal := Some(State(op.transaction, [], false)))] else []
    else
      match op
      case Prepare(_) => []
      case Write(path, file) => WriteTrace(c.digest, d, path, file)
      case StartNetwork => [d.(journal := Some(d.journal.value.(networkStarted := true)))]
      case Restore => if CheckAccepts(c.digest, d) then RestoreTrace(d) else []
      case Repair(blocked) =>
        if d.journal.value.networkStarted then RepairTrace(c, Wanted(c, d, blocked), d, 0) else []
  }

  /** An operation that a crash, a failed command or nothing at all stops after `steps` disk steps. */
  datatype Event = Event(op: Operation, steps: nat)

  function After(c: Context, d: Disk, ev: Event): Disk {
    var trace := Trace(c, d, ev.op);
    if trace == [] || ev.steps == 0 then d
    else trace[if ev.steps <= |trace| then ev.steps - 1 else |trace| - 1]
  }

  function Run(c: Context, d: Disk, events: seq<Event>): Disk {
    if events == [] then d
    else After(c, Run(c, d, events[..|events| - 1]), events[|events| - 1])
  }

  lemma StepsKeepRecoverable(c: Context, origin: Files, d: Disk, op: Operation)
    requires Recoverable(c.digest, origin, d)
    ensures forall k | 0 <= k < |Trace(c, d, op)| :: Recoverable(c.digest, origin, Trace(c, d, op)[k])
  {
    if d.journal.Some? {
      match op
      case Prepare(_) =>
      case Write(path, file) => WriteKeepsRecoverable(c.digest, origin, d, path, file);
      case StartNetwork =>
      case Restore => RestoreKeepsRecoverable(c.digest, origin, d);
      case Repair(blocked) =>
        RepairKeepsRecoverable(c, origin, Wanted(c, d, blocked), d);
    }
  }

  /** Wherever the last operation was cut off, the journal still knows the way back. */
  lemma {:induction false} EveryRunRecoverable(c: Context, origin: Files, events: seq<Event>)
    ensures Recoverable(c.digest, origin, Run(c, Disk(origin, None), events))
  {
    if events != [] {
      var front := events[..|events| - 1];
      EveryRunRecoverable(c, origin, front);
      StepsKeepRecoverable(c, origin, Run(c, Disk(origin, None), front), events[|events| - 1].op);
    }
  }

  /** After any such history the restore check accepts every file, and without a journal nothing differs. */
  lemma CheckNeverBlocksRecovery(c: Context, origin: Files, events: seq<Event>)
    ensures var d := Run(c, Disk(origin, None), events);
            if d.journal == None then d.files == origin else CheckAccepts(c.digest, d)
  {
    EveryRunRecoverable(c, origin, events);
  }

  /** Any number of restores may be cut short; one that finishes gives back every file as it was before setup. */
  lemma RestoreAlwaysFinishes(c: Context, origin: Files, events: seq<Event>, steps: nat)
    requires var d := Run(c, Disk(origin, None), events);
             d.journal.Some? ==> steps >= |RestoreTrace(d)|
    ensures Run(c, Disk(origin, None), events + [Event(Restore, steps)]) == Disk(origin, None)
  {
    var d := Run(c, Disk(origin, None), events);
    EveryRunRecoverable(c, origin, events);
    CheckNeverBlocksRecovery(c, origin, events);
    assert (events + [Event(Restore, steps)])[..|events|] == events;
    if d.journal.Some? {
      RestoreReachesOrigin(c.digest, origin, d);
    }
  }

  /** While a journal exists, only paths it names can differ from their original contents. */
  lemma OnlyJournalledPathsDiffer(c: Context, origin: Files, events: seq<Event>, p: Path)
    ensures var d := Run(c, Disk(origin, None), events);
            Current(d.files, p) != Current(origin, p) ==>
              && d.journal.Some?
              && exists e :: e in d.journal.value.entries && e.path == p && e.before == Current(origin, p)
                             && AsWritten(c.digest, e, Current(d.files, p))
  {
    EveryRunRecoverable(c, origin, events);
    var d := Run(c, Disk(origin, None), events);
    if Current(d.files, p) != Current(origin, p) {
      var i :| 0 <= i < |d.journal.value.entries| && d.journal.value.entries[i].path == p;
      assert d.journal.value.entries[i] in d.journal.value.entries;
      assert Accepted(c.digest, d.journal.value.entries[i], d.files);
    }
  }
}
