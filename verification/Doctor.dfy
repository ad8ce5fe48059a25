/**
 * Repairing a configured node from its journal: which files the doctor may
 * rewrite, what it writes, and every disk state it passes through.
 */
module Doctor {
  import opened Results
  import opened Journal

  /** What recovery finds for an entry: contents to write, nothing usable, or a damaged stored image. */
  datatype Recovery = Image(data: Data) | NoImage | Corrupt

  datatype Verdict = Clean | Repairable | Manual

  /**
   * What the doctor reads besides the files: the digest, the Netplan document it
   * can rebuild for an old journal, and the paths whose directory exists or may be made.
   */
  datatype Context = Context(digest: Data -> Digest, rebuild: Entry -> Option<Data>, creatable: Path -> bool)

  function Recover(c: Context, e: Entry, current: Option<File>): (r: Recovery)
    ensures r.Image? ==> c.digest(r.data) == e.after
  {
    if e.afterData.Some? then
      if c.digest(e.afterData.value) == e.after then Image(e.afterData.value) else Corrupt
    else if SameData(c.digest, e, current) then Image(current.value.data)
    else if IsNetwork(e.path) && c.rebuild(e).Some? && c.digest(c.rebuild(e).value) == e.after then
      Image(c.rebuild(e).value)
    else NoImage
  }

  function Judge(c: Context, e: Entry, current: Option<File>): Verdict {
    var recovered := Recover(c, e, current);
    if recovered == Corrupt then Manual
    else if AsWritten(c.digest, e, current) then Clean
    else if recovered.Image? && (current == None || current == e.before || SameData(c.digest, e, current))
            && c.creatable(e.path)
    then Repairable
    else Manual
  }

  /** Paths listed for repair, in journal order. */
  function RepairFiles(c: Context, entries: seq<Entry>, files: Files): seq<Path> {
    if entries == [] then []
    else
      var last := entries[|entries| - 1];
      RepairFiles(c, entries[..|entries| - 1], files)
      + if Judge(c, last, Current(files, last.path)) == Repairable then [last.path] else []
  }

  /** Everything the report mentions, in journal order, with whether it can be repaired. */
  function Issues(c: Context, entries: seq<Entry>, files: Files): seq<(Path, bool)> {
    if entries == [] then []
    else
      var last := entries[|entries| - 1];
      var verdict := Judge(c, last, Current(files, last.path));
      Issues(c, entries[..|entries| - 1], files)
      + if verdict == Clean then [] else [(last.path, verdict == Repairable)]
  }

  lemma {:induction false} RepairFilesAre(c: Context, entries: seq<Entry>, files: Files, p: Path)
    ensures p in RepairFiles(c, entries, files)
       <==> exists i ::
              && 0 <= i < |entries| && entries[i].path == p
              && Judge(c, entries[i], Current(files, p)) == Repairable
  {
    if entries != [] {
      var front := entries[..|entries| - 1];
      RepairFilesAre(c, front, files, p);
      assert forall i | 0 <= i < |front| :: front[i] == entries[i];
    }
  }

  /** Blocked networking leaves every Netplan file alone. */
  function Wanted(c: Context, d: Disk, blockedNetwork: bool): set<Path>
    requires d.journal.Some?
  {
    set p | p in RepairFiles(c, d.journal.value.entries, d.files) && !(blockedNetwork && IsNetwork(p))
  }

  // ----- the repair, one disk step at a time -----

  function Remember(d: Disk, k: nat, data: Data): Disk
    requires d.journal.Some? && k < |d.journal.value.entries|
  {
    var s := d.journal.value;
    d.(journal := Some(s.(entries := s.entries[k := s.entries[k].(afterData := Some(data))])))
  }

  function Rewrite(d: Disk, k: nat, data: Data): Disk
    requires d.journal.Some? && k < |d.journal.value.entries|
  {
    var e := d.journal.value.entries[k];
    d.(files := d.files[e.path := File(data, e.mode, e.uid, e.gid)])
  }

  /** The steps taken for entry `k`: cache a missing after-image, then rewrite the file if it is wanted. */
  function EntrySteps(c: Context, wanted: set<Path>, d: Disk, k: nat): (r: seq<Disk>)
    requires d.journal.Some? && k < |d.journal.value.entries|
    ensures forall i | 0 <= i < |r| :: r[i].journal.Some? && |r[i].journal.value.entries| == |d.journal.value.entries|
  {
    var e := d.journal.value.entries[k];
    var recovered := Recover(c, e, Current(d.files, e.path));
    if !recovered.Image? then []
    else
      var d1 := if e.afterData == None then Remember(d, k, recovered.data) else d;
      var d2 := Rewrite(d1, k, recovered.data);
      (if e.afterData == None then [d1] else []) + (if e.path in wanted then [d2] else [])
  }

  function LastOf(d: Disk, trace: seq<Disk>): Disk {
    if trace == [] then d else trace[|trace| - 1]
  }

  function RepairTrace(c: Context, wanted: set<Path>, d: Disk, k: nat): seq<Disk>
    requires d.journal.Some? && k <= |d.journal.value.entries|
    decreases |d.journal.value.entries| - k
  {
    if k == |d.journal.value.entries| then []
    else
      var steps := EntrySteps(c, wanted, d, k);
      steps + RepairTrace(c, wanted, LastOf(d, steps), k + 1)
  }

  function Repaired(c: Context, wanted: set<Path>, d: Disk, k: nat): (r: Disk)
    requires d.journal.Some? && k <= |d.journal.value.entries|
    ensures r.journal.Some? && |r.journal.value.entries| == |d.journal.value.entries|
    decreases |d.journal.value.entries| - k
  {
    if k == |d.journal.value.entries| then d
    else Repaired(c, wanted, LastOf(d, EntrySteps(c, wanted, d, k)), k + 1)
  }

  // ----- what holds between every two steps -----

  /** The same entry, with at most a missing after-image filled in by data of the recorded digest. */
  ghost predicate SameEntry(c: Context, e: Entry, now: Entry) {
    || now == e
    || (e.afterData == None && now.afterData.Some? && now == e.(afterData := now.afterData)
        && c.digest(now.afterData.value) == e.after)
  }

  /** `now` may be reached from `d` by repairing only wanted files, each as setup wrote it. */
  ghost predicate Within(c: Context, wanted: set<Path>, d: Disk, now: Disk) {
    && d.journal.Some? && now.journal.Some?
    && now.journal.value.networkStarted == d.journal.value.networkStarted
    && now.journal.value.transaction == d.journal.value.transaction
    && var entries, entries' := d.journal.value.entries, now.journal.value.entries;
    && |entries'| == |entries|
    && (forall i | 0 <= i < |entries| :: SameEntry(c, entries[i], entries'[i]))
    && (forall p: Path :: Current(now.files, p) != Current(d.files, p) ==> p in wanted && Journalled(entries, p))
    && (forall i | 0 <= i < |entries| && Current(now.files, entries[i].path) != Current(d.files, entries[i].path) ::
          AsWritten(c.digest, entries[i], Current(now.files, entries[i].path)))
  }

  lemma EntryStepsWithin(c: Context, wanted: set<Path>, d: Disk, now: Disk, k: nat)
    requires Within(c, wanted, d, now) && k < |d.journal.value.entries|
    requires Distinct(d.journal.value.entries)
    ensures forall i | 0 <= i < |EntrySteps(c, wanted, now, k)| ::
              Within(c, wanted, d, EntrySteps(c, wanted, now, k)[i])
  {
    var e := now.journal.value.entries[k];
    var recovered := Recover(c, e, Current(now.files, e.path));
    if recovered.Image? {
      var d1 := if e.afterData == None then Remember(now, k, recovered.data) else now;
      assert Within(c, wanted, d, d1);
      if e.path in wanted {
        RewriteWithin(c, wanted, d, d1, k, recovered.data);
      }
    }
  }

  lemma RewriteWithin(c: Context, wanted: set<Path>, d: Disk, now: Disk, k: nat, data: Data)
    requires Within(c, wanted, d, now) && k < |d.journal.value.entries|
    requires Distinct(d.journal.value.entries)
    requires d.journal.value.entries[k].path in wanted && c.digest(data) == d.journal.value.entries[k].after
    ensures Within(c, wanted, d, Rewrite(now, k, data))
  {
    var entries, e, next := d.journal.value.entries, d.journal.value.entries[k], Rewrite(now, k, data);
    assert SameEntry(c, e, now.journal.value.entries[k]);
    forall p: Path | p != e.path
      ensures Current(next.files, p) == Current(now.files, p)
    {
    }
    assert Journalled(entries, e.path);
    forall i | 0 <= i < |entries| && Current(next.files, entries[i].path) != Current(d.files, entries[i].path)
      ensures AsWritten(c.digest, entries[i], Current(next.files, entries[i].path))
    {
      if i != k {
        assert entries[i].path != e.path;
      }
    }
  }

  lemma {:induction false} RepairWithin(c: Context, wanted: set<Path>, d: Disk, now: Disk, k: nat)
    requires Within(c, wanted, d, now) && k <= |d.journal.value.entries|
    requires Distinct(d.journal.value.entries)
    ensures forall i | 0 <= i < |RepairTrace(c, wanted, now, k)| ::
              Within(c, wanted, d, RepairTrace(c, wanted, now, k)[i])
    ensures Within(c, wanted, d, Repaired(c, wanted, now, k))
    decreases |d.journal.value.entries| - k
  {
    if k < |d.journal.value.entries| {
      EntryStepsWithin(c, wanted, d, now, k);
      RepairWithin(c, wanted, d, LastOf(now, EntrySteps(c, wanted, now, k)), k + 1);
    }
  }

  // ----- main results -----

  /** Whatever step is reached, a file was overwritten only if it was absent, the before-image or the after-data. */
  lemma RepairNeverOverwritesEdits(c: Context, blockedNetwork: bool, d: Disk, i: nat, p: Path)
    requires d.journal.Some? && Distinct(d.journal.value.entries)
    requires i < |RepairTrace(c, Wanted(c, d, blockedNetwork), d, 0)|
    ensures var now := RepairTrace(c, Wanted(c, d, blockedNetwork), d, 0)[i];
            Current(now.files, p) != Current(d.files, p) ==>
              exists e :: e in d.journal.value.entries && e.path == p
                && (Current(d.files, p) == None || Current(d.files, p) == e.before
                    || SameData(c.digest, e, Current(d.files, p)))
                && AsWritten(c.digest, e, Current(now.files, p))
                && !(blockedNetwork && IsNetwork(p))
  {
    var wanted := Wanted(c, d, blockedNetwork);
    RepairWithin(c, wanted, d, d, 0);
    var now := RepairTrace(c, wanted, d, 0)[i];
    if Current(now.files, p) != Current(d.files, p) {
      RepairFilesAre(c, d.journal.value.entries, d.files, p);
    }
  }

  ghost function VerdictOf(c: Context, d: Disk, j: nat): Verdict
    requires d.journal.Some? && j < |d.journal.value.entries|
  {
    var e := d.journal.value.entries[j];
    Judge(c, e, Current(d.files, e.path))
  }

  /** Before entry `k`, every wanted file is as setup wrote it and no other verdict has changed. */
  ghost predicate Progress(c: Context, wanted: set<Path>, d: Disk, now: Disk, k: nat) {
    && Within(c, wanted, d, now)
    && var entries, entries' := d.journal.value.entries, now.journal.value.entries;
    && (forall j | 0 <= j < |entries| && j < k ::
          if entries[j].path in wanted then AsWritten(c.digest, entries'[j], Current(now.files, entries[j].path))
          else VerdictOf(c, now, j) == VerdictOf(c, d, j))
    && (forall j | k <= j < |entries| ::
          entries'[j] == entries[j] && Current(now.files, entries[j].path) == Current(d.files, entries[j].path))
  }

  lemma WantedJudged(c: Context, blocked: bool, d: Disk, k: nat)
    requires d.journal.Some? && Distinct(d.journal.value.entries) && k < |d.journal.value.entries|
    ensures d.journal.value.entries[k].path in Wanted(c, d, blocked) ==> VerdictOf(c, d, k) == Repairable
  {
    var entries := d.journal.value.entries;
    var p := entries[k].path;
    RepairFilesAre(c, entries, d.files, p);
    if p in Wanted(c, d, blocked) {
      var i :| 0 <= i < |entries| && entries[i].path == p && Judge(c, entries[i], Current(d.files, p)) == Repairable;
      assert i == k;
    }
  }

  /** What the steps for entry `k` do to that entry. */
  lemma EntrySettles(c: Context, wanted: set<Path>, d: Disk, k: nat)
    requires d.journal.Some? && k < |d.journal.value.entries|
    requires d.journal.value.entries[k].path in wanted ==> VerdictOf(c, d, k) == Repairable
    ensures var e, next := d.journal.value.entries[k], LastOf(d, EntrySteps(c, wanted, d, k));
            if e.path in wanted then AsWritten(c.digest, next.journal.value.entries[k], Current(next.files, e.path))
            else VerdictOf(c, next, k) == VerdictOf(c, d, k)
  {
  }

  /** ... and to every other one: nothing. */
  lemma EntryStepsElsewhere(c: Context, wanted: set<Path>, d: Disk, k: nat, j: nat)
    requires d.journal.Some? && k < |d.journal.value.entries| && j < |d.journal.value.entries| && j != k
    requires d.journal.value.entries[j].path != d.journal.value.entries[k].path
    ensures var next := LastOf(d, EntrySteps(c, wanted, d, k));
            && next.journal.value.entries[j] == d.journal.value.entries[j]
            && Current(next.files, d.journal.value.entries[j].path) == Current(d.files, d.journal.value.entries[j].path)
  {
  }

  lemma EntryProgress(c: Context, blocked: bool, d: Disk, now: Disk, k: nat)
    requires d.journal.Some? && Distinct(d.journal.value.entries) && k < |d.journal.value.entries|
    requires Progress(c, Wanted(c, d, blocked), d, now, k)
    ensures Progress(c, Wanted(c, d, blocked), d, LastOf(now, EntrySteps(c, Wanted(c, d, blocked), now, k)), k + 1)
  {
    hide EntrySteps, Judge, AsWritten, SameEntry, Wanted;
    var wanted, entries := Wanted(c, d, blocked), d.journal.value.entries;
    var steps := EntrySteps(c, wanted, now, k);
    var next := LastOf(now, steps);
    EntryStepsWithin(c, wanted, d, now, k);
    assert Within(c, wanted, d, next);
    WantedJudged(c, blocked, d, k);
    EntrySettles(c, wanted, now, k);
    var entries' := now.journal.value.entries;
    forall j | 0 <= j < |entries| && j != k
      ensures next.journal.value.entries[j] == entries'[j]
      ensures Current(next.files, entries[j].path) == Current(now.files, entries[j].path)
      ensures VerdictOf(c, next, j) == VerdictOf(c, now, j)
    {
      SamePath(c, entries[j], entries'[j]);
      SamePath(c, entries[k], entries'[k]);
      EntryStepsElsewhere(c, wanted, now, k, j);
    }
    SamePath(c, entries[k], entries'[k]);
  }

  lemma SamePath(c: Context, e: Entry, now: Entry)
    requires SameEntry(c, e, now)
    ensures now.path == e.path
  {
  }

  lemma {:induction false} RepairProgress(c: Context, blocked: bool, d: Disk, now: Disk, k: nat)
    requires d.journal.Some? && Distinct(d.journal.value.entries) && k <= |d.journal.value.entries|
    requires Progress(c, Wanted(c, d, blocked), d, now, k)
    ensures Progress(c, Wanted(c, d, blocked), d, Repaired(c, Wanted(c, d, blocked), now, k), |d.journal.value.entries|)
    decreases |d.journal.value.entries| - k
  {
    if k < |d.journal.value.entries| {
      var wanted := Wanted(c, d, blocked);
      EntryProgress(c, blocked, d, now, k);
      EntryStepsWithin(c, wanted, d, now, k);
      RepairProgress(c, blocked, d, LastOf(now, EntrySteps(c, wanted, now, k)), k + 1);
    }
  }

  /**
   * An uninterrupted repair leaves each repaired file accepted by the restore
   * check and clean in the next report, and changes no other verdict.
   */
  lemma RepairSettles(c: Context, blocked: bool, d: Disk, j: nat)
    requires d.journal.Some? && Distinct(d.journal.value.entries) && j < |d.journal.value.entries|
    ensures var wanted := Wanted(c, d, blocked);
            var done := Repaired(c, wanted, d, 0);
            && (d.journal.value.entries[j].path in wanted ==>
                  VerdictOf(c, done, j) == Clean && Accepted(c.digest, done.journal.value.entries[j], done.files))
            && (d.journal.value.entries[j].path !in wanted ==> VerdictOf(c, done, j) == VerdictOf(c, d, j))
  {
    hide Wanted, Repaired, Accepted, AsWritten, SameEntry, VerdictOf;
    var wanted := Wanted(c, d, blocked);
    var done := Repaired(c, wanted, d, 0);
    NothingRepaired(c, wanted, d);
    RepairProgress(c, blocked, d, d, 0);
    var e, e' := d.journal.value.entries[j], done.journal.value.entries[j];
    assert SameEntry(c, e, e');
    if e.path in wanted {
      WantedSettled(c, blocked, d, done, j);
    }
  }

  lemma NothingRepaired(c: Context, wanted: set<Path>, d: Disk)
    requires d.journal.Some?
    ensures Progress(c, wanted, d, d, 0)
  {
  }

  lemma WantedSettled(c: Context, blocked: bool, d: Disk, done: Disk, j: nat)
    requires d.journal.Some? && Distinct(d.journal.value.entries) && j < |d.journal.value.entries|
    requires done.journal.Some? && |done.journal.value.entries| == |d.journal.value.entries|
    requires d.journal.value.entries[j].path in Wanted(c, d, blocked)
    requires SameEntry(c, d.journal.value.entries[j], done.journal.value.entries[j])
    requires AsWritten(c.digest, done.journal.value.entries[j], Current(done.files, d.journal.value.entries[j].path))
    ensures VerdictOf(c, done, j) == Clean && Accepted(c.digest, done.journal.value.entries[j], done.files)
  {
    hide Wanted;
    WantedJudged(c, blocked, d, j);
  }

  lemma {:induction false} RepairedIsLast(c: Context, wanted: set<Path>, d: Disk, k: nat)
    requires d.journal.Some? && k <= |d.journal.value.entries|
    ensures Repaired(c, wanted, d, k) == LastOf(d, RepairTrace(c, wanted, d, k))
    decreases |d.journal.value.entries| - k
  {
    hide EntrySteps;
    if k < |d.journal.value.entries| {
      var steps := EntrySteps(c, wanted, d, k);
      RepairedIsLast(c, wanted, LastOf(d, steps), k + 1);
      LastOfJoin(d, steps, RepairTrace(c, wanted, LastOf(d, steps), k + 1));
    }
  }

  lemma LastOfJoin(d: Disk, first: seq<Disk>, second: seq<Disk>)
    ensures LastOf(d, first + second) == LastOf(LastOf(d, first), second)
  {
  }

  /** Repair steps never lose the way back to the files before setup. */
  lemma RepairKeepsRecoverable(c: Context, origin: Files, wanted: set<Path>, d: Disk)
    requires d.journal.Some? && Recoverable(c.digest, origin, d)
    ensures forall i | 0 <= i < |RepairTrace(c, wanted, d, 0)| ::
              Recoverable(c.digest, origin, RepairTrace(c, wanted, d, 0)[i])
  {
    RepairWithin(c, wanted, d, d, 0);
    var entries := d.journal.value.entries;
    forall i | 0 <= i < |RepairTrace(c, wanted, d, 0)|
      ensures Recoverable(c.digest, origin, RepairTrace(c, wanted, d, 0)[i])
    {
      WithinRecoverable(c, origin, wanted, d, RepairTrace(c, wanted, d, 0)[i]);
    }
  }

  lemma WithinRecoverable(c: Context, origin: Files, wanted: set<Path>, d: Disk, now: Disk)
    requires d.journal.Some? && Recoverable(c.digest, origin, d) && Within(c, wanted, d, now)
    ensures Recoverable(c.digest, origin, now)
  {
    var entries, entries' := d.journal.value.entries, now.journal.value.entries;
    forall i | 0 <= i < |entries|
      ensures entries'[i].path == entries[i].path && entries'[i].before == Current(origin, entries[i].path)
      ensures Accepted(c.digest, entries'[i], now.files)
    {
      assert SameEntry(c, entries[i], entries'[i]);
      assert Accepted(c.digest, entries[i], d.files);
    }
    forall p: Path | !Journalled(entries', p)
      ensures Current(now.files, p) == Current(origin, p)
    {
      assert !Journalled(entries, p);
    }
  }
}
