/** What the doctor finds and what a repair leaves, said of the files and the journal as they are. */
module DoctorLaws {
  import opened Results
  import opened Journal
  import opened Doctor

  // ----- what is found -----

  /**
   * The contents setup gave a file, recovered: always of the recorded digest, from the journal's
   * after-image, else from the file as it is, else from the rebuilt Netplan document.
   */
  ghost predicate Recovers(c: Context, e: Entry, current: Option<File>, data: Data) {
    && c.digest(data) == e.after
    && if e.afterData.Some? then data == e.afterData.value
       else if current.Some? && c.digest(current.value.data) == e.after then data == current.value.data
       else IsNetwork(e.path) && c.rebuild(e) == Some(data)
  }

  /** The file is there with the recorded digest, mode and ownership. */
  ghost predicate Intact(c: Context, e: Entry, current: Option<File>) {
    && current.Some? && c.digest(current.value.data) == e.after
    && current.value.mode == e.mode && current.value.uid == e.uid && current.value.gid == e.gid
  }

  /** The contents can be recovered, and nobody has edited the file: it is gone, as before setup, or as written. */
  ghost predicate Mendable(c: Context, e: Entry, current: Option<File>) {
    && !Intact(c, e, current) && c.creatable(e.path)
    && (exists data :: Recovers(c, e, current, data))
    && (current == None || current == e.before || c.digest(current.value.data) == e.after)
  }

  /** The file is not intact, or the after-image in the journal is damaged. */
  ghost predicate Reported(c: Context, e: Entry, current: Option<File>) {
    !Intact(c, e, current) || (e.afterData.Some? && c.digest(e.afterData.value) != e.after)
  }

  /** What the restore check asks of a journal's files: each as before setup, or as setup wrote it. */
  lemma CheckIs(c: Context, d: Disk)
    requires d.journal.Some?
    ensures CheckAccepts(c.digest, d)
       <==> forall e | e in d.journal.value.entries ::
              Current(d.files, e.path) == e.before || Intact(c, e, Current(d.files, e.path))
  {
    hide Current;
  }

  lemma RecoverIs(c: Context, e: Entry, current: Option<File>, data: Data)
    ensures Recover(c, e, current) == Image(data) <==> Recovers(c, e, current, data)
  {
  }

  lemma JudgeIs(c: Context, e: Entry, current: Option<File>)
    ensures Judge(c, e, current) == Repairable <==> Mendable(c, e, current)
    ensures Judge(c, e, current) != Clean <==> Reported(c, e, current)
  {
    var recovered := Recover(c, e, current);
    if recovered.Image? {
      RecoverIs(c, e, current, recovered.data);
    }
    forall data | Recovers(c, e, current, data)
      ensures recovered == Image(data)
    {
      RecoverIs(c, e, current, data);
    }
  }

  /** A path is listed for repair exactly if some entry for it is mendable. */
  lemma RepairFilesExactly(c: Context, entries: seq<Entry>, files: Files, p: Path)
    ensures p in RepairFiles(c, entries, files)
       <==> exists e :: e in entries && e.path == p && Mendable(c, e, Current(files, p))
  {
    RepairFilesAre(c, entries, files, p);
    hide Mendable, Judge, Current;
    forall e | e in entries
      ensures Judge(c, e, Current(files, p)) == Repairable <==> Mendable(c, e, Current(files, p))
    {
      JudgeIs(c, e, Current(files, p));
    }
    if e :| e in entries && e.path == p && Mendable(c, e, Current(files, p)) {
      var i :| 0 <= i < |entries| && entries[i] == e;
    }
  }

  /** An issue is reported exactly for each entry that is not intact or is damaged, as repairable if it is mendable. */
  lemma {:induction false} IssuesExactly(c: Context, entries: seq<Entry>, files: Files, p: Path, repairable: bool)
    ensures (p, repairable) in Issues(c, entries, files)
       <==> exists e :: && e in entries && e.path == p && Reported(c, e, Current(files, p))
                        && repairable == Mendable(c, e, Current(files, p))
  {
    hide Mendable, Reported, Judge, Current;
    if entries != [] {
      var front, last := entries[..|entries| - 1], entries[|entries| - 1];
      assert entries == front + [last];
      IssuesExactly(c, front, files, p, repairable);
      JudgeIs(c, last, Current(files, last.path));
    }
  }

  // ----- what a repair leaves -----

  /** The entry's after-image is kept and, if the path is wanted, its file written as recorded. */
  ghost predicate Settled(c: Context, wanted: set<Path>, d: Disk, now: Disk, j: nat)
    requires d.journal.Some? && j < |d.journal.value.entries|
  {
    && now.journal.Some? && j < |now.journal.value.entries|
    && var e, e' := d.journal.value.entries[j], now.journal.value.entries[j];
    var current, current' := Current(d.files, e.path), Current(now.files, e.path);
    match Recover(c, e, current)
    case Image(data) => && e' == e.(afterData := Some(data))
                        && current' == if e.path in wanted then Some(File(data, e.mode, e.uid, e.gid)) else current
    case _ => e' == e && current' == current
  }

  lemma EntrySettled(c: Context, wanted: set<Path>, d: Disk, k: nat)
    requires d.journal.Some? && k < |d.journal.value.entries|
    ensures Settled(c, wanted, d, LastOf(d, EntrySteps(c, wanted, d, k)), k)
  {
    var e := d.journal.value.entries[k];
    var recovered := Recover(c, e, Current(d.files, e.path));
    hide Recover;
    if recovered.Image? {
      var data := recovered.data;
      var d1 := if e.afterData == None then Remember(d, k, data) else d;
      assert d1.journal.value.entries[k] == e.(afterData := Some(data)) by {
        KeptImage(c, e, Current(d.files, e.path));
      }
      assert Rewrite(d1, k, data).files == d.files[e.path := File(data, e.mode, e.uid, e.gid)];
      var steps := EntrySteps(c, wanted, d, k);
      assert LastOf(d, steps) == if e.path in wanted then Rewrite(d1, k, data) else d1;
    }
  }

  lemma KeptImage(c: Context, e: Entry, current: Option<File>)
    ensures var recovered := Recover(c, e, current);
            recovered.Image? && e.afterData.Some? ==> recovered.data == e.afterData.value
  {
  }

  lemma PathsKept(c: Context, wanted: set<Path>, d: Disk, k: nat)
    requires d.journal.Some? && k < |d.journal.value.entries| && Distinct(d.journal.value.entries)
    ensures var next := LastOf(d, EntrySteps(c, wanted, d, k));
            && next.journal.Some? && |next.journal.value.entries| == |d.journal.value.entries|
            && Distinct(next.journal.value.entries)
  {
    hide Recover;
  }

  lemma {:induction false} AllSettled(c: Context, wanted: set<Path>, d: Disk, k: nat, j: nat)
    requires d.journal.Some? && k <= |d.journal.value.entries| && j < |d.journal.value.entries|
    requires Distinct(d.journal.value.entries)
    ensures var e, done := d.journal.value.entries[j], Repaired(c, wanted, d, k);
            if k <= j then Settled(c, wanted, d, done, j)
            else done.journal.value.entries[j] == e && Current(done.files, e.path) == Current(d.files, e.path)
    decreases |d.journal.value.entries| - k
  {
    hide EntrySteps, Recover, LastOf, Current;
    if k < |d.journal.value.entries| {
      var next := LastOf(d, EntrySteps(c, wanted, d, k));
      PathsKept(c, wanted, d, k);
      AllSettled(c, wanted, next, k + 1, j);
      if j == k {
        EntrySettled(c, wanted, d, k);
      } else {
        EntryStepsElsewhere(c, wanted, d, k, j);
      }
    }
  }

  /**
   * After a complete repair each entry whose contents can be recovered keeps them in the journal; its file,
   * if mendable and not held back with blocked networking, has those contents and the recorded mode and
   * ownership; and every other entry and file is as it was.
   */
  lemma RepairOutcome(c: Context, blocked: bool, d: Disk, e: Entry, data: Data)
    requires d.journal.Some? && Distinct(d.journal.value.entries) && e in d.journal.value.entries
    requires Recovers(c, e, Current(d.files, e.path), data)
    ensures var done := LastOf(d, RepairTrace(c, Wanted(c, d, blocked), d, 0));
            && done.journal.Some? && e.(afterData := Some(data)) in done.journal.value.entries
            && Current(done.files, e.path)
               == if Mendable(c, e, Current(d.files, e.path)) && !(blocked && IsNetwork(e.path))
                  then Some(File(data, e.mode, e.uid, e.gid)) else Current(d.files, e.path)
  {
    hide *;
    var entries, wanted := d.journal.value.entries, Wanted(c, d, blocked);
    var j :| 0 <= j < |entries| && entries[j] == e;
    WantedIs(c, blocked, d, e);
    AllSettled(c, wanted, d, 0, j);
    RepairedIsLast(c, wanted, d, 0);
    SettledAs(c, wanted, d, LastOf(d, RepairTrace(c, wanted, d, 0)), j, data);
  }

  /** Of journalled paths, the mendable ones not held back are wanted. */
  lemma WantedIs(c: Context, blocked: bool, d: Disk, e: Entry)
    requires d.journal.Some? && Distinct(d.journal.value.entries) && e in d.journal.value.entries
    ensures e.path in Wanted(c, d, blocked)
       <==> Mendable(c, e, Current(d.files, e.path)) && !(blocked && IsNetwork(e.path))
  {
    hide RepairFiles, Mendable, Current;
    RepairFilesExactly(c, d.journal.value.entries, d.files, e.path);
  }

  lemma SettledAs(c: Context, wanted: set<Path>, d: Disk, now: Disk, j: nat, data: Data)
    requires d.journal.Some? && j < |d.journal.value.entries| && Settled(c, wanted, d, now, j)
    requires Recovers(c, d.journal.value.entries[j], Current(d.files, d.journal.value.entries[j].path), data)
    ensures var e := d.journal.value.entries[j];
            && now.journal.Some? && e.(afterData := Some(data)) in now.journal.value.entries
            && Current(now.files, e.path)
               == if e.path in wanted then Some(File(data, e.mode, e.uid, e.gid)) else Current(d.files, e.path)
  {
    var e := d.journal.value.entries[j];
    RecoverIs(c, e, Current(d.files, e.path), data);
    hide Recover, Recovers, Current;
  }

  /** A file that is not mendable, not journalled, or held back, a repair leaves alone. */
  lemma RepairLeavesAlone(c: Context, blocked: bool, d: Disk, p: Path)
    requires d.journal.Some? && Distinct(d.journal.value.entries)
    requires (blocked && IsNetwork(p))
             || forall e | e in d.journal.value.entries && e.path == p :: !Mendable(c, e, Current(d.files, p))
    ensures Current(LastOf(d, RepairTrace(c, Wanted(c, d, blocked), d, 0)).files, p) == Current(d.files, p)
  {
    var wanted := Wanted(c, d, blocked);
    RepairFilesExactly(c, d.journal.value.entries, d.files, p);
    assert p !in wanted;
    hide RepairFiles, Wanted, Mendable, RepairTrace, AsWritten, SameEntry;
    RepairWithin(c, wanted, d, d, 0);
    RepairedIsLast(c, wanted, d, 0);
  }
}
