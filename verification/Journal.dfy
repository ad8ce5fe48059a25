/**
 * One node's undo journal: what is on its disk after every single step, and
 * which of those states a crash may leave behind.
 */
module Journal {
  import opened Results

  datatype Path = Path(directory: string, name: string)

  const NETPLAN_DIRECTORY := "/etc/netplan"

  predicate IsNetwork(path: Path) {
    path.directory == NETPLAN_DIRECTORY
  }

  type Data = string
  type Digest = string

  datatype File = File(data: Data, mode: nat, uid: nat, gid: nat)

  /** Before-image and after-hash of one replaced file. Old journals carry no after-image. */
  datatype Entry = Entry(path: Path, before: Option<File>, after: Digest, mode: nat, uid: nat, gid: nat,
                         afterData: Option<Data>)

  datatype State = State(transaction: string, entries: seq<Entry>, networkStarted: bool)

  /** All that survives a crash. */
  datatype Disk = Disk(files: map<Path, File>, journal: Option<State>)

  type Files = map<Path, File>

  function Current(files: Files, path: Path): Option<File> {
    if path in files then Some(files[path]) else None
  }

  function SetTo(files: Files, path: Path, contents: Option<File>): Files {
    if contents.Some? then files[path := contents.value] else files - {path}
  }

  predicate Journalled(entries: seq<Entry>, path: Path) {
    exists i :: 0 <= i < |entries| && entries[i].path == path
  }

  predicate SameData(digest: Data -> Digest, e: Entry, current: Option<File>) {
    current.Some? && digest(current.value.data) == e.after
  }

  /** The file is what setup wrote: same digest, mode and ownership. */
  predicate AsWritten(digest: Data -> Digest, e: Entry, current: Option<File>) {
    && SameData(digest, e, current)
    && current.value.mode == e.mode && current.value.uid == e.uid && current.value.gid == e.gid
  }

  predicate Accepted(digest: Data -> Digest, e: Entry, files: Files) {
    Current(files, e.path) == e.before || AsWritten(digest, e, Current(files, e.path))
  }

  // ----- the disk states each operation passes through -----

  function NewEntry(digest: Data -> Digest, files: Files, path: Path, f: File): Entry {
    Entry(path, Current(files, path), digest(f.data), f.mode, f.uid, f.gid, Some(f.data))
  }

  /** Write-ahead: the journal first, then the file. */
  function WriteTrace(digest: Data -> Digest, d: Disk, path: Path, f: File): seq<Disk>
    requires d.journal.Some?
  {
    var s := d.journal.value;
    if Journalled(s.entries, path) then []
    else
      var j := Some(s.(entries := s.entries + [NewEntry(digest, d.files, path, f)]));
      [Disk(d.files, j), Disk(d.files[path := f], j)]
  }

  /** Entries of one restore pass, newest first. */
  function Pass(entries: seq<Entry>, network: bool): seq<Entry> {
    if entries == [] then []
    else
      var last := entries[|entries| - 1];
      (if IsNetwork(last.path) == network then [last] else []) + Pass(entries[..|entries| - 1], network)
  }

  function Undo(files: Files, es: seq<Entry>): Files
    decreases |es|
  {
    if es == [] then files else Undo(SetTo(files, es[0].path, es[0].before), es[1..])
  }

  function UndoTrace(files: Files, es: seq<Entry>, journal: Option<State>): seq<Disk>
    decreases |es|
  {
    if es == [] then []
    else
      var next := SetTo(files, es[0].path, es[0].before);
      [Disk(next, journal)] + UndoTrace(next, es[1..], journal)
  }

  /** Networking first, then every other file, then the journal itself. */
  function RestoreTrace(d: Disk): seq<Disk>
    requires d.journal.Some?
  {
    var entries := d.journal.value.entries;
    var mid := Undo(d.files, Pass(entries, true));
    UndoTrace(d.files, Pass(entries, true), d.journal)
    + UndoTrace(mid, Pass(entries, false), d.journal)
    + [Disk(Undo(mid, Pass(entries, false)), None)]
  }

  predicate CheckAccepts(digest: Data -> Digest, d: Disk)
    requires d.journal.Some?
  {
    forall i | 0 <= i < |d.journal.value.entries| :: Accepted(digest, d.journal.value.entries[i], d.files)
  }

  // ----- what a crash may leave -----

  /** The journal still knows the way back to `origin`, whatever step was interrupted. */
  ghost predicate Recoverable(digest: Data -> Digest, origin: Files, d: Disk) {
    if d.journal == None then d.files == origin
    else
      var entries := d.journal.value.entries;
      && Distinct(entries)
      && (forall i | 0 <= i < |entries| :: entries[i].before == Current(origin, entries[i].path))
      && (forall i | 0 <= i < |entries| :: Accepted(digest, entries[i], d.files))
      && (forall p: Path :: Journalled(entries, p) || Current(d.files, p) == Current(origin, p))
  }

  ghost predicate Distinct(entries: seq<Entry>) {
    forall i, j | 0 <= i < j < |entries| :: entries[i].path != entries[j].path
  }

  lemma OneMoreJournalled(earlier: seq<Entry>, e: Entry, p: Path)
    ensures Journalled(earlier + [e], p) <==> Journalled(earlier, p) || p == e.path
  {
    var entries := earlier + [e];
    assert p == e.path ==> entries[|earlier|].path == p;
    assert forall i | 0 <= i < |earlier| :: entries[i] == earlier[i];
  }

  /** A journal may take in a path with its present contents, if that path then holds them or what is written. */
  lemma EntryKeepsRecoverable(digest: Data -> Digest, origin: Files, d: Disk, e: Entry, files: Files)
    requires d.journal.Some? && Recoverable(digest, origin, d) && !Journalled(d.journal.value.entries, e.path)
    requires e.before == Current(d.files, e.path) && Accepted(digest, e, files)
    requires forall p: Path | p != e.path :: Current(files, p) == Current(d.files, p)
    ensures var s := d.journal.value;
            Recoverable(digest, origin, Disk(files, Some(s.(entries := s.entries + [e]))))
  {
    hide AsWritten, Current;
    var earlier := d.journal.value.entries;
    forall p: Path
      ensures Journalled(earlier + [e], p) <==> Journalled(earlier, p) || p == e.path
    {
      OneMoreJournalled(earlier, e, p);
    }
    assert forall i | 0 <= i < |earlier| :: earlier[i].path != e.path;
  }

  lemma WriteKeepsRecoverable(digest: Data -> Digest, origin: Files, d: Disk, path: Path, f: File)
    requires d.journal.Some? && Recoverable(digest, origin, d)
    ensures forall k | 0 <= k < |WriteTrace(digest, d, path, f)| ::
              Recoverable(digest, origin, WriteTrace(digest, d, path, f)[k])
  {
    hide Recoverable, Journalled;
    if !Journalled(d.journal.value.entries, path) {
      var e := NewEntry(digest, d.files, path, f);
      EntryKeepsRecoverable(digest, origin, d, e, d.files);
      EntryKeepsRecoverable(digest, origin, d, e, d.files[path := f]);
    }
  }

  lemma {:induction false} UndoKeepsRecoverable(digest: Data -> Digest, origin: Files, files: Files, es: seq<Entry>,
                                                s: State)
    requires Recoverable(digest, origin, Disk(files, Some(s)))
    requires forall e | e in es :: e in s.entries
    ensures Recoverable(digest, origin, Disk(Undo(files, es), Some(s)))
    ensures forall k | 0 <= k < |UndoTrace(files, es, Some(s))| ::
              Recoverable(digest, origin, UndoTrace(files, es, Some(s))[k])
    decreases |es|
  {
    if es != [] {
      var next := SetTo(files, es[0].path, es[0].before);
      PutBackKeepsRecoverable(digest, origin, files, es[0], s);
      UndoKeepsRecoverable(digest, origin, next, es[1..], s);
    }
  }

  lemma PutBackKeepsRecoverable(digest: Data -> Digest, origin: Files, files: Files, e: Entry, s: State)
    requires Recoverable(digest, origin, Disk(files, Some(s))) && e in s.entries
    ensures Recoverable(digest, origin, Disk(SetTo(files, e.path, e.before), Some(s)))
  {
    var next := SetTo(files, e.path, e.before);
    assert forall p: Path :: Current(next, p) == if p == e.path then e.before else Current(files, p);
    var j :| 0 <= j < |s.entries| && s.entries[j] == e;
    assert Journalled(s.entries, e.path);
  }

  lemma {:induction false} PassMembers(entries: seq<Entry>, network: bool, e: Entry)
    ensures e in Pass(entries, network) <==> e in entries && IsNetwork(e.path) == network
  {
    if entries != [] {
      var front, last := entries[..|entries| - 1], entries[|entries| - 1];
      PassMembers(front, network, e);
      assert entries == front + [last];
    }
  }

  /** Undoing puts each listed path back and leaves the rest alone. */
  lemma {:induction false} UndoOutcome(files: Files, es: seq<Entry>, p: Path, before: Option<File>)
    requires forall e | e in es && e.path == p :: e.before == before
    ensures Current(Undo(files, es), p) == if Journalled(es, p) then before else Current(files, p)
    decreases |es|
  {
    if es != [] {
      var next := SetTo(files, es[0].path, es[0].before);
      UndoOutcome(next, es[1..], p, before);
      assert Journalled(es, p) <==> es[0].path == p || Journalled(es[1..], p) by {
        if Journalled(es[1..], p) {
          var i :| 0 <= i < |es[1..]| && es[1..][i].path == p;
          assert es[i + 1].path == p;
        }
        if Journalled(es, p) && es[0].path != p {
          var i :| 0 <= i < |es| && es[i].path == p;
          assert es[1..][i - 1].path == p;
        }
      }
    }
  }

  ghost function Restored(d: Disk): Disk
    requires d.journal.Some?
  {
    RestoreTrace(d)[|RestoreTrace(d)| - 1]
  }

  lemma BothPasses(entries: seq<Entry>, p: Path)
    ensures Journalled(entries, p) <==> Journalled(Pass(entries, true), p) || Journalled(Pass(entries, false), p)
  {
    if Journalled(entries, p) {
      var i :| 0 <= i < |entries| && entries[i].path == p;
      PassMembers(entries, IsNetwork(p), entries[i]);
      var k :| 0 <= k < |Pass(entries, IsNetwork(p))| && Pass(entries, IsNetwork(p))[k] == entries[i];
      assert Journalled(Pass(entries, IsNetwork(p)), p);
    }
    forall network | Journalled(Pass(entries, network), p)
      ensures Journalled(entries, p)
    {
      var i :| 0 <= i < |Pass(entries, network)| && Pass(entries, network)[i].path == p;
      PassMembers(entries, network, Pass(entries, network)[i]);
    }
  }

  /** Networking put back, then every other file. */
  ghost function RestoredFiles(files: Files, entries: seq<Entry>): Files {
    Undo(Undo(files, Pass(entries, true)), Pass(entries, false))
  }

  lemma RestoredIs(d: Disk)
    requires d.journal.Some?
    ensures Restored(d) == Disk(RestoredFiles(d.files, d.journal.value.entries), None)
  {
    hide Undo, Pass, UndoTrace;
  }

  lemma PassBefore(entries: seq<Entry>, network: bool, p: Path, before: Option<File>)
    requires forall e | e in entries && e.path == p :: e.before == before
    ensures forall e | e in Pass(entries, network) && e.path == p :: e.before == before
  {
    forall e | e in Pass(entries, network) && e.path == p
      ensures e.before == before
    {
      PassMembers(entries, network, e);
    }
  }

  lemma RestoredAt(files: Files, entries: seq<Entry>, p: Path, before: Option<File>)
    requires forall e | e in entries && e.path == p :: e.before == before
    ensures Current(RestoredFiles(files, entries), p) == if Journalled(entries, p) then before else Current(files, p)
  {
    hide Undo, Pass, Journalled, Current;
    PassBefore(entries, true, p, before);
    PassBefore(entries, false, p, before);
    UndoOutcome(files, Pass(entries, true), p, before);
    UndoOutcome(Undo(files, Pass(entries, true)), Pass(entries, false), p, before);
    BothPasses(entries, p);
  }

  /**
   * An uninterrupted restore, from any disk at all: every journalled path holds
   * its before-image, every other path is untouched, and the journal is gone.
   */
  lemma RestoreOutcome(d: Disk, p: Path)
    requires d.journal.Some? && Distinct(d.journal.value.entries)
    ensures Restored(d).journal == None
    ensures forall i | 0 <= i < |d.journal.value.entries| && d.journal.value.entries[i].path == p ::
              Current(Restored(d).files, p) == d.journal.value.entries[i].before
    ensures !Journalled(d.journal.value.entries, p) ==> Current(Restored(d).files, p) == Current(d.files, p)
  {
    hide RestoredFiles, Restored, Current;
    RestoredIs(d);
    var entries := d.journal.value.entries;
    if i :| 0 <= i < |entries| && entries[i].path == p {
      RestoredAt(d.files, entries, p, entries[i].before);
    } else {
      RestoredAt(d.files, entries, p, None);
    }
  }

  /** The journal outlives every step of a restore but the last. */
  lemma JournalDeletedLast(d: Disk, k: nat)
    requires d.journal.Some? && k < |RestoreTrace(d)| - 1
    ensures RestoreTrace(d)[k].journal == d.journal
  {
    var entries := d.journal.value.entries;
    UndoTraceJournal(d.files, Pass(entries, true), d.journal);
    UndoTraceJournal(Undo(d.files, Pass(entries, true)), Pass(entries, false), d.journal);
  }

  lemma {:induction false} UndoTraceJournal(files: Files, es: seq<Entry>, journal: Option<State>)
    ensures forall k | 0 <= k < |UndoTrace(files, es, journal)| :: UndoTrace(files, es, journal)[k].journal == journal
    decreases |es|
  {
    if es != [] {
      UndoTraceJournal(SetTo(files, es[0].path, es[0].before), es[1..], journal);
    }
  }

  lemma RestoreReachesOrigin(digest: Data -> Digest, origin: Files, d: Disk)
    requires d.journal.Some? && Recoverable(digest, origin, d)
    ensures Restored(d) == Disk(origin, None)
  {
    var entries := d.journal.value.entries;
    forall p: Path
      ensures Restored(d).journal == None && Current(Restored(d).files, p) == Current(origin, p)
    {
      RestoreOutcome(d, p);
      if Journalled(entries, p) {
        var i :| 0 <= i < |entries| && entries[i].path == p;
        assert Current(Restored(d).files, p) == entries[i].before;
      }
    }
    SameFiles(Restored(d).files, origin);
  }

  lemma SameFiles(a: Files, b: Files)
    requires forall p: Path :: Current(a, p) == Current(b, p)
    ensures a == b
  {
    forall p: Path
      ensures p in a <==> p in b
      ensures p in a && p in b ==> a[p] == b[p]
    {
      assert Current(a, p) == Current(b, p);
    }
  }

  lemma RestoreKeepsRecoverable(digest: Data -> Digest, origin: Files, d: Disk)
    requires d.journal.Some? && Recoverable(digest, origin, d)
    ensures forall k | 0 <= k < |RestoreTrace(d)| :: Recoverable(digest, origin, RestoreTrace(d)[k])
  {
    var s := d.journal.value;
    forall network, e | e in Pass(s.entries, network)
      ensures e in s.entries
    {
      PassMembers(s.entries, network, e);
    }
    UndoKeepsRecoverable(digest, origin, d.files, Pass(s.entries, true), s);
    UndoKeepsRecoverable(digest, origin, Undo(d.files, Pass(s.entries, true)), Pass(s.entries, false), s);
    RestoreReachesOrigin(digest, origin, d);
  }

  // ----- networking before everything else -----

  lemma {:induction false} UndoTraceAt(files: Files, es: seq<Entry>, journal: Option<State>, k: nat)
    requires k < |es|
    ensures |UndoTrace(files, es, journal)| == |es|
    ensures UndoTrace(files, es, journal)[k] == Disk(Undo(files, es[..k + 1]), journal)
    decreases |es|
  {
    var next := SetTo(files, es[0].path, es[0].before);
    assert es[..k + 1][1..] == es[1..][..k];
    if k > 0 {
      UndoTraceAt(next, es[1..], journal, k - 1);
    } else {
      UndoTraceLength(next, es[1..], journal);
    }
  }

  lemma {:induction false} UndoTraceLength(files: Files, es: seq<Entry>, journal: Option<State>)
    ensures |UndoTrace(files, es, journal)| == |es|
    decreases |es|
  {
    if es != [] {
      UndoTraceLength(SetTo(files, es[0].path, es[0].before), es[1..], journal);
    }
  }

  /** Undoing entries of one pass leaves every path of the other pass alone. */
  lemma UndoOtherPass(files: Files, entries: seq<Entry>, network: bool, k: nat, p: Path)
    requires k <= |Pass(entries, network)| && IsNetwork(p) != network
    ensures Current(Undo(files, Pass(entries, network)[..k]), p) == Current(files, p)
  {
    var es := Pass(entries, network)[..k];
    forall e | e in es
      ensures e.path != p
    {
      PassMembers(entries, network, e);
    }
    hide Pass, Undo, Current;
    UndoOutcome(files, es, p, None);
  }

  /** A restore changes no other file before every journalled Netplan file is as it was. */
  lemma NetworkRestoredFirst(d: Disk, k: nat, p: Path, e: Entry)
    requires d.journal.Some? && Distinct(d.journal.value.entries) && k < |RestoreTrace(d)|
    requires !IsNetwork(p) && Current(RestoreTrace(d)[k].files, p) != Current(d.files, p)
    requires e in d.journal.value.entries && IsNetwork(e.path)
    ensures Current(RestoreTrace(d)[k].files, e.path) == e.before
  {
    var entries := d.journal.value.entries;
    var first, second := Pass(entries, true), Pass(entries, false);
    var mid := Undo(d.files, first);
    UndoTraceLength(d.files, first, d.journal);
    UndoTraceLength(mid, second, d.journal);
    if k < |first| {
      UndoTraceAt(d.files, first, d.journal, k);
      UndoOtherPass(d.files, entries, true, k + 1, p);
    } else {
      var n := if k < |first| + |second| then k - |first| + 1 else |second|;
      if k < |first| + |second| {
        UndoTraceAt(mid, second, d.journal, k - |first|);
      }
      assert second[..|second|] == second;
      assert RestoreTrace(d)[k].files == Undo(mid, second[..n]);
      UndoOtherPass(mid, entries, false, n, e.path);
      NetworkUndone(d.files, entries, e);
    }
  }

  lemma NetworkUndone(files: Files, entries: seq<Entry>, e: Entry)
    requires Distinct(entries) && e in entries && IsNetwork(e.path)
    ensures Current(Undo(files, Pass(entries, true)), e.path) == e.before
  {
    var first := Pass(entries, true);
    PassMembers(entries, true, e);
    forall other | other in first && other.path == e.path
      ensures other.before == e.before
    {
      PassMembers(entries, true, other);
    }
    var i :| 0 <= i < |first| && first[i] == e;
    assert Journalled(first, e.path);
    hide Pass, Undo, Current;
    UndoOutcome(files, first, e.path, e.before);
  }
}
