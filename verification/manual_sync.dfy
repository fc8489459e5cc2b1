/**
 * `executeManualSync`: the fallback copy. It walks the source tree parents
 * first, creates every directory in the target, copies a file when the target
 * lacks it or holds an older one, keeps the source's modification time on
 * every copy, and never removes anything from the target.
 */
module ManualSync {
  import opened Text
  import opened Progress

  newtype byte = x: int | 0 <= x < 256

  /** A path relative to the source (or target) root, as its list of names; the root itself is `[]`. */
  type Path = seq<string>

  const Root: Path := []

  /** One element of `source.walkTopDown()`, parents before children. */
  datatype Entry = Entry(path: Path, isDir: bool, mtime: int, content: seq<byte>)

  /** A regular file of the target: its last-modified time and its bytes. */
  datatype Stat = Stat(mtime: int, content: seq<byte>)

  /** The target directory tree, changed in place by the copy. */
  class Tree {
    var files: map<Path, Stat>
    var dirs: set<Path>

    constructor (files: map<Path, Stat>, dirs: set<Path>)
      ensures this.files == files && this.dirs == dirs
    {
      this.files := files;
      this.dirs := dirs;
    }
  }

  /** What the freshness comparison decides for one file. */
  datatype Decision = New | Updated | Skipped

  /** The counters `newFiles`, `updatedFiles`, `skippedFiles`. */
  datatype Tally = Tally(newFiles: nat, updatedFiles: nat, skippedFiles: nat)

  /** The copy made for walk entry `at`, if any, throws an I/O exception with this message. */
  datatype Fault = Fault(at: nat, message: Option<string>)

  function Decide(files: map<Path, Stat>, e: Entry): Decision {
    if e.path !in files then New
    else if e.mtime > files[e.path].mtime then Updated
    else Skipped
  }

  /** The target files after handling one walk entry. */
  function CopyEntry(files: map<Path, Stat>, e: Entry): map<Path, Stat> {
    if e.isDir || Decide(files, e) == Skipped then files
    else files[e.path := Stat(e.mtime, e.content)]
  }

  /** The target files after handling the first `n` entries of `walk` in order. */
  function Synced(files: map<Path, Stat>, walk: seq<Entry>, n: nat): map<Path, Stat>
    requires n <= |walk|
  {
    if n == 0 then files else CopyEntry(Synced(files, walk, n - 1), walk[n - 1])
  }

  function Count(t: Tally, d: Decision): Tally {
    match d
    case New => t.(newFiles := t.newFiles + 1)
    case Updated => t.(updatedFiles := t.updatedFiles + 1)
    case Skipped => t.(skippedFiles := t.skippedFiles + 1)
  }

  /** The counters after handling the first `n` entries of `walk`. */
  function TallyOf(files: map<Path, Stat>, walk: seq<Entry>, n: nat): Tally
    requires n <= |walk|
  {
    if n == 0 then Tally(0, 0, 0)
    else if walk[n - 1].isDir then TallyOf(files, walk, n - 1)
    else Count(TallyOf(files, walk, n - 1), Decide(Synced(files, walk, n - 1), walk[n - 1]))
  }

  /** How many of the first `n` entries are files; `walkTopDown().count { it.isFile }` when `n == |walk|`. */
  function FileCount(walk: seq<Entry>, n: nat): nat
    requires n <= |walk|
  {
    if n == 0 then 0 else FileCount(walk, n - 1) + if walk[n - 1].isDir then 0 else 1
  }

  /** A directory and all its ancestors: what `mkdirs` ensures exist. */
  function Prefixes(p: Path): set<Path> {
    set i | 0 <= i <= |p| :: p[..i]
  }

  function Parent(p: Path): Path {
    if p == [] then [] else p[..|p| - 1]
  }

  /** The directories one entry makes: the directory itself, or a file's parent. */
  function EntryDirs(e: Entry): set<Path> {
    if e.isDir then Prefixes(e.path) else Prefixes(Parent(e.path))
  }

  /** The directories the first `n` entries make. */
  function DirsMade(walk: seq<Entry>, n: nat): set<Path>
    requires n <= |walk|
  {
    if n == 0 then {} else DirsMade(walk, n - 1) + EntryDirs(walk[n - 1])
  }

  /** The `onProgress` calls made for the first `n` entries: one per file, `processed / totalFiles`. */
  function ManualUpdates(walk: seq<Entry>, n: nat, totalFiles: int): seq<Progress>
    requires n <= |walk|
  {
    if n == 0 then []
    else
      var done := FileCount(walk, n);
      ManualUpdates(walk, n - 1, totalFiles)
      + if walk[n - 1].isDir then [] else [Progress(Ratio(done, totalFiles), done, totalFiles)]
  }

  const SummaryMarker: string := "Files synchronized manually (additive mode)"

  function Summary(t: Tally): string {
    SummaryMarker + "\n"
    + "New files: " + IntToString(t.newFiles)
    + ", Updated files: " + IntToString(t.updatedFiles)
    + ", Skipped files: " + IntToString(t.skippedFiles)
  }

  /** Entry `e` makes a copy, so an I/O fault on it surfaces. */
  predicate CopyNeeded(files: map<Path, Stat>, e: Entry) {
    !e.isDir && Decide(files, e) != Skipped
  }

  /** Where a manual pass stops. */
  datatype Halt = Completed | CancelledAt(index: nat) | FailedAt(index: nat, message: Option<string>)

  /**
   * Cancellation is checked before entry `c`; the faulty copy throws at its
   * entry if the walk gets there and that entry needs a copy.
   */
  function Halting(files: map<Path, Stat>, walk: seq<Entry>, cancelAt: Option<nat>, fault: Option<Fault>): (h: Halt)
    ensures h.CancelledAt? ==> h.index < |walk|
    ensures h.FailedAt? ==> h.index < |walk|
  {
    var c := if cancelAt.Some? && cancelAt.value < |walk| then cancelAt.value else |walk|;
    if fault.Some? && fault.value.at < c && CopyNeeded(Synced(files, walk, fault.value.at), walk[fault.value.at])
    then FailedAt(fault.value.at, fault.value.message)
    else if c < |walk| then CancelledAt(c)
    else Completed
  }

  /** How many entries were fully handled. */
  function Handled(h: Halt, n: nat): nat {
    match h
    case Completed => n
    case CancelledAt(k) => k
    case FailedAt(k, _) => k
  }

  /**
   * The target's directories after a pass that stops at `h`: the root, the
   * directories of the entries handled and, when a copy throws, the parent
   * made just before it.
   */
  function DirsAfter(dirs: set<Path>, walk: seq<Entry>, h: Halt): set<Path>
    requires h.Completed? || h.index < |walk|
  {
    match h
    case Completed => dirs + {Root} + DirsMade(walk, |walk|)
    case CancelledAt(k) => dirs + {Root} + DirsMade(walk, k)
    case FailedAt(k, _) => dirs + {Root} + DirsMade(walk, k) + EntryDirs(walk[k])
  }

  /** How `executeManualSync` ends: the summary of the counters, the cancellation, or the copy's exception. */
  function ManualOutcome(files: map<Path, Stat>, walk: seq<Entry>, cancelAt: Option<nat>, fault: Option<Fault>): Outcome {
    match Halting(files, walk, cancelAt, fault)
    case Completed => Ok(Summary(TallyOf(files, walk, |walk|)))
    case CancelledAt(_) => Cancelled
    case FailedAt(_, message) => Fail(message)
  }

  /** The `onProgress` calls of `executeManualSync`: the start, then one per file handled before it stops. */
  function ManualProgress(files: map<Path, Stat>, walk: seq<Entry>, cancelAt: Option<nat>, fault: Option<Fault>): seq<Progress> {
    var totalFiles := FileCount(walk, |walk|);
    [Started(totalFiles)] + ManualUpdates(walk, Handled(Halting(files, walk, cancelAt, fault), |walk|), totalFiles)
  }

  /** No copy before entry `i` was the faulty one. */
  predicate NoFaultBefore(files: map<Path, Stat>, walk: seq<Entry>, fault: Option<Fault>, i: nat)
    requires i <= |walk|
  {
    fault.Some? && fault.value.at < i ==> !CopyNeeded(Synced(files, walk, fault.value.at), walk[fault.value.at])
  }

  lemma HaltsCancelled(files: map<Path, Stat>, walk: seq<Entry>, cancelAt: Option<nat>, fault: Option<Fault>, i: nat)
    requires i < |walk| && cancelAt == Some(i) && NoFaultBefore(files, walk, fault, i)
    ensures Halting(files, walk, cancelAt, fault) == CancelledAt(i)
  {
  }

  lemma HaltsFailed(files: map<Path, Stat>, walk: seq<Entry>, cancelAt: Option<nat>, fault: Option<Fault>, i: nat)
    requires i < |walk| && (cancelAt.Some? ==> i < cancelAt.value)
    requires fault.Some? && fault.value.at == i && CopyNeeded(Synced(files, walk, i), walk[i])
    ensures Halting(files, walk, cancelAt, fault) == FailedAt(i, fault.value.message)
  {
  }

  lemma HaltsCompleted(files: map<Path, Stat>, walk: seq<Entry>, cancelAt: Option<nat>, fault: Option<Fault>)
    requires cancelAt.Some? ==> |walk| <= cancelAt.value
    requires NoFaultBefore(files, walk, fault, |walk|)
    ensures Halting(files, walk, cancelAt, fault) == Completed
  {
  }

  /**
   * The body of the walk for one entry, before its progress report: a
   * directory is made with its parents; a file gets its parent directories,
   * then is copied when the target lacks it or holds an older one, and its
   * decision is counted. `throws` says the copy raises an I/O exception, which
   * leaves the file and the counters as they were.
   */
  method SyncEntry(e: Entry, target: Tree, tally: Tally, throws: bool) returns (counted: Tally, failed: bool)
    modifies target
    ensures failed <==> throws && CopyNeeded(old(target.files), e)
    ensures counted == if failed || e.isDir then tally else Count(tally, Decide(old(target.files), e))
    ensures target.dirs == old(target.dirs) + EntryDirs(e)
    ensures target.files == if failed then old(target.files) else CopyEntry(old(target.files), e)
  {
    counted, failed := tally, false;
    if e.isDir {
      target.dirs := target.dirs + Prefixes(e.path);
      return;
    }
    target.dirs := target.dirs + Prefixes(Parent(e.path));
    if e.path !in target.files {
      if throws {
        failed := true;
        return;
      }
      target.files := target.files[e.path := Stat(e.mtime, e.content)];
      counted := counted.(newFiles := counted.newFiles + 1);
    } else if e.mtime > target.files[e.path].mtime {
      if throws {
        failed := true;
        return;
      }
      target.files := target.files[e.path := Stat(e.mtime, e.content)];
      counted := counted.(updatedFiles := counted.updatedFiles + 1);
    } else {
      counted := counted.(skippedFiles := counted.skippedFiles + 1);
    }
  }

  /**
   * The `walkTopDown().forEach` loop: before each entry the cancellation
   * check, then the entry itself, then for a file the progress report. Returns
   * the counters, the reports in order and where the walk stopped.
   */
  method WalkEntries(walk: seq<Entry>, target: Tree, cancelAt: Option<nat>, fault: Option<Fault>, totalFiles: nat)
    returns (tally: Tally, reported: seq<Progress>, halt: Halt)
    modifies target
    ensures halt == Halting(old(target.files), walk, cancelAt, fault)
    ensures var n := Handled(halt, |walk|);
            && n <= |walk|
            && target.files == Synced(old(target.files), walk, n)
            && tally == TallyOf(old(target.files), walk, n)
            && reported == ManualUpdates(walk, n, totalFiles)
            && (halt.FailedAt? ==> target.dirs == old(target.dirs) + DirsMade(walk, n) + EntryDirs(walk[n]))
            && (!halt.FailedAt? ==> target.dirs == old(target.dirs) + DirsMade(walk, n))
  {
    tally := Tally(0, 0, 0);
    var processedFiles := 0;
    reported := [];
    ghost var files0, dirs0 := target.files, target.dirs;

    var i := 0;
    while i < |walk|
      invariant 0 <= i <= |walk|
      invariant cancelAt.Some? ==> i <= cancelAt.value
      invariant NoFaultBefore(files0, walk, fault, i)
      invariant target.files == Synced(files0, walk, i)
      invariant target.dirs == dirs0 + DirsMade(walk, i)
      invariant tally == TallyOf(files0, walk, i)
      invariant processedFiles == FileCount(walk, i)
      invariant reported == ManualUpdates(walk, i, totalFiles)
    {
      if cancelAt == Some(i) {
        HaltsCancelled(files0, walk, cancelAt, fault, i);
        halt := CancelledAt(i);
        return;
      }
      var e := walk[i];
      var failed;
      tally, failed := SyncEntry(e, target, tally, fault.Some? && fault.value.at == i);
      if failed {
        HaltsFailed(files0, walk, cancelAt, fault, i);
        halt := FailedAt(i, fault.value.message);
        return;
      }
      if !e.isDir {
        processedFiles := processedFiles + 1;
        reported := reported + [Progress(Ratio(processedFiles, totalFiles), processedFiles, totalFiles)];
      }
      i := i + 1;
    }
    HaltsCompleted(files0, walk, cancelAt, fault);
    halt := Completed;
  }

  /**
   * `executeManualSync`. `cancelAt` is the first walk entry before which
   * `ensureActive` finds the job cancelled; `fault` is a copy that throws.
   * The returned updates are the `onProgress` calls in order.
   */
  method ExecuteManualSync(walk: seq<Entry>, target: Tree, cancelAt: Option<nat>, fault: Option<Fault>)
    returns (updates: seq<Progress>, outcome: Outcome)
    modifies target
    ensures var n := Handled(Halting(old(target.files), walk, cancelAt, fault), |walk|);
            n <= |walk| && target.files == Synced(old(target.files), walk, n)
    ensures updates == ManualProgress(old(target.files), walk, cancelAt, fault)
    ensures outcome == ManualOutcome(old(target.files), walk, cancelAt, fault)
    ensures target.dirs == DirsAfter(old(target.dirs), walk, Halting(old(target.files), walk, cancelAt, fault))
  {
    if Root !in target.dirs {
      target.dirs := target.dirs + {Root};
    }
    assert target.dirs == old(target.dirs) + {Root};
    var totalFiles := FileCount(walk, |walk|);
    updates := [Started(totalFiles)];
    var tally, reported, halt := WalkEntries(walk, target, cancelAt, fault, totalFiles);
    updates := updates + reported;
    match halt
    case Completed =>
      outcome := Ok(Summary(tally));
    case CancelledAt(_) =>
      outcome := Cancelled;
    case FailedAt(_, message) =>
      outcome := Fail(message);
  }

  // ---------------------------------------------------------------------
  // What a manual pass promises
  // ---------------------------------------------------------------------

  /** The rule for one file entry: what happens to its target path and which counter moves. */
  lemma CopyEntryEffect(files: map<Path, Stat>, e: Entry, t: Tally)
    requires !e.isDir
    ensures e.path !in files ==>
              && CopyEntry(files, e) == files[e.path := Stat(e.mtime, e.content)]
              && Count(t, Decide(files, e)) == t.(newFiles := t.newFiles + 1)
    ensures e.path in files && e.mtime > files[e.path].mtime ==>
              && CopyEntry(files, e) == files[e.path := Stat(e.mtime, e.content)]
              && Count(t, Decide(files, e)) == t.(updatedFiles := t.updatedFiles + 1)
    ensures e.path in files && e.mtime <= files[e.path].mtime ==>
              && CopyEntry(files, e) == files
              && Count(t, Decide(files, e)) == t.(skippedFiles := t.skippedFiles + 1)
  {
  }

  /** A directory entry changes neither the files, nor a counter, nor the progress stream. */
  lemma DirectoryEntryChangesNothing(files: map<Path, Stat>, walk: seq<Entry>, n: nat, totalFiles: int)
    requires n < |walk| && walk[n].isDir
    ensures Synced(files, walk, n + 1) == Synced(files, walk, n)
    ensures TallyOf(files, walk, n + 1) == TallyOf(files, walk, n)
    ensures FileCount(walk, n + 1) == FileCount(walk, n)
    ensures ManualUpdates(walk, n + 1, totalFiles) == ManualUpdates(walk, n, totalFiles)
  {
  }

  /** Each file handled is counted exactly once, as new, updated or skipped. */
  lemma {:induction false} TallyAddsUp(files: map<Path, Stat>, walk: seq<Entry>, n: nat)
    requires n <= |walk|
    ensures var t := TallyOf(files, walk, n);
            t.newFiles + t.updatedFiles + t.skippedFiles == FileCount(walk, n)
  {
    if n > 0 {
      TallyAddsUp(files, walk, n - 1);
    }
  }

  /** One of the first `n` entries is a file at `p`. */
  predicate WalksFile(walk: seq<Entry>, n: nat, p: Path)
    requires n <= |walk|
  {
    exists i | 0 <= i < n :: !walk[i].isDir && walk[i].path == p
  }

  /** One entry keeps every file and never makes one older, and a file entry leaves its path at least as new as itself. */
  lemma CopyEntryGrows(files: map<Path, Stat>, e: Entry)
    ensures forall p | p in files :: p in CopyEntry(files, e) && CopyEntry(files, e)[p].mtime >= files[p].mtime
    ensures !e.isDir ==> e.path in CopyEntry(files, e) && CopyEntry(files, e)[e.path].mtime >= e.mtime
    ensures forall p | p != e.path || e.isDir :: (p in CopyEntry(files, e) <==> p in files)
    ensures forall p | p in files && (p != e.path || e.isDir) :: CopyEntry(files, e)[p] == files[p]
  {
  }

  /**
   * The copy is additive: no target file disappears or becomes older, and the
   * only files added or rewritten are files of the source.
   */
  lemma {:induction false} SyncIsAdditive(files: map<Path, Stat>, walk: seq<Entry>, n: nat)
    requires n <= |walk|
    ensures var synced := Synced(files, walk, n);
            forall p | p in files :: p in synced && synced[p].mtime >= files[p].mtime
    ensures var synced := Synced(files, walk, n);
            forall p | p in synced && (p !in files || synced[p] != files[p]) :: WalksFile(walk, n, p)
  {
    if n > 0 {
      SyncIsAdditive(files, walk, n - 1);
      var prev := Synced(files, walk, n - 1);
      var e := walk[n - 1];
      CopyEntryGrows(prev, e);
      var synced := Synced(files, walk, n);
      forall p | p in synced && (p !in files || synced[p] != files[p]) ensures WalksFile(walk, n, p) {
        if !e.isDir && p == e.path {
          assert !walk[n - 1].isDir && walk[n - 1].path == p;
        } else {
          assert WalksFile(walk, n - 1, p);
          var i :| 0 <= i < n - 1 && !walk[i].isDir && walk[i].path == p;
        }
      }
    }
  }

  /** Every file of the source is in the target, at least as new as the source's copy. */
  predicate UpToDate(files: map<Path, Stat>, walk: seq<Entry>, n: nat)
    requires n <= |walk|
  {
    forall i | 0 <= i < n && !walk[i].isDir :: walk[i].path in files && files[walk[i].path].mtime >= walk[i].mtime
  }

  /** After a pass every file handled is present in the target and not older than the source (the copy keeps the mtime). */
  lemma {:induction false} SyncedIsUpToDate(files: map<Path, Stat>, walk: seq<Entry>, n: nat)
    requires n <= |walk|
    ensures UpToDate(Synced(files, walk, n), walk, n)
  {
    if n > 0 {
      SyncedIsUpToDate(files, walk, n - 1);
      CopyEntryGrows(Synced(files, walk, n - 1), walk[n - 1]);
    }
  }

  /** Paths of distinct file entries differ, as in a directory walk. */
  predicate UniqueFilePaths(walk: seq<Entry>) {
    forall i, j | 0 <= i < j < |walk| && !walk[i].isDir && !walk[j].isDir :: walk[i].path != walk[j].path
  }

  /**
   * After a pass each file of the source is either the source's bytes and
   * mtime, or the untouched target file, which was the same age or newer.
   */
  lemma {:induction false} SyncedMatchesSource(files: map<Path, Stat>, walk: seq<Entry>, n: nat)
    requires n <= |walk| && UniqueFilePaths(walk)
    ensures var synced := Synced(files, walk, n);
            forall i | 0 <= i < n && !walk[i].isDir ::
              var p := walk[i].path;
              && p in synced
              && (|| synced[p] == Stat(walk[i].mtime, walk[i].content)
                  || (p in files && synced[p] == files[p] && files[p].mtime >= walk[i].mtime))
  {
    if n > 0 {
      SyncedMatchesSource(files, walk, n - 1);
      SyncIsAdditive(files, walk, n - 1);
      var prev := Synced(files, walk, n - 1);
      var e := walk[n - 1];
      CopyEntryGrows(prev, e);
    }
  }

  /** Against an up-to-date target a pass copies nothing and skips every file. */
  lemma {:induction false} UpToDateSkipsAll(files: map<Path, Stat>, walk: seq<Entry>, n: nat)
    requires n <= |walk| && UpToDate(files, walk, n)
    ensures Synced(files, walk, n) == files
    ensures TallyOf(files, walk, n) == Tally(0, 0, FileCount(walk, n))
  {
    if n > 0 {
      assert UpToDate(files, walk, n - 1);
      UpToDateSkipsAll(files, walk, n - 1);
    }
  }

  /** A second pass with no change in between copies nothing: 0 new, 0 updated, every file skipped. */
  lemma SecondPassChangesNothing(files: map<Path, Stat>, walk: seq<Entry>)
    ensures var once := Synced(files, walk, |walk|);
            && Synced(once, walk, |walk|) == once
            && TallyOf(once, walk, |walk|) == Tally(0, 0, FileCount(walk, |walk|))
  {
    SyncedIsUpToDate(files, walk, |walk|);
    UpToDateSkipsAll(Synced(files, walk, |walk|), walk, |walk|);
  }

  /** The k-th progress update of a pass reports k + 1 files done: the counts rise by one per file. */
  lemma {:induction false} ManualUpdatesCount(walk: seq<Entry>, n: nat, totalFiles: int)
    requires n <= |walk|
    ensures var u := ManualUpdates(walk, n, totalFiles);
            && |u| == FileCount(walk, n)
            && forall k | 0 <= k < |u| :: u[k] == Progress(Ratio(k + 1, totalFiles), k + 1, totalFiles)
  {
    if n > 0 {
      ManualUpdatesCount(walk, n - 1, totalFiles);
    }
  }

  lemma {:induction false} FileCountMonotone(walk: seq<Entry>, m: nat, n: nat)
    requires m <= n <= |walk|
    ensures FileCount(walk, m) <= FileCount(walk, n)
    decreases n
  {
    if m < n {
      FileCountMonotone(walk, m, n - 1);
    }
  }

  /** With the total counted from the same walk, every fraction reported lies in [0, 1]. */
  lemma ManualProgressInRange(walk: seq<Entry>, n: nat)
    requires n <= |walk|
    ensures var u := ManualUpdates(walk, n, FileCount(walk, |walk|));
            forall k | 0 <= k < |u| :: InUnitRange(u[k].fraction)
  {
    ManualUpdatesCount(walk, n, FileCount(walk, |walk|));
    FileCountMonotone(walk, n, |walk|);
  }

  /** The target gets exactly the source's directories and the parents of its files, with their ancestors. */
  lemma {:induction false} DirsMadeAreSourceDirs(walk: seq<Entry>, n: nat, d: Path)
    requires n <= |walk|
    ensures d in DirsMade(walk, n) <==> exists i | 0 <= i < n :: d in EntryDirs(walk[i])
  {
    if n > 0 {
      DirsMadeAreSourceDirs(walk, n - 1, d);
      if d in EntryDirs(walk[n - 1]) {
        assert exists i | 0 <= i < n :: d in EntryDirs(walk[i]);
      }
    }
  }

  /** A fresh `a.txt`, a `b.txt` identical to the target's, and a `c.txt` newer than the target's. */
  lemma ThreeFileScenario()
    ensures var walk := [Entry(Root, true, 0, []),
                         Entry(["a.txt"], false, 5, [1]),
                         Entry(["b.txt"], false, 5, [2]),
                         Entry(["c.txt"], false, 9, [3])];
            var files := map[["b.txt"] := Stat(5, [2]), ["c.txt"] := Stat(3, [4])];
            && TallyOf(files, walk, |walk|) == Tally(1, 1, 1)
            && Synced(files, walk, |walk|)
               == map[["a.txt"] := Stat(5, [1]), ["b.txt"] := Stat(5, [2]), ["c.txt"] := Stat(9, [3])]
  {
    var walk := [Entry(Root, true, 0, []),
                 Entry(["a.txt"], false, 5, [1]),
                 Entry(["b.txt"], false, 5, [2]),
                 Entry(["c.txt"], false, 9, [3])];
    var files := map[["b.txt"] := Stat(5, [2]), ["c.txt"] := Stat(3, [4])];
    assert ["a.txt"] != ["b.txt"] && ["a.txt"] != ["c.txt"] && ["b.txt"] != ["c.txt"] by {
      assert "a.txt"[0] != "b.txt"[0] && "a.txt"[0] != "c.txt"[0] && "b.txt"[0] != "c.txt"[0];
    }
    assert Synced(files, walk, 1) == files;
    assert Synced(files, walk, 2) == files[["a.txt"] := Stat(5, [1])];
    assert TallyOf(files, walk, 1) == Tally(0, 0, 0);
    assert ["a.txt"] !in files;
    assert Decide(files, walk[1]) == New;
    assert TallyOf(files, walk, 2) == Tally(1, 0, 0);
    assert Decide(Synced(files, walk, 2), walk[2]) == Skipped;
    assert Synced(files, walk, 3) == Synced(files, walk, 2);
    assert TallyOf(files, walk, 3) == Tally(1, 0, 1);
    assert Decide(Synced(files, walk, 3), walk[3]) == Updated;
  }
}
