# synctool sync engine, modelled in Dafny

synctool is a desktop app that copies one folder into another without ever
deleting anything in the target. Its sync engine, `performSync`, works in
three steps:

- It first runs `rsync -av --times --progress <source>/ <target>`.
- It reads rsync's standard output line by line, turning each line into
  progress updates.
- If rsync fails for any reason other than cancellation, it falls back to a
  manual copy. The manual copy walks the source tree and copies a file only
  when the target lacks it or holds an older one.

The app also accepts a folder dropped onto its window, as a `file:` URI whose
spaces are written `%20`.

This project models that engine:

- **`Text`**: the Kotlin and `java.util.regex` string operations the engine
  relies on, each with its JVM meaning. These are `contains`, `startsWith`,
  `trim`/`isWhitespace`, `toIntOrNull`, `appendLine`, `replace` and the regex
  character classes `\s`, `\d`, `[0-9,]` and `.`.
- **`Progress`**: an `onProgress(fraction, "<done> / <total> files")` call, and
  how a strategy ends (summary, exception with an optional message, or
  cancellation).
- **`RsyncOutput`**: the line classifier of `executeRsync`.
  - The `to-chk=R/T` counter is found with the leftmost-match semantics of
    `Regex.find`, and each group is read with `toIntOrNull() ?: 0`.
  - The file filters include the two percentage regexes. Each regex is written
    twice: as the set of strings it fully matches, and as a greedy scan. The
    two are proved equal.
  - The file counter and the stream of updates it produces.
- **`Rsync`**: `executeRsync` as a method.
  - Its reading loop is proved against the classifier.
  - The exit code is mapped to a summary or an exception.
  - The command line is shown to contain no deletion option.
- **`ManualSync`**: `executeManualSync` as a method over a target `Tree`
  object whose `files` map and `dirs` set are updated in place.
  - Its walk loop is proved against `Synced`/`TallyOf`.
  - Lemmas cover additivity, freshness, the counters, a second pass and a
    three-file scenario.
- **`Coordinator`**: `performSync`. It gives the exact sequence of callbacks it
  makes and the final state of the target.
- **`DropPath`**: the dropped-path transform, with its round trip from a
  `file:` URI whose only escapes are spaces.

## How the environment is modelled

- **rsync's run** (`Rsync.RsyncRun`):
  - either it cannot be started (`LaunchFailed`, with the exception's message),
  - or it prints `stdout` and `stderr` line by line and exits with `exitCode`.
- **Cancellation.** `ensureActive` is the checkpoint. `cancelAt: Option<nat>`
  is the index of the first checkpoint at which the job is found cancelled.
  Checkpoints are counted over rsync's output lines, then over the manual
  copy's walk entries (`Progress.Shift`).
- **The source tree** is the sequence of entries `walkTopDown()` yields, parents
  before children. Each entry has a relative path, a directory flag, a
  modification time and its bytes.
- **`totalFiles`** is the number of file entries in that walk.
- **The target** is `ManualSync.Tree`. `files` maps a relative path to its mtime
  and bytes; `dirs` holds the directories created.
- **A failing copy** (`Fault`): the `copyTo` for one walk entry throws an
  exception with a given (possibly null) message.
- **Progress fractions** are kept as exact quotients (`Fraction.Ratio`), not as
  `Float`.

## Model

| member | source | states |
|---|---|---|
| `Text.Trim` | composeApp/src/desktopMain/kotlin/com/yannickpulver/synctool/App.kt:507 | `trim()` never lengthens the line, and what remains starts and ends with a non-whitespace character |
| `Text.TrimEmptyIffBlank` | composeApp/src/desktopMain/kotlin/com/yannickpulver/synctool/App.kt:507 | `trim().isNotEmpty()` holds exactly when some character of the line is not whitespace |
| `Text.ToIntOrNullOfNatToString` | composeApp/src/desktopMain/kotlin/com/yannickpulver/synctool/App.kt:495-496 | `toIntOrNull` reads the decimal text of a number back as that number exactly when it is at most `Int.MAX_VALUE`, and as null above it |
| `Text.NatToStringRoundTrip` | composeApp/src/desktopMain/kotlin/com/yannickpulver/synctool/App.kt:501 | the decimal text used in the `"<done> / <total> files"` labels reads back as the number it prints |
| `Text.IntToString` | composeApp/src/desktopMain/kotlin/com/yannickpulver/synctool/App.kt:501 | the `$n` template: non-empty, and starting with a digit exactly when the number is not negative |
| `Text.IntToStringReadsBack` | composeApp/src/desktopMain/kotlin/com/yannickpulver/synctool/App.kt:501 | the text of an integer before a non-digit starts with '-' exactly when it is negative, and a greedy `\d+` after the sign reads back its magnitude and stops where the text ends |
| `Text.NatToStringReadsBack` | composeApp/src/desktopMain/kotlin/com/yannickpulver/synctool/App.kt:501 | the digits of a number written before a non-digit are read back by a greedy `\d+` as exactly that number, ending where the number ends |
| `Text.JoinLinesAppend` | composeApp/src/desktopMain/kotlin/com/yannickpulver/synctool/App.kt:484 | the text `appendLine` builds from two runs of lines is the text of the first run followed by that of the second |
| `Text.Replace` | composeApp/src/desktopMain/kotlin/com/yannickpulver/synctool/App.kt:324 | `replace` with a replacement no longer than the pattern never lengthens the string |
| `Progress.LabelShowsCounts` | composeApp/src/desktopMain/kotlin/com/yannickpulver/synctool/App.kt:501 | the label `"<done> / <total> files"` reads back as its counts: a leading '-' exactly when `done` is negative (a to-chk line with more remaining than total), digits reading as the magnitude of `done`, then " / ", the same for `total`, then " files" |
| `Progress.Label` | composeApp/src/desktopMain/kotlin/com/yannickpulver/synctool/App.kt:501 | no contract of its own; `LabelShowsCounts` states what the label shows |
| `Progress.Started` | composeApp/src/desktopMain/kotlin/com/yannickpulver/synctool/App.kt:453 | no contract of its own; the `0 / N` update that `RsyncUpdates` and `ManualProgress` put first |
| `Progress.Finished` | composeApp/src/desktopMain/kotlin/com/yannickpulver/synctool/App.kt:537 | no contract of its own; the `N / N` update that `RsyncExitHandling` puts last on exit 0 |
| `Progress.Shift` | composeApp/src/desktopMain/kotlin/com/yannickpulver/synctool/App.kt:572 | no contract of its own; how the cancellation point carries over from rsync's checkpoints to the manual copy's, stated by `Coordinator.ShiftContinuesCheckpoints` |
| `RsyncOutput.IsByteCountLineCorrect` | composeApp/src/desktopMain/kotlin/com/yannickpulver/synctool/App.kt:513 | the greedy scan accepts exactly the lines that fully match `\s*[0-9,]+\s+\d+%.*` |
| `RsyncOutput.IsPercentLineCorrect` | composeApp/src/desktopMain/kotlin/com/yannickpulver/synctool/App.kt:514 | the scan accepts exactly the lines that fully match `.*\s+\d+%\s+.*` |
| `RsyncOutput.ToChkAt` | composeApp/src/desktopMain/kotlin/com/yannickpulver/synctool/App.kt:492 | a match found at a position is at that position, and both captured groups are non-empty digit strings |
| `RsyncOutput.ToChkAtCorrect` | composeApp/src/desktopMain/kotlin/com/yannickpulver/synctool/App.kt:492 | `to-chk=(\d+)/(\d+)` matches at a position exactly when some split into marker, digits, '/' and digits exists there; the groups captured are that split with the second group taken greedily |
| `RsyncOutput.FindToChk` | composeApp/src/desktopMain/kotlin/com/yannickpulver/synctool/App.kt:492 | the groups of the match `find` returns are digit strings |
| `RsyncOutput.FindToChkIsLeftmost` | composeApp/src/desktopMain/kotlin/com/yannickpulver/synctool/App.kt:492 | `find` returns null exactly when the regex matches nowhere; otherwise it returns the match at the leftmost position where it matches |
| `RsyncOutput.GroupValue` | composeApp/src/desktopMain/kotlin/com/yannickpulver/synctool/App.kt:495-496 | `toIntOrNull() ?: 0` lies in `[0, Int.MAX_VALUE]` and is the group's value, or 0 when that overflows |
| `RsyncOutput.ClassifyTransferredFile` | composeApp/src/desktopMain/kotlin/com/yannickpulver/synctool/App.kt:490-516 | a line counts as a transferred file exactly when it passes every condition: no "to-chk=", not blank, none of the four excluded texts, no "rsync:" prefix, neither regex fully matching, longer than 5 |
| `RsyncOutput.ClassifyToChk` | composeApp/src/desktopMain/kotlin/com/yannickpulver/synctool/App.kt:490-494 | a line containing "to-chk=" is never counted as a file, and yields numbers exactly when the regex matches somewhere in it |
| `RsyncOutput.ToChkUsesLeftmostMatch` | composeApp/src/desktopMain/kotlin/com/yannickpulver/synctool/App.kt:490-496 | the numbers of a "to-chk=" line come from the leftmost match, each group read with `toIntOrNull() ?: 0` |
| `RsyncOutput.Classify` | composeApp/src/desktopMain/kotlin/com/yannickpulver/synctool/App.kt:490-516 | no contract of its own; what it decides is stated by `ClassifyTransferredFile`, `ClassifyToChk` and `ToChkUsesLeftmostMatch` |
| `RsyncOutput.PassesFileFilters` | composeApp/src/desktopMain/kotlin/com/yannickpulver/synctool/App.kt:507-515 | no contract of its own; `ClassifyTransferredFile` proves it equal to the conditions read with `trim` and full-match regex semantics |
| `RsyncOutput.Advance` | composeApp/src/desktopMain/kotlin/com/yannickpulver/synctool/App.kt:518 | no contract of its own; `CounterStep` and `ToChkLineEffect` state when `processedFiles` moves |
| `RsyncOutput.Report` | composeApp/src/desktopMain/kotlin/com/yannickpulver/synctool/App.kt:498-521 | no contract of its own; `ToChkLineEffect` and `CounterStep` state the updates each kind of line makes |
| `RsyncOutput.FileProgress` | composeApp/src/desktopMain/kotlin/com/yannickpulver/synctool/App.kt:519-521 | no contract of its own; the update of the file counter, stated by `CounterStep` and `FileCounterIncreasing` |
| `RsyncOutput.ToChkLineEffect` | composeApp/src/desktopMain/kotlin/com/yannickpulver/synctool/App.kt:490-504 | a "to-chk=" line never moves `processedFiles`; it reports `(T - R) / T` with done `T - R` when `T > 0`, and nothing otherwise |
| `RsyncOutput.CounterStep` | composeApp/src/desktopMain/kotlin/com/yannickpulver/synctool/App.kt:507-521 | `processedFiles` rises by one exactly on a line that passes every filter; that line reports `(processedFiles, totalFiles)`, with fraction 0 when `totalFiles` is 0 |
| `RsyncOutput.CountedMonotone` | composeApp/src/desktopMain/kotlin/com/yannickpulver/synctool/App.kt:518 | `processedFiles` never goes down as lines are read |
| `RsyncOutput.Counted` | composeApp/src/desktopMain/kotlin/com/yannickpulver/synctool/App.kt:477-518 | no contract of its own; `processedFiles` after the lines read, stated by `CounterStep`, `CountedMonotone` and `ReadLine` |
| `RsyncOutput.Reported` | composeApp/src/desktopMain/kotlin/com/yannickpulver/synctool/App.kt:499-521 | no contract of its own; the loop's `onProgress` calls for the lines read, stated by `CounterStep`, `ToChkLineEffect` and `FileCounterIncreasing` |
| `RsyncOutput.Reports` | composeApp/src/desktopMain/kotlin/com/yannickpulver/synctool/App.kt:479-524 | no contract of its own; every `onProgress` call of the reading loop, which `ReadOutput` is proved to make |
| `RsyncOutput.FileCounterIncreasing` | composeApp/src/desktopMain/kotlin/com/yannickpulver/synctool/App.kt:518-521 | the counts reported by two counted lines strictly increase with their order |
| `RsyncOutput.NameLineCounted` | composeApp/src/desktopMain/kotlin/com/yannickpulver/synctool/App.kt:507-516 | a line longer than 5, starting with a visible character and holding no space, '=', '%' or "rsync:" prefix is counted as a file |
| `RsyncOutput.TwoFilesReported` | composeApp/src/desktopMain/kotlin/com/yannickpulver/synctool/App.kt:518-521 | two counted lines report counts 1 and 2 |
| `RsyncOutput.DirectoryNameCounted` | composeApp/src/desktopMain/kotlin/com/yannickpulver/synctool/App.kt:507-516 | rsync's line for a directory (`photos/`) is counted as a transferred file |
| `RsyncOutput.FileNameCounted` | composeApp/src/desktopMain/kotlin/com/yannickpulver/synctool/App.kt:507-516 | rsync's line for a copied file (`photos/a.jpg`) is counted |
| `RsyncOutput.FileCounterCanExceedTotal` | composeApp/src/desktopMain/kotlin/com/yannickpulver/synctool/App.kt:518-521 | with one file to sync, a directory line and a file line report 1 / 1 and then 2 / 1, a fraction above 1 |
| `RsyncOutput.ToChkLineClassified` | composeApp/src/desktopMain/kotlin/com/yannickpulver/synctool/App.kt:490-496 | the line `to-chk=0/1` yields remaining 0 and total 1 |
| `RsyncOutput.ToChkThenFileReported` | composeApp/src/desktopMain/kotlin/com/yannickpulver/synctool/App.kt:497-521 | a `to-chk=0/1` line followed by a counted line reports 1 / 1 and then 1 / N |
| `RsyncOutput.ProgressCanGoBack` | composeApp/src/desktopMain/kotlin/com/yannickpulver/synctool/App.kt:490-521 | the fractions reported during one rsync run can decrease: 1 / 1 followed by 1 / 2 |
| `Rsync.Command` | composeApp/src/desktopMain/kotlin/com/yannickpulver/synctool/App.kt:455-462 | no contract of its own; `CommandIsAdditive` states what the argument list holds |
| `Rsync.CommandIsAdditive` | composeApp/src/desktopMain/kotlin/com/yannickpulver/synctool/App.kt:455-462 | for source and target paths not starting with '-', no argument of the command is a deletion option; it keeps times and passes the source with a trailing '/' and then the target |
| `Rsync.DeletionOptionShape` | composeApp/src/desktopMain/kotlin/com/yannickpulver/synctool/App.kt:455-462 | every deletion option (`--del...`, `--remove...`) starts with '-' and has 'd' or 'r' as its third character |
| `Rsync.HandleLine` | composeApp/src/desktopMain/kotlin/com/yannickpulver/synctool/App.kt:483-521 | the body of the loop for one classified line: the new `processedFiles` and the `onProgress` calls, as the counter functions define them |
| `Rsync.ReadLine` | composeApp/src/desktopMain/kotlin/com/yannickpulver/synctool/App.kt:483-523 | after line `i`, `processedFiles`, the collected output and the progress stream are those of the first `i + 1` lines |
| `Rsync.ReadLines` | composeApp/src/desktopMain/kotlin/com/yannickpulver/synctool/App.kt:526-529 | the error builder holds every stderr line, each followed by a newline |
| `Rsync.FailureMessage` | composeApp/src/desktopMain/kotlin/com/yannickpulver/synctool/App.kt:534 | no contract of its own; `FailureMessageShape` states its prefix, the exit code it carries and the stderr text it ends with |
| `Rsync.RsyncOutcome` | composeApp/src/desktopMain/kotlin/com/yannickpulver/synctool/App.kt:531-546 | no contract of its own; `ExecuteRsync` is proved to end with it, and `RsyncExitHandling`, `RsyncSuccessCompletes` and `RsyncFailureFallsBack` state its cases |
| `Rsync.RsyncUpdates` | composeApp/src/desktopMain/kotlin/com/yannickpulver/synctool/App.kt:453 | the first `onProgress` call is always `0 / totalFiles` |
| `Rsync.ReadOutput` | composeApp/src/desktopMain/kotlin/com/yannickpulver/synctool/App.kt:479-524 | with the line classifier passed in (`ExecuteRsync` passes `Classify`), the reading loop is cancelled exactly when a checkpoint before the end finds the job cancelled, and then reports what the lines before it report; otherwise it reports what every line reports and collects the whole output |
| `Rsync.ExecuteRsync` | composeApp/src/desktopMain/kotlin/com/yannickpulver/synctool/App.kt:446-547 | the `onProgress` calls and the result are those of `RsyncUpdates`/`RsyncOutcome`: a launch failure throws; a cancellation stops the reading; a non-zero exit throws; exit 0 adds the 100% update and returns the summary |
| `Rsync.RsyncExitHandling` | composeApp/src/desktopMain/kotlin/com/yannickpulver/synctool/App.kt:531-539 | a non-zero exit fails with the exit-code message and no final update; exit 0 ends with `N / N` and returns the marker line followed by exactly the captured stdout |
| `Rsync.FailureMessageShape` | composeApp/src/desktopMain/kotlin/com/yannickpulver/synctool/App.kt:534 | the exception message starts with "rsync failed with exit code ", then the code (its digits read back as the code when it is positive) and ": ", and ends with everything rsync wrote to stderr |
| `ManualSync.Tree.constructor` | composeApp/src/desktopMain/kotlin/com/yannickpulver/synctool/App.kt:551 | a target tree holds the given files and directories |
| `ManualSync.Decide` | composeApp/src/desktopMain/kotlin/com/yannickpulver/synctool/App.kt:582-597 | no contract of its own; `CopyEntryEffect` states the three cases |
| `ManualSync.CopyEntry` | composeApp/src/desktopMain/kotlin/com/yannickpulver/synctool/App.kt:577-597 | no contract of its own; `CopyEntryEffect` and `CopyEntryGrows` state what one entry does to the target files |
| `ManualSync.Synced` | composeApp/src/desktopMain/kotlin/com/yannickpulver/synctool/App.kt:570-604 | no contract of its own; `WalkEntries` is proved to produce it, and `SyncIsAdditive`, `SyncedIsUpToDate`, `SyncedMatchesSource` and `SecondPassChangesNothing` state its properties |
| `ManualSync.TallyOf` | composeApp/src/desktopMain/kotlin/com/yannickpulver/synctool/App.kt:558-597 | no contract of its own; `WalkEntries` is proved to count it, and `TallyAddsUp`, `UpToDateSkipsAll` and `ThreeFileScenario` state its values |
| `ManualSync.ManualUpdates` | composeApp/src/desktopMain/kotlin/com/yannickpulver/synctool/App.kt:599-602 | no contract of its own; `ManualUpdatesCount` and `ManualProgressInRange` state its updates |
| `ManualSync.Summary` | composeApp/src/desktopMain/kotlin/com/yannickpulver/synctool/App.kt:607-608 | no contract of its own; the summary text with the three counters, which `TallyAddsUp` and `ThreeFileScenario` state |
| `ManualSync.ManualOutcome` | composeApp/src/desktopMain/kotlin/com/yannickpulver/synctool/App.kt:570-609 | no contract of its own; `ExecuteManualSync` is proved to end with it, and `HaltsCancelled`, `HaltsFailed`, `HaltsCompleted` and `CancelledCopyKeepsFiles` state its cases |
| `ManualSync.DirsAfter` | composeApp/src/desktopMain/kotlin/com/yannickpulver/synctool/App.kt:577-580 | no contract of its own; the root plus the directories of the entries handled and, on a failing copy, the parent made just before it, which `ExecuteManualSync` and `Coordinator.PerformSync` are proved to leave and `DirsMadeAreSourceDirs` describes |
| `ManualSync.Halting` | composeApp/src/desktopMain/kotlin/com/yannickpulver/synctool/App.kt:570-597 | a pass stops at a cancellation or a failing copy only at an entry of the walk |
| `ManualSync.HaltsCancelled` | composeApp/src/desktopMain/kotlin/com/yannickpulver/synctool/App.kt:572 | with no failed copy before it, the checkpoint before entry `i` that finds the job cancelled stops the pass there |
| `ManualSync.HaltsFailed` | composeApp/src/desktopMain/kotlin/com/yannickpulver/synctool/App.kt:584-592 | a copy that throws at entry `i`, before any cancellation, ends the pass with its message |
| `ManualSync.HaltsCompleted` | composeApp/src/desktopMain/kotlin/com/yannickpulver/synctool/App.kt:570-604 | with no cancellation and no failing copy in the walk, the pass completes |
| `ManualSync.SyncEntry` | composeApp/src/desktopMain/kotlin/com/yannickpulver/synctool/App.kt:577-597 | one walk entry: a directory is created; a file's parents are created; a missing or older target file is copied with the source mtime, or the copy throws; otherwise it is skipped. The right counter moves |
| `ManualSync.WalkEntries` | composeApp/src/desktopMain/kotlin/com/yannickpulver/synctool/App.kt:570-604 | the walk loop handles entries in order up to where it halts; the target files, the created directories, the three counters and the progress calls are those of the entries handled |
| `ManualSync.ExecuteManualSync` | composeApp/src/desktopMain/kotlin/com/yannickpulver/synctool/App.kt:549-609 | the target root is created, the first update is `0 / N`, the files and directories are those of the entries handled, and the result is the summary, the cancellation or the copy's exception |
| `ManualSync.CopyEntryEffect` | composeApp/src/desktopMain/kotlin/com/yannickpulver/synctool/App.kt:582-597 | an absent target is copied with the source mtime (new); a strictly older one is overwritten (updated); an equal or newer one is left alone (skipped) |
| `ManualSync.DirectoryEntryChangesNothing` | composeApp/src/desktopMain/kotlin/com/yannickpulver/synctool/App.kt:577-578 | a directory entry changes no file, no counter and reports no progress |
| `ManualSync.TallyAddsUp` | composeApp/src/desktopMain/kotlin/com/yannickpulver/synctool/App.kt:582-599 | new + updated + skipped equals the number of file entries walked |
| `ManualSync.CopyEntryGrows` | composeApp/src/desktopMain/kotlin/com/yannickpulver/synctool/App.kt:582-597 | one entry never removes a file or makes one older, touches no other path, and leaves its own path at least as new as the source |
| `ManualSync.SyncIsAdditive` | composeApp/src/desktopMain/kotlin/com/yannickpulver/synctool/App.kt:570-604 | no target file disappears or gets older, and only paths of walked source files are added or rewritten |
| `ManualSync.SyncedIsUpToDate` | composeApp/src/desktopMain/kotlin/com/yannickpulver/synctool/App.kt:582-597 | after a pass every walked file is in the target with an mtime no older than the source's |
| `ManualSync.SyncedMatchesSource` | composeApp/src/desktopMain/kotlin/com/yannickpulver/synctool/App.kt:582-597 | after a pass each walked file is either the source's bytes and mtime, or the untouched target file, which was the same age or newer |
| `ManualSync.UpToDateSkipsAll` | composeApp/src/desktopMain/kotlin/com/yannickpulver/synctool/App.kt:594-597 | against an up-to-date target a pass copies nothing and skips every file |
| `ManualSync.SecondPassChangesNothing` | composeApp/src/desktopMain/kotlin/com/yannickpulver/synctool/App.kt:586-597 | a second pass with no change in between gives 0 new, 0 updated, every file skipped, and leaves the target as it was |
| `ManualSync.ManualUpdatesCount` | composeApp/src/desktopMain/kotlin/com/yannickpulver/synctool/App.kt:599-602 | one update per file walked; the k-th reports `(k + 1) / totalFiles` |
| `ManualSync.FileCount` | composeApp/src/desktopMain/kotlin/com/yannickpulver/synctool/App.kt:563 | no contract of its own; `walkTopDown().count { it.isFile }`, stated by `FileCountMonotone`, `ManualUpdatesCount` and `ManualProgressInRange` |
| `ManualSync.FileCountMonotone` | composeApp/src/desktopMain/kotlin/com/yannickpulver/synctool/App.kt:563 | a prefix of the walk holds no more files than the walk |
| `ManualSync.ManualProgress` | composeApp/src/desktopMain/kotlin/com/yannickpulver/synctool/App.kt:566-602 | no contract of its own; `0 / N` then one update per file handled, which `ExecuteManualSync` is proved to report and `ManualUpdatesCount` and `ManualProgressInRange` describe |
| `ManualSync.ManualProgressInRange` | composeApp/src/desktopMain/kotlin/com/yannickpulver/synctool/App.kt:599-602 | with the total counted from the same walk, every manual fraction lies in [0, 1] |
| `ManualSync.DirsMadeAreSourceDirs` | composeApp/src/desktopMain/kotlin/com/yannickpulver/synctool/App.kt:577-580 | the directories created are exactly the source's directories and the parents of its files, with their ancestors |
| `ManualSync.ThreeFileScenario` | composeApp/src/desktopMain/kotlin/com/yannickpulver/synctool/App.kt:582-597 | a new `a.txt`, a `b.txt` equal to the target's and a `c.txt` newer than the target's give 1 new, 1 updated, 1 skipped, and the target holds the expected files |
| `Coordinator.ProgressOfForwarded` | composeApp/src/desktopMain/kotlin/com/yannickpulver/synctool/App.kt:416-433 | forwarding to `onSyncProgress` loses, adds and reorders no update: the updates read back from the forwarded calls are the strategy's own |
| `Coordinator.SyncProgressIsStrategyProgress` | composeApp/src/desktopMain/kotlin/com/yannickpulver/synctool/App.kt:422-436 | the `onSyncProgress` calls of a sync are exactly rsync's updates followed, only when rsync failed, by the manual copy's; `onSyncStart` and the final callback carry no progress |
| `Coordinator.Select` | composeApp/src/desktopMain/kotlin/com/yannickpulver/synctool/App.kt:425-434 | no contract of its own; `RsyncFailureFallsBack`, `RsyncSuccessCompletes` and `SilentExactlyWhenCancelled` state which result is kept |
| `Coordinator.ShiftContinuesCheckpoints` | composeApp/src/desktopMain/kotlin/com/yannickpulver/synctool/App.kt:572 | once rsync has passed its checkpoints uncancelled (always so when it fails), the manual copy's i-th `ensureActive` is the sync's checkpoint after them: it is the first cancelled one exactly when the sync's is |
| `Coordinator.Conclusion` | composeApp/src/desktopMain/kotlin/com/yannickpulver/synctool/App.kt:436-442 | at most one final callback; none exactly on cancellation; `onSyncComplete(summary)` on success; `onSyncError` with the message or "Unknown error occurred" on failure |
| `Coordinator.PerformSync` | composeApp/src/desktopMain/kotlin/com/yannickpulver/synctool/App.kt:412-444 | `onSyncStart` comes first, then rsync's progress and, only if rsync failed, the manual copy's progress, then the final callback of the selected result; the progress calls read back as exactly those updates; when rsync did not fail the target is unchanged, and after a fallback its files and directories are those the manual copy leaves, case by case for completion, cancellation and a failing copy |
| `Coordinator.RsyncSuccessCompletes` | composeApp/src/desktopMain/kotlin/com/yannickpulver/synctool/App.kt:425-436 | rsync exiting 0 before any cancellation reports its summary and the manual copy never runs |
| `Coordinator.RsyncFailureFallsBack` | composeApp/src/desktopMain/kotlin/com/yannickpulver/synctool/App.kt:428-434 | a launch failure or non-zero exit, not cancelled, makes the manual copy's result the one reported |
| `Coordinator.SilentExactlyWhenCancelled` | composeApp/src/desktopMain/kotlin/com/yannickpulver/synctool/App.kt:428-439 | neither `onSyncComplete` nor `onSyncError` is called exactly when rsync was cancelled, or rsync failed and the manual copy was cancelled |
| `Coordinator.ManualFailureReported` | composeApp/src/desktopMain/kotlin/com/yannickpulver/synctool/App.kt:440-441 | a manual copy that throws is reported with its message, or "Unknown error occurred" when it has none |
| `Coordinator.CancelledCopyKeepsFiles` | composeApp/src/desktopMain/kotlin/com/yannickpulver/synctool/App.kt:572-597 | cancellation during the manual copy keeps every file already copied, loses or ages no target file, and reports `Cancelled` |
| `DropPath.NormalizeDroppedPath` | composeApp/src/desktopMain/kotlin/com/yannickpulver/synctool/App.kt:323-327 | the transform never lengthens the dropped string |
| `DropPath.Drop` | composeApp/src/desktopMain/kotlin/com/yannickpulver/synctool/App.kt:324 | `drop(5)`: empty when the string has at most five characters, otherwise the string with its first five characters removed |
| `DropPath.EncodeSpaces` | composeApp/src/desktopMain/kotlin/com/yannickpulver/synctool/App.kt:324 | the URI form of a path has no spaces and only the path's characters or those of "%20" |
| `DropPath.DecodeEncodeSpaces` | composeApp/src/desktopMain/kotlin/com/yannickpulver/synctool/App.kt:324 | `replace("%20", " ")` undoes the URI encoding of a path with no '%' of its own |
| `DropPath.DroppedFileUriRoundTrip` | composeApp/src/desktopMain/kotlin/com/yannickpulver/synctool/App.kt:323-327 | a path dropped as `file:` + its encoding comes back as the path itself |
| `DropPath.ReplaceFirst` | composeApp/src/desktopMain/kotlin/com/yannickpulver/synctool/App.kt:324 | the first character of a replacement result is a space where "%20" starts, and the first character otherwise |
| `DropPath.DecodedHasNoEncodedSpace` | composeApp/src/desktopMain/kotlin/com/yannickpulver/synctool/App.kt:324 | after the replacement no "%20" is left, not even one formed across a decoded space |
| `DropPath.DroppedUriHasNoEncodedSpace` | composeApp/src/desktopMain/kotlin/com/yannickpulver/synctool/App.kt:323-324 | a dropped string starting with "file" never keeps an encoded space |

## Where the code and its description differ

The model follows the code in each of these cases:

- **One counter format.** The code recognises one aggregate counter format,
  `to-chk=R/T` (App.kt:490-492). It has no second "transfer index plus
  remaining/total" format.
- **Newer targets are skipped.** A target file newer than the source is left
  alone (App.kt:594-597). After a manual pass, a source file is therefore not
  always identical in the target. `SyncedMatchesSource` states what does hold.
- **The file counter can pass the total.**
  - rsync's file counter counts every line that passes the filters. That
    includes directory names such as `photos/`.
  - `totalFiles` counts only files (App.kt:452). So the reported fraction can
    exceed 1 (`FileCounterCanExceedTotal`).
  - The fractions of one run can also go back, because the `to-chk` updates and
    the file counter share one stream (`ProgressCanGoBack`).

## Left out

- **The user interface:** the Compose UI, the window setup and the platform
  name. They hold no sync behaviour; only the dropped-path transform of
  `onDrop` is modelled.
- **Process plumbing:** `ProcessBuilder`, the stream readers, `waitFor` and
  `destroyForcibly`. rsync is given as what it printed and how it exited.
  - Reading stdout and then stderr one after the other can block on a full
    pipe. That is a concurrency matter and is not modelled.
- **What rsync itself writes to the target** is not modelled. Only the manual
  copy changes the model's `Tree`.
- **Coroutines:**
  - `withContext(Dispatchers.IO)` is not modelled.
  - A cancellation observed at the entry to or exit from `withContext`, rather
    than at an `ensureActive` checkpoint, is not modelled.
  - An exception thrown by a progress callback is not modelled.
- **`println` logging** has no effect on the result.
- **`Float` progress values:**
  - Fractions stay exact quotients.
  - The manual copy's division by `totalFiles` (App.kt:600) is the quotient
    `processed / totalFiles`. In the model every walked entry that is not a
    directory is a counted file, so a file update never has a zero total;
    the entries below break that, and `Float` division by zero
    (`Infinity`, `NaN`) is not modelled.
- **Entries that are neither regular files nor directories** (a broken
  symbolic link, a FIFO, a socket) are not modelled. `Entry` has only a
  directory flag.
  - The totals at App.kt:452 and App.kt:563 count only `isFile` entries.
  - App.kt:577-580 sends every entry that is not a directory down the file
    branch.
  - So on such a tree `processedFiles` can exceed `totalFiles`, the division
    at App.kt:600 can divide by zero, and the `copyTo` of a broken link
    throws.
  - `ManualSync.ManualProgressInRange` holds only for the trees the model can
    express.
- **`Int` overflow of the counters** (`processedFiles`, `newFiles`, ...) is not
  modelled; they are unbounded naturals. `toIntOrNull`'s overflow to null is
  modelled.
- **Filesystem details:** timestamp granularity, permission errors other than
  a failing copy, and a name used as both file and directory.
  - A copy that throws leaves the target file as it was in the model. The code
    may already have changed it: `copyTo(overwrite = true)` (App.kt:590)
    deletes the old target file before copying, so a failed update can lose
    it, and a failed new copy (App.kt:584) can leave an empty or partial file.
  - A `setLastModified` that fails (App.kt:586, 592) returns `false` and leaves
    the copy with its own modification time; the model always gives the copy
    the source's time.
  - A failing `mkdirs` is not modelled.
- **Strings are sequences of characters**, not of UTF-16 code units.
  Supplementary characters are therefore not split into surrogate pairs.
- DropPath.DroppedFileUriRoundTrip: is proved for paths without '%'. The
  transform decodes only `%20`, so a path whose own text contains "%20" does
  not survive the round trip.
  - The encoding it inverts is the model's `EncodeSpaces`, which escapes
    spaces only. A real `file:` URI also percent-encodes '%' (as `%25`), '#',
    '?', '[', ']', '"', '<', '>', '\\', '^', '`', '{', '|', '}' and control
    characters. App.kt:324 decodes none of those.
  - So the round trip covers only paths whose URI differs from the path by
    spaces alone.
- ManualSync.Summary: the summary text is the code's string. No lemma parses
  the counts back out of it; the counts themselves are proved.
