/**
 * `executeRsync`: run rsync in additive mode, turn every line it prints into
 * progress, and map its exit code to a summary or a failure. The process
 * itself is given as what it printed and how it exited.
 */
module Rsync {
  import opened Text
  import opened Progress
  import opened RsyncOutput

  /** What starting rsync yields: it cannot be launched (not installed), or it ran and exited. */
  datatype RsyncRun =
    | LaunchFailed(message: Option<string>)
    | Exited(stdout: seq<string>, stderr: seq<string>, exitCode: int)

  const SummaryMarker: string := "Files synchronized using rsync (additive mode - no files deleted)"

  /** The argument list given to `ProcessBuilder`. */
  function Command(sourcePath: string, targetPath: string): seq<string> {
    ["rsync", "-av", "--times", "--progress", sourcePath + "/", targetPath]
  }

  /** An rsync option that deletes files: `--delete` and its variants, `--del`, `--remove-source-files`. */
  predicate IsDeletionOption(arg: string) {
    StartsWith(arg, "--del") || StartsWith(arg, "--remove")
  }

  /**
   * The command never asks rsync to delete anything, copies the contents of
   * the source directory (trailing '/') into the target and keeps times.
   */
  lemma CommandIsAdditive(sourcePath: string, targetPath: string)
    requires !StartsWith(sourcePath, "-") && !StartsWith(targetPath, "-")
    ensures var args := Command(sourcePath, targetPath);
            && (forall i | 0 <= i < |args| :: !IsDeletionOption(args[i]))
            && "--times" in args
            && args[|args| - 2] == sourcePath + "/" && args[|args| - 1] == targetPath
  {
    var args := Command(sourcePath, targetPath);
    forall i | 0 <= i < |args| ensures !IsDeletionOption(args[i]) {
      var arg := args[i];
      if i == 4 && sourcePath != [] {
        assert arg[0] == sourcePath[0] && sourcePath[..1] == [sourcePath[0]];
      } else if i == 5 && targetPath != [] {
        assert targetPath[..1] == [targetPath[0]];
      }
      DeletionOptionShape(arg);
    }
  }

  /** Every deletion option starts "--d" or "--r". */
  lemma DeletionOptionShape(arg: string)
    ensures IsDeletionOption(arg) ==> |arg| >= 3 && arg[0] == '-' && (arg[2] == 'd' || arg[2] == 'r')
  {
    if StartsWith(arg, "--del") {
      assert arg[0] == arg[..5][0] && arg[2] == arg[..5][2];
    } else if StartsWith(arg, "--remove") {
      assert arg[0] == arg[..8][0] && arg[2] == arg[..8][2];
    }
  }

  /** The message of the exception thrown on a non-zero exit. */
  function FailureMessage(exitCode: int, stderr: seq<string>): string {
    "rsync failed with exit code " + IntToString(exitCode) + ": " + JoinLines(stderr)
  }

  /**
   * The failure message carries the exit code, its digits read back as the
   * code when it is positive, and ends with everything rsync wrote to
   * standard error.
   */
  lemma FailureMessageShape(exitCode: int, stderr: seq<string>)
    ensures var m, e := FailureMessage(exitCode, stderr), JoinLines(stderr);
            && StartsWith(m, "rsync failed with exit code ")
            && |e| <= |m| && m[|m| - |e|..] == e
    ensures exitCode > 0 ==>
              var m, p := FailureMessage(exitCode, stderr), |"rsync failed with exit code "|;
              && p <= |m|
              && var d := RunEnd(m, p, Digit);
              && DigitsValue(m[p..d]) == exitCode
              && d + 2 <= |m| && m[d..d + 2] == ": "
  {
    FailureMessageEnds(exitCode, stderr);
    if exitCode > 0 {
      FailureMessageCode(exitCode, stderr);
    }
  }

  lemma FailureMessageEnds(exitCode: int, stderr: seq<string>)
    ensures var m, e := FailureMessage(exitCode, stderr), JoinLines(stderr);
            && StartsWith(m, "rsync failed with exit code ")
            && |e| <= |m| && m[|m| - |e|..] == e
  {
    var prefix, m, e := "rsync failed with exit code ", FailureMessage(exitCode, stderr), JoinLines(stderr);
    assert m == (prefix + IntToString(exitCode) + ": ") + e;
    assert m == prefix + (IntToString(exitCode) + ": " + e);
    assert m[..|prefix|] == prefix;
  }

  lemma FailureMessageCode(exitCode: int, stderr: seq<string>)
    requires exitCode > 0
    ensures var m, p, c := FailureMessage(exitCode, stderr), |"rsync failed with exit code "|, NatToString(exitCode);
            && p + |c| + 2 <= |m|
            && RunEnd(m, p, Digit) == p + |c| && DigitsValue(m[p..p + |c|]) == exitCode
            && m[p + |c|..p + |c| + 2] == ": "
  {
    var prefix, m, e := "rsync failed with exit code ", FailureMessage(exitCode, stderr), JoinLines(stderr);
    var c := NatToString(exitCode);
    assert m == prefix + c + (": " + e);
    NatToStringReadsBack(prefix, exitCode, ": " + e);
    assert m[|prefix| + |c|..|prefix| + |c| + 2] == ": " by {
      assert m == (prefix + c) + ": " + (e);
    }
  }

  /** Cancellation is observed at one of the first `n` checkpoints. */
  predicate Interrupted(cancelAt: Option<nat>, n: nat) {
    cancelAt.Some? && cancelAt.value < n
  }

  /**
   * The body of the reading loop for one line (`line?.let { ... }`), given
   * the line's classification: the new `processedFiles` and the `onProgress`
   * calls the line causes.
   */
  method HandleLine(kind: LineKind, processedFiles: int, totalFiles: int) returns (processed: int, emitted: seq<Progress>)
    ensures processed == Advance(kind, processedFiles)
    ensures emitted == Report(kind, processedFiles, totalFiles)
  {
    processed, emitted := processedFiles, [];
    match kind
    case ToChk(remaining, total) =>
      if total > 0 {
        var completed := total - remaining;
        emitted := [Progress(Ratio(completed, total), completed, total)];
      }
    case TransferredFile =>
      processed := processed + 1;
      var fraction := if totalFiles > 0 then Ratio(processed, totalFiles) else Ratio(0, 1);
      emitted := [Progress(fraction, processed, totalFiles)];
    case _ =>
  }

  /**
   * Line `i` of the output read after the first `i`: the counter, the text
   * collected so far and the progress stream all move on by that one line.
   * `classify` is the line classifier and `ks` its classifications of all the lines.
   */
  method ReadLine(lines: seq<string>, classify: string -> LineKind, ghost ks: seq<LineKind>, i: nat,
                  processedFiles: int, output: string, totalFiles: int)
    returns (processed: int, output': string, emitted: seq<Progress>)
    requires i < |lines| && ks == KindsBy(classify, lines)
    requires processedFiles == Counted(ks[..i]) && output == JoinLines(lines[..i])
    ensures processed == Counted(ks[..i + 1]) && output' == JoinLines(lines[..i + 1])
    ensures Reported(ks[..i + 1], totalFiles) == Reported(ks[..i], totalFiles) + emitted
  {
    var line := lines[i];
    CountedStep(ks, i, totalFiles);
    assert lines[..i + 1][..i] == lines[..i];
    output' := output + line + "\n";
    processed, emitted := HandleLine(classify(line), processedFiles, totalFiles);
  }

  /** Appends every line of a stream to a `StringBuilder` with `appendLine`. */
  method ReadLines(lines: seq<string>) returns (text: string)
    ensures text == JoinLines(lines)
  {
    text := "";
    var j := 0;
    while j < |lines|
      invariant 0 <= j <= |lines|
      invariant text == JoinLines(lines[..j])
    {
      assert lines[..j + 1][..j] == lines[..j];
      text := text + lines[j] + "\n";
      j := j + 1;
    }
    assert lines[..j] == lines;
  }

  /** How `executeRsync` ends for a given run: its summary, its exception or the cancellation. */
  function RsyncOutcome(run: RsyncRun, cancelAt: Option<nat>): Outcome {
    match run
    case LaunchFailed(message) => Fail(message)
    case Exited(stdout, stderr, exitCode) =>
      if Interrupted(cancelAt, |stdout|) then Cancelled
      else if exitCode != 0 then Fail(Some(FailureMessage(exitCode, stderr)))
      else Ok(SummaryMarker + "\n" + JoinLines(stdout))
  }

  /**
   * The `onProgress` calls of `executeRsync`: the start, then what each line
   * read before any cancellation reports, then the final 100% on success only.
   */
  function RsyncUpdates(totalFiles: int, run: RsyncRun, cancelAt: Option<nat>): (us: seq<Progress>)
    ensures |us| > 0 && us[0] == Started(totalFiles)
  {
    match run
    case LaunchFailed(_) => [Started(totalFiles)]
    case Exited(stdout, _, exitCode) =>
      if Interrupted(cancelAt, |stdout|) then [Started(totalFiles)] + Reports(stdout[..cancelAt.value], totalFiles)
      else if exitCode != 0 then [Started(totalFiles)] + Reports(stdout, totalFiles)
      else [Started(totalFiles)] + Reports(stdout, totalFiles) + [Finished(totalFiles)]
  }

  /**
   * The reading loop of `executeRsync` over rsync's standard output, with the
   * line classifier `classify` (`executeRsync` passes `Classify`), whose
   * classifications of the lines are `ks`: stops at the first line whose
   * `ensureActive` finds the job cancelled, otherwise reads every line.
   * Returns the collected text and the `onProgress` calls.
   */
  method ReadOutput(stdout: seq<string>, classify: string -> LineKind, ghost ks: seq<LineKind>, totalFiles: int, cancelAt: Option<nat>)
    returns (output: string, reported: seq<Progress>, cancelled: bool)
    requires ks == KindsBy(classify, stdout)
    ensures cancelled <==> Interrupted(cancelAt, |stdout|)
    ensures cancelled ==> reported == Reported(ks[..cancelAt.value], totalFiles)
    ensures !cancelled ==> reported == Reported(ks, totalFiles) && output == JoinLines(stdout)
  {
    output, reported, cancelled := "", [], false;
    var processedFiles := 0;
    var i := 0;
    while i < |stdout|
      invariant 0 <= i <= |stdout|
      invariant !Interrupted(cancelAt, i)
      invariant processedFiles == Counted(ks[..i])
      invariant output == JoinLines(stdout[..i])
      invariant reported == Reported(ks[..i], totalFiles)
    {
      if cancelAt == Some(i) {
        cancelled := true;
        return;
      }
      assert !Interrupted(cancelAt, i + 1);
      var emitted;
      processedFiles, output, emitted := ReadLine(stdout, classify, ks, i, processedFiles, output, totalFiles);
      reported := reported + emitted;
      i := i + 1;
    }
    assert stdout[..i] == stdout && ks[..i] == ks;
  }

  /**
   * `executeRsync`. `cancelAt` is the first output line at which `ensureActive`
   * finds the job cancelled. The returned updates are the `onProgress` calls
   * in order; the outcome is the returned summary, the thrown exception or the
   * cancellation.
   */
  method ExecuteRsync(totalFiles: nat, run: RsyncRun, cancelAt: Option<nat>)
    returns (updates: seq<Progress>, outcome: Outcome)
    ensures updates == RsyncUpdates(totalFiles, run, cancelAt)
    ensures outcome == RsyncOutcome(run, cancelAt)
  {
    updates := [Started(totalFiles)];
    match run
    case LaunchFailed(message) =>
      outcome := Fail(message);
    case Exited(stdout, stderr, exitCode) =>
      ghost var ks := Kinds(stdout);
      KindsByClassify(stdout);
      var output, reported, cancelled := ReadOutput(stdout, Classify, ks, totalFiles, cancelAt);
      updates := updates + reported;
      if cancelled {
        KindsPrefix(stdout, cancelAt.value);
        outcome := Cancelled;
        return;
      }

      var errors := ReadLines(stderr);

      if exitCode != 0 {
        outcome := Fail(Some("rsync failed with exit code " + IntToString(exitCode) + ": " + errors));
        return;
      }
      updates := updates + [Finished(totalFiles)];
      outcome := Ok(SummaryMarker + "\n" + output);
  }

  /**
   * Once rsync has exited without being cancelled: a non-zero exit fails with
   * the exit-code message and no final update; exit 0 ends with the 100% update
   * and a summary made of the marker line followed by everything rsync printed.
   */
  lemma RsyncExitHandling(totalFiles: int, run: RsyncRun, cancelAt: Option<nat>)
    requires run.Exited? && !Interrupted(cancelAt, |run.stdout|)
    ensures var o := RsyncOutcome(run, cancelAt);
            var us := RsyncUpdates(totalFiles, run, cancelAt);
            run.exitCode != 0 ==>
              && o.Fail? && o.message.Some?
              && StartsWith(o.message.value, "rsync failed with exit code ")
              && us == [Started(totalFiles)] + Reports(run.stdout, totalFiles)
    ensures run.exitCode != 0 ==> RsyncOutcome(run, cancelAt) == Fail(Some(FailureMessage(run.exitCode, run.stderr)))
    ensures var o := RsyncOutcome(run, cancelAt);
            var us := RsyncUpdates(totalFiles, run, cancelAt);
            run.exitCode == 0 ==>
              && o.Ok?
              && StartsWith(o.summary, SummaryMarker + "\n")
              && o.summary[|SummaryMarker| + 1..] == JoinLines(run.stdout)
              && us[|us| - 1] == Finished(totalFiles)
              && |us| == |Reports(run.stdout, totalFiles)| + 2
  {
    var o := RsyncOutcome(run, cancelAt);
    if run.exitCode != 0 {
      var prefix := "rsync failed with exit code ";
      assert o.message.value == prefix + (IntToString(run.exitCode) + ": " + JoinLines(run.stderr));
      assert o.message.value[..|prefix|] == prefix;
    } else {
      var head := SummaryMarker + "\n";
      assert o.summary == head + JoinLines(run.stdout);
      assert o.summary[..|head|] == head;
      assert o.summary[|head|..] == JoinLines(run.stdout);
    }
  }
}
