/**
 * `performSync`: announce the start, try rsync, fall back to the manual copy
 * when rsync fails for any reason other than cancellation, and report the
 * result, the error, or nothing at all when the job was cancelled.
 */
module Coordinator {
  import opened Text
  import opened Progress
  import opened RsyncOutput
  import opened Rsync
  import opened ManualSync

  /** One call into the caller's callbacks, in the order they happen. */
  datatype Event =
    | SyncStarted                    // onSyncStart()
    | SyncProgress(update: Progress) // onSyncProgress(fraction, label)
    | SyncCompleted(summary: string) // onSyncComplete(summary)
    | SyncFailed(message: string)    // onSyncError(message)

  const UnknownError: string := "Unknown error occurred"

  /** Every `onProgress` call of a strategy, forwarded to `onSyncProgress`. */
  function Forwarded(updates: seq<Progress>): (es: seq<Event>)
    ensures |es| == |updates|
    ensures forall k | 0 <= k < |es| :: es[k] == SyncProgress(updates[k])
  {
    seq(|updates|, k requires 0 <= k < |updates| => SyncProgress(updates[k]))
  }

  /** The updates carried by the `onSyncProgress` calls among `es`, in order. */
  function ProgressOf(es: seq<Event>): seq<Progress>
    decreases |es|
  {
    if es == [] then []
    else
      var last := es[|es| - 1];
      ProgressOf(es[..|es| - 1]) + if last.SyncProgress? then [last.update] else []
  }

  /** The progress of a run of events is that of its first part followed by that of the rest. */
  lemma {:induction false} ProgressOfAppend(a: seq<Event>, b: seq<Event>)
    ensures ProgressOf(a + b) == ProgressOf(a) + ProgressOf(b)
    decreases |b|
  {
    if b == [] {
      assert a + b == a;
    } else {
      ProgressOfAppend(a, b[..|b| - 1]);
      assert (a + b)[..|a + b| - 1] == a + b[..|b| - 1];
    }
  }

  /** Forwarding loses, adds and reorders nothing: the updates read back from the forwarded calls are the strategy's own. */
  lemma {:induction false} ProgressOfForwarded(updates: seq<Progress>)
    ensures ProgressOf(Forwarded(updates)) == updates
    decreases |updates|
  {
    if updates != [] {
      var init := updates[..|updates| - 1];
      ProgressOfForwarded(init);
      assert Forwarded(updates) == Forwarded(init) + [SyncProgress(updates[|updates| - 1])];
      ProgressOfAppend(Forwarded(init), [SyncProgress(updates[|updates| - 1])]);
      assert ProgressOf([SyncProgress(updates[|updates| - 1])]) == [updates[|updates| - 1]];
    }
  }

  /**
   * The `onSyncProgress` calls of a sync are exactly rsync's `onProgress`
   * calls followed, when rsync failed, by the manual copy's; the start and the
   * final callback carry no progress.
   */
  lemma SyncProgressIsStrategyProgress(rsyncUpdates: seq<Progress>, manualUpdates: seq<Progress>, fellBack: bool, result: Outcome)
    ensures ProgressOf([SyncStarted] + Forwarded(rsyncUpdates)
                       + (if fellBack then Forwarded(manualUpdates) else []) + Conclusion(result))
            == rsyncUpdates + (if fellBack then manualUpdates else [])
  {
    var e2 := if fellBack then Forwarded(manualUpdates) else [];
    ProgressOfFour([SyncStarted], Forwarded(rsyncUpdates), e2, Conclusion(result));
    StartCarriesNoProgress();
    ProgressOfForwarded(rsyncUpdates);
    ProgressOfForwarded(manualUpdates);
    ConclusionCarriesNoProgress(result);
  }

  lemma ProgressOfFour(a: seq<Event>, b: seq<Event>, c: seq<Event>, d: seq<Event>)
    ensures ProgressOf(a + b + c + d) == ProgressOf(a) + ProgressOf(b) + ProgressOf(c) + ProgressOf(d)
  {
    ProgressOfAppend(a, b);
    ProgressOfAppend(a + b, c);
    ProgressOfAppend(a + b + c, d);
  }

  /** `onSyncStart` is not a progress call. */
  lemma StartCarriesNoProgress()
    ensures ProgressOf([SyncStarted]) == []
  {
    assert [SyncStarted][..0] == [];
  }

  /** The final callback is never a progress call. */
  lemma ConclusionCarriesNoProgress(result: Outcome)
    ensures ProgressOf(Conclusion(result)) == []
  {
    var es := Conclusion(result);
    if es != [] {
      assert es[..0] == [];
    }
  }

  /**
   * The inner `try`: rsync's summary or cancellation stands; any other
   * exception from rsync hands over to the manual copy.
   */
  function Select(rsync: Outcome, manual: Outcome): Outcome {
    if rsync.Fail? then manual else rsync
  }

  /** The outer `try`: the final callback for the selected result. */
  function Conclusion(result: Outcome): (es: seq<Event>)
    ensures |es| <= 1
    ensures es == [] <==> result.Cancelled?
    ensures result.Ok? ==> es == [SyncCompleted(result.summary)]
    ensures result.Fail? && result.message.Some? ==> es == [SyncFailed(result.message.value)]
    ensures result.Fail? && result.message.None? ==> es == [SyncFailed(UnknownError)]
  {
    match result
    case Ok(summary) => [SyncCompleted(summary)]
    case Fail(message) => [SyncFailed(message.GetOr(UnknownError))]
    case Cancelled => []
  }

  /** The cancellation checkpoints rsync passes before the manual copy starts: one per output line. */
  function Checkpoints(run: RsyncRun): nat {
    if run.Exited? then |run.stdout| else 0
  }

  /**
   * `performSync` over one source walk. `run` is how rsync behaves, `cancelAt`
   * the first checkpoint (counting rsync's lines, then the manual copy's
   * entries) at which the job is found cancelled, `fault` a failing manual copy.
   * The target tree records what the manual copy does; rsync's own writes are
   * outside the model.
   */
  method PerformSync(run: RsyncRun, walk: seq<Entry>, target: Tree, cancelAt: Option<nat>, fault: Option<Fault>)
    returns (events: seq<Event>)
    modifies target
    ensures |events| > 0 && events[0] == SyncStarted
    ensures var totalFiles := FileCount(walk, |walk|);
            var rsync := RsyncOutcome(run, cancelAt);
            var later := Shift(cancelAt, Checkpoints(run));
            events
            == [SyncStarted]
               + Forwarded(RsyncUpdates(totalFiles, run, cancelAt))
               + (if rsync.Fail? then Forwarded(ManualProgress(old(target.files), walk, later, fault)) else [])
               + Conclusion(Select(rsync, ManualOutcome(old(target.files), walk, later, fault)))
    ensures !RsyncOutcome(run, cancelAt).Fail? ==> target.files == old(target.files) && target.dirs == old(target.dirs)
    ensures RsyncOutcome(run, cancelAt).Fail? ==>
              var later := Shift(cancelAt, Checkpoints(run));
              target.files == Synced(old(target.files), walk, Handled(Halting(old(target.files), walk, later, fault), |walk|))
    ensures RsyncOutcome(run, cancelAt).Fail? ==>
              var later := Shift(cancelAt, Checkpoints(run));
              target.dirs == DirsAfter(old(target.dirs), walk, Halting(old(target.files), walk, later, fault))
    ensures var totalFiles := FileCount(walk, |walk|);
            var fellBack := RsyncOutcome(run, cancelAt).Fail?;
            var later := Shift(cancelAt, Checkpoints(run));
            ProgressOf(events)
            == RsyncUpdates(totalFiles, run, cancelAt)
               + (if fellBack then ManualProgress(old(target.files), walk, later, fault) else [])
  {
    events := [SyncStarted];
    var totalFiles := FileCount(walk, |walk|);
    var rsyncUpdates, result := ExecuteRsync(totalFiles, run, cancelAt);
    events := events + Forwarded(rsyncUpdates);
    if result.Fail? {
      var manualUpdates;
      manualUpdates, result := ExecuteManualSync(walk, target, Shift(cancelAt, Checkpoints(run)), fault);
      events := events + Forwarded(manualUpdates);
    }
    events := events + Conclusion(result);
    SyncProgressIsStrategyProgress(rsyncUpdates, ManualProgress(old(target.files), walk, Shift(cancelAt, Checkpoints(run)), fault),
                                   RsyncOutcome(run, cancelAt).Fail?, result);
  }

  // ---------------------------------------------------------------------
  // The coordinator's rules
  // ---------------------------------------------------------------------

  /**
   * Checkpoints are counted on from rsync's into the manual copy's: once
   * rsync has passed its `n` checkpoints uncancelled, the manual copy's
   * checkpoint `i` is the coordinator's checkpoint `n + i`.
   */
  lemma ShiftContinuesCheckpoints(cancelAt: Option<nat>, n: nat, i: nat)
    requires !Interrupted(cancelAt, n)
    ensures Interrupted(Shift(cancelAt, n), i) <==> Interrupted(cancelAt, n + i)
    ensures Shift(cancelAt, n) == Some(i) <==> cancelAt == Some(n + i)
  {
  }

  /** rsync exits 0 before any cancellation: its summary is reported and the manual copy never runs. */
  lemma RsyncSuccessCompletes(run: RsyncRun, cancelAt: Option<nat>, manual: Outcome)
    requires run.Exited? && !Interrupted(cancelAt, |run.stdout|) && run.exitCode == 0
    ensures !RsyncOutcome(run, cancelAt).Fail?
    ensures Conclusion(Select(RsyncOutcome(run, cancelAt), manual))
            == [SyncCompleted(Rsync.SummaryMarker + "\n" + JoinLines(run.stdout))]
  {
  }

  /** rsync fails without being cancelled (not installed, or a non-zero exit): the manual copy's result is what counts. */
  lemma RsyncFailureFallsBack(run: RsyncRun, cancelAt: Option<nat>, manual: Outcome)
    requires run.LaunchFailed? || (!Interrupted(cancelAt, |run.stdout|) && run.exitCode != 0)
    ensures RsyncOutcome(run, cancelAt).Fail?
    ensures Select(RsyncOutcome(run, cancelAt), manual) == manual
  {
  }

  /**
   * No completion and no error is reported exactly when the job was cancelled,
   * during rsync or during the manual copy that followed its failure.
   */
  lemma SilentExactlyWhenCancelled(rsync: Outcome, manual: Outcome)
    ensures Conclusion(Select(rsync, manual)) == []
            <==> rsync.Cancelled? || (rsync.Fail? && manual.Cancelled?)
  {
  }

  /**
   * A manual copy that throws is reported through `onSyncError`, with the
   * exception's message or, when it has none, the fixed fallback text.
   */
  lemma ManualFailureReported(rsync: Outcome, manual: Outcome)
    requires rsync.Fail? && manual.Fail?
    ensures Conclusion(Select(rsync, manual)) == [SyncFailed(manual.message.GetOr(UnknownError))]
  {
  }

  /**
   * Cancellation observed in the manual copy keeps every file already copied:
   * the target holds exactly what the entries before the checkpoint produced,
   * and nothing the target had is lost or made older.
   */
  lemma CancelledCopyKeepsFiles(files: map<Path, Stat>, walk: seq<Entry>, cancelAt: Option<nat>, fault: Option<Fault>)
    requires Halting(files, walk, cancelAt, fault).CancelledAt?
    ensures var k := Halting(files, walk, cancelAt, fault).index;
            var kept := Synced(files, walk, k);
            && ManualOutcome(files, walk, cancelAt, fault) == Cancelled
            && (forall p | p in files :: p in kept && kept[p].mtime >= files[p].mtime)
            && UpToDate(kept, walk, k)
  {
    var k := Halting(files, walk, cancelAt, fault).index;
    SyncIsAdditive(files, walk, k);
    SyncedIsUpToDate(files, walk, k);
  }
}
