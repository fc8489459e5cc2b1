/**
 * What the sync engine reports: progress updates handed to `onProgress`
 * and the outcome of one strategy.
 */
module Progress {
  import opened Text

  /** The `Float` handed to `onProgress`, kept as the quotient `num / den`. */
  datatype Fraction = Ratio(num: int, den: int)

  /**
   * One `onProgress(fraction, "<done> / <total> files")` call; the label is
   * a function of `done` and `total`.
   */
  datatype Progress = Progress(fraction: Fraction, done: int, total: int)

  /** The text shown beside the progress indicator. */
  function Label(p: Progress): string {
    IntToString(p.done) + " / " + IntToString(p.total) + " files"
  }

  /** The magnitude of a count, as the digits after an optional '-' show it. */
  function Magnitude(n: int): (m: nat)
    ensures m == n || m == -n
  {
    if n < 0 then -n else n
  }

  /** Where the digits of a count start, past its sign. */
  function SignWidth(n: int): nat {
    if n < 0 then 1 else 0
  }

  /**
   * The label reads back as its two counts: an optional '-' exactly when
   * `done` is negative (a to-chk line whose remaining count exceeds its
   * total), digits reading as the magnitude of `done`, " / ", the same for
   * `total`, then " files".
   */
  lemma LabelShowsCounts(p: Progress)
    ensures var l := Label(p);
            var k := RunEnd(l, SignWidth(p.done), Digit);
            && (p.done < 0 <==> l[0] == '-')
            && DigitsFrom(l, SignWidth(p.done)) == Magnitude(p.done)
            && k + 3 < |l| && l[k..k + 3] == " / "
            && (p.total < 0 <==> l[k + 3] == '-')
            && k + 3 + SignWidth(p.total) <= |l|
            && DigitsFrom(l, k + 3 + SignWidth(p.total)) == Magnitude(p.total)
            && l[RunEnd(l, k + 3 + SignWidth(p.total), Digit)..] == " files"
  {
    LabelDone(p);
    LabelSeparators(p);
    LabelTotal(p);
  }

  /** The label starts with the signed text of `done`, whose digits read as its magnitude. */
  lemma LabelDone(p: Progress)
    ensures var l, a, k := Label(p), SignWidth(p.done), |IntToString(p.done)|;
            && a <= k <= |l|
            && (p.done < 0 <==> l[0] == '-')
            && RunEnd(l, a, Digit) == k && DigitsValue(l[a..k]) == Magnitude(p.done)
  {
    var d, t := IntToString(p.done), IntToString(p.total);
    var l := Label(p);
    assert l == [] + d + (" / " + t + " files");
    IntToStringReadsBack([], p.done, " / " + t + " files");
  }

  /** After the text of `done` comes " / ", and after the text of `total` comes " files". */
  lemma LabelSeparators(p: Progress)
    ensures var l, k, m := Label(p), |IntToString(p.done)|, |IntToString(p.done)| + 3 + |IntToString(p.total)|;
            m + 6 == |l| && l[k..k + 3] == " / " && l[m..] == " files"
  {
    var d, t := IntToString(p.done), IntToString(p.total);
    var l := Label(p);
    assert l[|d|..|d| + 3] == " / " by {
      assert l == d + " / " + (t + " files");
    }
    assert l[|d| + 3 + |t|..] == " files" by {
      assert l == (d + " / " + t) + " files";
    }
  }

  /** After " / " comes the signed text of `total`, whose digits read as its magnitude. */
  lemma LabelTotal(p: Progress)
    ensures var l, k := Label(p), |IntToString(p.done)|;
            var b, m := k + 3 + SignWidth(p.total), k + 3 + |IntToString(p.total)|;
            && b <= m < |l|
            && (p.total < 0 <==> l[k + 3] == '-')
            && RunEnd(l, b, Digit) == m && DigitsValue(l[b..m]) == Magnitude(p.total)
  {
    var d, t := IntToString(p.done), IntToString(p.total);
    var l := Label(p);
    assert l == (d + " / ") + t + " files";
    IntToStringReadsBack(d + " / ", p.total, " files");
  }

  /** `onProgress(0f, "0 / N files")`, emitted before any work. */
  function Started(totalFiles: int): Progress {
    Progress(Ratio(0, 1), 0, totalFiles)
  }

  /** `onProgress(1f, "N / N files")`, emitted when rsync exits successfully. */
  function Finished(totalFiles: int): Progress {
    Progress(Ratio(1, 1), totalFiles, totalFiles)
  }

  /** A fraction that lies in [0, 1]. */
  predicate InUnitRange(f: Fraction) {
    f.den > 0 && 0 <= f.num <= f.den
  }

  /** How a strategy ended: a returned summary, a thrown exception (its nullable message) or a cancellation. */
  datatype Outcome =
    | Ok(summary: string)
    | Fail(message: Option<string>)
    | Cancelled

  /** The cancellation oracle moved past the first `n` checkpoints. */
  function Shift(cancelAt: Option<nat>, n: nat): Option<nat> {
    match cancelAt
    case Some(k) => if k >= n then Some(k - n) else Some(0)
    case None => None
  }
}
