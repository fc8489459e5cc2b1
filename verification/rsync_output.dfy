/**
 * How `executeRsync` reads one line of rsync's standard output: an overall
 * `to-chk=R/T` counter, a transferred file name, or an informational line.
 * The two percentage regular expressions are written twice: as the set of
 * strings the regex fully matches (an existential over the split points) and
 * as a greedy scan, and the two are proved equal.
 */
module RsyncOutput {
  import opened Text
  import opened Progress

  const ToChkMarker: string := "to-chk="

  // ---------------------------------------------------------------------
  // `\s*[0-9,]+\s+\d+%.*` : a per-file byte-count progress line
  // ---------------------------------------------------------------------

  /** The regex fully matches `s` with its four runs ending at `i`, `j`, `k` and the '%' at `l`. */
  ghost predicate ByteCountSplit(s: string, i: int, j: int, k: int, l: int) {
    && 0 <= i < j < k < l < |s|
    && AllIn(s, 0, i, RegexSpace)
    && AllIn(s, i, j, DigitOrComma)
    && AllIn(s, j, k, RegexSpace)
    && AllIn(s, k, l, Digit)
    && s[l] == '%'
    && AllIn(s, l + 1, |s|, NotLineEnd)
  }

  /** `s.matches(Regex("\\s*[0-9,]+\\s+\\d+%.*"))`. */
  ghost predicate MatchesByteCountLine(s: string) {
    exists i, j, k, l :: ByteCountSplit(s, i, j, k, l)
  }

  /** The same test as a scan: each run is as long as it can be. */
  predicate IsByteCountLine(s: string) {
    var i := RunEnd(s, 0, RegexSpace);
    var j := RunEnd(s, i, DigitOrComma);
    var k := RunEnd(s, j, RegexSpace);
    var l := RunEnd(s, k, Digit);
    i < j < k < l < |s| && s[l] == '%' && AllIn(s, l + 1, |s|, NotLineEnd)
  }

  /** The greedy scan accepts exactly the lines the regex fully matches. */
  lemma IsByteCountLineCorrect(s: string)
    ensures IsByteCountLine(s) <==> MatchesByteCountLine(s)
  {
    var i := RunEnd(s, 0, RegexSpace);
    var j := RunEnd(s, i, DigitOrComma);
    var k := RunEnd(s, j, RegexSpace);
    var l := RunEnd(s, k, Digit);
    if IsByteCountLine(s) {
      assert ByteCountSplit(s, i, j, k, l);
    }
    if MatchesByteCountLine(s) {
      var i', j', k', l' :| ByteCountSplit(s, i', j', k', l');
      RunEndIs(s, 0, i', RegexSpace);
      RunEndIs(s, i', j', DigitOrComma);
      RunEndIs(s, j', k', RegexSpace);
      RunEndIs(s, k', l', Digit);
    }
  }

  // ---------------------------------------------------------------------
  // `.*\s+\d+%\s+.*` : a percentage surrounded by whitespace
  // ---------------------------------------------------------------------

  /** The regex fully matches `s` with whitespace `[a, b)`, digits `[b, c)`, '%' at `c` and whitespace `[c + 1, d)`. */
  ghost predicate PercentSplit(s: string, a: int, b: int, c: int, d: int) {
    && 0 <= a < b < c && c + 1 < d <= |s|
    && AllIn(s, 0, a, NotLineEnd)
    && AllIn(s, a, b, RegexSpace)
    && AllIn(s, b, c, Digit)
    && s[c] == '%'
    && AllIn(s, c + 1, d, RegexSpace)
    && AllIn(s, d, |s|, NotLineEnd)
  }

  /** `s.matches(Regex(".*\\s+\\d+%\\s+.*"))`. */
  ghost predicate MatchesPercentLine(s: string) {
    exists a, b, c, d :: PercentSplit(s, a, b, c, d)
  }

  /** The regex matches with its '%' at `c`, the runs around it taken as long as they can be. */
  predicate PercentAt(s: string, c: int)
    requires 0 <= c < |s|
  {
    && s[c] == '%'
    && var b := RunStart(s, c, Digit);
    && var a := RunStart(s, b, RegexSpace);
    && var d := RunEnd(s, c + 1, RegexSpace);
    && a < b < c && c + 1 < d
    && AllIn(s, 0, a, NotLineEnd) && AllIn(s, d, |s|, NotLineEnd)
  }

  predicate IsPercentLine(s: string) {
    exists c | 0 <= c < |s| :: PercentAt(s, c)
  }

  /** The scan accepts exactly the lines the regex fully matches. */
  lemma IsPercentLineCorrect(s: string)
    ensures IsPercentLine(s) <==> MatchesPercentLine(s)
  {
    if IsPercentLine(s) {
      var c :| 0 <= c < |s| && PercentAt(s, c);
      var b := RunStart(s, c, Digit);
      var a := RunStart(s, b, RegexSpace);
      var d := RunEnd(s, c + 1, RegexSpace);
      assert PercentSplit(s, a, b, c, d);
    }
    if MatchesPercentLine(s) {
      var a', b', c, d' :| PercentSplit(s, a', b', c, d');
      assert In(s[b' - 1], RegexSpace);
      RunStartIs(s, b', c, Digit);
      RunStartIsLongest(s, a', b', RegexSpace);
      RunEndIsLongest(s, c + 1, d', RegexSpace);
      assert PercentAt(s, c);
    }
  }

  // ---------------------------------------------------------------------
  // `Regex("to-chk=(\\d+)/(\\d+)").find(line)`
  // ---------------------------------------------------------------------

  /** A match found at `pos`, with its two captured digit groups. */
  datatype ToChkMatch = ToChkMatch(pos: nat, remaining: string, total: string)

  predicate IsDigits(g: string) {
    |g| > 0 && AllIn(g, 0, |g|, Digit)
  }

  /** The regex matches at `p`: marker, digits `[p + 7, a)`, '/', digits `[a + 1, b)`. */
  ghost predicate ToChkSplit(s: string, p: int, a: int, b: int) {
    && OccursAt(s, ToChkMarker, p)
    && p + |ToChkMarker| < a < |s| && a + 1 < b <= |s|
    && AllIn(s, p + |ToChkMarker|, a, Digit)
    && s[a] == '/'
    && AllIn(s, a + 1, b, Digit)
  }

  /** Whether the regex matches starting at `p`, and its groups if so (the second group is greedy). */
  function ToChkAt(s: string, p: nat): (r: Option<ToChkMatch>)
    requires p <= |s|
    ensures r.Some? ==> r.value.pos == p && IsDigits(r.value.remaining) && IsDigits(r.value.total)
  {
    if !OccursAt(s, ToChkMarker, p) then None
    else
      var a := RunEnd(s, p + |ToChkMarker|, Digit);
      if a == p + |ToChkMarker| || a == |s| || s[a] != '/' then None
      else
        var b := RunEnd(s, a + 1, Digit);
        if b == a + 1 then None
        else Some(ToChkMatch(p, s[p + |ToChkMarker|..a], s[a + 1..b]))
  }

  /** `ToChkAt` agrees with the regex: it matches exactly when some split exists, capturing the greedy one. */
  lemma ToChkAtCorrect(s: string, p: nat)
    requires p <= |s|
    ensures ToChkAt(s, p).Some? <==> exists a, b :: ToChkSplit(s, p, a, b)
    ensures ToChkAt(s, p).Some? ==>
              exists a, b :: && ToChkSplit(s, p, a, b)
                             && (b == |s| || !In(s[b], Digit))
                             && ToChkAt(s, p).value == ToChkMatch(p, s[p + |ToChkMarker|..a], s[a + 1..b])
  {
    var r := ToChkAt(s, p);
    if r.Some? {
      var a := RunEnd(s, p + |ToChkMarker|, Digit);
      var b := RunEnd(s, a + 1, Digit);
      assert ToChkSplit(s, p, a, b);
    }
    if exists a, b :: ToChkSplit(s, p, a, b) {
      var a, b :| ToChkSplit(s, p, a, b);
      RunEndIs(s, p + |ToChkMarker|, a, Digit);
      RunEndIsLongest(s, a + 1, b, Digit);
    }
  }

  /** `find`: the leftmost position at or after `from` where the regex matches (see `FindToChkIsLeftmost`). */
  function FindToChk(s: string, from: nat): (r: Option<ToChkMatch>)
    requires from <= |s|
    ensures r.Some? ==> IsDigits(r.value.remaining) && IsDigits(r.value.total)
    decreases |s| - from
  {
    if ToChkAt(s, from).Some? then ToChkAt(s, from)
    else if from == |s| then None
    else FindToChk(s, from + 1)
  }

  /**
   * `FindToChk` finds nothing exactly when the regex matches nowhere from
   * `from` on, and otherwise the match at the leftmost position where it does.
   */
  lemma {:induction false} FindToChkIsLeftmost(s: string, from: nat)
    requires from <= |s|
    ensures FindToChk(s, from).None? <==> forall p | from <= p <= |s| :: ToChkAt(s, p).None?
    ensures var r := FindToChk(s, from);
            r.Some? ==> from <= r.value.pos <= |s| && ToChkAt(s, r.value.pos) == r
    ensures var r := FindToChk(s, from);
            r.Some? ==> forall p | from <= p < r.value.pos :: ToChkAt(s, p).None?
    decreases |s| - from
  {
    if ToChkAt(s, from).None? && from < |s| {
      FindToChkIsLeftmost(s, from + 1);
      var r := FindToChk(s, from);
      assert r == FindToChk(s, from + 1);
      if r.Some? {
        forall p | from <= p < r.value.pos ensures ToChkAt(s, p).None? {
          if p > from { assert from + 1 <= p; }
        }
      } else {
        forall p | from <= p <= |s| ensures ToChkAt(s, p).None? {
          if p > from { assert from + 1 <= p; }
        }
      }
    }
  }

  /** `group.toIntOrNull() ?: 0`. */
  function GroupValue(g: string): (v: int)
    requires IsDigits(g)
    ensures 0 <= v <= MaxInt
    ensures v == (if DigitsValue(g) <= MaxInt then DigitsValue(g) else 0)
  {
    ToIntOrNull(g).GetOr(0)
  }

  // ---------------------------------------------------------------------
  // Classifying a line
  // ---------------------------------------------------------------------

  datatype LineKind =
    | ToChk(remaining: int, total: int)  // contains "to-chk=" and the regex found its two numbers
    | ToChkUnmatched                     // contains "to-chk=" but the regex found nothing
    | TransferredFile                    // passes every filter: counted as one transferred file
    | Informational                      // anything else

  /** The filters a line must pass to be counted as a transferred file, as the source writes them. */
  predicate PassesFileFilters(line: string) {
    && Trim(line) != []
    && !Contains(line, "sending incremental file list")
    && !Contains(line, "sent ")
    && !Contains(line, "total size")
    && !StartsWith(line, "rsync:")
    && !Contains(line, "deleting ")
    && !IsByteCountLine(line)
    && !IsPercentLine(line)
    && |line| > 5
  }

  function Classify(line: string): LineKind {
    if Contains(line, ToChkMarker) then
      match FindToChk(line, 0)
      case Some(m) => ToChk(GroupValue(m.remaining), GroupValue(m.total))
      case None => ToChkUnmatched
    else if PassesFileFilters(line) then TransferredFile
    else Informational
  }

  /** A line counts as a transferred file, stated with the regexes' own meaning. */
  ghost predicate CountsAsTransferredFile(line: string) {
    && !Contains(line, ToChkMarker)
    && !IsBlank(line)
    && !Contains(line, "sending incremental file list")
    && !Contains(line, "sent ")
    && !Contains(line, "total size")
    && !StartsWith(line, "rsync:")
    && !Contains(line, "deleting ")
    && !MatchesByteCountLine(line)
    && !MatchesPercentLine(line)
    && |line| > 5
  }

  /** A line is classified as a transferred file exactly when it passes all the filters. */
  lemma ClassifyTransferredFile(line: string)
    ensures Classify(line) == TransferredFile <==> CountsAsTransferredFile(line)
  {
    TrimEmptyIffBlank(line);
    IsByteCountLineCorrect(line);
    IsPercentLineCorrect(line);
  }

  /** A line containing "to-chk=" is a `ToChk` exactly when the regex matches somewhere in it. */
  lemma ClassifyToChk(line: string)
    requires Contains(line, ToChkMarker)
    ensures Classify(line).ToChk? || Classify(line) == ToChkUnmatched
    ensures Classify(line).ToChk? <==> exists p, a, b :: ToChkSplit(line, p, a, b)
  {
    if exists p, a, b :: ToChkSplit(line, p, a, b) {
      var p, a, b :| ToChkSplit(line, p, a, b);
      ToChkAtCorrect(line, p);
    }
    FindToChkIsLeftmost(line, 0);
    var r := FindToChk(line, 0);
    if r.Some? {
      ToChkAtCorrect(line, r.value.pos);
    }
  }

  /**
   * The numbers of a `ToChk` line come from the leftmost match, the second
   * group taken greedily, each read as an `Int` (0 when it overflows).
   */
  lemma ToChkUsesLeftmostMatch(line: string, p: nat, a: nat, b: nat)
    requires ToChkSplit(line, p, a, b)
    requires b == |line| || !In(line[b], Digit)
    requires forall q, a', b' :: 0 <= q < p ==> !ToChkSplit(line, q, a', b')
    ensures IsDigits(line[p + |ToChkMarker|..a]) && IsDigits(line[a + 1..b])
    ensures Classify(line) == ToChk(GroupValue(line[p + |ToChkMarker|..a]), GroupValue(line[a + 1..b]))
  {
    assert Contains(line, ToChkMarker) by { assert OccursAt(line, ToChkMarker, p); }
    RunEndIs(line, p + |ToChkMarker|, a, Digit);
    RunEndIs(line, a + 1, b, Digit);
    assert ToChkAt(line, p) == Some(ToChkMatch(p, line[p + |ToChkMarker|..a], line[a + 1..b]));
    FindToChkIsLeftmost(line, 0);
    var r := FindToChk(line, 0);
    assert r.Some?;
    ToChkAtCorrect(line, r.value.pos);
    assert r.value.pos >= p;
    assert r.value.pos <= p;
    assert r == ToChkAt(line, p);
    assert r.value == ToChkMatch(p, line[p + |ToChkMarker|..a], line[a + 1..b]);
    assert Classify(line) == ToChk(GroupValue(r.value.remaining), GroupValue(r.value.total));
  }

  // ---------------------------------------------------------------------
  // What one line does to the counter and to the progress stream
  // ---------------------------------------------------------------------

  /** `processedFiles` after the line. */
  function Advance(kind: LineKind, processed: int): int {
    if kind == TransferredFile then processed + 1 else processed
  }

  /** The progress of the file counter: `processed / totalFiles`, or 0 when `totalFiles` is 0. */
  function FileProgress(processed: int, totalFiles: int): Progress {
    Progress(if totalFiles > 0 then Ratio(processed, totalFiles) else Ratio(0, 1), processed, totalFiles)
  }

  /** The `onProgress` calls one line causes, given `processedFiles` before it. */
  function Report(kind: LineKind, processed: int, totalFiles: int): seq<Progress> {
    match kind
    case ToChk(remaining, total) =>
      if total > 0 then [Progress(Ratio(total - remaining, total), total - remaining, total)] else []
    case TransferredFile => [FileProgress(processed + 1, totalFiles)]
    case _ => []
  }

  /** The classification of each line, in order. */
  function Kinds(lines: seq<string>): (ks: seq<LineKind>)
    ensures |ks| == |lines|
  {
    seq(|lines|, k requires 0 <= k < |lines| => Classify(lines[k]))
  }

  /** The classification of each line by a given classifier, in order. */
  function KindsBy(classify: string -> LineKind, lines: seq<string>): (ks: seq<LineKind>)
    ensures |ks| == |lines|
  {
    seq(|lines|, k requires 0 <= k < |lines| => classify(lines[k]))
  }

  /** Classifying with `Classify` gives `Kinds`. */
  lemma KindsByClassify(lines: seq<string>)
    ensures KindsBy(Classify, lines) == Kinds(lines)
  {
  }

  /** `processedFiles` after lines of the given kinds. */
  function Counted(ks: seq<LineKind>): nat
    decreases |ks|
  {
    if ks == [] then 0 else Advance(ks[|ks| - 1], Counted(ks[..|ks| - 1]))
  }

  /** The `onProgress` calls lines of the given kinds cause, in order. */
  function Reported(ks: seq<LineKind>, totalFiles: int): seq<Progress>
    decreases |ks|
  {
    if ks == [] then []
    else
      var init := ks[..|ks| - 1];
      Reported(init, totalFiles) + Report(ks[|ks| - 1], Counted(init), totalFiles)
  }

  /** Every `onProgress` call the reading loop makes for `lines`, in order. */
  function Reports(lines: seq<string>, totalFiles: int): seq<Progress> {
    Reported(Kinds(lines), totalFiles)
  }

  /** The classifications of a prefix are a prefix of the classifications. */
  lemma KindsPrefix(lines: seq<string>, n: nat)
    requires n <= |lines|
    ensures Kinds(lines[..n]) == Kinds(lines)[..n]
  {
  }

  /** One more line adds its count and its updates to those of the lines before it. */
  lemma CountedStep(ks: seq<LineKind>, i: nat, totalFiles: int)
    requires i < |ks|
    ensures Counted(ks[..i + 1]) == Advance(ks[i], Counted(ks[..i]))
    ensures Reported(ks[..i + 1], totalFiles) == Reported(ks[..i], totalFiles) + Report(ks[i], Counted(ks[..i]), totalFiles)
  {
    assert ks[..i + 1][..i] == ks[..i];
  }

  /**
   * A "to-chk=" line never moves the file counter; it reports `(T - R, T)`
   * when its total `T` is positive and nothing otherwise.
   */
  lemma ToChkLineEffect(line: string, processed: int, totalFiles: int)
    requires Contains(line, ToChkMarker)
    ensures Advance(Classify(line), processed) == processed
    ensures var k := Classify(line);
            Report(k, processed, totalFiles)
            == if k.ToChk? && k.total > 0
               then [Progress(Ratio(k.total - k.remaining, k.total), k.total - k.remaining, k.total)]
               else []
  {
    ClassifyToChk(line);
  }

  /**
   * The file counter moves by one exactly on a line that passes every filter,
   * and that line reports `(processed + 1, totalFiles)`; any other line leaves it alone.
   */
  lemma CounterStep(line: string, processed: int, totalFiles: int)
    ensures Advance(Classify(line), processed)
            == if CountsAsTransferredFile(line) then processed + 1 else processed
    ensures CountsAsTransferredFile(line) ==>
              Report(Classify(line), processed, totalFiles) == [FileProgress(processed + 1, totalFiles)]
  {
    ClassifyTransferredFile(line);
  }

  /** The file counter never goes down as more lines are read. */
  lemma {:induction false} CountedMonotone(ks: seq<LineKind>, i: nat, j: nat)
    requires i <= j <= |ks|
    ensures Counted(ks[..i]) <= Counted(ks[..j])
    decreases j - i
  {
    if i < j {
      CountedMonotone(ks, i, j - 1);
      assert ks[..j][..j - 1] == ks[..j - 1];
    }
  }

  /**
   * The file-counter updates strictly increase: a counted line `i` reports a
   * smaller count than any later counted line `j`.
   */
  lemma FileCounterIncreasing(ks: seq<LineKind>, i: nat, j: nat, totalFiles: int)
    requires i < j < |ks|
    requires ks[i] == TransferredFile && ks[j] == TransferredFile
    ensures Report(ks[i], Counted(ks[..i]), totalFiles) == [FileProgress(Counted(ks[..i]) + 1, totalFiles)]
    ensures Report(ks[j], Counted(ks[..j]), totalFiles) == [FileProgress(Counted(ks[..j]) + 1, totalFiles)]
    ensures Counted(ks[..i]) + 1 < Counted(ks[..j]) + 1
  {
    CountedMonotone(ks, i + 1, j);
    assert ks[..i + 1][..i] == ks[..i];
  }

  /** A name line without spaces, '=' or '%' that starts with a visible character is counted. */
  lemma NameLineCounted(l: string)
    requires |l| > 5 && !IsWhitespace(l[0]) && !StartsWith(l, "rsync:")
    requires ' ' !in l && '=' !in l && '%' !in l
    ensures Classify(l) == TransferredFile
  {
    if Contains(l, ToChkMarker) { ContainsChars(l, ToChkMarker, '='); }
    if Contains(l, "sending incremental file list") { ContainsChars(l, "sending incremental file list", ' '); }
    if Contains(l, "sent ") { ContainsChars(l, "sent ", ' '); }
    if Contains(l, "total size") { ContainsChars(l, "total size", ' '); }
    if Contains(l, "deleting ") { ContainsChars(l, "deleting ", ' '); }
    TrimEmptyIffBlank(l);
    assert !IsPercentLine(l) by {
      forall c | 0 <= c < |l| ensures !PercentAt(l, c) {
        assert l[c] in l;
      }
    }
    assert !IsByteCountLine(l) by {
      var k := RunEnd(l, RunEnd(l, RunEnd(l, 0, RegexSpace), DigitOrComma), RegexSpace);
      var e := RunEnd(l, k, Digit);
      if e < |l| { assert l[e] in l; }
    }
  }

  /** The classifications of two lines. */
  lemma KindsOfTwo(l0: string, l1: string)
    ensures Kinds([l0, l1]) == [Classify(l0), Classify(l1)]
  {
    assert [l0, l1][..1] == [l0] && [l0][..0] == [];
  }

  /**
   * The counter counts every line that passes the filters, directories and
   * other names included, so it can exceed the number of files: two lines, one
   * file, and the second update reports 2 / 1.
   */
  lemma FileCounterCanExceedTotal()
    ensures var lines := ["photos/", "photos/a.jpg"];
            && Counted(Kinds(lines)) == 2
            && Reports(lines, 1) == [FileProgress(1, 1), FileProgress(2, 1)]
            && !InUnitRange(Reports(lines, 1)[1].fraction)
  {
    DirectoryNameCounted();
    FileNameCounted();
    KindsOfTwo("photos/", "photos/a.jpg");
    TwoFilesReported(1);
  }

  /** Two counted lines report counts 1 and 2. */
  lemma TwoFilesReported(totalFiles: int)
    ensures var ks := [TransferredFile, TransferredFile];
            && Counted(ks) == 2
            && Reported(ks, totalFiles) == [FileProgress(1, totalFiles), FileProgress(2, totalFiles)]
  {
    var ks := [TransferredFile, TransferredFile];
    assert ks[..1] == [TransferredFile] && ks[..1][..0] == [];
  }

  /** rsync's line for a directory it creates is counted as a file. */
  lemma DirectoryNameCounted()
    ensures Classify("photos/") == TransferredFile
  {
    NameLineCounted("photos/");
  }

  /** rsync's line for a copied file is counted. */
  lemma FileNameCounted()
    ensures Classify("photos/a.jpg") == TransferredFile
  {
    NameLineCounted("photos/a.jpg");
  }

  /**
   * The two kinds of update share one progress stream, so its fractions can
   * go back: a `to-chk` line reporting 1 / 1 followed by the first counted
   * file of two reports 1 / 2.
   */
  lemma ProgressCanGoBack()
    ensures var lines := ["to-chk=0/1", "photos/a.jpg"];
            && Reports(lines, 2) == [Progress(Ratio(1, 1), 1, 1), FileProgress(1, 2)]
            && Reports(lines, 2)[1].fraction.num * Reports(lines, 2)[0].fraction.den
               < Reports(lines, 2)[0].fraction.num * Reports(lines, 2)[1].fraction.den
  {
    ToChkLineClassified();
    FileNameCounted();
    KindsOfTwo("to-chk=0/1", "photos/a.jpg");
    ToChkThenFileReported(2);
  }

  /** A `to-chk=0/1` line, then a counted line: the updates 1 / 1 and 1 / N. */
  lemma ToChkThenFileReported(totalFiles: int)
    ensures Reported([ToChk(0, 1), TransferredFile], totalFiles)
            == [Progress(Ratio(1, 1), 1, 1), FileProgress(1, totalFiles)]
  {
    var ks := [ToChk(0, 1), TransferredFile];
    assert ks[..1] == [ToChk(0, 1)] && ks[..1][..0] == [];
  }

  /** The line "to-chk=0/1" reports no file left of one. */
  lemma ToChkLineClassified()
    ensures Classify("to-chk=0/1") == ToChk(0, 1)
  {
    var line := "to-chk=0/1";
    assert OccursAt(line, ToChkMarker, 0);
    assert AllIn(line, 7, 8, Digit) && AllIn(line, 9, 10, Digit);
    ToChkUsesLeftmostMatch(line, 0, 8, 10);
    assert line[7..8] == "0" && line[9..10] == "1";
    assert DigitsValue("0") == 0 && DigitsValue("1") == 1;
  }
}
