/**
 * String helpers with the meaning the Kotlin standard library and
 * java.util.regex give them. A `string` here is a sequence of characters;
 * Kotlin's strings are sequences of UTF-16 code units.
 */
module Text {

  datatype Option<+T> = None | Some(value: T) {
    function GetOr(default: T): T {
      match this
      case Some(v) => v
      case None => default
    }
  }

  /** `sub` occurs in `s` at position `i`. */
  predicate OccursAt(s: string, sub: string, i: int) {
    0 <= i && i + |sub| <= |s| && s[i..i + |sub|] == sub
  }

  /** `s.contains(sub)`: `sub` occurs at some position of `s`. */
  predicate Contains(s: string, sub: string) {
    exists i | 0 <= i <= |s| - |sub| :: OccursAt(s, sub, i)
  }

  /** Every character of an occurring string occurs in `s`. */
  lemma ContainsChars(s: string, sub: string, c: char)
    requires Contains(s, sub)
    requires c in sub
    ensures c in s
  {
    var i :| 0 <= i <= |s| - |sub| && OccursAt(s, sub, i);
    var j :| 0 <= j < |sub| && sub[j] == c;
    assert s[i + j] == c;
  }

  /** `s.startsWith(prefix)`. */
  predicate StartsWith(s: string, prefix: string) {
    |prefix| <= |s| && s[..|prefix|] == prefix
  }

  lemma StartsWithContains(s: string, prefix: string)
    requires StartsWith(s, prefix)
    ensures Contains(s, prefix)
  {
    assert OccursAt(s, prefix, 0);
  }

  /** Kotlin's `Char.isWhitespace()` on the JVM: `Character.isWhitespace(c) || Character.isSpaceChar(c)`. */
  predicate IsWhitespace(c: char) {
    || c == '\t' || c == '\n' || c == '\U{B}' || c == '\U{C}' || c == '\r'
    || ('\U{1C}' <= c <= '\U{1F}')
    || c == ' ' || c == '\U{A0}' || c == '\U{1680}'
    || ('\U{2000}' <= c <= '\U{200A}')
    || c == '\U{2028}' || c == '\U{2029}' || c == '\U{202F}' || c == '\U{205F}' || c == '\U{3000}'
  }

  /** `s.trim().isNotEmpty()` is `!IsBlank(s)`. */
  predicate IsBlank(s: string) {
    forall i | 0 <= i < |s| :: IsWhitespace(s[i])
  }

  /** Kotlin's `String.trim()`: drop leading and trailing whitespace. */
  function Trim(s: string): (r: string)
    ensures |r| <= |s|
    ensures r == [] || (!IsWhitespace(r[0]) && !IsWhitespace(r[|r| - 1]))
    decreases |s|
  {
    if s == [] then []
    else if IsWhitespace(s[0]) then Trim(s[1..])
    else if IsWhitespace(s[|s| - 1]) then Trim(s[..|s| - 1])
    else s
  }

  /** `s.trim().isNotEmpty()` holds exactly when some character of `s` is not whitespace. */
  lemma {:induction false} TrimEmptyIffBlank(s: string)
    ensures Trim(s) == [] <==> IsBlank(s)
    decreases |s|
  {
    if s == [] {
    } else if IsWhitespace(s[0]) {
      TrimEmptyIffBlank(s[1..]);
      assert IsBlank(s) <==> IsBlank(s[1..]) by {
        if IsBlank(s[1..]) {
          forall i | 0 <= i < |s| ensures IsWhitespace(s[i]) {
            if i > 0 { assert s[i] == s[1..][i - 1]; }
          }
        }
      }
    } else if IsWhitespace(s[|s| - 1]) {
      TrimEmptyIffBlank(s[..|s| - 1]);
      assert !IsBlank(s) && !IsBlank(s[..|s| - 1]) by {
        assert s[..|s| - 1][0] == s[0];
      }
    } else {
      assert !IsBlank(s);
    }
  }

  /** The character classes the two rsync progress regexes use. */
  datatype CharClass =
    | RegexSpace    // `\s`: [ \t\n\x0B\f\r]
    | Digit         // `\d`: [0-9]
    | DigitOrComma  // `[0-9,]`
    | NotLineEnd    // `.` without DOTALL: anything but \n, \r, U+0085, U+2028, U+2029

  predicate In(c: char, k: CharClass) {
    match k
    case RegexSpace => c == ' ' || c == '\t' || c == '\n' || c == '\U{B}' || c == '\U{C}' || c == '\r'
    case Digit => '0' <= c <= '9'
    case DigitOrComma => ('0' <= c <= '9') || c == ','
    case NotLineEnd => c != '\n' && c != '\r' && c != '\U{85}' && c != '\U{2028}' && c != '\U{2029}'
  }

  /** Every character of `s[lo..hi]` is in class `k`. */
  predicate AllIn(s: string, lo: int, hi: int, k: CharClass) {
    0 <= lo <= hi <= |s| && forall j | lo <= j < hi :: In(s[j], k)
  }

  /** End of the longest run of class `k` that starts at `i` (what a greedy `k*` consumes). */
  function RunEnd(s: string, i: nat, k: CharClass): (e: nat)
    requires i <= |s|
    ensures i <= e <= |s|
    ensures AllIn(s, i, e, k)
    ensures e == |s| || !In(s[e], k)
    decreases |s| - i
  {
    if i < |s| && In(s[i], k) then RunEnd(s, i + 1, k) else i
  }

  /** Start of the longest run of class `k` that ends at `j`. */
  function RunStart(s: string, j: nat, k: CharClass): (a: nat)
    requires j <= |s|
    ensures a <= j
    ensures AllIn(s, a, j, k)
    ensures a == 0 || !In(s[a - 1], k)
    decreases j
  {
    if 0 < j && In(s[j - 1], k) then RunStart(s, j - 1, k) else j
  }

  /** A run of class `k` from `i` that stops at `e` ends exactly where `RunEnd` does. */
  lemma RunEndIs(s: string, i: nat, e: nat, k: CharClass)
    requires i <= e <= |s|
    requires AllIn(s, i, e, k)
    requires e == |s| || !In(s[e], k)
    ensures RunEnd(s, i, k) == e
  {
  }

  /** A run of class `k` ending at `j` that starts right after a character outside `k` starts where `RunStart` says. */
  lemma RunStartIs(s: string, a: nat, j: nat, k: CharClass)
    requires a <= j <= |s|
    requires AllIn(s, a, j, k)
    requires a == 0 || !In(s[a - 1], k)
    ensures RunStart(s, j, k) == a
  {
  }

  /** `RunEnd` is the longest run: any run of class `k` from `i` ends no later. */
  lemma RunEndIsLongest(s: string, i: nat, e: nat, k: CharClass)
    requires i <= e <= |s|
    requires AllIn(s, i, e, k)
    ensures e <= RunEnd(s, i, k)
  {
  }

  /** `RunStart` is the longest run: any run of class `k` ending at `j` starts no earlier. */
  lemma RunStartIsLongest(s: string, a: nat, j: nat, k: CharClass)
    requires a <= j <= |s|
    requires AllIn(s, a, j, k)
    ensures RunStart(s, j, k) <= a
  {
  }

  /** Decimal value of a string of digits. */
  function DigitsValue(ds: string): (v: nat)
    requires AllIn(ds, 0, |ds|, Digit)
    decreases |ds|
  {
    if ds == [] then 0
    else DigitsValue(ds[..|ds| - 1]) * 10 + (ds[|ds| - 1] as int - '0' as int)
  }

  /** The value of the digits a greedy `\d*` takes from position `i`. */
  function DigitsFrom(s: string, i: nat): nat
    requires i <= |s|
  {
    var e := RunEnd(s, i, Digit);
    assert AllIn(s[i..e], 0, e - i, Digit) by {
      forall j | 0 <= j < e - i ensures In(s[i..e][j], Digit) {
        assert s[i..e][j] == s[i + j];
      }
    }
    DigitsValue(s[i..e])
  }

  const MaxInt: int := 0x7FFF_FFFF

  /** Kotlin's `String.toIntOrNull()` on an unsigned digit string: `None` when it overflows `Int`. */
  function ToIntOrNull(ds: string): (r: Option<int>)
    requires |ds| > 0 && AllIn(ds, 0, |ds|, Digit)
    ensures r.Some? <==> DigitsValue(ds) <= MaxInt
    ensures r.Some? ==> 0 <= r.value == DigitsValue(ds)
  {
    var v := DigitsValue(ds);
    if v <= MaxInt then Some(v) else None
  }

  /** `toIntOrNull` reads the text of a number back as that number exactly when it fits in `Int`. */
  lemma ToIntOrNullOfNatToString(n: nat)
    ensures n <= MaxInt ==> ToIntOrNull(NatToString(n)) == Some(n)
    ensures n > MaxInt ==> ToIntOrNull(NatToString(n)) == None
  {
    NatToStringRoundTrip(n);
  }

  function DigitChar(d: nat): (c: char)
    requires d < 10
    ensures In(c, Digit) && c as int - '0' as int == d
  {
    ('0' as int + d) as char
  }

  /** Decimal text of a natural number, as `Int.toString()` writes it. */
  function NatToString(n: nat): (s: string)
    ensures |s| > 0 && AllIn(s, 0, |s|, Digit)
    decreases n
  {
    if n < 10 then [DigitChar(n)] else NatToString(n / 10) + [DigitChar(n % 10)]
  }

  /** Decimal text of an integer, with a leading '-' when it is negative. */
  function IntToString(n: int): (s: string)
    ensures |s| > 0
    ensures n >= 0 <==> In(s[0], Digit)
  {
    if n >= 0 then NatToString(n) else "-" + NatToString(-n)
  }

  /** Reading back the text of a number gives that number. */
  lemma {:induction false} NatToStringRoundTrip(n: nat)
    ensures DigitsValue(NatToString(n)) == n
    decreases n
  {
    if n >= 10 {
      NatToStringRoundTrip(n / 10);
      var s := NatToString(n);
      assert s[..|s| - 1] == NatToString(n / 10);
    }
  }

  /**
   * The text of `n` written between `pre` and a text that does not start with
   * a digit is read back, by a greedy `\d+` starting after `pre`, as `n`.
   */
  lemma NatToStringReadsBack(pre: string, n: nat, post: string)
    requires post == [] || !In(post[0], Digit)
    ensures var s := pre + NatToString(n) + post;
            var j := |pre| + |NatToString(n)|;
            && RunEnd(s, |pre|, Digit) == j
            && DigitsValue(s[|pre|..j]) == n
  {
    var d := NatToString(n);
    var s := pre + d + post;
    var j := |pre| + |d|;
    assert s[|pre|..j] == d;
    assert AllIn(s, |pre|, j, Digit) by {
      forall k | |pre| <= k < j ensures In(s[k], Digit) {
        assert s[k] == d[k - |pre|];
      }
    }
    if j < |s| {
      assert s[j] == post[0];
    }
    RunEndIs(s, |pre|, j, Digit);
    NatToStringRoundTrip(n);
  }

  /**
   * The signed form: the text of an integer between `pre` and a non-digit
   * starts with '-' exactly when it is negative, and the digits after the
   * sign read back as its magnitude.
   */
  lemma IntToStringReadsBack(pre: string, n: int, post: string)
    requires post == [] || !In(post[0], Digit)
    ensures var s := pre + IntToString(n) + post;
            var i := |pre| + (if n < 0 then 1 else 0);
            var j := |pre| + |IntToString(n)|;
            && i <= j <= |s|
            && (n < 0 <==> s[|pre|] == '-')
            && RunEnd(s, i, Digit) == j
            && DigitsValue(s[i..j]) == (if n < 0 then -n else n)
  {
    var t := IntToString(n);
    var s := pre + t + post;
    assert s[|pre|] == t[0];
    if n < 0 {
      var d := NatToString(-n);
      assert t == "-" + d;
      assert s == (pre + "-") + d + post;
      NatToStringReadsBack(pre + "-", -n, post);
    } else {
      NatToStringReadsBack(pre, n, post);
    }
  }

  /** `StringBuilder.appendLine` for each line in turn: every line followed by '\n'. */
  function JoinLines(lines: seq<string>): (r: string)
    ensures |r| >= |lines|
    decreases |lines|
  {
    if lines == [] then "" else JoinLines(lines[..|lines| - 1]) + lines[|lines| - 1] + "\n"
  }

  /** Appending two runs of lines one after the other gives the text of both runs, in order. */
  lemma {:induction false} JoinLinesAppend(a: seq<string>, b: seq<string>)
    ensures JoinLines(a + b) == JoinLines(a) + JoinLines(b)
    decreases |b|
  {
    if b == [] {
      assert a + b == a;
    } else {
      var init := b[..|b| - 1];
      JoinLinesAppend(a, init);
      assert (a + b)[..|a + b| - 1] == a + init;
      assert (a + b)[|a + b| - 1] == b[|b| - 1];
    }
  }

  /**
   * Kotlin's `s.replace(pattern, replacement)`: every occurrence of `pattern`,
   * scanning left to right without overlap, is replaced.
   */
  function Replace(s: string, pattern: string, replacement: string): (r: string)
    requires |pattern| > 0
    ensures |replacement| <= |pattern| ==> |r| <= |s|
    decreases |s|
  {
    if |s| < |pattern| then s
    else if s[..|pattern|] == pattern then replacement + Replace(s[|pattern|..], pattern, replacement)
    else [s[0]] + Replace(s[1..], pattern, replacement)
  }
}
