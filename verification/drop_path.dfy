/**
 * The path taken from a folder dropped on a selection box: the first dropped
 * item, with a leading `file` scheme cut off (five characters) and every
 * `%20` turned back into a space. Other items and other escapes are ignored.
 */
module DropPath {
  import opened Text

  const EncodedSpace: string := "%20"

  /** Kotlin's `s.drop(n)`: everything after the first `n` characters, or "" when there are no more. */
  function Drop(s: string, n: nat): (r: string)
    ensures |s| <= n ==> r == []
    ensures n < |s| ==> s[..n] + r == s
  {
    if |s| <= n then [] else s[n..]
  }

  /** The dropped-path transform of `onDrop`. */
  function NormalizeDroppedPath(s: string): (r: string)
    ensures |r| <= |s|
  {
    if StartsWith(s, "file") then Replace(Drop(s, 5), EncodedSpace, " ") else s
  }

  /** How a file URI writes a path: every space as `%20`. */
  function EncodeSpaces(p: string): (r: string)
    ensures ' ' !in r
    ensures forall c | c in r :: c in p || c in EncodedSpace
    decreases |p|
  {
    if p == [] then []
    else (if p[0] == ' ' then EncodedSpace else [p[0]]) + EncodeSpaces(p[1..])
  }

  /** Decoding undoes the encoding for a path with no '%' of its own. */
  lemma {:induction false} DecodeEncodeSpaces(p: string)
    requires '%' !in p
    ensures Replace(EncodeSpaces(p), EncodedSpace, " ") == p
    decreases |p|
  {
    if p != [] {
      var rest := EncodeSpaces(p[1..]);
      assert '%' !in p[1..] by {
        forall c | c in p[1..] ensures c != '%' {
          assert c in p;
        }
      }
      DecodeEncodeSpaces(p[1..]);
      if p[0] == ' ' {
        assert EncodeSpaces(p) == EncodedSpace + rest;
        assert (EncodedSpace + rest)[..3] == EncodedSpace;
        assert (EncodedSpace + rest)[3..] == rest;
      } else {
        var e := [p[0]] + rest;
        assert EncodeSpaces(p) == e;
        assert p[0] in p;
        if |e| >= 3 {
          assert e[..3][0] == p[0];
        }
        assert e[1..] == rest;
      }
    }
  }

  /**
   * A path dropped as a `file:` URI comes back as the path itself, spaces
   * included, when it has no '%' of its own.
   */
  lemma DroppedFileUriRoundTrip(p: string)
    requires '%' !in p
    ensures NormalizeDroppedPath("file:" + EncodeSpaces(p)) == p
  {
    var uri := "file:" + EncodeSpaces(p);
    assert uri[..4] == "file";
    assert Drop(uri, 5) == EncodeSpaces(p);
    DecodeEncodeSpaces(p);
  }

  /** The first character of a replacement result: the replacement when the pattern starts there, else the character itself. */
  lemma ReplaceFirst(t: string)
    requires |t| > 0
    ensures var r := Replace(t, EncodedSpace, " ");
            && |r| > 0
            && r[0] == (if |t| >= 3 && t[..3] == EncodedSpace then ' ' else t[0])
            && (!(|t| >= 3 && t[..3] == EncodedSpace) ==> r == [t[0]] + Replace(t[1..], EncodedSpace, " "))
  {
  }

  /** After decoding, no `%20` is left anywhere, not even one formed by neighbours of a decoded space. */
  lemma {:induction false} DecodedHasNoEncodedSpace(s: string)
    ensures !Contains(Replace(s, EncodedSpace, " "), EncodedSpace)
    decreases |s|
  {
    var r := Replace(s, EncodedSpace, " ");
    if |s| < 3 {
      assert r == s;
    } else if s[..3] == EncodedSpace {
      var tail := Replace(s[3..], EncodedSpace, " ");
      DecodedHasNoEncodedSpace(s[3..]);
      assert r == " " + tail;
      forall i | 0 <= i <= |r| - 3 ensures !OccursAt(r, EncodedSpace, i) {
        if i > 0 {
          assert r[i..i + 3] == tail[i - 1..i + 2];
          assert !OccursAt(tail, EncodedSpace, i - 1);
        } else {
          assert r[0] == ' ';
        }
      }
    } else {
      var tail := Replace(s[1..], EncodedSpace, " ");
      DecodedHasNoEncodedSpace(s[1..]);
      ReplaceFirst(s);
      assert r == [s[0]] + tail;
      forall i | 0 <= i <= |r| - 3 ensures !OccursAt(r, EncodedSpace, i) {
        if i > 0 {
          assert r[i..i + 3] == tail[i - 1..i + 2];
          assert !OccursAt(tail, EncodedSpace, i - 1);
        } else if s[0] == '%' {
          ReplaceFirst(s[1..]);
          if s[1] == '2' {
            assert |s[1..]| >= 3 ==> s[1..][..3][0] == '2';
            assert tail == [s[1]] + Replace(s[2..], EncodedSpace, " ");
            ReplaceFirst(s[2..]);
            assert s[..3] == [s[0], s[1], s[2]];
            assert r[2] != '0';
          }
          assert r[..3] != EncodedSpace by {
            assert r[1] != '2' || r[2] != '0';
          }
        }
      }
    }
  }

  /** A dropped `file` URI never keeps an encoded space. */
  lemma DroppedUriHasNoEncodedSpace(s: string)
    requires StartsWith(s, "file")
    ensures !Contains(NormalizeDroppedPath(s), EncodedSpace)
  {
    DecodedHasNoEncodedSpace(Drop(s, 5));
  }
}
