/**
 * The text normalisation in `VersionAfterLastSpace` (util/version.go): a tool's
 * version banner is cut down to something a version parser accepts. Parsing
 * the result into a version value is a library call and not part of this model.
 */
module Version {
  import opened Strings

  /** What follows the last space, or the whole text when there is none. */
  function AfterLastSpace(str: string): (r: string)
    ensures ' ' !in r
    ensures |r| <= |str| && r == str[|str| - |r|..]
    ensures |r| == |str| || str[|str| - |r| - 1] == ' '
  {
    str[LastIndexOf(str, ' ') + 1..]
  }

  /** At most three dot-separated segments; the third keeps any further dots. */
  function Segments(str: string): (segs: seq<string>)
    ensures 1 <= |segs| <= 3
    ensures Join(segs, ".") == AfterLastSpace(str)
    ensures |segs| < 3 ==> !Contains(segs[|segs| - 1], ".")
  {
    JoinSplitN(AfterLastSpace(str), ".", 3);
    SplitNShortLast(AfterLastSpace(str), ".", 3);
    SplitN(AfterLastSpace(str), ".", 3)
  }

  /** The longest all-digit prefix of `s`. */
  function DigitPrefix(s: string): (r: string)
    ensures HasPrefix(s, r) && AllDigits(r)
    ensures r == s || !IsDigit(s[|r|])
  {
    if |s| == 0 || !IsDigit(s[0]) then ""
    else [s[0]] + DigitPrefix(s[1..])
  }

  /** A digit run ended by the end of the text or a non-digit is the longest one. */
  lemma {:induction false} DigitPrefixIs(s: string, i: nat)
    requires i <= |s| && AllDigits(s[..i])
    requires i == |s| || !IsDigit(s[i])
    ensures DigitPrefix(s) == s[..i]
  {
    if i > 0 {
      assert IsDigit(s[..i][0]);
      assert s[1..][..i - 1] == s[..i][1..];
      assert AllDigits(s[1..][..i - 1]);
      DigitPrefixIs(s[1..], i - 1);
      assert s[..i] == [s[0]] + s[1..][..i - 1];
    }
  }

  /** The last segment cut at its first non-digit; the others untouched. */
  function NormaliseLast(segs: seq<string>): (r: seq<string>)
    requires |segs| >= 1
    ensures |r| == |segs|
  {
    segs[..|segs| - 1] + [DigitPrefix(segs[|segs| - 1])]
  }

  /** The segments handed to the parser. */
  function Normalised(str: string): (segs: seq<string>)
    ensures |segs| == |Segments(str)|
  {
    NormaliseLast(Segments(str))
  }

  /**
   * `VersionAfterLastSpace` up to the parse: splits the final word, cuts
   * the last segment at its first non-digit, then rejoins.
   */
  method VersionText(str: string) returns (text: string)
    ensures text == Join(Normalised(str), ".")
  {
    var segments := Segments(str);
    segments := CutLast(segments);
    text := Join(segments, ".");
  }

  /** The scan over the last segment: on the first non-digit it is replaced by the part before it. */
  method CutLast(split: seq<string>) returns (segments: seq<string>)
    requires |split| >= 1
    ensures segments == NormaliseLast(split)
  {
    segments := split;
    var n := |segments|;
    var last := segments[n - 1];
    var i := 0;
    ghost var cut := |last|;
    while i < |last|
      invariant 0 <= i <= |last| && AllDigits(last[..i])
      invariant segments == split
    {
      if last[i] < '0' || last[i] > '9' {
        DigitPrefixIs(last, i);
        cut := i;
        segments := segments[n - 1 := last[..i]];
        break;
      }
      assert last[..i + 1] == last[..i] + [last[i]];
      i := i + 1;
    }
    if cut == |last| {
      assert last[..cut] == last;
      DigitPrefixIs(last, cut);
      assert segments[n - 1 := last] == segments;
    }
    assert segments == split[n - 1 := DigitPrefix(last)];
    UpdateLast(split, DigitPrefix(last));
  }

  lemma UpdateLast(s: seq<string>, x: string)
    requires |s| >= 1
    ensures s[|s| - 1 := x] == s[..|s| - 1] + [x]
  {
  }

  /** Only the last segment is touched, and afterwards it is all digits. */
  lemma NormalisedSegments(str: string)
    ensures Normalised(str)[..|Segments(str)| - 1] == Segments(str)[..|Segments(str)| - 1]
    ensures AllDigits(Normalised(str)[|Segments(str)| - 1])
    ensures HasPrefix(Segments(str)[|Segments(str)| - 1], Normalised(str)[|Segments(str)| - 1])
  {
    var segs := Segments(str);
    assert (segs[..|segs| - 1] + [DigitPrefix(segs[|segs| - 1])])[..|segs| - 1] == segs[..|segs| - 1];
  }

  /** A last segment that is already all digits is left alone. */
  lemma {:induction false} DigitPrefixOfDigits(s: string)
    requires AllDigits(s)
    ensures DigitPrefix(s) == s
  {
    assert s[..|s|] == s;
    DigitPrefixIs(s, |s|);
  }

  /**
   * A banner whose final word already ends in digits comes back as that
   * word, dots and all: the cut changes nothing and rejoining undoes the split.
   */
  lemma CleanVersionUnchanged(str: string)
    requires AllDigits(Segments(str)[|Segments(str)| - 1])
    ensures Join(Normalised(str), ".") == AfterLastSpace(str)
  {
    var segs := Segments(str);
    DigitPrefixOfDigits(segs[|segs| - 1]);
    assert NormaliseLast(segs) == segs[..|segs| - 1] + [segs[|segs| - 1]] == segs;
  }

  /**
   * Only the last segment can hold a dot: the text is cut at its first two dots,
   * so the major and minor parts are dot-free and the third keeps the rest.
   */
  lemma LeadingSegmentsDotFree(str: string, k: nat)
    requires k + 1 < |Segments(str)|
    ensures !Contains(Segments(str)[k], ".")
  {
    SplitNLeadingParts(AfterLastSpace(str), ".", 3, k);
  }

  /** Worked example: build metadata after the last number is dropped. */
  lemma VersionExample()
    ensures Join(Normalised("git version 2.7.4-rc1"), ".") == "2.7.4"
  {
    BannerNormalised();
    BannerJoin();
  }

  lemma BannerNormalised()
    ensures Normalised("git version 2.7.4-rc1") == ["2", "7", "4"]
  {
    BannerSegments();
    LastCutExample(Segments("git version 2.7.4-rc1"));
  }

  lemma LastCutExample(segs: seq<string>)
    requires segs == ["2", "7", "4-rc1"]
    ensures NormaliseLast(segs) == ["2", "7", "4"]
  {
    assert segs[2][..1] == "4";
    DigitPrefixIs(segs[2], 1);
  }

  lemma BannerSegments()
    ensures Segments("git version 2.7.4-rc1") == ["2", "7", "4-rc1"]
  {
    BannerWord();
    BannerSplit();
  }

  lemma BannerJoin()
    ensures Join(["2", "7", "4"], ".") == "2.7.4"
  {
    assert Join(["4"], ".") == "4";
    assert Join(["7", "4"], ".") == "7" + "." + "4";
    assert Join(["2", "7", "4"], ".") == "2" + "." + "7.4";
  }

  lemma BannerWord()
    ensures AfterLastSpace("git version 2.7.4-rc1") == "2.7.4-rc1"
  {
    var banner := "git version 2.7.4-rc1";
    assert banner[11] == ' ';
    assert banner[12..] == "2.7.4-rc1";
    assert forall j :: 11 < j < |banner| ==> banner[j] == banner[12..][j - 12];
    assert LastIndexOf(banner, ' ') == 11;
  }

  lemma BannerSplit()
    ensures SplitN("2.7.4-rc1", ".", 3) == ["2", "7", "4-rc1"]
  {
    assert "2.7.4-rc1"[1..2] == "." && "2.7.4-rc1"[0..1] == "2";
    IndexOfIs("2.7.4-rc1", ".", 1);
    assert "2.7.4-rc1"[2..] == "7.4-rc1";
    assert "7.4-rc1"[1..2] == "." && "7.4-rc1"[0..1] == "7";
    IndexOfIs("7.4-rc1", ".", 1);
    assert "7.4-rc1"[2..] == "4-rc1";
    assert SplitN("4-rc1", ".", 1) == ["4-rc1"];
    assert SplitN("7.4-rc1", ".", 2) == ["7"] + SplitN("4-rc1", ".", 1);
  }
}
