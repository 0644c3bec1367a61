/**
 * The few routines of Go's `strings`, `bytes` and `strconv` packages that the
 * modelled code relies on, stated over `string` (a `seq<char>`, one char per
 * byte of the Go text).
 */
module Strings {

  /** `pat` occurs in `s` starting at index `i`. */
  predicate OccursAt(s: string, pat: string, i: int)
  {
    0 <= i && i + |pat| <= |s| && s[i..i + |pat|] == pat
  }

  predicate HasPrefix(s: string, prefix: string)
  {
    |prefix| <= |s| && s[..|prefix|] == prefix
  }

  predicate IsDigit(c: char)
  {
    '0' <= c <= '9'
  }

  predicate AllDigits(s: string)
  {
    forall i :: 0 <= i < |s| ==> IsDigit(s[i])
  }

  /** The first occurrence of `pat` at or after `from`, or -1. */
  function IndexFrom(s: string, pat: string, from: nat): (r: int)
    ensures r == -1 || (from <= r && OccursAt(s, pat, r))
    ensures r == -1 ==> forall j :: from <= j ==> !OccursAt(s, pat, j)
    ensures r >= 0 ==> forall j :: from <= j < r ==> !OccursAt(s, pat, j)
    decreases |s| - from
  {
    if from + |pat| > |s| then -1
    else if s[from..from + |pat|] == pat then from
    else IndexFrom(s, pat, from + 1)
  }

  /** `strings.Index` / `bytes.Index`: the first occurrence of `pat`, or -1. */
  function IndexOf(s: string, pat: string): (r: int)
    ensures r == -1 || OccursAt(s, pat, r)
    ensures r == -1 <==> forall j :: !OccursAt(s, pat, j)
    ensures r >= 0 ==> forall j :: j < r ==> !OccursAt(s, pat, j)
  {
    IndexFrom(s, pat, 0)
  }

  /** `strings.Contains` / `bytes.Contains`. */
  predicate Contains(s: string, pat: string)
  {
    IndexOf(s, pat) >= 0
  }

  /** `strings.LastIndex` for a one-character pattern: the last index of `c`, or -1. */
  function LastIndexOf(s: string, c: char): (r: int)
    ensures -1 <= r < |s|
    ensures r >= 0 ==> s[r] == c
    ensures forall j :: r < j < |s| ==> s[j] != c
  {
    if |s| == 0 then -1
    else if s[|s| - 1] == c then |s| - 1
    else LastIndexOf(s[..|s| - 1], c)
  }

  /** `strings.Split(s, sep)` for a non-empty separator: every occurrence, left to right. */
  function Split(s: string, sep: string): (parts: seq<string>)
    requires sep != []
    ensures |parts| >= 1
    decreases |s|
  {
    var i := IndexOf(s, sep);
    if i < 0 then [s] else [s[..i]] + Split(s[i + |sep|..], sep)
  }

  /** `strings.SplitN(s, sep, n)` for n > 0: at most n parts, the last one unsplit. */
  function SplitN(s: string, sep: string, n: nat): (parts: seq<string>)
    requires sep != [] && n > 0
    ensures 1 <= |parts| <= n
    decreases n
  {
    var i := IndexOf(s, sep);
    if n == 1 || i < 0 then [s] else [s[..i]] + SplitN(s[i + |sep|..], sep, n - 1)
  }

  /** `strings.Join`. */
  function Join(parts: seq<string>, sep: string): string
  {
    if |parts| == 0 then ""
    else if |parts| == 1 then parts[0]
    else parts[0] + sep + Join(parts[1..], sep)
  }

  function SumLengths(parts: seq<string>): nat
  {
    if |parts| == 0 then 0 else |parts[0]| + SumLengths(parts[1..])
  }

  function DigitChar(d: nat): (c: char)
    requires d < 10
    ensures IsDigit(c)
  {
    ('0' as int + d) as char
  }

  function DigitValue(c: char): (d: nat)
    requires IsDigit(c)
    ensures d < 10 && DigitChar(d) == c
  {
    (c as int - '0' as int)
  }

  /** `strconv.Itoa` on a non-negative value: its decimal digits, most significant first. */
  function Itoa(n: nat): (s: string)
    ensures |s| >= 1 && AllDigits(s)
  {
    if n < 10 then [DigitChar(n)] else Itoa(n / 10) + [DigitChar(n % 10)]
  }

  /** The value a string of decimal digits denotes (the inverse of Itoa). */
  function Atoi(s: string): nat
    requires AllDigits(s)
  {
    if |s| == 0 then 0 else Atoi(s[..|s| - 1]) * 10 + DigitValue(s[|s| - 1])
  }

  lemma {:induction false} AtoiItoa(n: nat)
    ensures Atoi(Itoa(n)) == n
  {
    if n >= 10 {
      var s := Itoa(n);
      assert s[..|s| - 1] == Itoa(n / 10);
      AtoiItoa(n / 10);
    }
  }

  /** Distinct counters give distinct decimal texts. */
  lemma ItoaInjective(a: nat, b: nat)
    requires a != b
    ensures Itoa(a) != Itoa(b)
  {
    AtoiItoa(a);
    AtoiItoa(b);
  }

  /** Re-joining the parts of `SplitN` with its separator gives the text back: only where the text is cut changes, never its content. */
  lemma {:induction false} JoinSplitN(s: string, sep: string, n: nat)
    requires sep != [] && n > 0
    ensures Join(SplitN(s, sep, n), sep) == s
    decreases n
  {
    var i := IndexOf(s, sep);
    if n > 1 && i >= 0 {
      var rest := s[i + |sep|..];
      var tail := SplitN(rest, sep, n - 1);
      JoinSplitN(rest, sep, n - 1);
      assert ([s[..i]] + tail)[1..] == tail;
      assert Join([s[..i]] + tail, sep) == s[..i] + sep + Join(tail, sep);
      assert s == s[..i] + sep + rest;
    }
  }

  /** With fewer than `n` parts, `SplitN` found no separator in its last part. */
  lemma {:induction false} SplitNShortLast(s: string, sep: string, n: nat)
    requires sep != [] && n > 0
    ensures |SplitN(s, sep, n)| < n ==> !Contains(SplitN(s, sep, n)[|SplitN(s, sep, n)| - 1], sep)
    decreases n
  {
    var i := IndexOf(s, sep);
    if n > 1 && i >= 0 {
      var tail := SplitN(s[i + |sep|..], sep, n - 1);
      assert SplitN(s, sep, n) == [s[..i]] + tail;
      SplitNShortLast(s[i + |sep|..], sep, n - 1);
    }
  }

  /** Every part of `SplitN` except the last is free of the separator. */
  lemma {:induction false} SplitNLeadingParts(s: string, sep: string, n: nat, k: nat)
    requires sep != [] && n > 0
    requires k + 1 < |SplitN(s, sep, n)|
    ensures !Contains(SplitN(s, sep, n)[k], sep)
    decreases n
  {
    var i := IndexOf(s, sep);
    assert n > 1 && i >= 0;
    var rest := s[i + |sep|..];
    var tail := SplitN(rest, sep, n - 1);
    assert SplitN(s, sep, n) == [s[..i]] + tail;
    if k == 0 {
      var p := s[..i];
      if Contains(p, sep) {
        var j := IndexOf(p, sep);
        assert OccursAt(p, sep, j);
        assert |p| == i && j + |sep| <= i;
        assert s[..i][j..j + |sep|] == s[j..j + |sep|];
        assert OccursAt(s, sep, j);
      }
    } else {
      SplitNLeadingParts(rest, sep, n - 1, k - 1);
    }
  }

  /** Joining with a separator inserts exactly one separator between neighbours. */
  lemma {:induction false} JoinLength(parts: seq<string>, sep: string)
    requires |parts| >= 1
    ensures |Join(parts, sep)| == SumLengths(parts) + (|parts| - 1) * |sep|
  {
    if |parts| > 1 {
      JoinLength(parts[1..], sep);
    }
  }

  /** Appending one more part adds one separator and that part at the end. */
  lemma {:induction false} JoinSnoc(parts: seq<string>, x: string, sep: string)
    ensures Join(parts + [x], sep) == if |parts| == 0 then x else Join(parts, sep) + sep + x
  {
    if |parts| > 1 {
      assert (parts + [x])[1..] == parts[1..] + [x];
      JoinSnoc(parts[1..], x, sep);
    } else if |parts| == 1 {
      assert (parts + [x])[1..] == [x];
    }
  }

  /** A join starts with the first part and ends with the last: no separator at either end. */
  lemma {:induction false} JoinEnds(parts: seq<string>, sep: string)
    requires |parts| >= 1
    ensures HasPrefix(Join(parts, sep), parts[0])
    ensures |parts[|parts| - 1]| <= |Join(parts, sep)|
    ensures Join(parts, sep)[|Join(parts, sep)| - |parts[|parts| - 1]|..] == parts[|parts| - 1]
  {
    if |parts| > 1 {
      JoinEnds(parts[1..], sep);
      var j := Join(parts, sep);
      assert j == parts[0] + sep + Join(parts[1..], sep);
      assert j[..|parts[0]|] == parts[0];
    }
  }

  /** An occurrence inside a prefix is found by Index in the whole text at the same place. */
  lemma IndexOfExtend(s: string, t: string, pat: string)
    requires Contains(s, pat)
    ensures IndexOf(s + t, pat) == IndexOf(s, pat)
  {
    var i := IndexOf(s, pat);
    var u := s + t;
    assert u[i..i + |pat|] == s[i..i + |pat|];
    assert OccursAt(u, pat, i);
    forall j | j < i
      ensures !OccursAt(u, pat, j)
    {
      if OccursAt(u, pat, j) {
        assert j + |pat| <= |s|;
        assert s[j..j + |pat|] == u[j..j + |pat|];
        assert OccursAt(s, pat, j);
      }
    }
  }

  /** An occurrence with none before it is the one Index reports. */
  lemma IndexOfIs(s: string, pat: string, i: int)
    requires OccursAt(s, pat, i)
    requires forall j :: 0 <= j < i ==> !OccursAt(s, pat, j)
    ensures IndexOf(s, pat) == i
  {
  }
}
