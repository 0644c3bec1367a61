/**
 * Aggregated error lists (util/errors.go): validators collect their messages
 * in a fixed order, and `JoinErrors` renders such a list as one line.
 */
module Errors {
  import opened Strings

  const ErrorSeparator := ", "

  /** `JoinErrors`: the messages in order with ", " between neighbours. */
  method JoinErrors(errs: seq<string>) returns (str: string)
    ensures str == Join(errs, ErrorSeparator)
  {
    str := "";
    for i := 0 to |errs|
      invariant str == Join(errs[..i], ErrorSeparator)
    {
      if i > 0 {
        str := str + ErrorSeparator;
      }
      JoinSnoc(errs[..i], errs[i], ErrorSeparator);
      assert errs[..i + 1] == errs[..i] + [errs[i]];
      str := str + errs[i];
    }
    assert errs[..|errs|] == errs;
  }

  /** An empty list renders as "" and a single error as exactly its message. */
  lemma JoinErrorsShort(m: string)
    ensures Join([], ErrorSeparator) == ""
    ensures Join([m], ErrorSeparator) == m
  {
  }

  /**
   * n messages render with exactly n-1 separators: nothing before the first
   * message and nothing after the last.
   */
  lemma JoinErrorsShape(errs: seq<string>)
    requires |errs| >= 1
    ensures |Join(errs, ErrorSeparator)| == SumLengths(errs) + 2 * (|errs| - 1)
    ensures HasPrefix(Join(errs, ErrorSeparator), errs[0])
    ensures |errs[|errs| - 1]| <= |Join(errs, ErrorSeparator)|
    ensures Join(errs, ErrorSeparator)[|Join(errs, ErrorSeparator)| - |errs[|errs| - 1]|..] == errs[|errs| - 1]
  {
    JoinLength(errs, ErrorSeparator);
    JoinEnds(errs, ErrorSeparator);
  }

  /**
   * The messages of the checks that failed, in check order: the shape of
   * every validator that appends one message per failed check.
   */
  function FailedChecks(checks: seq<string>, failed: seq<bool>): (errs: seq<string>)
    requires |failed| == |checks|
    ensures |errs| <= |checks|
  {
    if |checks| == 0 then []
    else (if failed[0] then [checks[0]] else []) + FailedChecks(checks[1..], failed[1..])
  }

  /** Four checks in a row, unfolded. */
  lemma FailedChecksFour(a: string, b: string, c: string, d: string, fa: bool, fb: bool, fc: bool, fd: bool)
    ensures FailedChecks([a, b, c, d], [fa, fb, fc, fd])
         == (if fa then [a] else []) + ((if fb then [b] else []) + ((if fc then [c] else []) + (if fd then [d] else [])))
  {
    assert [a, b, c, d][1..] == [b, c, d] && [fa, fb, fc, fd][1..] == [fb, fc, fd];
    FailedChecksThree(b, c, d, fb, fc, fd);
  }

  /** Three checks in a row, unfolded. */
  lemma FailedChecksThree(a: string, b: string, c: string, fa: bool, fb: bool, fc: bool)
    ensures FailedChecks([a, b, c], [fa, fb, fc])
         == (if fa then [a] else []) + ((if fb then [b] else []) + (if fc then [c] else []))
  {
    assert [a, b, c][1..] == [b, c] && [fa, fb, fc][1..] == [fb, fc];
    assert [b, c][1..] == [c] && [fb, fc][1..] == [fc];
    assert [c][1..] == [] && [fc][1..] == [];
    var last: seq<string> := if fc then [c] else [];
    assert FailedChecks([c], [fc]) == last + FailedChecks([], []);
    assert last + [] == last;
  }
}
