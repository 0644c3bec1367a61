/**
 * The std-pipe tunnel (context/remote_pipe.go). The remote agent is the
 * requester: it writes one request line with a fresh id to its stdout and reads
 * its stdin until the matching end frame arrives. The controlling side is the
 * responder: every chunk of the agent's output is scanned for the first request
 * line, a handler answers it, and a begin/payload/end frame goes back.
 */
module RemotePipe {
  import opened Wrappers
  import opened Strings
  import opened Streams

  const RequestTag := "[syst-request-"
  const BeginTag := "[syst-response-begin-"
  const EndTag := "[syst-response-end-"
  const ErrorPrefix := "ERROR: "

  function RequestFrame(id: string, text: string): string
  {
    RequestTag + id + "]" + text + "\n"
  }

  function BeginMarker(id: string): string
  {
    BeginTag + id + "]\n"
  }

  function EndMarker(id: string): string
  {
    "\n" + EndTag + id + "]\n"
  }

  /** A handler's Go `(string, error)` result; the error wins when present. */
  datatype Answer = Answer(text: string, err: Option<string>)

  function Payload(a: Answer): string
  {
    if a.err.Some? then ErrorPrefix + a.err.value else a.text
  }

  /** The frame the responder writes back for request `id`. */
  function ResponseFrame(id: string, a: Answer): string
  {
    BeginMarker(id) + Payload(a) + EndMarker(id)
  }

  /**
   * How `Request` ends for its caller: a value, an error message, or a Go
   * runtime panic (slicing `buf[begin:end]` with begin > end).
   */
  datatype Reply = Success(value: string) | Failure(message: string) | Crash

  /** What the requester should report for a handler's answer. */
  function Expected(a: Answer): Reply
  {
    if a.err.Some? then Failure(a.err.value) else Success(a.text)
  }

  // ---------------------------------------------------------------------
  // Requester side

  /** Outcome of the read loop: the accumulated buffer, or the read error. */
  datatype Awaited = Received(buf: string, rest: seq<ReadResult>) | ReadError(reason: string, rest: seq<ReadResult>)

  /** Keep reading until `buf` contains `end`; an exhausted reader reports io.EOF. */
  function Await(buf: string, input: seq<ReadResult>, end: string): (r: Awaited)
    ensures r.Received? ==> Contains(r.buf, end) && HasPrefix(r.buf, buf)
    decreases |input|
  {
    if Contains(buf, end) then Received(buf, input)
    else if |input| == 0 then ReadError("EOF", [])
    else match input[0]
      case Bytes(c) =>
        var r := Await(buf + c, input[1..], end);
        assert r.Received? ==> r.buf[..|buf|] == (buf + c)[..|buf|];
        r
      case ReadFailed(e) => ReadError(e, input[1..])
  }

  /** The text between the first begin marker and the first end marker. */
  function Extract(buf: string, id: string): Reply
    requires Contains(buf, EndMarker(id))
  {
    Between(buf, BeginMarker(id), EndMarker(id))
  }

  /** `Extract` with the two markers as plain strings. */
  function Between(buf: string, begin: string, end: string): Reply
    requires Contains(buf, end)
  {
    var b := IndexOf(buf, begin);
    if b < 0 then Failure("Beginning of response not found")
    else
      var start := b + |begin|;
      var e := IndexOf(buf, end);
      if start > e then Crash
      else
        var str := buf[start..e];
        if HasPrefix(str, ErrorPrefix) then Failure(str[|ErrorPrefix|..]) else Success(str)
  }

  /**
   * What `Extract` reports, read off the buffer: no begin marker is an error,
   * and a begin marker overlapping the first end marker panics.
   */
  lemma ExtractOutcome(buf: string, id: string)
    requires Contains(buf, EndMarker(id))
    ensures !Contains(buf, BeginMarker(id)) ==> Extract(buf, id) == Failure("Beginning of response not found")
    ensures Extract(buf, id).Crash? <==>
      Contains(buf, BeginMarker(id)) && IndexOf(buf, EndMarker(id)) < IndexOf(buf, BeginMarker(id)) + |BeginMarker(id)|
  {
  }

  /** Otherwise the value, or the error after `ERROR: `, is exactly what the two markers enclose. */
  lemma ExtractEnclosed(buf: string, id: string)
    requires Contains(buf, EndMarker(id))
    ensures Extract(buf, id).Success? ==>
      && OccursAt(buf, BeginMarker(id) + Extract(buf, id).value + EndMarker(id), IndexOf(buf, BeginMarker(id)))
      && !HasPrefix(Extract(buf, id).value, ErrorPrefix)
    ensures Extract(buf, id).Failure? && Contains(buf, BeginMarker(id)) ==>
      OccursAt(buf, BeginMarker(id) + ErrorPrefix + Extract(buf, id).message + EndMarker(id), IndexOf(buf, BeginMarker(id)))
  {
    BetweenEnclosed(buf, BeginMarker(id), EndMarker(id));
  }

  lemma BetweenEnclosed(buf: string, B: string, E: string)
    requires Contains(buf, E)
    ensures Between(buf, B, E).Success? ==>
      OccursAt(buf, B + Between(buf, B, E).value + E, IndexOf(buf, B)) && !HasPrefix(Between(buf, B, E).value, ErrorPrefix)
    ensures Between(buf, B, E).Failure? && Contains(buf, B) ==>
      OccursAt(buf, B + ErrorPrefix + Between(buf, B, E).message + E, IndexOf(buf, B))
  {
    var b, end := IndexOf(buf, B), IndexOf(buf, E);
    if 0 <= b && b + |B| <= end {
      var str := buf[b + |B|..end];
      FramedSlice(buf, b, B, end, E);
      if HasPrefix(str, ErrorPrefix) {
        PrefixRegroup(B, ErrorPrefix, str, E);
        assert Between(buf, B, E) == Failure(str[|ErrorPrefix|..]);
      } else {
        assert Between(buf, B, E) == Success(str);
      }
    }
  }

  lemma PrefixRegroup(w: string, pre: string, s: string, e: string)
    requires HasPrefix(s, pre)
    ensures w + pre + s[|pre|..] + e == w + s + e
  {
    assert s == pre + s[|pre|..];
  }

  /** `w` at `b` and `e` at `end`, with nothing overlapping, frame `s[b + |w|..end]`. */
  lemma FramedSlice(s: string, b: nat, w: string, end: nat, e: string)
    requires OccursAt(s, w, b) && OccursAt(s, e, end) && b + |w| <= end
    ensures OccursAt(s, w + s[b + |w|..end] + e, b)
  {
    assert s[b..end + |e|] == s[b..b + |w|] + s[b + |w|..end] + s[end..end + |e|];
  }

  /** What a request with id `id` reports when its reader delivers `input`. */
  function ReplyTo(input: seq<ReadResult>, id: string): Reply
  {
    var aw := Await("", input, EndMarker(id));
    if aw.Received? then Extract(aw.buf, id) else Failure("Error reading response: " + aw.reason)
  }

  /** The reads a request with id `id` leaves unconsumed. */
  function LeftOver(input: seq<ReadResult>, id: string): (r: seq<ReadResult>)
    ensures |r| <= |input| && r == input[|input| - |r|..]
  {
    AwaitLeavesSuffix("", input, EndMarker(id));
    Await("", input, EndMarker(id)).rest
  }

  /** The read loop consumes a prefix of its reads and leaves the rest. */
  lemma {:induction false} AwaitLeavesSuffix(buf: string, input: seq<ReadResult>, end: string)
    ensures var rest := Await(buf, input, end).rest;
      |rest| <= |input| && rest == input[|input| - |rest|..]
    decreases |input|
  {
    if !Contains(buf, end) && |input| > 0 && input[0].Bytes? {
      var c := input[0].chunk;
      AwaitLeavesSuffix(buf + c, input[1..], end);
      var rest := Await(buf + c, input[1..], end).rest;
      assert input[1..][|input| - 1 - |rest|..] == input[|input| - |rest|..];
    }
  }

  /**
   * The reply `Request(request)` gives on a pipe whose next reads are `input`,
   * whose counter stands at `counter` and whose stdout fails with `fault`.
   */
  function RequestOutcome(input: seq<ReadResult>, counter: nat, fault: Option<WriteError>, request: string): (r: Reply)
    ensures Contains(request, "\n") ==> r == Failure("Request contains a newline")
    ensures r.Success? || r.Crash? ==> !Contains(request, "\n") && fault.None?
  {
    if Contains(request, "\n") then Failure("Request contains a newline")
    else if fault.Some? then Failure("Unable to write request to stdout: " + fault.value.Message())
    else ReplyTo(input, Itoa(counter + 1))
  }

  class LocalToRemotePipe {
    var input: seq<ReadResult>
    const stdout: Sink
    var counter: nat

    constructor (input: seq<ReadResult>, stdout: Sink)
      ensures this.input == input && this.stdout == stdout && counter == 0
    {
      this.input := input;
      this.stdout := stdout;
      counter := 0;
    }

    method Request(request: string) returns (r: Reply)
      modifies this, stdout
      ensures r == RequestOutcome(old(input), old(counter), stdout.fault, request)
      ensures Contains(request, "\n") ==>
        && r == Failure("Request contains a newline")
        && counter == old(counter) && input == old(input) && stdout.data == old(stdout.data)
      ensures !Contains(request, "\n") ==>
        && counter == old(counter) + 1
        && stdout.data == old(stdout.data) + (if stdout.fault.None? then RequestFrame(Itoa(counter), request) else "")
      ensures !Contains(request, "\n") && stdout.fault.Some? ==>
        r == Failure("Unable to write request to stdout: " + stdout.fault.value.Message()) && input == old(input)
      ensures !Contains(request, "\n") && stdout.fault.None? ==>
        r == ReplyTo(old(input), Itoa(counter)) && input == LeftOver(old(input), Itoa(counter))
    {
      if IndexOf(request, "\n") >= 0 {
        return Failure("Request contains a newline");
      }
      counter := counter + 1;
      var id := Itoa(counter);
      var werr := stdout.Write(RequestFrame(id, request));
      if werr.Some? {
        return Failure("Unable to write request to stdout: " + werr.value.Message());
      }
      var expectedEnd := EndMarker(id);
      var buf := "";
      while IndexOf(buf, expectedEnd) < 0
        invariant counter == old(counter) + 1
        invariant stdout.data == old(stdout.data) + RequestFrame(id, request)
        invariant Await(buf, input, expectedEnd) == Await("", old(input), expectedEnd)
        decreases |input|
      {
        if |input| == 0 {
          return Failure("Error reading response: EOF");
        }
        var next := input[0];
        input := input[1..];
        match next
        case ReadFailed(e) =>
          return Failure("Error reading response: " + e);
        case Bytes(c) =>
          buf := buf + c;
      }
      r := Extract(buf, id);
    }
  }

  // ---------------------------------------------------------------------
  // Responder side: the request pattern `\[syst-request-(\d*)\](.*)\n`

  /** A match of the request pattern starting at `at`, with its two groups. */
  datatype Match = Match(at: nat, id: string, body: string)

  /** Regular-expression meaning of a match at `i` with groups `id` and `body`. */
  predicate IsRequestAt(p: string, i: int, id: string, body: string)
  {
    OccursAt(p, RequestFrame(id, body), i) && AllDigits(id) && '\n' !in body
  }

  /** The number of consecutive digits in `p` from index `j`. */
  function DigitRun(p: string, j: nat): (d: nat)
    requires j <= |p|
    ensures j + d <= |p|
    ensures AllDigits(p[j..j + d])
    ensures j + d == |p| || !IsDigit(p[j + d])
    decreases |p| - j
  {
    if j == |p| || !IsDigit(p[j]) then 0
    else
      var d := DigitRun(p, j + 1);
      assert p[j..j + 1 + d] == [p[j]] + p[j + 1..j + 1 + d];
      1 + d
  }

  function MatchAt(p: string, i: nat): Option<Match>
  {
    if !OccursAt(p, RequestTag, i) then None
    else
      var j := i + |RequestTag|;
      var k := j + DigitRun(p, j);
      if k < |p| && p[k] == ']' then
        var nl := IndexFrom(p, "\n", k + 1);
        if nl < 0 then None else Some(Match(i, p[j..k], p[k + 1..nl]))
      else None
  }

  /** Leftmost match at or after `from` (Go's `FindSubmatch` scans left to right). */
  function FindFrom(p: string, from: nat): Option<Match>
    decreases |p| - from
  {
    if from > |p| then None
    else if MatchAt(p, from).Some? then MatchAt(p, from)
    else FindFrom(p, from + 1)
  }

  function FindRequest(p: string): Option<Match>
  {
    FindFrom(p, 0)
  }

  /** The responder's reply to a chunk: the frame for its first request line, if any. */
  function ResponseTo(p: string, handler: string -> Answer): Option<string>
  {
    var m := FindRequest(p);
    if m.Some? then Some(ResponseFrame(m.value.id, handler(m.value.body))) else None
  }

  class RemoteToLocalPipeListener {
    const remoteStdin: Sink
    const handler: string -> Answer

    constructor (remoteStdin: Sink, handler: string -> Answer)
      ensures this.remoteStdin == remoteStdin && this.handler == handler
    {
      this.remoteStdin := remoteStdin;
      this.handler := handler;
    }

    /** `io.Writer.Write` on the agent's output; always consumes all of `p`. */
    method Write(p: string) returns (n: nat, err: Option<string>)
      modifies remoteStdin
      ensures n == |p|
      ensures ResponseTo(p, handler).None? ==> remoteStdin.data == old(remoteStdin.data) && err == None
      ensures ResponseTo(p, handler).Some? ==>
        && remoteStdin.data == old(remoteStdin.data) + (if remoteStdin.fault.None? then ResponseTo(p, handler).value else "")
        && err == (if remoteStdin.fault.Some? && remoteStdin.fault.value.OtherError?
                   then Some("Failure writing remote response: " + remoteStdin.fault.value.reason)
                   else None)
    {
      var m := FindRequest(p);
      if m.None? {
        return |p|, None;
      }
      var id := m.value.id;
      var resp := BeginMarker(id);
      var answer := handler(m.value.body);
      if answer.err.Some? {
        resp := resp + ErrorPrefix + answer.err.value + "\n";
      } else {
        resp := resp + answer.text + "\n";
      }
      resp := resp + EndTag + id + "]\n";
      assert resp == ResponseFrame(id, answer);
      var werr := remoteStdin.Write(resp);
      if werr.Some? && werr.value.OtherError? {
        return |p|, Some("Failure writing remote response: " + werr.value.reason);
      }
      return |p|, None;
    }
  }

  // ---------------------------------------------------------------------
  // The matcher agrees with the pattern's meaning

  lemma MatchAtSound(p: string, i: nat)
    requires MatchAt(p, i).Some?
    ensures MatchAt(p, i).value.at == i
    ensures IsRequestAt(p, i, MatchAt(p, i).value.id, MatchAt(p, i).value.body)
  {
    var j := i + |RequestTag|;
    var k := j + DigitRun(p, j);
    var nl := IndexFrom(p, "\n", k + 1);
    assert MatchAt(p, i) == Some(Match(i, p[j..k], p[k + 1..nl]));
    NoNewlineBefore(p, k + 1, nl);
    FrameFromPieces(p, i, k, nl);
  }

  /** The text up to the first newline after `from` holds no newline. */
  lemma NoNewlineBefore(p: string, from: nat, nl: int)
    requires nl == IndexFrom(p, "\n", from) && nl >= 0
    ensures '\n' !in p[from..nl]
  {
    forall c | from <= c < nl
      ensures p[c] != '\n'
    {
      assert !OccursAt(p, "\n", c);
      assert p[c..c + 1] == [p[c]];
    }
  }

  /** Reassembling a request line from the pieces MatchAt cuts out. */
  lemma FrameFromPieces(p: string, i: nat, k: nat, nl: nat)
    requires OccursAt(p, RequestTag, i) && i + |RequestTag| <= k < nl < |p|
    requires p[k] == ']' && p[nl] == '\n'
    ensures p[i..nl + 1] == RequestFrame(p[i + |RequestTag|..k], p[k + 1..nl])
  {
    var j := i + |RequestTag|;
    assert p[nl..nl + 1] == "\n";
    assert p[k..k + 1] == "]";
    assert p[i..nl + 1] == p[i..j] + p[j..k] + p[k..k + 1] + p[k + 1..nl] + p[nl..nl + 1];
  }

  lemma MatchAtComplete(p: string, i: nat, id: string, body: string)
    requires IsRequestAt(p, i, id, body)
    ensures MatchAt(p, i) == Some(Match(i, id, body))
  {
    var j := i + |RequestTag|;
    var k := j + |id|;
    var nl := k + 1 + |body|;
    PiecesFromFrame(p, i, id, body);
    DigitRunIs(p, j, |id|);
    NewlineAfterBody(p, k + 1, nl);
  }

  /** Cutting a request line found at `i` into the pieces MatchAt looks at. */
  lemma PiecesFromFrame(p: string, i: nat, id: string, body: string)
    requires OccursAt(p, RequestFrame(id, body), i) && AllDigits(id)
    ensures OccursAt(p, RequestTag, i)
    ensures p[i + |RequestTag|..i + |RequestTag| + |id|] == id
    ensures AllDigits(p[i + |RequestTag|..i + |RequestTag| + |id|])
    ensures p[i + |RequestTag| + |id|] == ']'
    ensures p[i + |RequestTag| + |id| + 1..i + |RequestTag| + |id| + 1 + |body|] == body
    ensures p[i + |RequestTag| + |id| + 1 + |body|] == '\n'
  {
    var f := RequestFrame(id, body);
    var t := |RequestTag|;
    var n := |f|;
    assert n == t + |id| + |body| + 2;
    assert p[i..i + n] == f;
    SliceOfSlice(p, i, n, 0, t);
    assert f[..t] == RequestTag;
    SliceOfSlice(p, i, n, t, t + |id|);
    assert f[t..t + |id|] == id;
    SliceOfSlice(p, i, n, t + |id| + 1, t + |id| + 1 + |body|);
    assert f[t + |id| + 1..t + |id| + 1 + |body|] == body;
    assert p[i + t + |id|] == f[t + |id|];
    assert p[i + n - 1] == f[n - 1];
  }

  lemma SliceOfSlice(s: string, i: nat, n: nat, a: nat, b: nat)
    requires i + n <= |s| && a <= b <= n
    ensures s[i..i + n][a..b] == s[i + a..i + b]
  {
    var x, y := s[i..i + n][a..b], s[i + a..i + b];
    assert |x| == |y|;
    assert forall c :: 0 <= c < |x| ==> x[c] == y[c];
  }

  /** The first newline at or after `from` is at `nl` when none comes earlier. */
  lemma NewlineAfterBody(p: string, from: nat, nl: nat)
    requires from <= nl < |p| && p[nl] == '\n' && '\n' !in p[from..nl]
    ensures IndexFrom(p, "\n", from) == nl
  {
    forall c | from <= c < nl
      ensures !OccursAt(p, "\n", c)
    {
      assert p[c] == p[from..nl][c - from];
    }
    assert p[nl..nl + 1] == "\n";
    assert OccursAt(p, "\n", nl);
  }

  /** A digit run that ends at a non-digit is the one DigitRun measures. */
  lemma {:induction false} DigitRunIs(p: string, j: nat, d: nat)
    requires j + d < |p|
    requires AllDigits(p[j..j + d]) && !IsDigit(p[j + d])
    ensures DigitRun(p, j) == d
    decreases d
  {
    if d > 0 {
      assert p[j] == p[j..j + d][0];
      assert p[j + 1..j + 1 + (d - 1)] == p[j..j + d][1..];
      DigitRunIs(p, j + 1, d - 1);
    }
  }

  /** FindFrom reports the leftmost match at or after `from`, and None only when there is none. */
  lemma {:induction false} FindFromLeftmost(p: string, from: nat)
    ensures FindFrom(p, from).Some? ==>
      && from <= FindFrom(p, from).value.at
      && IsRequestAt(p, FindFrom(p, from).value.at, FindFrom(p, from).value.id, FindFrom(p, from).value.body)
      && forall j, id, body :: from <= j < FindFrom(p, from).value.at ==> !IsRequestAt(p, j, id, body)
    ensures FindFrom(p, from).None? ==> forall j, id, body :: from <= j ==> !IsRequestAt(p, j, id, body)
    decreases |p| - from
  {
    if from > |p| {
      forall j, id, body | from <= j
        ensures !IsRequestAt(p, j, id, body)
      {
        assert |RequestFrame(id, body)| > 0;
      }
    } else if MatchAt(p, from).Some? {
      MatchAtSound(p, from);
    } else {
      FindFromLeftmost(p, from + 1);
      forall id, body
        ensures !IsRequestAt(p, from, id, body)
      {
        if IsRequestAt(p, from, id, body) {
          MatchAtComplete(p, from, id, body);
        }
      }
    }
  }

  /** The responder answers a chunk exactly when the chunk holds a request line. */
  lemma ResponseOnlyToRequests(p: string, handler: string -> Answer)
    ensures ResponseTo(p, handler).Some? <==> exists j, id, body :: 0 <= j && IsRequestAt(p, j, id, body)
  {
    FindFromLeftmost(p, 0);
    var m := FindRequest(p);
    if m.Some? {
      assert IsRequestAt(p, m.value.at, m.value.id, m.value.body);
    }
  }

  /** The request line the requester writes is found whole, as the first match. */
  lemma RequestLineIsFound(id: string, text: string)
    requires AllDigits(id) && '\n' !in text
    ensures FindRequest(RequestFrame(id, text)) == Some(Match(0, id, text))
  {
    var f := RequestFrame(id, text);
    assert f[0..|f|] == f;
    MatchAtComplete(f, 0, id, text);
  }

  // ---------------------------------------------------------------------
  // Reading the response back

  /** The condition under which a payload travels intact inside a frame. */
  predicate Deliverable(id: string, a: Answer)
  {
    && !Contains("\n" + Payload(a) + "\n", EndMarker(id))
    && (a.err.None? ==> !HasPrefix(a.text, ErrorPrefix))
  }

  /** The first end marker in a response frame is its terminator. */
  lemma FrameEndIndex(id: string, a: Answer)
    requires '\n' !in id
    requires !Contains("\n" + Payload(a) + "\n", EndMarker(id))
    ensures IndexOf(ResponseFrame(id, a), EndMarker(id)) == |BeginMarker(id)| + |Payload(a)|
  {
    var F, E := ResponseFrame(id, a), EndMarker(id);
    var t := |BeginMarker(id)| + |Payload(a)|;
    assert F[t..t + |E|] == E;
    forall j | 0 <= j < t
      ensures !OccursAt(F, E, j)
    {
      NoEarlyEnd(id, a, j);
    }
    IndexOfIs(F, E, t);
  }

  /** No end marker starts inside the begin marker or the payload of a frame. */
  lemma NoEarlyEnd(id: string, a: Answer, j: nat)
    requires '\n' !in id
    requires !Contains("\n" + Payload(a) + "\n", EndMarker(id))
    requires j < |BeginMarker(id)| + |Payload(a)|
    ensures !OccursAt(ResponseFrame(id, a), EndMarker(id), j)
  {
    var E := EndMarker(id);
    var W := BeginTag + id + "]";
    var Q := "\n" + Payload(a) + "\n";
    var V := EndTag + id + "]";
    var F := ResponseFrame(id, a);
    FrameLayout(id, a);
    if j < |W| {
      NotAtBeginMarker(id, W, F, E, j);
    } else if j + |E| <= |W| + |Q| {
      NotInsidePayload(W, Q, F, E, j);
    } else {
      NotAcrossTerminator(id, W, Q, F, j);
    }
  }

  /** A response frame seen as begin tag, newline-wrapped payload, end tag and newline. */
  lemma FrameLayout(id: string, a: Answer)
    ensures ResponseFrame(id, a) == (BeginTag + id + "]") + ("\n" + Payload(a) + "\n") + (EndTag + id + "]") + "\n"
    ensures ResponseFrame(id, a)[..|BeginTag + id + "]"|] == BeginTag + id + "]"
    ensures ResponseFrame(id, a)[|BeginTag + id + "]"|..|BeginTag + id + "]"| + |"\n" + Payload(a) + "\n"|] == "\n" + Payload(a) + "\n"
  {
    var W, P, V := BeginTag + id + "]", Payload(a), EndTag + id + "]";
    MarkerParts(id);
    RegroupFrame(W, P, V, "\n");
    SlicesOfFour(W, "\n" + P + "\n", V, "\n");
  }

  /** The markers are the bracketed tags with their newlines. */
  lemma MarkerParts(id: string)
    ensures BeginMarker(id) == (BeginTag + id + "]") + "\n"
    ensures EndMarker(id) == "\n" + (EndTag + id + "]") + "\n"
  {
    assert "]\n" == "]" + "\n";
  }

  lemma RegroupFrame(w: string, p: string, v: string, nl: string)
    ensures (w + nl) + p + (nl + v + nl) == w + (nl + p + nl) + v + nl
  {
  }

  lemma SlicesOfFour(w: string, q: string, v: string, t: string)
    ensures (w + q + v + t)[..|w|] == w
    ensures (w + q + v + t)[|w|..|w| + |q|] == q
  {
  }

  lemma NotAtBeginMarker(id: string, w: string, f: string, e: string, j: nat)
    requires '\n' !in id && w == BeginTag + id + "]" && e == EndMarker(id) && j < |w|
    requires |w| <= |f| && f[..|w|] == w
    ensures !OccursAt(f, e, j)
  {
    assert '\n' !in BeginTag;
    assert f[j] == w[j] != '\n';
    if j + |e| <= |f| {
      assert f[j..j + |e|][0] == f[j];
    }
  }

  lemma NotInsidePayload(w: string, q: string, f: string, e: string, j: nat)
    requires |w| <= j && j + |e| <= |w| + |q| && !Contains(q, e)
    requires |w| + |q| <= |f| && f[|w|..|w| + |q|] == q
    ensures !OccursAt(f, e, j)
  {
    SliceOfSlice(f, |w|, |q|, j - |w|, j - |w| + |e|);
    assert f[j..j + |e|] == q[j - |w|..j - |w| + |e|];
    assert !OccursAt(q, e, j - |w|);
  }

  lemma NotAcrossTerminator(id: string, w: string, q: string, f: string, j: nat)
    requires '\n' !in id
    requires |q| >= 2 && q[|q| - 1] == '\n'
    requires f == w + q + (EndTag + id + "]") + "\n"
    requires |w| <= j < |w| + |q| - 1 && j + |EndMarker(id)| > |w| + |q|
    ensures !OccursAt(f, EndMarker(id), j)
  {
    var v := EndTag + id + "]";
    var e := EndMarker(id);
    assert e == "\n" + v + "\n";
    var t := |w| + |q| - 1;
    var m := t - j;
    assert '\n' !in EndTag;
    assert 1 <= m <= |e| - 2;
    assert e[m] == v[m - 1] != '\n';
    assert f[t] == '\n';
    if j + |e| <= |f| {
      assert f[j..j + |e|][m] == f[t];
    }
  }

  /** Extracting from a whole, well-formed frame gives back the handler's answer. */
  lemma ExtractFrame(id: string, a: Answer)
    requires '\n' !in id && Deliverable(id, a)
    ensures Contains(ResponseFrame(id, a), EndMarker(id))
    ensures Extract(ResponseFrame(id, a), id) == Expected(a)
  {
    var B, P, E := BeginMarker(id), Payload(a), EndMarker(id);
    var F := ResponseFrame(id, a);
    FrameEndIndex(id, a);
    assert F[..|B|] == B;
    assert OccursAt(F, B, 0);
    IndexOfIs(F, B, 0);
    assert F[|B|..|B| + |P|] == P;
    if a.err.Some? {
      assert HasPrefix(P, ErrorPrefix);
      assert P[|ErrorPrefix|..] == a.err.value;
    }
  }

  /** Once the stream holds the end marker, the read loop stops with all it read so far. */
  lemma {:induction false} AwaitCollects(buf: string, input: seq<ReadResult>, end: string)
    requires AllBytes(input) && Contains(buf + Flatten(input), end)
    ensures Await(buf, input, end).Received?
    ensures AllBytes(Await(buf, input, end).rest)
    ensures Await(buf, input, end).buf + Flatten(Await(buf, input, end).rest) == buf + Flatten(input)
    decreases |input|
  {
    assert buf + "" == buf;
    if !Contains(buf, end) {
      assert input != [];
      var c := input[0].chunk;
      assert AllBytes(input[1..]);
      assert buf + Flatten(input) == (buf + c) + Flatten(input[1..]);
      AwaitCollects(buf + c, input[1..], end);
    }
  }

  lemma ContainsExtend(s: string, t: string, pat: string)
    requires Contains(s, pat)
    ensures Contains(s + t, pat)
  {
    IndexOfExtend(s, t, pat);
  }

  /** Text appended after a complete response does not change what is extracted. */
  lemma ExtractExtends(buf: string, more: string, id: string)
    requires Contains(buf, EndMarker(id)) && Contains(buf, BeginMarker(id))
    ensures Contains(buf + more, EndMarker(id))
    ensures Extract(buf + more, id) == Extract(buf, id)
  {
    BetweenExtends(buf, more, BeginMarker(id), EndMarker(id));
  }

  lemma BetweenExtends(buf: string, more: string, B: string, E: string)
    requires Contains(buf, E) && Contains(buf, B)
    ensures Contains(buf + more, E)
    ensures Between(buf + more, B, E) == Between(buf, B, E)
  {
    var u := buf + more;
    IndexOfExtend(buf, more, E);
    IndexOfExtend(buf, more, B);
    var end := IndexOf(buf, E);
    var b := IndexOf(buf, B);
    assert IndexOf(u, E) == end && IndexOf(u, B) == b && 0 <= b && 0 <= end;
    var start := b + |B|;
    if start <= end {
      assert u[start..end] == buf[start..end];
    }
  }

  /** The shortest prefix of a stream that holds the end marker. */
  function Shortest(s: string, end: string): (r: string)
    requires Contains(s, end)
    ensures Contains(r, end)
  {
    var e := IndexOf(s, end);
    var r := s[..e + |end|];
    assert r[e..e + |end|] == s[e..e + |end|];
    assert OccursAt(r, end, e);
    r
  }

  /**
   * The reply depends only on the bytes delivered, not on how the reads cut
   * them, as long as the begin marker arrives before the end marker completes.
   */
  lemma ReplyFromStream(input: seq<ReadResult>, id: string)
    requires AllBytes(input) && Contains(Flatten(input), EndMarker(id))
    requires Contains(Shortest(Flatten(input), EndMarker(id)), BeginMarker(id))
    ensures ReplyTo(input, id) == Extract(Shortest(Flatten(input), EndMarker(id)), id)
  {
    var S, E := Flatten(input), EndMarker(id);
    assert "" + S == S;
    AwaitCollects("", input, E);
    var b := Await("", input, E).buf;
    var P := Shortest(S, E);
    ShortestIsPrefix(S, b, E);
    ExtractExtends(P, b[|P|..], id);
  }

  /** Any prefix of a stream that holds the end marker extends the shortest such prefix. */
  lemma ShortestIsPrefix(s: string, b: string, end: string)
    requires Contains(s, end) && Contains(b, end)
    requires |b| <= |s| && b == s[..|b|]
    ensures |Shortest(s, end)| <= |b| && b == Shortest(s, end) + b[|Shortest(s, end)|..]
  {
    var ib := IndexOf(b, end);
    assert OccursAt(b, end, ib);
    assert b[ib..ib + |end|] == s[..|b|][ib..ib + |end|];
    assert s[..|b|][ib..ib + |end|] == s[ib..ib + |end|];
    assert OccursAt(s, end, ib);
    var P := Shortest(s, end);
    assert |P| <= |b|;
    assert b[..|P|] == P;
  }

  /** Two chunkings of the same stream get the same reply. */
  lemma ChunkingIrrelevant(first: seq<ReadResult>, second: seq<ReadResult>, id: string)
    requires AllBytes(first) && AllBytes(second) && Flatten(first) == Flatten(second)
    requires Contains(Flatten(first), EndMarker(id))
    requires Contains(Shortest(Flatten(first), EndMarker(id)), BeginMarker(id))
    ensures ReplyTo(first, id) == ReplyTo(second, id)
  {
    ReplyFromStream(first, id);
    ReplyFromStream(second, id);
  }

  /**
   * Without the begin marker ahead of the first end marker the split does
   * matter: the same bytes, an end marker followed by a begin marker, panic
   * when read at once and fail when read in two pieces.
   */
  lemma ChunkingMatters(id: string)
    ensures ReplyTo([Bytes(EndMarker(id) + BeginMarker(id))], id) == Crash
    ensures ReplyTo([Bytes(EndMarker(id)), Bytes(BeginMarker(id))], id) == Failure("Beginning of response not found")
  {
    EndMarkerFirst(id);
    ReadAtOnce(EndMarker(id), BeginMarker(id));
    ReadInPieces(EndMarker(id), BeginMarker(id));
    assert |BeginMarker(id)| > |EndMarker(id)|;
    assert IndexOf(EndMarker(id), BeginMarker(id)) == -1;
  }

  /** The end marker starts with a newline, so the empty buffer cannot hold it. */
  lemma EndMarkerFirst(id: string)
    ensures !Contains("", EndMarker(id)) && IndexOf(EndMarker(id), EndMarker(id)) == 0
  {
    var E := EndMarker(id);
    assert !OccursAt("", E, 0);
    assert OccursAt(E, E, 0);
    IndexOfIs(E, E, 0);
  }

  lemma ReadAtOnce(E: string, B: string)
    requires !Contains("", E) && B != []
    ensures Await("", [Bytes(E + B)], E) == Received(E + B, [])
    ensures IndexOf(E + B, E) == 0
    ensures 0 <= IndexOf(E + B, B) && IndexOf(E + B, B) + |B| > IndexOf(E + B, E)
  {
    assert "" + (E + B) == E + B;
    assert (E + B)[..|E|] == E;
    assert OccursAt(E + B, E, 0);
    IndexOfIs(E + B, E, 0);
    assert (E + B)[|E|..|E| + |B|] == B;
    assert OccursAt(E + B, B, |E|);
  }

  lemma ReadInPieces(E: string, B: string)
    requires !Contains("", E) && IndexOf(E, E) == 0
    ensures Await("", [Bytes(E), Bytes(B)], E) == Received(E, [Bytes(B)])
  {
    assert "" + E == E;
    assert [Bytes(E), Bytes(B)][1..] == [Bytes(B)];
  }

  /** A failing read before the end marker has arrived fails the request with its error. */
  lemma {:induction false} ReadErrorFails(buf: string, before: seq<ReadResult>, reason: string, after: seq<ReadResult>, end: string)
    requires AllBytes(before) && !Contains(buf + Flatten(before), end)
    ensures Await(buf, before + [ReadFailed(reason)] + after, end) == ReadError(reason, after)
    decreases |before|
  {
    var input := before + [ReadFailed(reason)] + after;
    if Contains(buf, end) {
      ContainsExtend(buf, Flatten(before), end);
    } else if |before| == 0 {
      assert input[1..] == after;
    } else {
      var c := before[0].chunk;
      assert input[1..] == before[1..] + [ReadFailed(reason)] + after;
      assert buf + Flatten(before) == (buf + c) + Flatten(before[1..]);
      ReadErrorFails(buf + c, before[1..], reason, after, end);
    }
  }

  /** A reader that runs dry before the end marker fails the request with io.EOF. */
  lemma {:induction false} EofFails(buf: string, input: seq<ReadResult>, end: string)
    requires AllBytes(input) && !Contains(buf + Flatten(input), end)
    ensures Await(buf, input, end) == ReadError("EOF", [])
    decreases |input|
  {
    if Contains(buf, end) {
      ContainsExtend(buf, Flatten(input), end);
    } else if |input| > 0 {
      var c := input[0].chunk;
      assert AllBytes(input[1..]);
      assert buf + Flatten(input) == (buf + c) + Flatten(input[1..]);
      EofFails(buf + c, input[1..], end);
    }
  }

  /**
   * The tunnel round trip: the responder answers the request line of request
   * number `n` with a frame, and the requester, reading that frame in any
   * chunking (followed by anything), reports exactly the handler's answer.
   */
  lemma TunnelRoundTrip(n: nat, text: string, handler: string -> Answer, input: seq<ReadResult>, extra: string)
    requires '\n' !in text && Deliverable(Itoa(n), handler(text))
    requires AllBytes(input) && Flatten(input) == ResponseFrame(Itoa(n), handler(text)) + extra
    ensures ResponseTo(RequestFrame(Itoa(n), text), handler) == Some(ResponseFrame(Itoa(n), handler(text)))
    ensures ReplyTo(input, Itoa(n)) == Expected(handler(text))
  {
    var id := Itoa(n);
    RequestLineIsFound(id, text);
    assert '\n' !in id by {
      assert forall c :: 0 <= c < |id| ==> IsDigit(id[c]);
    }
    FrameIsReplied(id, handler(text), input, extra);
  }

  /** A response frame, in whatever reads and with whatever follows, gives the handler's answer. */
  lemma FrameIsReplied(id: string, a: Answer, input: seq<ReadResult>, extra: string)
    requires '\n' !in id && Deliverable(id, a)
    requires AllBytes(input) && Flatten(input) == ResponseFrame(id, a) + extra
    ensures ReplyTo(input, id) == Expected(a)
  {
    var F := ResponseFrame(id, a);
    var E := EndMarker(id);
    ExtractFrame(id, a);
    FrameEndIndex(id, a);
    IndexOfExtend(F, extra, E);
    assert IndexOf(F + extra, E) + |E| == |F|;
    assert Shortest(F + extra, E) == (F + extra)[..|F|] == F;
    StartsWith(BeginMarker(id), Payload(a), E);
    ReplyFromStream(input, id);
  }

  lemma StartsWith(w: string, p: string, e: string)
    ensures OccursAt(w + p + e, w, 0)
  {
    assert (w + p + e)[..|w|] == w;
  }

}
