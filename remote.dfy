/**
 * Remote execution (remote/remote.go): the remote server description and its
 * validation, the decision whether to run remotely, the build environment for
 * the cross-compiled executable, the command line run on the server, and the
 * handler that serves tunnel requests from the remote process. SSH, SFTP and
 * `go build` are foreign and enter as parameters.
 */
module Remote {
  import opened Wrappers
  import opened Strings
  import opened Errors
  import opened RemotePipe
  import opened RemoteResources
  import opened ConfigData

  datatype Ssh = Ssh(user: string, port: int, pass: string, privateKey: string, sudo: bool)

  /** `RemoteServer`; a nil `SSH` pointer is `None`. */
  datatype RemoteServer = RemoteServer(host: string, os: string, arch: string, ssh: Option<Ssh>)

  const HostRequired := "Remote server 'host' required"
  const SshRequired := "Remote server 'ssh' required"
  const UserRequired := "Remote server 'ssh.user' required"
  const SecretRequired := "Remote server 'ssh.pass' or 'ssh.privateKey' required but not both"

  /** The order in which `validate` reports problems. */
  const ServerChecks := [HostRequired, SshRequired, UserRequired, SecretRequired]

  /** A server `validate` accepts: a host, and SSH settings with a user and exactly one secret. */
  predicate ValidServer(s: RemoteServer)
  {
    && s.host != ""
    && s.ssh.Some?
    && s.ssh.value.user != ""
    && ((s.ssh.value.pass == "") != (s.ssh.value.privateKey == ""))
  }

  /**
   * The problems with `s`: each message appears exactly when its condition
   * fails; without SSH settings none of their checks apply.
   */
  function ServerErrors(s: RemoteServer): (errs: seq<string>)
    ensures HostRequired in errs <==> s.host == ""
    ensures SshRequired in errs <==> s.ssh.None?
    ensures UserRequired in errs <==> s.ssh.Some? && s.ssh.value.user == ""
    ensures SecretRequired in errs <==> s.ssh.Some? && (s.ssh.value.pass == "") == (s.ssh.value.privateKey == "")
    ensures errs == [] <==> ValidServer(s)
  {
    ServerMessagesDistinct();
    (if s.host == "" then [HostRequired] else [])
    + match s.ssh
      case None => [SshRequired]
      case Some(ssh) =>
        (if ssh.user == "" then [UserRequired] else [])
        + (if (ssh.pass == "") == (ssh.privateKey == "") then [SecretRequired] else [])
  }

  lemma ServerMessagesDistinct()
    ensures HostRequired != SshRequired && HostRequired != UserRequired && HostRequired != SecretRequired
    ensures SshRequired != UserRequired && SshRequired != SecretRequired && UserRequired != SecretRequired
  {
    assert |HostRequired| == 29 && |SshRequired| == 28 && |UserRequired| == 33 && |SecretRequired| == 66;
  }

  /** Which of the checks, in order, `s` fails; the SSH checks only apply when there are SSH settings. */
  function ServerFailures(s: RemoteServer): (failed: seq<bool>)
    ensures |failed| == |ServerChecks|
  {
    [ s.host == "",
      s.ssh.None?,
      s.ssh.Some? && s.ssh.value.user == "",
      s.ssh.Some? && (s.ssh.value.pass == "") == (s.ssh.value.privateKey == "") ]
  }

  /** The problems are exactly the failed checks' messages, in check order. */
  lemma ServerErrorsInOrder(s: RemoteServer)
    ensures ServerErrors(s) == FailedChecks(ServerChecks, ServerFailures(s))
  {
    var f := ServerFailures(s);
    FailedChecksFour(HostRequired, SshRequired, UserRequired, SecretRequired, f[0], f[1], f[2], f[3]);
    if s.ssh.None? {
      assert [SshRequired] + ([] + []) == [SshRequired];
    } else {
      assert [] + ((if f[2] then [UserRequired] else []) + (if f[3] then [SecretRequired] else []))
          == (if f[2] then [UserRequired] else []) + (if f[3] then [SecretRequired] else []);
    }
  }

  /** `RemoteServer.validate`: appends one message per failed check. */
  method Validate(s: RemoteServer) returns (errs: seq<string>)
    ensures errs == ServerErrors(s)
  {
    errs := [];
    if s.host == "" {
      errs := errs + [HostRequired];
    }
    match s.ssh
    case None =>
      errs := errs + [SshRequired];
    case Some(ssh) =>
      if ssh.user == "" {
        errs := errs + [UserRequired];
      }
      if (ssh.pass == "") == (ssh.privateKey == "") {
        errs := errs + [SecretRequired];
      }
  }

  /** An empty host with both secrets set (and a user) gives exactly two errors, host first. */
  lemma HostAndSecretErrors(user: string, pass: string, key: string, port: int, sudo: bool)
    requires user != "" && pass != "" && key != ""
    ensures ServerErrors(RemoteServer("", "", "", Some(Ssh(user, port, pass, key, sudo)))) == [HostRequired, SecretRequired]
  {
  }

  /**
   * Whether to run remotely, given what decoding the `server` entry of the
   * configuration gave (`None` when it is absent or null): no server means no
   * remote, and an invalid one is an error listing its problems.
   */
  function RemoteFor(fetched: Result<Option<RemoteServer>>): (r: Result<Option<RemoteServer>>)
    ensures fetched.Err? ==> r == Err("Unable to fetch remote info: " + fetched.message)
    ensures fetched == Ok(None) ==> r == Ok(None)
    ensures fetched.Ok? && fetched.value.Some? ==>
      var s := fetched.value.value;
      && (r.Ok? <==> ValidServer(s))
      && (r.Ok? ==> r.value == Some(s))
      && (r.Err? ==> r.message == "Invalid remote server: " + Join(ServerErrors(s), ErrorSeparator))
  {
    match fetched
    case Err(e) => Err("Unable to fetch remote info: " + e)
    case Ok(None) => Ok(None)
    case Ok(Some(s)) =>
      if ServerErrors(s) != [] then Err("Invalid remote server: " + Join(ServerErrors(s), ErrorSeparator))
      else Ok(Some(s))
  }

  /** `RemoteIfPresent`: validates the decoded server and renders its problems with `JoinErrors`. */
  method RemoteIfPresent(fetched: Result<Option<RemoteServer>>) returns (r: Result<Option<RemoteServer>>)
    ensures r == RemoteFor(fetched)
  {
    if fetched.Err? {
      return Err("Unable to fetch remote info: " + fetched.message);
    }
    if fetched.value.None? {
      return Ok(None);
    }
    var errs := Validate(fetched.value.value);
    if |errs| > 0 {
      var joined := JoinErrors(errs);
      return Err("Invalid remote server: " + joined);
    }
    r := Ok(fetched.value);
  }

  // ---------------------------------------------------------------------
  // Building the executable for the server

  /** Entries of the environment that the build replaces. */
  predicate TargetEntry(e: string)
  {
    HasPrefix(e, "GOOS=") || HasPrefix(e, "GOARCH=")
  }

  /** The current environment, in order, without its `GOOS=` and `GOARCH=` entries. */
  function Inherited(environ: seq<string>): (r: seq<string>)
    ensures forall e :: e in r <==> e in environ && !TargetEntry(e)
    ensures |r| <= |environ|
  {
    if |environ| == 0 then []
    else if TargetEntry(environ[0]) then Inherited(environ[1..])
    else [environ[0]] + Inherited(environ[1..])
  }

  /** The filter keeps the relative order: filtering a concatenation concatenates the filtered parts. */
  lemma {:induction false} InheritedAppend(a: seq<string>, b: seq<string>)
    ensures Inherited(a + b) == Inherited(a) + Inherited(b)
  {
    if |a| > 0 {
      assert (a + b)[0] == a[0];
      assert (a + b)[1..] == a[1..] + b;
      InheritedAppend(a[1..], b);
      if TargetEntry(a[0]) {
        assert Inherited(a + b) == Inherited(a[1..] + b);
      } else {
        assert Inherited(a + b) == [a[0]] + Inherited(a[1..] + b);
        assert Inherited(a) == [a[0]] + Inherited(a[1..]);
      }
    } else {
      assert a + b == b;
    }
  }

  function TargetOs(s: RemoteServer): string
  {
    if s.os == "" then "linux" else s.os
  }

  function TargetArch(s: RemoteServer): string
  {
    if s.arch == "" then "amd64" else s.arch
  }

  /**
   * The environment handed to `go build` in `buildForRemote`: the inherited
   * entries, then the target OS and architecture (linux/amd64 by default).
   */
  method BuildEnv(environ: seq<string>, s: RemoteServer) returns (env: seq<string>)
    ensures env == Inherited(environ) + ["GOOS=" + TargetOs(s), "GOARCH=" + TargetArch(s)]
  {
    env := [];
    for i := 0 to |environ|
      invariant env == Inherited(environ[..i])
    {
      InheritedAppend(environ[..i], [environ[i]]);
      assert environ[..i + 1] == environ[..i] + [environ[i]];
      if !HasPrefix(environ[i], "GOOS=") && !HasPrefix(environ[i], "GOARCH=") {
        env := env + [environ[i]];
      }
    }
    assert environ[..|environ|] == environ;
    var osName := s.os;
    if osName == "" {
      osName := "linux";
    }
    var arch := s.arch;
    if arch == "" {
      arch := "amd64";
    }
    env := env + ["GOOS=" + osName, "GOARCH=" + arch];
  }

  // ---------------------------------------------------------------------
  // The command run on the server

  /** `path` without its trailing slashes. */
  function TrimTrailingSlashes(path: string): (r: string)
    ensures |r| <= |path| && r == path[..|r|]
    ensures r == "" || r[|r| - 1] != '/'
  {
    if |path| > 0 && path[|path| - 1] == '/' then TrimTrailingSlashes(path[..|path| - 1]) else path
  }

  /** `filepath.Base` on a Unix path: the last element, "." for "" and "/" for only slashes. */
  function Base(path: string): (r: string)
    ensures r != ""
    ensures r == "/" || '/' !in r
  {
    if path == "" then "."
    else
      var p := TrimTrailingSlashes(path);
      if p == "" then "/" else p[LastIndexOf(p, '/') + 1..]
  }

  /** The base of `dir/name` is `name`, for a plain file name. */
  lemma BaseOfJoined(dir: string, name: string)
    requires name != "" && '/' !in name
    ensures Base(dir + "/" + name) == name
  {
    var path := dir + "/" + name;
    assert TrimTrailingSlashes(path) == path;
    var k := LastIndexOf(path, '/');
    assert path[|dir|] == '/';
    assert forall c :: |dir| < c < |path| ==> path[c] == name[c - |dir| - 1];
    assert k == |dir|;
    assert path[k + 1..] == name;
  }

  /** Where the executable is copied on the server. */
  function RemoteExecutable(localFile: string): (r: string)
    ensures HasPrefix(r, "/tmp/") && (r[5..] == "/" || '/' !in r[5..])
  {
    "/tmp/" + Base(localFile)
  }

  /** `strings.Replace(s, "\\", "\\\\", -1)`. */
  function DoubleBackslashes(s: string): (r: string)
    ensures |r| >= |s|
  {
    if |s| == 0 then ""
    else (if s[0] == '\\' then "\\\\" else [s[0]]) + DoubleBackslashes(s[1..])
  }

  /** The reading a backslash-escaping parser gives: `\\` stands for one backslash. */
  function UndoubleBackslashes(s: string): string
  {
    if |s| == 0 then ""
    else if |s| >= 2 && s[0] == '\\' && s[1] == '\\' then "\\" + UndoubleBackslashes(s[2..])
    else [s[0]] + UndoubleBackslashes(s[1..])
  }

  /** Doubling the backslashes loses nothing: undoubling gives the directory back. */
  lemma {:induction false} UndoubleDouble(s: string)
    ensures UndoubleBackslashes(DoubleBackslashes(s)) == s
  {
    if |s| > 0 {
      var rest := DoubleBackslashes(s[1..]);
      UndoubleDouble(s[1..]);
      if s[0] == '\\' {
        assert DoubleBackslashes(s) == "\\\\" + rest;
        assert ("\\\\" + rest)[2..] == rest;
      } else {
        assert DoubleBackslashes(s) == [s[0]] + rest;
        assert ([s[0]] + rest)[1..] == rest;
      }
      assert s == [s[0]] + s[1..];
    }
  }

  /** The quoted `--override-local-dir` value. */
  function QuotedDir(dir: string): string
  {
    "\"" + DoubleBackslashes(dir) + "\""
  }

  /** The command line `RunRemotely` runs: the copied executable in remote mode, then our own arguments. */
  function RemoteCommand(localFile: string, baseLocalDir: string, args: seq<string>): string
    requires |args| >= 1
  {
    Join([RemoteExecutable(localFile), "--is-remote", "--override-local-dir", QuotedDir(baseLocalDir)] + args[1..], " ")
  }

  /** The executable with the remote-mode flags and the quoted local directory. */
  function RemotePrefix(localFile: string, baseLocalDir: string): string
  {
    RemoteExecutable(localFile) + (" " + "--is-remote" + " " + "--override-local-dir" + " ") + QuotedDir(baseLocalDir)
  }

  /**
   * The command line is the remote-mode prefix followed by the original
   * arguments (without the program name), each after one space.
   */
  lemma RemoteCommandShape(localFile: string, baseLocalDir: string, args: seq<string>)
    requires |args| >= 1
    ensures RemoteCommand(localFile, baseLocalDir, args)
         == RemotePrefix(localFile, baseLocalDir) + (if |args| == 1 then "" else " " + Join(args[1..], " "))
  {
    var head := [RemoteExecutable(localFile), "--is-remote", "--override-local-dir", QuotedDir(baseLocalDir)];
    JoinAppend(head, args[1..], " ");
    PrefixJoin(localFile, baseLocalDir);
  }

  lemma PrefixJoin(localFile: string, baseLocalDir: string)
    ensures Join([RemoteExecutable(localFile), "--is-remote", "--override-local-dir", QuotedDir(baseLocalDir)], " ")
         == RemotePrefix(localFile, baseLocalDir)
  {
    var x, q := RemoteExecutable(localFile), QuotedDir(baseLocalDir);
    JoinFour(x, "--is-remote", "--override-local-dir", q, " ");
    Regroup(x, " ", "--is-remote", "--override-local-dir", q);
  }

  lemma Regroup(x: string, sep: string, b: string, c: string, d: string)
    ensures x + sep + (b + sep + (c + sep + d)) == x + (sep + b + sep + c + sep) + d
  {
  }

  lemma JoinFour(a: string, b: string, c: string, d: string, sep: string)
    ensures Join([a, b, c, d], sep) == a + sep + (b + sep + (c + sep + d))
  {
    assert [a, b, c, d][1..] == [b, c, d];
    assert [b, c, d][1..] == [c, d];
    assert [c, d][1..] == [d];
    assert Join([d], sep) == d;
    assert Join([c, d], sep) == c + sep + Join([d], sep);
    assert Join([b, c, d], sep) == b + sep + Join([c, d], sep);
    assert Join([a, b, c, d], sep) == a + sep + Join([b, c, d], sep);
  }

  /** Joining a concatenation joins the two joins with one separator between them. */
  lemma {:induction false} JoinAppend(a: seq<string>, b: seq<string>, sep: string)
    requires |a| >= 1
    ensures Join(a + b, sep) == Join(a, sep) + (if |b| == 0 then "" else sep + Join(b, sep))
  {
    if |a| == 1 {
      if |b| > 0 {
        assert (a + b)[1..] == b;
      } else {
        assert a + b == a;
      }
    } else {
      assert (a + b)[1..] == a[1..] + b;
      JoinAppend(a[1..], b, sep);
    }
  }

  // ---------------------------------------------------------------------
  // Serving the remote process's tunnel requests

  const SendFilePrefix := "send-file "
  const SendFileSeparator := " --to-- "

  /**
   * `handleRemoteRequest`: `marshal` encodes the configuration document and
   * `sendFile(from, to)` copies a local file to the server, reporting any error.
   */
  function HandleRemoteRequest(request: string, values: Values, marshal: Values -> Result<string>,
                               sendFile: (string, string) -> Option<string>): (a: Answer)
    ensures request == "get-context-data" && marshal(values).Ok? ==> a == Answer(marshal(values).value, None)
    ensures request == "get-context-data" && marshal(values).Err? ==>
      a == Answer("", Some("Unable to marshal context data: " + marshal(values).message))
    ensures request != "get-context-data" && !HasPrefix(request, SendFilePrefix) ==>
      a == Answer("", Some("Unrecognized request: " + request))
    ensures request != "get-context-data" && HasPrefix(request, SendFilePrefix) ==>
      var files := Split(request[|SendFilePrefix|..], SendFileSeparator);
      && (|files| != 2 ==> a == Answer("", Some("Malformed request: " + request)))
      && (|files| == 2 ==> a == Answer("complete", sendFile(files[0], files[1])))
  {
    if request == "get-context-data" then
      match marshal(values)
      case Ok(text) => Answer(text, None)
      case Err(e) => Answer("", Some("Unable to marshal context data: " + e))
    else if HasPrefix(request, SendFilePrefix) then
      var files := Split(request[10..], SendFileSeparator);
      if |files| != 2 then Answer("", Some("Malformed request: " + request))
      else Answer("complete", sendFile(files[0], files[1]))
    else Answer("", Some("Unrecognized request: " + request))
  }

  /**
   * The send-file request that `Open` issues is understood as sent: the
   * handler copies exactly `localPath` to `remotePath`, provided no piece of
   * the separator can be read inside either path.
   */
  lemma SendFileRoundTrip(localPath: string, remotePath: string, values: Values,
                          marshal: Values -> Result<string>, sendFile: (string, string) -> Option<string>)
    requires !Contains(localPath + " --to--", SendFileSeparator)
    requires !Contains(remotePath, SendFileSeparator)
    ensures HandleRemoteRequest(SendFileRequest(localPath, remotePath), values, marshal, sendFile)
         == Answer("complete", sendFile(localPath, remotePath))
  {
    var request := SendFileRequest(localPath, remotePath);
    var body := localPath + SendFileSeparator + remotePath;
    assert request == SendFilePrefix + body;
    assert HasPrefix(request, SendFilePrefix);
    assert request[|SendFilePrefix|..] == body;
    assert request != "get-context-data" by {
      assert request[0] == 's';
    }
    BodySplits(localPath, remotePath);
  }

  /** The body of a send-file request splits at its separator into the two paths. */
  lemma BodySplits(localPath: string, remotePath: string)
    requires !Contains(localPath + " --to--", SendFileSeparator)
    requires !Contains(remotePath, SendFileSeparator)
    ensures Split(localPath + SendFileSeparator + remotePath, SendFileSeparator) == [localPath, remotePath]
  {
    var body := localPath + SendFileSeparator + remotePath;
    SeparatorFirstAt(localPath, remotePath);
    assert body[|localPath| + |SendFileSeparator|..] == remotePath;
    assert Split(remotePath, SendFileSeparator) == [remotePath];
    assert body[..|localPath|] == localPath;
  }

  /** The separator between the two paths is the first one in the request body. */
  lemma SeparatorFirstAt(localPath: string, remotePath: string)
    requires !Contains(localPath + " --to--", SendFileSeparator)
    ensures IndexOf(localPath + SendFileSeparator + remotePath, SendFileSeparator) == |localPath|
  {
    var body := localPath + SendFileSeparator + remotePath;
    var head := localPath + " --to--";
    assert body[|localPath|..|localPath| + |SendFileSeparator|] == SendFileSeparator;
    forall j | 0 <= j < |localPath|
      ensures !OccursAt(body, SendFileSeparator, j)
    {
      assert body[..|head|] == head;
      if OccursAt(body, SendFileSeparator, j) {
        assert body[j..j + |SendFileSeparator|] == head[j..j + |SendFileSeparator|];
        assert OccursAt(head, SendFileSeparator, j);
      }
    }
    IndexOfIs(body, SendFileSeparator, |localPath|);
  }
}
