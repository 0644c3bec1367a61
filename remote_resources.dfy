/**
 * Resources on the remote side (context/remote_resources.go): a local file is
 * read by asking the local process, over the tunnel, to copy it into a fresh
 * file under the remote temporary directory, and then opening that copy.
 */
module RemoteResources {
  import opened Wrappers
  import opened Strings
  import opened Streams
  import opened RemotePipe

  /** What `filepath.Join` puts before a file name: the directory and one separator, if any. */
  function DirPrefix(dir: string): (r: string)
    ensures HasPrefix(r, dir)
  {
    if dir == "" || dir[|dir| - 1] == '/' then dir else dir + "/"
  }

  /** `filepath.Join(dir, name)` for a plain file name. */
  function JoinPath(dir: string, name: string): (r: string)
    ensures HasPrefix(r, dir) && |r| <= |dir| + 1 + |name|
    ensures |name| <= |r| && r[|r| - |name|..] == name
  {
    DirPrefix(dir) + name
  }

  /** The copy that the `n`-th `Open` asks for. */
  function TempFile(tempDir: string, n: nat): (r: string)
    ensures HasPrefix(r, DirPrefix(tempDir))
    ensures '/' !in r[|DirPrefix(tempDir)|..]
  {
    var name := "temp-file-" + Itoa(n);
    assert forall i :: 0 <= i < |name| ==> name[i] != '/' by {
      assert forall i :: 10 <= i < |name| ==> name[i] == Itoa(n)[i - 10];
    }
    JoinPath(tempDir, name)
  }

  /** The tunnel request asking the local side to copy `localPath` to `remotePath`. */
  function SendFileRequest(localPath: string, remotePath: string): string
  {
    "send-file " + localPath + " --to-- " + remotePath
  }

  /** What opening or reading a file yields; `Panicked` is the tunnel's own crash. */
  datatype FileResult = Contents(data: string) | Failed(message: string) | Panicked

  /** The outcome of opening the copy (the filesystem is a parameter), kept as is. */
  function FromDisk(outcome: Result<string>): FileResult
  {
    match outcome
    case Ok(data) => Contents(data)
    case Err(e) => Failed(e)
  }

  /** What `Open` yields once the tunnel has answered with `reply`. */
  function AfterRequest(reply: Reply, outcome: Result<string>): (r: FileResult)
    ensures reply.Success? ==> r == FromDisk(outcome)
    ensures reply.Failure? ==> r == Failed("Failed to obtain file from remote: " + reply.message)
    ensures reply.Crash? ==> r == Panicked
  {
    match reply
    case Success(_) => FromDisk(outcome)
    case Failure(m) => Failed("Failed to obtain file from remote: " + m)
    case Crash => Panicked
  }

  class Resources {
    const tempDir: string
    const pipe: LocalToRemotePipe
    var counter: nat
    /** Every temporary path handed out so far. */
    ghost var used: set<string>

    ghost predicate Valid()
      reads this
    {
      used == set n: nat | 1 <= n <= counter :: TempFile(tempDir, n)
    }

    /** `newRemoteResources`. */
    constructor (tempDir: string, pipe: LocalToRemotePipe)
      ensures Valid()
      ensures this.tempDir == tempDir && this.pipe == pipe && counter == 0
    {
      this.tempDir := tempDir;
      this.pipe := pipe;
      counter := 0;
      used := {};
    }

    /**
     * `Open`: takes the next counter value, asks for the copy, and opens it;
     * `disk` is what opening a path yields once the copy has been made.
     * The path is one never used before.
     */
    method Open(localPath: string, disk: string -> Result<string>) returns (r: FileResult)
      requires Valid()
      modifies this, pipe, pipe.stdout
      ensures Valid()
      ensures counter == old(counter) + 1
      ensures TempFile(tempDir, counter) !in old(used)
      ensures r == AfterRequest(
        RequestOutcome(old(pipe.input), old(pipe.counter), pipe.stdout.fault, SendFileRequest(localPath, TempFile(tempDir, counter))),
        disk(TempFile(tempDir, counter)))
      ensures var request := SendFileRequest(localPath, TempFile(tempDir, counter));
        var sent := !Contains(request, "\n") && pipe.stdout.fault.None?;
        && pipe.counter == old(pipe.counter) + (if Contains(request, "\n") then 0 else 1)
        && pipe.stdout.data == old(pipe.stdout.data) + (if sent then RequestFrame(Itoa(pipe.counter), request) else "")
        && pipe.input == (if sent then LeftOver(old(pipe.input), Itoa(pipe.counter)) else old(pipe.input))
    {
      counter := counter + 1;
      var tempFile := TempFile(tempDir, counter);
      TempFileFresh(tempDir, counter, old(counter));
      used := used + {tempFile};
      var reply := pipe.Request(SendFileRequest(localPath, tempFile));
      match reply
      case Success(_) =>
        r := FromDisk(disk(tempFile));
      case Failure(m) =>
        r := Failed("Failed to obtain file from remote: " + m);
      case Crash =>
        r := Panicked;
    }

    /** `ReadFile`: the contents of the opened copy, or Open's failure unchanged. */
    method ReadFile(localPath: string, disk: string -> Result<string>) returns (r: FileResult)
      requires Valid()
      modifies this, pipe, pipe.stdout
      ensures Valid()
      ensures counter == old(counter) + 1
      ensures TempFile(tempDir, counter) !in old(used)
      ensures r == AfterRequest(
        RequestOutcome(old(pipe.input), old(pipe.counter), pipe.stdout.fault, SendFileRequest(localPath, TempFile(tempDir, counter))),
        disk(TempFile(tempDir, counter)))
      ensures var request := SendFileRequest(localPath, TempFile(tempDir, counter));
        var sent := !Contains(request, "\n") && pipe.stdout.fault.None?;
        && pipe.counter == old(pipe.counter) + (if Contains(request, "\n") then 0 else 1)
        && pipe.stdout.data == old(pipe.stdout.data) + (if sent then RequestFrame(Itoa(pipe.counter), request) else "")
        && pipe.input == (if sent then LeftOver(old(pipe.input), Itoa(pipe.counter)) else old(pipe.input))
    {
      r := Open(localPath, disk);
    }
  }

  /** Two texts with the same prefix are equal exactly when what follows it is. */
  lemma SamePrefix(p: string, x: string, y: string)
    requires p + x == p + y
    ensures x == y
  {
    assert (p + x)[|p|..] == x;
    assert (p + y)[|p|..] == y;
  }

  /** Distinct counter values name distinct temporary files. */
  lemma TempFileInjective(tempDir: string, a: nat, b: nat)
    requires a != b
    ensures TempFile(tempDir, a) != TempFile(tempDir, b)
  {
    ItoaInjective(a, b);
    var p := DirPrefix(tempDir) + "temp-file-";
    if TempFile(tempDir, a) == TempFile(tempDir, b) {
      assert TempFile(tempDir, a) == p + Itoa(a);
      assert TempFile(tempDir, b) == p + Itoa(b);
      SamePrefix(p, Itoa(a), Itoa(b));
    }
  }

  /** The path of the `n`-th Open is none of the first `m < n` ones. */
  lemma TempFileFresh(tempDir: string, n: nat, m: nat)
    requires m < n
    ensures TempFile(tempDir, n) !in set k: nat | 1 <= k <= m :: TempFile(tempDir, k)
  {
    forall k: nat | 1 <= k <= m
      ensures TempFile(tempDir, k) != TempFile(tempDir, n)
    {
      TempFileInjective(tempDir, k, n);
    }
  }
}
