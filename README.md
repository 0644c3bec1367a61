# systrument core, modelled in Dafny

systrument is a provisioning tool written in Go. A user's program links the
library and is run with JSON configuration files. The files are templated,
decoded and merged into one configuration document. If the document names a
remote server, the tool does three things:

- it cross-compiles the program for that server;
- it copies it there over SSH;
- it re-runs it in "remote mode".

The remote copy has no configuration files and no local resources. It gets
both by sending request lines over its own stdout. The controlling process
answers over the SSH session's stdin; this channel is the *std-pipe tunnel*.

This project models the sequential core of that machinery, one module per
source file:

| module | file | source |
|---|---|---|
| `ConfigData` | `data.dfy` | `data/data.go`: the keyed merge of a decoded object into the document, and template-then-merge |
| `RemotePipe` | `remote_pipe.dfy` | `context/remote_pipe.go`: the tunnel's requester (`LocalToRemotePipe`) and responder (`RemoteToLocalPipeListener`) |
| `RemoteResources` | `remote_resources.dfy` | `context/remote_resources.go`: fetching a local file from the remote side through the tunnel |
| `Remote` | `remote.dfy` | `remote/remote.go`: server validation, the run-remotely decision, the build environment, the remote command line, the tunnel request handler |
| `Root` | `root.dfy` | `cmd/root.go`: the pre-run mode decision, cleanup and the exit paths |
| `GitRepo` | `git_repo.dfy` | `contrib/git/repo.go`: repository validation |
| `Version` | `version.dfy` | `util/version.go`: the banner normalisation before version parsing |
| `Errors` | `errors.dfy` | `util/errors.go`: `JoinErrors` |
| `ExpectIo` | `expect_io.dfy` | `util/io.go`: `ExpectListener` |
| `Strings`, `Streams`, `Wrappers` | | the parts of Go's `strings`, `bytes`, `strconv` and `io` that the code relies on, and the Option/Result types |

The model follows the form of the code:

- Objects whose fields change become classes with `modifies` clauses: the document, both tunnel ends, the remote resources, the root command and the expect listener.
- Go loops become `while`/`for` loops with invariants: the merge loop, the read loop, `JoinErrors`, the build-environment filter and the version scan.
- Each such method is proved against a specification function. The function's properties are proved as lemmas.
- Byte streams are strings with one character per byte.
- An `io.Writer` is a `Sink`. It either keeps everything written to it or fails every write with the same error.
- An `io.Reader` is the finite sequence of results of its `Read` calls.

Main results:

- **Merge.** `ApplyMap`, whatever order it visits the keys in (Go's map order is unspecified), computes `MergeMaps`. The key sets are unioned. Untouched keys keep their values. Absent keys are inserted. Object into object merges recursively. Array with array appends the whole new array as one element. Anything else is overridden. Merging an array-free object twice equals merging it once (`MergeIdempotent`).
- **Tunnel.** The hand-written matcher is sound and complete for the pattern `\[syst-request-(\d*)\](.*)\n`. It finds the leftmost match.
  - The requester's reply does not depend on how the input is split into reads, provided the begin marker arrives before the first end marker is complete (`ChunkingIrrelevant`). Every frame the responder writes meets that condition.
  - Without that condition the split can matter: an end marker followed by a begin marker panics when read in one chunk, yet fails with "Beginning of response not found" when read in two (`ChunkingMatters`).
  - A read error or an early EOF fails the request with that error.
  - `TunnelRoundTrip` proves the full round trip. The responder answers request *n* with a frame. The requester, reading that frame in any chunking and followed by anything, reports exactly the handler's answer or error. This holds whenever the end marker cannot be read inside the payload (`Deliverable`).
- **Remote resources.** Each `Open` uses a temporary path never used before by that instance (`TempFileFresh`). It writes at most one request frame for the send-file request to the tunnel: exactly one when the request holds no newline and the write succeeds. It then advances the tunnel's counter and consumes the reads up to the reply. The handler parses that request back into exactly the same two paths (`SendFileRoundTrip`).
- **Mode decision.** `PreRunStep` states every branch of `preRun`:
  - in remote mode, no configuration file is read and nothing is dispatched: without a local dir it fails at once, otherwise it opens the pipe and either fails with the pipe's error or proceeds with the pipe's context;
  - a valid server takes over and exits 0;
  - otherwise the local context is used.

  `CleanUp` acts once only and removes exactly what `CleanUpEffects` names.

Behaviour of the code worth noting, which the model keeps:

- After a successful remote run, `preRun` calls `os.Exit(0)` directly (cmd/root.go:70). No cleanup runs, so the local temporary directory created while loading the configuration survives the process.
- When `preRun` fails after loading the configuration, `Context` is never set (cmd/root.go:63-69). For example, this happens for an invalid server or a failed remote run. `cleanUp` then has no temporary directory to remove.
- A failed remote run does not end with the remote program's exit code. It becomes the "Remote error: …" failure, and the process exits with -1.
- Merging an array into an array does not concatenate them: the new array is appended as one nested element (data/data.go:92-94), so `[1,2]` merged with `[3]` gives `[1,2,[3]]` (`ArrayExample`).

## Model

| member | source | states |
|---|---|---|
| ConfigData.MergeValue | data/data.go:85-100 | for a key on both sides: object with object merges the field maps, array with array gives the old items plus the new array as one last element (length +1, old items kept), any other pair gives the new value |
| ConfigData.MergeMaps | data/data.go:76-103 | merged key set is the union; a key only in the new object is inserted unchanged; a key only in the document keeps its value; a key in both gets `MergeValue` |
| ConfigData.ApplyMap | data/data.go:76-103 | the loop over the new keys, in any order, yields exactly `MergeMaps(existing, incoming)` |
| ConfigData.ApplyKey | data/data.go:78-100 | one iteration: only key `k` changes, to the inserted value or the merged one, recursing into nested objects |
| ConfigData.MergeIdempotent | data/data.go:76-103 | merging the same array-free object a second time changes nothing |
| ConfigData.MergeValueIdempotent | data/data.go:85-100 | the same for a single value merged over any prior value |
| ConfigData.MergeSelf | data/data.go:98-99 | an array-free value merged over itself is unchanged |
| ConfigData.OverrideExample | data/data.go:98-99 | a later scalar overrides an earlier one, and re-merging it is a no-op |
| ConfigData.ObjectExample | data/data.go:86-88 | nested objects merge key by key |
| ConfigData.ArrayExample | data/data.go:92-94 | `[1,2]` merged with `[3]` gives `[1,2,[3]]` |
| ConfigData.Data.constructor | data/data.go:16-18 | `NewData` starts from an empty document |
| ConfigData.Data.ApplyTemplate | data/data.go:41-56 | the template runs with `{{ }}` over the current document; parse and execution failures are "Invalid template: …" and "Unable to execute template: …" |
| ConfigData.Data.ApplyTemplateAndMerge | data/data.go:62-74 | on a template or decode failure, the matching error is returned and the document is unchanged; otherwise no error and the document becomes `MergeMaps(old, decoded)` |
| RemotePipe.LocalToRemotePipe.constructor | context/remote_pipe.go:23-29 | a new pipe keeps its reader and writer and starts its counter at 0 |
| RemotePipe.LocalToRemotePipe.Request | context/remote_pipe.go:31-67 | a request with a newline fails with nothing written and the counter unchanged; otherwise the counter goes up by one, exactly `[syst-request-<id>]<text>\n` is written, a write failure is reported, and the reply is `ReplyTo` of the reads with the unread rest left over |
| RemotePipe.Await | context/remote_pipe.go:46-54 | reading stops with a buffer that contains the end marker and extends what was read before |
| RemotePipe.AwaitCollects | context/remote_pipe.go:46-54 | when the stream holds the end marker, reading succeeds and nothing is lost: buffer plus unread rest equals the stream |
| RemotePipe.ReadErrorFails | context/remote_pipe.go:47-50 | a failing read before the end marker ends the request with that error |
| RemotePipe.EofFails | context/remote_pipe.go:47-50 | a reader that runs dry before the end marker ends the request with EOF |
| RemotePipe.ExtractExtends | context/remote_pipe.go:56-62 | bytes after the first end marker do not change the extracted reply |
| RemotePipe.ReplyFromStream | context/remote_pipe.go:46-62 | when the begin marker occurs in the shortest prefix of the stream that holds the end marker, the reply is the extraction from that prefix |
| RemotePipe.ChunkingIrrelevant | context/remote_pipe.go:46-54 | two read sequences that deliver the same bytes give the same reply, provided the begin marker occurs before the first end marker is complete |
| RemotePipe.ChunkingMatters | context/remote_pipe.go:46-62 | without that proviso the split matters: an end marker then a begin marker in one read panics, in two reads it fails with "Beginning of response not found" |
| RemotePipe.RequestFrame | context/remote_pipe.go:37 | the request line `[syst-request-<id>]<text>\n`; its partner `RequestLineIsFound` shows the responder's pattern reads it back |
| RemotePipe.ResponseFrame | context/remote_pipe.go:87-94 | begin marker, payload (the text, or `ERROR: ` and the error) and end marker; its partner `ExtractFrame` shows the requester reads back the answer |
| RemotePipe.Extract | context/remote_pipe.go:55-66 | the reply from a buffer holding the end marker; its meaning is stated by `ExtractOutcome` and `ExtractEnclosed` |
| RemotePipe.ExtractOutcome | context/remote_pipe.go:56-62 | no begin marker fails with "Beginning of response not found"; the reply is a panic exactly when the begin marker ends after the first end marker starts |
| RemotePipe.ExtractEnclosed | context/remote_pipe.go:60-66 | a value is exactly what the begin marker and the first end marker enclose, and does not start with `ERROR: `; an error is what follows `ERROR: ` inside the markers |
| RemotePipe.ReplyTo | context/remote_pipe.go:46-66 | the reply to the reads `input`; its properties are `ReplyFromStream`, `ReadErrorFails`, `EofFails` and `FrameIsReplied` |
| RemotePipe.LeftOver | context/remote_pipe.go:46-54 | the reads left after the reply is complete are a suffix of the reads |
| RemotePipe.AwaitLeavesSuffix | context/remote_pipe.go:46-54 | the read loop consumes a prefix of the reads and leaves the rest |
| RemotePipe.RequestOutcome | context/remote_pipe.go:31-67 | a request with a newline fails with "Request contains a newline"; a value or a panic only comes from a newline-free request whose write succeeded |
| RemotePipe.FrameIsReplied | context/remote_pipe.go:56-66 | a deliverable frame, split into any reads and followed by anything, gives the handler's answer |
| RemotePipe.ExtractFrame | context/remote_pipe.go:56-66 | the text between the begin marker and the first end marker of a deliverable frame is the handler's answer, and an `ERROR: ` payload becomes the failure |
| RemotePipe.FrameEndIndex | context/remote_pipe.go:86-94 | in a deliverable frame, the first end marker is the one the responder appended |
| RemotePipe.DigitRun | context/remote_pipe.go:15 | the `(\d*)` group: a maximal run of digits, possibly empty |
| RemotePipe.MatchAtSound | context/remote_pipe.go:15 | whatever the matcher reports at `i` is a request line there, with a digit id and a newline-free body |
| RemotePipe.MatchAtComplete | context/remote_pipe.go:15 | every request line at `i` is reported by the matcher, with its id and body |
| RemotePipe.FindFromLeftmost | context/remote_pipe.go:82 | the reported match is a request line with none before it; no report means no request line at all |
| RemotePipe.MatchAt | context/remote_pipe.go:15 | the pattern tried at one position; its meaning is `MatchAtSound` and `MatchAtComplete` |
| RemotePipe.FindFrom | context/remote_pipe.go:82 | the first position from `from` where the pattern matches; its meaning is `FindFromLeftmost` |
| RemotePipe.FindRequest | context/remote_pipe.go:82 | `FindSubmatch` over a whole chunk; `FindFromLeftmost` from 0 states it |
| RemotePipe.ResponseTo | context/remote_pipe.go:81-94 | the frame the responder writes for a chunk, if any |
| RemotePipe.ResponseOnlyToRequests | context/remote_pipe.go:82-85 | the responder answers a chunk exactly when the chunk holds a request line somewhere |
| RemotePipe.RequestLineIsFound | context/remote_pipe.go:82-86 | the line the requester writes is matched with its own id and text |
| RemotePipe.RemoteToLocalPipeListener.constructor | context/remote_pipe.go:74-79 | a listener keeps its writer and handler |
| RemotePipe.RemoteToLocalPipeListener.Write | context/remote_pipe.go:81-99 | always reports `len(p)`; a chunk with no request line writes nothing; otherwise the begin/payload/end frame for the first one is written; a write failure is reported except io.EOF |
| RemotePipe.TunnelRoundTrip | context/remote_pipe.go:86-94 | the frame the responder writes for request *n*, read in any chunking and followed by anything, makes the requester report exactly the handler's text or error |
| RemoteResources.AfterRequest | context/remote_resources.go:34-38 | a tunnel failure becomes "Failed to obtain file from remote: …" and no file is opened; on success the copy is opened |
| RemoteResources.Resources.constructor | context/remote_resources.go:17-19 | a new instance starts its counter at 0 |
| RemoteResources.Resources.Open | context/remote_resources.go:30-39 | the counter goes up by one even when the request fails; the request is exactly `send-file <local> --to-- <TempDir>/temp-file-<counter>`; the path is one never used before; the tunnel's counter advances unless the request holds a newline, its writer receives exactly that request's frame when the write succeeds, and its unread reads are what follows the reply |
| RemoteResources.Resources.ReadFile | context/remote_resources.go:21-28 | the contents of the opened copy, or Open's failure unchanged, with the same effect on the counter, the tunnel's counter, its writer and its reads as `Open`; the path is one never used before |
| RemoteResources.JoinPath | context/remote_resources.go:33 | `filepath.Join` of a directory and a file name: starts with the directory, ends with the name, with at most one separator added |
| RemoteResources.TempFile | context/remote_resources.go:33 | the n-th copy is a path directly inside the temporary directory |
| RemoteResources.SendFileRequest | context/remote_resources.go:34 | the request `send-file <local> --to-- <remote>`; its partner `SendFileRoundTrip` shows the handler parses it back into the same two paths |
| RemoteResources.TempFileInjective | context/remote_resources.go:32-33 | distinct counter values name distinct temporary files |
| RemoteResources.TempFileFresh | context/remote_resources.go:32-33 | the n-th path differs from every earlier one |
| Errors.JoinErrors | util/errors.go:3-12 | the loop yields the messages in order, each pair separated by ", " |
| Errors.JoinErrorsShort | util/errors.go:4-11 | no errors render as "", one error as exactly its message |
| Errors.JoinErrorsShape | util/errors.go:5-10 | n messages render with exactly n-1 separators, starting with the first message and ending with the last |
| GitRepo.RepoErrors | contrib/git/repo.go:16-27 | each message appears exactly when its check fails; the list is empty exactly for a valid repo |
| GitRepo.RepoErrorsInOrder | contrib/git/repo.go:16-27 | the list is exactly the messages of the failed checks, in the order URL, branch, credentials |
| GitRepo.Validate | contrib/git/repo.go:16-27 | the successive appends produce `RepoErrors` |
| GitRepo.AllThreeMissing | contrib/git/repo.go:16-27 | a repo with only a user set reports all three problems in order |
| Remote.ServerErrors | remote/remote.go:52-67 | each message appears exactly when its check fails; without SSH settings only the 'ssh' error of that group; empty exactly for a valid server |
| Remote.ServerErrorsInOrder | remote/remote.go:52-67 | the list is exactly the messages of the failed checks, in the order host, ssh, user, secret, with the user and secret checks applying only when SSH settings exist |
| Remote.Validate | remote/remote.go:52-67 | the successive appends produce `ServerErrors` |
| Remote.HostAndSecretErrors | remote/remote.go:53-64 | an empty host with a user and both secrets gives exactly two errors, host first |
| Remote.RemoteFor | remote/remote.go:38-50 | a fetch failure is "Unable to fetch remote info: …"; no server gives no remote; an invalid server is "Invalid remote server: " plus its joined errors; a valid one is returned |
| Remote.RemoteIfPresent | remote/remote.go:38-50 | validation followed by `JoinErrors` decides exactly as `RemoteFor` |
| Remote.Inherited | remote/remote.go:125-129 | the kept entries are exactly those of the environment without a `GOOS=`/`GOARCH=` prefix |
| Remote.InheritedAppend | remote/remote.go:125-129 | the filter keeps relative order |
| Remote.BuildEnv | remote/remote.go:124-138 | the build environment is the filtered environment followed by `GOOS=<os>` and `GOARCH=<arch>`, defaulting to linux and amd64 |
| Remote.Base | remote/remote.go:82 | `filepath.Base` is never empty and holds no slash unless it is "/" |
| Remote.BaseOfJoined | remote/remote.go:82 | the base of `dir/name` is `name` |
| Remote.RemoteExecutable | remote/remote.go:82 | the copy is a file directly in /tmp |
| Remote.DoubleBackslashes | remote/remote.go:106 | `strings.Replace(s, "\\", "\\\\", -1)`: the text never shrinks; `UndoubleDouble` is its inverse |
| Remote.RemoteCommand | remote/remote.go:101-108 | the command line run on the server; `RemoteCommandShape` states its layout |
| Remote.UndoubleDouble | remote/remote.go:106 | doubling backslashes in the local directory loses nothing |
| Remote.RemoteCommandShape | remote/remote.go:101-108 | the command is `/tmp/<base> --is-remote --override-local-dir "<dir>"` followed by each original argument after one space |
| Remote.HandleRemoteRequest | remote/remote.go:147-163 | "get-context-data" answers with the encoded document or "Unable to marshal context data: …"; "send-file " needs exactly two parts around " --to-- " and then answers "complete" with the copy's error, otherwise "Malformed request: …"; anything else is "Unrecognized request: …" |
| Remote.SendFileRoundTrip | remote/remote.go:154-159 | the request `Open` issues is parsed back into the same local and remote paths |
| Root.PreRunStep | cmd/root.go:56-85 | remote mode without a local dir fails with no effect; with one, only the pipe is opened: its failure is "Unable to begin remote command over std pipes: …", otherwise the pipe's context is used; local mode loads the files first; a valid server, where allowed, runs remotely and exits 0 or fails with "Remote error: …", with no context; otherwise the loaded context is used; proceeding always comes with a context |
| Root.ShowConfigStaysLocal | cmd/root.go:52-54 | the `showconfig` subcommand never runs remotely |
| Root.CleanUpEffects | cmd/root.go:87-102 | the first cleanup removes this executable exactly in remote mode, and the temporary directory exactly when there is a context |
| Root.RootCmd.constructor | cmd/root.go:23-50 | a new root command has no context, has not cleaned up and has done nothing |
| Root.RootCmd.PreRun | cmd/root.go:56-85 | the state change and outcome are those of `PreRunStep` |
| Root.RootCmd.CleanUp | cmd/root.go:87-105 | the first call removes what `CleanUpEffects` names and sets `cleanedUp`; later calls do nothing |
| Root.RootCmd.CleanUpAsWritten | cmd/root.go:87-105 | as written: a first call in remote mode without a context panics; otherwise like `CleanUp` |
| Root.RootCmd.PersistentPreRun | cmd/root.go:28-34 | the context is the one the pre-run set, if any; a failed pre-run prints "Error: …", cleans up with the corrected `CleanUp` and exits -1; an exit inside the pre-run is passed on; otherwise the subcommand proceeds |
| Root.RootCmd.PersistentPostRun | cmd/root.go:35-37 | after the subcommand, the corrected `CleanUp` runs (once) |
| Root.RootCmd.RunSubcommand | cmd/root.go:133-139 | a failing subcommand logs "Error: …", cleans up with the corrected `CleanUp` and exits -1 |
| Root.MissingDirPanics | cmd/root.go:75-91 | `--is-remote` without `--override-local-dir` makes the as-written cleanup panic |
| Root.PipeFailurePanics | cmd/root.go:78-91 | `--is-remote` with a local dir but a tunnel that cannot be set up makes the as-written cleanup panic too |
| Version.AfterLastSpace | util/version.go:33 | the suffix of the text after its last space, or all of it without one: holds no space, and is either the whole text or preceded by a space |
| Version.Segments | util/version.go:33 | one to three segments that re-join with "." to the text after the last space; with fewer than three, the last holds no dot |
| Version.LeadingSegmentsDotFree | util/version.go:33 | only the last segment can hold a dot: the text is cut at its first two dots |
| Version.DigitPrefix | util/version.go:34-39 | the longest all-digit prefix |
| Version.DigitPrefixIs | util/version.go:34-39 | a digit run ended by a non-digit or the end is that longest prefix |
| Version.VersionText | util/version.go:32-41 | the text passed to the version parser is the normalised segments rejoined with "." |
| Version.CutLast | util/version.go:34-39 | the scan over the last segment replaces it by its prefix before the first non-digit and leaves the other segments untouched |
| Version.NormaliseLast | util/version.go:34-39 | replaces the last segment by its digit prefix, keeping the number of segments |
| Version.Normalised | util/version.go:33-39 | the segments after normalisation, as many as before |
| Version.NormalisedSegments | util/version.go:34-39 | segments before the last are untouched; the last becomes an all-digit prefix of itself |
| Version.DigitPrefixOfDigits | util/version.go:34-39 | an all-digit last segment is left unchanged |
| Version.CleanVersionUnchanged | util/version.go:33-40 | when the last segment is all digits, the result is exactly the text after the last space |
| Version.VersionExample | util/version.go:30-41 | "git version 2.7.4-rc1" becomes "2.7.4" |
| ExpectIo.ExpectListener.constructor | util/io.go:61-63 | the listener keeps its writer, pattern and reply |
| ExpectIo.ExpectListener.Write | util/io.go:65-73 | always reports `len(p)`; a matching chunk writes the reply once and reports a failed write; a chunk that does not match writes nothing; only the writer changes |

## Left out

- Templates (`text/template`, the helper function map, the hidden prompt, `jsonString`): these are library calls. The template enters as a fallible function of the delimiters, the document and the text.
- JSON: decoding, encoding and comment stripping are library calls. They enter as fallible functions. `json.Marshal` in `handleRemoteRequest` is also a parameter.
- ConfigData.Json: numbers are mathematical reals, not float64.
- ConfigData.ApplyMap: works on map values, not in place. The sharing of nested maps between the document and other references (such as `prev` handed to templates) is not modelled.
- SSH, SFTP and `go build`: these are network and process I/O (remote/ssh.go, the rest of `RunRemotely`). The remote run is a function from the server to its error. Only the remote path, the command line and the build environment are modelled. The SSH code always uses password authentication and always runs `sudo -S`. That code is not part of this model.
- Concurrency: `ReaderWaitFor` and `shell.WaitTimeout` use goroutines and timers.
- Context construction (`FromConfigFiles`, `FromRemoteStdPipe`: temp dirs, the working directory, file reads): their results enter `Root` as values. The per-file merge order is not modelled as a fold.
- RemotePipe.LocalToRemotePipe.Request: has the following limits.
  - Reads are finite sequences, so a peer that never answers (the code has no timeout) is not modelled.
  - The fixed 1024-byte read size is not modelled: a read may return a chunk of any length.
  - A read that returns bytes together with an error keeps no bytes.
  - The `bytes.Buffer` write failure (context/remote_pipe.go:51-53) cannot happen and is not modelled.
  - When the first begin marker comes after the first end marker, Go's slice `buf[begin:end]` panics. This is the `Crash` reply.
- RemoteResources.Resources.Open: the opened `*os.File` is reduced to what reading it yields. Opening the copy is a function from path to contents or error. Errors from `ioutil.ReadAll` in `ReadFile` are not modelled.
- RemoteResources.JoinPath: `filepath.Join` is modelled for a clean directory. `filepath.Clean` of the directory is not modelled.
- Remote.Base: Unix paths only, with no Windows volume names.
- Remote.DoubleBackslashes: its own contract states only that the text does not shrink. The meaning is carried by its inverse, `UndoubleDouble`.
- Remote.HandleRemoteRequest: the permission bits passed to `sendFile` are dropped.
- Version.VersionText: Go ranges over runes. The model scans characters, which agrees on every digit test. `version.NewVersion` parses the result, and that parse is not modelled.
- Root: the model includes these simplifications.
  - Cobra registration, `addCommand`'s walk over parent commands, and the `Debugf` logging are not modelled.
  - A failed `os.Remove` is only logged and is not modelled, so each removal is recorded as attempted.
  - `os.Exit` is an effect, and the exit code appears in the trace.
- Root.RootCmd.PersistentPreRun, Root.RootCmd.PersistentPostRun, Root.RootCmd.RunSubcommand: they call the corrected `CleanUp`. The code's `cleanUp` instead panics in remote mode when no context was set, which happens when `--override-local-dir` is missing (cmd/root.go:75-77) or the tunnel cannot be set up (cmd/root.go:78-80); `CleanUpAsWritten`, `MissingDirPanics` and `PipeFailurePanics` state that behaviour.
- Root.RemoteAllowed: it is a plain predicate with no contract of its own. Its meaning is stated through `PreRunStep` and `ShowConfigStaysLocal`.
- `URLWithCredentials`, `CheckVersion`, `Constraint`, logging, `showconfig`, resource and shell wrappers are library wrappers and are not part of this model.

## Findings

| source | as written | input that shows it | evidently intended | confidence | as-written member | corrected member |
|---|---|---|---|---|---|---|
| cmd/root.go:91 | In remote mode `cleanUp` logs through `r.Context` before removing the executable, and does not check for a nil context first | run with `--is-remote` and no `--override-local-dir`, or with one but a std-pipe setup that fails (`PipeFailurePanics`): `preRun` fails before any context exists, and the cleanup in `PersistentPreRun` dereferences nil | print the error, remove this executable, exit with -1 | high, not executed | Root.MissingDirPanics | Root.RootCmd.CleanUp |
