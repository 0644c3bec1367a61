/**
 * The root command (cmd/root.go): it decides before any subcommand runs
 * whether this process works locally, hands itself over to a remote server,
 * or is itself the remote copy; and it cleans up once afterwards. Command-line
 * parsing, context construction, remote execution and the filesystem are
 * collaborators; what the process does to the outside world is recorded as a
 * sequence of effects.
 */
module Root {
  import opened Wrappers
  import opened Remote

  /** The flags parsed from the command line. */
  datatype Flags = Flags(verbose: bool, configFiles: seq<string>, isRemote: bool, forceLocal: bool, overrideLocalDir: string)

  /** The part of a `context.Context` that the root command uses. */
  datatype Ctx = Ctx(tempDir: string)

  /** What the process does to its surroundings, in order. */
  datatype Effect =
    | LoadConfig(files: seq<string>)   // context.FromConfigFiles
    | OpenPipe                         // context.FromRemoteStdPipe
    | RunRemote(server: RemoteServer)  // Remote.RunRemotely
    | RemoveSelf(path: string)         // os.Remove(os.Args[0])
    | RemoveTempDir(dir: string)       // os.RemoveAll(Context.TempDir)
    | PrintLine(text: string)          // fmt.Printf
    | LogInfo(text: string)            // Context.Infof
    | Exit(code: int)                  // os.Exit

  /** The results the collaborators give. */
  datatype World = World(
    fromConfigFiles: Result<Ctx>,
    serverOf: Ctx -> Result<Option<RemoteServer>>,
    runRemotely: RemoteServer -> Option<string>,
    fromRemoteStdPipe: Result<Ctx>)

  /** `remoteAllowed`. */
  predicate RemoteAllowed(flags: Flags, childName: string)
  {
    !flags.forceLocal && childName != "showconfig"
  }

  /** How `preRun` ends: the subcommand proceeds, an error is returned, or the process exits. */
  datatype Outcome = Proceed | Failed(message: string) | Exited(code: int)

  /** The outcome of `preRun`, the context it sets (if any) and the effects it has. */
  datatype Step = Step(outcome: Outcome, context: Option<Ctx>, effects: seq<Effect>)

  /** `preRun` as a function of the flags, the subcommand's name and the collaborators. */
  function PreRunStep(flags: Flags, childName: string, w: World): (r: Step)
    // remote mode without a local directory fails before anything is done
    ensures flags.isRemote && flags.overrideLocalDir == "" ==>
      r == Step(Failed("Must have --override-local-dir for remote"), None, [])
    // remote mode: the context comes from the pipe only; no config file is read, nothing is run remotely
    ensures flags.isRemote ==>
      && (forall e :: e in r.effects ==> e == OpenPipe)
      && (r.context.Some? ==> w.fromRemoteStdPipe == Ok(r.context.value))
    // remote mode with a local directory: the pipe's failure is reported, or its context is used
    ensures flags.isRemote && flags.overrideLocalDir != "" ==>
      r == match w.fromRemoteStdPipe
           case Err(e) => Step(Failed("Unable to begin remote command over std pipes: " + e), None, [OpenPipe])
           case Ok(c) => Step(Proceed, Some(c), [OpenPipe])
    // local mode always starts by loading the configuration files
    ensures !flags.isRemote ==> |r.effects| >= 1 && r.effects[0] == LoadConfig(flags.configFiles)
    ensures !flags.isRemote && w.fromConfigFiles.Err? ==>
      r == Step(Failed("Unable to load from config files: " + w.fromConfigFiles.message), None, [LoadConfig(flags.configFiles)])
    // a valid server, where allowed, takes over: exit 0 on success, "Remote error" otherwise, and no context
    ensures !flags.isRemote && w.fromConfigFiles.Ok? && RemoteAllowed(flags, childName)
            && RemoteFor(w.serverOf(w.fromConfigFiles.value)).Ok?
            && RemoteFor(w.serverOf(w.fromConfigFiles.value)).value.Some? ==>
      var s := RemoteFor(w.serverOf(w.fromConfigFiles.value)).value.value;
      && r.context == None
      && RunRemote(s) in r.effects
      && (w.runRemotely(s).None? ==> r.outcome == Exited(0))
      && (w.runRemotely(s).Some? ==> r.outcome == Failed("Remote error: " + w.runRemotely(s).value))
    // an invalid server or a failed lookup is returned as is
    ensures !flags.isRemote && w.fromConfigFiles.Ok? && RemoteAllowed(flags, childName)
            && RemoteFor(w.serverOf(w.fromConfigFiles.value)).Err? ==>
      r == Step(Failed(RemoteFor(w.serverOf(w.fromConfigFiles.value)).message), None, [LoadConfig(flags.configFiles)])
    // otherwise the process runs locally with the loaded context
    ensures !flags.isRemote && w.fromConfigFiles.Ok?
            && (!RemoteAllowed(flags, childName) || RemoteFor(w.serverOf(w.fromConfigFiles.value)) == Ok(None)) ==>
      r == Step(Proceed, Some(w.fromConfigFiles.value), [LoadConfig(flags.configFiles)])
    // "proceed" always comes with a context
    ensures r.outcome.Proceed? <==> r.context.Some?
  {
    if !flags.isRemote then
      var load := [LoadConfig(flags.configFiles)];
      match w.fromConfigFiles
      case Err(e) => Step(Failed("Unable to load from config files: " + e), None, load)
      case Ok(ctx) =>
        if !RemoteAllowed(flags, childName) then Step(Proceed, Some(ctx), load)
        else
          match RemoteFor(w.serverOf(ctx))
          case Err(e) => Step(Failed(e), None, load)
          case Ok(None) => Step(Proceed, Some(ctx), load)
          case Ok(Some(s)) =>
            match w.runRemotely(s)
            case Some(e) => Step(Failed("Remote error: " + e), None, load + [RunRemote(s)])
            case None => Step(Exited(0), None, load + [RunRemote(s), Exit(0)])
    else if flags.overrideLocalDir == "" then
      Step(Failed("Must have --override-local-dir for remote"), None, [])
    else
      match w.fromRemoteStdPipe
      case Err(e) => Step(Failed("Unable to begin remote command over std pipes: " + e), None, [OpenPipe])
      case Ok(ctx) => Step(Proceed, Some(ctx), [OpenPipe])
  }

  /** `showconfig` always runs locally, whatever the configuration says. */
  lemma ShowConfigStaysLocal(flags: Flags, w: World)
    requires !flags.isRemote && w.fromConfigFiles.Ok?
    ensures PreRunStep(flags, "showconfig", w) == Step(Proceed, Some(w.fromConfigFiles.value), [LoadConfig(flags.configFiles)])
  {
  }

  /** What a first `cleanUp` removes: this executable when remote, the temp dir when there is a context. */
  function CleanUpEffects(isRemote: bool, selfPath: string, context: Option<Ctx>): (r: seq<Effect>)
    ensures RemoveSelf(selfPath) in r <==> isRemote
    ensures (exists d :: RemoveTempDir(d) in r) <==> context.Some?
    ensures context.Some? ==> RemoveTempDir(context.value.tempDir) in r
  {
    (if isRemote then [RemoveSelf(selfPath)] else [])
    + (if context.Some? then [RemoveTempDir(context.value.tempDir)] else [])
  }

  class RootCmd {
    const flags: Flags
    /** `os.Args[0]`, the path of this executable. */
    const selfPath: string
    var context: Option<Ctx>
    var cleanedUp: bool
    var effects: seq<Effect>

    constructor (flags: Flags, selfPath: string)
      ensures this.flags == flags && this.selfPath == selfPath
      ensures context == None && !cleanedUp && effects == []
    {
      this.flags := flags;
      this.selfPath := selfPath;
      context := None;
      cleanedUp := false;
      effects := [];
    }

    /** `preRun`: sets the context when it proceeds; an `os.Exit(0)` is recorded as an effect. */
    method PreRun(childName: string, w: World) returns (outcome: Outcome)
      modifies this
      ensures var step := PreRunStep(flags, childName, w);
        && outcome == step.outcome
        && context == (if step.context.Some? then step.context else old(context))
        && effects == old(effects) + step.effects
        && cleanedUp == old(cleanedUp)
    {
      if !flags.isRemote {
        effects := effects + [LoadConfig(flags.configFiles)];
        if w.fromConfigFiles.Err? {
          return Failed("Unable to load from config files: " + w.fromConfigFiles.message);
        }
        var ctx := w.fromConfigFiles.value;
        if RemoteAllowed(flags, childName) {
          var remote := RemoteIfPresent(w.serverOf(ctx));
          if remote.Err? {
            return Failed(remote.message);
          } else if remote.value.Some? {
            effects := effects + [RunRemote(remote.value.value)];
            var err := w.runRemotely(remote.value.value);
            if err.Some? {
              return Failed("Remote error: " + err.value);
            }
            effects := effects + [Exit(0)];
            return Exited(0);
          }
        }
        context := Some(ctx);
      } else {
        if flags.overrideLocalDir == "" {
          return Failed("Must have --override-local-dir for remote");
        }
        effects := effects + [OpenPipe];
        if w.fromRemoteStdPipe.Err? {
          return Failed("Unable to begin remote command over std pipes: " + w.fromRemoteStdPipe.message);
        }
        context := Some(w.fromRemoteStdPipe.value);
      }
      outcome := Proceed;
    }

    /**
     * `cleanUp`, corrected: the first call removes what `CleanUpEffects` names
     * and sets `cleanedUp`; every later call does nothing.
     */
    method CleanUp()
      modifies this
      ensures cleanedUp
      ensures context == old(context)
      ensures effects == old(effects) + (if old(cleanedUp) then [] else CleanUpEffects(flags.isRemote, selfPath, context))
    {
      if !cleanedUp {
        if flags.isRemote {
          effects := effects + [RemoveSelf(selfPath)];
        }
        if context.Some? {
          effects := effects + [RemoveTempDir(context.value.tempDir)];
        }
        cleanedUp := true;
      }
    }

    /**
     * `cleanUp` as written: in remote mode it logs through the context before
     * removing this executable, so without a context it dereferences nil and panics.
     */
    method CleanUpAsWritten() returns (panicked: bool)
      modifies this
      ensures panicked <==> !old(cleanedUp) && flags.isRemote && old(context).None?
      ensures !panicked ==>
        && cleanedUp && context == old(context)
        && effects == old(effects) + (if old(cleanedUp) then [] else CleanUpEffects(flags.isRemote, selfPath, context))
    {
      panicked := false;
      if !cleanedUp {
        if flags.isRemote {
          if context.None? {
            return true;
          }
          effects := effects + [RemoveSelf(selfPath)];
        }
        if context.Some? {
          effects := effects + [RemoveTempDir(context.value.tempDir)];
        }
        cleanedUp := true;
      }
    }

    /**
     * `PersistentPreRun`: a failed `preRun` prints the error, cleans up and
     * exits with -1; the exit code is returned when the process ends here.
     */
    method PersistentPreRun(childName: string, w: World) returns (exit: Option<int>)
      modifies this
      ensures var step := PreRunStep(flags, childName, w);
        context == (if step.context.Some? then step.context else old(context))
      ensures var step := PreRunStep(flags, childName, w);
        match step.outcome
        case Proceed => exit == None && effects == old(effects) + step.effects && cleanedUp == old(cleanedUp)
        case Exited(code) => exit == Some(code) && effects == old(effects) + step.effects && cleanedUp == old(cleanedUp)
        case Failed(e) =>
          && exit == Some(-1)
          && cleanedUp
          && effects == old(effects) + step.effects + [PrintLine("Error: " + e + "\n")]
                        + (if old(cleanedUp) then [] else CleanUpEffects(flags.isRemote, selfPath, old(context)))
                        + [Exit(-1)]
    {
      var outcome := PreRun(childName, w);
      match outcome
      case Proceed =>
        exit := None;
      case Exited(code) =>
        exit := Some(code);
      case Failed(e) =>
        effects := effects + [PrintLine("Error: " + e + "\n")];
        CleanUp();
        effects := effects + [Exit(-1)];
        exit := Some(-1);
    }

    /** `PersistentPostRun`. */
    method PersistentPostRun()
      modifies this
      ensures cleanedUp && context == old(context)
      ensures effects == old(effects) + (if old(cleanedUp) then [] else CleanUpEffects(flags.isRemote, selfPath, context))
    {
      CleanUp();
    }

    /**
     * The `Run` wrapper of a runnable subcommand: `err` is what the subcommand
     * returned. A failure is logged, cleaned up after, and exits with -1.
     */
    method RunSubcommand(err: Option<string>) returns (exit: Option<int>)
      modifies this
      ensures err.None? ==> exit == None && effects == old(effects) && cleanedUp == old(cleanedUp)
      ensures err.Some? ==>
        && exit == Some(-1) && cleanedUp
        && effects == old(effects) + [LogInfo("Error: " + err.value)]
                      + (if old(cleanedUp) then [] else CleanUpEffects(flags.isRemote, selfPath, context))
                      + [Exit(-1)]
      ensures context == old(context)
    {
      exit := None;
      if err.Some? {
        effects := effects + [LogInfo("Error: " + err.value)];
        CleanUp();
        effects := effects + [Exit(-1)];
        exit := Some(-1);
      }
    }
  }

  /**
   * Invoked as the remote copy but without `--override-local-dir`, the process
   * fails in `preRun` with no context, and `cleanUp` as written then panics
   * instead of exiting with -1.
   */
  method MissingDirPanics(selfPath: string, childName: string, w: World) returns (panicked: bool)
    ensures panicked
  {
    var root := new RootCmd(Flags(false, [], true, false, ""), selfPath);
    var outcome := root.PreRun(childName, w);
    assert outcome == Failed("Must have --override-local-dir for remote");
    panicked := root.CleanUpAsWritten();
  }

  /**
   * The same panic when the local directory is given but the tunnel cannot be
   * set up: `preRun` fails before the context is set.
   */
  method PipeFailurePanics(selfPath: string, childName: string, dir: string, reason: string, w: World) returns (panicked: bool)
    requires dir != "" && w.fromRemoteStdPipe == Err(reason)
    ensures panicked
  {
    var root := new RootCmd(Flags(false, [], true, false, dir), selfPath);
    var outcome := root.PreRun(childName, w);
    assert outcome == Failed("Unable to begin remote command over std pipes: " + reason);
    panicked := root.CleanUpAsWritten();
  }
}
