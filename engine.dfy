/**
 * `Backup` and `Backup.run` of rsbackup/__init__.py: one run names a new
 * generation after its start time, finds the previous generation through
 * the `_latest` link, runs rsync into the new generation (or, in dry mode,
 * only pretends to), and points `_latest` at the new generation.
 *
 * `RunSpec` says what a run does to the filesystem and the logger, stage
 * by stage; the method `Run` does it step by step over a `FileSystem` and
 * a `Logger` object and is proved to agree with `RunSpec`.
 *
 * The clock, `shutil.which` and the rsync process are inputs
 * (`Environment`): the start time, the path `which` finds, the chunks
 * rsync writes to its output and its exit status. An exception that
 * leaves `run` is the outcome `Raised`.
 */
module Engine {
  import opened Common
  import opened Argv
  import opened Paths
  import opened Filesystem
  import opened Generations
  import opened Sync
  import Progress

  /** One backup definition. */
  datatype Backup = Backup(source: string, target: string, description: Option<string>, excludes: seq<string>)

  /** `Backup.__init__`: a missing exclude list is stored as an empty one. */
  function NewBackup(source: string, target: string, description: Option<string> := None,
                     excludes: Option<seq<string>> := None): (r: Backup)
    ensures r.source == source && r.target == target && r.description == description
    ensures excludes.Some? ==> r.excludes == excludes.value
    ensures excludes.None? ==> r.excludes == []
  {
    Backup(source, target, description, ExcludeList(excludes))
  }

  /** The name of the link to the newest generation. */
  const Latest: string := "_latest"

  /** The calls `run` makes on its logger. */
  datatype LogCall =
    | InfoCall(msg: Message)
    | NotifyCall(msg: Message)
    | WarnCall(msg: Message)
    | SuccessCall(msg: Message)
    | ProgressCall(bytesSent: int, completion: real, eta: string)

  /** A logger that records the calls made on it, in order. */
  class Logger {
    var calls: seq<LogCall>

    constructor ()
      ensures calls == []
    {
      calls := [];
    }

    method Info(s: Message)
      modifies this
      ensures calls == old(calls) + [InfoCall(s)]
    {
      calls := calls + [InfoCall(s)];
    }

    method Notify(s: Message)
      modifies this
      ensures calls == old(calls) + [NotifyCall(s)]
    {
      calls := calls + [NotifyCall(s)];
    }

    method Warn(s: Message)
      modifies this
      ensures calls == old(calls) + [WarnCall(s)]
    {
      calls := calls + [WarnCall(s)];
    }

    method Success(s: Message)
      modifies this
      ensures calls == old(calls) + [SuccessCall(s)]
    {
      calls := calls + [SuccessCall(s)];
    }

    method Progress(bytesSent: int, completion: real, eta: string)
      modifies this
      ensures calls == old(calls) + [ProgressCall(bytesSent, completion, eta)]
    {
      calls := calls + [ProgressCall(bytesSent, completion, eta)];
    }
  }

  /** What a run takes from outside the program. */
  datatype Environment = Environment(
    start: Timestamp,      // datetime.now() at the start
    which: string,         // shutil.which('rsync')
    chunks: seq<string>,   // what readuntil() returns, call after call
    exitCode: int,         // what rsync exits with
    took: string)          // str(end - start)

  datatype RunError =
    | RsyncExit(code: int)       // ValueError: unexpected exit code
    | Stream(readError: ReadError)   // raised by the read loop
    | Fs(fsError: FsError)           // raised by an os call

  datatype Outcome = Completed | Raised(error: RunError)

  /**
   * How `_latest` is replaced after rsync: as the code does it, or as the
   * docstring and the link's purpose call for (see README, Findings).
   */
  datatype Policy = AsWritten | Intended

  /** The filesystem after a run, the logger calls it made, the command rsync got (if it ran) and how it ended. */
  datatype Effect = Effect(fs: FsState, calls: seq<LogCall>, argv: Option<seq<string>>, outcome: Outcome)

  // ---------------------------------------------------------------------
  // Names and messages
  // ---------------------------------------------------------------------

  function GenerationPath(target: string, start: Timestamp): string
    requires Valid(start)
  {
    Join(target, GenerationName(start))
  }

  function LatestPath(target: string): string
  {
    Join(target, Latest)
  }

  function LogPath(gen: string): string
  {
    Join(gen, ".log")
  }

  /**
   * What `run` tells its logger, by kind and parts; `Text` renders each
   * one as the f-string the code passes.
   */
  datatype Message =
    | CreatingMsg(source: string)
    | CreatingAtMsg(gen: string)
    | FoundMsg(prev: string)
    | DryModeMsg
    | MkdirMsg(gen: string)
    | CommandMsg(command: seq<string>)
    | RmMsg(latest: string)
    | LnMsg(gen: string, latest: string)
    | StartingMsg(logFile: string)
    | FinishedRsyncMsg
    | FinishedMsg(source: string, start: string)
    | TookMsg(took: string)

  function Text(m: Message): string
  {
    match m
    case CreatingMsg(source) => "Creating new backup generation for '" + source + "'"
    case CreatingAtMsg(gen) => "Creating backup at " + gen
    case FoundMsg(prev) => "Found previous backup generation at " + prev
    case DryModeMsg => "dry_mode is set to True; not going to touch any files."
    case MkdirMsg(gen) => "mkdir -p " + gen
    case CommandMsg(command) => JoinSpaces(command)
    case RmMsg(latest) => "rm -f " + latest
    case LnMsg(gen, latest) => "ln -s " + gen + " " + latest
    case StartingMsg(logFile) => "Starting rsync; writing output to " + logFile
    case FinishedRsyncMsg => "rsync finished"
    case FinishedMsg(source, start) => "Backup of '" + source + "' finished at '" + start + "'"
    case TookMsg(took) => "Took " + took
  }

  /** The options `run` gives its `RSync` object. */
  function BackupOptions(b: Backup, gen: string, prev: Option<string>): SyncOptions
  {
    SyncOptions(b.source, gen, true, true, true, prev, Some(b.excludes))
  }

  // ---------------------------------------------------------------------
  // What the read loop's emissions turn into
  // ---------------------------------------------------------------------

  /** The progress callback: one `progress` call per report, in order. */
  function ProgressCalls(emits: seq<Emit>): (r: seq<LogCall>)
    ensures |r| <= |emits|
    ensures forall c :: c in r ==> c.ProgressCall?
  {
    if emits == [] then []
    else
      var last := emits[|emits| - 1];
      ProgressCalls(emits[..|emits| - 1])
      + (if last.Report? then [ProgressCall(last.info.bytesSent, last.info.completionRate, last.info.eta)] else [])
  }

  /** Everything written to the log file, in order. */
  function LogText(emits: seq<Emit>): string
  {
    if emits == [] then ""
    else
      var last := emits[|emits| - 1];
      LogText(emits[..|emits| - 1]) + (if last.Write? then last.text else "")
  }

  // ---------------------------------------------------------------------
  // The run, stage by stage
  //
  // Each stage takes the logger's calls so far (`log`) and gives back the
  // calls after it, so the filesystem, the calls, the rsync command (if
  // rsync was started) and the outcome are all functions of the state
  // before the run and of the environment.
  // ---------------------------------------------------------------------

  /**
   * The previous generation: what `_latest` points to, unless skipped or
   * missing. `readlink` raises when what `exists` found at `_latest` is
   * not a link.
   */
  function PreviousGeneration(fs: FsState, latest: string, skipLatest: bool): (r: Result<Option<string>, FsError>)
    ensures skipLatest || !Exists(fs, latest) ==> r == Success(None)
    ensures r.Failure? <==> !skipLatest && Exists(fs, latest) && !fs[latest].Link?
    ensures r.Success? && r.value.Some? ==> latest in fs && fs[latest] == Link(r.value.value)
  {
    if !skipLatest && Exists(fs, latest) then
      match ReadLink(fs, latest)
      case Failure(e) => Failure(e)
      case Success(t) => Success(Some(t))
    else Success(None)
  }

  /** The notice of the previous generation, when there is one. */
  function FoundCalls(prev: Option<string>): seq<LogCall>
  {
    if prev.Some? then [NotifyCall(FoundMsg(prev.value))] else []
  }

  /** How rsync ended, as `run` sees it: the read loop's exception, else a non-zero exit status, else nothing. */
  function RsyncError(t: Transcript, exitCode: int): (r: Option<RunError>)
    ensures r.None? <==> t.failure.None? && exitCode == 0
    ensures t.failure.Some? ==> r == Some(Stream(t.failure.value))
    ensures t.failure.None? && exitCode != 0 ==> r == Some(RsyncExit(exitCode))
  {
    if t.failure.Some? then Some(Stream(t.failure.value))
    else if exitCode != 0 then Some(RsyncExit(exitCode))
    else None
  }

  /** The dry branch: announce, run rsync with `--dry-run` and no log, touch no file. */
  function DrySpec(o: SyncOptions, binary: string, fs: FsState, log: seq<LogCall>, env: Environment,
                   latest: string, skipLatest: bool): (e: Effect)
    ensures e.fs == fs
    ensures e.argv == Some([binary] + ArgVector(o, true, true))
    ensures e.outcome.Completed? <==> RsyncError(Consume(env.chunks, false, true), env.exitCode).None?
    ensures e.outcome.Raised? ==> e.outcome.error == RsyncError(Consume(env.chunks, false, true), env.exitCode).value
  {
    var log1 := log + [WarnCall(DryModeMsg)] + [NotifyCall(MkdirMsg(o.target))]
                + [NotifyCall(CommandMsg([binary] + ArgVector(o, false, false)))];
    var t := Consume(env.chunks, false, true);
    var log2 := log1 + ProgressCalls(t.emits);
    var argv := Some([binary] + ArgVector(o, true, true));
    match RsyncError(t, env.exitCode)
    case Some(err) => Effect(fs, log2, argv, Raised(err))
    case None =>
      var log3 := if skipLatest then log2 else log2 + [NotifyCall(RmMsg(latest))] + [NotifyCall(LnMsg(o.target, latest))];
      Effect(fs, log3, argv, Completed)
  }

  /**
   * Replacing `_latest` after a successful rsync. As written: remove it if
   * `exists` (which follows the link) says so, then create the link, even
   * when `skip_latest` is set. Intended: leave it alone when `skip_latest`
   * is set, and remove whatever link is there (`lexists`).
   */
  function RelinkSpec(fs: FsState, gen: string, latest: string, skipLatest: bool, policy: Policy): (r: Result<FsState, FsError>)
    ensures policy == Intended && skipLatest ==> r == Success(fs)
    ensures r.Success? && (policy == AsWritten || !skipLatest) ==> latest in r.value && r.value[latest] == Link(gen)
  {
    if policy == Intended && skipLatest then Success(fs)
    else
      var present := if policy == AsWritten then Exists(fs, latest) else latest in fs;
      if !present then Symlink(fs, gen, latest)
      else
        match Remove(fs, latest)
        case Failure(e) => Failure(e)
        case Success(fs') => Symlink(fs', gen, latest)
  }

  /**
   * The apply branch once the log file is open: run rsync writing to the
   * log, then relink `_latest`.
   */
  function LoggedRsyncSpec(o: SyncOptions, binary: string, fs: FsState, log: seq<LogCall>, env: Environment,
                           latest: string, skipLatest: bool, policy: Policy): Effect
  {
    var logFile := LogPath(o.target);
    var log1 := log + [NotifyCall(StartingMsg(logFile))];
    var t := Consume(env.chunks, true, true);
    var log2 := log1 + ProgressCalls(t.emits);
    var fs3 := Append(fs, logFile, LogText(t.emits));
    var argv := Some([binary] + ArgVector(o, true, false));
    match RsyncError(t, env.exitCode)
    case Some(err) => Effect(fs3, log2, argv, Raised(err))
    case None =>
      var log3 := log2 + [NotifyCall(FinishedRsyncMsg)];
      match RelinkSpec(fs3, o.target, latest, skipLatest, policy)
      case Failure(e) => Effect(fs3, log3, argv, Raised(Fs(e)))
      case Success(fs4) => Effect(fs4, log3, argv, Completed)
  }

  /**
   * The apply branch: create the generation and its log, run rsync into
   * it, relink `_latest`. When the generation directory is already there,
   * `makedirs` raises before anything changes or rsync starts.
   */
  function ApplySpec(o: SyncOptions, binary: string, fs: FsState, log: seq<LogCall>, env: Environment,
                     latest: string, skipLatest: bool, policy: Policy): (e: Effect)
    ensures o.target in fs ==> e == Effect(fs, log, None, Raised(Fs(FileExists(o.target))))
    ensures e.argv.Some? ==> o.target !in fs && e.argv == Some([binary] + ArgVector(o, true, false))
  {
    match MakeDirs(fs, o.target)
    case Failure(e) => Effect(fs, log, None, Raised(Fs(e)))
    case Success(fs1) =>
      match OpenWrite(fs1, LogPath(o.target))
      case Failure(e) => Effect(fs1, log, None, Raised(Fs(e)))
      case Success(fs2) => LoggedRsyncSpec(o, binary, fs2, log, env, latest, skipLatest, policy)
  }

  /**
   * The branch on `dry_mode`: the dry branch touches no file; whichever
   * branch runs rsync runs it with progress reports, and with `--dry-run`
   * exactly in dry mode.
   */
  function BranchSpec(o: SyncOptions, binary: string, fs: FsState, log: seq<LogCall>, env: Environment,
                      latest: string, dryMode: bool, skipLatest: bool, policy: Policy): (e: Effect)
    ensures dryMode ==> e.fs == fs
    ensures e.argv.Some? ==> e.argv.value == [binary] + ArgVector(o, true, dryMode)
  {
    if dryMode then DrySpec(o, binary, fs, log, env, latest, skipLatest)
    else ApplySpec(o, binary, fs, log, env, latest, skipLatest, policy)
  }

  /** The run once the previous generation is known: the first progress report, the branch, the closing messages. */
  function ProceedSpec(b: Backup, fs: FsState, log: seq<LogCall>, env: Environment, gen: string, latest: string,
                       prev: Option<string>, dryMode: bool, skipLatest: bool, policy: Policy): Effect
    requires Valid(env.start)
  {
    var body := BranchSpec(BackupOptions(b, gen, prev), env.which, fs, log + [ProgressCall(0, 0.0, "00:00:00")],
                           env, latest, dryMode, skipLatest, policy);
    if body.outcome.Completed? then
      body.(calls := body.calls + [SuccessCall(FinishedMsg(b.source, StrTimestamp(env.start)))] + [InfoCall(TookMsg(env.took))])
    else body
  }

  /** `Backup.run(logger, dry_mode, skip_latest)`, with the logger's calls so far in `log`. */
  function RunSpec(b: Backup, fs: FsState, log: seq<LogCall>, env: Environment, dryMode: bool, skipLatest: bool,
                   policy: Policy): (e: Effect)
    requires Valid(env.start)
    ensures dryMode ==> e.fs == fs
    ensures e.argv.Some? ==> |e.argv.value| > 0 && e.argv.value[0] == env.which
    ensures PreviousGeneration(fs, LatestPath(b.target), skipLatest).Failure? ==>
              e.fs == fs && e.argv.None? && e.outcome == Raised(Fs(PreviousGeneration(fs, LatestPath(b.target), skipLatest).error))
  {
    var gen := GenerationPath(b.target, env.start);
    var latest := LatestPath(b.target);
    var log1 := log + [InfoCall(CreatingMsg(b.source))] + [NotifyCall(CreatingAtMsg(gen))];
    match PreviousGeneration(fs, latest, skipLatest)
    case Failure(e) => Effect(fs, log1, None, Raised(Fs(e)))
    case Success(prev) => ProceedSpec(b, fs, log1 + FoundCalls(prev), env, gen, latest, prev, dryMode, skipLatest, policy)
  }

  // ---------------------------------------------------------------------
  // The run, step by step
  // ---------------------------------------------------------------------

  /**
   * The callbacks of the read loop: each report goes to the logger's
   * `progress`, each write to the log file (when there is one).
   */
  method Deliver(emits: seq<Emit>, fs: FileSystem, logger: Logger, logFile: Option<string>)
    modifies fs, logger
    ensures logger.calls == old(logger.calls) + ProgressCalls(emits)
    ensures fs.entries == if logFile.Some? then Append(old(fs.entries), logFile.value, LogText(emits)) else old(fs.entries)
  {
    var i := 0;
    if logFile.Some? {
      AppendNothing(fs.entries, logFile.value);
    }
    while i < |emits|
      invariant 0 <= i <= |emits|
      invariant logger.calls == old(logger.calls) + ProgressCalls(emits[..i])
      invariant fs.entries == if logFile.Some? then Append(old(fs.entries), logFile.value, LogText(emits[..i])) else old(fs.entries)
    {
      var e := emits[i];
      assert emits[..i + 1][..i] == emits[..i] && emits[..i + 1][i] == e;
      match e {
        case Report(info) =>
          assert LogText(emits[..i + 1]) == LogText(emits[..i]) + "";
          assert LogText(emits[..i]) + "" == LogText(emits[..i]);
          logger.Progress(info.bytesSent, info.completionRate, info.eta);
        case Write(text) =>
          if logFile.Some? {
            AppendTwice(old(fs.entries), logFile.value, LogText(emits[..i]), text);
            fs.Write(logFile.value, text);
          }
      }
      i := i + 1;
    }
    assert emits[..i] == emits;
  }

  /** The dry branch of `run`. */
  method DryRun(rs: RSync, fs: FileSystem, logger: Logger, env: Environment, latest: string, skipLatest: bool)
    returns (argv: Option<seq<string>>, outcome: Outcome)
    modifies fs, logger
    ensures var e := DrySpec(rs.Settings(), rs.binary, old(fs.entries), old(logger.calls), env, latest, skipLatest);
            fs.entries == e.fs && logger.calls == e.calls && argv == e.argv && outcome == e.outcome
  {
    logger.Warn(DryModeMsg);
    logger.Notify(MkdirMsg(rs.target));
    var cmd := rs.Command();
    logger.Notify(CommandMsg(cmd));
    var run, emits, result := rs.Run(env.chunks, env.exitCode, false, true, true);
    argv := Some(run);
    Deliver(emits, fs, logger, None);
    if result.Failure? {
      return argv, Raised(Stream(result.error));
    }
    if result.value != 0 {
      return argv, Raised(RsyncExit(result.value));
    }
    if !skipLatest {
      logger.Notify(RmMsg(latest));
      logger.Notify(LnMsg(rs.target, latest));
    }
    outcome := Completed;
  }

  /** Replacing `_latest` after rsync succeeded. */
  method Relink(fs: FileSystem, gen: string, latest: string, skipLatest: bool, policy: Policy)
    returns (err: Option<FsError>)
    modifies fs
    ensures RelinkSpec(old(fs.entries), gen, latest, skipLatest, policy).Failure? <==> err.Some?
    ensures err.Some? ==> fs.entries == old(fs.entries) && err.value == RelinkSpec(old(fs.entries), gen, latest, skipLatest, policy).error
    ensures err.None? ==> fs.entries == RelinkSpec(old(fs.entries), gen, latest, skipLatest, policy).value
  {
    if policy == Intended && skipLatest {
      return None;
    }
    var present;
    if policy == AsWritten {
      present := fs.PathExists(latest);
    } else {
      present := fs.LinkExists(latest);
    }
    if present {
      err := fs.RemoveAt(latest);
      if err.Some? {
        return;
      }
    }
    err := fs.SymlinkAt(gen, latest);
  }

  /** The apply branch of `run` once the log file is open. */
  method LoggedRsync(rs: RSync, fs: FileSystem, logger: Logger, env: Environment, latest: string,
                     skipLatest: bool, policy: Policy)
    returns (argv: Option<seq<string>>, outcome: Outcome)
    modifies fs, logger
    ensures var e := LoggedRsyncSpec(rs.Settings(), rs.binary, old(fs.entries), old(logger.calls), env, latest, skipLatest, policy);
            fs.entries == e.fs && logger.calls == e.calls && argv == e.argv && outcome == e.outcome
  {
    var logFile := LogPath(rs.target);
    logger.Notify(StartingMsg(logFile));
    var run, emits, result := rs.Run(env.chunks, env.exitCode, true, true);
    argv := Some(run);
    Deliver(emits, fs, logger, Some(logFile));
    if result.Failure? {
      return argv, Raised(Stream(result.error));
    }
    if result.value != 0 {
      return argv, Raised(RsyncExit(result.value));
    }
    logger.Notify(FinishedRsyncMsg);
    var err := Relink(fs, rs.target, latest, skipLatest, policy);
    outcome := if err.Some? then Raised(Fs(err.value)) else Completed;
  }

  /** The apply branch of `run`. */
  method Apply(rs: RSync, fs: FileSystem, logger: Logger, env: Environment, latest: string, skipLatest: bool, policy: Policy)
    returns (argv: Option<seq<string>>, outcome: Outcome)
    modifies fs, logger
    ensures var e := ApplySpec(rs.Settings(), rs.binary, old(fs.entries), old(logger.calls), env, latest, skipLatest, policy);
            fs.entries == e.fs && logger.calls == e.calls && argv == e.argv && outcome == e.outcome
  {
    var err := fs.MakeDirsAt(rs.target);
    if err.Some? {
      return None, Raised(Fs(err.value));
    }
    err := fs.OpenWriteAt(LogPath(rs.target));
    if err.Some? {
      return None, Raised(Fs(err.value));
    }
    argv, outcome := LoggedRsync(rs, fs, logger, env, latest, skipLatest, policy);
  }

  /** The lookup of the previous generation through `_latest`, and its notice. */
  method FindPrevious(fs: FileSystem, logger: Logger, latest: string, skipLatest: bool)
    returns (prev: Result<Option<string>, FsError>)
    modifies logger
    ensures prev == PreviousGeneration(fs.entries, latest, skipLatest)
    ensures logger.calls == old(logger.calls) + if prev.Success? then FoundCalls(prev.value) else []
  {
    prev := Success(None);
    var present := false;
    if !skipLatest {
      present := fs.PathExists(latest);
    }
    if present {
      var link := fs.ReadLinkAt(latest);
      if link.Failure? {
        return Failure(link.error);
      }
      prev := Success(Some(link.value));
      logger.Notify(FoundMsg(link.value));
    }
  }

  /** The branch on `dry_mode`. */
  method Branch(rs: RSync, fs: FileSystem, logger: Logger, env: Environment, latest: string,
                dryMode: bool, skipLatest: bool, policy: Policy)
    returns (argv: Option<seq<string>>, outcome: Outcome)
    modifies fs, logger
    ensures var e := BranchSpec(rs.Settings(), rs.binary, old(fs.entries), old(logger.calls), env, latest, dryMode, skipLatest, policy);
            fs.entries == e.fs && logger.calls == e.calls && argv == e.argv && outcome == e.outcome
  {
    if dryMode {
      argv, outcome := DryRun(rs, fs, logger, env, latest, skipLatest);
    } else {
      argv, outcome := Apply(rs, fs, logger, env, latest, skipLatest, policy);
    }
  }

  /** `run` from the first progress report on: build the `RSync` object, branch, report the end. */
  method Proceed(b: Backup, fs: FileSystem, logger: Logger, env: Environment, gen: string, latest: string,
                 prev: Option<string>, dryMode: bool, skipLatest: bool, policy: Policy)
    returns (argv: Option<seq<string>>, outcome: Outcome)
    requires Valid(env.start)
    modifies fs, logger
    ensures var e := ProceedSpec(b, old(fs.entries), old(logger.calls), env, gen, latest, prev, dryMode, skipLatest, policy);
            fs.entries == e.fs && logger.calls == e.calls && argv == e.argv && outcome == e.outcome
  {
    logger.Progress(0, 0.0, "00:00:00");
    var rs := new RSync(b.source, gen, env.which, excludes := Some(b.excludes), linkDest := prev);
    assert rs.Settings() == BackupOptions(b, gen, prev);
    argv, outcome := Branch(rs, fs, logger, env, latest, dryMode, skipLatest, policy);
    if outcome.Completed? {
      logger.Success(FinishedMsg(b.source, StrTimestamp(env.start)));
      logger.Info(TookMsg(env.took));
    }
  }

  /**
   * `Backup.run`: the generation is named after `env.start`; `policy`
   * chooses how `_latest` is replaced (the code does it `AsWritten`).
   */
  method Run(b: Backup, fs: FileSystem, logger: Logger, env: Environment, dryMode: bool := false,
             skipLatest: bool := false, policy: Policy := AsWritten)
    returns (argv: Option<seq<string>>, outcome: Outcome)
    requires Valid(env.start)
    modifies fs, logger
    ensures var e := RunSpec(b, old(fs.entries), old(logger.calls), env, dryMode, skipLatest, policy);
            fs.entries == e.fs && logger.calls == e.calls && argv == e.argv && outcome == e.outcome
  {
    var gen := GenerationPath(b.target, env.start);
    var latest := LatestPath(b.target);
    logger.Info(CreatingMsg(b.source));
    logger.Notify(CreatingAtMsg(gen));
    var prev := FindPrevious(fs, logger, latest, skipLatest);
    if prev.Failure? {
      return None, Raised(Fs(prev.error));
    }
    argv, outcome := Proceed(b, fs, logger, env, gen, latest, prev.value, dryMode, skipLatest, policy);
  }

  // ---------------------------------------------------------------------
  // Small facts the methods use
  // ---------------------------------------------------------------------

  lemma AppendTwice(fs: FsState, p: string, a: string, b: string)
    ensures Append(Append(fs, p, a), p, b) == Append(fs, p, a + b)
  {
    if p in fs && fs[p].File? {
      assert fs[p].content + a + b == fs[p].content + (a + b);
    }
  }

  lemma AppendNothing(fs: FsState, p: string)
    ensures Append(fs, p, "") == fs
  {
    if p in fs && fs[p].File? {
      assert fs[p].content + "" == fs[p].content;
    }
  }
}
