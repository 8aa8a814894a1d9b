/**
 * What a run of `Backup.run` promises about the backup target: which
 * paths it touches, when `_latest` moves, what rsync is told, what the
 * logger hears, and where the code departs from what its docstring and
 * the `_latest` link are for.
 */
module BackupProperties {
  import opened Common
  import opened Argv
  import opened Paths
  import opened Filesystem
  import opened Generations
  import opened Sync
  import opened Engine

  /** `p` is present in both states or in neither, and holds the same entry. */
  predicate SameAt(fs1: FsState, fs2: FsState, p: string) {
    (p in fs1 <==> p in fs2) && (p in fs1 ==> fs1[p] == fs2[p])
  }

  // ---------------------------------------------------------------------
  // Backup definitions
  // ---------------------------------------------------------------------

  /**
   * `Backup.__eq__`: two definitions are equal exactly when source,
   * target, description and exclude list agree, so a missing exclude
   * list equals an empty one.
   */
  lemma BackupEquality(s1: string, t1: string, d1: Option<string>, x1: Option<seq<string>>,
                       s2: string, t2: string, d2: Option<string>, x2: Option<seq<string>>)
    ensures NewBackup(s1, t1, d1, x1) == NewBackup(s2, t2, d2, x2)
            <==> s1 == s2 && t1 == t2 && d1 == d2 && ExcludeList(x1) == ExcludeList(x2)
    ensures NewBackup(s1, t1, d1, None) == NewBackup(s1, t1, d1, Some([]))
  {
  }

  // ---------------------------------------------------------------------
  // The paths of one run
  // ---------------------------------------------------------------------

  /**
   * The generation, its log file and `_latest` are three different paths,
   * and neither `_latest` nor the log file is among the directories
   * `makedirs` creates above the generation.
   */
  lemma PathsApart(target: string, start: Timestamp)
    requires Valid(start)
    ensures var gen := GenerationPath(target, start);
            var latest := LatestPath(target);
            var logFile := LogPath(gen);
            && latest != gen && latest != logFile && gen != logFile
            && latest !in Ancestors(gen) && logFile !in Ancestors(gen)
  {
    var name := GenerationName(start);
    var gen := GenerationPath(target, start);
    var latest := LatestPath(target);
    var logFile := LogPath(gen);
    assert !IsAbs(name) by { assert name[0] != '/' by { assert name[0] in name; } }
    assert |latest| < |gen|;
    assert |gen| < |logFile|;
    forall q | q in Ancestors(gen)
      ensures |q| < |latest|
    {
      AncestorsShorter(gen, q);
    }
  }

  // ---------------------------------------------------------------------
  // Replacing `_latest`
  // ---------------------------------------------------------------------

  /**
   * A successful relink leaves `_latest` pointing at the new generation
   * and every other path as it was, unless the intended policy skips it.
   */
  lemma RelinkEffect(fs: FsState, gen: string, latest: string, skipLatest: bool, policy: Policy)
    ensures policy == Intended && skipLatest ==> RelinkSpec(fs, gen, latest, skipLatest, policy) == Success(fs)
    ensures var r := RelinkSpec(fs, gen, latest, skipLatest, policy);
            r.Success? && (policy == AsWritten || !skipLatest) ==>
              && latest in r.value && r.value[latest] == Link(gen)
              && forall p :: p != latest ==> SameAt(fs, r.value, p)
  {
  }

  /**
   * As written, relinking fails when `_latest` is a directory, or when
   * something is there that `exists` does not see: a dangling link,
   * which `exists` skips and `symlink` then trips over.
   */
  lemma RelinkFailsAsWritten(fs: FsState, gen: string, latest: string, skipLatest: bool)
    ensures RelinkSpec(fs, gen, latest, skipLatest, AsWritten).Failure?
            <==> latest in fs && (fs[latest].Dir? || !Exists(fs, latest))
  {
  }

  /** With the intended policy, relinking fails only when `_latest` is a directory. */
  lemma RelinkFailsIntended(fs: FsState, gen: string, latest: string, skipLatest: bool)
    ensures RelinkSpec(fs, gen, latest, skipLatest, Intended).Failure?
            <==> !skipLatest && latest in fs && fs[latest].Dir?
  {
  }

  // ---------------------------------------------------------------------
  // The apply branch
  // ---------------------------------------------------------------------

  /**
   * The apply branch once the log is open: rsync's output is appended to
   * the log (`fs3`); a failed rsync raises there, a clean one ends in the
   * relink of `fs3`.
   */
  lemma LoggedRsyncStages(o: SyncOptions, binary: string, fs2: FsState, log: seq<LogCall>, env: Environment,
                          latest: string, skipLatest: bool, policy: Policy)
    ensures var t := Consume(env.chunks, true, true);
            var fs3 := Append(fs2, LogPath(o.target), LogText(t.emits));
            var r := RelinkSpec(fs3, o.target, latest, skipLatest, policy);
            var e := LoggedRsyncSpec(o, binary, fs2, log, env, latest, skipLatest, policy);
            && e.argv == Some([binary] + ArgVector(o, true, false))
            && (RsyncError(t, env.exitCode).Some? ==> e.fs == fs3 && e.outcome == Raised(RsyncError(t, env.exitCode).value))
            && (RsyncError(t, env.exitCode).None? && r.Failure? ==> e.fs == fs3 && e.outcome == Raised(Fs(r.error)))
            && (RsyncError(t, env.exitCode).None? && r.Success? ==> e.fs == r.value && e.outcome == Completed)
  {
  }

  /**
   * The apply branch up to the relink: `fs3` is the state after
   * `makedirs`, opening the log and writing rsync's output to it. It
   * holds `_latest` as it was; a run that raises leaves `_latest` as it
   * was; a completed one ends in the relink of `fs3`.
   */
  lemma ApplyStages(o: SyncOptions, binary: string, fs: FsState, log: seq<LogCall>, env: Environment,
                    latest: string, skipLatest: bool, policy: Policy) returns (fs3: FsState)
    requires latest != o.target && latest != LogPath(o.target) && latest !in Ancestors(o.target)
    ensures SameAt(fs, fs3, latest)
    ensures var e := ApplySpec(o, binary, fs, log, env, latest, skipLatest, policy);
            && (e.outcome.Raised? ==> SameAt(fs, e.fs, latest))
            && (e.outcome.Completed? ==> RelinkSpec(fs3, o.target, latest, skipLatest, policy) == Success(e.fs))
  {
    fs3 := fs;
    var logFile := LogPath(o.target);
    if MakeDirs(fs, o.target).Success? {
      var fs1 := MakeDirs(fs, o.target).value;
      assert SameAt(fs, fs1, latest);
      if OpenWrite(fs1, logFile).Success? {
        var fs2 := OpenWrite(fs1, logFile).value;
        fs3 := Append(fs2, logFile, LogText(Consume(env.chunks, true, true).emits));
        assert SameAt(fs, fs3, latest);
        LoggedRsyncStages(o, binary, fs2, log, env, latest, skipLatest, policy);
        assert ApplySpec(o, binary, fs, log, env, latest, skipLatest, policy)
            == LoggedRsyncSpec(o, binary, fs2, log, env, latest, skipLatest, policy);
      }
    }
  }

  /**
   * Once rsync has been started in apply mode, the generation is a
   * directory and its log file holds everything rsync wrote; and rsync
   * was started exactly when neither `makedirs` nor `open` raised.
   */
  lemma ApplyWritesLog(o: SyncOptions, binary: string, fs: FsState, log: seq<LogCall>, env: Environment,
                       latest: string, skipLatest: bool, policy: Policy)
    requires latest != o.target && latest != LogPath(o.target)
    ensures var e := ApplySpec(o, binary, fs, log, env, latest, skipLatest, policy);
            && (e.argv.Some? <==> o.target !in fs && OpenWrite(MakeDirs(fs, o.target).value, LogPath(o.target)).Success?)
            && (e.argv.Some? ==>
                  && o.target in e.fs && e.fs[o.target] == Dir
                  && LogPath(o.target) in e.fs
                  && e.fs[LogPath(o.target)] == File(LogText(Consume(env.chunks, true, true).emits)))
  {
    var logFile := LogPath(o.target);
    assert logFile != o.target by { assert |logFile| > |o.target|; }
    if o.target !in fs {
      var fs1 := MakeDirs(fs, o.target).value;
      if OpenWrite(fs1, logFile).Success? {
        var fs2 := OpenWrite(fs1, logFile).value;
        var text := LogText(Consume(env.chunks, true, true).emits);
        var fs3 := Append(fs2, logFile, text);
        assert fs3[logFile] == File(text) && fs3[o.target] == Dir;
        LoggedRsyncStages(o, binary, fs2, log, env, latest, skipLatest, policy);
        RelinkEffect(fs3, o.target, latest, skipLatest, policy);
        var e := LoggedRsyncSpec(o, binary, fs2, log, env, latest, skipLatest, policy);
        assert SameAt(fs3, e.fs, o.target) && SameAt(fs3, e.fs, logFile);
        assert ApplySpec(o, binary, fs, log, env, latest, skipLatest, policy) == e;
      }
    }
  }

  // ---------------------------------------------------------------------
  // A whole run: the filesystem
  // ---------------------------------------------------------------------

  /**
   * A run that gets past the lookup of `_latest` has the filesystem,
   * rsync command and outcome of the branch on `dry_mode`, with the
   * options built from the backup and the previous generation found.
   */
  lemma RunStages(b: Backup, fs: FsState, log: seq<LogCall>, env: Environment, dryMode: bool, skipLatest: bool,
                  policy: Policy) returns (prev: Option<string>, log2: seq<LogCall>)
    requires Valid(env.start)
    requires PreviousGeneration(fs, LatestPath(b.target), skipLatest).Success?
    ensures prev == PreviousGeneration(fs, LatestPath(b.target), skipLatest).value
    ensures var e := RunSpec(b, fs, log, env, dryMode, skipLatest, policy);
            var br := BranchSpec(BackupOptions(b, GenerationPath(b.target, env.start), prev), env.which, fs, log2, env,
                                 LatestPath(b.target), dryMode, skipLatest, policy);
            e.fs == br.fs && e.argv == br.argv && e.outcome == br.outcome
  {
    var gen := GenerationPath(b.target, env.start);
    var latest := LatestPath(b.target);
    prev := PreviousGeneration(fs, latest, skipLatest).value;
    var log1 := log + [InfoCall(CreatingMsg(b.source))] + [NotifyCall(CreatingAtMsg(gen))] + FoundCalls(prev);
    log2 := log1 + [ProgressCall(0, 0.0, "00:00:00")];
    var pr := ProceedSpec(b, fs, log1, env, gen, latest, prev, dryMode, skipLatest, policy);
    assert RunSpec(b, fs, log, env, dryMode, skipLatest, policy) == pr;
    var br := BranchSpec(BackupOptions(b, gen, prev), env.which, fs, log2, env, latest, dryMode, skipLatest, policy);
    assert pr.fs == br.fs && pr.argv == br.argv && pr.outcome == br.outcome;
  }

  /** A run that raises leaves `_latest` as it found it: there, with the same target, or absent. */
  lemma FailedRunKeepsLatest(b: Backup, fs: FsState, log: seq<LogCall>, env: Environment, dryMode: bool,
                             skipLatest: bool, policy: Policy)
    requires Valid(env.start)
    ensures var e := RunSpec(b, fs, log, env, dryMode, skipLatest, policy);
            e.outcome.Raised? ==> SameAt(fs, e.fs, LatestPath(b.target))
  {
    var latest := LatestPath(b.target);
    if PreviousGeneration(fs, latest, skipLatest).Success? {
      var prev, log2 := RunStages(b, fs, log, env, dryMode, skipLatest, policy);
      if !dryMode {
        PathsApart(b.target, env.start);
        var o := BackupOptions(b, GenerationPath(b.target, env.start), prev);
        var fs3 := ApplyStages(o, env.which, fs, log2, env, latest, skipLatest, policy);
      }
    }
  }

  /** `_latest` changes only in a completed apply-mode run, and then it points at the new generation. */
  lemma LatestMovesOnlyOnSuccess(b: Backup, fs: FsState, log: seq<LogCall>, env: Environment, dryMode: bool,
                                 skipLatest: bool, policy: Policy)
    requires Valid(env.start)
    ensures var e := RunSpec(b, fs, log, env, dryMode, skipLatest, policy);
            var latest := LatestPath(b.target);
            !SameAt(fs, e.fs, latest) ==>
              && !dryMode && e.outcome.Completed?
              && latest in e.fs && e.fs[latest] == Link(GenerationPath(b.target, env.start))
  {
    var latest := LatestPath(b.target);
    if !dryMode && PreviousGeneration(fs, latest, skipLatest).Success? {
      var e := RunSpec(b, fs, log, env, dryMode, skipLatest, policy);
      var prev, log2 := RunStages(b, fs, log, env, dryMode, skipLatest, policy);
      var gen := GenerationPath(b.target, env.start);
      PathsApart(b.target, env.start);
      var o := BackupOptions(b, gen, prev);
      var fs3 := ApplyStages(o, env.which, fs, log2, env, latest, skipLatest, policy);
      if e.outcome.Completed? {
        RelinkEffect(fs3, gen, latest, skipLatest, policy);
      }
    }
  }

  /**
   * A completed apply-mode run leaves `_latest` pointing at the new
   * generation (under the intended policy, unless `skip_latest` is set).
   */
  lemma CompletedRunLinksLatest(b: Backup, fs: FsState, log: seq<LogCall>, env: Environment,
                                skipLatest: bool, policy: Policy)
    requires Valid(env.start)
    requires policy == AsWritten || !skipLatest
    ensures var e := RunSpec(b, fs, log, env, false, skipLatest, policy);
            var latest := LatestPath(b.target);
            e.outcome.Completed? ==> latest in e.fs && e.fs[latest] == Link(GenerationPath(b.target, env.start))
  {
    var latest := LatestPath(b.target);
    if PreviousGeneration(fs, latest, skipLatest).Success? {
      var prev, log2 := RunStages(b, fs, log, env, false, skipLatest, policy);
      var gen := GenerationPath(b.target, env.start);
      PathsApart(b.target, env.start);
      var o := BackupOptions(b, gen, prev);
      var fs3 := ApplyStages(o, env.which, fs, log2, env, latest, skipLatest, policy);
      RelinkEffect(fs3, gen, latest, skipLatest, policy);
    }
  }

  /**
   * Once rsync has been started in apply mode, the new generation is a
   * directory whose log file holds everything rsync wrote to its output,
   * however the run ends.
   */
  lemma GenerationHoldsLog(b: Backup, fs: FsState, log: seq<LogCall>, env: Environment, skipLatest: bool, policy: Policy)
    requires Valid(env.start)
    ensures var e := RunSpec(b, fs, log, env, false, skipLatest, policy);
            var gen := GenerationPath(b.target, env.start);
            e.argv.Some? ==>
              && gen in e.fs && e.fs[gen] == Dir
              && LogPath(gen) in e.fs && e.fs[LogPath(gen)] == File(LogText(Consume(env.chunks, true, true).emits))
  {
    var latest := LatestPath(b.target);
    if PreviousGeneration(fs, latest, skipLatest).Success? {
      var prev, log2 := RunStages(b, fs, log, env, false, skipLatest, policy);
      var gen := GenerationPath(b.target, env.start);
      PathsApart(b.target, env.start);
      ApplyWritesLog(BackupOptions(b, gen, prev), env.which, fs, log2, env, latest, skipLatest, policy);
    }
  }

  // ---------------------------------------------------------------------
  // A whole run: the rsync command
  // ---------------------------------------------------------------------

  /**
   * The rsync command of a run: the path `which` found, then archive,
   * verbose, delete, dry-run (in dry mode only) and progress options, the
   * source, `--link-dest` with the target of `_latest` when `_latest`
   * exists and is not skipped, the backup's excludes, and the new
   * generation.
   */
  lemma RsyncInvocation(b: Backup, fs: FsState, log: seq<LogCall>, env: Environment, dryMode: bool,
                        skipLatest: bool, policy: Policy)
    requires Valid(env.start)
    ensures var e := RunSpec(b, fs, log, env, dryMode, skipLatest, policy);
            var gen := GenerationPath(b.target, env.start);
            var latest := LatestPath(b.target);
            e.argv.Some? ==>
              && (!skipLatest && Exists(fs, latest) ==>
                    latest in fs && fs[latest].Link?
                    && e.argv.value == [env.which] + ArgVector(BackupOptions(b, gen, Some(fs[latest].target)), true, dryMode))
              && (skipLatest || !Exists(fs, latest) ==>
                    e.argv.value == [env.which] + ArgVector(BackupOptions(b, gen, None), true, dryMode))
  {
    var latest := LatestPath(b.target);
    if PreviousGeneration(fs, latest, skipLatest).Success? {
      var prev, log2 := RunStages(b, fs, log, env, dryMode, skipLatest, policy);
      var gen := GenerationPath(b.target, env.start);
    }
  }

  /**
   * The layout of a backup's rsync command after the binary and its `n`
   * options: source, `--link-dest` and its target when there is a
   * previous generation, excludes, generation.
   */
  lemma CommandLayout(a: seq<string>, b: Backup, gen: string, prev: Option<string>, which: string, dryMode: bool)
    requires a == [which] + ArgVector(BackupOptions(b, gen, prev), true, dryMode)
    ensures var n := if dryMode then 6 else 5;
            && n + 3 <= |a| && a[n + 1] == b.source && a[|a| - 1] == gen
            && (Truthy(prev) ==> n + 3 < |a| && a[n + 2] == "--link-dest" && a[n + 3] == prev.value)
            && (!Truthy(prev) ==> a[n + 2..|a| - 1] == ExcludeArgs(b.excludes))
  {
    var n := if dryMode then 6 else 5;
    var v := ArgVector(BackupOptions(b, gen, prev), true, dryMode);
    BackupArgVector(b, gen, prev, dryMode);
    ConsSlice(which, v, n + 1, |v| - 1);
  }

  /** The argument vector of a backup's rsync run, after its `n` options. */
  lemma BackupArgVector(b: Backup, gen: string, prev: Option<string>, dryMode: bool)
    ensures var v := ArgVector(BackupOptions(b, gen, prev), true, dryMode);
            var n := if dryMode then 6 else 5;
            && n + 2 <= |v| && v[n] == b.source && v[|v| - 1] == gen
            && (Truthy(prev) ==> n + 2 < |v| && v[n + 1] == "--link-dest" && v[n + 2] == prev.value)
            && (!Truthy(prev) ==> v[n + 1..|v| - 1] == ExcludeArgs(b.excludes))
  {
    var o := BackupOptions(b, gen, prev);
    assert OptionCount(o, true, dryMode) == if dryMode then 6 else 5;
    ArgVectorExcludes(o, true, dryMode);
    if Truthy(prev) {
      ArgVectorLinkDest(o, true, dryMode);
    }
  }

  /** Putting one element in front shifts every slice by one. */
  lemma ConsSlice<T>(x: T, v: seq<T>, i: nat, j: nat)
    requires i <= j <= |v|
    ensures ([x] + v)[i + 1..j + 1] == v[i..j]
  {
  }

  /** Among a backup's rsync options: `--dry-run` exactly in dry mode, the progress options always. */
  lemma CommandSwitches(a: seq<string>, b: Backup, gen: string, prev: Option<string>, which: string, dryMode: bool)
    requires a == [which] + ArgVector(BackupOptions(b, gen, prev), true, dryMode)
    ensures var n := if dryMode then 6 else 5;
            n < |a| &&
            var opts := a[1..n + 1];
            && ("--dry-run" in opts <==> dryMode)
            && "--no-i-r" in opts && "--info=progress2" in opts
            && "--archive" in opts && "--verbose" in opts && "--delete" in opts
  {
    var o := BackupOptions(b, gen, prev);
    var opts := Options(o, true, dryMode);
    BackupSwitches(b, gen, prev, dryMode);
    ConsPrefix(which, ArgVector(o, true, dryMode), opts);
  }

  /** A prefix of a sequence, seen after one element put in front. */
  lemma ConsPrefix<T>(x: T, v: seq<T>, p: seq<T>)
    requires |p| <= |v| && v[..|p|] == p
    ensures ([x] + v)[1..|p| + 1] == p
  {
    ConsSlice(x, v, 0, |p|);
  }

  /** The options of a backup's rsync run. */
  lemma BackupSwitches(b: Backup, gen: string, prev: Option<string>, dryMode: bool)
    ensures var opts := Options(BackupOptions(b, gen, prev), true, dryMode);
            && |opts| == (if dryMode then 6 else 5)
            && ("--dry-run" in opts <==> dryMode)
            && "--no-i-r" in opts && "--info=progress2" in opts
            && "--archive" in opts && "--verbose" in opts && "--delete" in opts
  {
    var o := BackupOptions(b, gen, prev);
    OptionsPresence(o, true, dryMode, "--dry-run");
    OptionsPresence(o, true, dryMode, "--no-i-r");
    OptionsPresence(o, true, dryMode, "--info=progress2");
    OptionsPresence(o, true, dryMode, "--archive");
    OptionsPresence(o, true, dryMode, "--verbose");
    OptionsPresence(o, true, dryMode, "--delete");
  }

  /**
   * Hard links against the previous generation: when `_latest` exists and
   * is not skipped, rsync gets `--link-dest` and the link's target right
   * after the source; otherwise the source is followed directly by the
   * excludes and the generation.
   */
  lemma LinkDestFollowsLatest(b: Backup, fs: FsState, log: seq<LogCall>, env: Environment, dryMode: bool,
                              skipLatest: bool, policy: Policy)
    requires Valid(env.start)
    ensures var e := RunSpec(b, fs, log, env, dryMode, skipLatest, policy);
            var latest := LatestPath(b.target);
            var n := if dryMode then 6 else 5;
            e.argv.Some? ==>
              var a := e.argv.value;
              && n + 3 <= |a| && a[n + 1] == b.source && a[|a| - 1] == GenerationPath(b.target, env.start)
              && (!skipLatest && Exists(fs, latest) && fs[latest].target != "" ==>
                    n + 3 < |a| && a[n + 2] == "--link-dest" && a[n + 3] == fs[latest].target)
              && (skipLatest || !Exists(fs, latest) ==>
                    a[n + 2..|a| - 1] == ExcludeArgs(b.excludes))
  {
    var e := RunSpec(b, fs, log, env, dryMode, skipLatest, policy);
    var gen := GenerationPath(b.target, env.start);
    var latest := LatestPath(b.target);
    RsyncInvocation(b, fs, log, env, dryMode, skipLatest, policy);
    if e.argv.Some? {
      LatestLayout(e.argv.value, b, fs, gen, latest, env.which, dryMode, skipLatest);
    }
  }

  /** `LinkDestFollowsLatest` for a command already known to be built from the state of `_latest`. */
  lemma LatestLayout(a: seq<string>, b: Backup, fs: FsState, gen: string, latest: string, which: string,
                     dryMode: bool, skipLatest: bool)
    requires !skipLatest && Exists(fs, latest) ==>
               latest in fs && fs[latest].Link?
               && a == [which] + ArgVector(BackupOptions(b, gen, Some(fs[latest].target)), true, dryMode)
    requires skipLatest || !Exists(fs, latest) ==> a == [which] + ArgVector(BackupOptions(b, gen, None), true, dryMode)
    ensures var n := if dryMode then 6 else 5;
            && n + 3 <= |a| && a[n + 1] == b.source && a[|a| - 1] == gen
            && (!skipLatest && Exists(fs, latest) && fs[latest].target != "" ==>
                  n + 3 < |a| && a[n + 2] == "--link-dest" && a[n + 3] == fs[latest].target)
            && (skipLatest || !Exists(fs, latest) ==> a[n + 2..|a| - 1] == ExcludeArgs(b.excludes))
  {
    if !skipLatest && Exists(fs, latest) {
      CommandLayout(a, b, gen, Some(fs[latest].target), which, dryMode);
    } else {
      CommandLayout(a, b, gen, None, which, dryMode);
    }
  }

  /**
   * rsync gets `--dry-run` exactly in dry mode, and always the options
   * that make it report progress.
   */
  lemma DryRunSwitch(b: Backup, fs: FsState, log: seq<LogCall>, env: Environment, dryMode: bool,
                     skipLatest: bool, policy: Policy)
    requires Valid(env.start)
    ensures var e := RunSpec(b, fs, log, env, dryMode, skipLatest, policy);
            var n := if dryMode then 6 else 5;
            e.argv.Some? ==>
              n < |e.argv.value| &&
              var opts := e.argv.value[1..n + 1];
              && ("--dry-run" in opts <==> dryMode)
              && "--no-i-r" in opts && "--info=progress2" in opts
              && "--archive" in opts && "--verbose" in opts && "--delete" in opts
  {
    var e := RunSpec(b, fs, log, env, dryMode, skipLatest, policy);
    var gen := GenerationPath(b.target, env.start);
    var latest := LatestPath(b.target);
    RsyncInvocation(b, fs, log, env, dryMode, skipLatest, policy);
    if e.argv.Some? {
      var prev := if !skipLatest && Exists(fs, latest) then Some(fs[latest].target) else None;
      CommandSwitches(e.argv.value, b, gen, prev, env.which, dryMode);
    }
  }

  // ---------------------------------------------------------------------
  // A whole run: how it ends
  // ---------------------------------------------------------------------

  /**
   * A branch completes only after rsync's output was read to the end and
   * it exited with 0; an error that is not a filesystem error is rsync's,
   * and rsync was started.
   */
  lemma BranchOutcome(o: SyncOptions, binary: string, fs: FsState, log: seq<LogCall>, env: Environment,
                      latest: string, dryMode: bool, skipLatest: bool, policy: Policy)
    ensures var e := BranchSpec(o, binary, fs, log, env, latest, dryMode, skipLatest, policy);
            var t := Consume(env.chunks, !dryMode, true);
            && (e.outcome.Completed? ==> RsyncError(t, env.exitCode).None?)
            && (e.outcome.Raised? && !e.outcome.error.Fs? ==> e.argv.Some? && RsyncError(t, env.exitCode) == Some(e.outcome.error))
            && (e.argv.Some? && RsyncError(t, env.exitCode).Some? ==> e.outcome == Raised(RsyncError(t, env.exitCode).value))
  {
    if !dryMode && MakeDirs(fs, o.target).Success? {
      var fs2 := OpenWrite(MakeDirs(fs, o.target).value, LogPath(o.target));
      if fs2.Success? {
        LoggedRsyncStages(o, binary, fs2.value, log, env, latest, skipLatest, policy);
      }
    }
  }

  /**
   * A run completes only if rsync exited with 0 after its whole output
   * was read; an exit status error carries rsync's non-zero status, and a
   * stream error is the read loop's.
   */
  lemma CompletedOnlyAfterCleanRsync(b: Backup, fs: FsState, log: seq<LogCall>, env: Environment, dryMode: bool,
                                     skipLatest: bool, policy: Policy)
    requires Valid(env.start)
    ensures var e := RunSpec(b, fs, log, env, dryMode, skipLatest, policy);
            var t := Consume(env.chunks, !dryMode, true);
            && (e.outcome.Completed? ==> env.exitCode == 0 && t.failure.None?)
            && (e.outcome.Raised? && e.outcome.error.RsyncExit? ==>
                  e.outcome.error.code == env.exitCode != 0 && t.failure.None?)
            && (e.outcome.Raised? && e.outcome.error.Stream? ==> t.failure == Some(e.outcome.error.readError))
  {
    if PreviousGeneration(fs, LatestPath(b.target), skipLatest).Success? {
      var prev, log2 := RunStages(b, fs, log, env, dryMode, skipLatest, policy);
      var o := BackupOptions(b, GenerationPath(b.target, env.start), prev);
      BranchOutcome(o, env.which, fs, log2, env, LatestPath(b.target), dryMode, skipLatest, policy);
      RsyncErrorCases(Consume(env.chunks, !dryMode, true), env.exitCode);
    }
  }

  /** Which error a finished rsync run raises: a stream failure first, then a non-zero exit code. */
  lemma RsyncErrorCases(t: Transcript, exitCode: int)
    ensures RsyncError(t, exitCode).None? <==> t.failure.None? && exitCode == 0
    ensures forall c :: RsyncError(t, exitCode) == Some(RsyncExit(c)) ==> c == exitCode != 0 && t.failure.None?
    ensures forall r :: RsyncError(t, exitCode) == Some(Stream(r)) ==> t.failure == Some(r)
    ensures RsyncError(t, exitCode).Some? ==> !RsyncError(t, exitCode).value.Fs?
  {
  }

  /**
   * A non-zero exit status from rsync fails the run and leaves `_latest`
   * as it was.
   */
  lemma NonZeroExitKeepsLatest(b: Backup, fs: FsState, log: seq<LogCall>, env: Environment, dryMode: bool,
                               skipLatest: bool, policy: Policy)
    requires Valid(env.start)
    requires env.exitCode != 0
    ensures var e := RunSpec(b, fs, log, env, dryMode, skipLatest, policy);
            e.outcome.Raised? && SameAt(fs, e.fs, LatestPath(b.target))
  {
    CompletedOnlyAfterCleanRsync(b, fs, log, env, dryMode, skipLatest, policy);
    FailedRunKeepsLatest(b, fs, log, env, dryMode, skipLatest, policy);
  }

  /**
   * A generation directory is never reused: when the path is taken, an
   * apply-mode run raises `FileExistsError` from `makedirs`, before rsync
   * starts and before anything is changed.
   */
  lemma ExistingGenerationRaises(b: Backup, fs: FsState, log: seq<LogCall>, env: Environment,
                                 skipLatest: bool, policy: Policy)
    requires Valid(env.start)
    requires PreviousGeneration(fs, LatestPath(b.target), skipLatest).Success?
    requires GenerationPath(b.target, env.start) in fs
    ensures var e := RunSpec(b, fs, log, env, false, skipLatest, policy);
            && e.outcome == Raised(Fs(FileExists(GenerationPath(b.target, env.start))))
            && e.fs == fs && e.argv.None?
  {
    var prev, log2 := RunStages(b, fs, log, env, false, skipLatest, policy);
  }

  /**
   * Two apply-mode runs of one backup started within the same second
   * collide: once the first has started rsync, the second raises at
   * `makedirs` and changes nothing.
   */
  lemma SameSecondRunsCollide(b: Backup, fs: FsState, log: seq<LogCall>, env1: Environment, env2: Environment,
                              skip1: bool, skip2: bool, policy: Policy)
    requires Valid(env1.start) && Valid(env2.start) && SameSecond(env1.start, env2.start)
    requires RunSpec(b, fs, log, env1, false, skip1, policy).argv.Some?
    requires PreviousGeneration(RunSpec(b, fs, log, env1, false, skip1, policy).fs, LatestPath(b.target), skip2).Success?
    ensures var e1 := RunSpec(b, fs, log, env1, false, skip1, policy);
            var e2 := RunSpec(b, e1.fs, e1.calls, env2, false, skip2, policy);
            e2.outcome == Raised(Fs(FileExists(GenerationPath(b.target, env1.start)))) && e2.fs == e1.fs
  {
    var e1 := RunSpec(b, fs, log, env1, false, skip1, policy);
    NameCollision(env1.start, env2.start);
    GenerationHoldsLog(b, fs, log, env1, skip1, policy);
    ExistingGenerationRaises(b, e1.fs, e1.calls, env2, skip2, policy);
  }

  // ---------------------------------------------------------------------
  // Replacing `_latest`: where the code departs from its purpose
  // ---------------------------------------------------------------------

  /**
   * An apply-mode run that nothing stops before the relink: the
   * generation is free, the log can be opened, and rsync's output is read
   * to its end with exit status 0.
   */
  predicate CleanStart(b: Backup, fs: FsState, env: Environment)
    requires Valid(env.start)
  {
    var gen := GenerationPath(b.target, env.start);
    && gen !in fs
    && !(LogPath(gen) in fs && fs[LogPath(gen)].Dir?)
    && Consume(env.chunks, true, true).failure.None? && env.exitCode == 0
  }

  /**
   * `makedirs` of a free generation and opening its log succeed; with
   * rsync's output written, the state has the generation, its ancestors
   * and its log added, and keeps every other path.
   */
  lemma PreludeState(fs: FsState, gen: string, latest: string, text: string) returns (fs2: FsState)
    requires latest != gen && latest != LogPath(gen) && latest !in Ancestors(gen) && LogPath(gen) !in Ancestors(gen)
    requires gen !in fs && !(LogPath(gen) in fs && fs[LogPath(gen)].Dir?)
    ensures MakeDirs(fs, gen).Success? && OpenWrite(MakeDirs(fs, gen).value, LogPath(gen)) == Success(fs2)
    ensures var fs3 := Append(fs2, LogPath(gen), text);
            && fs3.Keys == fs.Keys + Ancestors(gen) + {gen, LogPath(gen)}
            && fs3[gen] == Dir
            && SameAt(fs, fs3, latest) && Extends(fs, fs3)
  {
    var logFile := LogPath(gen);
    var fs1 := MakeDirs(fs, gen).value;
    assert logFile != gen by { assert |logFile| > |gen|; }
    fs2 := OpenWrite(fs1, logFile).value;
  }

  /**
   * After a clean start, the apply branch reaches the relink of `fs3`:
   * `fs` with the generation, its ancestors and its log added, and
   * `_latest` as it was.
   */
  lemma CleanApply(o: SyncOptions, binary: string, fs: FsState, log: seq<LogCall>, env: Environment,
                   latest: string, skipLatest: bool, policy: Policy) returns (fs3: FsState)
    requires latest != o.target && latest != LogPath(o.target) && latest !in Ancestors(o.target)
    requires LogPath(o.target) !in Ancestors(o.target)
    requires o.target !in fs && !(LogPath(o.target) in fs && fs[LogPath(o.target)].Dir?)
    requires Consume(env.chunks, true, true).failure.None? && env.exitCode == 0
    ensures fs3.Keys == fs.Keys + Ancestors(o.target) + {o.target, LogPath(o.target)}
    ensures fs3[o.target] == Dir
    ensures SameAt(fs, fs3, latest) && Extends(fs, fs3)
    ensures var e := ApplySpec(o, binary, fs, log, env, latest, skipLatest, policy);
            var r := RelinkSpec(fs3, o.target, latest, skipLatest, policy);
            && (r.Failure? ==> e.outcome == Raised(Fs(r.error)) && e.fs == fs3)
            && (r.Success? ==> e.outcome == Completed && e.fs == r.value)
  {
    var text := LogText(Consume(env.chunks, true, true).emits);
    var fs2 := PreludeState(fs, o.target, latest, text);
    fs3 := Append(fs2, LogPath(o.target), text);
    LoggedRsyncStages(o, binary, fs2, log, env, latest, skipLatest, policy);
    assert ApplySpec(o, binary, fs, log, env, latest, skipLatest, policy)
        == LoggedRsyncSpec(o, binary, fs2, log, env, latest, skipLatest, policy);
  }

  /**
   * As written, `skip_latest` does not keep `_latest` in apply mode: a
   * clean run with `skip_latest` set completes with `_latest` pointing at
   * the new generation, so a link that named an earlier generation is
   * moved although the docstring says it will not be updated.
   */
  lemma SkipLatestStillRelinks(b: Backup, fs: FsState, log: seq<LogCall>, env: Environment)
    requires Valid(env.start) && CleanStart(b, fs, env)
    requires var latest := LatestPath(b.target);
             latest in fs ==> fs[latest].Link? && Exists(fs, latest)
    ensures var e := RunSpec(b, fs, log, env, false, true, AsWritten);
            var latest := LatestPath(b.target);
            var gen := GenerationPath(b.target, env.start);
            && e.outcome == Completed && latest in e.fs && e.fs[latest] == Link(gen)
            && (latest in fs && fs[latest] != Link(gen) ==> !SameAt(fs, e.fs, latest))
  {
    var latest := LatestPath(b.target);
    var gen := GenerationPath(b.target, env.start);
    PathsApart(b.target, env.start);
    var prev, log2 := RunStages(b, fs, log, env, false, true, AsWritten);
    var fs3 := CleanApply(BackupOptions(b, gen, prev), env.which, fs, log2, env, latest, true, AsWritten);
    if latest in fs {
      ResolveExtends(fs, fs3, latest, MaxHops);
    }
    RelinkFailsAsWritten(fs3, gen, latest, true);
    RelinkEffect(fs3, gen, latest, true, AsWritten);
  }

  /** With the intended policy, `skip_latest` keeps `_latest` exactly as it was, however the run goes. */
  lemma SkipLatestHonoured(b: Backup, fs: FsState, log: seq<LogCall>, env: Environment, dryMode: bool)
    requires Valid(env.start)
    ensures var e := RunSpec(b, fs, log, env, dryMode, true, Intended);
            SameAt(fs, e.fs, LatestPath(b.target))
  {
    var latest := LatestPath(b.target);
    var prev, log2 := RunStages(b, fs, log, env, dryMode, true, Intended);
    if !dryMode {
      var gen := GenerationPath(b.target, env.start);
      PathsApart(b.target, env.start);
      var fs3 := ApplyStages(BackupOptions(b, gen, prev), env.which, fs, log2, env, latest, true, Intended);
      RelinkEffect(fs3, gen, latest, true, Intended);
    }
  }

  /**
   * As written, a dangling `_latest` breaks every run: `exists` does not
   * see it, so it is neither used nor removed, and `symlink` raises
   * `FileExistsError` after rsync has filled the new generation. The
   * link is left dangling, so the next run fails the same way.
   */
  lemma DanglingLatestBreaksRun(b: Backup, fs: FsState, log: seq<LogCall>, env: Environment, t: string)
    requires Valid(env.start) && CleanStart(b, fs, env)
    requires var latest := LatestPath(b.target);
             var gen := GenerationPath(b.target, env.start);
             && latest in fs && fs[latest] == Link(t)
             && LinkTarget(latest, t) !in fs.Keys + Ancestors(gen) + {gen, LogPath(gen)}
    ensures var e := RunSpec(b, fs, log, env, false, false, AsWritten);
            var latest := LatestPath(b.target);
            var gen := GenerationPath(b.target, env.start);
            && e.outcome == Raised(Fs(FileExists(latest)))
            && gen in e.fs && e.fs[gen] == Dir
            && latest in e.fs && e.fs[latest] == Link(t) && !Exists(e.fs, latest)
  {
    var latest := LatestPath(b.target);
    var gen := GenerationPath(b.target, env.start);
    PathsApart(b.target, env.start);
    DanglingLink(fs, latest, t);
    var prev, log2 := RunStages(b, fs, log, env, false, false, AsWritten);
    var fs3 := CleanApply(BackupOptions(b, gen, prev), env.which, fs, log2, env, latest, false, AsWritten);
    DanglingLink(fs3, latest, t);
    assert RelinkSpec(fs3, gen, latest, false, AsWritten) == Failure(FileExists(latest));
    assert RunSpec(b, fs, log, env, false, false, AsWritten).fs == fs3;
  }

  /**
   * With the intended policy the same run completes: the dangling link is
   * removed and `_latest` points at the new generation.
   */
  lemma DanglingLatestReplaced(b: Backup, fs: FsState, log: seq<LogCall>, env: Environment, t: string)
    requires Valid(env.start) && CleanStart(b, fs, env)
    requires var latest := LatestPath(b.target);
             var gen := GenerationPath(b.target, env.start);
             && latest in fs && fs[latest] == Link(t)
             && LinkTarget(latest, t) !in fs.Keys + Ancestors(gen) + {gen, LogPath(gen)}
    ensures var e := RunSpec(b, fs, log, env, false, false, Intended);
            var latest := LatestPath(b.target);
            e.outcome == Completed && latest in e.fs && e.fs[latest] == Link(GenerationPath(b.target, env.start))
  {
    var latest := LatestPath(b.target);
    var gen := GenerationPath(b.target, env.start);
    PathsApart(b.target, env.start);
    DanglingLink(fs, latest, t);
    var prev, log2 := RunStages(b, fs, log, env, false, false, Intended);
    var fs3 := CleanApply(BackupOptions(b, gen, prev), env.which, fs, log2, env, latest, false, Intended);
    RelinkEffect(fs3, gen, latest, false, Intended);
  }

  // ---------------------------------------------------------------------
  // What the logger hears
  // ---------------------------------------------------------------------

  /** The messages passed to `notify`, in order. */
  function Notices(calls: seq<LogCall>): seq<Message>
  {
    if calls == [] then []
    else
      var last := calls[|calls| - 1];
      Notices(calls[..|calls| - 1]) + (if last.NotifyCall? then [last.msg] else [])
  }

  lemma {:induction false} NoticesAppend(a: seq<LogCall>, b: seq<LogCall>)
    ensures Notices(a + b) == Notices(a) + Notices(b)
    decreases |b|
  {
    if b == [] {
      assert a + b == a;
    } else {
      var c := b[..|b| - 1];
      assert (a + b)[..|a + b| - 1] == a + c;
      NoticesAppend(a, c);
    }
  }

  /** Progress reports are not notices. */
  lemma {:induction false} NoNoticesInProgress(emits: seq<Emit>)
    ensures Notices(ProgressCalls(emits)) == []
    decreases |emits|
  {
    if emits != [] {
      var last := emits[|emits| - 1];
      var tail := if last.Report? then [ProgressCall(last.info.bytesSent, last.info.completionRate, last.info.eta)] else [];
      NoNoticesInProgress(emits[..|emits| - 1]);
      NoticesAppend(ProgressCalls(emits[..|emits| - 1]), tail);
      assert Notices(tail) == [] by {
        if tail != [] {
          assert tail[..0] == [];
        }
      }
    }
  }

  /** Notices of one call. */
  lemma NoticesOne(c: LogCall)
    ensures Notices([c]) == if c.NotifyCall? then [c.msg] else []
  {
    assert [c][..0] == [];
  }

  /** The notices of the dry branch's calls, whatever the command and the reports. */
  lemma DryCallNotices(log: seq<LogCall>, gen: string, cmd: Message, p: seq<LogCall>, tail: seq<LogCall>)
    requires Notices(p) == []
    ensures Notices(log + [WarnCall(DryModeMsg)] + [NotifyCall(MkdirMsg(gen))] + [NotifyCall(cmd)] + p + tail)
            == Notices(log) + [MkdirMsg(gen), cmd] + Notices(tail)
  {
    var w, m, c := WarnCall(DryModeMsg), NotifyCall(MkdirMsg(gen)), NotifyCall(cmd);
    var s1 := log + [w];
    var s2 := s1 + [m];
    var s3 := s2 + [c];
    var s4 := s3 + p;
    NoticesAppend(log, [w]);
    NoticesOne(w);
    assert Notices(s1) == Notices(log);
    NoticesAppend(s1, [m]);
    NoticesOne(m);
    assert Notices(s2) == Notices(log) + [MkdirMsg(gen)];
    NoticesAppend(s2, [c]);
    NoticesOne(c);
    assert Notices(s3) == Notices(log) + [MkdirMsg(gen), cmd];
    NoticesAppend(s3, p);
    assert Notices(s4) == Notices(s3);
    NoticesAppend(s4, tail);
  }

  /** The calls and the outcome of the dry branch. */
  lemma DryCalls(o: SyncOptions, binary: string, fs: FsState, log: seq<LogCall>, env: Environment,
                 latest: string, skipLatest: bool)
    ensures var e := DrySpec(o, binary, fs, log, env, latest, skipLatest);
            var t := Consume(env.chunks, false, true);
            var base := log + [WarnCall(DryModeMsg)] + [NotifyCall(MkdirMsg(o.target))]
                        + [NotifyCall(CommandMsg([binary] + ArgVector(o, false, false)))] + ProgressCalls(t.emits);
            && (e.outcome.Completed? <==> RsyncError(t, env.exitCode).None?)
            && e.calls == base + (if e.outcome.Completed? && !skipLatest
                                  then [NotifyCall(RmMsg(latest))] + [NotifyCall(LnMsg(o.target, latest))] else [])
  {
    var t := Consume(env.chunks, false, true);
    var base := log + [WarnCall(DryModeMsg)] + [NotifyCall(MkdirMsg(o.target))]
                + [NotifyCall(CommandMsg([binary] + ArgVector(o, false, false)))] + ProgressCalls(t.emits);
    if RsyncError(t, env.exitCode).Some? || skipLatest {
      assert base + [] == base;
    } else {
      var r := NotifyCall(RmMsg(latest));
      var l := NotifyCall(LnMsg(o.target, latest));
      assert base + [r] + [l] == base + ([r] + [l]);
    }
  }

  /** The notices of the dry branch: the `mkdir -p` line, the command, and the relink lines after a clean rsync. */
  lemma DryNotices(o: SyncOptions, binary: string, fs: FsState, log: seq<LogCall>, env: Environment,
                   latest: string, skipLatest: bool)
    ensures var e := DrySpec(o, binary, fs, log, env, latest, skipLatest);
            Notices(e.calls) == Notices(log) + [MkdirMsg(o.target), CommandMsg([binary] + ArgVector(o, false, false))]
                                + (if e.outcome.Completed? && !skipLatest then [RmMsg(latest), LnMsg(o.target, latest)] else [])
  {
    var t := Consume(env.chunks, false, true);
    NoNoticesInProgress(t.emits);
    DryCalls(o, binary, fs, log, env, latest, skipLatest);
    var e := DrySpec(o, binary, fs, log, env, latest, skipLatest);
    DryNoticesOf(e.calls, log, o.target, CommandMsg([binary] + ArgVector(o, false, false)), ProgressCalls(t.emits),
                 latest, e.outcome.Completed? && !skipLatest);
  }

  /** `DryNotices` for calls already known to be shaped like the dry branch's. */
  lemma DryNoticesOf(calls: seq<LogCall>, log: seq<LogCall>, gen: string, cmd: Message, p: seq<LogCall>,
                     latest: string, relink: bool)
    requires Notices(p) == []
    requires calls == log + [WarnCall(DryModeMsg)] + [NotifyCall(MkdirMsg(gen))] + [NotifyCall(cmd)] + p
                      + (if relink then [NotifyCall(RmMsg(latest))] + [NotifyCall(LnMsg(gen, latest))] else [])
    ensures Notices(calls) == Notices(log) + [MkdirMsg(gen), cmd] + (if relink then [RmMsg(latest), LnMsg(gen, latest)] else [])
  {
    if relink {
      var r := NotifyCall(RmMsg(latest));
      var l := NotifyCall(LnMsg(gen, latest));
      NoticesAppend([r], [l]);
      NoticesOne(r);
      NoticesOne(l);
      DryCallNotices(log, gen, cmd, p, [r] + [l]);
    } else {
      DryCallNotices(log, gen, cmd, p, []);
    }
  }

  /** The calls of the apply branch once the log is open. */
  lemma LoggedCalls(o: SyncOptions, binary: string, fs2: FsState, log: seq<LogCall>, env: Environment,
                    latest: string, skipLatest: bool, policy: Policy)
    ensures var e := LoggedRsyncSpec(o, binary, fs2, log, env, latest, skipLatest, policy);
            var t := Consume(env.chunks, true, true);
            e.calls == log + [NotifyCall(StartingMsg(LogPath(o.target)))] + ProgressCalls(t.emits)
                       + (if RsyncError(t, env.exitCode).None? then [NotifyCall(FinishedRsyncMsg)] else [])
  {
    var t := Consume(env.chunks, true, true);
    var log2 := log + [NotifyCall(StartingMsg(LogPath(o.target)))] + ProgressCalls(t.emits);
    if RsyncError(t, env.exitCode).Some? {
      assert log2 + [] == log2;
    }
  }

  /** Notices of calls shaped like the apply branch's. */
  lemma StartedCallNotices(log: seq<LogCall>, logFile: string, p: seq<LogCall>, finished: bool)
    requires Notices(p) == []
    ensures Notices(log + [NotifyCall(StartingMsg(logFile))] + p + (if finished then [NotifyCall(FinishedRsyncMsg)] else []))
            == Notices(log) + [StartingMsg(logFile)] + (if finished then [FinishedRsyncMsg] else [])
  {
    var s := NotifyCall(StartingMsg(logFile));
    var f := NotifyCall(FinishedRsyncMsg);
    var tail := if finished then [f] else [];
    NoticesOne(s);
    NoticesOne(f);
    NoticesAppend(log, [s]);
    NoticesAppend(log + [s], p);
    NoticesAppend(log + [s] + p, tail);
    assert Notices([]) == [];
  }

  /** The notices of the apply branch once the log is open: where the log goes, and `rsync finished` after a clean rsync. */
  lemma LoggedNotices(o: SyncOptions, binary: string, fs2: FsState, log: seq<LogCall>, env: Environment,
                      latest: string, skipLatest: bool, policy: Policy)
    ensures var e := LoggedRsyncSpec(o, binary, fs2, log, env, latest, skipLatest, policy);
            var t := Consume(env.chunks, true, true);
            Notices(e.calls) == Notices(log) + [StartingMsg(LogPath(o.target))]
                                + (if RsyncError(t, env.exitCode).None? then [FinishedRsyncMsg] else [])
  {
    var t := Consume(env.chunks, true, true);
    NoNoticesInProgress(t.emits);
    LoggedCalls(o, binary, fs2, log, env, latest, skipLatest, policy);
    StartedCallNotices(log, LogPath(o.target), ProgressCalls(t.emits), RsyncError(t, env.exitCode).None?);
  }

  /** Whether the apply branch gets to start rsync: `makedirs` and `open` both succeed. */
  predicate Started(fs: FsState, gen: string) {
    MakeDirs(fs, gen).Success? && OpenWrite(MakeDirs(fs, gen).value, LogPath(gen)).Success?
  }

  /** An apply branch stopped by `makedirs` or `open` has told the logger nothing and started no rsync. */
  lemma ApplyNotStarted(o: SyncOptions, binary: string, fs: FsState, log: seq<LogCall>, env: Environment,
                        latest: string, skipLatest: bool, policy: Policy)
    requires !Started(fs, o.target)
    ensures var e := ApplySpec(o, binary, fs, log, env, latest, skipLatest, policy);
            e.calls == log && e.argv.None?
  {
  }

  /** An apply branch that starts rsync is the branch with the log open. */
  lemma ApplyStarted(o: SyncOptions, binary: string, fs: FsState, log: seq<LogCall>, env: Environment,
                     latest: string, skipLatest: bool, policy: Policy) returns (fs2: FsState)
    requires Started(fs, o.target)
    ensures fs2 == OpenWrite(MakeDirs(fs, o.target).value, LogPath(o.target)).value
    ensures ApplySpec(o, binary, fs, log, env, latest, skipLatest, policy)
            == LoggedRsyncSpec(o, binary, fs2, log, env, latest, skipLatest, policy)
  {
    fs2 := OpenWrite(MakeDirs(fs, o.target).value, LogPath(o.target)).value;
  }

  /**
   * The notices of the apply branch: where the log goes once rsync is
   * started, and `rsync finished` after a clean rsync. The command is not
   * among them.
   */
  lemma ApplyNotices(o: SyncOptions, binary: string, fs: FsState, log: seq<LogCall>, env: Environment,
                     latest: string, skipLatest: bool, policy: Policy)
    ensures var e := ApplySpec(o, binary, fs, log, env, latest, skipLatest, policy);
            var t := Consume(env.chunks, true, true);
            Notices(e.calls) == Notices(log)
                                + (if e.argv.Some? then [StartingMsg(LogPath(o.target))]
                                   + (if RsyncError(t, env.exitCode).None? then [FinishedRsyncMsg] else [])
                                   else [])
  {
    if Started(fs, o.target) {
      var fs2 := ApplyStarted(o, binary, fs, log, env, latest, skipLatest, policy);
      LoggedNotices(o, binary, fs2, log, env, latest, skipLatest, policy);
    } else {
      ApplyNotStarted(o, binary, fs, log, env, latest, skipLatest, policy);
      assert Notices(log) + [] == Notices(log);
    }
  }

  /** What a run tells its logger before it branches. */
  lemma PreludeNotices(log: seq<LogCall>, b: Backup, gen: string, prev: Option<string>)
    ensures Notices(log + [InfoCall(CreatingMsg(b.source))] + [NotifyCall(CreatingAtMsg(gen))] + FoundCalls(prev)
                    + [ProgressCall(0, 0.0, "00:00:00")])
            == Notices(log) + [CreatingAtMsg(gen)] + (if prev.Some? then [FoundMsg(prev.value)] else [])
  {
    var i := InfoCall(CreatingMsg(b.source));
    var n := NotifyCall(CreatingAtMsg(gen));
    var z := ProgressCall(0, 0.0, "00:00:00");
    var found := if prev.Some? then [FoundMsg(prev.value)] else [];
    var l1 := log + [i];
    var l2 := l1 + [n];
    var l3 := l2 + FoundCalls(prev);
    NoticesAppend(log, [i]);
    NoticesOne(i);
    assert Notices(l1) == Notices(log) + [];
    NoticesAppend(l1, [n]);
    NoticesOne(n);
    assert Notices(l2) == Notices(log) + [CreatingAtMsg(gen)];
    NoticesAppend(l2, FoundCalls(prev));
    if prev.Some? {
      NoticesOne(FoundCalls(prev)[0]);
    }
    assert Notices(FoundCalls(prev)) == found;
    assert Notices(l3) == Notices(log) + [CreatingAtMsg(gen)] + found;
    NoticesAppend(l3, [z]);
    NoticesOne(z);
    assert Notices(l3 + [z]) == Notices(l3) + [];
  }

  /** Two calls that are not notices add none. */
  lemma NoticesClosing(calls: seq<LogCall>, m1: Message, m2: Message)
    ensures Notices(calls + [SuccessCall(m1)] + [InfoCall(m2)]) == Notices(calls)
  {
    NoticesOne(SuccessCall(m1));
    NoticesOne(InfoCall(m2));
    NoticesAppend(calls, [SuccessCall(m1)]);
    NoticesAppend(calls + [SuccessCall(m1)], [InfoCall(m2)]);
  }

  /** The closing `success` and `info` calls are not notices. */
  lemma ProceedNotices(b: Backup, fs: FsState, log: seq<LogCall>, env: Environment, gen: string, latest: string,
                       prev: Option<string>, dryMode: bool, skipLatest: bool, policy: Policy)
    requires Valid(env.start)
    ensures var e := ProceedSpec(b, fs, log, env, gen, latest, prev, dryMode, skipLatest, policy);
            var br := BranchSpec(BackupOptions(b, gen, prev), env.which, fs, log + [ProgressCall(0, 0.0, "00:00:00")],
                                 env, latest, dryMode, skipLatest, policy);
            Notices(e.calls) == Notices(br.calls)
  {
    var br := BranchSpec(BackupOptions(b, gen, prev), env.which, fs, log + [ProgressCall(0, 0.0, "00:00:00")],
                         env, latest, dryMode, skipLatest, policy);
    NoticesClosing(br.calls, FinishedMsg(b.source, StrTimestamp(env.start)), TookMsg(env.took));
  }

  /**
   * A dry run tells its logger, in this order: the generation it would
   * create, the previous generation found, the `mkdir -p` line, the rsync
   * command (without the dry-run and progress options), and, when rsync
   * succeeded and `_latest` is not skipped, the `rm -f` and `ln -s` lines.
   */
  lemma DryRunReport(b: Backup, fs: FsState, log: seq<LogCall>, env: Environment, skipLatest: bool, policy: Policy)
    requires Valid(env.start)
    requires PreviousGeneration(fs, LatestPath(b.target), skipLatest).Success?
    ensures var e := RunSpec(b, fs, log, env, true, skipLatest, policy);
            var gen := GenerationPath(b.target, env.start);
            var latest := LatestPath(b.target);
            var prev := PreviousGeneration(fs, latest, skipLatest).value;
            Notices(e.calls) == Notices(log) + [CreatingAtMsg(gen)] + (if prev.Some? then [FoundMsg(prev.value)] else [])
                                + [MkdirMsg(gen), CommandMsg([env.which] + ArgVector(BackupOptions(b, gen, prev), false, false))]
                                + (if e.outcome.Completed? && !skipLatest then [RmMsg(latest), LnMsg(gen, latest)] else [])
  {
    var gen := GenerationPath(b.target, env.start);
    var latest := LatestPath(b.target);
    var prev := PreviousGeneration(fs, latest, skipLatest).value;
    var log1 := log + [InfoCall(CreatingMsg(b.source))] + [NotifyCall(CreatingAtMsg(gen))] + FoundCalls(prev);
    var log2 := log1 + [ProgressCall(0, 0.0, "00:00:00")];
    ProceedNotices(b, fs, log1, env, gen, latest, prev, true, skipLatest, policy);
    PreludeNotices(log, b, gen, prev);
    DryNotices(BackupOptions(b, gen, prev), env.which, fs, log2, env, latest, skipLatest);
  }

  /**
   * An apply-mode run tells its logger the generation, the previous
   * generation found, where rsync's output goes once rsync is started,
   * and `rsync finished` after a clean rsync; unlike a dry run, it does
   * not report the rsync command.
   */
  lemma ApplyRunReport(b: Backup, fs: FsState, log: seq<LogCall>, env: Environment, skipLatest: bool, policy: Policy)
    requires Valid(env.start)
    requires PreviousGeneration(fs, LatestPath(b.target), skipLatest).Success?
    ensures var e := RunSpec(b, fs, log, env, false, skipLatest, policy);
            var gen := GenerationPath(b.target, env.start);
            var prev := PreviousGeneration(fs, LatestPath(b.target), skipLatest).value;
            var t := Consume(env.chunks, true, true);
            Notices(e.calls) == Notices(log) + [CreatingAtMsg(gen)] + (if prev.Some? then [FoundMsg(prev.value)] else [])
                                + (if e.argv.Some? then [StartingMsg(LogPath(gen))]
                                   + (if RsyncError(t, env.exitCode).None? then [FinishedRsyncMsg] else [])
                                   else [])
  {
    var gen := GenerationPath(b.target, env.start);
    var latest := LatestPath(b.target);
    var prev := PreviousGeneration(fs, latest, skipLatest).value;
    var log1 := log + [InfoCall(CreatingMsg(b.source))] + [NotifyCall(CreatingAtMsg(gen))] + FoundCalls(prev);
    var log2 := log1 + [ProgressCall(0, 0.0, "00:00:00")];
    ProceedNotices(b, fs, log1, env, gen, latest, prev, false, skipLatest, policy);
    PreludeNotices(log, b, gen, prev);
    ApplyNotices(BackupOptions(b, gen, prev), env.which, fs, log2, env, latest, skipLatest, policy);
  }
}
