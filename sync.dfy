/**
 * The `RSync` class of rsbackup/__init__.py: the option set of one rsync
 * invocation, the argument vector built from it, and the loop that sorts
 * rsync's merged output into log lines and progress updates.
 *
 * Spawning the process and awaiting it are not modelled: the output is
 * given as the sequence of chunks that successive `readuntil()` calls
 * return (each normally ending in a line feed), and the exit code is a
 * parameter. When the chunks run out, `readuntil()` raises, so a stream
 * that ends without a blank line is an error here as it is in the code.
 */
module Sync {
  import opened Common
  import opened Argv
  import opened Progress

  /**
   * The options in front of the source, in the order `_args` appends them:
   * one per switch that is on, two for progress, and nothing but switches.
   */
  function Options(o: SyncOptions, progress: bool, dryRun: bool): (r: seq<string>)
    ensures |r| == OptionCount(o, progress, dryRun)
    ensures forall i :: 0 <= i < |r| ==> OptionRank(r[i]) >= 0
  {
    Flag(o.archive, "--archive") + Flag(o.verbose, "--verbose") + Flag(o.delete, "--delete")
    + Flag(dryRun, "--dry-run") + (if progress then ["--no-i-r", "--info=progress2"] else [])
  }

  /**
   * What `_args(progress, dry_run)` returns: the options, the source,
   * `--link-dest` and its path when the link target is truthy, one
   * `--exclude=` per pattern, and the target last.
   */
  function ArgVector(o: SyncOptions, progress: bool, dryRun: bool): (r: seq<string>)
    ensures var n := OptionCount(o, progress, dryRun);
            var ld := if Truthy(o.linkDest) then 2 else 0;
            var xs := ExcludeList(o.excludes);
            && |r| == n + 1 + ld + |xs| + 1
            && r[..n] == Options(o, progress, dryRun)
            && r[n] == o.source
            && r[|r| - 1] == o.target
  {
    var opts, ld, ex := Options(o, progress, dryRun), LinkDestArgs(o.linkDest), ExcludeArgs(ExcludeList(o.excludes));
    var a := opts + [o.source] + ld + ex + [o.target];
    Layout(opts, o.source, ld, ex, o.target, a);
    a
  }

  /** The flags as `_args` appends them one by one make up `Options`. */
  lemma OptionsAssembled(o: SyncOptions, progress: bool, dryRun: bool,
                          a: seq<string>, v: seq<string>, d: seq<string>, r: seq<string>, opts: seq<string>)
    requires a == if o.archive then ["--archive"] else []
    requires v == if o.verbose then a + ["--verbose"] else a
    requires d == if o.delete then v + ["--delete"] else v
    requires r == if dryRun then d + ["--dry-run"] else d
    requires opts == if progress then r + ["--no-i-r"] + ["--info=progress2"] else r
    ensures opts == Options(o, progress, dryRun)
  {
    assert a == Flag(o.archive, "--archive");
    assert v == a + Flag(o.verbose, "--verbose");
    assert d == v + Flag(o.delete, "--delete");
    assert r == d + Flag(dryRun, "--dry-run");
    assert opts == r + (if progress then ["--no-i-r", "--info=progress2"] else []);
  }

  /** The source, link target, excludes and target appended after the options make up `ArgVector`. */
  lemma ArgsAssembled(o: SyncOptions, progress: bool, dryRun: bool,
                      opts: seq<string>, head: seq<string>, mid: seq<string>, args: seq<string>)
    requires opts == Options(o, progress, dryRun)
    requires head == if Truthy(o.linkDest) then opts + [o.source] + ["--link-dest"] + [o.linkDest.value]
                     else opts + [o.source]
    requires mid == if o.excludes.Some? && o.excludes.value != [] then head + ExcludeArgs(o.excludes.value) else head
    requires args == mid + [o.target]
    ensures args == ArgVector(o, progress, dryRun)
  {
    assert head == opts + [o.source] + LinkDestArgs(o.linkDest);
    assert mid == head + ExcludeArgs(ExcludeList(o.excludes));
  }

  /** Rank of each option in the fixed order; -1 for anything else. */
  function OptionRank(a: string): int
  {
    if a == "--archive" then 0
    else if a == "--verbose" then 1
    else if a == "--delete" then 2
    else if a == "--dry-run" then 3
    else if a == "--no-i-r" then 4
    else if a == "--info=progress2" then 5
    else -1
  }

  function B2I(b: bool): nat
  {
    if b then 1 else 0
  }

  /** How many options precede the source. */
  function OptionCount(o: SyncOptions, progress: bool, dryRun: bool): nat
  {
    B2I(o.archive) + B2I(o.verbose) + B2I(o.delete) + B2I(dryRun) + 2 * B2I(progress)
  }

  // ---------------------------------------------------------------------
  // The class
  // ---------------------------------------------------------------------

  class RSync {
    const source: string
    const target: string
    const archive: bool
    const verbose: bool
    const delete: bool
    const linkDest: Option<string>
    const excludes: Option<seq<string>>
    /** The rsync executable; `found` stands for the result of `shutil.which('rsync')`. */
    const binary: string

    constructor (source: string, target: string, found: string, archive: bool := true,
                 verbose: bool := true, delete: bool := true, linkDest: Option<string> := None,
                 excludes: Option<seq<string>> := None, binary: string := "")
      ensures this.source == source && this.target == target
      ensures this.archive == archive && this.verbose == verbose && this.delete == delete
      ensures this.linkDest == linkDest && this.excludes == excludes
      ensures this.binary == (if binary != "" then binary else found)
    {
      this.source := source;
      this.target := target;
      this.archive := archive;
      this.verbose := verbose;
      this.delete := delete;
      this.linkDest := linkDest;
      this.excludes := excludes;
      this.binary := if binary != "" then binary else found;
    }

    function Settings(): SyncOptions
    {
      SyncOptions(source, target, archive, verbose, delete, linkDest, excludes)
    }

    /** `_args`: grows the argument list one `append` at a time. */
    method Args(progress: bool := false, dryRun: bool := false) returns (args: seq<string>)
      ensures args == ArgVector(Settings(), progress, dryRun)
    {
      args := [];
      if archive {
        args := args + ["--archive"];
      }
      ghost var a := args;
      if verbose {
        args := args + ["--verbose"];
      }
      ghost var v := args;
      if delete {
        args := args + ["--delete"];
      }
      ghost var d := args;
      if dryRun {
        args := args + ["--dry-run"];
      }
      ghost var r := args;
      if progress {
        args := args + ["--no-i-r"];
        args := args + ["--info=progress2"];
      }
      ghost var opts := args;
      args := args + [source];
      if Truthy(linkDest) {
        args := args + ["--link-dest"];
        args := args + [linkDest.value];
      }
      ghost var head := args;
      if excludes.Some? && excludes.value != [] {
        args := AppendExcludes(args, excludes.value);
      }
      ghost var o := Settings();
      OptionsAssembled(o, progress, dryRun, a, v, d, r, opts);
      ArgsAssembled(o, progress, dryRun, opts, head, args, args + [target]);
      args := args + [target];
    }

    /** The `command` property: the binary followed by the default arguments. */
    method Command() returns (cmd: seq<string>)
      ensures cmd == [binary] + ArgVector(Settings(), false, false)
    {
      var args := Args();
      cmd := [binary] + args;
    }

    /**
     * `run`: the argument vector rsync is spawned with, then the read loop
     * over its output, then the exit code. `withLog` says whether a log
     * file is attached and `withProgress` whether a progress callback is.
     */
    method Run(chunks: seq<string>, exitCode: int, withLog: bool, withProgress: bool, dryRun: bool := false)
      returns (argv: seq<string>, emits: seq<Emit>, outcome: Result<int, ReadError>)
      ensures argv == [binary] + ArgVector(Settings(), withProgress, dryRun)
      ensures Consume(chunks, withLog, withProgress) == Transcript(emits, if outcome.Success? then None else Some(outcome.error))
      ensures outcome.Success? ==> outcome.value == exitCode
    {
      var args := Args(withProgress, dryRun);
      argv := [binary] + args;
      var failure;
      emits, failure := ReadOutput(chunks, withLog, withProgress);
      if failure.Some? {
        outcome := Failure(failure.value);
      } else {
        outcome := Success(exitCode);
      }
    }
  }

  // ---------------------------------------------------------------------
  // The output stream
  // ---------------------------------------------------------------------

  /** What the read loop does with one line: write it to the log or report progress. */
  datatype Emit = Write(text: string) | Report(info: ProgressInfo)

  /** Exceptions the read loop can raise. */
  datatype ReadError =
    | IncompleteRead          // `readuntil()` reached the end of the stream
    | NotAscii(data: string)  // `decode('ascii')` failed
    | BadProgress(e: ParseError)

  /** Everything the loop emitted, and the exception that ended it, if any. */
  datatype Transcript = Transcript(emits: seq<Emit>, failure: Option<ReadError>)

  function Prepend(e: seq<Emit>, t: Transcript): Transcript
  {
    Transcript(e + t.emits, t.failure)
  }

  /** Every character is a 7-bit code (each character of a chunk stands for one byte). */
  predicate IsAscii(s: string) {
    forall i :: 0 <= i < |s| ==> s[i] as int < 128
  }

  /** `str.rstrip()`. */
  function RStrip(s: string): (r: string)
    ensures |r| <= |s| && r == s[..|r|]
    ensures r == [] || !IsSpace(r[|r| - 1])
    ensures forall i :: |r| <= i < |s| ==> IsSpace(s[i])
  {
    if s != [] && IsSpace(s[|s| - 1]) then RStrip(s[..|s| - 1]) else s
  }

  /**
   * What the loop does with one non-blank line: a progress line is decoded
   * and reported when a callback is attached (its decoding error ends the
   * loop), any other line is written when a log is attached.
   */
  function LineStep(line: string, withLog: bool, withProgress: bool): (r: Result<seq<Emit>, ReadError>)
    requires line != []
    ensures r.Failure? <==> line[0] == '\r' && withProgress && FromProgressLine(line).Failure?
    ensures r.Failure? ==> r.error == BadProgress(FromProgressLine(line).error)
    ensures r.Success? ==> |r.value| <= 1
    ensures r.Success? && r.value != [] && r.value[0].Write? ==> line[0] != '\r' && withLog && r.value[0].text == line + "\n"
    ensures r.Success? && r.value != [] && r.value[0].Report? ==> line[0] == '\r' && withProgress && FromProgressLine(line) == Success(r.value[0].info)
    ensures r.Success? && r.value == [] ==> if line[0] == '\r' then !withProgress else !withLog
  {
    if line[0] == '\r' then
      if !withProgress then Success([])
      else
        match FromProgressLine(line)
        case Failure(e) => Failure(BadProgress(e))
        case Success(info) => Success([Report(info)])
    else if withLog then Success([Write(line + "\n")])
    else Success([])
  }

  /** The read loop of `run`, over the chunks `readuntil()` returns. */
  function Consume(chunks: seq<string>, withLog: bool, withProgress: bool): (r: Transcript)
    ensures |r.emits| <= |chunks|
    ensures r.failure.None? ==> exists k :: 0 <= k < |chunks| && IsBlank(chunks[k])
    ensures r.failure == Some(IncompleteRead) ==> forall k :: 0 <= k < |chunks| ==> !IsBlank(chunks[k])
    decreases |chunks|
  {
    if chunks == [] then Transcript([], Some(IncompleteRead))
    else if !IsAscii(chunks[0]) then Transcript([], Some(NotAscii(chunks[0])))
    else
      var line := RStrip(chunks[0]);
      if line == [] then Transcript([], None)
      else
        match LineStep(line, withLog, withProgress)
        case Failure(e) => Transcript([], Some(e))
        case Success(out) => Prepend(out, Consume(chunks[1..], withLog, withProgress))
  }

  /** A chunk holding a non-blank line that the loop gets past. */
  lemma ConsumeCons(s: seq<string>, out: seq<Emit>, withLog: bool, withProgress: bool)
    requires s != [] && IsAscii(s[0]) && RStrip(s[0]) != []
    requires LineStep(RStrip(s[0]), withLog, withProgress) == Success(out)
    ensures Consume(s, withLog, withProgress) == Prepend(out, Consume(s[1..], withLog, withProgress))
  {
  }

  /** One turn of the loop, in terms of `Consume`. */
  lemma ConsumeStep(chunks: seq<string>, i: nat, withLog: bool, withProgress: bool, done: seq<Emit>, out: seq<Emit>)
    requires i < |chunks| && IsAscii(chunks[i]) && RStrip(chunks[i]) != []
    requires LineStep(RStrip(chunks[i]), withLog, withProgress) == Success(out)
    ensures Prepend(done, Consume(chunks[i..], withLog, withProgress))
            == Prepend(done + out, Consume(chunks[i + 1..], withLog, withProgress))
  {
    var s := chunks[i..];
    assert s[0] == chunks[i] && s[1..] == chunks[i + 1..];
    ConsumeCons(s, out, withLog, withProgress);
    var rest := Consume(chunks[i + 1..], withLog, withProgress);
    assert done + (out + rest.emits) == (done + out) + rest.emits;
  }

  /** A line the loop raises on ends the transcript there. */
  lemma ConsumeFails(chunks: seq<string>, i: nat, withLog: bool, withProgress: bool, err: ReadError)
    requires i < |chunks| && IsAscii(chunks[i]) && RStrip(chunks[i]) != []
    requires LineStep(RStrip(chunks[i]), withLog, withProgress) == Failure(err)
    ensures Consume(chunks[i..], withLog, withProgress) == Transcript([], Some(err))
  {
    assert chunks[i..][0] == chunks[i];
  }

  /**
   * The `while True` loop of `run`: reads chunk after chunk until a blank
   * line, writing log lines and reporting progress as it goes.
   */
  method ReadOutput(chunks: seq<string>, withLog: bool, withProgress: bool)
    returns (emits: seq<Emit>, failure: Option<ReadError>)
    ensures Consume(chunks, withLog, withProgress) == Transcript(emits, failure)
  {
    emits := [];
    var i := 0;
    while true
      invariant 0 <= i <= |chunks|
      invariant Consume(chunks, withLog, withProgress) == Prepend(emits, Consume(chunks[i..], withLog, withProgress))
      decreases |chunks| - i
    {
      if i == |chunks| {
        return emits, Some(IncompleteRead);
      }
      var data := chunks[i];
      if !IsAscii(data) {
        return emits, Some(NotAscii(data));
      }
      var line := RStrip(data);
      if line == [] {
        break;
      }
      ghost var before, out := emits, [];
      if line[0] == '\r' {
        if withProgress {
          var info := FromProgressLine(line);
          if info.Failure? {
            ConsumeFails(chunks, i, withLog, withProgress, BadProgress(info.error));
            return emits, Some(BadProgress(info.error));
          }
          emits := emits + [Report(info.value)];
          out := [Report(info.value)];
        }
      } else if withLog {
        emits := emits + [Write(line + "\n")];
        out := [Write(line + "\n")];
      }
      assert LineStep(line, withLog, withProgress) == Success(out) && emits == before + out;
      ConsumeStep(chunks, i, withLog, withProgress, before, out);
      i := i + 1;
    }
    failure := None;
  }

  /** A chunk that ends the loop: ASCII and blank after `rstrip`. */
  predicate IsBlank(chunk: string) {
    IsAscii(chunk) && RStrip(chunk) == []
  }

  // ---------------------------------------------------------------------
  // Properties of the argument vector
  // ---------------------------------------------------------------------

  /** `--link-dest` and its path follow the source when the path is truthy. */
  lemma ArgVectorLinkDest(o: SyncOptions, progress: bool, dryRun: bool)
    requires Truthy(o.linkDest)
    ensures var a := ArgVector(o, progress, dryRun);
            var n := OptionCount(o, progress, dryRun);
            n + 2 < |a| && a[n + 1] == "--link-dest" && a[n + 2] == o.linkDest.value
  {
    ArgVectorPieces(o, progress, dryRun);
    Layout(Options(o, progress, dryRun), o.source, LinkDestArgs(o.linkDest),
           ExcludeArgs(ExcludeList(o.excludes)), o.target, ArgVector(o, progress, dryRun));
  }

  /**
   * Between the link target and the target come exactly the exclude
   * arguments: one `--exclude=` per pattern, in order.
   */
  lemma ArgVectorExcludes(o: SyncOptions, progress: bool, dryRun: bool)
    ensures var a := ArgVector(o, progress, dryRun);
            var n := OptionCount(o, progress, dryRun);
            var ld := if Truthy(o.linkDest) then 2 else 0;
            n + 1 + ld <= |a| - 1 && a[n + 1 + ld..|a| - 1] == ExcludeArgs(ExcludeList(o.excludes))
  {
    var a := ArgVector(o, progress, dryRun);
    var ld := LinkDestArgs(o.linkDest);
    var ex := ExcludeArgs(ExcludeList(o.excludes));
    var opts := Options(o, progress, dryRun);
    ArgVectorPieces(o, progress, dryRun);
    assert a[|opts| + 1 + |ld|..|a| - 1] == ex;
  }

  /** `ArgVector` as the pieces `_args` appends one after the other. */
  lemma ArgVectorPieces(o: SyncOptions, progress: bool, dryRun: bool)
    ensures ArgVector(o, progress, dryRun)
            == (((Options(o, progress, dryRun) + [o.source]) + LinkDestArgs(o.linkDest))
                + ExcludeArgs(ExcludeList(o.excludes))) + [o.target]
  {
  }

  /** Where each piece of a five-piece concatenation lands. */
  lemma Layout<T>(opts: seq<T>, src: T, ld: seq<T>, ex: seq<T>, tgt: T, a: seq<T>)
    requires a == (((opts + [src]) + ld) + ex) + [tgt]
    ensures |a| == |opts| + 1 + |ld| + |ex| + 1
    ensures a[..|opts|] == opts && a[|opts|] == src && a[|a| - 1] == tgt
    ensures forall k :: 0 <= k < |ld| ==> a[|opts| + 1 + k] == ld[k]
    ensures forall k :: 0 <= k < |ex| ==> a[|opts| + 1 + |ld| + k] == ex[k]
  {
  }

  /** The options come in the fixed order: each option's rank is above the rank of those before it. */
  lemma OptionsOrder(o: SyncOptions, progress: bool, dryRun: bool)
    ensures var opts := Options(o, progress, dryRun);
            forall i, j :: 0 <= i < j < |opts| ==> 0 <= OptionRank(opts[i]) < OptionRank(opts[j])
  {
    forall i, j | 0 <= i < j < |Options(o, progress, dryRun)|
      ensures 0 <= OptionRank(Options(o, progress, dryRun)[i]) < OptionRank(Options(o, progress, dryRun)[j])
    {
      RankAt(o, progress, dryRun, i);
      RankAt(o, progress, dryRun, j);
    }
  }

  /** The switch that turns on the option of rank `k`. */
  function Switch(o: SyncOptions, progress: bool, dryRun: bool, k: int): bool
    requires 0 <= k < 6
  {
    if k == 0 then o.archive
    else if k == 1 then o.verbose
    else if k == 2 then o.delete
    else if k == 3 then dryRun
    else progress
  }

  /** Where the option of rank `k` sits when its switch is on. */
  function Slot(o: SyncOptions, dryRun: bool, k: int): nat
    requires 0 <= k < 6
  {
    if k == 0 then 0
    else if k == 1 then B2I(o.archive)
    else if k == 2 then B2I(o.archive) + B2I(o.verbose)
    else if k == 3 then B2I(o.archive) + B2I(o.verbose) + B2I(o.delete)
    else B2I(o.archive) + B2I(o.verbose) + B2I(o.delete) + B2I(dryRun) + (k - 4)
  }

  /** Each option is present exactly when its switch is on. */
  lemma OptionsPresence(o: SyncOptions, progress: bool, dryRun: bool, x: string)
    requires OptionRank(x) >= 0
    ensures x in Options(o, progress, dryRun) <==> Switch(o, progress, dryRun, OptionRank(x))
  {
    if x in Options(o, progress, dryRun) {
      PresentOnlyWhenOn(o, progress, dryRun, x);
    }
    if Switch(o, progress, dryRun, OptionRank(x)) {
      PresentWhenOn(o, progress, dryRun, x);
    }
  }

  lemma PresentOnlyWhenOn(o: SyncOptions, progress: bool, dryRun: bool, x: string)
    requires OptionRank(x) >= 0 && x in Options(o, progress, dryRun)
    ensures Switch(o, progress, dryRun, OptionRank(x))
  {
    var opts := Options(o, progress, dryRun);
    var i :| 0 <= i < |opts| && opts[i] == x;
    RankAt(o, progress, dryRun, i);
  }

  lemma PresentWhenOn(o: SyncOptions, progress: bool, dryRun: bool, x: string)
    requires OptionRank(x) >= 0 && Switch(o, progress, dryRun, OptionRank(x))
    ensures x in Options(o, progress, dryRun)
  {
    var opts := Options(o, progress, dryRun);
    var i := Slot(o, dryRun, OptionRank(x));
    RankAt(o, progress, dryRun, i);
    RankDetermines(opts[i], x);
  }

  /** Known options are told apart by their rank. */
  lemma RankDetermines(a: string, b: string)
    requires OptionRank(a) >= 0 && OptionRank(a) == OptionRank(b)
    ensures a == b
  {
  }

  /** The rank of the `i`-th option grows with `i`. */
  lemma RankAt(o: SyncOptions, progress: bool, dryRun: bool, i: nat)
    requires i < |Options(o, progress, dryRun)|
    ensures var opts := Options(o, progress, dryRun);
            var before := B2I(o.archive) + B2I(o.verbose) + B2I(o.delete) + B2I(dryRun);
            OptionRank(opts[i]) ==
              if i < before then
                (if i == 0 && o.archive then 0
                 else if i < B2I(o.archive) + B2I(o.verbose) && o.verbose then 1
                 else if i < B2I(o.archive) + B2I(o.verbose) + B2I(o.delete) && o.delete then 2
                 else 3)
              else 4 + (i - before)
  {
    var p1 := Flag(o.archive, "--archive");
    var p2 := p1 + Flag(o.verbose, "--verbose");
    var p3 := p2 + Flag(o.delete, "--delete");
    var p4 := p3 + Flag(dryRun, "--dry-run");
    var tail: seq<string> := if progress then ["--no-i-r", "--info=progress2"] else [];
    var opts := p4 + tail;
    assert |p1| == B2I(o.archive) && |p2| == |p1| + B2I(o.verbose);
    assert |p3| == |p2| + B2I(o.delete) && |p4| == |p3| + B2I(dryRun);
    if i < |p1| {
      assert opts[i] == p1[i] == "--archive";
    } else if i < |p2| {
      assert opts[i] == p2[i] == "--verbose";
    } else if i < |p3| {
      assert opts[i] == p3[i] == "--delete";
    } else if i < |p4| {
      assert opts[i] == p4[i] == "--dry-run";
    } else {
      assert opts[i] == tail[i - |p4|];
    }
  }

  /**
   * The `command` property: the binary, then the default arguments, so its
   * options never include `--dry-run` or the progress switches.
   */
  lemma CommandOmitsRunSwitches(o: SyncOptions)
    ensures var opts := ArgVector(o, false, false)[..OptionCount(o, false, false)];
            "--dry-run" !in opts && "--no-i-r" !in opts && "--info=progress2" !in opts
  {
    OptionsPresence(o, false, false, "--dry-run");
    OptionsPresence(o, false, false, "--no-i-r");
    OptionsPresence(o, false, false, "--info=progress2");
  }

  // ---------------------------------------------------------------------
  // Properties of the read loop
  // ---------------------------------------------------------------------

  /** Nothing after the first blank line is read: the loop stops there. */
  lemma {:induction false} StopsAtBlank(chunks: seq<string>, k: nat, withLog: bool, withProgress: bool)
    requires k < |chunks| && IsBlank(chunks[k])
    ensures Consume(chunks, withLog, withProgress) == Consume(chunks[..k + 1], withLog, withProgress)
    ensures Consume(chunks, withLog, withProgress).failure != Some(IncompleteRead)
  {
    var pre := chunks[..k + 1];
    assert pre[0] == chunks[0];
    if k > 0 {
      assert pre[1..] == chunks[1..][..k];
      StopsAtBlank(chunks[1..], k - 1, withLog, withProgress);
    }
  }

  /**
   * What the emissions look like: log writes only with a log attached, each
   * one a non-blank line that does not start with a carriage return,
   * stripped of trailing whitespace and given one line feed; progress
   * reports only with a callback attached.
   */
  lemma {:induction false} EmitsShape(chunks: seq<string>, withLog: bool, withProgress: bool)
    ensures forall e :: e in Consume(chunks, withLog, withProgress).emits ==>
              (e.Write? ==> withLog && |e.text| >= 2 && e.text[0] != '\r'
                            && e.text[|e.text| - 1] == '\n' && !IsSpace(e.text[|e.text| - 2]))
              && (e.Report? ==> withProgress)
    decreases |chunks|
  {
    if chunks != [] {
      EmitsShape(chunks[1..], withLog, withProgress);
    }
  }

  /** With neither a log nor a callback, nothing is emitted and no progress line is decoded. */
  lemma {:induction false} SilentWithoutHandlers(chunks: seq<string>)
    ensures Consume(chunks, false, false).emits == []
    ensures forall e :: Consume(chunks, false, false).failure != Some(BadProgress(e))
  {
    if chunks != [] {
      SilentWithoutHandlers(chunks[1..]);
    }
  }

  /** A log line becomes exactly one write: the line without trailing whitespace, plus a line feed. */
  lemma LogLineWritten(line: string, rest: seq<string>, withProgress: bool)
    requires IsAscii(line) && RStrip(line) != [] && line[0] != '\r'
    ensures Consume([line] + rest, true, withProgress)
            == Prepend([Write(RStrip(line) + "\n")], Consume(rest, true, withProgress))
  {
    assert ([line] + rest)[1..] == rest;
    assert RStrip(line)[0] == line[0];
  }

  /** A progress line becomes exactly one report and no write. */
  lemma ProgressLineReported(line: string, rest: seq<string>, withLog: bool, info: ProgressInfo)
    requires IsAscii(line) && RStrip(line) != [] && line[0] == '\r'
    requires FromProgressLine(RStrip(line)) == Success(info)
    ensures Consume([line] + rest, withLog, true)
            == Prepend([Report(info)], Consume(rest, withLog, true))
  {
    assert ([line] + rest)[1..] == rest;
    assert RStrip(line)[0] == line[0];
  }
}
