/**
 * The older, synchronous `RSync` class of rsbackup/rsync.py. It builds its
 * argument vector with the short options `-a` and `-v` and no dry-run or
 * progress switches, and runs rsync to completion without looking at its
 * exit status.
 */
module LegacyRsync {
  import opened Common
  import opened Argv
  import Sync

  /**
   * The options in front of the source: `-a`, `-v` and `--delete`, each
   * exactly when its switch is on, in that order.
   */
  function ShortOptions(o: SyncOptions): (r: seq<string>)
    ensures |r| == Sync.OptionCount(o, false, false)
    ensures "-a" in r <==> o.archive
    ensures "-v" in r <==> o.verbose
    ensures "--delete" in r <==> o.delete
    ensures o.archive ==> r[0] == "-a"
    ensures o.delete ==> r[|r| - 1] == "--delete"
  {
    Flag(o.archive, "-a") + Flag(o.verbose, "-v") + Flag(o.delete, "--delete")
  }

  /**
   * What `_args()` returns: the short options, the source, `--link-dest`
   * and its path when the link target is truthy, one `--exclude=` per
   * pattern in order, and the target last.
   */
  function LegacyArgVector(o: SyncOptions): (r: seq<string>)
    ensures var n := |ShortOptions(o)|;
            var ld := if Truthy(o.linkDest) then 2 else 0;
            var xs := ExcludeList(o.excludes);
            && |r| == n + 1 + ld + |xs| + 1
            && r[..n] == ShortOptions(o)
            && r[n] == o.source
            && (Truthy(o.linkDest) ==> r[n + 1] == "--link-dest" && r[n + 2] == o.linkDest.value)
            && r[n + 1 + ld..|r| - 1] == ExcludeArgs(xs)
            && r[|r| - 1] == o.target
  {
    var opts, ld, ex := ShortOptions(o), LinkDestArgs(o.linkDest), ExcludeArgs(ExcludeList(o.excludes));
    var a := opts + [o.source] + ld + ex + [o.target];
    Sync.Layout(opts, o.source, ld, ex, o.target, a);
    assert a[|opts| + 1 + |ld|..|a| - 1] == ex;
    a
  }

  class RSync {
    const source: string
    const target: string
    const archive: bool
    const verbose: bool
    const delete: bool
    const linkDest: Option<string>
    const excludes: Option<seq<string>>
    /** The rsync executable; `found` stands for the result of `shutil.which('rsync')`. */
    const binary: string

    constructor (source: string, target: string, found: string, archive: bool := true,
                 verbose: bool := true, delete: bool := true, linkDest: Option<string> := None,
                 excludes: Option<seq<string>> := None, binary: string := "")
      ensures this.source == source && this.target == target
      ensures this.archive == archive && this.verbose == verbose && this.delete == delete
      ensures this.linkDest == linkDest && this.excludes == excludes
      ensures this.binary == (if binary != "" then binary else found)
    {
      this.source := source;
      this.target := target;
      this.archive := archive;
      this.verbose := verbose;
      this.delete := delete;
      this.linkDest := linkDest;
      this.excludes := excludes;
      this.binary := if binary != "" then binary else found;
    }

    function Settings(): SyncOptions
    {
      SyncOptions(source, target, archive, verbose, delete, linkDest, excludes)
    }

    /** `_args`: grows the argument list one `append` at a time. */
    method Args() returns (args: seq<string>)
      ensures args == LegacyArgVector(Settings())
    {
      args := [];
      if archive {
        args := args + ["-a"];
      }
      ghost var a := args;
      if verbose {
        args := args + ["-v"];
      }
      ghost var v := args;
      if delete {
        args := args + ["--delete"];
      }
      ghost var opts := args;
      args := args + [source];
      if Truthy(linkDest) {
        args := args + ["--link-dest"];
        args := args + [linkDest.value];
      }
      ghost var head := args;
      if excludes.Some? && excludes.value != [] {
        args := AppendExcludes(args, excludes.value);
      }
      ghost var o := Settings();
      ShortOptionsAssembled(o, a, v, opts);
      LegacyArgsAssembled(o, opts, head, args, args + [target]);
      args := args + [target];
    }

    /** The `command` property. */
    method Command() returns (cmd: seq<string>)
      ensures cmd == [binary] + LegacyArgVector(Settings())
    {
      var args := Args();
      cmd := [binary] + args;
    }

    /**
     * `run`: the command rsync is started with, and whether its output is
     * discarded (no log given) rather than written to the log. The exit
     * status is not returned.
     */
    method Run(logGiven: bool) returns (argv: seq<string>, discarded: bool)
      ensures argv == [binary] + LegacyArgVector(Settings())
      ensures discarded <==> !logGiven
    {
      argv := Command();
      discarded := !logGiven;
    }
  }

  /** The flags as `_args` appends them make up `ShortOptions`. */
  lemma ShortOptionsAssembled(o: SyncOptions, a: seq<string>, v: seq<string>, opts: seq<string>)
    requires a == if o.archive then ["-a"] else []
    requires v == if o.verbose then a + ["-v"] else a
    requires opts == if o.delete then v + ["--delete"] else v
    ensures opts == ShortOptions(o)
  {
    assert a == Flag(o.archive, "-a");
    assert v == a + Flag(o.verbose, "-v");
    assert opts == v + Flag(o.delete, "--delete");
  }

  /** The source, link target, excludes and target after the options make up `LegacyArgVector`. */
  lemma LegacyArgsAssembled(o: SyncOptions, opts: seq<string>, head: seq<string>, mid: seq<string>, args: seq<string>)
    requires opts == ShortOptions(o)
    requires head == if Truthy(o.linkDest) then opts + [o.source] + ["--link-dest"] + [o.linkDest.value]
                     else opts + [o.source]
    requires mid == if o.excludes.Some? && o.excludes.value != [] then head + ExcludeArgs(o.excludes.value) else head
    requires args == mid + [o.target]
    ensures args == LegacyArgVector(o)
  {
    assert head == opts + [o.source] + LinkDestArgs(o.linkDest);
    assert mid == head + ExcludeArgs(ExcludeList(o.excludes));
  }

  /**
   * The two classes agree on everything after the options: given the same
   * settings, the legacy vector is its own short options followed by what
   * follows the options in the asynchronous class's default vector.
   */
  lemma AgreesWithAsyncClass(o: SyncOptions)
    ensures var n := Sync.OptionCount(o, false, false);
            var async := Sync.ArgVector(o, false, false);
            n <= |async| && LegacyArgVector(o) == ShortOptions(o) + async[n..]
  {
    var opts := Sync.Options(o, false, false);
    var ld := LinkDestArgs(o.linkDest);
    var ex := ExcludeArgs(ExcludeList(o.excludes));
    var rest := (([o.source] + ld) + ex) + [o.target];
    Sync.ArgVectorPieces(o, false, false);
    Regroup(opts, o.source, ld, ex, o.target);
    Regroup(ShortOptions(o), o.source, ld, ex, o.target);
    DropPrefix(opts, rest);
  }

  lemma Regroup<T>(p: seq<T>, s: T, l: seq<T>, x: seq<T>, t: T)
    ensures (((p + [s]) + l) + x) + [t] == p + ((([s] + l) + x) + [t])
  {
  }

  lemma DropPrefix<T>(p: seq<T>, r: seq<T>)
    ensures (p + r)[|p|..] == r
  {
  }
}
