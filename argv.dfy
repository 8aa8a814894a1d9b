/**
 * Pieces of rsync's command line that both `RSync` classes build the same
 * way (rsbackup/__init__.py and rsbackup/rsync.py).
 */
module Argv {
  import opened Common

  /** The fields of an `RSync` object that determine its arguments. */
  datatype SyncOptions = SyncOptions(
    source: string,
    target: string,
    archive: bool,
    verbose: bool,
    delete: bool,
    linkDest: Option<string>,
    excludes: Option<seq<string>>)

  /** `[name]` when the switch is on, nothing otherwise. */
  function Flag(on: bool, name: string): seq<string>
  {
    if on then [name] else []
  }

  /** Python truthiness of an optional string: `None` and `""` are false. */
  predicate Truthy(s: Option<string>) {
    s.Some? && s.value != ""
  }

  /** `--link-dest` followed by the path, when the path is truthy. */
  function LinkDestArgs(linkDest: Option<string>): (r: seq<string>)
    ensures Truthy(linkDest) ==> r == ["--link-dest", linkDest.value]
    ensures !Truthy(linkDest) ==> r == []
  {
    if Truthy(linkDest) then ["--link-dest", linkDest.value] else []
  }

  /** The exclude list, `None` read as empty. */
  function ExcludeList(excludes: Option<seq<string>>): seq<string>
  {
    excludes.GetOr([])
  }

  /** One `--exclude=<pattern>` per pattern, in the order given. */
  function ExcludeArgs(patterns: seq<string>): (r: seq<string>)
    ensures |r| == |patterns|
    ensures forall i :: 0 <= i < |r| ==> r[i] == "--exclude=" + patterns[i]
  {
    seq(|patterns|, i requires 0 <= i < |patterns| => "--exclude=" + patterns[i])
  }

  /** Appending one pattern appends its flag. */
  lemma ExcludeArgsSnoc(patterns: seq<string>, i: nat)
    requires i < |patterns|
    ensures ExcludeArgs(patterns[..i + 1]) == ExcludeArgs(patterns[..i]) + ["--exclude=" + patterns[i]]
  {
  }

  /** The loop that appends one `--exclude=` argument per pattern to `args`. */
  method AppendExcludes(args: seq<string>, patterns: seq<string>) returns (r: seq<string>)
    ensures r == args + ExcludeArgs(patterns)
  {
    r := args;
    var i := 0;
    while i < |patterns|
      invariant 0 <= i <= |patterns|
      invariant r == args + ExcludeArgs(patterns[..i])
    {
      ExcludeArgsSnoc(patterns, i);
      r := r + ["--exclude=" + patterns[i]];
      i := i + 1;
    }
    assert patterns[..|patterns|] == patterns;
  }

  /** `' '.join(words)`. */
  function JoinSpaces(words: seq<string>): string
  {
    if |words| == 0 then ""
    else if |words| == 1 then words[0]
    else JoinSpaces(words[..|words| - 1]) + " " + words[|words| - 1]
  }
}
