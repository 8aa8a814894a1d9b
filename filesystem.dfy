/**
 * The part of the operating system `Backup.run` touches: directories,
 * regular files and symbolic links, addressed by path strings, with the
 * `os` calls the run makes (`os.path.exists`, `os.readlink`,
 * `os.makedirs`, `open(..., 'w')` and `write`, `os.remove`,
 * `os.symlink`).
 *
 * Paths are compared as strings: two spellings of one location (`a//b`,
 * `a/./b`) are two entries here.
 */
module Filesystem {
  import opened Common
  import opened Paths

  datatype Node = Dir | File(content: string) | Link(target: string)

  /** The `OSError` subclasses the calls raise. */
  datatype FsError =
    | FileExists(path: string)     // FileExistsError
    | NotFound(path: string)       // FileNotFoundError
    | IsADirectory(path: string)   // IsADirectoryError
    | NotALink(path: string)       // OSError(EINVAL) from readlink

  type FsState = map<string, Node>

  /** Linux gives up resolving after this many symbolic links (MAXSYMLINKS). */
  const MaxHops: nat := 40

  /** `os.path.dirname`: everything before the last slash, trailing slashes dropped unless only slashes remain. */
  function Dirname(p: string): string
  {
    if '/' !in p then "" else StripSlashes(p[..LastSlash(p) + 1])
  }

  /** `head.rstrip('/')`, or `head` itself when it is nothing but slashes. */
  function StripSlashes(h: string): string
  {
    if h == [] then h
    else if h[|h| - 1] == '/' && exists i :: 0 <= i < |h| && h[i] != '/' then StripSlashes(h[..|h| - 1])
    else h
  }

  /** Where the link at `p` with target `t` points: a relative target is taken from the link's directory. */
  function LinkTarget(p: string, t: string): string
  {
    if IsAbs(t) then t else Join(Dirname(p), t)
  }

  /** Follows links from `p`; the path of the directory or file reached, if any. */
  function Resolve(fs: FsState, p: string, hops: nat): Option<string>
    decreases hops
  {
    if p !in fs then None
    else match fs[p]
      case Link(t) => if hops == 0 then None else Resolve(fs, LinkTarget(p, t), hops - 1)
      case _ => Some(p)
  }

  /**
   * `os.path.exists`: follows links, so a dangling link does not exist;
   * only paths with an entry exist, and every directory or file does.
   */
  predicate Exists(fs: FsState, p: string)
    ensures Exists(fs, p) ==> p in fs
    ensures p in fs && !fs[p].Link? ==> Exists(fs, p)
  {
    Resolve(fs, p, MaxHops).Some?
  }

  /** `os.readlink`. */
  function ReadLink(fs: FsState, p: string): (r: Result<string, FsError>)
    ensures r.Success? <==> p in fs && fs[p].Link?
    ensures r.Success? ==> fs[p] == Link(r.value)
  {
    if p !in fs then Failure(NotFound(p))
    else if !fs[p].Link? then Failure(NotALink(p))
    else Success(fs[p].target)
  }

  /** The directories above `p` that `makedirs` would create: each prefix ending just before a slash. */
  function Ancestors(p: string): set<string>
  {
    set i | 0 < i < |p| && p[i] == '/' && p[i - 1] != '/' :: p[..i]
  }

  /**
   * `os.makedirs(p)`: fails when `p` is taken, else creates it and its
   * missing ancestors, keeping every existing entry and adding only
   * directories.
   */
  function MakeDirs(fs: FsState, p: string): (r: Result<FsState, FsError>)
    ensures r.Failure? <==> p in fs
    ensures r.Failure? ==> r.error == FileExists(p)
    ensures r.Success? ==>
              && r.value.Keys == fs.Keys + Ancestors(p) + {p}
              && r.value[p] == Dir
              && (forall q :: q in fs ==> r.value[q] == fs[q])
              && (forall q :: q in r.value && q !in fs ==> r.value[q] == Dir)
  {
    if p in fs then Failure(FileExists(p))
    else Success(map q | q in fs.Keys + Ancestors(p) + {p} :: if q in fs then fs[q] else Dir)
  }

  /** `open(p, 'w')`: truncates or creates a regular file; a directory refuses. */
  function OpenWrite(fs: FsState, p: string): (r: Result<FsState, FsError>)
    ensures r.Failure? <==> p in fs && fs[p].Dir?
    ensures r.Failure? ==> r.error == IsADirectory(p)
    ensures r.Success? ==> p in r.value && r.value[p] == File("") && r.value - {p} == fs - {p}
  {
    if p in fs && fs[p].Dir? then Failure(IsADirectory(p)) else Success(fs[p := File("")])
  }

  /** `write(text)` on the file opened at `p`: the text goes at its end, nothing else changes. */
  function Append(fs: FsState, p: string, text: string): (r: FsState)
    ensures r.Keys == fs.Keys
    ensures p in fs && fs[p].File? ==> r[p] == File(fs[p].content + text)
    ensures forall q :: q in fs && q != p ==> r[q] == fs[q]
  {
    if p in fs && fs[p].File? then fs[p := File(fs[p].content + text)] else fs
  }

  /**
   * `os.remove(p)`: unlinks a file or a link (not what it points to),
   * refuses a directory, and takes away exactly that one entry.
   */
  function Remove(fs: FsState, p: string): (r: Result<FsState, FsError>)
    ensures r.Success? <==> p in fs && !fs[p].Dir?
    ensures p !in fs ==> r == Failure(NotFound(p))
    ensures p in fs && fs[p].Dir? ==> r == Failure(IsADirectory(p))
    ensures r.Success? ==> r.value == fs - {p} && p !in r.value
  {
    if p !in fs then Failure(NotFound(p))
    else if fs[p].Dir? then Failure(IsADirectory(p))
    else Success(fs - {p})
  }

  /**
   * `os.symlink(target, p)`: fails when anything, even a dangling link, is
   * at `p`; otherwise adds the link and changes nothing else.
   */
  function Symlink(fs: FsState, target: string, p: string): (r: Result<FsState, FsError>)
    ensures r.Success? <==> p !in fs
    ensures r.Failure? ==> r.error == FileExists(p)
    ensures r.Success? ==> p in r.value && r.value[p] == Link(target) && r.value - {p} == fs - {p}
  {
    if p in fs then Failure(FileExists(p)) else Success(fs[p := Link(target)])
  }

  // ---------------------------------------------------------------------
  // The filesystem as an object the run changes step by step
  // ---------------------------------------------------------------------

  class FileSystem {
    var entries: FsState

    constructor (initial: FsState)
      ensures entries == initial
    {
      entries := initial;
    }

    /** `os.path.exists(p)`. */
    method PathExists(p: string) returns (b: bool)
      ensures b == Exists(entries, p)
    {
      b := Exists(entries, p);
    }

    /** `os.path.lexists(p)`: is anything, even a dangling link, at `p`. */
    method LinkExists(p: string) returns (b: bool)
      ensures b <==> p in entries
    {
      b := p in entries;
    }

    method ReadLinkAt(p: string) returns (r: Result<string, FsError>)
      ensures r == ReadLink(entries, p)
    {
      r := ReadLink(entries, p);
    }

    method MakeDirsAt(p: string) returns (err: Option<FsError>)
      modifies this
      ensures MakeDirs(old(entries), p).Failure? ==> entries == old(entries) && err == Some(MakeDirs(old(entries), p).error)
      ensures MakeDirs(old(entries), p).Success? ==> entries == MakeDirs(old(entries), p).value && err == None
    {
      var r := MakeDirs(entries, p);
      if r.Failure? {
        err := Some(r.error);
      } else {
        entries := r.value;
        err := None;
      }
    }

    method OpenWriteAt(p: string) returns (err: Option<FsError>)
      modifies this
      ensures OpenWrite(old(entries), p).Failure? ==> entries == old(entries) && err == Some(OpenWrite(old(entries), p).error)
      ensures OpenWrite(old(entries), p).Success? ==> entries == OpenWrite(old(entries), p).value && err == None
    {
      var r := OpenWrite(entries, p);
      if r.Failure? {
        err := Some(r.error);
      } else {
        entries := r.value;
        err := None;
      }
    }

    method Write(p: string, text: string)
      modifies this
      ensures entries == Append(old(entries), p, text)
    {
      entries := Append(entries, p, text);
    }

    method RemoveAt(p: string) returns (err: Option<FsError>)
      modifies this
      ensures Remove(old(entries), p).Failure? ==> entries == old(entries) && err == Some(Remove(old(entries), p).error)
      ensures Remove(old(entries), p).Success? ==> entries == Remove(old(entries), p).value && err == None
    {
      var r := Remove(entries, p);
      if r.Failure? {
        err := Some(r.error);
      } else {
        entries := r.value;
        err := None;
      }
    }

    method SymlinkAt(target: string, p: string) returns (err: Option<FsError>)
      modifies this
      ensures Symlink(old(entries), target, p).Failure? ==> entries == old(entries) && err == Some(Symlink(old(entries), target, p).error)
      ensures Symlink(old(entries), target, p).Success? ==> entries == Symlink(old(entries), target, p).value && err == None
    {
      var r := Symlink(entries, target, p);
      if r.Failure? {
        err := Some(r.error);
      } else {
        entries := r.value;
        err := None;
      }
    }
  }

  // ---------------------------------------------------------------------
  // Properties of the calls
  // ---------------------------------------------------------------------

  /** A dangling link is there for `symlink` but not for `exists`. */
  lemma DanglingLink(fs: FsState, p: string, t: string)
    requires p in fs && fs[p] == Link(t) && LinkTarget(p, t) !in fs
    ensures !Exists(fs, p)
    ensures Symlink(fs, t, p).Failure?
  {
    assert Resolve(fs, p, MaxHops) == Resolve(fs, LinkTarget(p, t), MaxHops - 1);
  }

  /** No ancestor is longer than the path or reaches its last slash-free piece. */
  lemma AncestorsShorter(p: string, q: string)
    requires q in Ancestors(p)
    ensures |q| < |p| && q == p[..|q|] && p[|q|] == '/'
  {
  }

  /** `fs2` keeps every entry of `fs`, or puts a directory or file in its place. */
  predicate Extends(fs: FsState, fs2: FsState) {
    forall q :: q in fs ==> q in fs2 && (fs2[q] == fs[q] || !fs2[q].Link?)
  }

  /** Adding entries and replacing links by directories or files never makes a path that resolved stop resolving. */
  lemma {:induction false} ResolveExtends(fs: FsState, fs2: FsState, p: string, hops: nat)
    requires Extends(fs, fs2)
    ensures Resolve(fs, p, hops).Some? ==> Resolve(fs2, p, hops).Some?
    decreases hops
  {
    if Resolve(fs, p, hops).Some? && fs2[p].Link? {
      ResolveExtends(fs, fs2, LinkTarget(p, fs[p].target), hops - 1);
    }
  }
}
