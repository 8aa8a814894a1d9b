/**
 * rsbackup/config.py: the backup definitions of a configuration file and
 * their lookup by name.
 *
 * `load` takes the records `yaml.safe_load` produced; the YAML parsing
 * itself and the reading of the file are not part of this model. The
 * working directory that `os.path.abspath` consults is the parameter
 * `cwd`.
 */
module Config {
  import opened Common
  import opened Paths
  import opened Argv

  /** `BackupConfigEntry`; the name is `None` when the record gives `name: null`. */
  datatype Entry = Entry(name: Option<string>, description: Option<string>, source: string, target: string, excludes: seq<string>)

  /** A value `load` reads with `entry[key]`: the key is missing, given as YAML `null`, or a string. */
  datatype Field = Absent | Null | Str(value: string)

  /**
   * One parsed YAML record. `name`, `source` and `target` are read with
   * `[]`, so a missing key and a `null` one differ; `description` and
   * `excludes` are read with `get`, for which the two are alike (`None`).
   */
  datatype Record = Record(name: Field, description: Option<string>, source: Field,
                           target: Field, excludes: Option<seq<string>>)

  /**
   * `KeyError` for a key read with `entry[...]` that is missing;
   * `TypeError` from `path.isabs(None)` for a source or target given as `null`.
   */
  datatype LoadError = MissingKey(key: string) | NullPath(key: string)

  // ---------------------------------------------------------------------
  // Lookup by name
  // ---------------------------------------------------------------------

  /** The index of the first entry named `name`, or `|es|` when there is none. */
  function FirstIndex(es: seq<Entry>, name: Option<string>): (i: nat)
    ensures i <= |es|
    ensures forall j :: 0 <= j < i ==> es[j].name != name
    ensures i < |es| ==> es[i].name == name
    decreases |es|
  {
    if es == [] then 0
    else if es[0].name == name then 0
    else 1 + FirstIndex(es[1..], name)
  }

  /** The first entry named `name`, if any. */
  function Lookup(es: seq<Entry>, name: Option<string>): (r: Option<Entry>)
    ensures r.None? <==> forall j :: 0 <= j < |es| ==> es[j].name != name
    ensures r.Some? ==> exists i :: 0 <= i < |es| && es[i] == r.value && r.value.name == name
                                    && forall j :: 0 <= j < i ==> es[j].name != name
  {
    var i := FirstIndex(es, name);
    if i < |es| then Some(es[i]) else None
  }

  /** `BackupConfig`: the entries it was built from, in order, never changed afterwards. */
  class BackupConfig {
    const entries: seq<Entry>

    constructor (entries: seq<Entry>)
      ensures this.entries == entries
    {
      this.entries := entries;
    }

    /** `__getitem__`: the first entry with the name, by a scan that returns early. */
    method Get(name: Option<string>) returns (r: Option<Entry>)
      ensures r == Lookup(entries, name)
    {
      var i := 0;
      while i < |entries|
        invariant 0 <= i <= |entries|
        invariant forall j :: 0 <= j < i ==> entries[j].name != name
      {
        if entries[i].name == name {
          return Some(entries[i]);
        }
        i := i + 1;
      }
      return None;
    }

    /** `__len__`. */
    function Len(): (n: nat)
      ensures n == |entries|
    {
      |entries|
    }

    /** `__iter__`: the entries in the order given to the constructor. */
    function Items(): (r: seq<Entry>)
      ensures |r| == |entries| && forall i :: 0 <= i < |r| ==> r[i] == entries[i]
    {
      entries
    }
  }

  // ---------------------------------------------------------------------
  // Loading
  // ---------------------------------------------------------------------

  /**
   * The path a configured source or target becomes: a relative one is
   * joined onto `basedir`, then normalised and made absolute.
   */
  function ResolvePath(p: string, basedir: string, cwd: string): (r: string)
    ensures IsAbs(p) ==> r == NormPath(p)
    ensures !IsAbs(p) && IsAbs(basedir) ==> r == NormPath(Join(basedir, p))
    ensures IsAbs(p) || IsAbs(basedir) || IsAbs(cwd) ==> IsAbs(r)
  {
    var joined := if IsAbs(p) then p else Join(basedir, p);
    if IsAbs(joined) then
      NormPathIdempotent(joined);
      AbsPath(NormPath(joined), cwd)
    else
      AbsPath(NormPath(joined), cwd)
  }

  /** The record loads: it has a name (a string or `null`) and a string source and target. */
  predicate Loads(rec: Record) {
    !rec.name.Absent? && rec.source.Str? && rec.target.Str?
  }

  /** The index of the first record that does not load (`|records|` when there is none). */
  function FirstFailure(records: seq<Record>): (i: nat)
    ensures i <= |records|
    ensures forall j :: 0 <= j < i ==> Loads(records[j])
    ensures i < |records| ==> !Loads(records[i])
    decreases |records|
  {
    if records == [] then 0
    else if !Loads(records[0]) then 0
    else 1 + FirstFailure(records[1..])
  }

  /**
   * One entry of the list `load` builds. The keys are read in the order
   * name, source, target: a missing one raises `KeyError`, a `null` source
   * or target raises `TypeError` in `path.isabs`, and a `null` name is kept
   * as `None`.
   */
  function LoadEntry(rec: Record, basedir: string, cwd: string): (r: Result<Entry, LoadError>)
    ensures r.Failure? <==> !Loads(rec)
    ensures rec.name.Absent? ==> r == Failure(MissingKey("name"))
    ensures !rec.name.Absent? && rec.source.Absent? ==> r == Failure(MissingKey("source"))
    ensures !rec.name.Absent? && rec.source.Null? ==> r == Failure(NullPath("source"))
    ensures !rec.name.Absent? && rec.source.Str? && rec.target.Absent? ==> r == Failure(MissingKey("target"))
    ensures !rec.name.Absent? && rec.source.Str? && rec.target.Null? ==> r == Failure(NullPath("target"))
    ensures r.Success? ==>
              && (rec.name.Str? ==> r.value.name == Some(rec.name.value))
              && (rec.name.Null? ==> r.value.name == None)
              && r.value.description == rec.description
              && r.value.source == ResolvePath(rec.source.value, basedir, cwd)
              && r.value.target == ResolvePath(rec.target.value, basedir, cwd)
              && (rec.excludes.Some? ==> r.value.excludes == rec.excludes.value)
              && (rec.excludes.None? ==> r.value.excludes == [])
  {
    if rec.name.Absent? then Failure(MissingKey("name"))
    else if rec.source.Absent? then Failure(MissingKey("source"))
    else if rec.source.Null? then Failure(NullPath("source"))
    else if rec.target.Absent? then Failure(MissingKey("target"))
    else if rec.target.Null? then Failure(NullPath("target"))
    else
      var name := if rec.name.Str? then Some(rec.name.value) else None;
      Success(Entry(name, rec.description, ResolvePath(rec.source.value, basedir, cwd),
                    ResolvePath(rec.target.value, basedir, cwd), ExcludeList(rec.excludes)))
  }

  /**
   * `load`: one entry per record, in order; the first record that does not
   * load raises.
   */
  function Load(records: seq<Record>, basedir: string, cwd: string): (r: Result<seq<Entry>, LoadError>)
    ensures r.Success? ==> |r.value| == |records|
    decreases |records|
  {
    if records == [] then Success([])
    else
      match LoadEntry(records[0], basedir, cwd)
      case Failure(e) => Failure(e)
      case Success(entry) =>
        match Load(records[1..], basedir, cwd)
        case Failure(e) => Failure(e)
        case Success(rest) => Success([entry] + rest)
  }

  /** `load` succeeds exactly when every record loads. */
  lemma {:induction false} LoadSucceeds(records: seq<Record>, basedir: string, cwd: string)
    ensures Load(records, basedir, cwd).Success? <==> forall i :: 0 <= i < |records| ==> Loads(records[i])
    decreases |records|
  {
    if records != [] {
      var tail := records[1..];
      LoadSucceeds(tail, basedir, cwd);
      if forall i :: 0 <= i < |tail| ==> Loads(tail[i]) {
        forall i | 0 <= i < |records| && i > 0
          ensures Loads(records[i])
        {
          assert records[i] == tail[i - 1];
        }
      } else {
        var k :| 0 <= k < |tail| && !Loads(tail[k]);
        assert records[k + 1] == tail[k];
      }
    }
  }

  /** On success the i-th entry is what the i-th record loads to. */
  lemma {:induction false} LoadEntries(records: seq<Record>, basedir: string, cwd: string)
    requires Load(records, basedir, cwd).Success?
    ensures forall i :: 0 <= i < |records| ==>
              LoadEntry(records[i], basedir, cwd) == Success(Load(records, basedir, cwd).value[i])
    decreases |records|
  {
    if records != [] {
      var tail := records[1..];
      LoadEntries(tail, basedir, cwd);
      var e := LoadEntry(records[0], basedir, cwd);
      var rest := Load(tail, basedir, cwd).value;
      var v := Load(records, basedir, cwd).value;
      assert e.Success? && v == [e.value] + rest;
      forall i | 0 <= i < |records|
        ensures LoadEntry(records[i], basedir, cwd) == Success(v[i])
      {
        if i > 0 {
          assert records[i] == tail[i - 1] && v[i] == rest[i - 1];
        }
      }
    }
  }

  /** On failure the error is the one of the first record that does not load. */
  lemma {:induction false} LoadFailsAtFirst(records: seq<Record>, basedir: string, cwd: string)
    requires Load(records, basedir, cwd).Failure?
    ensures FirstFailure(records) < |records|
    ensures Load(records, basedir, cwd).error == LoadEntry(records[FirstFailure(records)], basedir, cwd).error
    decreases |records|
  {
    var tail := records[1..];
    if Loads(records[0]) {
      LoadFailsAtFirst(tail, basedir, cwd);
      assert records[FirstFailure(records)] == tail[FirstFailure(tail)];
    }
  }

  /** `BackupConfig(*load(...))`: the configuration `load` returns. */
  method LoadConfig(records: seq<Record>, basedir: string, cwd: string) returns (r: Result<BackupConfig, LoadError>)
    ensures Load(records, basedir, cwd).Failure? ==> r == Failure(Load(records, basedir, cwd).error)
    ensures Load(records, basedir, cwd).Success? ==>
              r.Success? && fresh(r.value) && r.value.entries == Load(records, basedir, cwd).value
  {
    var loaded := Load(records, basedir, cwd);
    if loaded.Failure? {
      return Failure(loaded.error);
    }
    var c := new BackupConfig(loaded.value);
    return Success(c);
  }

  // ---------------------------------------------------------------------
  // Properties
  // ---------------------------------------------------------------------

  /** Every entry a load yields has an absolute source and target once the base directory is absolute. */
  lemma LoadedPathsAbsolute(records: seq<Record>, basedir: string, cwd: string)
    requires IsAbs(basedir)
    ensures Load(records, basedir, cwd).Success? ==>
              forall i :: 0 <= i < |records| ==>
                IsAbs(Load(records, basedir, cwd).value[i].source) && IsAbs(Load(records, basedir, cwd).value[i].target)
  {
    if Load(records, basedir, cwd).Success? {
      LoadEntries(records, basedir, cwd);
    }
  }


  lemma NormHome()
    ensures NormPath("/home") == "/home"
  {
    assert "/" + JoinSlash(["home"]) == "/home";
    NormCleanOneSlash(["home"]);
  }

  lemma NormMnt()
    ensures NormPath("/mnt/backups/homes") == "/mnt/backups/homes"
  {
    JoinSlashThree("mnt", "backups", "homes");
    assert "/" + JoinSlash(["mnt", "backups", "homes"]) == "/mnt/backups/homes";
    NormCleanOneSlash(["mnt", "backups", "homes"]);
  }

  /** The example's paths, piece by piece. */
  lemma ExamplePieces(basedir: string)
    requires basedir == "/spam/eggs"
    ensures basedir == "/" + "spam" + "/" + "eggs"
    ensures "./backup" == "./" + "backup" && "./tmp" == "./" + "tmp"
    ensures basedir + "/" + "backup" == "/spam/eggs/backup" && basedir + "/" + "tmp" == "/spam/eggs/tmp"
  {
  }

  /** `./backup` below `/spam/eggs`. */
  lemma NormExampleSource(basedir: string)
    requires basedir == "/spam/eggs"
    ensures NormPath(Join(basedir, "./backup")) == "/spam/eggs/backup"
  {
    ExamplePieces(basedir);
    NormJoinDot(basedir, "./backup", "spam", "eggs", "backup");
  }

  /** `./tmp` below `/spam/eggs`. */
  lemma NormExampleTarget(basedir: string)
    requires basedir == "/spam/eggs"
    ensures NormPath(Join(basedir, "./tmp")) == "/spam/eggs/tmp"
  {
    ExamplePieces(basedir);
    NormJoinDot(basedir, "./tmp", "spam", "eggs", "tmp");
  }

  /** The two records of the example configuration file of the tests. */
  function ExampleRecords(): seq<Record>
  {
    [Record(Str("Test"), Some("A backup configuration for tests"), Str("./backup"), Str("./tmp"), Some(["__pycache__"])),
     Record(Str("Another test"), None, Str("/home"), Str("/mnt/backups/homes"), Some(["dummy", "foo", ".cache"]))]
  }

  /** The entries the tests expect from the example records. */
  function ExampleEntries(): seq<Entry>
  {
    [Entry(Some("Test"), Some("A backup configuration for tests"), "/spam/eggs/backup", "/spam/eggs/tmp", ["__pycache__"]),
     Entry(Some("Another test"), None, "/home", "/mnt/backups/homes", ["dummy", "foo", ".cache"])]
  }

  /** The first example record: both paths relative to the base directory. */
  lemma FirstExampleEntry(basedir: string, cwd: string)
    requires basedir == "/spam/eggs"
    ensures LoadEntry(ExampleRecords()[0], basedir, cwd) == Success(ExampleEntries()[0])
  {
    NormExampleSource(basedir);
    NormExampleTarget(basedir);
  }

  /** The second example record: both paths absolute, no description. */
  lemma SecondExampleEntry(basedir: string, cwd: string)
    requires basedir == "/spam/eggs"
    ensures LoadEntry(ExampleRecords()[1], basedir, cwd) == Success(ExampleEntries()[1])
  {
    NormHome();
    NormMnt();
  }

  /**
   * Loading the example with base directory `/spam/eggs`: two entries,
   * relative paths joined onto the base directory and normalised, absolute
   * ones kept, the missing description `None`, the excludes as given.
   */
  lemma LoadExample(basedir: string, cwd: string)
    requires basedir == "/spam/eggs"
    ensures Load(ExampleRecords(), basedir, cwd) == Success(ExampleEntries())
  {
    var rs := ExampleRecords();
    var es := ExampleEntries();
    FirstExampleEntry(basedir, cwd);
    SecondExampleEntry(basedir, cwd);
    assert |rs| == 2 && Loads(rs[0]) && Loads(rs[1]);
    forall i | 0 <= i < |rs|
      ensures Loads(rs[i])
    {
      assert i == 0 || i == 1;
    }
    LoadSucceeds(rs, basedir, cwd);
    LoadEntries(rs, basedir, cwd);
    var r := Load(rs, basedir, cwd);
    assert r.value[0] == es[0] && r.value[1] == es[1];
    assert r.value == es;
  }

  /** The configuration built from the example holds two entries, each found by its name. */
  lemma LookupExample()
    ensures var c := ExampleEntries();
            |c| == 2 && Lookup(c, Some("Test")) == Some(c[0]) && Lookup(c, Some("Another test")) == Some(c[1])
  {
    var c := ExampleEntries();
    assert FirstIndex(c, Some("Test")) == 0;
    assert c[0].name != Some("Another test");
    assert FirstIndex(c, Some("Another test")) == 1;
  }
}
