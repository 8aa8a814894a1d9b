# rsbackup, modelled in Dafny

rsbackup wraps `rsync` to keep generations of a backup. Each generation is a
directory named after the time the run started. A symbolic link `_latest`
in the backup target points at the newest generation, and the next run passes
that link's target to rsync as `--link-dest`, so files that did not change
become hard links. This project models the core of rsbackup and proves
properties of that model:

- **`Backup.run`** (`engine.dfy`, properties in `backup_properties.dfy`).
  - A run names the generation, looks up the previous generation through
    `_latest` and branches on `dry_mode`.
  - In apply mode it creates the generation directory and its `.log` file,
    runs rsync into the generation, then replaces `_latest`.
  - In dry mode it only tells the logger what it would do, and runs rsync
    with `--dry-run`.
  - `RunSpec` states the whole run as a function of the filesystem before
    it and of what comes from outside the program (`Environment`: the start
    time, the path `shutil.which` finds, what rsync writes and its exit
    status).
  - The method `Run` performs the same steps on a `FileSystem` object and a
    `Logger` object, and its postcondition ties it to `RunSpec`.
- **The `RSync` class of `__init__.py`** (`sync.dfy`, with the pieces of
  the argument vector in `argv.dfy`).
  - `_args` and `command` build the argument vector.
  - The read loop of `run` sorts rsync's output into log lines and
    progress reports, and stops at the first blank line.
- **`ProgressInfo._from_progress_line`** (`progress.dfy`). It decodes an
  rsync `--info=progress2` line into bytes sent, completion rate and ETA.
  The decoder is proved to recover the byte count, the percentage and the
  ETA from a line holding a comma-grouped count, `N%`, a rate and an ETA,
  separated by any runs of whitespace and followed by anything that starts
  with whitespace. Lines separated by single spaces are one such case.
- **The older `RSync` class of `rsync.py`** (`legacy_rsync.dfy`). This
  class uses short flags.
- **Generation names** (`generations.dfy`). A name is
  `isoformat(sep='_', timespec='seconds')` with every `:` replaced by `-`.
- **The configuration of `config.py`** (`config.dfy`).
  - `BackupConfig` offers lookup by name, length and iteration.
  - `load` builds the entries from records that are already parsed, with
    their defaults and their path resolution.
- **Supporting models**:
  - the POSIX path functions the code calls (`paths.dfy`);
  - the filesystem operations a run performs (`filesystem.dfy`);
  - `Option` and `Result` (`common.dfy`).

Where the project's own prose and the code disagree, the model follows the
code:

- **End of stream.** When rsync's output ends without a blank line,
  `readuntil()` raises `IncompleteReadError`. The loop does not end
  quietly; this is the outcome `Raised(Stream(IncompleteRead))`.
- **Commands announced.** Apply mode does not announce the rsync command.
  Only dry mode does.
- **Link target argument.** `--link-dest` and its path are two separate
  arguments.
- **Dry mode.** Dry mode does start rsync, with `--dry-run` and the
  progress options. The command it announces is `command` (no `--dry-run`,
  no progress options), not the one it runs.
- **Skipping `_latest`.** The docstring of `run` says that `skip_latest`
  leaves `_latest` alone. In apply mode the code relinks it anyway (see
  Findings).

## Model

| member | source | states |
|---|---|---|
| Argv.LinkDestArgs | rsbackup/__init__.py:292-294 | `--link-dest` and the path when the path is truthy (present and non-empty), nothing otherwise |
| Argv.ExcludeArgs | rsbackup/__init__.py:296-298 | one `--exclude=` argument per pattern, element i built from pattern i, so the input order is kept |
| Argv.ExcludeArgsSnoc | rsbackup/__init__.py:297-298 | one more pass of the loop appends exactly the next pattern's argument |
| Argv.AppendExcludes | rsbackup/__init__.py:296-298 | the `for` loop that appends to the list leaves the list followed by the exclude arguments of all patterns |
| Sync.OptionsAssembled | rsbackup/__init__.py:274-288 | the conditional appends of `--archive`, `--verbose`, `--delete`, `--dry-run`, `--no-i-r` and `--info=progress2` yield exactly `Options` |
| Sync.ArgsAssembled | rsbackup/__init__.py:290-300 | appending the source, the link destination, the excludes and the target to the options yields exactly `ArgVector` |
| Sync.RSync.constructor | rsbackup/__init__.py:214-226 | every argument is stored unchanged; the binary is the given one unless it is empty, else what `which` found |
| Sync.RSync.Args | rsbackup/__init__.py:271-302 | the list the appends build is `ArgVector` of the object's settings, whose layout, order and presence are proved below |
| Sync.RSync.Command | rsbackup/__init__.py:304-306 | `command` is the binary followed by `_args()` with progress and dry run off |
| Sync.RSync.Run | rsbackup/__init__.py:228-269 | rsync gets the binary and `_args(progress=callback given, dry_run)`; the loop's emissions and exception are those of `Consume`; a finished loop returns rsync's exit status |
| Sync.RStrip | rsbackup/__init__.py:259 | `rstrip()` keeps a prefix that does not end in whitespace, and removes only whitespace |
| Sync.LineStep | rsbackup/__init__.py:263-267 | one line fails iff it starts with `\r`, a callback is given and the line does not decode, and the error is the decoder's; otherwise at most one emission: the line plus `\n` for a log, or the decoded report for a callback, and none when the matching handler is missing |
| Sync.Consume | rsbackup/__init__.py:257-267 | at most one emission per chunk; the loop ends cleanly only when some chunk is blank, and ends in an incomplete read only when none is |
| Sync.ConsumeFails | rsbackup/__init__.py:263-265 | a progress line that does not decode ends the loop at once with that error and no further emissions |
| Sync.ConsumeCons | rsbackup/__init__.py:257-267 | a non-blank first line contributes its emissions, and the loop goes on with the next chunk |
| Sync.ConsumeStep | rsbackup/__init__.py:257-267 | the loop invariant: the emissions so far, followed by what the rest of the stream yields, never change |
| Sync.ReadOutput | rsbackup/__init__.py:257-267 | the `while True` loop over the chunks yields exactly the emissions and the exception of `Consume` |
| Sync.ArgVector | rsbackup/__init__.py:271-302 | the length is options + 1 + 2·[link truthy] + excludes + 1; the options come first, the source right after them, the target last |
| Sync.ArgVectorLinkDest | rsbackup/__init__.py:292-294 | a truthy link destination puts `--link-dest` and then the path right after the source |
| Sync.ArgVectorExcludes | rsbackup/__init__.py:296-300 | the slice between the source (or link destination) and the target is exactly the exclude arguments in input order, and empty for no or empty excludes |
| Sync.ArgVectorPieces | rsbackup/__init__.py:271-302 | the vector is options, source, link arguments, exclude arguments and target, concatenated |
| Sync.Options | rsbackup/__init__.py:274-288 | the number of options is the number of switches that are on, with progress counting two, and every option is one of the six known ones |
| Sync.OptionsOrder | rsbackup/__init__.py:274-288 | the options always appear in the fixed order `--archive`, `--verbose`, `--delete`, `--dry-run`, `--no-i-r`, `--info=progress2` |
| Sync.OptionsPresence | rsbackup/__init__.py:274-288 | each option is present if and only if its switch is on (progress options iff a callback is given, `--dry-run` iff `dry_run`) |
| Sync.PresentOnlyWhenOn | rsbackup/__init__.py:274-288 | an option that is present has its switch on |
| Sync.PresentWhenOn | rsbackup/__init__.py:274-288 | an option whose switch is on is present |
| Sync.CommandOmitsRunSwitches | rsbackup/__init__.py:304-306 | `command` never holds `--dry-run`, `--no-i-r` or `--info=progress2` |
| Sync.StopsAtBlank | rsbackup/__init__.py:259-261 | nothing after the first blank line matters, and a stream with a blank line never ends in an incomplete read |
| Sync.EmitsShape | rsbackup/__init__.py:263-267 | a log write happens only when a log is given, ends in a newline after a non-space and never starts with `\r`; a report happens only when a callback is given |
| Sync.SilentWithoutHandlers | rsbackup/__init__.py:263-267 | with no log and no callback nothing is emitted, and no progress line is even decoded |
| Sync.LogLineWritten | rsbackup/__init__.py:266-267 | a line that does not start with `\r` is written once, stripped and with `\n` appended, when a log is given |
| Sync.ProgressLineReported | rsbackup/__init__.py:263-265 | a line that starts with `\r` produces exactly one report, of its decoded fields, when a callback is given |
| LegacyRsync.RSync.constructor | rsbackup/rsync.py:8-16 | every argument is stored unchanged in its field; the binary is the given one unless it is empty, else what `which` found |
| LegacyRsync.RSync.Args | rsbackup/rsync.py:23-40 | the list the appends build is `LegacyArgVector` of the object's settings |
| LegacyRsync.RSync.Command | rsbackup/rsync.py:42-44 | `command` is the binary followed by exactly `_args()` |
| LegacyRsync.RSync.Run | rsbackup/rsync.py:18-21 | the process gets `command`; the output is discarded exactly when no log is given |
| LegacyRsync.ShortOptionsAssembled | rsbackup/rsync.py:25-30 | the conditional appends of `-a`, `-v` and `--delete` yield exactly `ShortOptions` |
| LegacyRsync.LegacyArgsAssembled | rsbackup/rsync.py:31-38 | appending the source, the link destination, the excludes and the target yields exactly `LegacyArgVector` |
| LegacyRsync.LegacyArgVector | rsbackup/rsync.py:23-40 | the short options, then the source, then `--link-dest` and the path when the path is truthy, then one `--exclude=` per pattern in order, then the target last |
| LegacyRsync.ShortOptions | rsbackup/rsync.py:25-30 | `-a`, `-v` and `--delete` are each present iff their switch is on, there is no other option, `-a` comes first and `--delete` last |
| LegacyRsync.AgreesWithAsyncClass | rsbackup/rsync.py:23-40 | apart from the short flags, the argument vector is the newer class's vector without progress and dry run: same source, link destination, excludes and target in the same places |
| Progress.WordLength | rsbackup/__init__.py:173 | the first whitespace-delimited field of a string ends at the first whitespace character |
| Progress.Find | rsbackup/__init__.py:176 | the position of the first occurrence of a character, or the length when it does not occur |
| Progress.ParseInt | rsbackup/__init__.py:175 | `int` rejects the empty string and anything but digits, underscores and a leading sign; without a leading `-` the value is not negative |
| Progress.ParseDecimal | rsbackup/__init__.py:176 | `float` rejects the empty string and anything but digits, a point and a leading sign; without a leading `-` the value is not negative |
| Progress.FromFields | rsbackup/__init__.py:173-178 | fewer than four fields raise the unpacking error; an unconvertible byte count or percentage raises its conversion error, in that order; otherwise the result holds the converted count, the percentage over 100 and field 4 verbatim |
| Progress.FromProgressLine | rsbackup/__init__.py:171-178 | a line with fewer than four whitespace-separated fields fails; a decoded line has at least four and its ETA is the fourth |
| Progress.FieldsAreWords | rsbackup/__init__.py:173 | every field is non-empty and holds no whitespace |
| Progress.NoFieldsIffBlank | rsbackup/__init__.py:173 | a string has no fields exactly when it is all whitespace |
| Progress.BlankLineRejected | rsbackup/__init__.py:173 | a line of whitespace only fails to unpack |
| Progress.FieldsSkipBlank | rsbackup/__init__.py:173 | leading whitespace of any length does not change the fields |
| Progress.FieldsAppendRun | rsbackup/__init__.py:173 | a run of whitespace of any length separates fields like a single space |
| Progress.PaddedRoundTrip | rsbackup/__init__.py:171-178 | whatever whitespace runs surround the four fields, and whatever follows the ETA after whitespace, decoding gives back the byte count, the percentage over 100 and the ETA |
| Progress.ProgressRoundTrip | rsbackup/__init__.py:171-178 | decoding a progress line rendered as rsync does (grouped byte count, percentage, rate, ETA) gives back the byte count, the percentage divided by 100, and the ETA |
| Progress.DecodeRsyncFields | rsbackup/__init__.py:174-178 | the conversions recover the byte count from its comma-grouped form and the completion rate N/100 from `N%`, and take the ETA verbatim |
| Progress.FromFieldsOk | rsbackup/__init__.py:174-178 | with at least four fields, whose first converts with `int` after the commas are removed and whose second converts with `float` after `%` is removed, the result holds those values (the second divided by 100) and field 4 verbatim |
| Progress.ByteCountRoundTrip | rsbackup/__init__.py:175 | removing the commas from a comma-grouped count and parsing it with `int` gives back the count |
| Progress.PercentRoundTrip | rsbackup/__init__.py:176 | removing `%` from `N%` and parsing it with `float` gives back N |
| Progress.ParseDigits | rsbackup/__init__.py:176 | `float` of a decimal digit string is its value |
| Progress.RemoveCommasGrouped | rsbackup/__init__.py:175 | removing the commas from the grouped form gives the plain decimal digits |
| Progress.RemoveAppend | rsbackup/__init__.py:175-176 | `replace(c, '')` distributes over concatenation |
| Progress.ExtraFieldsIgnored | rsbackup/__init__.py:173 | fields beyond the fourth (`*_`) do not change the result |
| Progress.FromFieldsPrefix | rsbackup/__init__.py:173-178 | only the first four fields are read |
| Progress.FieldsAppend | rsbackup/__init__.py:173 | splitting at whitespace distributes over joining two strings with a whitespace character |
| Progress.FieldsOfWord | rsbackup/__init__.py:173 | a string without whitespace is a single field |
| Progress.FieldsSkipSpace | rsbackup/__init__.py:173 | leading whitespace is stripped before splitting |
| Progress.ProgressLineFields | rsbackup/__init__.py:173 | a rendered progress line splits into exactly its four fields (the leading `\r` is whitespace) |
| Progress.GroupedIsWord | rsbackup/__init__.py:173 | a comma-grouped count has no whitespace, so it is one field |
| Progress.ProgressExample | rsbackup/__init__.py:171-178 | `\r1,234 45% 10.00kB/s 0:01:23` decodes to 1234 bytes, rate 0.45, ETA `0:01:23` |
| Generations.Pad | rsbackup/__init__.py:94-95 | a zero-padded field has exactly the requested width and only digits |
| Generations.IsoSeconds | rsbackup/__init__.py:94-95 | `isoformat(timespec='seconds')` has 19 characters: digits everywhere except `-` at 4 and 7, the separator at 10 and `:` at 13 and 16 |
| Generations.ReplaceChar | rsbackup/__init__.py:95 | `replace(':', '-')` keeps the length and changes exactly the `:` characters |
| Generations.ValuePad | rsbackup/__init__.py:94-95 | a zero-padded field reads back as its number |
| Generations.PadOrder | rsbackup/__init__.py:94-95 | fields padded to the same width compare as strings the way their numbers compare |
| Generations.NameSpelled | rsbackup/__init__.py:94-95 | the name is year-month-day, then `_`, then hour-minute-second, each zero-padded and separated by `-` |
| Generations.GenerationName | rsbackup/__init__.py:94-95 | the name has 19 characters with `-` and `_` separators at fixed places, and holds no `:` and no `/` |
| Generations.GenerationNameFields | rsbackup/__init__.py:94-95 | each date and time field reads back from its place in the name |
| Generations.NameCollision | rsbackup/__init__.py:93-95 | two start times give the same name exactly when they fall in the same second |
| Generations.GenerationNamesSortChronologically | rsbackup/__init__.py:93-95 | one name sorts before another exactly when its start second is earlier |
| Generations.StrTimestampShape | rsbackup/__init__.py:152 | `str(start)` is the ISO date and time with a space, plus `.` and six digits of microseconds exactly when there are any |
| Generations.StrTimestamp | rsbackup/__init__.py:152 | `str(start)` has 19 characters without microseconds and 26 with them, and begins with the ISO form with a space |
| Paths.Join | rsbackup/config.py:34-35 | `join` returns an absolute second part unchanged; otherwise it returns the first part, then a slash unless the first part is empty or already ends in one, then the second part |
| Paths.LastSlash | rsbackup/config.py:34-35 | the last slash of a path that holds one |
| Paths.Split | rsbackup/config.py:34-35 | the pieces between slashes, at least one, none holding a slash |
| Paths.SplitJoin | rsbackup/config.py:34-35 | splitting at slashes undoes joining slash-free pieces with slashes |
| Paths.FoldRootedClean | rsbackup/config.py:34-35 | for an absolute path normpath keeps only clean components (no empty, `.` or `..`) |
| Paths.NormPathAbsoluteShape | rsbackup/config.py:34-35 | normpath of an absolute path is one or two slashes followed by clean components joined with slashes |
| Paths.NormPath | rsbackup/config.py:34-35 | normpath never returns the empty string, and keeps an absolute path absolute |
| Paths.AbsPath | rsbackup/config.py:34-35 | abspath never returns the empty string, and is absolute whenever the path or the working directory is |
| Paths.NormPathIdempotent | rsbackup/config.py:34-35 | normalising twice is normalising once, so `abspath(normpath(p))` for absolute `p` is `normpath(p)` |
| Paths.NormDropsDot | rsbackup/config.py:34-35 | normpath removes a `.` component from an absolute path of clean components |
| Paths.NormKeepsClean | rsbackup/config.py:34-35 | normpath leaves an absolute path of clean components unchanged |
| Paths.NormJoinDot | rsbackup/config.py:34-35 | joining `./c` onto an absolute clean base and normalising gives the base, a slash and `c` |
| Filesystem.ReadLink | rsbackup/__init__.py:106 | `readlink` succeeds exactly on a link and returns its target; otherwise it fails |
| Filesystem.FileSystem.constructor | rsbackup/__init__.py:93-153 | the filesystem starts with the given entries |
| Filesystem.FileSystem.PathExists | rsbackup/__init__.py:105 | `os.path.exists` follows links, so it is true only when a directory or file is reached |
| Filesystem.FileSystem.LinkExists | rsbackup/__init__.py:145 | `os.path.lexists` is true when anything, even a dangling link, is at the path |
| Filesystem.FileSystem.ReadLinkAt | rsbackup/__init__.py:106 | `readlink` on the current entries |
| Filesystem.FileSystem.MakeDirsAt | rsbackup/__init__.py:133 | `makedirs` raises and changes nothing when the path is taken; otherwise it adds the directory and its missing ancestors |
| Filesystem.FileSystem.OpenWriteAt | rsbackup/__init__.py:135 | `open(p, 'w')` raises on a directory; otherwise it leaves an empty regular file at the path |
| Filesystem.FileSystem.Write | rsbackup/__init__.py:267 | `write` appends the text to the open file |
| Filesystem.FileSystem.RemoveAt | rsbackup/__init__.py:146 | `remove` raises on a missing path or a directory; otherwise it removes exactly that entry |
| Filesystem.FileSystem.SymlinkAt | rsbackup/__init__.py:148 | `symlink` raises when anything is at the path; otherwise it creates the link there |
| Filesystem.MakeDirs | rsbackup/__init__.py:133 | `makedirs` fails with `FileExistsError` iff the path is taken; on success it keeps every entry and adds only directories: the path and its missing ancestors |
| Filesystem.OpenWrite | rsbackup/__init__.py:135 | `open(p, 'w')` fails with `IsADirectoryError` iff a directory is at the path; otherwise the path holds an empty file and nothing else changes |
| Filesystem.Append | rsbackup/__init__.py:267 | writing appends the text to the file at the path and changes no other entry |
| Filesystem.Symlink | rsbackup/__init__.py:148 | `symlink` succeeds iff nothing is at the path, else `FileExistsError`; the new link points where it was told to and nothing else changes |
| Filesystem.Remove | rsbackup/__init__.py:146 | `remove` succeeds iff a non-directory is at the path, and then takes exactly that entry away; a missing path or a directory gives its own error |
| Filesystem.DanglingLink | rsbackup/__init__.py:145-148 | a dangling link does not exist for `exists`, yet `symlink` over it fails |
| Filesystem.Exists | rsbackup/__init__.py:105 | only paths with an entry exist, and every directory or file exists |
| Filesystem.AncestorsShorter | rsbackup/__init__.py:133 | every directory `makedirs` adds above the path is a proper prefix of it, followed there by a slash |
| Filesystem.ResolveExtends | rsbackup/__init__.py:105 | adding entries, or replacing links by directories or files, never makes a path that existed stop existing |
| Engine.NewBackup | rsbackup/__init__.py:53-69 | the definition stores source, target and description as given, and the exclude list, or `[]` when there is none |
| Engine.Logger.constructor | rsbackup/__init__.py:26-44 | a new logger has received no calls |
| Engine.Logger.Info | rsbackup/__init__.py:42 | `info` appends one call to the logger's record |
| Engine.Logger.Notify | rsbackup/__init__.py:40 | `notify` appends one call to the logger's record |
| Engine.Logger.Warn | rsbackup/__init__.py:43 | `warn` appends one call to the logger's record |
| Engine.Logger.Success | rsbackup/__init__.py:152 | `success` appends one call to the logger's record |
| Engine.Logger.Progress | rsbackup/__init__.py:44 | `progress` appends one call with bytes, rate and ETA |
| Engine.ProgressCalls | rsbackup/__init__.py:110-112 | the callback turns reports into progress calls only, at most one per emission |
| Engine.Deliver | rsbackup/__init__.py:110-112 | the loop delivering the emissions makes the progress calls of the reports in order, and appends the written lines to the log file when there is one |
| Engine.FindPrevious | rsbackup/__init__.py:103-108 | the previous generation is `_latest`'s target unless `skip_latest` is set or `_latest` does not exist; it is announced when found |
| Engine.PreviousGeneration | rsbackup/__init__.py:103-108 | no previous generation when `skip_latest` is set or `_latest` does not exist; `readlink` fails iff `_latest` exists and is not a link; a found generation is `_latest`'s target |
| Engine.RsyncError | rsbackup/__init__.py:125-141 | no error iff the read loop ended cleanly and the exit status is 0; a read error comes first, else the non-zero status |
| Engine.DrySpec | rsbackup/__init__.py:117-131 | the dry branch leaves the filesystem as it was, runs rsync with the progress options and `--dry-run`, and completes iff rsync raised no error, raising that error otherwise |
| Engine.RelinkSpec | rsbackup/__init__.py:145-148 | a successful relink leaves `_latest` pointing at the generation; the intended relink with `skip_latest` changes nothing |
| Engine.ApplySpec | rsbackup/__init__.py:132-148 | an existing generation makes `makedirs` raise `FileExistsError` with nothing changed and no rsync; rsync runs only on a fresh generation, with the progress options and no `--dry-run` |
| Engine.BranchSpec | rsbackup/__init__.py:117-148 | dry mode leaves the filesystem as it was; rsync gets the progress options, and `--dry-run` exactly in dry mode |
| Engine.RunSpec | rsbackup/__init__.py:93-153 | a dry run changes no file, directory or link; rsync is started with the binary `which` found; a failing `readlink` raises before anything changes or runs |
| Engine.DryRun | rsbackup/__init__.py:117-131 | the dry branch does what `DrySpec` says: the announcements, the dry rsync run, and the `rm`/`ln` notices when rsync succeeded and `_latest` is not skipped; the filesystem is untouched |
| Engine.Relink | rsbackup/__init__.py:145-148 | replacing `_latest` fails exactly when `RelinkSpec` does, changing nothing then, and otherwise leaves `RelinkSpec`'s filesystem |
| Engine.LoggedRsync | rsbackup/__init__.py:135-148 | once the log file is open: the starting notice, rsync into the log, the exit status check, `rsync finished`, the relink |
| Engine.Apply | rsbackup/__init__.py:132-148 | the apply branch does what `ApplySpec` says: `makedirs`, `open`, then the logged rsync run |
| Engine.Branch | rsbackup/__init__.py:117-148 | the branch on `dry_mode` |
| Engine.Proceed | rsbackup/__init__.py:110-153 | the first progress report, the branch, and `success`/`info` only when the branch completed |
| Engine.Run | rsbackup/__init__.py:77-153 | a whole run leaves the filesystem, the logger calls, the rsync command and the outcome that `RunSpec` gives |
| Engine.AppendTwice | rsbackup/__init__.py:267 | two writes to the log file are one write of both texts |
| Engine.AppendNothing | rsbackup/__init__.py:267 | writing nothing leaves the filesystem unchanged |
| BackupProperties.BackupEquality | rsbackup/__init__.py:71-75 | two definitions are equal iff source, target, description and excludes agree; no exclude list equals an empty one |
| BackupProperties.PathsApart | rsbackup/__init__.py:94-97 | the generation, `_latest` and the log file are three different paths, and neither `_latest` nor the log file lies above the generation |
| BackupProperties.RelinkEffect | rsbackup/__init__.py:145-148 | a successful relink leaves `_latest` pointing at the new generation and changes no other path |
| BackupProperties.RelinkFailsAsWritten | rsbackup/__init__.py:145-148 | as written, relinking fails iff `_latest` is a directory or a dangling link |
| BackupProperties.RelinkFailsIntended | rsbackup/__init__.py:145-148 | when a dangling link is removed too, relinking fails only when `_latest` is a directory |
| BackupProperties.LoggedRsyncStages | rsbackup/__init__.py:135-148 | rsync gets the progress options without `--dry-run`; a read error or a non-zero exit raises with the log written and `_latest` untouched; otherwise the relink decides |
| BackupProperties.ApplyStages | rsbackup/__init__.py:132-148 | `_latest` is untouched until rsync has succeeded; a completed apply is the relink of the filesystem with the generation and log |
| BackupProperties.ApplyWritesLog | rsbackup/__init__.py:133-138 | rsync starts iff the generation directory and the log file could be made; the log then holds exactly the lines rsync wrote |
| BackupProperties.RunStages | rsbackup/__init__.py:93-117 | a run is its branch, started with the options for the new generation and the previous one |
| BackupProperties.FailedRunKeepsLatest | rsbackup/__init__.py:77-153 | a run that raises leaves `_latest` as it was |
| BackupProperties.LatestMovesOnlyOnSuccess | rsbackup/__init__.py:77-153 | `_latest` changes only in a completed apply run, and then points at the new generation |
| BackupProperties.CompletedRunLinksLatest | rsbackup/__init__.py:145-148 | a completed apply run leaves `_latest` pointing at the new generation |
| BackupProperties.GenerationHoldsLog | rsbackup/__init__.py:133-138 | once rsync runs, the generation is a directory whose `.log` holds exactly rsync's log lines |
| BackupProperties.RsyncInvocation | rsbackup/__init__.py:103-115 | rsync gets `--link-dest` with `_latest`'s target exactly when `skip_latest` is off and `_latest` exists |
| BackupProperties.CommandLayout | rsbackup/__init__.py:115 | in the command rsync gets, the source follows the options, the generation is last, and the link destination or excludes lie between them |
| BackupProperties.BackupArgVector | rsbackup/__init__.py:115 | the same layout for the arguments alone, with five or six options |
| BackupProperties.CommandSwitches | rsbackup/__init__.py:115-124 | the options rsync gets in a run: archive, verbose, delete, progress, and dry run exactly in dry mode |
| BackupProperties.BackupSwitches | rsbackup/__init__.py:115-124 | the same for the options alone, five in apply mode and six in dry mode |
| BackupProperties.LinkDestFollowsLatest | rsbackup/__init__.py:103-115 | in every run that starts rsync: the source, the generation last, `--link-dest` and `_latest`'s target when it exists and is not skipped, the excludes directly otherwise |
| BackupProperties.DryRunSwitch | rsbackup/__init__.py:117-143 | `--dry-run` is in the options rsync gets exactly in dry mode |
| BackupProperties.BranchOutcome | rsbackup/__init__.py:123-143 | a branch completes only after a clean rsync; an rsync failure becomes the outcome |
| BackupProperties.CompletedOnlyAfterCleanRsync | rsbackup/__init__.py:123-143 | a run completes only after exit status 0 and a clean read loop; the exception names the exit status or the read error |
| BackupProperties.RsyncErrorCases | rsbackup/__init__.py:125-141 | no error iff the loop ended cleanly and the exit status is 0; a read error takes precedence over the status |
| BackupProperties.NonZeroExitKeepsLatest | rsbackup/__init__.py:125-127 | a non-zero exit status always raises and leaves `_latest` as it was |
| BackupProperties.ExistingGenerationRaises | rsbackup/__init__.py:133 | when the generation directory exists already, `makedirs` raises before rsync starts, and nothing changes |
| BackupProperties.SameSecondRunsCollide | rsbackup/__init__.py:93-95 | a second apply run started in the same second as one that ran rsync fails with `FileExistsError` and changes nothing |
| BackupProperties.PreludeState | rsbackup/__init__.py:133-135 | after `makedirs`, `open` and writing, the filesystem holds the old entries, the generation, its ancestors and its log, with `_latest` untouched |
| BackupProperties.CleanApply | rsbackup/__init__.py:132-148 | with a fresh generation and a clean rsync, the apply branch completes exactly when the relink succeeds |
| BackupProperties.SkipLatestStillRelinks | rsbackup/__init__.py:145-148 | as written, a clean apply run with `skip_latest` still points `_latest` at the new generation |
| BackupProperties.SkipLatestHonoured | rsbackup/__init__.py:89-91 | with the intended relink, `skip_latest` leaves `_latest` as it was in every run |
| BackupProperties.DanglingLatestBreaksRun | rsbackup/__init__.py:145-148 | as written, a dangling `_latest` makes a clean run raise `FileExistsError` after the new generation was written, leaving the link dangling |
| BackupProperties.DanglingLatestReplaced | rsbackup/__init__.py:145-148 | with the intended relink, the same run completes with `_latest` pointing at the new generation |
| BackupProperties.NoticesAppend | rsbackup/__init__.py:101-143 | the notices of two call sequences are the notices of each |
| BackupProperties.NoNoticesInProgress | rsbackup/__init__.py:110-112 | progress callbacks make no notices |
| BackupProperties.DryNotices | rsbackup/__init__.py:117-131 | dry mode notifies `mkdir -p`, then the command, then `rm -f` and `ln -s` only when rsync succeeded and `_latest` is not skipped |
| BackupProperties.DryCalls | rsbackup/__init__.py:117-131 | the full sequence of logger calls in dry mode: the warning, the notices, the progress calls |
| BackupProperties.LoggedCalls | rsbackup/__init__.py:135-143 | the logger calls in apply mode: the starting notice, the progress calls, `rsync finished` only after a clean rsync |
| BackupProperties.LoggedNotices | rsbackup/__init__.py:135-143 | the notices in apply mode once the log is open |
| BackupProperties.ApplyNotStarted | rsbackup/__init__.py:132-135 | when `makedirs` or `open` raises, the logger hears nothing and rsync does not run |
| BackupProperties.ApplyStarted | rsbackup/__init__.py:132-135 | otherwise the apply branch is the logged rsync run on the new log file |
| BackupProperties.ApplyNotices | rsbackup/__init__.py:132-143 | apply mode notifies the log file and `rsync finished` exactly when rsync started and succeeded |
| BackupProperties.PreludeNotices | rsbackup/__init__.py:99-113 | before the branch a run notifies the generation and, when found, the previous generation |
| BackupProperties.ProceedNotices | rsbackup/__init__.py:150-153 | the closing `success` and `info` calls add no notices |
| BackupProperties.DryRunReport | rsbackup/__init__.py:99-131 | all the notices of a dry run, in order |
| BackupProperties.ApplyRunReport | rsbackup/__init__.py:99-148 | all the notices of an apply run, in order |
| Config.FirstIndex | rsbackup/config.py:13-17 | the position of the first entry whose name (a string or `None`) equals the key, with no earlier match, or the length when there is none |
| Config.Lookup | rsbackup/config.py:13-17 | `None` iff no entry has the name; otherwise the first entry that has it |
| Config.BackupConfig.constructor | rsbackup/config.py:10-11 | the configuration holds the given entries |
| Config.BackupConfig.Get | rsbackup/config.py:13-17 | the loop returns the first entry with the name, or `None` |
| Config.BackupConfig.Len | rsbackup/config.py:19-20 | the length is the number of entries |
| Config.BackupConfig.Items | rsbackup/config.py:22-23 | iteration yields the entries in order, unchanged |
| Config.ResolvePath | rsbackup/config.py:34-35 | an absolute path is normalised; a relative one is joined onto an absolute base directory first; the result is absolute |
| Config.FirstFailure | rsbackup/config.py:31-37 | the first record that does not load: one missing `name`, or whose `source` or `target` is missing or null |
| Config.LoadEntry | rsbackup/config.py:31-36 | a missing `name`, `source` or `target` raises `KeyError` for the first one missing; a null `source` or `target` raises `TypeError` in `isabs`; otherwise a null name stays `None`, the description defaults to `None`, the paths are resolved and the excludes default to `[]` |
| Config.Load | rsbackup/config.py:31-37 | a successful load has one entry per record |
| Config.LoadSucceeds | rsbackup/config.py:31-37 | the load succeeds iff every record has a `name` key (possibly null) and a string `source` and `target` |
| Config.LoadEntries | rsbackup/config.py:31-37 | entry i is the one built from record i, so the order is kept |
| Config.LoadFailsAtFirst | rsbackup/config.py:31-37 | a failed load raises the error of the first record that does not load |
| Config.LoadConfig | rsbackup/config.py:25-37 | `load` returns a new configuration of exactly the loaded entries, or the error |
| Config.LoadedPathsAbsolute | rsbackup/config.py:34-35 | with an absolute base directory every loaded source and target is absolute |
| Config.NormExampleSource | rsbackup/config_test.py:21 | `./backup` under `/spam/eggs` resolves to `/spam/eggs/backup` |
| Config.NormExampleTarget | rsbackup/config_test.py:21 | `./tmp` under `/spam/eggs` resolves to `/spam/eggs/tmp` |
| Config.LoadExample | rsbackup/config_test.py:19-22 | the two example records load to the two expected entries |
| Config.LookupExample | rsbackup/config_test.py:20-22 | the example configuration has two entries, found by their names |

## Left out

- Starting processes is not modelled: `asyncio.create_subprocess_exec`, `readuntil`, `wait` and `subprocess.run`. rsync's output is a given sequence of chunks, one per `readuntil()` call, and its exit status is a given number.
- Concurrency is not modelled. The progress calls and log writes of a read loop are delivered in order after the loop, not interleaved with the reads.
- `shutil.which('rsync')` is not modelled; what it finds is a parameter.
- The clock is not modelled. `datetime.now()` is a given `Timestamp`, and the duration `end - start` is a given string.
- Engine.Run: it always has a logger. The default `logger=None` of the source fails at the first `logger.info` with `AttributeError`.
- Engine.Logger: it records what `run` tells it as `Message` values, which `Text` renders as the source's f-strings. Printing them is not modelled.
- Engine.Run: its `policy` argument is not in the source. `AsWritten` follows the code and `Intended` follows the corrected relink (see Findings).
- Progress.FromProgressLine: `float()` here accepts plain decimals only (sign, digits, point). Exponents, `inf`, `nan` and underscores are not modelled.
- Progress.FromProgressLine: the rate is an exact real number, not a binary floating-point value.
- Progress.FromProgressLine: its field splitting (`Fields`) splits at whitespace the way `re.split(r'\s+', l.strip())` does whenever there are four fields or more. For a blank string, `re.split` yields `['']` and `Fields` yields `[]`; both have fewer than four fields and fail alike.
- Filesystem.FileSystem: paths are compared as strings. Two spellings of one location (`a//b`, `a/./b`) are two entries.
- Filesystem.FileSystem: permissions, disks and other errors of the operating system are not modelled.
- Filesystem.FileSystem.OpenWriteAt: `open(p, 'w')` on a link replaces the link rather than writing through it.
- Filesystem.Exists: it stops following links after 40 hops (Linux's limit), then reports that nothing exists.
- Config.LoadConfig: `yaml.safe_load` and `load_file` are not modelled, nor a document that is not a list of mappings. The records arrive already parsed.
- Config.LoadEntry: a `name`, `source` or `target` that YAML reads as a number, a list or a mapping is not modelled. A name is a string or null; a path is a string, null or missing.
- Config.ResolvePath: `abspath` consults the working directory, which is a parameter.
- `rsbackup/__main__.py`, the command-line front end, is not part of this model.
- `rsbackup/config_test.py` is not modelled as code. Its assertions are the examples `Config.LoadExample` and `Config.LookupExample`.

## Findings

| source | as written | input that shows it | evidently intended | confidence | as-written member | corrected member |
|---|---|---|---|---|---|---|
| rsbackup/__init__.py:145-148 | after a successful rsync, apply mode removes and recreates `_latest` whether or not `skip_latest` is set | any apply run with `skip_latest=True`, exit status 0, and `_latest` pointing elsewhere | the docstring (lines 89-91) says the link is not updated when `skip_latest` is set | not executed | BackupProperties.SkipLatestStillRelinks | BackupProperties.SkipLatestHonoured |
| rsbackup/__init__.py:145-148 | `os.path.exists` follows the link, so a dangling `_latest` is not removed, and `os.symlink` then raises `FileExistsError` after rsync has filled the new generation | `_latest` pointing at a generation that was deleted, with skip_latest off and exit status 0 | remove whatever link is at `_latest` (`os.path.lexists`) and point it at the new generation | not executed | BackupProperties.DanglingLatestBreaksRun | BackupProperties.DanglingLatestReplaced |
