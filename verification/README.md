# Desktop cleaner, modelled in Dafny

`desktop_cleaner.py` tidies a desktop folder. It sorts every visible file
lying directly on the desktop into a category folder chosen by the file's
extension (`Images`, `Documents`, `Code`, `Archives`, `Media`, else `Other`).
A dry run only reports what would move. A real run moves the files, then
writes a log `~/.desktop-cleaner/logs/clean_<YYYYmmdd-HHMMSS>.log` holding a
`DESKTOP=` header and one `src|dest` line per move. `--undo` takes the newest
log by name and moves every recorded destination that still exists back to
its source. It skips those that are gone.

The model has these modules:

- `Text`: the Python string operations the program relies on. These are
  `str.strip`, the split at the first `|`, universal-newline line splitting
  and the ordering `sorted` uses on names.
- `Paths`: absolute paths as sequences of names. `str(path)` is modelled, and
  so is `Path(s)` resolved against a working directory.
- `Categories`: the category table, `Path.suffix`, `str.lower` and
  `classify_file`.
- `Planner`: `iter_desktop_files` and `plan_moves`. The directory listing is
  an input.
- `MoveLog`: the log text `write_log` produces and how `parse_log` reads it
  back. Also log names, built from a time stamp, and the choice of the newest
  log.
- `FileSystem`: the machine's file tree as a map from path to file or
  directory. On it are `Path.mkdir(exist_ok=True)`,
  `Path.mkdir(parents=True, exist_ok=True)` and `shutil.move`, each raising
  an error exactly where the real call raises.
- `Execution`: the move loop of `clean_desktop` and the restore loop of
  `undo_last_run` as functions over that tree.
- `Cleaner`: the two entry points over a `Machine` whose file tree and log
  directory the methods update. Beside it are the whole-run theorems: a clean
  tidies the desktop, and an undo right after it restores every file.

The model follows `desktop_cleaner.py` as written:

- The log is written once, after all moves succeed. A run that raises half-way
  writes none.
- Undo replays the records in file order, not in reverse.
- The log is never deleted or rewritten, so a second undo replays it again and
  skips every record whose destination is gone.
- A file already present at a destination is overwritten, as `os.rename` does
  on POSIX. A file called `Other` makes `mkdir` raise and ends the run.

## Model

| member | source | states |
|---|---|---|
| Categories.Suffix | desktop_cleaner.py:147 | `Path.suffix` is empty, or it is a dot followed by at least one character and no other dot; it ends the name and is never the whole name |
| Categories.LowerSpec | desktop_cleaner.py:147 | after `.lower()` no upper-case ASCII letter and no Kelvin sign is left, every other character is kept, and lowering twice is lowering once |
| Categories.Classify | desktop_cleaner.py:145-151 | `classify_file`: the first category, in table order, whose list holds the lower-cased suffix, else `Other` |
| Categories.TableWellFormed | desktop_cleaner.py:27-58 | every listed extension is a lower-case dotted suffix, and no category is called `Other` |
| Categories.TableDisjoint | desktop_cleaner.py:27-58 | no extension is listed under two categories, so the order of the dictionary never decides a classification |
| Categories.ClassifyOwned | desktop_cleaner.py:145-150 | a name whose lowered suffix is listed under a category is classified into that category |
| Categories.ClassifyFallback | desktop_cleaner.py:145-151 | the result is `Other` exactly when the lowered suffix is listed nowhere; a name without a suffix is always `Other` |
| Categories.ClassifyNoSuffix | desktop_cleaner.py:151 | a name without a dot, and a hidden name with a single leading dot, are `Other` |
| Categories.ClassifyIgnoresCase | desktop_cleaner.py:147 | two names that agree up to case are classified alike |
| Categories.SuffixIgnoresCase | desktop_cleaner.py:147 | names that agree up to case have suffixes that lower to the same string |
| Categories.ClassifyIsFolder | desktop_cleaner.py:145-151 | every classification is one of the six folder names |
| Planner.DesktopFiles | desktop_cleaner.py:154-163 | `iter_desktop_files`: the listing filtered to entries that are neither directories nor hidden, as paths under the desktop, in listing order; never more files than entries |
| Planner.DesktopFilesMembers | desktop_cleaner.py:154-163 | the files yielded are exactly the listed entries that are neither directories nor hidden, as paths under the desktop |
| Planner.DesktopFilesAppend | desktop_cleaner.py:156-163 | the generator keeps listing order |
| Planner.DesktopFilesDistinct | desktop_cleaner.py:156-163 | a listing that names each entry once yields each file once |
| Planner.Plan | desktop_cleaner.py:166-176 | `plan_moves`: one move per yielded file, to `desktop / classify_file(src)`; as many moves as files |
| Planner.PlanSpec | desktop_cleaner.py:166-176 | each planned move takes an organisable desktop entry to `desktop / category`; every organisable entry is planned; directories and hidden entries never are |
| Planner.PlanSourcesDistinct | desktop_cleaner.py:166-176 | no file is planned twice |
| Planner.PlanAppend | desktop_cleaner.py:172-175 | one more listed entry adds at most its own move, at the end of the plan |
| Planner.PlanSingle | desktop_cleaner.py:166-176 | a listing of one entry plans its move when the entry is organisable, and nothing otherwise |
| Planner.PlannedEntry | desktop_cleaner.py:166-176 | every planned move comes from an organisable entry of the listing and goes to that entry's category folder |
| Planner.PlanMoves | desktop_cleaner.py:166-176 | the loop returns the plan: one move per organisable entry, in listing order |
| Text.StripSpec | desktop_cleaner.py:212 | `strip()` leaves a string alone exactly when it neither starts nor ends with white space, and empties exactly the all-white strings |
| Text.SplitCons | desktop_cleaner.py:211 | splitting at a break character separates the text before it from the split of the rest |
| Text.LexLessTotal | desktop_cleaner.py:223 | any two distinct names are ordered one way or the other, so `sorted(...)[-1]` is well defined |
| Text.LexLessTransitive | desktop_cleaner.py:223 | the order `sorted` uses on names is transitive |
| Paths.PathStrRoundTrip | desktop_cleaner.py:216 | `Path(str(p))` is `p` for every absolute path of plain names, from any working directory |
| MoveLog.LogText | desktop_cleaner.py:189-204 | the text `write_log` writes: the `DESKTOP=` header line, then one line per move joining source and destination with a vertical bar |
| MoveLog.ParseLine | desktop_cleaner.py:211-216 | one line of `parse_log`: stripped, skipped when blank or a header, otherwise cut at its first bar, an error when there is none |
| MoveLog.ParseLines | desktop_cleaner.py:207-217 | `parse_log` over the lines of the file: the records in order, or the first line that cannot be split |
| MoveLog.ParseLineSpec | desktop_cleaner.py:212-216 | blank and `DESKTOP=` lines are skipped; other lines split at their first vertical bar only; a line without one is the unpacking error |
| MoveLog.HeaderSkipped | desktop_cleaner.py:199-213 | the header line `write_log` writes is skipped by `parse_log` |
| MoveLog.ParseLog | desktop_cleaner.py:207-217 | the loop returns the records of the file in order, or stops at the first line it cannot split |
| MoveLog.RecordLineParses | desktop_cleaner.py:202-216 | a written record line reads back as the pair of path strings it was made from |
| MoveLog.BodyRoundTrip | desktop_cleaner.py:200-216 | the record lines of a log read back as its records, in order |
| MoveLog.LogRoundTrip | desktop_cleaner.py:189-217 | `parse_log` of what `write_log` wrote gives back every move's `(src, dest)` strings, in order, when no name holds a vertical bar, a line break or trailing white space |
| MoveLog.LogRoundTripPaths | desktop_cleaner.py:199-216 | the records read back resolve to the original source path and destination path of each move |
| MoveLog.LogNameMatches | desktop_cleaner.py:196-223 | every log name `write_log` makes matches `clean_*.log` |
| MoveLog.DigitsOrder | desktop_cleaner.py:195 | zero-padded fields of one width order as text exactly as they order as numbers |
| MoveLog.LogName | desktop_cleaner.py:195-196 | the log file name `clean_<YYYYmmdd-HHMMSS>.log` for a time stamp |
| MoveLog.LogNameOrder | desktop_cleaner.py:195-196 | for years 1000-9999, log names sort as text exactly as their time stamps sort in time |
| MoveLog.NewestExists | desktop_cleaner.py:223-228 | when some file matches `clean_*.log` there is a greatest one |
| MoveLog.NewestUnique | desktop_cleaner.py:228 | the greatest log name is unique |
| MoveLog.Newest | desktop_cleaner.py:223-228 | the chosen log is none exactly when no file matches the pattern; otherwise it matches and sorts after every other matching name |
| MoveLog.NewestAfterWrite | desktop_cleaner.py:196-228 | a log named after every existing log becomes the one undo picks |
| MoveLog.NewestAdd | desktop_cleaner.py:223-228 | adding one name changes the choice exactly when that name matches and sorts after the previous choice |
| FileSystem.Mkdir | desktop_cleaner.py:278 | `mkdir(exist_ok=True)` succeeds exactly on an existing directory or on a missing path with an existing parent; afterwards the path is a directory and nothing else changed |
| FileSystem.MkdirIdempotent | desktop_cleaner.py:278 | creating the same folder twice is the same as creating it once |
| FileSystem.MkdirKeepsWellFormed | desktop_cleaner.py:278 | `mkdir` keeps every entry inside an existing directory |
| FileSystem.MakeDirs | desktop_cleaner.py:241 | `mkdir(parents=True, exist_ok=True)` makes the path a directory, keeps every entry and adds only directories on the way to it |
| FileSystem.MakeDirsSucceeds | desktop_cleaner.py:241 | it succeeds exactly when no file sits on the path or above it |
| FileSystem.MakeDirsKeepsWellFormed | desktop_cleaner.py:241 | it keeps every entry inside an existing directory |
| FileSystem.RenameKeys | desktop_cleaner.py:280 | a rename keeps what is outside the moved subtree and re-roots what is inside it |
| FileSystem.RenameTo | desktop_cleaner.py:242 | the `os.rename` at the heart of `shutil.move`: fails on a missing source, a move into itself or a missing parent; otherwise re-roots the subtree |
| FileSystem.ShutilMove | desktop_cleaner.py:280 | `shutil.move`: into an existing directory under the source's own name, else to the destination path; a file replaces a file there |
| FileSystem.MoveLeaf | desktop_cleaner.py:280 | moving a file to a free path takes it off its source and puts it, unchanged, at the destination, and changes nothing else |
| FileSystem.MoveKeepsWellFormed | desktop_cleaner.py:280 | every successful `shutil.move` keeps every entry inside an existing directory |
| Execution.Step | desktop_cleaner.py:277-280 | one iteration of the move loop: `mkdir(exist_ok=True)` of the target folder, then `shutil.move` to `target_dir / src.name`, stopping at the first error |
| Execution.Execute | desktop_cleaner.py:277-282 | the move loop over the plan, in plan order, stopping at the first error |
| Execution.StepReplaces | desktop_cleaner.py:278-280 | moving a file onto a same-named file in an existing folder replaces that file |
| Execution.ExecuteKeepsWellFormed | desktop_cleaner.py:277-281 | the move loop keeps every entry inside an existing directory, whether it finishes or raises |
| Execution.ExecuteStopped | desktop_cleaner.py:277-281 | once an iteration raises, the remaining moves change nothing |
| Execution.ExecuteClear | desktop_cleaner.py:277-281 | when every planned file exists, its folder is free or a folder, and its destination is free, the loop finishes; each file then sits, unchanged, at its destination, every category folder exists, and no other path changed |
| Execution.Restore | desktop_cleaner.py:239-247 | one iteration of the undo loop: a missing destination is skipped; otherwise the source's parent is created and the destination moved back, counting as undone |
| Execution.Replay | desktop_cleaner.py:237-247 | the undo loop over the records, in file order, with its two counters, stopping at the first error |
| Execution.ReplayCounts | desktop_cleaner.py:237-247 | a finished undo counts every record once, as undone or as skipped; an undo that raises counted fewer |
| Execution.ReplayKeepsWellFormed | desktop_cleaner.py:239-247 | the undo loop keeps every entry inside an existing directory |
| Execution.ReplayStopped | desktop_cleaner.py:239-247 | once an iteration raises, the remaining records change nothing |
| Execution.UndoAfterExecute | desktop_cleaner.py:237-247 | replaying the records of a finished run right after it restores every file: all records undone, none skipped, every original path holds what it held, and only the created category folders remain extra |
| Cleaner.CleanDryRun | desktop_cleaner.py:264-274 | a dry run, or a desktop with nothing to organise, changes nothing and returns the count a real run would move |
| Cleaner.Clean | desktop_cleaner.py:256-288 | `clean_desktop`: an unlistable desktop raises; an empty plan or a dry run returns the count; a real run moves, then writes the log, then returns the count |
| Cleaner.CleanLogs | desktop_cleaner.py:264-288 | the log directory changes only through a real run that moved every planned file, which writes one log under the run's name; a run that raises writes none; and a real run that returns a positive count has written exactly that log |
| Cleaner.CleanTidies | desktop_cleaner.py:256-288 | on a desktop where every file has room in its category folder, a real clean returns the number of files and moves each into its folder unchanged; only folders and hidden entries stay directly on the desktop, and nothing else changes |
| Cleaner.CleanThenUndo | desktop_cleaner.py:220-288 | undo right after such a clean picks its log, undoes every record and skips none, and leaves every path of the machine as before but for the category folders the clean created |
| Cleaner.Undo | desktop_cleaner.py:220-249 | `undo_last_run`: the newest `clean_*.log` by name, its records, and the undo loop over them |
| Cleaner.UndoOwnLog | desktop_cleaner.py:220-247 | after a run writes the newest log, undo replays exactly that log's records |
| Cleaner.UndoOutcomes | desktop_cleaner.py:220-249 | no log, an empty log or an unreadable line leaves the machine unchanged; "no logs" is reported exactly when nothing matches `clean_*.log`; a finished undo counts every record of the newest log once |
| Cleaner.CleanReplacesSameName | desktop_cleaner.py:278-280 | a desktop file whose name is already taken by a file in its category folder overwrites that file |
| Cleaner.CleanOne | desktop_cleaner.py:256-288 | a real clean of a desktop listing one organisable file runs that file's one iteration and writes the log exactly when it succeeds |
| Cleaner.CleanBlockedByOwnFolder | desktop_cleaner.py:278 | a desktop file called `Other` stands where its own category folder must go, so the run raises at `mkdir` and changes nothing |
| Cleaner.Machine.WriteLog | desktop_cleaner.py:189-204 | nothing is written for an empty plan; otherwise the log under the run's stamped name holds the header and the move lines, replacing any file of that name, and the returned name is that log's |
| Cleaner.Machine.CleanDesktop | desktop_cleaner.py:256-288 | the new file tree, log directory and result are exactly those of a clean of the old machine; a well-formed file tree stays well formed |
| Cleaner.Machine.MoveAll | desktop_cleaner.py:277-282 | the loop leaves the file tree and the first exception exactly as the move loop defines them, and writes no log |
| Cleaner.Machine.LatestLog | desktop_cleaner.py:223-228 | the one-pass scan returns the greatest name matching `clean_*.log`, or none |
| Cleaner.Machine.UndoLastRun | desktop_cleaner.py:220-249 | the new file tree and the outcome are exactly those of an undo on the old machine; the logs are left as they were; a well-formed file tree stays well formed |
| Cleaner.Machine.RestoreAll | desktop_cleaner.py:237-247 | the loop's counts, file tree and first exception are exactly those the undo loop defines |

## Left out

- The command line (`parse_args`, `main`, from line 295) and every `print` are not modelled. Only the values returned and the state changed are.
- Finding the desktop is not modelled: `find_desktop`, the WSL check and the candidate folders under `/mnt/c/Users` (lines 65-138). The desktop path is a parameter.
- The clock is a parameter (`Stamp`). The order in which the operating system lists a directory is a parameter too (`listing`). The listing is tied to the file tree by `Cleaner.IsListing`.
- `get_log_dir` (lines 183-186) is modelled only as the log directory being there. The log directory is a separate map from file name to text, not part of the file tree, so a clean never moves a log. No directory in it matches `clean_*.log`.
- File contents are opaque values. Encodings, permissions, symbolic links, hard links and other file kinds are not modelled. `..` in a path read from a log is resolved by name, not through links.
- `shutil.move` across devices (copy then delete) is treated as a rename. `os.path.samefile` is treated as equality of paths.
- `Categories.Lower`: models `str.lower` on ASCII letters and the Kelvin sign only. These are the only characters whose lower case is made of ASCII characters alone, and the extension table holds nothing else, so classification is unaffected.
- `MoveLog.LogNameOrder`: holds for years 1000-9999 only. Outside them `strftime` does not give four digits.
- `MoveLog.LogRoundTrip`: stated only for logs whose names hold no `|`, no line break and no trailing white space. Names with these do not read back, because `parse_log` strips lines and splits at the first `|`.
- `Cleaner.CleanTidies`: stated only for desktops where every file has room in its category folder. Where a file is in the way, a run raises or overwrites; `Cleaner.CleanBlockedByOwnFolder` and `Cleaner.CleanReplacesSameName` show one case of each.
- `Cleaner.CleanThenUndo`: assumes the new log sorts after every existing log. Two runs within one second write the same name, and the second replaces the first.
- `FileSystem`: paths compare exactly, name by name, so case-insensitive or normalising file systems (NTFS under WSL, macOS by default) are not modelled; there a desktop file `images` blocks the folder `Images`. `Execution.Restore` creates the parent of the resolved source path, while `src.parent.mkdir(parents=True)` works on the lexical parent, so a hand-edited record such as `/a/b/../c` would also create `/a/b` in the script but not in the model.
- Concurrent changes to the desktop while a run is in progress are not modelled.
