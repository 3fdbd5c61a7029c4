/** The two entry points, `clean_desktop` and `undo_last_run`, over one machine:
    its file system and the log directory `~/.desktop-cleaner/logs`. The
    listing of the desktop and the clock are inputs: the order in which the
    operating system lists a directory is not the program's to choose, and
    neither is the time. */
module Cleaner {
  import opened Text
  import opened Paths
  import opened Categories
  import opened Planner
  import opened MoveLog
  import opened FileSystem
  import opened Execution

  /** The log directory: file name to text. */
  type LogDir = map<string, string>

  /** What `clean_desktop` returns, or the exception that ends it. */
  datatype CleanResult = Cleaned(count: nat) | CleanFailed(error: Error)

  /** The machine after `clean_desktop`, and what it returned. */
  datatype Cleaning = Cleaning(fs: FileMap, logs: LogDir, result: CleanResult)

  /** How `undo_last_run` ends: nothing to read, an empty log, a line without a
      `|` (the `ValueError` of unpacking `split("|", 1)`), the summary it
      prints, or an exception raised half-way. */
  datatype UndoResult =
    | NoLogs
    | NoMoves(log: string)
    | Unreadable(log: string, line: string)
    | Undone(log: string, undone: nat, skipped: nat)
    | UndoFailed(log: string, error: Error)

  /** The file system after `undo_last_run`, and how it ended. */
  datatype Undoing = Undoing(fs: FileMap, result: UndoResult)

  /** `listing` is what `desktop.iterdir()` yields on `fs`: every entry directly
      in `desktop` once, with `is_dir()` telling whether it is a directory. */
  predicate IsListing(fs: FileMap, desktop: Path, listing: seq<Entry>) {
    && (forall j, k :: 0 <= j < k < |listing| ==> listing[j].name != listing[k].name)
    && (forall k :: 0 <= k < |listing| ==> Listed(fs, desktop, listing[k]))
    && (forall p :: p in fs && p != [] && Parent(p) == desktop ==> exists e :: e in listing && e.name == Name(p))
  }

  predicate Listed(fs: FileMap, desktop: Path, e: Entry) {
    ValidName(e.name) && desktop + [e.name] in fs && (fs[desktop + [e.name]].Dir? <==> e.isDir)
  }

  /** `write_log`: nothing for an empty plan; otherwise the file
      `clean_<stamp>.log`, replaced if it exists. */
  function WrittenLogs(logs: LogDir, desktop: Path, moves: seq<Move>, now: Stamp): LogDir {
    if moves == [] then logs else logs[LogName(now) := LogText(desktop, moves)]
  }

  /** `clean_desktop(desktop, dry_run)`, when `desktop.iterdir()` yields
      `listing` and the clock reads `now`. */
  function Clean(fs: FileMap, logs: LogDir, desktop: Path, listing: seq<Entry>, dryRun: bool, now: Stamp): Cleaning {
    if !IsDir(fs, desktop) then Cleaning(fs, logs, CleanFailed(Unlistable(desktop)))
    else
      var plan := Plan(desktop, listing);
      if plan == [] || dryRun then Cleaning(fs, logs, Cleaned(|plan|))
      else
        var run := Execute(fs, plan);
        if run.failure.Some? then Cleaning(run.fs, logs, CleanFailed(run.failure.value))
        else Cleaning(run.fs, WrittenLogs(logs, desktop, plan, now), Cleaned(|plan|))
  }

  /** `undo_last_run()`, run in working directory `cwd`: the newest log by name,
      its records, and the undo loop over them. The logs are never changed. */
  ghost function Undo(fs: FileMap, logs: LogDir, cwd: Path): Undoing {
    match Newest(logs.Keys)
    case None => Undoing(fs, NoLogs)
    case Some(name) =>
      match ParseLines(Lines(logs[name]))
      case Malformed(line) => Undoing(fs, Unreadable(name, line))
      case Parsed(rs) =>
        if rs == [] then Undoing(fs, NoMoves(name))
        else
          var t := Replay(fs, cwd, rs);
          if t.failure.Some? then Undoing(t.fs, UndoFailed(name, t.failure.value))
          else Undoing(t.fs, Undone(name, t.undone, t.skipped))
  }

  // ---------------------------------------------------------------------------
  // What a run of the cleaner does
  // ---------------------------------------------------------------------------

  /** A dry run, or a desktop with nothing to organise, changes nothing and
      reports the number of files a real run would move. */
  lemma CleanDryRun(fs: FileMap, logs: LogDir, desktop: Path, listing: seq<Entry>, now: Stamp)
    requires IsDir(fs, desktop)
    ensures Clean(fs, logs, desktop, listing, true, now) ==
              Cleaning(fs, logs, Cleaned(|DesktopFiles(desktop, listing)|))
    ensures DesktopFiles(desktop, listing) == [] ==>
              Clean(fs, logs, desktop, listing, false, now) == Cleaning(fs, logs, Cleaned(0))
    ensures Clean(fs, logs, desktop, listing, false, now).result.Cleaned? ==>
              Clean(fs, logs, desktop, listing, false, now).result == Clean(fs, logs, desktop, listing, true, now).result
  {
    var plan := Plan(desktop, listing);
    assert Clean(fs, logs, desktop, listing, true, now) == Cleaning(fs, logs, Cleaned(|plan|));
    if plan != [] {
      var run := Execute(fs, plan);
      assert Clean(fs, logs, desktop, listing, false, now).result ==
             if run.failure.Some? then CleanFailed(run.failure.value) else Cleaned(|plan|);
    }
  }

  /** A log is written only by a real run that moved every file: one that
      raises, or that had nothing to do, leaves the log directory as it was. */
  lemma CleanLogs(fs: FileMap, logs: LogDir, desktop: Path, listing: seq<Entry>, dryRun: bool, now: Stamp)
    ensures var c := Clean(fs, logs, desktop, listing, dryRun, now);
            c.logs == logs || (c.logs == logs[LogName(now) := LogText(desktop, Plan(desktop, listing))]
                               && c.result == Cleaned(|Plan(desktop, listing)|) && !dryRun && |Plan(desktop, listing)| > 0)
    ensures var c := Clean(fs, logs, desktop, listing, dryRun, now);
            c.result.CleanFailed? ==> c.logs == logs
    ensures var c := Clean(fs, logs, desktop, listing, dryRun, now);
            !dryRun && c.result.Cleaned? && c.result.count > 0 ==>
              c.logs == logs[LogName(now) := LogText(desktop, Plan(desktop, listing))]
  {
    if IsDir(fs, desktop) {
      var plan := Plan(desktop, listing);
      if plan != [] && !dryRun {
        var run := Execute(fs, plan);
        if run.failure.None? {
          assert Clean(fs, logs, desktop, listing, dryRun, now) ==
                 Cleaning(run.fs, logs[LogName(now) := LogText(desktop, plan)], Cleaned(|plan|));
        }
      }
    }
  }

  /** An entry with room to move: its category folder is a folder or is
      missing, and nothing in that folder has the entry's name. */
  predicate HasRoom(fs: FileMap, desktop: Path, e: Entry) {
    var target := desktop + [Classify(e.name)];
    && (target in fs ==> fs[target].Dir?)
    && target + [e.name] !in fs
  }

  /** A name the log can carry and read back: no `|`, no line break, and no
      trailing white space, which `strip()` would cut off. */
  predicate LogSafe(name: string) {
    '|' !in name && '\n' !in name && '\r' !in name && EndsSolid(name)
  }

  predicate LogSafePath(p: Path) {
    forall i :: 0 <= i < |p| ==> '|' !in p[i] && '\n' !in p[i] && '\r' !in p[i]
  }

  /** The conditions under which a real clean of `desktop` moves every file it
      plans: the listing is the desktop's, and every organisable entry has
      room in its category folder. */
  predicate Roomy(fs: FileMap, desktop: Path, listing: seq<Entry>) {
    && WellFormed(fs) && IsDir(fs, desktop) && ValidPath(desktop)
    && IsListing(fs, desktop, listing)
    && forall k :: 0 <= k < |listing| && Organizable(listing[k]) ==> HasRoom(fs, desktop, listing[k])
  }

  /** The move planned for one organisable entry with room is clear. */
  lemma EntryMoveClear(fs: FileMap, desktop: Path, e: Entry)
    requires ValidPath(desktop) && Listed(fs, desktop, e) && HasRoom(fs, desktop, e) && !e.isDir
    ensures ClearMove(fs, desktop, Move(desktop + [e.name], desktop + [Classify(e.name)]))
    ensures ValidPath(desktop + [e.name]) && ValidPath(desktop + [Classify(e.name)] + [e.name])
  {
    CategoryNames(e.name);
    FolderMoveClear(fs, desktop, e.name, Classify(e.name));
  }

  lemma FolderMoveClear(fs: FileMap, desktop: Path, name: string, folder: string)
    requires ValidPath(desktop) && ValidName(name) && PlainName(folder)
    requires desktop + [name] in fs && fs[desktop + [name]].File?
    requires desktop + [folder] in fs ==> fs[desktop + [folder]].Dir?
    requires desktop + [folder] + [name] !in fs
    ensures ClearMove(fs, desktop, Move(desktop + [name], desktop + [folder]))
    ensures ValidPath(desktop + [name]) && ValidPath(desktop + [folder] + [name])
  {
    var m := Move(desktop + [name], desktop + [folder]);
    assert Name(m.src) == name && Name(m.targetDir) == folder;
    assert Dest(m) == desktop + [folder] + [name];
  }

  /** The move planned for one organisable entry with a safe name can be
      logged. */
  lemma EntryMoveLoggable(desktop: Path, e: Entry)
    requires LogSafePath(desktop) && LogSafe(e.name)
    ensures LoggableMove(Move(desktop + [e.name], desktop + [Classify(e.name)]))
  {
    CategoryNames(e.name);
    FolderMoveLoggable(desktop, e.name, Classify(e.name));
  }

  lemma FolderMoveLoggable(desktop: Path, name: string, folder: string)
    requires LogSafePath(desktop) && LogSafe(name) && PlainName(folder)
    ensures LoggableMove(Move(desktop + [name], desktop + [folder]))
  {
    assert Name(desktop + [name]) == name;
  }

  /** A plan made from a roomy listing is clear, and its paths are valid. */
  lemma PlanClear(fs: FileMap, desktop: Path, listing: seq<Entry>)
    requires Roomy(fs, desktop, listing)
    ensures Clear(fs, desktop, Plan(desktop, listing))
    ensures forall k :: 0 <= k < |Plan(desktop, listing)| ==>
              ValidPath(Plan(desktop, listing)[k].src) && ValidPath(Dest(Plan(desktop, listing)[k]))
  {
    PlanMovesClear(fs, desktop, listing);
    PlanSourcesDistinct(desktop, listing);
  }

  lemma PlanMovesClear(fs: FileMap, desktop: Path, listing: seq<Entry>)
    requires Roomy(fs, desktop, listing)
    ensures forall k :: 0 <= k < |Plan(desktop, listing)| ==>
              && ClearMove(fs, desktop, Plan(desktop, listing)[k])
              && ValidPath(Plan(desktop, listing)[k].src) && ValidPath(Dest(Plan(desktop, listing)[k]))
  {
    var ms := Plan(desktop, listing);
    forall k | 0 <= k < |ms|
      ensures ClearMove(fs, desktop, ms[k]) && ValidPath(ms[k].src) && ValidPath(Dest(ms[k]))
    {
      var j := PlannedEntry(desktop, listing, k);
      EntryMoveClear(fs, desktop, listing[j]);
    }
  }

  /** A plan whose names are safe for the log reads back from it. */
  lemma PlanLoggable(desktop: Path, listing: seq<Entry>)
    requires LogSafePath(desktop)
    requires forall k :: 0 <= k < |listing| && Organizable(listing[k]) ==> LogSafe(listing[k].name)
    ensures Loggable(desktop, Plan(desktop, listing))
  {
    var ms := Plan(desktop, listing);
    forall k | 0 <= k < |ms| ensures LoggableMove(ms[k]) {
      var j := PlannedEntry(desktop, listing, k);
      EntryMoveLoggable(desktop, listing[j]);
    }
  }

  /** A real run whose moves all succeed ends with the log written. */
  lemma CleanSucceeds(fs: FileMap, logs: LogDir, desktop: Path, listing: seq<Entry>, now: Stamp)
    requires IsDir(fs, desktop) && Execute(fs, Plan(desktop, listing)).failure.None?
    ensures Clean(fs, logs, desktop, listing, false, now) ==
              Cleaning(Execute(fs, Plan(desktop, listing)).fs,
                       WrittenLogs(logs, desktop, Plan(desktop, listing), now),
                       Cleaned(|Plan(desktop, listing)|))
  {
  }

  /** After a real clean of a roomy desktop, no organisable file is left
      directly on it: what remains there are folders and hidden entries; every
      planned file sits, unchanged, in its category folder; and nothing else on
      the machine has changed. */
  lemma CleanTidies(fs: FileMap, logs: LogDir, desktop: Path, listing: seq<Entry>, now: Stamp)
    requires Roomy(fs, desktop, listing)
    ensures Clean(fs, logs, desktop, listing, false, now).result == Cleaned(|Plan(desktop, listing)|)
    ensures AllMoved(fs, Plan(desktop, listing), Clean(fs, logs, desktop, listing, false, now).fs)
    ensures forall p :: p in Clean(fs, logs, desktop, listing, false, now).fs && p != [] && Parent(p) == desktop ==>
              Clean(fs, logs, desktop, listing, false, now).fs[p].Dir? || Hidden(Name(p))
  {
    var ms := Plan(desktop, listing);
    PlanClear(fs, desktop, listing);
    ExecuteClear(fs, desktop, ms);
    CleanSucceeds(fs, logs, desktop, listing, now);
    var f := Execute(fs, ms).fs;
    forall p | p in f && p != [] && Parent(p) == desktop ensures f[p].Dir? || Hidden(Name(p)) {
      LeftOnDesktop(fs, desktop, listing, f, p);
    }
  }

  lemma LeftOnDesktop(fs: FileMap, desktop: Path, listing: seq<Entry>, f: FileMap, p: Path)
    requires Roomy(fs, desktop, listing) && Clear(fs, desktop, Plan(desktop, listing))
    requires AllMoved(fs, Plan(desktop, listing), f)
    requires p in f && p != [] && Parent(p) == desktop
    ensures f[p].Dir? || Hidden(Name(p))
  {
    var ms := Plan(desktop, listing);
    assert p == desktop + [Name(p)];
    forall k | 0 <= k < |ms| ensures Dest(ms[k]) != p && ms[k].src != p {
      ClearFacts(fs, desktop, ms, k, k);
    }
    if IsTarget(ms, |ms|, p) {
      var k :| 0 <= k < |ms| && ms[k].targetDir == p;
    } else {
      assert p in fs && !IsSource(ms, p);
      var e :| e in listing && e.name == Name(p);
      var j :| 0 <= j < |listing| && listing[j] == e;
      assert Listed(fs, desktop, e);
      PlanSpec(desktop, listing);
      assert !Organizable(e);
    }
  }

  /** Undo right after a real clean of a roomy desktop whose names are safe
      for the log, when the new log is the newest: `undo_last_run` picks that
      log, moves every file back (all undone, none skipped), and leaves the
      machine as it was before the clean but for the category folders the
      clean created. */
  lemma CleanThenUndo(fs: FileMap, logs: LogDir, desktop: Path, listing: seq<Entry>, now: Stamp, cwd: Path)
    requires Roomy(fs, desktop, listing)
    requires LogSafePath(desktop)
    requires forall k :: 0 <= k < |listing| && Organizable(listing[k]) ==> LogSafe(listing[k].name)
    requires Plan(desktop, listing) != []
    requires ValidStamp(now)
    requires forall n :: n in logs && IsLogName(n) ==> LexLess(n, LogName(now))
    ensures Clean(fs, logs, desktop, listing, false, now).result == Cleaned(|Plan(desktop, listing)|)
    ensures Undo(Clean(fs, logs, desktop, listing, false, now).fs, Clean(fs, logs, desktop, listing, false, now).logs, cwd).result
              == Undone(LogName(now), |Plan(desktop, listing)|, 0)
    ensures Restored(fs, Plan(desktop, listing),
                     Undo(Clean(fs, logs, desktop, listing, false, now).fs, Clean(fs, logs, desktop, listing, false, now).logs, cwd).fs)
  {
    var ms := Plan(desktop, listing);
    PlanClear(fs, desktop, listing);
    PlanLoggable(desktop, listing);
    ExecuteClear(fs, desktop, ms);
    CleanSucceeds(fs, logs, desktop, listing, now);
    UndoAfterExecute(fs, desktop, ms, cwd);
    UndoOwnLog(Execute(fs, ms).fs, logs, desktop, ms, now, cwd);
  }

  /** Undo after a run that wrote the newest log replays that log's records. */
  lemma UndoOwnLog(f: FileMap, logs: LogDir, desktop: Path, ms: seq<Move>, now: Stamp, cwd: Path)
    requires Loggable(desktop, ms) && ms != [] && ValidStamp(now)
    requires forall n :: n in logs && IsLogName(n) ==> LexLess(n, LogName(now))
    requires Replay(f, cwd, Records(ms)).failure.None?
    ensures Undo(f, WrittenLogs(logs, desktop, ms, now), cwd) ==
              Undoing(Replay(f, cwd, Records(ms)).fs,
                      Undone(LogName(now), Replay(f, cwd, Records(ms)).undone, Replay(f, cwd, Records(ms)).skipped))
  {
    var name := LogName(now);
    var logs' := WrittenLogs(logs, desktop, ms, now);
    assert logs' == logs[name := LogText(desktop, ms)];
    LogNameMatches(now);
    NewestAfterWrite(logs.Keys, name);
    assert logs'.Keys == logs.Keys + {name};
    LogRoundTrip(desktop, ms);
    UndoReplays(f, logs', cwd, name, Records(ms));
  }

  /** `shutil.move` onto an existing file replaces it: when the category
      folder of a desktop file already holds a file of the same name, the
      cleaner overwrites that file, whose content is then gone. */
  lemma CleanReplacesSameName(fs: FileMap, logs: LogDir, desktop: Path, name: string, now: Stamp)
    requires IsDir(fs, desktop) && !Hidden(name)
    requires desktop + [name] in fs && fs[desktop + [name]].File?
    requires IsDir(fs, desktop + [Classify(name)])
    requires desktop + [Classify(name), name] in fs && fs[desktop + [Classify(name), name]].File?
    ensures Clean(fs, logs, desktop, [Entry(name, false)], false, now) ==
            Cleaning((fs - {desktop + [name]})[desktop + [Classify(name), name] := fs[desktop + [name]]],
                     logs[LogName(now) := LogText(desktop, [Move(desktop + [name], desktop + [Classify(name)])])],
                     Cleaned(1))
  {
    CleanOne(fs, logs, desktop, Entry(name, false), now);
    StepOntoSameName(fs, desktop, name, Classify(name));
  }

  /** A real run over a listing of one organisable file runs that file's
      iteration, and writes the log when it succeeds. */
  lemma CleanOne(fs: FileMap, logs: LogDir, desktop: Path, e: Entry, now: Stamp)
    requires IsDir(fs, desktop) && Organizable(e)
    ensures var m := Move(desktop + [e.name], desktop + [Classify(e.name)]);
            var r := Step(fs, m);
            Clean(fs, logs, desktop, [e], false, now) ==
              if r.failure.Some? then Cleaning(r.fs, logs, CleanFailed(r.failure.value))
              else Cleaning(r.fs, logs[LogName(now) := LogText(desktop, [m])], Cleaned(1))
  {
    PlanSingle(desktop, e);
    ExecuteSingle(fs, Move(desktop + [e.name], desktop + [Classify(e.name)]));
  }

  /** A desktop file called `Other` has no suffix, so its category folder is
      the file itself: `mkdir` finds a file there and the run raises before
      moving anything. */
  lemma CleanBlockedByOwnFolder(fs: FileMap, logs: LogDir, desktop: Path, now: Stamp)
    requires IsDir(fs, desktop)
    requires desktop + [Fallback] in fs && fs[desktop + [Fallback]].File?
    ensures Clean(fs, logs, desktop, [Entry(Fallback, false)], false, now) ==
            Cleaning(fs, logs, CleanFailed(Blocked(desktop + [Fallback])))
  {
    ClassifyNoSuffix(Fallback);
    CleanOne(fs, logs, desktop, Entry(Fallback, false), now);
  }

  /** When the newest log reads as a non-empty list of records, undo replays
      them. */
  lemma UndoReplays(fs: FileMap, logs: LogDir, cwd: Path, name: string, rs: seq<Record>)
    requires Newest(logs.Keys) == Some(name) && name in logs
    requires ParseLines(Lines(logs[name])) == Parsed(rs) && rs != []
    requires Replay(fs, cwd, rs).failure.None?
    ensures Undo(fs, logs, cwd) == Undoing(Replay(fs, cwd, rs).fs, Undone(name, Replay(fs, cwd, rs).undone, Replay(fs, cwd, rs).skipped))
  {
  }

  /** Undo changes nothing when there is no log, when the newest log holds no
      records, and when it has a line without `|`; when it finishes, every
      record of the newest log was counted once, as undone or as skipped. */
  lemma UndoOutcomes(fs: FileMap, logs: LogDir, cwd: Path)
    ensures var u := Undo(fs, logs, cwd);
            u.result.NoLogs? || u.result.NoMoves? || u.result.Unreadable? ==> u.fs == fs
    ensures var u := Undo(fs, logs, cwd);
            u.result.NoLogs? <==> forall n :: n in logs ==> !IsLogName(n)
    ensures var u := Undo(fs, logs, cwd);
            u.result.Undone? ==> Newest(logs.Keys) == Some(u.result.log)
                                 && ParseLines(Lines(logs[u.result.log])).Parsed?
                                 && u.result.undone + u.result.skipped == |ParseLines(Lines(logs[u.result.log])).records|
  {
    match Newest(logs.Keys)
    case None =>
    case Some(name) =>
      match ParseLines(Lines(logs[name]))
      case Malformed(_) =>
      case Parsed(rs) =>
        ReplayCounts(fs, cwd, rs);
  }

  /** The machine the cleaner runs on. */
  class Machine {
    var fs: FileMap
    var logs: LogDir

    constructor(fs: FileMap, logs: LogDir)
      ensures this.fs == fs && this.logs == logs
    {
      this.fs := fs;
      this.logs := logs;
    }

    /** `write_log(desktop, moves)`: the name of the log written, if any. */
    method WriteLog(desktop: Path, moves: seq<Move>, now: Stamp) returns (written: Option<string>)
      modifies this
      ensures written == (if moves == [] then None else Some(LogName(now)))
      ensures logs == WrittenLogs(old(logs), desktop, moves, now) && fs == old(fs)
    {
      if |moves| == 0 {
        return None;
      }
      var name := LogName(now);
      logs := logs[name := LogText(desktop, moves)];
      return Some(name);
    }

    /** `clean_desktop(desktop, dry_run)`. */
    method CleanDesktop(desktop: Path, listing: seq<Entry>, dryRun: bool, now: Stamp) returns (r: CleanResult)
      modifies this
      ensures Cleaning(fs, logs, r) == Clean(old(fs), old(logs), desktop, listing, dryRun, now)
      ensures WellFormed(old(fs)) ==> WellFormed(fs)
    {
      if WellFormed(fs) {
        ExecuteKeepsWellFormed(fs, Plan(desktop, listing));
      }
      if !IsDir(fs, desktop) {
        return CleanFailed(Unlistable(desktop));
      }
      var moves := PlanMoves(desktop, listing);
      if |moves| == 0 || dryRun {
        return Cleaned(|moves|);
      }
      var failure := MoveAll(moves);
      if failure.Some? {
        return CleanFailed(failure.value);
      }
      var _ := WriteLog(desktop, moves, now);
      return Cleaned(|moves|);
    }

    /** The real-mode loop of `clean_desktop`: for each move, create the target
        folder and move the file in, stopping at the first exception. */
    method MoveAll(moves: seq<Move>) returns (failure: Option<Error>)
      modifies this
      ensures Run(fs, failure) == Execute(old(fs), moves) && logs == old(logs)
    {
      ghost var fs0 := fs;
      var i := 0;
      while i < |moves|
        invariant 0 <= i <= |moves|
        invariant Execute(fs0, moves[..i]) == Run(fs, None)
        invariant logs == old(logs)
      {
        var m := moves[i];
        ExecuteSnoc(fs0, moves, i + 1);
        var made := Mkdir(fs, m.targetDir);
        var moved := if made.Ok? then ShutilMove(made.value, m.src, Dest(m)) else made;
        StepCases(fs, m, made, moved);
        if made.Err? {
          ExecuteStopped(fs0, moves, i + 1);
          return Some(made.error);
        }
        fs := made.value;
        if moved.Err? {
          ExecuteStopped(fs0, moves, i + 1);
          return Some(moved.error);
        }
        fs := moved.value;
        i := i + 1;
      }
      assert moves[..i] == moves;
      return None;
    }

    /** `sorted(log_dir.glob("clean_*.log"))[-1]`, found in one pass. */
    method LatestLog() returns (latest: Option<string>)
      ensures latest == Newest(logs.Keys)
    {
      var rest := logs.Keys;
      latest := None;
      while rest != {}
        invariant rest <= logs.Keys
        invariant latest == Newest(logs.Keys - rest)
        decreases |rest|
      {
        var n :| n in rest;
        var seen := logs.Keys - rest;
        NewestAdd(seen, n);
        if IsLogName(n) && (latest.None? || LexLess(latest.value, n)) {
          latest := Some(n);
        }
        rest := rest - {n};
        assert logs.Keys - rest == seen + {n};
      }
      assert logs.Keys - rest == logs.Keys;
    }

    /** `undo_last_run()` in working directory `cwd`. */
    method UndoLastRun(cwd: Path) returns (r: UndoResult)
      modifies this
      ensures Undoing(fs, r) == Undo(old(fs), old(logs), cwd) && logs == old(logs)
      ensures WellFormed(old(fs)) ==> WellFormed(fs)
    {
      var latest := LatestLog();
      if latest.None? {
        return NoLogs;
      }
      var name := latest.value;
      var parsed := ParseLog(logs[name]);
      if parsed.Malformed? {
        return Unreadable(name, parsed.line);
      }
      var records := parsed.records;
      if |records| == 0 {
        return NoMoves(name);
      }
      if WellFormed(fs) {
        ReplayKeepsWellFormed(fs, cwd, records);
      }
      var undone, skipped, failure := RestoreAll(cwd, records);
      if failure.Some? {
        return UndoFailed(name, failure.value);
      }
      return Undone(name, undone, skipped);
    }

    /** The record loop of `undo_last_run`: each destination that exists goes
        back to its source, whose parent is created first; a missing one is
        skipped; the first exception ends the loop. */
    method RestoreAll(cwd: Path, records: seq<Record>) returns (undone: nat, skipped: nat, failure: Option<Error>)
      modifies this
      ensures Tally(fs, undone, skipped, failure) == Replay(old(fs), cwd, records) && logs == old(logs)
    {
      ghost var fs0 := fs;
      undone, skipped := 0, 0;
      var i := 0;
      while i < |records|
        invariant 0 <= i <= |records|
        invariant Replay(fs0, cwd, records[..i]) == Tally(fs, undone, skipped, None)
        invariant logs == old(logs)
      {
        var src, dest := Resolve(cwd, records[i].src), Resolve(cwd, records[i].dest);
        ReplaySnoc(fs0, cwd, records, i + 1);
        if Exists(fs, dest) {
          var made := MakeDirs(fs, Parent(src));
          var moved := if made.Ok? then ShutilMove(made.value, dest, src) else made;
          RestoreCases(Tally(fs, undone, skipped, None), cwd, records[i], made, moved);
          if made.Err? {
            ReplayStopped(fs0, cwd, records, i + 1);
            return undone, skipped, Some(made.error);
          }
          fs := made.value;
          if moved.Err? {
            ReplayStopped(fs0, cwd, records, i + 1);
            return undone, skipped, Some(moved.error);
          }
          fs := moved.value;
          undone := undone + 1;
        } else {
          RestoreSkips(Tally(fs, undone, skipped, None), cwd, records[i]);
          skipped := skipped + 1;
        }
        i := i + 1;
      }
      assert records[..i] == records;
      return undone, skipped, None;
    }
  }
}
