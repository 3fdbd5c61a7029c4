/** The two loops that change the file system: the real-mode loop of
    `clean_desktop` (create the category folder, move the file in) and the
    record loop of `undo_last_run` (move each destination that still exists back
    to its source). Both stop at the first exception, keeping the changes made
    so far. */
module Execution {
  import opened Paths
  import opened Planner
  import opened MoveLog
  import opened FileSystem

  /** Where a run of moves stopped: the file system then, and the exception that
      ended it early, if any. */
  datatype Run = Run(fs: FileMap, failure: Option<Error>)

  /** One iteration of the real-mode loop: `target_dir.mkdir(exist_ok=True)`, then
      `shutil.move(src, target_dir / src.name)`. A folder created before the
      move raises stays. */
  function Step(fs: FileMap, m: Move): Run {
    match Mkdir(fs, m.targetDir)
    case Err(e) => Run(fs, Some(e))
    case Ok(fs') =>
      match ShutilMove(fs', m.src, Dest(m))
      case Err(e) => Run(fs', Some(e))
      case Ok(fs'') => Run(fs'', None)
  }

  /** A plan of one move runs that move's iteration and nothing else. */
  lemma ExecuteSingle(fs: FileMap, m: Move)
    ensures Execute(fs, [m]) == Step(fs, m)
  {
    assert [m][..0] == [];
  }

  /** A move into an existing folder onto an existing file of the same name
      replaces that file, as `os.rename` does on POSIX. */
  lemma StepReplaces(fs: FileMap, m: Move)
    requires IsDir(fs, m.targetDir) && m.src != Dest(m)
    requires m.src in fs && fs[m.src].File? && Dest(m) in fs && fs[Dest(m)].File?
    ensures Step(fs, m) == Run((fs - {m.src})[Dest(m) := fs[m.src]], None)
  {
    assert Mkdir(fs, m.targetDir) == Ok(fs);
  }

  /** The same, for a file `name` of `dir` moved into the folder `dir/folder`. */
  lemma StepOntoSameName(fs: FileMap, dir: Path, name: string, folder: string)
    requires IsDir(fs, dir + [folder])
    requires dir + [name] in fs && fs[dir + [name]].File? && dir + [folder, name] in fs && fs[dir + [folder, name]].File?
    ensures Step(fs, Move(dir + [name], dir + [folder])) == Run((fs - {dir + [name]})[dir + [folder, name] := fs[dir + [name]]], None)
  {
    var m := Move(dir + [name], dir + [folder]);
    assert Name(m.src) == name;
    assert Dest(m) == dir + [folder, name];
    StepReplaces(fs, m);
  }

  /** The three ways an iteration ends, as the loop body sees them. */
  lemma StepCases(fs: FileMap, m: Move, made: Result<FileMap>, moved: Result<FileMap>)
    requires made == Mkdir(fs, m.targetDir)
    requires made.Ok? ==> moved == ShutilMove(made.value, m.src, Dest(m))
    ensures made.Err? ==> Step(fs, m) == Run(fs, Some(made.error))
    ensures made.Ok? && moved.Err? ==> Step(fs, m) == Run(made.value, Some(moved.error))
    ensures made.Ok? && moved.Ok? ==> Step(fs, m) == Run(moved.value, None)
  {
  }

  /** The loop after one more iteration: nothing more once an exception has
      been raised. */
  function Next(r: Run, m: Move): Run {
    if r.failure.Some? then r else Step(r.fs, m)
  }

  /** The real-mode loop over `moves`, in order. */
  function Execute(fs: FileMap, moves: seq<Move>): (r: Run)
    decreases |moves|
  {
    if moves == [] then Run(fs, None) else Next(Execute(fs, moves[..|moves| - 1]), moves[|moves| - 1])
  }

  /** The loop keeps the file system well formed, whether it finishes or not. */
  lemma {:induction false} ExecuteKeepsWellFormed(fs: FileMap, moves: seq<Move>)
    requires WellFormed(fs)
    ensures WellFormed(Execute(fs, moves).fs)
    decreases |moves|
  {
    if moves != [] {
      var init := moves[..|moves| - 1];
      ExecuteKeepsWellFormed(fs, init);
      var r := Execute(fs, init);
      var m := moves[|moves| - 1];
      assert Execute(fs, moves) == Next(r, m);
      if r.failure.None? && Mkdir(r.fs, m.targetDir).Ok? {
        assert Next(r, m) == Step(r.fs, m);
        MkdirKeepsWellFormed(r.fs, m.targetDir);
        var f1 := Mkdir(r.fs, m.targetDir).value;
        if ShutilMove(f1, m.src, Dest(m)).Ok? {
          MoveKeepsWellFormed(f1, m.src, Dest(m));
        }
      }
    }
  }

  /** The counters of the undo loop, the file system, and the exception that
      ended the loop early, if any. */
  datatype Tally = Tally(fs: FileMap, undone: nat, skipped: nat, failure: Option<Error>)

  /** One record of the undo loop, with paths read in working directory `cwd`,
      unless an exception has ended the loop: when the destination exists, create the source's parent (with parents)
      and move the destination back; otherwise count a skip. */
  function Restore(t: Tally, cwd: Path, rec: Record): Tally {
    var src, dest := Resolve(cwd, rec.src), Resolve(cwd, rec.dest);
    if t.failure.Some? then t
    else if !Exists(t.fs, dest) then t.(skipped := t.skipped + 1)
    else match MakeDirs(t.fs, Parent(src))
      case Err(e) => t.(failure := Some(e))
      case Ok(fs') =>
        match ShutilMove(fs', dest, src)
        case Err(e) => t.(fs := fs', failure := Some(e))
        case Ok(fs'') => t.(fs := fs'', undone := t.undone + 1)
  }

  /** A record whose destination is missing is skipped. */
  lemma RestoreSkips(t: Tally, cwd: Path, rec: Record)
    requires t.failure.None? && !Exists(t.fs, Resolve(cwd, rec.dest))
    ensures Restore(t, cwd, rec) == t.(skipped := t.skipped + 1)
  {
  }

  /** The three ways a record whose destination exists ends, as the loop body
      sees them. */
  lemma RestoreCases(t: Tally, cwd: Path, rec: Record, made: Result<FileMap>, moved: Result<FileMap>)
    requires t.failure.None?
    requires made == MakeDirs(t.fs, Parent(Resolve(cwd, rec.src)))
    requires made.Ok? ==> moved == ShutilMove(made.value, Resolve(cwd, rec.dest), Resolve(cwd, rec.src))
    ensures Exists(t.fs, Resolve(cwd, rec.dest)) && made.Err? ==> Restore(t, cwd, rec) == t.(failure := Some(made.error))
    ensures Exists(t.fs, Resolve(cwd, rec.dest)) && made.Ok? && moved.Err? ==>
              Restore(t, cwd, rec) == t.(fs := made.value, failure := Some(moved.error))
    ensures Exists(t.fs, Resolve(cwd, rec.dest)) && made.Ok? && moved.Ok? ==>
              Restore(t, cwd, rec) == t.(fs := moved.value, undone := t.undone + 1)
  {
  }

  /** The undo loop over `records`, in log order. */
  function Replay(fs: FileMap, cwd: Path, records: seq<Record>): Tally
    decreases |records|
  {
    if records == [] then Tally(fs, 0, 0, None)
    else Restore(Replay(fs, cwd, records[..|records| - 1]), cwd, records[|records| - 1])
  }

  /** Every record finished is counted once, as undone or as skipped. */
  lemma {:induction false} ReplayCounts(fs: FileMap, cwd: Path, records: seq<Record>)
    ensures var t := Replay(fs, cwd, records);
            t.failure.None? ==> t.undone + t.skipped == |records|
    ensures var t := Replay(fs, cwd, records);
            t.failure.Some? ==> t.undone + t.skipped < |records|
    decreases |records|
  {
    if records != [] {
      ReplayCounts(fs, cwd, records[..|records| - 1]);
      RestoreCounts(Replay(fs, cwd, records[..|records| - 1]), cwd, records[|records| - 1]);
    }
  }

  /** One record adds one to the counters unless it raises, and nothing once
      the loop has ended. */
  lemma RestoreCounts(t: Tally, cwd: Path, rec: Record)
    ensures t.failure.Some? ==> Restore(t, cwd, rec) == t
    ensures t.failure.None? && Restore(t, cwd, rec).failure.None? ==>
              Restore(t, cwd, rec).undone + Restore(t, cwd, rec).skipped == t.undone + t.skipped + 1
    ensures t.failure.None? && Restore(t, cwd, rec).failure.Some? ==>
              Restore(t, cwd, rec).undone + Restore(t, cwd, rec).skipped == t.undone + t.skipped
  {
  }

  lemma {:induction false} ReplayKeepsWellFormed(fs: FileMap, cwd: Path, records: seq<Record>)
    requires WellFormed(fs)
    ensures WellFormed(Replay(fs, cwd, records).fs)
    decreases |records|
  {
    if records != [] {
      var init := records[..|records| - 1];
      ReplayKeepsWellFormed(fs, cwd, init);
      var t := Replay(fs, cwd, init);
      var rec := records[|records| - 1];
      var src, dest := Resolve(cwd, rec.src), Resolve(cwd, rec.dest);
      if t.failure.None? && Exists(t.fs, dest) && MakeDirs(t.fs, Parent(src)).Ok? {
        MakeDirsKeepsWellFormed(t.fs, Parent(src));
        var f1 := MakeDirs(t.fs, Parent(src)).value;
        if ShutilMove(f1, dest, src).Ok? {
          MoveKeepsWellFormed(f1, dest, src);
        }
      }
    }
  }

  // ---------------------------------------------------------------------------
  // Layouts: which planned files sit at their source and which at their
  // destination
  // ---------------------------------------------------------------------------

  /** The conditions under which the plan `ms` of directory `desktop` runs
      without exception: every source is a file directly in `desktop` (so no
      two are the same), every target folder is directly in `desktop` and is
      not a file, and no destination exists yet. */
  predicate Clear(fs0: FileMap, desktop: Path, ms: seq<Move>) {
    && WellFormed(fs0) && IsDir(fs0, desktop)
    && (forall k :: 0 <= k < |ms| ==> ClearMove(fs0, desktop, ms[k]))
    && (forall j, k :: 0 <= j < k < |ms| ==> ms[j].src != ms[k].src)
  }

  predicate ClearMove(fs0: FileMap, desktop: Path, m: Move) {
    && m.src == desktop + [Name(m.src)]
    && m.targetDir == desktop + [Name(m.targetDir)]
    && m.src in fs0 && fs0[m.src].File?
    && (m.targetDir in fs0 ==> fs0[m.targetDir].Dir?)
    && Dest(m) !in fs0
  }

  predicate IsSource(ms: seq<Move>, p: Path) {
    exists k :: 0 <= k < |ms| && ms[k].src == p
  }

  predicate IsTarget(ms: seq<Move>, dirs: int, p: Path) {
    exists k :: 0 <= k < dirs && k < |ms| && ms[k].targetDir == p
  }

  predicate IsMovedDest(ms: seq<Move>, done: set<int>, p: Path) {
    exists k :: 0 <= k < |ms| && k in done && Dest(ms[k]) == p
  }

  /** `f` is `fs0` with the files of the moves in `done` at their destinations,
      the others at their sources, and the target folders of the first `dirs`
      moves present. */
  predicate Layout(fs0: FileMap, ms: seq<Move>, done: set<int>, dirs: int, f: FileMap) {
    && 0 <= dirs <= |ms|
    && Sourced(fs0, ms)
    && MovedOut(fs0, ms, done, f)
    && Pending(fs0, ms, done, f)
    && DirsMade(ms, dirs, f)
    && Untouched(fs0, ms, f)
    && NothingElse(fs0, ms, done, dirs, f)
  }

  predicate Sourced(fs0: FileMap, ms: seq<Move>) {
    forall k :: 0 <= k < |ms| ==> ms[k].src in fs0
  }

  predicate MovedOut(fs0: FileMap, ms: seq<Move>, done: set<int>, f: FileMap)
    requires Sourced(fs0, ms)
  {
    forall k :: 0 <= k < |ms| && k in done ==>
      ms[k].src !in f && Dest(ms[k]) in f && f[Dest(ms[k])] == fs0[ms[k].src]
  }

  predicate Pending(fs0: FileMap, ms: seq<Move>, done: set<int>, f: FileMap)
    requires Sourced(fs0, ms)
  {
    forall k :: 0 <= k < |ms| && k !in done ==>
      ms[k].src in f && f[ms[k].src] == fs0[ms[k].src] && Dest(ms[k]) !in f
  }

  predicate DirsMade(ms: seq<Move>, dirs: int, f: FileMap)
    requires dirs <= |ms|
  {
    forall k :: 0 <= k < dirs ==> ms[k].targetDir in f && f[ms[k].targetDir] == Dir
  }

  predicate Untouched(fs0: FileMap, ms: seq<Move>, f: FileMap) {
    forall p :: p in fs0 && !IsSource(ms, p) ==> p in f && f[p] == fs0[p]
  }

  predicate NothingElse(fs0: FileMap, ms: seq<Move>, done: set<int>, dirs: int, f: FileMap) {
    forall p :: p in f ==> p in fs0 || IsTarget(ms, dirs, p) || IsMovedDest(ms, done, p)
  }

  /** Facts about a clear plan: no source is a target folder, and two moves with
      the same destination are the same move. */
  lemma ClearFacts(fs0: FileMap, desktop: Path, ms: seq<Move>, j: int, k: int)
    requires Clear(fs0, desktop, ms) && 0 <= j < |ms| && 0 <= k < |ms|
    ensures ms[j].targetDir != ms[k].src
    ensures Dest(ms[j]) == Dest(ms[k]) ==> j == k
    ensures |ms[j].src| == |ms[j].targetDir| == |desktop| + 1 && |Dest(ms[j])| == |desktop| + 2
  {
    assert ClearMove(fs0, desktop, ms[j]) && ClearMove(fs0, desktop, ms[k]);
    if Dest(ms[j]) == Dest(ms[k]) {
      assert Name(ms[j].src) == Dest(ms[j])[|Dest(ms[j])| - 1] == Name(ms[k].src);
    }
  }

  /** Everything one move of a clear plan must not collide with. */
  lemma ClearApart(fs0: FileMap, desktop: Path, ms: seq<Move>, i: int)
    requires Clear(fs0, desktop, ms) && 0 <= i < |ms|
    ensures Apart(ms, i)
    ensures forall k :: 0 <= k < |ms| ==> ms[k].src != ms[i].targetDir && Dest(ms[k]) != ms[i].targetDir
    ensures forall k :: 0 <= k < |ms| ==> ms[k].src != desktop
  {
    forall k | 0 <= k < |ms|
      ensures k != i ==> ms[k].src != ms[i].src && Dest(ms[k]) != Dest(ms[i])
      ensures ms[k].src != Dest(ms[i]) && ms[k].targetDir != ms[i].src
      ensures ms[k].targetDir != Dest(ms[i]) && Dest(ms[k]) != ms[i].src
      ensures ms[k].src != ms[i].targetDir && Dest(ms[k]) != ms[i].targetDir
      ensures ms[k].src != desktop
    {
      ClearFacts(fs0, desktop, ms, k, i);
      ClearFacts(fs0, desktop, ms, i, k);
    }
  }

  /** The source and destination of move `i` are distinct from every other path
      the plan names. */
  predicate Apart(ms: seq<Move>, i: int)
    requires 0 <= i < |ms|
  {
    && (forall k :: 0 <= k < |ms| && k != i ==> ms[k].src != ms[i].src && Dest(ms[k]) != Dest(ms[i]))
    && (forall k :: 0 <= k < |ms| ==>
          && ms[k].src != Dest(ms[i]) && ms[k].targetDir != ms[i].src
          && ms[k].targetDir != Dest(ms[i]) && Dest(ms[k]) != ms[i].src)
  }

  lemma LayoutMoreDirs(fs0: FileMap, ms: seq<Move>, done: set<int>, i: int, f: FileMap)
    requires Layout(fs0, ms, done, i, f) && i < |ms|
    requires ms[i].targetDir in f && f[ms[i].targetDir] == Dir
    ensures Layout(fs0, ms, done, i + 1, f)
  {
    MoreDirsNothingElse(fs0, ms, done, i, f);
  }

  lemma MoreDirsNothingElse(fs0: FileMap, ms: seq<Move>, done: set<int>, i: int, f: FileMap)
    requires 0 <= i < |ms| && NothingElse(fs0, ms, done, i, f)
    ensures NothingElse(fs0, ms, done, i + 1, f)
  {
    forall p | p in f && IsTarget(ms, i, p) ensures IsTarget(ms, i + 1, p) {
      var k :| 0 <= k < i && k < |ms| && ms[k].targetDir == p;
    }
  }

  lemma LayoutNewDir(fs0: FileMap, ms: seq<Move>, done: set<int>, i: int, f: FileMap)
    requires Layout(fs0, ms, done, i, f) && i < |ms| && ms[i].targetDir !in f
    requires forall k :: 0 <= k < |ms| ==> ms[k].src != ms[i].targetDir && Dest(ms[k]) != ms[i].targetDir
    ensures Layout(fs0, ms, done, i + 1, f[ms[i].targetDir := Dir])
  {
    var t := ms[i].targetDir;
    var f' := f[t := Dir];
    NewDirMovedOut(fs0, ms, done, f, t);
    NewDirPending(fs0, ms, done, f, t);
    NewDirNothingElse(fs0, ms, done, i, f);
  }

  lemma NewDirMovedOut(fs0: FileMap, ms: seq<Move>, done: set<int>, f: FileMap, t: Path)
    requires Sourced(fs0, ms) && MovedOut(fs0, ms, done, f)
    requires forall k :: 0 <= k < |ms| ==> ms[k].src != t && Dest(ms[k]) != t
    ensures MovedOut(fs0, ms, done, f[t := Dir])
  {
  }

  lemma NewDirPending(fs0: FileMap, ms: seq<Move>, done: set<int>, f: FileMap, t: Path)
    requires Sourced(fs0, ms) && Pending(fs0, ms, done, f)
    requires forall k :: 0 <= k < |ms| ==> ms[k].src != t && Dest(ms[k]) != t
    ensures Pending(fs0, ms, done, f[t := Dir])
  {
  }

  lemma NewDirNothingElse(fs0: FileMap, ms: seq<Move>, done: set<int>, i: int, f: FileMap)
    requires 0 <= i < |ms| && NothingElse(fs0, ms, done, i, f)
    ensures NothingElse(fs0, ms, done, i + 1, f[ms[i].targetDir := Dir])
  {
    var t := ms[i].targetDir;
    assert IsTarget(ms, i + 1, t);
    forall p | p in f[t := Dir] ensures p in fs0 || IsTarget(ms, i + 1, p) || IsMovedDest(ms, done, p) {
      if p != t && !(p in fs0) && !IsMovedDest(ms, done, p) {
        assert IsTarget(ms, i, p);
      }
    }
  }

  lemma LayoutMoveFile(fs0: FileMap, ms: seq<Move>, done: set<int>, dirs: int, i: int, f: FileMap)
    requires Layout(fs0, ms, done, dirs, f) && 0 <= i < |ms| && i !in done
    requires Apart(ms, i) && Dest(ms[i]) !in fs0
    ensures Layout(fs0, ms, done + {i}, dirs, (f - {ms[i].src})[Dest(ms[i]) := f[ms[i].src]])
  {
    MoveMovedOut(fs0, ms, done, i, f);
    MovePending(fs0, ms, done, i, f);
    MoveKeeps(fs0, ms, done, dirs, i, f);
    MoveNothingElse(fs0, ms, done, dirs, i, f);
  }

  lemma MoveMovedOut(fs0: FileMap, ms: seq<Move>, done: set<int>, i: int, f: FileMap)
    requires Sourced(fs0, ms) && MovedOut(fs0, ms, done, f) && Pending(fs0, ms, done, f)
    requires 0 <= i < |ms| && i !in done && Apart(ms, i)
    ensures MovedOut(fs0, ms, done + {i}, (f - {ms[i].src})[Dest(ms[i]) := f[ms[i].src]])
  {
  }

  lemma MovePending(fs0: FileMap, ms: seq<Move>, done: set<int>, i: int, f: FileMap)
    requires Sourced(fs0, ms) && Pending(fs0, ms, done, f)
    requires 0 <= i < |ms| && i !in done && Apart(ms, i)
    ensures Pending(fs0, ms, done + {i}, (f - {ms[i].src})[Dest(ms[i]) := f[ms[i].src]])
  {
  }

  lemma MoveKeeps(fs0: FileMap, ms: seq<Move>, done: set<int>, dirs: int, i: int, f: FileMap)
    requires 0 <= dirs <= |ms| && DirsMade(ms, dirs, f) && Untouched(fs0, ms, f)
    requires 0 <= i < |ms| && ms[i].src in f && Apart(ms, i) && Dest(ms[i]) !in fs0
    ensures DirsMade(ms, dirs, (f - {ms[i].src})[Dest(ms[i]) := f[ms[i].src]])
    ensures Untouched(fs0, ms, (f - {ms[i].src})[Dest(ms[i]) := f[ms[i].src]])
  {
    assert IsSource(ms, ms[i].src);
  }

  lemma MoveNothingElse(fs0: FileMap, ms: seq<Move>, done: set<int>, dirs: int, i: int, f: FileMap)
    requires NothingElse(fs0, ms, done, dirs, f) && 0 <= i < |ms| && ms[i].src in f
    ensures NothingElse(fs0, ms, done + {i}, dirs, (f - {ms[i].src})[Dest(ms[i]) := f[ms[i].src]])
  {
    var s, d := ms[i].src, Dest(ms[i]);
    assert IsMovedDest(ms, done + {i}, d);
    forall p | p in (f - {s})[d := f[s]] ensures p in fs0 || IsTarget(ms, dirs, p) || IsMovedDest(ms, done + {i}, p) {
      if p != d && !(p in fs0) && !IsTarget(ms, dirs, p) {
        var k :| 0 <= k < |ms| && k in done && Dest(ms[k]) == p;
      }
    }
  }

  lemma LayoutUnmoveFile(fs0: FileMap, ms: seq<Move>, done: set<int>, dirs: int, i: int, f: FileMap)
    requires Layout(fs0, ms, done, dirs, f) && 0 <= i < |ms| && i in done
    requires Apart(ms, i) && Dest(ms[i]) !in fs0
    ensures Layout(fs0, ms, done - {i}, dirs, (f - {Dest(ms[i])})[ms[i].src := f[Dest(ms[i])]])
  {
    var s, d := ms[i].src, Dest(ms[i]);
    var f' := (f - {d})[s := f[d]];
    UnmoveMovedOut(fs0, ms, done, i, f);
    UnmovePending(fs0, ms, done, i, f);
    UnmoveKeeps(fs0, ms, done, dirs, i, f);
    UnmoveNothingElse(fs0, ms, done, dirs, i, f);
  }

  lemma UnmoveKeeps(fs0: FileMap, ms: seq<Move>, done: set<int>, dirs: int, i: int, f: FileMap)
    requires 0 <= dirs <= |ms| && DirsMade(ms, dirs, f) && Untouched(fs0, ms, f)
    requires 0 <= i < |ms| && Dest(ms[i]) in f && Apart(ms, i) && Dest(ms[i]) !in fs0
    ensures DirsMade(ms, dirs, (f - {Dest(ms[i])})[ms[i].src := f[Dest(ms[i])]])
    ensures Untouched(fs0, ms, (f - {Dest(ms[i])})[ms[i].src := f[Dest(ms[i])]])
  {
    assert IsSource(ms, ms[i].src);
  }

  lemma UnmoveMovedOut(fs0: FileMap, ms: seq<Move>, done: set<int>, i: int, f: FileMap)
    requires Sourced(fs0, ms) && MovedOut(fs0, ms, done, f) && 0 <= i < |ms| && i in done && Apart(ms, i)
    ensures MovedOut(fs0, ms, done - {i}, (f - {Dest(ms[i])})[ms[i].src := f[Dest(ms[i])]])
  {
  }

  lemma UnmovePending(fs0: FileMap, ms: seq<Move>, done: set<int>, i: int, f: FileMap)
    requires Sourced(fs0, ms) && MovedOut(fs0, ms, done, f) && Pending(fs0, ms, done, f)
    requires 0 <= i < |ms| && i in done && Apart(ms, i)
    ensures Pending(fs0, ms, done - {i}, (f - {Dest(ms[i])})[ms[i].src := f[Dest(ms[i])]])
  {
  }

  lemma UnmoveNothingElse(fs0: FileMap, ms: seq<Move>, done: set<int>, dirs: int, i: int, f: FileMap)
    requires Sourced(fs0, ms) && NothingElse(fs0, ms, done, dirs, f)
    requires 0 <= i < |ms| && Dest(ms[i]) in f && Apart(ms, i)
    ensures NothingElse(fs0, ms, done - {i}, dirs, (f - {Dest(ms[i])})[ms[i].src := f[Dest(ms[i])]])
  {
    var s, d := ms[i].src, Dest(ms[i]);
    assert s in fs0;
    forall p | p in (f - {d})[s := f[d]] ensures p in fs0 || IsTarget(ms, dirs, p) || IsMovedDest(ms, done - {i}, p) {
      if p != s && !(p in fs0) && !IsTarget(ms, dirs, p) {
        var k :| 0 <= k < |ms| && k in done && Dest(ms[k]) == p;
        assert k != i;
      }
    }
  }

  lemma LayoutStart(fs0: FileMap, desktop: Path, ms: seq<Move>)
    requires Clear(fs0, desktop, ms)
    ensures Layout(fs0, ms, {}, 0, fs0)
  {
    forall k | 0 <= k < |ms| ensures ms[k].src in fs0 && Dest(ms[k]) !in fs0 {
      assert ClearMove(fs0, desktop, ms[k]);
    }
  }

  /** `mkdir` of the next target folder succeeds and keeps the layout. */
  lemma LayoutMkdir(fs0: FileMap, desktop: Path, ms: seq<Move>, done: set<int>, i: int, f: FileMap)
    requires Clear(fs0, desktop, ms) && 0 <= i < |ms| && Layout(fs0, ms, done, i, f)
    ensures Mkdir(f, ms[i].targetDir).Ok?
    ensures Layout(fs0, ms, done, i + 1, Mkdir(f, ms[i].targetDir).value)
  {
    var t := ms[i].targetDir;
    assert ClearMove(fs0, desktop, ms[i]);
    ClearApart(fs0, desktop, ms, i);
    assert !IsSource(ms, t);
    assert !IsMovedDest(ms, done, t);
    assert !IsSource(ms, desktop);
    assert IsDir(f, desktop);
    assert Parent(t) == desktop;
    if t in f {
      assert IsDir(f, t);
      LayoutMoreDirs(fs0, ms, done, i, f);
    } else {
      assert Mkdir(f, t) == Ok(f[t := Dir]);
      LayoutNewDir(fs0, ms, done, i, f);
    }
  }

  /** Moving a file of a pending move to its destination succeeds and marks it done. */
  lemma LayoutMoveOut(fs0: FileMap, desktop: Path, ms: seq<Move>, done: set<int>, dirs: int, i: int, f: FileMap)
    requires Clear(fs0, desktop, ms) && 0 <= i < dirs && i !in done && Layout(fs0, ms, done, dirs, f)
    ensures ShutilMove(f, ms[i].src, Dest(ms[i])).Ok?
    ensures Layout(fs0, ms, done + {i}, dirs, ShutilMove(f, ms[i].src, Dest(ms[i])).value)
  {
    var s, d, t := ms[i].src, Dest(ms[i]), ms[i].targetDir;
    assert ClearMove(fs0, desktop, ms[i]);
    ClearFacts(fs0, desktop, ms, i, i);
    ClearApart(fs0, desktop, ms, i);
    assert !IsTarget(ms, dirs, d);
    assert !IsMovedDest(ms, done, d);
    assert d !in f;
    assert !Under(s, d);
    assert Parent(d) == t;
    assert Leaf(f, s) by {
      FileIsLeaf(fs0, s);
      forall q | q in f && Under(s, q) ensures q == s {
        if q !in fs0 && q != s {
          assert NothingElse(fs0, ms, done, dirs, f);
          LeafOutsideFs0(fs0, desktop, ms, dirs, done, s, q);
        }
      }
    }
    MoveLeaf(f, s, d);
    LayoutMoveFile(fs0, ms, done, dirs, i, f);
  }

  /** A path that only the plan created lies beneath no source. */
  lemma LeafOutsideFs0(fs0: FileMap, desktop: Path, ms: seq<Move>, dirs: int, done: set<int>, s: Path, q: Path)
    requires Clear(fs0, desktop, ms)
    requires IsSource(ms, s) && (IsTarget(ms, dirs, q) || IsMovedDest(ms, done, q))
    ensures !Under(s, q)
  {
    var i :| 0 <= i < |ms| && ms[i].src == s;
    if IsTarget(ms, dirs, q) {
      var k :| 0 <= k < dirs && k < |ms| && ms[k].targetDir == q;
      ClearFacts(fs0, desktop, ms, k, i);
    } else {
      var k :| 0 <= k < |ms| && k in done && Dest(ms[k]) == q;
      ClearFacts(fs0, desktop, ms, k, i);
      assert q[..|s|] == ms[k].targetDir;
    }
  }

  /** Moving the file of a done move back to its source succeeds, needs no new
      folder, and marks it pending again. */
  lemma LayoutMoveBack(fs0: FileMap, desktop: Path, ms: seq<Move>, done: set<int>, dirs: int, i: int, f: FileMap)
    requires Clear(fs0, desktop, ms) && 0 <= i < |ms| && i in done && Layout(fs0, ms, done, dirs, f)
    ensures Exists(f, Dest(ms[i]))
    ensures MakeDirs(f, Parent(ms[i].src)) == Ok(f)
    ensures ShutilMove(f, Dest(ms[i]), ms[i].src).Ok?
    ensures Layout(fs0, ms, done - {i}, dirs, ShutilMove(f, Dest(ms[i]), ms[i].src).value)
  {
    var s, d := ms[i].src, Dest(ms[i]);
    assert ClearMove(fs0, desktop, ms[i]);
    ClearFacts(fs0, desktop, ms, i, i);
    ClearApart(fs0, desktop, ms, i);
    assert Parent(s) == desktop;
    assert !IsSource(ms, desktop);
    assert IsDir(f, desktop);
    assert !Under(d, s);
    assert Leaf(f, d) by {
      forall q | q in f && Under(d, q) ensures q == d {
        if q in fs0 && q != d {
          AncestorsAreDirs(fs0, q, d);
        } else if q !in fs0 {
          assert NothingElse(fs0, ms, done, dirs, f);
          DestLeaf(fs0, desktop, ms, dirs, done, i, q);
        }
      }
    }
    MoveLeaf(f, d, s);
    LayoutUnmoveFile(fs0, ms, done, dirs, i, f);
  }

  lemma DestLeaf(fs0: FileMap, desktop: Path, ms: seq<Move>, dirs: int, done: set<int>, i: int, q: Path)
    requires Clear(fs0, desktop, ms) && 0 <= i < |ms|
    requires IsTarget(ms, dirs, q) || IsMovedDest(ms, done, q)
    ensures Under(Dest(ms[i]), q) ==> q == Dest(ms[i])
  {
    if IsTarget(ms, dirs, q) {
      var k :| 0 <= k < dirs && k < |ms| && ms[k].targetDir == q;
      ClearFacts(fs0, desktop, ms, k, i);
    } else {
      var k :| 0 <= k < |ms| && k in done && Dest(ms[k]) == q;
      ClearFacts(fs0, desktop, ms, k, i);
    }
  }

  /** The indices from `lo` up to, not including, `hi`. */
  function Between(lo: int, hi: int): (r: set<int>)
    ensures forall k :: k in r <==> lo <= k < hi
    decreases hi - lo
  {
    if lo >= hi then {} else {lo} + Between(lo + 1, hi)
  }

  /** After the first `i` iterations of a clear plan, those `i` files sit at
      their destinations, their folders exist, and nothing has failed. */
  lemma {:induction false} ExecuteLayout(fs0: FileMap, desktop: Path, ms: seq<Move>, i: int)
    requires Clear(fs0, desktop, ms) && 0 <= i <= |ms|
    ensures Execute(fs0, ms[..i]).failure.None?
    ensures Layout(fs0, ms, Between(0, i), i, Execute(fs0, ms[..i]).fs)
    decreases i
  {
    if i == 0 {
      LayoutStart(fs0, desktop, ms);
      assert ms[..0] == [];
    } else {
      ExecuteLayout(fs0, desktop, ms, i - 1);
      ExecuteStep(fs0, desktop, ms, i);
    }
  }

  lemma ExecuteStep(fs0: FileMap, desktop: Path, ms: seq<Move>, i: int)
    requires Clear(fs0, desktop, ms) && 0 < i <= |ms|
    requires Execute(fs0, ms[..i - 1]).failure.None?
    requires Layout(fs0, ms, Between(0, i - 1), i - 1, Execute(fs0, ms[..i - 1]).fs)
    ensures Execute(fs0, ms[..i]).failure.None?
    ensures Layout(fs0, ms, Between(0, i), i, Execute(fs0, ms[..i]).fs)
  {
    var r := Execute(fs0, ms[..i - 1]);
    var done := Between(0, i - 1);
    LayoutStep(fs0, desktop, ms, done, i - 1, r.fs);
    ExecuteSnoc(fs0, ms, i);
    BetweenGrows(0, i - 1);
  }

  /** Once an iteration has raised, the rest of the loop changes nothing. */
  lemma {:induction false} ExecuteStopped(fs: FileMap, ms: seq<Move>, i: int)
    requires 0 <= i <= |ms| && Execute(fs, ms[..i]).failure.Some?
    ensures Execute(fs, ms) == Execute(fs, ms[..i])
    decreases |ms| - i
  {
    if i < |ms| {
      ExecuteSnoc(fs, ms, i + 1);
      ExecuteStopped(fs, ms, i + 1);
    } else {
      assert ms[..i] == ms;
    }
  }

  lemma BetweenGrows(lo: int, hi: int)
    requires lo <= hi
    ensures Between(lo, hi) + {hi} == Between(lo, hi + 1)
    ensures Between(hi, hi + 1) == {hi}
  {
  }

  lemma ExecuteSnoc(fs: FileMap, ms: seq<Move>, i: int)
    requires 0 < i <= |ms|
    ensures Execute(fs, ms[..i]) == Next(Execute(fs, ms[..i - 1]), ms[i - 1])
  {
    var pre := ms[..i];
    assert pre[..i - 1] == ms[..i - 1] && pre[i - 1] == ms[i - 1];
  }

  /** One iteration of the real-mode loop on a clear plan succeeds and moves
      file `i` out. */
  lemma LayoutStep(fs0: FileMap, desktop: Path, ms: seq<Move>, done: set<int>, i: int, f: FileMap)
    requires Clear(fs0, desktop, ms) && 0 <= i < |ms| && i !in done && Layout(fs0, ms, done, i, f)
    ensures Step(f, ms[i]).failure.None?
    ensures Layout(fs0, ms, done + {i}, i + 1, Step(f, ms[i]).fs)
  {
    LayoutMkdir(fs0, desktop, ms, done, i, f);
    var f1 := Mkdir(f, ms[i].targetDir).value;
    LayoutMoveOut(fs0, desktop, ms, done, i + 1, i, f1);
  }

  /** Replaying the records of a finished clear plan, in log order, moves the
      files back one by one: after `i` records, the first `i` files are back at
      their sources, each counted as undone, none skipped. */
  lemma {:induction false} ReplayLayout(fs0: FileMap, desktop: Path, ms: seq<Move>, cwd: Path, f: FileMap, i: int)
    requires Clear(fs0, desktop, ms) && Layout(fs0, ms, Between(0, |ms|), |ms|, f) && 0 <= i <= |ms|
    requires forall k :: 0 <= k < |ms| ==> ValidPath(ms[k].src) && ValidPath(Dest(ms[k]))
    ensures Replay(f, cwd, Records(ms)[..i]).failure.None?
    ensures Replay(f, cwd, Records(ms)[..i]).undone == i && Replay(f, cwd, Records(ms)[..i]).skipped == 0
    ensures Layout(fs0, ms, Between(i, |ms|), |ms|, Replay(f, cwd, Records(ms)[..i]).fs)
    decreases i
  {
    if i == 0 {
      assert Records(ms)[..0] == [];
    } else {
      ReplayLayout(fs0, desktop, ms, cwd, f, i - 1);
      ReplayStep(fs0, desktop, ms, cwd, f, i);
    }
  }

  lemma ReplayStep(fs0: FileMap, desktop: Path, ms: seq<Move>, cwd: Path, f: FileMap, i: int)
    requires Clear(fs0, desktop, ms) && 0 < i <= |ms|
    requires forall k :: 0 <= k < |ms| ==> ValidPath(ms[k].src) && ValidPath(Dest(ms[k]))
    requires Replay(f, cwd, Records(ms)[..i - 1]).failure.None?
    requires Replay(f, cwd, Records(ms)[..i - 1]).undone == i - 1
    requires Replay(f, cwd, Records(ms)[..i - 1]).skipped == 0
    requires Layout(fs0, ms, Between(i - 1, |ms|), |ms|, Replay(f, cwd, Records(ms)[..i - 1]).fs)
    ensures Replay(f, cwd, Records(ms)[..i]).failure.None?
    ensures Replay(f, cwd, Records(ms)[..i]).undone == i && Replay(f, cwd, Records(ms)[..i]).skipped == 0
    ensures Layout(fs0, ms, Between(i, |ms|), |ms|, Replay(f, cwd, Records(ms)[..i]).fs)
  {
    var rs := Records(ms);
    var t := Replay(f, cwd, rs[..i - 1]);
    var m := ms[i - 1];
    var src, dest := m.src, Dest(m);
    PathStrRoundTrip(cwd, src);
    PathStrRoundTrip(cwd, dest);
    var rec := rs[i - 1];
    assert rec == Record(PathStr(src), PathStr(dest));
    var done := Between(i - 1, |ms|);
    LayoutMoveBack(fs0, desktop, ms, done, |ms|, i - 1, t.fs);
    var f' := ShutilMove(t.fs, dest, src).value;
    RestoreMovesBack(t, cwd, rec, src, dest);
    ReplaySnoc(f, cwd, rs, i);
    BetweenShrinks(i - 1, |ms|);
  }

  /** A record whose destination exists, whose source's parent is already a
      folder and whose move succeeds is counted as undone. */
  lemma RestoreMovesBack(t: Tally, cwd: Path, rec: Record, src: Path, dest: Path)
    requires t.failure.None? && Resolve(cwd, rec.src) == src && Resolve(cwd, rec.dest) == dest
    requires Exists(t.fs, dest) && MakeDirs(t.fs, Parent(src)) == Ok(t.fs) && ShutilMove(t.fs, dest, src).Ok?
    ensures Restore(t, cwd, rec) == Tally(ShutilMove(t.fs, dest, src).value, t.undone + 1, t.skipped, None)
  {
  }

  lemma BetweenShrinks(lo: int, hi: int)
    requires lo < hi
    ensures Between(lo, hi) - {lo} == Between(lo + 1, hi)
  {
  }

  /** Once a record has raised, the remaining records change nothing. */
  lemma {:induction false} ReplayStopped(fs: FileMap, cwd: Path, rs: seq<Record>, i: int)
    requires 0 <= i <= |rs| && Replay(fs, cwd, rs[..i]).failure.Some?
    ensures Replay(fs, cwd, rs) == Replay(fs, cwd, rs[..i])
    decreases |rs| - i
  {
    if i < |rs| {
      ReplaySnoc(fs, cwd, rs, i + 1);
      ReplayStopped(fs, cwd, rs, i + 1);
    } else {
      assert rs[..i] == rs;
    }
  }

  lemma ReplaySnoc(fs: FileMap, cwd: Path, rs: seq<Record>, i: int)
    requires 0 < i <= |rs|
    ensures Replay(fs, cwd, rs[..i]) == Restore(Replay(fs, cwd, rs[..i - 1]), cwd, rs[i - 1])
  {
    var pre := rs[..i];
    assert pre[..i - 1] == rs[..i - 1] && pre[i - 1] == rs[i - 1];
  }

  // ---------------------------------------------------------------------------
  // What the two loops do to a clear plan
  // ---------------------------------------------------------------------------

  /** The real-mode loop runs a clear plan to the end: every file is gone from
      its source and sits, unchanged, at its destination; every target folder is
      a folder; every other path keeps what it held; and nothing else appears. */
  lemma ExecuteClear(fs0: FileMap, desktop: Path, ms: seq<Move>)
    requires Clear(fs0, desktop, ms)
    ensures Execute(fs0, ms).failure.None?
    ensures AllMoved(fs0, ms, Execute(fs0, ms).fs)
  {
    ExecuteLayout(fs0, desktop, ms, |ms|);
    assert ms[..|ms|] == ms;
    var f := Execute(fs0, ms).fs;
    LayoutAllMoved(fs0, ms, f);
  }

  /** `f` is `fs0` after every move of `ms`. */
  predicate AllMoved(fs0: FileMap, ms: seq<Move>, f: FileMap) {
    && (forall k :: 0 <= k < |ms| ==>
          ms[k].src in fs0 && ms[k].src !in f && Dest(ms[k]) in f && f[Dest(ms[k])] == fs0[ms[k].src])
    && (forall k :: 0 <= k < |ms| ==> IsDir(f, ms[k].targetDir))
    && (forall p :: p in fs0 && !IsSource(ms, p) ==> p in f && f[p] == fs0[p])
    && (forall p :: p in f ==> p in fs0 || IsTarget(ms, |ms|, p) || IsMovedDest(ms, Between(0, |ms|), p))
  }

  /** `g` holds everything `fs0` held, plus at most the target folders of `ms`. */
  predicate Restored(fs0: FileMap, ms: seq<Move>, g: FileMap) {
    && (forall p :: p in fs0 ==> p in g && g[p] == fs0[p])
    && (forall p :: p in g ==> p in fs0 || IsTarget(ms, |ms|, p))
  }

  lemma LayoutAllMoved(fs0: FileMap, ms: seq<Move>, f: FileMap)
    requires Layout(fs0, ms, Between(0, |ms|), |ms|, f)
    ensures AllMoved(fs0, ms, f)
  {
    var all := Between(0, |ms|);
    forall k | 0 <= k < |ms|
      ensures ms[k].src in fs0 && ms[k].src !in f && Dest(ms[k]) in f && f[Dest(ms[k])] == fs0[ms[k].src]
      ensures IsDir(f, ms[k].targetDir)
    {
      assert k in all;
    }
  }

  lemma LayoutRestored(fs0: FileMap, ms: seq<Move>, g: FileMap)
    requires Layout(fs0, ms, Between(|ms|, |ms|), |ms|, g)
    ensures Restored(fs0, ms, g)
  {
    forall p | p in fs0 ensures p in g && g[p] == fs0[p] {
      if IsSource(ms, p) {
        var k :| 0 <= k < |ms| && ms[k].src == p;
      }
    }
  }

  /** Undoing a clear plan right after running it, with the records its log
      holds, moves every file back: all records count as undone, none as
      skipped, every path of the original file system holds what it held, and
      the only paths left over are the category folders the run created. */
  lemma UndoAfterExecute(fs0: FileMap, desktop: Path, ms: seq<Move>, cwd: Path)
    requires Clear(fs0, desktop, ms)
    requires forall k :: 0 <= k < |ms| ==> ValidPath(ms[k].src) && ValidPath(Dest(ms[k]))
    ensures Replay(Execute(fs0, ms).fs, cwd, Records(ms)).failure.None?
    ensures Replay(Execute(fs0, ms).fs, cwd, Records(ms)).undone == |ms|
    ensures Replay(Execute(fs0, ms).fs, cwd, Records(ms)).skipped == 0
    ensures Restored(fs0, ms, Replay(Execute(fs0, ms).fs, cwd, Records(ms)).fs)
  {
    ExecuteLayout(fs0, desktop, ms, |ms|);
    assert ms[..|ms|] == ms;
    ReplayAll(fs0, desktop, ms, cwd, Execute(fs0, ms).fs);
  }

  lemma ReplayAll(fs0: FileMap, desktop: Path, ms: seq<Move>, cwd: Path, f: FileMap)
    requires Clear(fs0, desktop, ms) && Layout(fs0, ms, Between(0, |ms|), |ms|, f)
    requires forall k :: 0 <= k < |ms| ==> ValidPath(ms[k].src) && ValidPath(Dest(ms[k]))
    ensures Replay(f, cwd, Records(ms)).failure.None?
    ensures Replay(f, cwd, Records(ms)).undone == |ms| && Replay(f, cwd, Records(ms)).skipped == 0
    ensures Restored(fs0, ms, Replay(f, cwd, Records(ms)).fs)
  {
    var rs := Records(ms);
    assert rs[..|ms|] == rs;
    ReplayLayout(fs0, desktop, ms, cwd, f, |ms|);
    var t := Replay(f, cwd, rs);
    assert t.failure.None? && t.undone == |ms| && t.skipped == 0;
    assert Layout(fs0, ms, Between(|ms|, |ms|), |ms|, t.fs);
    LayoutRestored(fs0, ms, t.fs);
  }
}
