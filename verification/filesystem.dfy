/** The part of the file system the cleaner touches, as a map from absolute
    paths to what sits there, with the three operations it calls:
    `Path.mkdir(exist_ok=True)`, `Path.mkdir(parents=True, exist_ok=True)` and
    `shutil.move`. Each returns the new map or the exception it raises. */
module FileSystem {
  import opened Paths

  /** A regular file, known by its contents, or a directory. */
  datatype Node = File(content: nat) | Dir

  /** Every path that exists, except the root, which always exists and is a
      directory. */
  type FileMap = map<Path, Node>

  predicate Exists(fs: FileMap, p: Path) {
    p == [] || p in fs
  }

  predicate IsDir(fs: FileMap, p: Path) {
    p == [] || (p in fs && fs[p].Dir?)
  }

  /** Every entry sits in a directory that exists. */
  predicate WellFormed(fs: FileMap) {
    [] !in fs && forall p {:trigger Parent(p)} :: p in fs ==> IsDir(fs, Parent(p))
  }

  /** The exceptions the three operations raise, by cause. */
  datatype Error =
    | Blocked(path: Path)        // a file sits where a directory is wanted
    | MissingParent(path: Path)  // the containing directory is missing or is a file
    | MissingSource(path: Path)  // nothing to move
    | IntoItself(path: Path)     // a directory moved into its own subtree
    | Occupied(path: Path)       // the path a move would create already exists
    | Unlistable(path: Path)     // the directory to list is missing or is a file

  datatype Result<T> = Ok(value: T) | Err(error: Error)

  // ---------------------------------------------------------------------------
  // mkdir
  // ---------------------------------------------------------------------------

  /** `p.mkdir(exist_ok=True)`: nothing happens for an existing directory; a file
      in the way raises, and so does a missing parent. */
  function Mkdir(fs: FileMap, p: Path): (r: Result<FileMap>)
    ensures r.Ok? <==> IsDir(fs, p) || (p !in fs && IsDir(fs, Parent(p)))
    ensures r.Ok? ==> IsDir(r.value, p)
    ensures r.Ok? ==> forall q :: q != p ==> (q in r.value <==> q in fs) && (q in fs ==> r.value[q] == fs[q])
  {
    if IsDir(fs, p) then Ok(fs)
    else if p in fs then Err(Blocked(p))
    else if !IsDir(fs, Parent(p)) then Err(MissingParent(p))
    else Ok(fs[p := Dir])
  }

  /** Creating a directory a second time changes nothing: `exist_ok=True`. */
  lemma MkdirIdempotent(fs: FileMap, p: Path)
    requires Mkdir(fs, p).Ok?
    ensures Mkdir(Mkdir(fs, p).value, p) == Mkdir(fs, p)
  {
  }

  lemma MkdirKeepsWellFormed(fs: FileMap, p: Path)
    requires WellFormed(fs) && Mkdir(fs, p).Ok?
    ensures WellFormed(Mkdir(fs, p).value)
  {
    var r := Mkdir(fs, p).value;
    forall q | q in r ensures IsDir(r, Parent(q)) {
      if q != p {
        assert IsDir(fs, Parent(q));
        if Parent(q) != p {
          assert IsDir(r, Parent(q));
        }
      }
    }
  }

  /** `p.mkdir(parents=True, exist_ok=True)`: creates the missing directories
      from the top down; a file anywhere on the way raises. */
  function MakeDirs(fs: FileMap, p: Path): (r: Result<FileMap>)
    ensures r.Ok? ==> IsDir(r.value, p)
    ensures r.Ok? ==> forall q :: q in fs ==> q in r.value && r.value[q] == fs[q]
    ensures r.Ok? ==> forall q :: q in r.value && q !in fs ==> Under(q, p) && r.value[q] == Dir
    decreases |p|
  {
    if IsDir(fs, p) then Ok(fs)
    else if p in fs then Err(Blocked(p))
    else if Exists(fs, Parent(p)) then Mkdir(fs, p)
    else
      match MakeDirs(fs, Parent(p))
      case Err(e) => Err(e)
      case Ok(fs') => Mkdir(fs', p)
  }

  /** Under a well-formed map, every ancestor of an entry is a directory. */
  lemma {:induction false} AncestorsAreDirs(fs: FileMap, p: Path, q: Path)
    requires WellFormed(fs) && p in fs && Under(q, p) && q != p
    ensures IsDir(fs, q)
    decreases |p|
  {
    var up := Parent(p);
    if up != q {
      assert Under(q, up) by {
        assert up == p[..|p| - 1];
        assert up[..|q|] == p[..|q|];
      }
      AncestorsAreDirs(fs, up, q);
    }
  }

  /** On a well-formed map, `MakeDirs` succeeds exactly when no file lies on the
      way from the root to `p` (`p` included). */
  lemma {:induction false} MakeDirsSucceeds(fs: FileMap, p: Path)
    requires WellFormed(fs)
    ensures MakeDirs(fs, p).Ok? <==> forall q :: Under(q, p) && q in fs ==> fs[q].Dir?
    decreases |p|
  {
    if IsDir(fs, p) {
      forall q | Under(q, p) && q in fs ensures fs[q].Dir? {
        if q != p {
          AncestorsAreDirs(fs, p, q);
        }
      }
    } else if p in fs {
      assert Under(p, p);
    } else {
      var up := Parent(p);
      assert Under(up, p) by {
        UnderParent(up, p);
      }
      // Below `p` nothing exists, so the way to `p` is the way to its parent.
      assert forall q :: Under(q, p) && q in fs ==> Under(q, up) by {
        forall q | Under(q, p) && q in fs ensures Under(q, up) {
          UnderParent(q, p);
        }
      }
      if Exists(fs, up) {
        if IsDir(fs, up) {
          forall q | Under(q, p) && q in fs ensures fs[q].Dir? {
            if q != up {
              AncestorsAreDirs(fs, up, q);
            }
          }
        }
      } else {
        MakeDirsSucceeds(fs, up);
        forall q | Under(q, up) ensures Under(q, p) {
          UnderTransitive(q, up, p);
        }
      }
    }
  }

  lemma {:induction false} MakeDirsKeepsWellFormed(fs: FileMap, p: Path)
    requires WellFormed(fs) && MakeDirs(fs, p).Ok?
    ensures WellFormed(MakeDirs(fs, p).value)
    decreases |p|
  {
    if !IsDir(fs, p) && p !in fs {
      if Exists(fs, Parent(p)) {
        MkdirKeepsWellFormed(fs, p);
      } else {
        MakeDirsKeepsWellFormed(fs, Parent(p));
        MkdirKeepsWellFormed(MakeDirs(fs, Parent(p)).value, p);
      }
    }
  }

  // ---------------------------------------------------------------------------
  // shutil.move
  // ---------------------------------------------------------------------------

  /** Where `p`, beneath `from`, lands when `from` becomes `to`. */
  function Relocated(from: Path, to: Path, p: Path): (q: Path)
    requires Under(from, p)
    ensures Under(to, q) && from + q[|to|..] == p
  {
    var q := to + p[|from|..];
    assert q[|to|..] == p[|from|..];
    assert p == p[..|from|] + p[|from|..];
    q
  }

  /** Renames `from` to `to` together with everything beneath it. */
  function Rename(fs: FileMap, from: Path, to: Path): FileMap {
    var kept := map p | p in fs && !Under(from, p) :: fs[p];
    var moved := map p | p in fs && Under(from, p) :: Relocated(from, to, p) := fs[p];
    kept + moved
  }

  /** After a rename the entries are those outside the subtree of `from`, and
      those beneath `to` that match an entry beneath `from`. */
  lemma RenameKeys(fs: FileMap, from: Path, to: Path)
    ensures forall q :: q in Rename(fs, from, to) <==>
              (q in fs && !Under(from, q)) || (Under(to, q) && from + q[|to|..] in fs)
  {
    RenameMoved(fs, from, to);
  }

  /** An entry beneath `to` holds what the matching entry beneath `from` held. */
  lemma RenameMoved(fs: FileMap, from: Path, to: Path)
    ensures forall q :: Under(to, q) && from + q[|to|..] in fs ==>
              q in Rename(fs, from, to) && Rename(fs, from, to)[q] == fs[from + q[|to|..]]
  {
    var r := Rename(fs, from, to);
    forall q | Under(to, q) && from + q[|to|..] in fs
      ensures q in r && r[q] == fs[from + q[|to|..]]
    {
      var p := from + q[|to|..];
      assert p[..|from|] == from;
      assert p[|from|..] == q[|to|..];
      assert q == to + q[|to|..];
      assert Relocated(from, to, p) == q;
    }
  }

  /** Entries outside both subtrees stay as they were. */
  lemma RenameKept(fs: FileMap, from: Path, to: Path)
    ensures forall q :: q in fs && !Under(from, q) && !Under(to, q) ==> Rename(fs, from, to)[q] == fs[q]
  {
  }

  /** `os.rename(from, to)` onto a path that does not exist, with the fallback
      `shutil.move` takes when the rename fails: a directory is copied to `to`,
      which creates the missing parents of `to`, and then deleted; a file is
      copied, which needs the parent of `to` to be a directory. */
  function RenameTo(fs: FileMap, from: Path, to: Path): Result<FileMap> {
    if !Exists(fs, from) then Err(MissingSource(from))
    else if Under(from, to) then Err(IntoItself(from))
    else if IsDir(fs, Parent(to)) then Ok(Rename(fs, from, to))
    else if fs[from].File? then Err(MissingParent(to))
    else
      match MakeDirs(fs, Parent(to))
      case Err(e) => Err(e)
      case Ok(fs') => Ok(Rename(fs', from, to))
  }

  /** `shutil.move(from, to)`: onto an existing directory the entry moves inside
      it, under its own name, unless that name is taken; onto an existing file a
      file replaces it, as `os.rename` does on POSIX, and anything else fails;
      a move onto itself changes nothing. */
  function ShutilMove(fs: FileMap, from: Path, to: Path): Result<FileMap> {
    if IsDir(fs, to) then
      if from == to then Ok(fs)
      else
        var inside := if from == [] then to else to + [Name(from)];
        if Exists(fs, inside) then Err(Occupied(inside)) else RenameTo(fs, from, inside)
    else if to in fs then
      if from == to then Ok(fs)
      else if from !in fs then Err(if from == [] then IntoItself(from) else MissingSource(from))
      else if fs[from].File? then Ok((fs - {from})[to := fs[from]])
      else if Under(from, to) then Err(IntoItself(from))
      else Err(Occupied(to))
    else RenameTo(fs, from, to)
  }

  /** Nothing lies beneath `p`. */
  predicate Leaf(fs: FileMap, p: Path) {
    forall q :: q in fs && Under(p, q) ==> q == p
  }

  /** A file of a well-formed map has nothing beneath it. */
  lemma FileIsLeaf(fs: FileMap, p: Path)
    requires WellFormed(fs) && p in fs && fs[p].File?
    ensures Leaf(fs, p)
  {
    forall q | q in fs && Under(p, q) ensures q == p {
      if q != p {
        AncestorsAreDirs(fs, q, p);
      }
    }
  }

  /** Moving an entry with nothing beneath it takes it off its old path and puts
      it, unchanged, at the new one; every other entry stays. */
  lemma MoveLeaf(fs: FileMap, from: Path, to: Path)
    requires from in fs && fs[from].File? && Leaf(fs, from) && !Exists(fs, to) && ShutilMove(fs, from, to).Ok?
    ensures ShutilMove(fs, from, to).value == (fs - {from})[to := fs[from]]
  {
    var r := Rename(fs, from, to);
    var e := (fs - {from})[to := fs[from]];
    RenameKeys(fs, from, to);
    RenameMoved(fs, from, to);
    RenameKept(fs, from, to);
    assert from + to[|to|..] == from;
    forall q | Under(to, q) && from + q[|to|..] in fs ensures q == to {
      var p := from + q[|to|..];
      assert Under(from, p);
      assert |p| == |from|;
    }
    forall q ensures q in r <==> q in e {
    }
    assert r.Keys == e.Keys;
  }

  /** `shutil.move` keeps the map well formed, directories included: the whole
      subtree moves along. */
  lemma MoveKeepsWellFormed(fs: FileMap, from: Path, to: Path)
    requires WellFormed(fs) && ShutilMove(fs, from, to).Ok?
    ensures WellFormed(ShutilMove(fs, from, to).value)
  {
    if IsDir(fs, to) {
      if from != to {
        var inside := if from == [] then to else to + [Name(from)];
        RenameToKeepsWellFormed(fs, from, inside);
      }
    } else if to in fs {
      if from != to {
        ReplaceKeepsWellFormed(fs, from, to);
      }
    } else {
      RenameToKeepsWellFormed(fs, from, to);
    }
  }

  lemma ReplaceKeepsWellFormed(fs: FileMap, from: Path, to: Path)
    requires WellFormed(fs) && from in fs && fs[from].File? && to in fs && fs[to].File? && from != to
    ensures WellFormed((fs - {from})[to := fs[from]])
  {
    var r := (fs - {from})[to := fs[from]];
    forall q | q in r ensures IsDir(r, Parent(q)) {
      // The parent is a directory of `fs`, so neither of the two files.
      assert q in fs;
      var pq := Parent(q);
      if pq != [] {
        assert pq in fs && fs[pq].Dir?;
        assert pq != from && pq != to;
        assert pq in r && r[pq] == fs[pq];
      }
    }
  }

  lemma RenameToKeepsWellFormed(fs: FileMap, from: Path, to: Path)
    requires WellFormed(fs) && !Exists(fs, to) && RenameTo(fs, from, to).Ok?
    ensures WellFormed(RenameTo(fs, from, to).value)
  {
    if !IsDir(fs, Parent(to)) {
      MakeDirsKeepsWellFormed(fs, Parent(to));
      var fs' := MakeDirs(fs, Parent(to)).value;
      RenameKeepsWellFormed(fs', from, to);
    } else {
      RenameKeepsWellFormed(fs, from, to);
    }
  }

  lemma RenameKeepsWellFormed(fs: FileMap, from: Path, to: Path)
    requires WellFormed(fs) && Exists(fs, from) && !Exists(fs, to) && !Under(from, to) && IsDir(fs, Parent(to))
    ensures WellFormed(Rename(fs, from, to))
  {
    var r := Rename(fs, from, to);
    assert from != [] by {
      assert Under([], to);
    }
    // No entry lies beneath `to`: it would make `to` exist.
    forall k | k in fs ensures !Under(to, k) {
      if Under(to, k) && k != to {
        AncestorsAreDirs(fs, k, to);
      }
    }
    RenameKeys(fs, from, to);
    forall q | q in r ensures IsDir(r, Parent(q)) {
      if q in fs && !Under(from, q) {
        KeptParent(fs, from, to, q);
      } else if q == to {
        MovedRootParent(fs, from, to);
      } else {
        MovedParent(fs, from, to, q);
      }
    }
  }

  lemma KeptParent(fs: FileMap, from: Path, to: Path, q: Path)
    requires WellFormed(fs) && forall k :: k in fs ==> !Under(to, k)
    requires q in fs && !Under(from, q)
    ensures IsDir(Rename(fs, from, to), Parent(q))
  {
    var up := Parent(q);
    if up != [] {
      RenameKeys(fs, from, to);
      RenameKept(fs, from, to);
      assert !Under(from, up) by {
        UnderParent(from, q);
      }
    }
  }

  lemma MovedRootParent(fs: FileMap, from: Path, to: Path)
    requires WellFormed(fs) && !Under(from, to) && IsDir(fs, Parent(to))
    requires forall k :: k in fs ==> !Under(to, k)
    ensures IsDir(Rename(fs, from, to), Parent(to))
  {
    var up := Parent(to);
    if up != [] {
      assert !Under(from, up) by {
        if Under(from, up) {
          UnderParent(up, to);
          UnderTransitive(from, up, to);
        }
      }
      RenameKeys(fs, from, to);
      RenameKept(fs, from, to);
    }
  }

  lemma MovedParent(fs: FileMap, from: Path, to: Path, q: Path)
    requires WellFormed(fs) && from != []
    requires Under(to, q) && q != to && from + q[|to|..] in fs
    ensures IsDir(Rename(fs, from, to), Parent(q))
  {
    var up := Parent(q);
    var p := from + q[|to|..];
    assert |q| > |to|;
    UnderParent(to, q);
    assert from + up[|to|..] == Parent(p);
    AncestorsAreDirs(fs, p, Parent(p)) by {
      assert Under(Parent(p), p) && Parent(p) != p;
    }
    RenameKeys(fs, from, to);
    RenameMoved(fs, from, to);
  }
}
