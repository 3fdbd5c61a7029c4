/** Absolute POSIX paths as `pathlib` presents them: a path is its list of
    components, the root `/` is the empty list, `p / n` appends a component,
    `str(p)` writes the components after a `/` each, and `Path(s)` reads a
    string back. */
module Paths {
  import opened Text

  type Path = seq<string>

  /** `Path.name`: the last component, empty for the root. */
  function Name(p: Path): string {
    if p == [] then "" else p[|p| - 1]
  }

  /** `Path.parent`: the root is its own parent. */
  function Parent(p: Path): (q: Path)
    ensures p != [] ==> p == q + [Name(p)]
  {
    if p == [] then [] else p[..|p| - 1]
  }

  /** `q` is `p` itself or lies somewhere beneath it. */
  predicate Under(p: Path, q: Path) {
    |p| <= |q| && q[..|p|] == p
  }

  /** `q` lies beneath `p` or is `p` exactly when it lies beneath or is the
      parent of `p`, or is `p` itself. */
  lemma UnderParent(q: Path, p: Path)
    requires p != []
    ensures Under(q, p) && q != p <==> Under(q, Parent(p))
  {
    if Under(q, Parent(p)) {
      assert p[..|q|] == Parent(p)[..|q|];
    }
    if Under(q, p) && q != p {
      assert |q| != |p|;
      assert Parent(p)[..|q|] == p[..|q|];
    }
  }

  lemma UnderTransitive(a: Path, b: Path, c: Path)
    requires Under(a, b) && Under(b, c)
    ensures Under(a, c)
  {
    assert c[..|a|] == c[..|b|][..|a|];
  }

  /** A component a directory listing can hold and that `str`/`Path` keep as it is. */
  predicate ValidName(n: string) {
    n != "" && n != "." && n != ".." && '/' !in n
  }

  predicate ValidPath(p: Path) {
    forall i :: 0 <= i < |p| ==> ValidName(p[i])
  }

  /** The components separated by `/`. */
  function Joined(p: Path): string {
    if p == [] then "" else if |p| == 1 then p[0] else p[0] + "/" + Joined(p[1..])
  }

  /** `str(p)` for an absolute path. */
  function PathStr(p: Path): (s: string)
    ensures s != [] && s[0] == '/'
  {
    "/" + Joined(p)
  }

  /** Follows the pieces of a path string from `base`: empty and `.` pieces are
      dropped and `..` goes up one level (as the file system resolves it). */
  function Walk(base: Path, pieces: seq<string>): (p: Path)
    ensures ValidPath(base) && (forall k :: 0 <= k < |pieces| ==> '/' !in pieces[k]) ==> ValidPath(p)
    decreases |pieces|
  {
    if pieces == [] then base
    else
      var piece := pieces[0];
      var next := if piece == "" || piece == "." then base
                  else if piece == ".." then Parent(base)
                  else base + [piece];
      Walk(next, pieces[1..])
  }

  /** The path `Path(s)` names when the process runs in `cwd`. */
  function Resolve(cwd: Path, s: string): (p: Path)
    ensures ValidPath(cwd) ==> ValidPath(p)
  {
    Walk(if StartsWith(s, "/") then [] else cwd, Split(s, {'/'}))
  }

  lemma {:induction false} WalkValid(base: Path, p: Path)
    requires ValidPath(p)
    ensures Walk(base, p) == base + p
    decreases |p|
  {
    if p != [] {
      WalkValid(base + [p[0]], p[1..]);
      assert base + [p[0]] + p[1..] == base + p;
    }
  }

  lemma {:induction false} SplitJoined(p: Path)
    requires p != [] && ValidPath(p)
    ensures Split(Joined(p), {'/'}) == p
    decreases |p|
  {
    if |p| == 1 {
      assert ValidName(p[0]);
      SplitNone(p[0], {'/'});
    } else {
      ValidTail(p);
      SplitJoined(p[1..]);
      SplitFirst(p);
    }
  }

  /** Splitting a path of several components cuts its first component off. */
  lemma SplitFirst(p: Path)
    requires |p| > 1 && ValidPath(p)
    ensures Split(Joined(p), {'/'}) == [p[0]] + Split(Joined(p[1..]), {'/'})
  {
    assert ValidName(p[0]);
    assert Joined(p) == p[0] + ['/'] + Joined(p[1..]);
    SplitCons(p[0], '/', Joined(p[1..]), {'/'});
  }

  /** The components after the first of a valid path form a valid path. */
  lemma ValidTail(p: Path)
    requires p != [] && ValidPath(p)
    ensures ValidPath(p[1..])
  {
    forall i | 0 <= i < |p| - 1 ensures ValidName(p[1..][i]) {
      assert p[1..][i] == p[i + 1];
    }
  }

  /** Reading back what `str` wrote gives the same path, whatever the working
      directory: `Path(str(p)) == p` for paths made of valid components. */
  lemma PathStrRoundTrip(cwd: Path, p: Path)
    requires ValidPath(p)
    ensures Resolve(cwd, PathStr(p)) == p
  {
    var s := PathStr(p);
    assert StartsWith(s, "/");
    SplitCons("", '/', Joined(p), {'/'});
    assert s == "" + ['/'] + Joined(p);
    if p == [] {
      SplitNone("", {'/'});
      assert Split(s, {'/'}) == ["", ""];
      assert Walk([], ["", ""]) == Walk([], [""]) == [];
    } else {
      SplitJoined(p);
      assert Split(s, {'/'}) == [""] + p;
      WalkValid([], p);
    }
  }

  /** A character other than `/` occurs in `str(p)` only if some component
      holds it. */
  lemma {:induction false} JoinedChars(p: Path, c: char)
    requires c != '/'
    requires forall i :: 0 <= i < |p| ==> c !in p[i]
    ensures c !in Joined(p)
    decreases |p|
  {
    if |p| > 1 {
      JoinedChars(p[1..], c);
    }
  }

  lemma PathStrChars(p: Path, c: char)
    requires c != '/'
    requires forall i :: 0 <= i < |p| ==> c !in p[i]
    ensures c !in PathStr(p)
  {
    JoinedChars(p, c);
  }

  /** `str(p)` ends with `p.name`. */
  lemma {:induction false} JoinedEndsWithName(p: Path)
    ensures |Name(p)| <= |Joined(p)|
    ensures Joined(p)[|Joined(p)| - |Name(p)|..] == Name(p)
    decreases |p|
  {
    if |p| > 1 {
      JoinedEndsWithName(p[1..]);
      assert Name(p[1..]) == Name(p);
      var j := Joined(p[1..]);
      assert Joined(p) == p[0] + "/" + j;
      assert Joined(p)[|Joined(p)| - |Name(p)|..] == j[|j| - |Name(p)|..];
    }
  }

  lemma PathStrEndsWithName(p: Path)
    ensures |Name(p)| < |PathStr(p)|
    ensures PathStr(p)[|PathStr(p)| - |Name(p)|..] == Name(p)
  {
    JoinedEndsWithName(p);
    var j := Joined(p);
    assert PathStr(p)[|PathStr(p)| - |Name(p)|..] == j[|j| - |Name(p)|..];
  }
}
