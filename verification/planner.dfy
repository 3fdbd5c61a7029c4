/** `iter_desktop_files` and `plan_moves`: which entries of the desktop get
    organised, and the category folder each one goes to. The order of a listing
    is whatever order the operating system returns, so it is an input. */
module Planner {
  import opened Paths
  import opened Categories

  /** One entry of a directory listing: its name, and whether it is a directory. */
  datatype Entry = Entry(name: string, isDir: bool)

  /** One planned move: the file, and the category folder it goes into. */
  datatype Move = Move(src: Path, targetDir: Path)

  /** Where a move puts its file: `target_dir / src.name`. */
  function Dest(m: Move): Path {
    m.targetDir + [Name(m.src)]
  }

  /** `name.startswith(".")`. */
  predicate Hidden(name: string) {
    |name| > 0 && name[0] == '.'
  }

  /** An entry the cleaner organises: not a directory and not hidden. */
  predicate Organizable(e: Entry) {
    !e.isDir && !Hidden(e.name)
  }

  /** `iter_desktop_files`: the organisable entries of `listing`, as paths under
      `desktop`, in listing order. */
  function DesktopFiles(desktop: Path, listing: seq<Entry>): (files: seq<Path>)
    ensures |files| <= |listing|
  {
    if listing == [] then []
    else
      (if Organizable(listing[0]) then [desktop + [listing[0].name]] else [])
      + DesktopFiles(desktop, listing[1..])
  }

  /** The files yielded are exactly the organisable entries of the listing. */
  lemma {:induction false} DesktopFilesMembers(desktop: Path, listing: seq<Entry>)
    ensures forall f :: f in DesktopFiles(desktop, listing) ==>
              exists k :: 0 <= k < |listing| && Organizable(listing[k]) && f == desktop + [listing[k].name]
    ensures forall k :: 0 <= k < |listing| && Organizable(listing[k]) ==>
              desktop + [listing[k].name] in DesktopFiles(desktop, listing)
    decreases |listing|
  {
    if listing != [] {
      var rest := listing[1..];
      DesktopFilesMembers(desktop, rest);
      var head := if Organizable(listing[0]) then [desktop + [listing[0].name]] else [];
      var files := DesktopFiles(desktop, listing);
      assert files == head + DesktopFiles(desktop, rest);
      forall f | f in files
        ensures exists k :: 0 <= k < |listing| && Organizable(listing[k]) && f == desktop + [listing[k].name]
      {
        if f !in head {
          var k :| 0 <= k < |rest| && Organizable(rest[k]) && f == desktop + [rest[k].name];
          assert listing[k + 1] == rest[k];
        }
      }
      forall k | 0 <= k < |listing| && Organizable(listing[k])
        ensures desktop + [listing[k].name] in files
      {
        if k > 0 {
          assert rest[k - 1] == listing[k];
        }
      }
    }
  }

  /** Filtering a listing piece by piece gives the same files in the same order
      as filtering it whole: the filter keeps listing order. */
  lemma {:induction false} DesktopFilesAppend(desktop: Path, a: seq<Entry>, b: seq<Entry>)
    ensures DesktopFiles(desktop, a + b) == DesktopFiles(desktop, a) + DesktopFiles(desktop, b)
    decreases |a|
  {
    if a != [] {
      DesktopFilesAppend(desktop, a[1..], b);
      assert (a + b)[1..] == a[1..] + b;
    } else {
      assert a + b == b;
    }
  }

  /** A listing never names an entry twice, so no file is planned twice. */
  lemma {:induction false} DesktopFilesDistinct(desktop: Path, listing: seq<Entry>)
    requires forall j, k :: 0 <= j < k < |listing| ==> listing[j].name != listing[k].name
    ensures forall j, k :: 0 <= j < k < |DesktopFiles(desktop, listing)| ==>
              DesktopFiles(desktop, listing)[j] != DesktopFiles(desktop, listing)[k]
    decreases |listing|
  {
    if listing != [] {
      var rest := listing[1..];
      assert forall j, k :: 0 <= j < k < |rest| ==> rest[j].name != rest[k].name by {
        forall j, k | 0 <= j < k < |rest| ensures rest[j].name != rest[k].name {
          assert rest[j] == listing[j + 1] && rest[k] == listing[k + 1];
        }
      }
      DesktopFilesDistinct(desktop, rest);
      var tail := DesktopFiles(desktop, rest);
      assert forall k :: 0 <= k < |rest| ==> rest[k].name != listing[0].name by {
        forall k | 0 <= k < |rest| ensures rest[k].name != listing[0].name {
          assert rest[k] == listing[k + 1];
        }
      }
      NameNotListed(desktop, rest, listing[0].name);
      var head := if Organizable(listing[0]) then [desktop + [listing[0].name]] else [];
      var files := DesktopFiles(desktop, listing);
      assert files == head + tail;
      forall j, k | 0 <= j < k < |files| ensures files[j] != files[k] {
        if j >= |head| {
          assert files[j] == tail[j - |head|] && files[k] == tail[k - |head|];
        } else {
          assert files[k] == tail[k - 1] && tail[k - 1] in tail;
        }
      }
    }
  }

  /** A name the listing does not hold yields no file of that name. */
  lemma {:induction false} NameNotListed(desktop: Path, listing: seq<Entry>, n: string)
    requires forall k :: 0 <= k < |listing| ==> listing[k].name != n
    ensures desktop + [n] !in DesktopFiles(desktop, listing)
    decreases |listing|
  {
    if listing != [] {
      NameNotListed(desktop, listing[1..], n);
      var x, y := desktop + [listing[0].name], desktop + [n];
      assert x[|desktop|] != y[|desktop|];
    }
  }

  /** A folder name that is a valid path component and safe for the log. */
  predicate PlainName(n: string) {
    ValidName(n) && '|' !in n && '\n' !in n && '\r' !in n
  }

  /** The category folders have plain names, safe for the log. */
  lemma CategoryNames(name: string)
    ensures PlainName(Classify(name))
  {
    ClassifyIsFolder(name);
    FoldersPlain();
  }

  lemma FoldersPlain()
    ensures forall n :: n in Folders ==> PlainName(n)
  {
    forall n | n in Folders ensures PlainName(n) {
      LettersPlain(n);
    }
  }

  /** A non-empty name of ASCII letters only is plain. */
  lemma LettersPlain(n: string)
    requires n != [] && forall i :: 0 <= i < |n| ==> 'A' <= n[i] <= 'Z' || 'a' <= n[i] <= 'z'
    ensures PlainName(n)
  {
    assert n[0] != '.';
  }

  /** The folder a file goes to: `desktop / classify_file(src)`. */
  function TargetFor(desktop: Path, src: Path): Path {
    desktop + [Classify(Name(src))]
  }

  /** The list `plan_moves` returns. */
  function Plan(desktop: Path, listing: seq<Entry>): (moves: seq<Move>)
    ensures |moves| == |DesktopFiles(desktop, listing)|
  {
    var files := DesktopFiles(desktop, listing);
    seq(|files|, k requires 0 <= k < |files| => Move(files[k], TargetFor(desktop, files[k])))
  }

  /** The plan of a longer listing extends the plan of its prefix by the move
      of the new entry, if that entry is organised at all. */
  lemma PlanAppend(desktop: Path, listing: seq<Entry>, e: Entry)
    ensures Plan(desktop, listing + [e]) ==
            Plan(desktop, listing) + if Organizable(e) then [Move(desktop + [e.name], desktop + [Classify(e.name)])] else []
  {
    DesktopFilesAppend(desktop, listing, [e]);
    var f := desktop + [e.name];
    var fs0, fs1 := DesktopFiles(desktop, listing), DesktopFiles(desktop, listing + [e]);
    assert DesktopFiles(desktop, [e]) == if Organizable(e) then [f] else [];
    var before, after := Plan(desktop, listing), Plan(desktop, listing + [e]);
    var extra := if Organizable(e) then [Move(f, desktop + [Classify(e.name)])] else [];
    assert Name(f) == e.name;
    assert |after| == |before + extra|;
    forall k | 0 <= k < |after| ensures after[k] == (before + extra)[k] {
      if k < |before| {
        assert fs1[k] == fs0[k];
      } else {
        assert fs1[k] == f;
      }
    }
  }

  /** A listing of one entry plans at most one move. */
  lemma PlanSingle(desktop: Path, e: Entry)
    ensures Plan(desktop, [e]) == if Organizable(e) then [Move(desktop + [e.name], desktop + [Classify(e.name)])] else []
  {
    PlanAppend(desktop, [], e);
    assert [] + [e] == [e];
  }

  /** A listing that never names an entry twice plans each file once. */
  lemma PlanSourcesDistinct(desktop: Path, listing: seq<Entry>)
    requires forall j, k :: 0 <= j < k < |listing| ==> listing[j].name != listing[k].name
    ensures forall j, k :: 0 <= j < k < |Plan(desktop, listing)| ==>
              Plan(desktop, listing)[j].src != Plan(desktop, listing)[k].src
  {
    DesktopFilesDistinct(desktop, listing);
  }

  /** Every planned move takes an organisable entry of the desktop to the folder
      of its category, directly under the desktop; every organisable entry is
      planned; directories and hidden entries never are. */
  lemma PlanSpec(desktop: Path, listing: seq<Entry>)
    ensures forall m :: m in Plan(desktop, listing) ==>
              exists e :: e in listing && Organizable(e) &&
                m.src == desktop + [e.name] && m.targetDir == desktop + [Classify(e.name)]
    ensures forall e :: e in listing && Organizable(e) ==>
              Move(desktop + [e.name], desktop + [Classify(e.name)]) in Plan(desktop, listing)
    ensures forall e :: e in listing && !Organizable(e) && (forall e' :: e' in listing && e'.name == e.name ==> e' == e) ==>
              forall m :: m in Plan(desktop, listing) ==> m.src != desktop + [e.name]
  {
    PlanFromListing(desktop, listing);
    PlanCovers(desktop, listing);
  }

  lemma PlanFromListing(desktop: Path, listing: seq<Entry>)
    ensures forall m :: m in Plan(desktop, listing) ==>
              exists e :: e in listing && Organizable(e) &&
                m.src == desktop + [e.name] && m.targetDir == desktop + [Classify(e.name)]
  {
    var files := DesktopFiles(desktop, listing);
    var plan := Plan(desktop, listing);
    DesktopFilesMembers(desktop, listing);
    forall m | m in plan
      ensures exists e :: e in listing && Organizable(e) &&
                m.src == desktop + [e.name] && m.targetDir == desktop + [Classify(e.name)]
    {
      var k :| 0 <= k < |plan| && plan[k] == m;
      assert files[k] in files;
      var j :| 0 <= j < |listing| && Organizable(listing[j]) && files[k] == desktop + [listing[j].name];
      var e := listing[j];
      assert Name(files[k]) == e.name;
      assert e in listing;
    }
  }

  lemma PlanCovers(desktop: Path, listing: seq<Entry>)
    ensures forall e :: e in listing && Organizable(e) ==>
              Move(desktop + [e.name], desktop + [Classify(e.name)]) in Plan(desktop, listing)
  {
    var files := DesktopFiles(desktop, listing);
    var plan := Plan(desktop, listing);
    DesktopFilesMembers(desktop, listing);
    forall e | e in listing && Organizable(e)
      ensures Move(desktop + [e.name], desktop + [Classify(e.name)]) in plan
    {
      var f := desktop + [e.name];
      var j :| 0 <= j < |listing| && listing[j] == e;
      assert f in files;
      var k :| 0 <= k < |files| && files[k] == f;
      assert Name(f) == e.name;
      assert plan[k] == Move(f, desktop + [Classify(e.name)]);
    }
  }

  /** The entry of the listing that the `k`-th planned move comes from. */
  lemma PlannedEntry(desktop: Path, listing: seq<Entry>, k: nat) returns (j: nat)
    requires k < |Plan(desktop, listing)|
    ensures j < |listing| && Organizable(listing[j])
    ensures Plan(desktop, listing)[k] == Move(desktop + [listing[j].name], desktop + [Classify(listing[j].name)])
  {
    var files := DesktopFiles(desktop, listing);
    DesktopFilesMembers(desktop, listing);
    assert files[k] in files;
    j :| 0 <= j < |listing| && Organizable(listing[j]) && files[k] == desktop + [listing[j].name];
    assert Name(files[k]) == listing[j].name;
  }

  /** `plan_moves`: walks the listing once and appends one move per organisable
      entry. It only reads. */
  method PlanMoves(desktop: Path, listing: seq<Entry>) returns (moves: seq<Move>)
    ensures moves == Plan(desktop, listing)
  {
    moves := [];
    var i := 0;
    while i < |listing|
      invariant 0 <= i <= |listing|
      invariant moves == Plan(desktop, listing[..i])
    {
      var e := listing[i];
      PlanStep(desktop, listing, i);
      if Organizable(e) {
        var src := desktop + [e.name];
        moves := moves + [Move(src, TargetFor(desktop, src))];
      }
      i := i + 1;
    }
    assert listing[..i] == listing;
  }

  /** One more entry of the listing adds at most one move to the plan. */
  lemma PlanStep(desktop: Path, listing: seq<Entry>, i: nat)
    requires i < |listing|
    ensures Plan(desktop, listing[..i + 1]) == Plan(desktop, listing[..i]) +
              if Organizable(listing[i]) then [Move(desktop + [listing[i].name], TargetFor(desktop, desktop + [listing[i].name]))] else []
  {
    var e := listing[i];
    PlanAppend(desktop, listing[..i], e);
    assert listing[..i + 1] == listing[..i] + [e];
    assert Name(desktop + [e.name]) == e.name;
  }
}
