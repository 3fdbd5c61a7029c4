/** The extension table and `classify_file`: a file goes to the first category,
    in table order, whose extension list holds the lower-cased suffix of its
    name, and to "Other" when none does. */
module Categories {

  datatype Category = Category(name: string, exts: seq<string>)

  /** `CATEGORIES`, in the order the dictionary literal lists them. */
  const Table: seq<Category> := [
    Category("Images", ImageExts),
    Category("Documents", DocumentExts),
    Category("Code", CodeExts),
    Category("Archives", ArchiveExts),
    Category("Media", MediaExts)
  ]

  const ImageExts: seq<string> := [".png", ".jpg", ".jpeg", ".gif", ".bmp", ".svg", ".webp"]
  const DocumentExts: seq<string> := [".pdf", ".doc", ".docx", ".xls", ".xlsx", ".ppt", ".pptx", ".txt", ".md"]
  const CodeExts: seq<string> := [".py", ".ipynb", ".js", ".ts", ".java", ".go", ".c", ".cpp", ".rb", ".sh",
                                  ".yaml", ".yml", ".json", ".tf"]
  const ArchiveExts: seq<string> := [".zip", ".tar", ".gz", ".tgz", ".rar", ".7z"]
  const MediaExts: seq<string> := [".mp3", ".wav", ".m4a", ".mp4", ".mkv", ".avi", ".mov"]

  const Fallback: string := "Other"

  /** The folders `classify_file` can name: the table's categories, then the
      fallback. */
  const Folders: seq<string> := ["Images", "Documents", "Code", "Archives", "Media", Fallback]

  /** Index of the last `.` in `name`, or -1 (Python's `str.rfind`). */
  function LastDot(name: string): (i: int)
    ensures -1 <= i < |name|
    ensures i >= 0 ==> name[i] == '.'
    ensures forall j :: i < j < |name| ==> name[j] != '.'
  {
    if name == [] then -1
    else if name[|name| - 1] == '.' then |name| - 1
    else LastDot(name[..|name| - 1])
  }

  /** `Path.suffix` of a file called `name`: from the last dot on, unless that dot
      opens the name (a dot file) or ends it. */
  function Suffix(name: string): (ext: string)
    ensures ext == "" || (|ext| >= 2 && ext[0] == '.' && '.' !in ext[1..] && |ext| < |name|
                          && name[|name| - |ext|..] == ext)
  {
    var i := LastDot(name);
    if 0 < i < |name| - 1 then name[i..] else ""
  }

  /** `str.lower` on one character: A-Z and the Kelvin sign, the one
      non-ASCII character that lowers to an ASCII letter. */
  function LowerChar(c: char): char {
    if 'A' <= c <= 'Z' then (c as int + 32) as char
    else if c == '\U{212A}' then 'k'
    else c
  }

  function Lower(s: string): (r: string)
    ensures |r| == |s| && forall i :: 0 <= i < |s| ==> r[i] == LowerChar(s[i])
  {
    seq(|s|, i requires 0 <= i < |s| => LowerChar(s[i]))
  }

  /** What `str.lower` promises on the characters it models: no upper-case
      ASCII letter and no Kelvin sign is left, every other character is kept,
      and lowering twice is lowering once. */
  lemma LowerSpec(s: string)
    ensures forall i :: 0 <= i < |s| ==> !('A' <= Lower(s)[i] <= 'Z') && Lower(s)[i] != '\U{212A}'
    ensures forall i :: 0 <= i < |s| && !('A' <= s[i] <= 'Z') && s[i] != '\U{212A}' ==> Lower(s)[i] == s[i]
    ensures Lower(Lower(s)) == Lower(s)
  {
    var r := Lower(s);
    forall i | 0 <= i < |s| ensures LowerChar(r[i]) == r[i] {
      assert r[i] == LowerChar(s[i]);
    }
  }

  /** `ext in exts`, one entry at a time. */
  predicate Lists(exts: seq<string>, ext: string) {
    exts != [] && (exts[0] == ext || Lists(exts[1..], ext))
  }

  lemma {:induction false} ListsIsIn(exts: seq<string>, ext: string)
    ensures Lists(exts, ext) <==> ext in exts
    decreases |exts|
  {
    if exts != [] {
      ListsIsIn(exts[1..], ext);
      assert exts == [exts[0]] + exts[1..];
    }
  }

  /** Position of the first category whose list holds `ext`, or `|table|`. */
  function MatchIndex(table: seq<Category>, ext: string): (i: nat)
    ensures i <= |table|
    ensures i < |table| ==> Lists(table[i].exts, ext)
    ensures forall j :: 0 <= j < i ==> !Lists(table[j].exts, ext)
  {
    if table == [] then 0
    else if Lists(table[0].exts, ext) then 0
    else 1 + MatchIndex(table[1..], ext)
  }

  /** `classify_file`, on the name of the file (it reads nothing else of the path). */
  function Classify(name: string): (category: string)
  {
    CategoryOf(Lower(Suffix(name)))
  }

  /** The folder for a lower-cased suffix: the first category listing it. */
  function CategoryOf(ext: string): string {
    var i := MatchIndex(Table, ext);
    if i < |Table| then Table[i].name else Fallback
  }

  lemma TableNamesFolders()
    ensures forall i :: 0 <= i < |Table| ==> Table[i].name == Folders[i]
  {
  }

  /** Every file goes to one of the six folders. */
  lemma ClassifyIsFolder(name: string)
    ensures Classify(name) in Folders
  {
    TableNamesFolders();
  }

  /** An extension as the table writes it: a dot, then lower-case letters and digits. */
  predicate LowerExt(e: string) {
    |e| >= 2 && e[0] == '.' && forall k :: 1 <= k < |e| ==> 'a' <= e[k] <= 'z' || '0' <= e[k] <= '9'
  }

  lemma LowerExtIsLower(e: string)
    requires LowerExt(e)
    ensures Lower(e) == e
  {
  }

  lemma ListsAreLower()
    ensures forall e :: e in ImageExts ==> LowerExt(e)
    ensures forall e :: e in DocumentExts ==> LowerExt(e)
    ensures forall e :: e in CodeExts ==> LowerExt(e)
    ensures forall e :: e in ArchiveExts ==> LowerExt(e)
    ensures forall e :: e in MediaExts ==> LowerExt(e)
  {
    ImagesLower();
    DocumentsLower();
    CodeLower();
    ArchivesLower();
    MediaLower();
  }

  lemma ImagesLower()
    ensures forall e :: e in ImageExts ==> LowerExt(e)
  {
  }

  lemma DocumentsLower()
    ensures forall e :: e in DocumentExts ==> LowerExt(e)
  {
  }

  lemma CodeLower()
    ensures forall e :: e in CodeExts ==> LowerExt(e)
  {
  }

  lemma ArchivesLower()
    ensures forall e :: e in ArchiveExts ==> LowerExt(e)
  {
  }

  lemma MediaLower()
    ensures forall e :: e in MediaExts ==> LowerExt(e)
  {
  }

  /** Every listed extension is lower case and starts with a dot, and no category
      is called "Other", so a lower-cased suffix can match any entry and a result
      of "Other" always means "no match". */
  lemma TableWellFormed()
    ensures forall i :: 0 <= i < |Table| ==> Table[i].name != Fallback
    ensures forall i, e :: 0 <= i < |Table| && e in Table[i].exts ==> LowerExt(e) && Lower(e) == e
  {
    ListsAreLower();
    forall i, e | 0 <= i < |Table| && e in Table[i].exts
      ensures LowerExt(e) && Lower(e) == e
    {
      LowerExtIsLower(e);
    }
  }

  predicate Disjoint(a: seq<string>, b: seq<string>) {
    forall e :: e in a ==> e !in b
  }

  lemma ImagesDocumentsDisjoint()
    ensures Disjoint(ImageExts, DocumentExts)
  {
  }

  lemma ImagesCodeDisjoint()
    ensures Disjoint(ImageExts, CodeExts)
  {
  }

  lemma ImagesArchivesDisjoint()
    ensures Disjoint(ImageExts, ArchiveExts)
  {
  }

  lemma ImagesMediaDisjoint()
    ensures Disjoint(ImageExts, MediaExts)
  {
  }

  lemma DocumentsCodeDisjoint()
    ensures Disjoint(DocumentExts, CodeExts)
  {
  }

  lemma DocumentsArchivesDisjoint()
    ensures Disjoint(DocumentExts, ArchiveExts)
  {
  }

  lemma DocumentsMediaDisjoint()
    ensures Disjoint(DocumentExts, MediaExts)
  {
  }

  lemma CodeArchivesDisjoint()
    ensures Disjoint(CodeExts, ArchiveExts)
  {
  }

  lemma CodeMediaDisjoint()
    ensures Disjoint(CodeExts, MediaExts)
  {
  }

  lemma ArchivesMediaDisjoint()
    ensures Disjoint(ArchiveExts, MediaExts)
  {
  }

  /** No extension is listed by two categories, so table order never decides. */
  lemma TableDisjoint()
    ensures forall i, j :: 0 <= i < j < |Table| ==> Disjoint(Table[i].exts, Table[j].exts)
  {
    ImagesDocumentsDisjoint();
    ImagesCodeDisjoint();
    ImagesArchivesDisjoint();
    ImagesMediaDisjoint();
    DocumentsCodeDisjoint();
    DocumentsArchivesDisjoint();
    DocumentsMediaDisjoint();
    CodeArchivesDisjoint();
    CodeMediaDisjoint();
    ArchivesMediaDisjoint();
  }

  /** A file whose lower-cased suffix is listed goes to the category that lists it. */
  lemma ClassifyOwned(name: string, i: nat)
    requires i < |Table| && Lower(Suffix(name)) in Table[i].exts
    ensures Classify(name) == Table[i].name
  {
    var ext := Lower(Suffix(name));
    var m := MatchIndex(Table, ext);
    ListsIsIn(Table[i].exts, ext);
    if m < |Table| {
      ListsIsIn(Table[m].exts, ext);
      TableDisjoint();
      assert m == i;
    }
  }

  /** A file goes to "Other" exactly when no category lists its lower-cased
      suffix; in particular a name without a suffix does. */
  lemma ClassifyFallback(name: string)
    ensures Classify(name) == Fallback <==> forall i :: 0 <= i < |Table| ==> Lower(Suffix(name)) !in Table[i].exts
    ensures Suffix(name) == "" ==> Classify(name) == Fallback
  {
    var ext := Lower(Suffix(name));
    forall i | 0 <= i < |Table| ensures Lists(Table[i].exts, ext) <==> ext in Table[i].exts {
      ListsIsIn(Table[i].exts, ext);
    }
    TableWellFormed();
    if Suffix(name) == "" {
      assert ext == "";
    }
  }

  lemma {:induction false} LastDotIgnoresCase(a: string, b: string)
    requires |a| == |b| && forall k :: 0 <= k < |a| ==> LowerChar(a[k]) == LowerChar(b[k])
    ensures LastDot(a) == LastDot(b)
    decreases |a|
  {
    if a != [] {
      assert (a[|a| - 1] == '.') == (b[|b| - 1] == '.');
      LastDotIgnoresCase(a[..|a| - 1], b[..|b| - 1]);
    }
  }

  /** `classify_file` ignores letter case: two names that differ only in the case
      of their letters land in the same category. */
  lemma ClassifyIgnoresCase(a: string, b: string)
    requires |a| == |b| && forall k :: 0 <= k < |a| ==> LowerChar(a[k]) == LowerChar(b[k])
    ensures Classify(a) == Classify(b)
  {
    SuffixIgnoresCase(a, b);
  }

  /** Names that differ only in letter case have suffixes that lower to the same
      string. */
  lemma SuffixIgnoresCase(a: string, b: string)
    requires |a| == |b| && forall k :: 0 <= k < |a| ==> LowerChar(a[k]) == LowerChar(b[k])
    ensures Lower(Suffix(a)) == Lower(Suffix(b))
  {
    LastDotIgnoresCase(a, b);
    var i := LastDot(a);
    if 0 < i < |a| - 1 {
      LowerFrom(a, b, i);
    }
  }

  /** The same holds for every tail of two such names. */
  lemma LowerFrom(a: string, b: string, i: nat)
    requires |a| == |b| && i <= |a| && forall k :: 0 <= k < |a| ==> LowerChar(a[k]) == LowerChar(b[k])
    ensures Lower(a[i..]) == Lower(b[i..])
  {
    var sa, sb := a[i..], b[i..];
    forall k | 0 <= k < |sa| ensures LowerChar(sa[k]) == LowerChar(sb[k]) {
      assert sa[k] == a[i + k] && sb[k] == b[i + k];
    }
  }

  /** A name made of a non-empty stem and a dotted extension has that extension
      as its suffix. */
  lemma SuffixOf(stem: string, ext: string)
    requires stem != [] && |ext| >= 2 && ext[0] == '.' && '.' !in ext[1..]
    ensures Suffix(stem + ext) == ext
  {
    var name := stem + ext;
    var i := LastDot(name);
    assert name[|stem|] == '.';
    assert name[|stem|..] == ext;
  }

  /** A dot file with no further dot, and a name without any dot, have no suffix
      and go to "Other". */
  lemma ClassifyNoSuffix(stem: string)
    requires '.' !in stem
    ensures Classify(stem) == Fallback
    ensures Classify("." + stem) == Fallback
  {
    ClassifyFallback(stem);
    var dotted := "." + stem;
    assert forall k :: 1 <= k < |dotted| ==> dotted[k] == stem[k - 1];
    ClassifyFallback(dotted);
  }
}
