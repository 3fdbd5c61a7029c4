/** The undo log: the text `write_log` writes, how `parse_log` reads it back,
    and how log files are named and picked. */
module MoveLog {
  import opened Text
  import opened Paths
  import opened Planner

  datatype Option<T> = None | Some(value: T)

  /** A record as `parse_log` returns it: the two path strings of a line. */
  datatype Record = Record(src: string, dest: string)

  // ---------------------------------------------------------------------------
  // Writing
  // ---------------------------------------------------------------------------

  const Header: string := "DESKTOP="

  /** `f"{src}|{dest}"` with `dest = target_dir / src.name`. */
  function RecordLine(m: Move): string {
    PathStr(m.src) + "|" + PathStr(Dest(m))
  }

  function Body(moves: seq<Move>): string {
    if moves == [] then "" else RecordLine(moves[0]) + "\n" + Body(moves[1..])
  }

  /** What `write_log` writes: the header line, then one line per move. */
  function LogText(desktop: Path, moves: seq<Move>): string {
    Header + PathStr(desktop) + "\n" + Body(moves)
  }

  /** The records a log of `moves` stands for, in move order. */
  function Records(moves: seq<Move>): (rs: seq<Record>)
    ensures |rs| == |moves|
    ensures forall k :: 0 <= k < |moves| ==> rs[k] == Record(PathStr(moves[k].src), PathStr(Dest(moves[k])))
  {
    seq(|moves|, k requires 0 <= k < |moves| => Record(PathStr(moves[k].src), PathStr(Dest(moves[k]))))
  }

  // ---------------------------------------------------------------------------
  // Reading
  // ---------------------------------------------------------------------------

  /** Reading a text file line by line with universal newlines ends a line at
      `\n`, `\r` or `\r\n`. Cutting at every `\n` and every `\r` gives the same
      lines plus some empty ones, which `parse_log` skips as blank. */
  const LineBreaks: set<char> := {'\n', '\r'}

  function Lines(text: string): seq<string> {
    Split(text, LineBreaks)
  }

  /** What one line contributes: nothing, a record, or the `ValueError` that
      unpacking a split without `|` raises. */
  datatype LineKind = Skip | Pair(record: Record) | Unsplittable

  /** One iteration of `parse_log`'s loop: strip, skip blank and header lines,
      split at the first `|`. */
  function ParseLine(line: string): LineKind {
    var l := Strip(line);
    if l == "" || StartsWith(l, Header) then Skip
    else
      var i := FirstIndex(l, {'|'});
      if i == |l| then Unsplittable else Pair(Record(l[..i], l[i + 1..]))
  }

  /** Blank lines and header lines are skipped; any other line is cut at its
      first `|` only, so the destination may itself hold `|`; a line with no `|`
      is an error. */
  lemma ParseLineSpec(line: string)
    ensures ParseLine(line).Skip? <==> Strip(line) == "" || StartsWith(Strip(line), Header)
    ensures ParseLine(line).Unsplittable? <==> !ParseLine(line).Skip? && '|' !in Strip(line)
    ensures ParseLine(line).Pair? ==>
              var r := ParseLine(line).record;
              r.src + "|" + r.dest == Strip(line) && '|' !in r.src
  {
    var l := Strip(line);
    CutAtBar(l);
  }

  /** The cut `parse_log` makes at the first `|` of a stripped line. */
  lemma CutAtBar(l: string)
    ensures var i := FirstIndex(l, {'|'});
            && (i == |l| <==> '|' !in l)
            && (i < |l| ==> l[..i] + "|" + l[i + 1..] == l && '|' !in l[..i])
  {
    var i := FirstIndex(l, {'|'});
    if i < |l| {
      BarAt(l, i);
    } else {
      forall c | c in l ensures c != '|' {
        var j :| 0 <= j < |l| && l[j] == c;
        assert l[j] !in {'|'};
      }
    }
  }

  /** A line cut at its first `|`, at index `i`. */
  lemma BarAt(l: string, i: nat)
    requires i < |l| && l[i] == '|' && forall j :: 0 <= j < i ==> l[j] !in {'|'}
    ensures '|' in l && l[..i] + "|" + l[i + 1..] == l && '|' !in l[..i]
  {
    assert l == l[..i] + "|" + l[i + 1..];
    forall c | c in l[..i] ensures c != '|' {
      var j :| 0 <= j < i && l[..i][j] == c;
      assert l[j] !in {'|'};
    }
  }

  /** The result of `parse_log`: the records in file order, or the first line
      that could not be split. */
  datatype Parsed = Parsed(records: seq<Record>) | Malformed(line: string)

  function ParseLines(lines: seq<string>): Parsed {
    if lines == [] then Parsed([])
    else match ParseLine(lines[0])
      case Skip => ParseLines(lines[1..])
      case Unsplittable => Malformed(lines[0])
      case Pair(r) => Prepend([r], ParseLines(lines[1..]))
  }

  function Prepend(rs: seq<Record>, p: Parsed): Parsed {
    match p
    case Parsed(more) => Parsed(rs + more)
    case Malformed(l) => p
  }

  lemma PrependTwice(a: seq<Record>, b: seq<Record>, p: Parsed)
    ensures Prepend(a, Prepend(b, p)) == Prepend(a + b, p)
  {
    if p.Parsed? {
      assert a + (b + p.records) == (a + b) + p.records;
    }
  }

  /** `parse_log` on the text of a log file: reads line by line and appends one
      record per line that is neither blank nor a header. */
  method ParseLog(text: string) returns (r: Parsed)
    ensures r == ParseLines(Lines(text))
  {
    var lines := Lines(text);
    var moves: seq<Record> := [];
    var i := 0;
    while i < |lines|
      invariant 0 <= i <= |lines|
      invariant ParseLines(lines) == Prepend(moves, ParseLines(lines[i..]))
      decreases |lines| - i
    {
      var rest := lines[i..];
      assert rest[0] == lines[i] && rest[1..] == lines[i + 1..];
      var kind := ParseLine(lines[i]);
      if kind.Unsplittable? {
        assert ParseLines(rest) == Malformed(lines[i]);
        return Malformed(lines[i]);
      } else if kind.Pair? {
        assert ParseLines(rest) == Prepend([kind.record], ParseLines(lines[i + 1..]));
        PrependTwice(moves, [kind.record], ParseLines(lines[i + 1..]));
        moves := moves + [kind.record];
      } else {
        assert ParseLines(rest) == ParseLines(lines[i + 1..]);
      }
      i := i + 1;
    }
    assert lines[i..] == [];
    assert moves + [] == moves;
    return Parsed(moves);
  }

  // ---------------------------------------------------------------------------
  // Round trip
  // ---------------------------------------------------------------------------

  predicate NoLineBreaks(p: Path) {
    forall i :: 0 <= i < |p| ==> '\n' !in p[i] && '\r' !in p[i]
  }

  /** The last character of a line survives `strip`. */
  predicate EndsSolid(name: string) {
    name != "" && !IsSpace(name[|name| - 1])
  }

  /** What each move must satisfy for its line to read back as written: no line
      break anywhere, no `|` in the source (the line is split at its first `|`),
      and a file name that does not end in whitespace (`strip` would eat it). */
  predicate LoggableMove(m: Move) {
    && NoLineBreaks(m.src) && NoLineBreaks(m.targetDir)
    && (forall i :: 0 <= i < |m.src| ==> '|' !in m.src[i])
    && EndsSolid(Name(m.src))
  }

  predicate Loggable(desktop: Path, moves: seq<Move>) {
    NoLineBreaks(desktop) && forall k :: 0 <= k < |moves| ==> LoggableMove(moves[k])
  }

  lemma NoBreaksInPathStr(p: Path)
    requires NoLineBreaks(p)
    ensures forall c :: c in PathStr(p) ==> c !in LineBreaks
  {
    PathStrChars(p, '\n');
    PathStrChars(p, '\r');
  }

  /** A line `s|d` that `strip` leaves alone, that does not start like a header
      and whose `s` holds no `|` reads back as the pair `(s, d)`. */
  lemma PairLineParses(s: string, d: string)
    requires s != [] && s[0] == '/' && '|' !in s
    requires d != [] && !IsSpace(d[|d| - 1])
    ensures ParseLine(s + "|" + d) == Pair(Record(s, d))
  {
    var line := s + ['|'] + d;
    assert s + "|" + d == line;
    StripSolid(line);
    assert !StartsWith(line, Header) by {
      assert line[0] == '/';
    }
    FirstIndexAfter(s, '|', d, {'|'});
    CutPieces(s, '|', d);
    ParseLineCut(line, |s|);
  }

  /** A line that strips to itself, is not a header, and has its first `|` at
      `i`, is cut there. */
  lemma ParseLineCut(l: string, i: nat)
    requires Strip(l) == l && l != "" && !StartsWith(l, Header)
    requires i < |l| && FirstIndex(l, {'|'}) == i
    ensures ParseLine(l) == Pair(Record(l[..i], l[i + 1..]))
  {
  }

  /** A record line holds no line break. */
  lemma RecordLineSolid(m: Move)
    requires LoggableMove(m)
    ensures forall c :: c in RecordLine(m) ==> c !in LineBreaks
  {
    var s, d := PathStr(m.src), PathStr(Dest(m));
    assert NoLineBreaks(Dest(m)) by {
      assert Dest(m) == m.targetDir + [Name(m.src)];
    }
    NoBreaksInPathStr(m.src);
    NoBreaksInPathStr(Dest(m));
    assert RecordLine(m) == s + "|" + d;
  }

  /** A record line reads back as the record of its move. */
  lemma RecordLineParses(m: Move)
    requires LoggableMove(m)
    ensures ParseLine(RecordLine(m)) == Pair(Record(PathStr(m.src), PathStr(Dest(m))))
  {
    var s, d := PathStr(m.src), PathStr(Dest(m));
    PathStrChars(m.src, '|');
    PathStrEndsWithName(Dest(m));
    assert Name(Dest(m)) == Name(m.src);
    assert d[|d| - 1] == Name(m.src)[|Name(m.src)| - 1];
    PairLineParses(s, d);
  }

  /** A line that starts with the header keeps it through `strip`. */
  lemma HeaderSkipped(desktop: Path)
    ensures ParseLine(Header + PathStr(desktop)) == Skip
  {
    var h := Header + PathStr(desktop);
    assert !IsSpace(h[0]);
    assert TrimStart(h) == h;
    var r := TrimEnd(h);
    assert h[|Header| - 1] == '=';
    assert |r| >= |Header|;
    assert r[..|Header|] == h[..|Header|] == Header;
  }

  /** An empty text holds no records. */
  lemma EmptyTextParses()
    ensures ParseLines(Lines("")) == Parsed([])
  {
    SplitNone("", LineBreaks);
    assert Lines("") == [""];
    assert ParseLine("") == Skip;
    assert ParseLines([""]) == ParseLines([]);
  }

  /** A text that starts with a record line reads as that record followed by
      the records of the rest. */
  lemma PairLineFirst(line: string, rest: string)
    requires forall c :: c in line ==> c !in LineBreaks
    requires ParseLine(line).Pair?
    ensures ParseLines(Lines(line + "\n" + rest)) == Prepend([ParseLine(line).record], ParseLines(Lines(rest)))
  {
    SplitCons(line, '\n', rest, LineBreaks);
    var ls := Lines(line + "\n" + rest);
    assert ls[0] == line && ls[1..] == Lines(rest);
  }

  lemma LoggableTail(moves: seq<Move>)
    requires moves != [] && Loggable([], moves)
    ensures LoggableMove(moves[0]) && Loggable([], moves[1..])
  {
    forall k | 0 <= k < |moves[1..]| ensures LoggableMove(moves[1..][k]) {
      assert moves[1..][k] == moves[k + 1];
    }
  }

  lemma RecordsCons(moves: seq<Move>)
    requires moves != []
    ensures Records(moves) == [Record(PathStr(moves[0].src), PathStr(Dest(moves[0])))] + Records(moves[1..])
  {
  }

  lemma {:induction false} BodyRoundTrip(moves: seq<Move>)
    requires Loggable([], moves)
    ensures ParseLines(Lines(Body(moves))) == Parsed(Records(moves))
    decreases |moves|
  {
    if moves == [] {
      EmptyTextParses();
    } else {
      var m := moves[0];
      LoggableTail(moves);
      RecordLineSolid(m);
      RecordLineParses(m);
      BodyRoundTrip(moves[1..]);
      PairLineFirst(RecordLine(m), Body(moves[1..]));
      RecordsCons(moves);
    }
  }

  /** `parse_log` reads back what `write_log` wrote: one record per move, in move
      order, each holding `str(src)` and `str(target_dir / src.name)`. */
  lemma LogRoundTrip(desktop: Path, moves: seq<Move>)
    requires Loggable(desktop, moves)
    ensures ParseLines(Lines(LogText(desktop, moves))) == Parsed(Records(moves))
  {
    var h := Header + PathStr(desktop);
    NoBreaksInPathStr(desktop);
    assert forall c :: c in h ==> c !in LineBreaks by {
      assert forall c :: c in h ==> c in Header || c in PathStr(desktop);
    }
    SplitCons(h, '\n', Body(moves), LineBreaks);
    assert LogText(desktop, moves) == h + ['\n'] + Body(moves);
    HeaderSkipped(desktop);
    assert Loggable([], moves);
    BodyRoundTrip(moves);
  }

  /** Path-level form: resolving the strings of each record read back gives the
      move's own source and destination. */
  lemma LogRoundTripPaths(cwd: Path, desktop: Path, moves: seq<Move>, k: nat)
    requires Loggable(desktop, moves) && k < |moves|
    requires ValidPath(moves[k].src) && ValidPath(moves[k].targetDir)
    ensures ParseLines(Lines(LogText(desktop, moves))).Parsed?
    ensures var rs := ParseLines(Lines(LogText(desktop, moves))).records;
            |rs| == |moves| &&
            Resolve(cwd, rs[k].src) == moves[k].src && Resolve(cwd, rs[k].dest) == Dest(moves[k])
  {
    LogRoundTrip(desktop, moves);
    var m := moves[k];
    assert ValidName(Name(m.src)) by {
      assert Name(m.src) == m.src[|m.src| - 1];
    }
    PathStrRoundTrip(cwd, m.src);
    PathStrRoundTrip(cwd, Dest(m));
  }

  // ---------------------------------------------------------------------------
  // Log names
  // ---------------------------------------------------------------------------

  /** A local time as `datetime` holds it. */
  datatype Stamp = Stamp(year: nat, month: nat, day: nat, hour: nat, minute: nat, second: nat)

  /** Years of four digits, so that `%Y` writes four characters. */
  predicate ValidStamp(t: Stamp) {
    && 1000 <= t.year <= 9999 && 1 <= t.month <= 12 && 1 <= t.day <= 31
    && t.hour < 24 && t.minute < 60 && t.second < 60
  }

  /** `t` comes before `u` in time. */
  predicate Earlier(t: Stamp, u: Stamp) {
    || t.year < u.year
    || (t.year == u.year && t.month < u.month)
    || (t.year == u.year && t.month == u.month && t.day < u.day)
    || (t.year == u.year && t.month == u.month && t.day == u.day && t.hour < u.hour)
    || (t.year == u.year && t.month == u.month && t.day == u.day && t.hour == u.hour && t.minute < u.minute)
    || (t.year == u.year && t.month == u.month && t.day == u.day && t.hour == u.hour && t.minute == u.minute
        && t.second < u.second)
  }

  function Pow10(w: nat): nat {
    if w == 0 then 1 else 10 * Pow10(w - 1)
  }

  function DigitChar(d: nat): char
    requires d < 10
  {
    ('0' as int + d) as char
  }

  /** `n` zero-padded to `width` digits, as `%m`, `%d`, ... write it. */
  function Digits(n: nat, width: nat): (s: string)
    ensures |s| == width
  {
    if width == 0 then "" else Digits(n / 10, width - 1) + [DigitChar(n % 10)]
  }

  /** `strftime("%Y%m%d-%H%M%S")`. */
  function StampText(t: Stamp): string {
    Digits(t.year, 4) + (Digits(t.month, 2) + (Digits(t.day, 2) + ("-" +
      (Digits(t.hour, 2) + (Digits(t.minute, 2) + Digits(t.second, 2))))))
  }

  /** `f"clean_{ts}.log"`. */
  function LogName(t: Stamp): string {
    "clean_" + (StampText(t) + ".log")
  }

  /** Matches the glob `clean_*.log`. */
  predicate IsLogName(n: string) {
    |n| >= 10 && n[..6] == "clean_" && n[|n| - 4..] == ".log"
  }

  lemma LogNameMatches(t: Stamp)
    ensures IsLogName(LogName(t))
  {
    var n := LogName(t);
    assert n[..6] == "clean_";
    assert n[|n| - 4..] == ".log";
  }

  /** Zero-padded numbers of one width compare as strings the way they compare
      as numbers. */
  lemma {:induction false} DigitsOrder(n: nat, m: nat, w: nat)
    requires n < Pow10(w) && m < Pow10(w)
    ensures LexLess(Digits(n, w), Digits(m, w)) <==> n < m
    ensures Digits(n, w) == Digits(m, w) <==> n == m
    decreases w
  {
    if w == 0 {
      assert n == 0 && m == 0;
    } else {
      var x, y := Digits(n / 10, w - 1), Digits(m / 10, w - 1);
      var c, d := DigitChar(n % 10), DigitChar(m % 10);
      DigitsOrder(n / 10, m / 10, w - 1);
      LexLessConcat(x, [c], y, [d]);
      assert LexLess([c], [d]) <==> c < d;
      assert c < d <==> n % 10 < m % 10;
      assert n == 10 * (n / 10) + n % 10;
      assert m == 10 * (m / 10) + m % 10;
      if Digits(n, w) == Digits(m, w) {
        assert x == Digits(n, w)[..w - 1] == y;
        assert c == Digits(n, w)[w - 1] == d;
      }
    }
  }

  /** Log names sort in the order of their timestamps: picking the greatest
      name picks the most recent run. */
  lemma LogNameOrder(t: Stamp, u: Stamp)
    requires ValidStamp(t) && ValidStamp(u)
    ensures LexLess(LogName(t), LogName(u)) <==> Earlier(t, u)
  {
    DigitsOrder(t.year, u.year, 4);
    DigitsOrder(t.month, u.month, 2);
    DigitsOrder(t.day, u.day, 2);
    DigitsOrder(t.hour, u.hour, 2);
    DigitsOrder(t.minute, u.minute, 2);
    DigitsOrder(t.second, u.second, 2);
    var s5 := Digits(t.minute, 2) + Digits(t.second, 2);
    var v5 := Digits(u.minute, 2) + Digits(u.second, 2);
    LexLessConcat(Digits(t.minute, 2), Digits(t.second, 2), Digits(u.minute, 2), Digits(u.second, 2));
    var s4 := Digits(t.hour, 2) + s5;
    var v4 := Digits(u.hour, 2) + v5;
    LexLessConcat(Digits(t.hour, 2), s5, Digits(u.hour, 2), v5);
    var s3 := "-" + s4;
    var v3 := "-" + v4;
    LexLessConcat("-", s4, "-", v4);
    LexLessIrreflexive("-");
    var s2 := Digits(t.day, 2) + s3;
    var v2 := Digits(u.day, 2) + v3;
    LexLessConcat(Digits(t.day, 2), s3, Digits(u.day, 2), v3);
    var s1 := Digits(t.month, 2) + s2;
    var v1 := Digits(u.month, 2) + v2;
    LexLessConcat(Digits(t.month, 2), s2, Digits(u.month, 2), v2);
    LexLessConcat(Digits(t.year, 4), s1, Digits(u.year, 4), v1);
    assert StampText(t) == Digits(t.year, 4) + s1 && StampText(u) == Digits(u.year, 4) + v1;
    LexLessConcat(StampText(t), ".log", StampText(u), ".log");
    LexLessIrreflexive(".log");
    LexLessConcat("clean_", StampText(t) + ".log", "clean_", StampText(u) + ".log");
    LexLessIrreflexive("clean_");
  }

  /** The newest log among `names`: the greatest name matching `clean_*.log`. */
  predicate IsNewest(names: set<string>, m: string) {
    m in names && IsLogName(m) && forall n :: n in names && IsLogName(n) ==> !LexLess(m, n)
  }

  lemma {:induction false} NewestExists(names: set<string>)
    requires exists n :: n in names && IsLogName(n)
    ensures exists m :: IsNewest(names, m)
    decreases |names|
  {
    var x :| x in names && IsLogName(x);
    LexLessIrreflexive(x);
    var rest := names - {x};
    if exists n :: n in rest && IsLogName(n) {
      NewestExists(rest);
      var m :| IsNewest(rest, m);
      if LexLess(m, x) {
        forall n | n in names && IsLogName(n) ensures !LexLess(x, n) {
          if n != x && LexLess(x, n) {
            LexLessTransitive(m, x, n);
          }
        }
        assert IsNewest(names, x);
      } else {
        assert IsNewest(names, m);
      }
    } else {
      assert IsNewest(names, x);
    }
  }

  /** The newest log is unique. */
  lemma NewestUnique(names: set<string>, a: string, b: string)
    requires IsNewest(names, a) && IsNewest(names, b)
    ensures a == b
  {
    LexLessTotal(a, b);
  }

  /** `sorted(log_dir.glob("clean_*.log"))[-1]`, or nothing when no log matches. */
  ghost function Newest(names: set<string>): (r: Option<string>)
    ensures r.None? <==> forall n :: n in names ==> !IsLogName(n)
    ensures r.Some? ==> IsNewest(names, r.value)
  {
    if exists n :: n in names && IsLogName(n) then
      NewestExists(names);
      var m :| IsNewest(names, m);
      Some(m)
    else
      None
  }

  /** A log written with a name greater than every existing log's becomes the
      one undo picks. */
  lemma NewestAfterWrite(names: set<string>, name: string)
    requires IsLogName(name)
    requires forall n :: n in names && IsLogName(n) ==> LexLess(n, name)
    ensures Newest(names + {name}) == Some(name)
  {
    var all := names + {name};
    LexLessIrreflexive(name);
    forall n | n in all && IsLogName(n) ensures !LexLess(name, n) {
      if n in names && LexLess(name, n) {
        LexLessTransitive(n, name, n);
        LexLessIrreflexive(n);
      }
    }
    assert IsNewest(all, name);
    NewestUnique(all, Newest(all).value, name);
  }

  /** Looking at one more name: it becomes the newest log when it is a log
      name greater than the newest so far, and leaves the newest as it was
      otherwise. */
  lemma NewestAdd(names: set<string>, n: string)
    requires n !in names
    ensures Newest(names + {n}) ==
              if IsLogName(n) && (Newest(names).None? || LexLess(Newest(names).value, n)) then Some(n)
              else Newest(names)
  {
    var all := names + {n};
    var prev := Newest(names);
    LexLessIrreflexive(n);
    if IsLogName(n) && (prev.None? || LexLess(prev.value, n)) {
      forall k | k in all && IsLogName(k) ensures !LexLess(n, k) {
        if k != n {
          var o := prev.value;
          LexLessTotal(k, o);
          if LexLess(k, o) {
            LexLessTransitive(k, o, n);
          }
          if LexLess(n, k) {
            LexLessTransitive(k, n, k);
            LexLessIrreflexive(k);
          }
        }
      }
      assert IsNewest(all, n);
      NewestUnique(all, Newest(all).value, n);
    } else if prev.Some? {
      assert IsNewest(all, prev.value);
      NewestUnique(all, Newest(all).value, prev.value);
    }
  }
}
