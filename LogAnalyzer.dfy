/**
 * Model of loganalyzer: a memory-mapped log is cut into lines at '\n', each
 * non-empty line has its trailing line-end characters removed, and the lines
 * that pass the date and level filters are counted into a LogStats record.
 *
 * Text is `string`; the mapped log and every line are taken to hold no NUL
 * character, so C's strlen is the sequence length.
 */
module LogAnalyzer {
  import opened Wrappers

  // ---------------------------------------------------------------------------
  // Configuration (the file-scope filter settings main() fills in)
  // ---------------------------------------------------------------------------

  datatype DateMode = DateNone | DateOn | DateBefore | DateAfter

  /** The filters selected by -d/-b/-a, -E, -W and -I. */
  datatype Filters = Filters(
    dateMode: DateMode,
    dateFilter: string,
    filterError: bool,
    filterWarning: bool,
    filterInfo: bool)

  /** What -d, -b or -a store as the date: the first ten characters of the argument. */
  function DateFilterArg(arg: string): (r: string)
    ensures |r| == if |arg| <= 10 then |arg| else 10
    ensures r == arg[..|r|]
  {
    if |arg| <= 10 then arg else arg[..10]
  }

  // ---------------------------------------------------------------------------
  // Counters
  // ---------------------------------------------------------------------------

  /** The value of a LogStats record. */
  datatype Stats = Stats(total: nat, errors: nat, warnings: nat, infos: nat, patternMatches: nat)

  /** The counters the log was analysed into, updated in place. */
  class LogStats {
    var totalLines: nat
    var errorLines: nat
    var warningLines: nat
    var infoLines: nat
    var patternMatches: nat

    /** A record cleared to zero, as main() does before the analysis. */
    constructor ()
      ensures Value() == Stats(0, 0, 0, 0, 0)
    {
      totalLines, errorLines, warningLines, infoLines, patternMatches := 0, 0, 0, 0, 0;
    }

    function Value(): Stats
      reads this
    {
      Stats(totalLines, errorLines, warningLines, infoLines, patternMatches)
    }
  }

  /** Every per-kind counter is at most the number of counted lines. */
  predicate Bounded(s: Stats) {
    s.errors <= s.total && s.warnings <= s.total && s.infos <= s.total && s.patternMatches <= s.total
  }

  /** Every counter of `s` is at least the matching counter of `t`. */
  predicate AtLeast(s: Stats, t: Stats) {
    s.total >= t.total && s.errors >= t.errors && s.warnings >= t.warnings
    && s.infos >= t.infos && s.patternMatches >= t.patternMatches
  }

  // ---------------------------------------------------------------------------
  // trim_newline
  // ---------------------------------------------------------------------------

  predicate IsLineEnd(c: char) {
    c == '\n' || c == '\r'
  }

  /** `line` without its trailing run of '\n' and '\r' characters. */
  function Trimmed(line: string): string
    decreases |line|
  {
    if |line| > 0 && IsLineEnd(line[|line| - 1]) then Trimmed(line[..|line| - 1]) else line
  }

  /** Trimming keeps a prefix, removes only line-end characters, and leaves none at the end. */
  lemma {:induction false} TrimmedSpec(line: string)
    ensures |Trimmed(line)| <= |line| && Trimmed(line) == line[..|Trimmed(line)|]
    ensures forall j :: |Trimmed(line)| <= j < |line| ==> IsLineEnd(line[j])
    ensures |Trimmed(line)| > 0 ==> !IsLineEnd(Trimmed(line)[|Trimmed(line)| - 1])
    decreases |line|
  {
    if |line| > 0 && IsLineEnd(line[|line| - 1]) {
      var shorter := line[..|line| - 1];
      TrimmedSpec(shorter);
      assert shorter[..|Trimmed(shorter)|] == line[..|Trimmed(shorter)|];
    }
  }

  /** Trimming twice is trimming once. */
  lemma TrimmedIdempotent(line: string)
    ensures Trimmed(Trimmed(line)) == Trimmed(line)
  {
    TrimmedSpec(line);
  }

  /** A text that does not end in a line-end character, followed by line ends only, trims to that text. */
  lemma {:induction false} TrimmedUnique(text: string, ends: string)
    requires |text| > 0 ==> !IsLineEnd(text[|text| - 1])
    requires forall j :: 0 <= j < |ends| ==> IsLineEnd(ends[j])
    ensures Trimmed(text + ends) == text
    decreases |ends|
  {
    if |ends| == 0 {
      assert text + ends == text;
    } else {
      var shorter := ends[..|ends| - 1];
      assert (text + ends)[..|text + ends| - 1] == text + shorter;
      TrimmedUnique(text, shorter);
    }
  }

  /**
   * trim_newline: overwrites trailing '\n'/'\r' characters with NUL, from the
   * end backwards; `len` is the length of the string that remains.
   */
  method TrimNewline(line: array<char>) returns (len: nat)
    modifies line
    ensures len <= line.Length
    ensures line[..len] == Trimmed(old(line[..]))
    ensures forall j :: len <= j < line.Length ==> line[j] == '\0'
  {
    ghost var original := line[..];
    len := line.Length;
    assert original[..len] == original;
    while len > 0 && IsLineEnd(line[len - 1])
      invariant len <= line.Length
      invariant forall j :: 0 <= j < len ==> line[j] == original[j]
      invariant Trimmed(original) == Trimmed(original[..len])
      invariant forall j :: len <= j < line.Length ==> line[j] == '\0'
    {
      assert original[..len][..len - 1] == original[..len - 1];
      line[len - 1] := '\0';
      len := len - 1;
    }
    assert line[..len] == original[..len];
  }

  // ---------------------------------------------------------------------------
  // String tests: strstr and strcmp
  // ---------------------------------------------------------------------------

  predicate IsPrefix(p: string, s: string) {
    |p| <= |s| && s[..|p|] == p
  }

  /** strstr(s, p) != NULL: `p` occurs in `s` (the empty string occurs everywhere). */
  predicate Contains(s: string, p: string)
    decreases |s|
  {
    IsPrefix(p, s) || (|s| > 0 && Contains(s[1..], p))
  }

  /** `p` occurs in `s` starting at index `i`. */
  predicate OccursAt(s: string, p: string, i: int) {
    0 <= i <= |s| - |p| && s[i..i + |p|] == p
  }

  /** Contains holds exactly when `p` occurs somewhere in `s`. */
  lemma {:induction false} ContainsIff(s: string, p: string)
    ensures Contains(s, p) <==> exists i :: OccursAt(s, p, i)
    decreases |s|
  {
    if IsPrefix(p, s) {
      assert OccursAt(s, p, 0);
    } else if |s| > 0 {
      ContainsIff(s[1..], p);
      if Contains(s[1..], p) {
        var i :| OccursAt(s[1..], p, i);
        assert s[i + 1..i + 1 + |p|] == s[1..][i..i + |p|];
        assert OccursAt(s, p, i + 1);
      }
      if i :| OccursAt(s, p, i) {
        assert i != 0;
        assert s[1..][i - 1..i - 1 + |p|] == s[i..i + |p|];
        assert OccursAt(s[1..], p, i - 1);
      }
    }
  }

  /** strcmp's verdict on two NUL-free strings: negative, zero or positive. */
  function StrCmp(a: string, b: string): int
    decreases |a|
  {
    if a == [] && b == [] then 0
    else if a == [] then -1
    else if b == [] then 1
    else if a[0] < b[0] then -1
    else if a[0] > b[0] then 1
    else StrCmp(a[1..], b[1..])
  }

  /** Lexicographic order: `a` is a proper prefix of `b`, or `a` is smaller where they first differ. */
  ghost predicate LexLess(a: string, b: string) {
    exists k :: 0 <= k <= |a| && k <= |b| && a[..k] == b[..k]
      && ((k == |a| && k < |b|) || (k < |a| && k < |b| && a[k] < b[k]))
  }

  /** StrCmp is zero exactly on equal strings and orders them lexicographically. */
  lemma {:induction false} StrCmpOrder(a: string, b: string)
    ensures StrCmp(a, b) == 0 <==> a == b
    ensures StrCmp(a, b) < 0 <==> LexLess(a, b)
    ensures StrCmp(a, b) > 0 <==> LexLess(b, a)
    decreases |a|
  {
    if a == [] && b == [] {
      assert !LexLess(a, b);
    } else if a == [] {
      assert a[..0] == b[..0];
      assert !LexLess(b, a);
    } else if b == [] {
      assert a[..0] == b[..0];
      assert !LexLess(a, b);
    } else if a[0] != b[0] {
      assert a[..0] == b[..0];
      forall k | 0 < k <= |a| && k <= |b|
        ensures a[..k] != b[..k]
      {
        assert a[..k][0] == a[0] && b[..k][0] == b[0];
      }
    } else {
      StrCmpOrder(a[1..], b[1..]);
      LexLessTail(a, b);
      LexLessTail(b, a);
      if a[1..] == b[1..] {
        assert a == [a[0]] + a[1..] && b == [b[0]] + b[1..];
      }
    }
  }

  /** With equal first characters, the order is decided by the rest. */
  lemma LexLessTail(a: string, b: string)
    requires |a| > 0 && |b| > 0 && a[0] == b[0]
    ensures LexLess(a, b) <==> LexLess(a[1..], b[1..])
  {
    if LexLess(a, b) {
      var k :| 0 <= k <= |a| && k <= |b| && a[..k] == b[..k]
        && ((k == |a| && k < |b|) || (k < |a| && k < |b| && a[k] < b[k]));
      if k == 0 {
        assert false;
      }
      assert a[1..][..k - 1] == a[..k][1..] && b[1..][..k - 1] == b[..k][1..];
    }
    if LexLess(a[1..], b[1..]) {
      var k :| 0 <= k <= |a[1..]| && k <= |b[1..]| && a[1..][..k] == b[1..][..k]
        && ((k == |a[1..]| && k < |b[1..]|) || (k < |a[1..]| && k < |b[1..]| && a[1..][k] < b[1..][k]));
      assert a[..k + 1] == [a[0]] + a[1..][..k] && b[..k + 1] == [b[0]] + b[1..][..k];
    }
  }

  // ---------------------------------------------------------------------------
  // line_matches_date_filter and process_line
  // ---------------------------------------------------------------------------

  /** line_matches_date_filter: the first ten characters compared with the date filter. */
  function DateMatches(f: Filters, line: string): (r: bool)
    ensures f.dateMode == DateNone ==> r
    ensures f.dateMode != DateNone && |line| < 10 ==> !r
    ensures f.dateMode == DateOn && |line| >= 10 ==> (r <==> line[..10] == f.dateFilter)
    ensures f.dateMode == DateBefore && |line| >= 10 ==> (r <==> LexLess(line[..10], f.dateFilter))
    ensures f.dateMode == DateAfter && |line| >= 10 ==> (r <==> LexLess(f.dateFilter, line[..10]))
  {
    if f.dateMode == DateNone then true
    else if |line| < 10 then false
    else
      var cmp := StrCmp(line[..10], f.dateFilter);
      StrCmpOrder(line[..10], f.dateFilter);
      match f.dateMode
      case DateOn => cmp == 0
      case DateBefore => cmp < 0
      case DateAfter => cmp > 0
  }

  /**
   * With -d, only the first ten characters of the argument are compared: a
   * line passes iff it starts with them, and an argument shorter than ten
   * characters lets no line through.
   */
  lemma DateOnArgument(arg: string, line: string, filterError: bool, filterWarning: bool, filterInfo: bool)
    ensures DateMatches(Filters(DateOn, DateFilterArg(arg), filterError, filterWarning, filterInfo), line)
      <==> |arg| >= 10 && |line| >= 10 && line[..10] == arg[..10]
  {
    var date := DateFilterArg(arg);
    if |line| >= 10 && |arg| < 10 {
      assert |line[..10]| != |date|;
    }
  }

  /** Whether some level filter is on and the line carries none of the selected levels. */
  predicate LevelRejects(f: Filters, line: string) {
    && (f.filterError || f.filterWarning || f.filterInfo)
    && !(f.filterError && Contains(line, "ERROR"))
    && !(f.filterWarning && Contains(line, "WARNING"))
    && !(f.filterInfo && Contains(line, "INFO"))
  }

  /** Whether process_line counts the line. */
  predicate Passes(f: Filters, line: string) {
    DateMatches(f, line) && !LevelRejects(f, line)
  }

  function Bump(n: nat, hit: bool): nat {
    if hit then n + 1 else n
  }

  /** The counters after process_line has seen `line`. */
  function Step(s: Stats, f: Filters, pattern: Option<string>, line: string): Stats {
    if !Passes(f, line) then s
    else Stats(
      s.total + 1,
      Bump(s.errors, Contains(line, "ERROR")),
      Bump(s.warnings, Contains(line, "WARNING")),
      Bump(s.infos, Contains(line, "INFO")),
      Bump(s.patternMatches, pattern.Some? && Contains(line, pattern.value)))
  }

  /**
   * A line leaves the counters exactly as they were if and only if it fails
   * the date filter or carries none of the selected levels.
   */
  lemma StepUnchangedIffRejected(s: Stats, f: Filters, pattern: Option<string>, line: string)
    ensures Step(s, f, pattern, line) == s <==> !DateMatches(f, line) || LevelRejects(f, line)
  {
  }

  /**
   * A counted line adds one to the total, one to each level whose keyword it
   * contains (several at once if it contains several), and one to the pattern
   * count when a pattern was given and occurs in it.
   */
  lemma StepCounts(s: Stats, f: Filters, pattern: Option<string>, line: string)
    requires Passes(f, line)
    ensures Step(s, f, pattern, line).total == s.total + 1
    ensures Step(s, f, pattern, line).errors == s.errors + (if Contains(line, "ERROR") then 1 else 0)
    ensures Step(s, f, pattern, line).warnings == s.warnings + (if Contains(line, "WARNING") then 1 else 0)
    ensures Step(s, f, pattern, line).infos == s.infos + (if Contains(line, "INFO") then 1 else 0)
    ensures Step(s, f, pattern, line).patternMatches
      == s.patternMatches + (if pattern.Some? && Contains(line, pattern.value) then 1 else 0)
  {
  }

  /**
   * process_line: the date filter, then the level filters, then the counters
   * are bumped through the stats pointer.
   */
  method ProcessLine(line: string, stats: LogStats, f: Filters, pattern: Option<string>)
    modifies stats
    ensures stats.Value() == Step(old(stats.Value()), f, pattern, line)
  {
    if !DateMatches(f, line) {
      return;
    }
    var hasError := Contains(line, "ERROR");
    var hasWarning := Contains(line, "WARNING");
    var hasInfo := Contains(line, "INFO");

    var anyLevelFilter := f.filterError || f.filterWarning || f.filterInfo;
    if anyLevelFilter {
      var matchesSelectedLevel := false;
      if f.filterError && hasError {
        matchesSelectedLevel := true;
      }
      if f.filterWarning && hasWarning {
        matchesSelectedLevel := true;
      }
      if f.filterInfo && hasInfo {
        matchesSelectedLevel := true;
      }
      if !matchesSelectedLevel {
        return;
      }
    }

    stats.totalLines := stats.totalLines + 1;
    if hasError {
      stats.errorLines := stats.errorLines + 1;
    }
    if hasWarning {
      stats.warningLines := stats.warningLines + 1;
    }
    if hasInfo {
      stats.infoLines := stats.infoLines + 1;
    }
    if pattern.Some? && Contains(line, pattern.value) {
      stats.patternMatches := stats.patternMatches + 1;
    }
  }

  /** The counters after process_line has seen each of `lines` in order. */
  function ProcessAll(s: Stats, f: Filters, pattern: Option<string>, lines: seq<string>): Stats
    decreases |lines|
  {
    if lines == [] then s
    else Step(ProcessAll(s, f, pattern, lines[..|lines| - 1]), f, pattern, lines[|lines| - 1])
  }

  /** Counters never go down, and no per-kind counter overtakes the total. */
  lemma {:induction false} ProcessAllGrows(s: Stats, f: Filters, pattern: Option<string>, lines: seq<string>)
    ensures AtLeast(ProcessAll(s, f, pattern, lines), s)
    ensures Bounded(s) ==> Bounded(ProcessAll(s, f, pattern, lines))
    ensures ProcessAll(s, f, pattern, lines).total <= s.total + |lines|
    decreases |lines|
  {
    if lines != [] {
      ProcessAllGrows(s, f, pattern, lines[..|lines| - 1]);
    }
  }

  /** From cleared counters, every per-kind count is at most the number of counted lines. */
  lemma FromZeroBounded(f: Filters, pattern: Option<string>, lines: seq<string>)
    ensures Bounded(ProcessAll(Stats(0, 0, 0, 0, 0), f, pattern, lines))
    ensures ProcessAll(Stats(0, 0, 0, 0, 0), f, pattern, lines).total <= |lines|
  {
    ProcessAllGrows(Stats(0, 0, 0, 0, 0), f, pattern, lines);
  }

  // ---------------------------------------------------------------------------
  // analyze_buffer
  // ---------------------------------------------------------------------------

  /** Index of the first '\n' at or after `start`, or |buf| when there is none. */
  function NextNewline(buf: string, start: nat): (k: nat)
    requires start <= |buf|
    ensures start <= k <= |buf|
    decreases |buf| - start
  {
    if start == |buf| || buf[start] == '\n' then start else NextNewline(buf, start + 1)
  }

  /** NextNewline stops at the first '\n' and skips nothing else. */
  lemma {:induction false} NextNewlineSpec(buf: string, start: nat)
    requires start <= |buf|
    ensures forall j :: start <= j < NextNewline(buf, start) ==> buf[j] != '\n'
    ensures NextNewline(buf, start) < |buf| ==> buf[NextNewline(buf, start)] == '\n'
    decreases |buf| - start
  {
    if start < |buf| && buf[start] != '\n' {
      NextNewlineSpec(buf, start + 1);
    }
  }

  /** A position with no '\n' between `start` and it, and a '\n' or the end there, is NextNewline. */
  lemma {:induction false} NextNewlineAt(buf: string, start: nat, i: nat)
    requires start <= i <= |buf|
    requires forall j :: start <= j < i ==> buf[j] != '\n'
    requires i < |buf| ==> buf[i] == '\n'
    ensures NextNewline(buf, start) == i
    decreases i - start
  {
    if start < i {
      NextNewlineAt(buf, start + 1, i);
    }
  }

  /** The '\n'-delimited pieces of `buf` from `start` on, the end of `buf` ending the last one. */
  function SegmentsFrom(buf: string, start: nat): seq<string>
    requires start <= |buf|
    decreases |buf| - start
  {
    var k := NextNewline(buf, start);
    if k == |buf| then [buf[start..]] else [buf[start..k]] + SegmentsFrom(buf, k + 1)
  }

  /** The '\n'-delimited pieces of `s`, the end of `s` ending the last one; some may be empty. */
  function Segments(s: string): seq<string> {
    SegmentsFrom(s, 0)
  }

  /** The pieces joined back together with '\n'. */
  function Join(segments: seq<string>): string {
    if segments == [] then []
    else if |segments| == 1 then segments[0]
    else segments[0] + ['\n'] + Join(segments[1..])
  }

  lemma {:induction false} SegmentsFromJoin(buf: string, start: nat)
    requires start <= |buf|
    ensures |SegmentsFrom(buf, start)| >= 1
    ensures Join(SegmentsFrom(buf, start)) == buf[start..]
    ensures forall i, j ::
      0 <= i < |SegmentsFrom(buf, start)| && 0 <= j < |SegmentsFrom(buf, start)[i]| ==> SegmentsFrom(buf, start)[i][j] != '\n'
    decreases |buf| - start
  {
    var k := NextNewline(buf, start);
    NextNewlineSpec(buf, start);
    var segs := SegmentsFrom(buf, start);
    if k < |buf| {
      var rest := SegmentsFrom(buf, k + 1);
      SegmentsFromJoin(buf, k + 1);
      assert segs == [buf[start..k]] + rest;
      assert buf[start..] == buf[start..k] + ['\n'] + buf[k + 1..];
      forall i, j | 0 <= i < |segs| && 0 <= j < |segs[i]|
        ensures segs[i][j] != '\n'
      {
        if i > 0 {
          assert segs[i] == rest[i - 1];
        } else {
          assert segs[0][j] == buf[start + j];
        }
      }
    } else {
      assert forall j :: 0 <= j < |segs[0]| ==> segs[0][j] == buf[start + j];
    }
  }

  /** Segments cuts `s` at every '\n' and nowhere else: no piece holds one, and joining them gives `s` back. */
  lemma SegmentsJoin(s: string)
    ensures |Segments(s)| >= 1
    ensures Join(Segments(s)) == s
    ensures forall i, j :: 0 <= i < |Segments(s)| && 0 <= j < |Segments(s)[i]| ==> Segments(s)[i][j] != '\n'
  {
    SegmentsFromJoin(s, 0);
    assert s[0..] == s;
  }

  /** What process_line is given for each piece: nothing for an empty one, else the trimmed piece. */
  function Records(segments: seq<string>): seq<string>
    decreases |segments|
  {
    if segments == [] then []
    else
      var last := segments[|segments| - 1];
      Records(segments[..|segments| - 1]) + (if |last| == 0 then [] else [Trimmed(last)])
  }

  /** The lines process_line receives for a whole buffer, in order. */
  function Lines(buf: string): seq<string> {
    Records(Segments(buf))
  }

  /** Appending a piece appends its record, if it has one. */
  lemma RecordsSnoc(segments: seq<string>, piece: string)
    ensures Records(segments + [piece]) == Records(segments) + (if |piece| == 0 then [] else [Trimmed(piece)])
  {
    assert (segments + [piece])[..|segments|] == segments;
  }

  /** Processing one more line is one more Step. */
  lemma ProcessAllSnoc(s: Stats, f: Filters, pattern: Option<string>, lines: seq<string>, line: string)
    ensures ProcessAll(s, f, pattern, lines + [line]) == Step(ProcessAll(s, f, pattern, lines), f, pattern, line)
  {
    assert (lines + [line])[..|lines|] == lines;
  }

  /**
   * The scan of analyze_buffer in pieces: from `start`, a '\n' at `i` (or the
   * end of the buffer at `i`) with none before it closes the first piece.
   */
  lemma SegmentsAdvance(buf: string, start: nat, i: nat)
    requires start <= i <= |buf|
    requires forall j :: start <= j < i ==> buf[j] != '\n'
    requires i < |buf| ==> buf[i] == '\n'
    ensures i < |buf| ==> SegmentsFrom(buf, start) == [buf[start..i]] + SegmentsFrom(buf, i + 1)
    ensures i == |buf| ==> SegmentsFrom(buf, start) == [buf[start..i]]
  {
    NextNewlineAt(buf, start, i);
    assert buf[start..] == buf[start..|buf|];
  }

  /** One '\n' (or the end) met by the scan moves the piece it closes from the unread part to `done`. */
  lemma ScanStep(buf: string, done: seq<string>, start: nat, i: nat)
    requires start <= i <= |buf|
    requires forall j :: start <= j < i ==> buf[j] != '\n'
    requires i < |buf| ==> buf[i] == '\n'
    requires Segments(buf) == done + SegmentsFrom(buf, start)
    ensures i < |buf| ==> Segments(buf) == (done + [buf[start..i]]) + SegmentsFrom(buf, i + 1)
    ensures i == |buf| ==> Segments(buf) == done + [buf[start..i]]
  {
    SegmentsAdvance(buf, start, i);
    if i < |buf| {
      assert done + ([buf[start..i]] + SegmentsFrom(buf, i + 1)) == (done + [buf[start..i]]) + SegmentsFrom(buf, i + 1);
    }
  }

  /** ScanStep together with what the closed piece adds to the counts. */
  lemma PieceStep(buf: string, done: seq<string>, start: nat, i: nat, initial: Stats, f: Filters, pattern: Option<string>)
    requires start <= i <= |buf|
    requires forall j :: start <= j < i ==> buf[j] != '\n'
    requires i < |buf| ==> buf[i] == '\n'
    requires Segments(buf) == done + SegmentsFrom(buf, start)
    ensures i < |buf| ==> Segments(buf) == (done + [buf[start..i]]) + SegmentsFrom(buf, i + 1)
    ensures i == |buf| ==> Segments(buf) == done + [buf[start..i]]
    ensures ProcessAll(initial, f, pattern, Records(done + [buf[start..i]]))
      == if i == start then ProcessAll(initial, f, pattern, Records(done))
         else Step(ProcessAll(initial, f, pattern, Records(done)), f, pattern, Trimmed(buf[start..i]))
  {
    var piece := buf[start..i];
    ScanStep(buf, done, start, i);
    RecordsSnoc(done, piece);
    if |piece| > 0 {
      ProcessAllSnoc(initial, f, pattern, Records(done), Trimmed(piece));
    } else {
      assert Records(done) + [] == Records(done);
    }
  }

  /**
   * The body of analyze_buffer for one piece: an empty piece is skipped, any
   * other is copied into a fresh buffer, trimmed and handed to process_line.
   */
  method CountPiece(piece: string, stats: LogStats, f: Filters, pattern: Option<string>)
    modifies stats
    ensures stats.Value() == if |piece| == 0 then old(stats.Value()) else Step(old(stats.Value()), f, pattern, Trimmed(piece))
  {
    var lineLen := |piece|;
    if lineLen > 0 {
      var lineCopy := new char[lineLen];
      forall j | 0 <= j < lineLen {
        lineCopy[j] := piece[j];
      }
      assert lineCopy[..] == piece;
      var len := TrimNewline(lineCopy);
      ProcessLine(lineCopy[..len], stats, f, pattern);
    }
  }

  /**
   * One position of analyze_buffer's scan: a '\n' at `i`, or the end of the
   * buffer, closes the piece that began at `lineStart` and hands it to
   * CountPiece; any other character only extends the piece.
   */
  method ScanAt(buf: string, i: nat, lineStart: nat, ghost done: seq<string>, stats: LogStats, f: Filters, pattern: Option<string>, ghost initial: Stats)
    returns (nextStart: nat, ghost nextDone: seq<string>)
    requires lineStart <= i <= |buf|
    requires forall j :: lineStart <= j < i ==> buf[j] != '\n'
    requires Segments(buf) == done + SegmentsFrom(buf, lineStart)
    requires stats.Value() == ProcessAll(initial, f, pattern, Records(done))
    modifies stats
    ensures nextStart <= i + 1
    ensures i < |buf| ==> Segments(buf) == nextDone + SegmentsFrom(buf, nextStart)
    ensures i < |buf| ==> forall j :: nextStart <= j < i + 1 ==> buf[j] != '\n'
    ensures i == |buf| ==> nextDone == Segments(buf)
    ensures stats.Value() == ProcessAll(initial, f, pattern, Records(nextDone))
  {
    var c := if i == |buf| then '\n' else buf[i];
    if c == '\n' {
      var piece := buf[lineStart..i];
      PieceStep(buf, done, lineStart, i, initial, f, pattern);
      CountPiece(piece, stats, f, pattern);
      nextDone := done + [piece];
      nextStart := i + 1;
    } else {
      nextDone := done;
      nextStart := lineStart;
    }
  }

  /**
   * analyze_buffer: scans the buffer, treating its end as one more '\n'; each
   * non-empty piece is copied out, trimmed and handed to process_line.
   */
  method AnalyzeBuffer(buf: string, stats: LogStats, f: Filters, pattern: Option<string>)
    modifies stats
    ensures stats.Value() == ProcessAll(old(stats.Value()), f, pattern, Lines(buf))
  {
    ghost var initial := stats.Value();
    var lineStart: nat := 0;
    ghost var done: seq<string> := [];
    for i := 0 to |buf| + 1
      invariant lineStart <= i
      invariant i <= |buf| ==> Segments(buf) == done + SegmentsFrom(buf, lineStart)
      invariant i <= |buf| ==> forall j :: lineStart <= j < i ==> buf[j] != '\n'
      invariant i == |buf| + 1 ==> done == Segments(buf)
      invariant stats.Value() == ProcessAll(initial, f, pattern, Records(done))
    {
      lineStart, done := ScanAt(buf, i, lineStart, done, stats, f, pattern, initial);
    }
  }
}
