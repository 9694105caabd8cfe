/**
 * Model of filediffadvanced: two files are compared byte by byte over the
 * range both cover, every differing position is counted, the first few are
 * recorded with their line and column in the first file, and the extra bytes
 * of the longer file count as differences too.
 *
 * The mapped files are byte sequences; option parsing starts from the list of
 * options getopt_long has already recognised.
 */
module FileDiff {
  import opened Wrappers
  import opened Bytes

  /** How many differing positions are recorded when -o is not given. */
  const DefaultMaxReport: nat := 10

  /** The newline byte, which ends a line of the first file. */
  const Newline: byte := 0x0A

  // ---------------------------------------------------------------------------
  // parse_options
  // ---------------------------------------------------------------------------

  /** The settings parse_options fills in. */
  datatype DiffOptions = DiffOptions(brief: bool, summary: bool, textMode: bool, maxReport: nat)

  /** One option as getopt_long reports it; `OffsetFlag` carries strtol's value of its argument. */
  datatype Flag = BriefFlag | SummaryFlag | TextFlag | OffsetFlag(value: int) | HelpFlag | UnknownFlag

  datatype ParseResult =
    | Parsed(opts: DiffOptions)
    | HelpExit      // -h: usage printed, exit status 0
    | ParseFailure  // unknown option or non-positive -o value

  /** An option at which parse_options stops reading. */
  predicate Stops(flag: Flag) {
    flag.HelpFlag? || flag.UnknownFlag? || (flag.OffsetFlag? && flag.value <= 0)
  }

  /** The value of the last -o option, or the default when there is none. */
  function LastOffset(flags: seq<Flag>): int {
    if flags == [] then DefaultMaxReport
    else if flags[|flags| - 1].OffsetFlag? then flags[|flags| - 1].value
    else LastOffset(flags[..|flags| - 1])
  }

  /** Without any -o the default is kept; with accepted ones the result is one of their values and positive. */
  lemma {:induction false} LastOffsetSpec(flags: seq<Flag>)
    ensures (forall k :: 0 <= k < |flags| ==> !flags[k].OffsetFlag?) ==> LastOffset(flags) == DefaultMaxReport
    ensures (forall k :: 0 <= k < |flags| ==> !Stops(flags[k])) ==> LastOffset(flags) >= 1
    ensures LastOffset(flags) == DefaultMaxReport
      || exists k :: 0 <= k < |flags| && flags[k] == OffsetFlag(LastOffset(flags))
  {
    if flags != [] && !flags[|flags| - 1].OffsetFlag? {
      var init := flags[..|flags| - 1];
      LastOffsetSpec(init);
      if LastOffset(flags) != DefaultMaxReport {
        var k :| 0 <= k < |init| && init[k] == OffsetFlag(LastOffset(init));
        assert flags[k] == init[k];
      }
    }
  }

  /**
   * parse_options: the fields start at their defaults, each option sets its
   * field, and summary mode is switched on when neither -b nor -s was seen.
   */
  method ParseOptions(flags: seq<Flag>) returns (r: ParseResult)
    ensures r.Parsed? <==> forall k :: 0 <= k < |flags| ==> !Stops(flags[k])
    ensures r.HelpExit? <==>
      exists k :: 0 <= k < |flags| && flags[k] == HelpFlag && forall j :: 0 <= j < k ==> !Stops(flags[j])
    ensures r.Parsed? ==> r.opts.maxReport >= 1 && r.opts.maxReport == LastOffset(flags)
    ensures r.Parsed? ==> r.opts.brief == (BriefFlag in flags)
    ensures r.Parsed? ==> r.opts.summary == (SummaryFlag in flags || BriefFlag !in flags)
    ensures r.Parsed? ==> r.opts.textMode == (TextFlag in flags)
  {
    var brief, summary, textMode := false, false, false;
    var maxReport: nat := DefaultMaxReport;
    for i := 0 to |flags|
      invariant forall k :: 0 <= k < i ==> !Stops(flags[k])
      invariant brief == (BriefFlag in flags[..i])
      invariant summary == (SummaryFlag in flags[..i])
      invariant textMode == (TextFlag in flags[..i])
      invariant maxReport == LastOffset(flags[..i])
    {
      assert flags[..i + 1][..i] == flags[..i];
      match flags[i]
      case BriefFlag =>
        brief := true;
      case SummaryFlag =>
        summary := true;
      case TextFlag =>
        textMode := true;
      case OffsetFlag(v) =>
        if v <= 0 {
          return ParseFailure;
        }
        maxReport := v;
      case HelpFlag =>
        return HelpExit;
      case UnknownFlag =>
        return ParseFailure;
    }
    assert flags[..|flags|] == flags;
    LastOffsetSpec(flags);
    if !brief && !summary {
      summary := true;
    }
    r := Parsed(DiffOptions(brief, summary, textMode, maxReport));
  }

  // ---------------------------------------------------------------------------
  // Specification of the scan
  // ---------------------------------------------------------------------------

  function Min(a: nat, b: nat): nat {
    if a < b then a else b
  }

  function Max(a: nat, b: nat): nat {
    if a > b then a else b
  }

  /** The offsets below `n` at which the two files hold different bytes, in the order the scan meets them. */
  function MismatchOffsets(f1: seq<byte>, f2: seq<byte>, n: nat): seq<nat>
    requires n <= |f1| && n <= |f2|
  {
    if n == 0 then []
    else MismatchOffsets(f1, f2, n - 1) + (if f1[n - 1] != f2[n - 1] then [n - 1] else [])
  }

  /** The offsets are exactly the positions below `n` at which the files differ. */
  lemma {:induction false} MismatchOffsetsExact(f1: seq<byte>, f2: seq<byte>, n: nat)
    requires n <= |f1| && n <= |f2|
    ensures forall o :: o in MismatchOffsets(f1, f2, n) <==> 0 <= o < n && f1[o] != f2[o]
    ensures |MismatchOffsets(f1, f2, n)| <= n
  {
    if n > 0 {
      MismatchOffsetsExact(f1, f2, n - 1);
    }
  }

  /** The offsets are strictly increasing. */
  lemma {:induction false} MismatchOffsetsIncreasing(f1: seq<byte>, f2: seq<byte>, n: nat)
    requires n <= |f1| && n <= |f2|
    ensures forall a, b :: 0 <= a < b < |MismatchOffsets(f1, f2, n)| ==>
      MismatchOffsets(f1, f2, n)[a] < MismatchOffsets(f1, f2, n)[b]
  {
    if n > 0 {
      MismatchOffsetsIncreasing(f1, f2, n - 1);
      MismatchOffsetsExact(f1, f2, n - 1);
      var prev := MismatchOffsets(f1, f2, n - 1);
      forall a | 0 <= a < |prev|
        ensures prev[a] < n - 1
      {
        assert prev[a] in prev;
      }
    }
  }

  /**
   * The `k`-th offset is the `k`-th differing position: every differing
   * position before it is among the offsets listed before it.
   */
  lemma MismatchOffsetsFirst(f1: seq<byte>, f2: seq<byte>, n: nat, k: nat)
    requires n <= |f1| && n <= |f2|
    requires k < |MismatchOffsets(f1, f2, n)|
    ensures MismatchOffsets(f1, f2, n)[k] < n
    ensures forall o :: 0 <= o < MismatchOffsets(f1, f2, n)[k] && f1[o] != f2[o] ==> o in MismatchOffsets(f1, f2, n)[..k]
  {
    var offsets := MismatchOffsets(f1, f2, n);
    MismatchOffsetsExact(f1, f2, n);
    MismatchOffsetsIncreasing(f1, f2, n);
    assert offsets[k] in offsets;
    forall o | 0 <= o < offsets[k] && f1[o] != f2[o]
      ensures o in offsets[..k]
    {
      assert o in offsets;
      var a :| 0 <= a < |offsets| && offsets[a] == o;
      assert offsets[..k][a] == o;
    }
  }

  /** Scanning further only appends: the offsets below `m` come first among those below `n`. */
  lemma {:induction false} MismatchOffsetsPrefix(f1: seq<byte>, f2: seq<byte>, m: nat, n: nat)
    requires m <= n <= |f1| && n <= |f2|
    ensures |MismatchOffsets(f1, f2, m)| <= |MismatchOffsets(f1, f2, n)|
    ensures MismatchOffsets(f1, f2, n)[..|MismatchOffsets(f1, f2, m)|] == MismatchOffsets(f1, f2, m)
    decreases n - m
  {
    if m < n {
      MismatchOffsetsPrefix(f1, f2, m, n - 1);
      var prev := MismatchOffsets(f1, f2, n - 1);
      assert MismatchOffsets(f1, f2, n)[..|prev|] == prev;
    }
  }

  /** Swapping the files finds the same offsets. */
  lemma {:induction false} MismatchOffsetsSymmetric(f1: seq<byte>, f2: seq<byte>, n: nat)
    requires n <= |f1| && n <= |f2|
    ensures MismatchOffsets(f1, f2, n) == MismatchOffsets(f2, f1, n)
  {
    if n > 0 {
      MismatchOffsetsSymmetric(f1, f2, n - 1);
    }
  }

  /** The number of differing bytes: mismatches in the shared range plus the longer file's extra bytes. */
  function DiffBytes(f1: seq<byte>, f2: seq<byte>): nat {
    |MismatchOffsets(f1, f2, Min(|f1|, |f2|))| + (Max(|f1|, |f2|) - Min(|f1|, |f2|))
  }

  /** No differing byte exactly when the files are equal. */
  lemma DiffBytesZeroIff(f1: seq<byte>, f2: seq<byte>)
    ensures DiffBytes(f1, f2) == 0 <==> f1 == f2
  {
    var n := Min(|f1|, |f2|);
    var offsets := MismatchOffsets(f1, f2, n);
    MismatchOffsetsExact(f1, f2, n);
    if |offsets| > 0 {
      assert offsets[0] in offsets;
    }
    if DiffBytes(f1, f2) == 0 {
      forall o | 0 <= o < |f1|
        ensures f1[o] == f2[o]
      {
        assert o !in offsets;
      }
    }
  }

  /** The count does not depend on the order of the files. */
  lemma DiffBytesSymmetric(f1: seq<byte>, f2: seq<byte>)
    ensures DiffBytes(f1, f2) == DiffBytes(f2, f1)
  {
    MismatchOffsetsSymmetric(f1, f2, Min(|f1|, |f2|));
  }

  /** Against an empty file every byte of the other one differs and there is no shared range. */
  lemma DiffBytesEmpty(f1: seq<byte>, f2: seq<byte>)
    requires f1 == [] || f2 == []
    ensures DiffBytes(f1, f2) == |f1| + |f2|
    ensures MismatchOffsets(f1, f2, Min(|f1|, |f2|)) == []
  {
  }

  /** The line of the first file that offset `i` lies in, counting from 1. */
  function LineAt(f: seq<byte>, i: nat): nat
    requires i <= |f|
  {
    if i == 0 then 1 else LineAt(f, i - 1) + (if f[i - 1] == Newline then 1 else 0)
  }

  /** The column of offset `i` in its line, counting from 1. */
  function ColAt(f: seq<byte>, i: nat): nat
    requires i <= |f|
  {
    if i == 0 then 1 else if f[i - 1] == Newline then 1 else ColAt(f, i - 1) + 1
  }

  /** How many times `v` occurs in `s`. */
  function Count(s: seq<byte>, v: byte): nat {
    if s == [] then 0 else (if s[0] == v then 1 else 0) + Count(s[1..], v)
  }

  /** Counting over a sequence with one more byte at its end. */
  lemma {:induction false} CountSnoc(s: seq<byte>, x: byte, v: byte)
    ensures Count(s + [x], v) == Count(s, v) + (if x == v then 1 else 0)
  {
    if s != [] {
      assert (s + [x])[1..] == s[1..] + [x];
      CountSnoc(s[1..], x, v);
    }
  }

  /** The line is one more than the number of newlines before the offset. */
  lemma {:induction false} LineAtCountsNewlines(f: seq<byte>, i: nat)
    requires i <= |f|
    ensures LineAt(f, i) == 1 + Count(f[..i], Newline)
  {
    if i > 0 {
      LineAtCountsNewlines(f, i - 1);
      assert f[..i] == f[..i - 1] + [f[i - 1]];
      CountSnoc(f[..i - 1], f[i - 1], Newline);
    }
  }

  /**
   * The column is one more than the number of bytes since the last newline
   * before the offset, or since the start of the file when there is none.
   */
  lemma {:induction false} ColAtSinceNewline(f: seq<byte>, i: nat)
    requires i <= |f|
    ensures 1 <= ColAt(f, i) <= i + 1
    ensures forall j :: i + 1 - ColAt(f, i) <= j < i ==> f[j] != Newline
    ensures ColAt(f, i) <= i ==> f[i - ColAt(f, i)] == Newline
  {
    if i > 0 && f[i - 1] != Newline {
      ColAtSinceNewline(f, i - 1);
    }
  }

  /** What is recorded about a differing offset. */
  datatype DiffEntry = DiffEntry(offset: nat, b1: byte, b2: byte, line: nat, col: nat)

  function EntryAt(f1: seq<byte>, f2: seq<byte>, o: nat): DiffEntry
    requires o < |f1| && o < |f2|
  {
    DiffEntry(o, f1[o], f2[o], LineAt(f1, o), ColAt(f1, o))
  }

  // ---------------------------------------------------------------------------
  // The scan loop of diff_files
  // ---------------------------------------------------------------------------

  /**
   * The loop of diff_files over the shared range: every mismatch is counted,
   * the first `maxReport` are written into a fixed-size entries array, and the
   * line and column trackers follow the first file on every index.
   */
  method Scan(f1: seq<byte>, f2: seq<byte>, maxReport: nat) returns (diffBytes: nat, entries: seq<DiffEntry>)
    ensures diffBytes == DiffBytes(f1, f2)
    ensures |entries| == Min(maxReport, |MismatchOffsets(f1, f2, Min(|f1|, |f2|))|)
    ensures forall k :: 0 <= k < |entries| ==>
      && MismatchOffsets(f1, f2, Min(|f1|, |f2|))[k] < Min(|f1|, |f2|)
      && entries[k] == EntryAt(f1, f2, MismatchOffsets(f1, f2, Min(|f1|, |f2|))[k])
  {
    var minSize := Min(|f1|, |f2|);
    var maxSize := Max(|f1|, |f2|);
    var buffer := new DiffEntry[maxReport];
    diffBytes := 0;
    var stored: nat := 0;
    var line: nat := 1;
    var col: nat := 1;
    for i := 0 to minSize
      invariant diffBytes == |MismatchOffsets(f1, f2, i)|
      invariant stored == Min(maxReport, diffBytes)
      invariant line == LineAt(f1, i) && col == ColAt(f1, i)
      invariant forall k :: 0 <= k < stored ==>
        MismatchOffsets(f1, f2, i)[k] < i && buffer[k] == EntryAt(f1, f2, MismatchOffsets(f1, f2, i)[k])
    {
      if f1[i] != f2[i] {
        diffBytes := diffBytes + 1;
        if stored < maxReport {
          buffer[stored] := DiffEntry(i, f1[i], f2[i], line, col);
          stored := stored + 1;
        }
      }
      if f1[i] == Newline {
        line := line + 1;
        col := 1;
      } else {
        col := col + 1;
      }
    }
    diffBytes := diffBytes + (maxSize - minSize);
    entries := buffer[..stored];
  }

  // ---------------------------------------------------------------------------
  // diff_files and main
  // ---------------------------------------------------------------------------

  /** What diff_files works out before printing. */
  datatype DiffReport = DiffReport(
    size1: nat,
    size2: nat,
    diffBytes: nat,
    entries: seq<DiffEntry>,
    identical: bool)

  /**
   * diff_files. A file is None when opening, fstat or mapping it fails;
   * `allocOk` is whether the entries array could be allocated and `clockOk`
   * whether both clock readings succeeded. Status 2 reports any such failure,
   * otherwise 0 for identical files and 1 for files that differ.
   */
  method DiffFiles(file1: Option<seq<byte>>, file2: Option<seq<byte>>, allocOk: bool, clockOk: bool, opts: DiffOptions)
    returns (status: int, report: Option<DiffReport>)
    ensures status == 2 <==> file1.None? || file2.None? || (opts.maxReport > 0 && !allocOk) || !clockOk
    ensures status == 2 <==> report.None?
    ensures status != 2 ==> (status == 0 <==> file1.value == file2.value)
    ensures status != 2 ==> status == 0 || status == 1
    ensures report.Some? ==>
      && report.value.size1 == |file1.value| && report.value.size2 == |file2.value|
      && report.value.diffBytes == DiffBytes(file1.value, file2.value)
      && report.value.identical == (report.value.diffBytes == 0) == (status == 0)
      && |report.value.entries| == Min(opts.maxReport, |MismatchOffsets(file1.value, file2.value, Min(|file1.value|, |file2.value|))|)
      && forall k :: 0 <= k < |report.value.entries| ==>
        && MismatchOffsets(file1.value, file2.value, Min(|file1.value|, |file2.value|))[k] < Min(|file1.value|, |file2.value|)
        && report.value.entries[k]
           == EntryAt(file1.value, file2.value, MismatchOffsets(file1.value, file2.value, Min(|file1.value|, |file2.value|))[k])
  {
    if file1.None? || file2.None? {
      return 2, None;
    }
    if opts.maxReport > 0 && !allocOk {
      return 2, None;
    }
    if !clockOk {
      return 2, None;
    }
    var f1, f2 := file1.value, file2.value;
    var diffBytes, entries := Scan(f1, f2, opts.maxReport);
    var identical := diffBytes == 0;
    DiffBytesZeroIff(f1, f2);
    report := Some(DiffReport(|f1|, |f2|, diffBytes, entries, identical));
    status := if identical then 0 else 1;
  }

  /**
   * main: status 2 when parsing fails, 0 after -h, 2 unless exactly two file
   * names remain, and otherwise the status of diff_files on those two files.
   * `files` holds the contents of every path that can be opened and mapped.
   */
  method Run(flags: seq<Flag>, operands: seq<string>, files: map<string, seq<byte>>, allocOk: bool, clockOk: bool)
    returns (status: int, report: Option<DiffReport>)
    ensures (exists k :: 0 <= k < |flags| && Stops(flags[k])) ==> report.None?
    ensures (exists k :: 0 <= k < |flags| && Stops(flags[k])) ==>
      (status == 0 <==> exists k :: 0 <= k < |flags| && flags[k] == HelpFlag && forall j :: 0 <= j < k ==> !Stops(flags[j]))
    ensures (exists k :: 0 <= k < |flags| && Stops(flags[k])) ==> status == 0 || status == 2
    ensures (forall k :: 0 <= k < |flags| ==> !Stops(flags[k])) && |operands| != 2 ==> status == 2 && report.None?
    ensures (forall k :: 0 <= k < |flags| ==> !Stops(flags[k])) && |operands| == 2 ==>
      && (status == 2 <==> operands[0] !in files || operands[1] !in files || !allocOk || !clockOk)
      && (status == 0 <==> operands[0] in files && operands[1] in files && allocOk && clockOk
                           && files[operands[0]] == files[operands[1]])
      && (status == 1 <==> operands[0] in files && operands[1] in files && allocOk && clockOk
                           && files[operands[0]] != files[operands[1]])
      && (report.Some? <==> status != 2)
      && (report.Some? ==> report.value.diffBytes == DiffBytes(files[operands[0]], files[operands[1]])
                           && report.value.identical == (status == 0))
  {
    var parsed := ParseOptions(flags);
    match parsed
    case ParseFailure =>
      return 2, None;
    case HelpExit =>
      return 0, None;
    case Parsed(opts) =>
      if |operands| != 2 {
        return 2, None;
      }
      var file1 := if operands[0] in files then Some(files[operands[0]]) else None;
      var file2 := if operands[1] in files then Some(files[operands[1]]) else None;
      status, report := DiffFiles(file1, file2, allocOk, clockOk, opts);
  }

  // ---------------------------------------------------------------------------
  // What is printed
  // ---------------------------------------------------------------------------

  /** isprint in the C locale: the bytes from space to tilde. */
  predicate IsPrint(b: byte) {
    0x20 <= b <= 0x7E
  }

  /** The character text mode shows for a byte: the byte itself when printable, otherwise '.'. */
  function DisplayChar(b: byte): (c: char)
    ensures ' ' <= c <= '~'
    ensures IsPrint(b) ==> c as int == b as int
    ensures !IsPrint(b) ==> c == '.'
  {
    if IsPrint(b) then (b as int) as char else '.'
  }

  /** The parts of the output diff_files prints, in order. */
  datatype Section =
    | Verdict(identical: bool)                                   // -b: identical or differ
    | Summary(size1: nat, size2: nat, diffBytes: nat)            // the statistics block
    | EntryList(entries: seq<DiffEntry>, textMode: bool)         // the recorded positions

  function Sections(opts: DiffOptions, r: DiffReport): seq<Section> {
    if opts.brief then [Verdict(r.identical)]
    else
      (if opts.summary then [Summary(r.size1, r.size2, r.diffBytes)] else [])
      + (if !r.identical && |r.entries| > 0 then [EntryList(r.entries, opts.textMode)] else [])
  }

  /**
   * For a report of two files, brief mode prints only the verdict, and the
   * list of positions appears exactly when brief mode is off, some byte in
   * the shared range differs and at least one position may be recorded.
   */
  lemma SectionsShown(opts: DiffOptions, f1: seq<byte>, f2: seq<byte>, r: DiffReport)
    requires r.diffBytes == DiffBytes(f1, f2) && r.identical == (r.diffBytes == 0)
    requires |r.entries| == Min(opts.maxReport, |MismatchOffsets(f1, f2, Min(|f1|, |f2|))|)
    ensures opts.brief ==> Sections(opts, r) == [Verdict(f1 == f2)]
    ensures (exists k :: 0 <= k < |Sections(opts, r)| && Sections(opts, r)[k].EntryList?) <==>
      !opts.brief && opts.maxReport > 0 && |MismatchOffsets(f1, f2, Min(|f1|, |f2|))| > 0
  {
    DiffBytesZeroIff(f1, f2);
    var s := Sections(opts, r);
    if !opts.brief && opts.maxReport > 0 && |MismatchOffsets(f1, f2, Min(|f1|, |f2|))| > 0 {
      assert s[|s| - 1].EntryList?;
    }
  }
}
