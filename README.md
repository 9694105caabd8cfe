# Verified model of three command-line tools from csc332_project

This project models the computational core of three small C utilities and
proves what they promise.

- **filediffadvanced** compares two files byte by byte. It counts the
  differing positions, where the extra bytes of the longer file count as
  differences. It records the first few differences with the line and
  column at which they occur in the first file, and it exits with 0
  (identical), 1 (different) or 2 (error).
- **loganalyzer** cuts a log into lines at `'\n'`, treating the end of the
  buffer as one more `'\n'`, and skips empty lines. It strips trailing
  `'\r'`/`'\n'` from each line and filters by date (on, before or after a
  `YYYY-MM-DD` prefix) and by level (`ERROR`, `WARNING`, `INFO`). It counts
  the surviving lines into a `LogStats` record.
- **filecrypt** encrypts or decrypts a file in 4096-byte chunks. It uses
  either a repeating-key XOR or a per-byte bit rotation whose shift comes
  from the first key byte. Before opening any file it checks its command
  line.

Files:

- `Wrappers.dfy`: `Option` and `Result`.
- `Bytes.dfy`: the `byte` type, an unsigned char as `bv8`.
- `FileDiff.dfy`, `LogAnalyzer.dfy`, `FileCrypt.dfy`: one module per tool.

Every tool follows the form of its C code:

- **Loops are methods with invariants.** These include the scan of
  `diff_files`, `parse_options`, `trim_newline`, `analyze_buffer`,
  `roll_left`/`roll_right` and the read loops of the two ciphers. Each is
  proved against a specification function.
- **Fixed buffers are arrays.** These are the entries array of the diff, the
  line copy handed to `trim_newline` and the 4096-byte cipher buffer.
- **Counters updated through a pointer are a class.** `LogStats` is one,
  with `process_line` a method that modifies it.

The operating system does not appear. File contents, open failures, the
byte counts `read()` returns, what `fgets` stores and the options
`getopt`/`getopt_long` recognised are all parameters of the model.

## Model

| member | source | states |
|---|---|---|
| FileDiff.LastOffsetSpec | csc332_project/filediffadvanced_mahdi/src/filediffadvanced.c:73-95 | with no `-o` the report limit is 10; when no option was refused it is at least 1; otherwise it is the value of some `-o` |
| FileDiff.ParseOptions | csc332_project/filediffadvanced_mahdi/src/filediffadvanced.c:59-112 | parsing succeeds iff no option is `-h`, unknown or a non-positive `-o`; `-h` wins iff it comes before every refused option; on success the limit is the last `-o` (default 10, always ≥ 1), brief and text follow their flags, and summary is on iff `-s` was given or `-b` was not |
| FileDiff.MismatchOffsetsExact | csc332_project/filediffadvanced_mahdi/src/filediffadvanced.c:191-202 | the offsets the scan meets are exactly the positions below the bound where the two files hold different bytes |
| FileDiff.MismatchOffsetsIncreasing | csc332_project/filediffadvanced_mahdi/src/filediffadvanced.c:191-201 | the differing offsets come in strictly increasing order |
| FileDiff.MismatchOffsetsFirst | csc332_project/filediffadvanced_mahdi/src/filediffadvanced.c:194-201 | the k-th recorded offset is the k-th difference: every differing position before it is among the k before it |
| FileDiff.MismatchOffsetsPrefix | csc332_project/filediffadvanced_mahdi/src/filediffadvanced.c:191-202 | scanning further only appends offsets; the earlier ones stay first and in place |
| FileDiff.MismatchOffsetsSymmetric | csc332_project/filediffadvanced_mahdi/src/filediffadvanced.c:192 | swapping the two files finds the same differing offsets |
| FileDiff.DiffBytesZeroIff | csc332_project/filediffadvanced_mahdi/src/filediffadvanced.c:216-231 | the difference count is 0 (the files are reported identical) iff the two files are equal, same length and same bytes |
| FileDiff.DiffBytesSymmetric | csc332_project/filediffadvanced_mahdi/src/filediffadvanced.c:165-216 | the difference count does not depend on the order of the files |
| FileDiff.DiffBytesEmpty | csc332_project/filediffadvanced_mahdi/src/filediffadvanced.c:165-216 | when one file is empty the count is the other file's size and no position is recorded |
| FileDiff.LineAtCountsNewlines | csc332_project/filediffadvanced_mahdi/src/filediffadvanced.c:187-212 | the line tracker at an offset is 1 plus the number of newlines of file 1 before it |
| FileDiff.ColAtSinceNewline | csc332_project/filediffadvanced_mahdi/src/filediffadvanced.c:188-211 | the column tracker is 1 plus the number of bytes since the last newline of file 1 (or since the start) |
| FileDiff.Scan | csc332_project/filediffadvanced_mahdi/src/filediffadvanced.c:176-216 | the count is the number of differing positions in the shared range plus the size difference; min(limit, mismatches) entries are kept, entry k being the k-th differing offset with both bytes and its line and column in file 1 |
| FileDiff.DiffFiles | csc332_project/filediffadvanced_mahdi/src/filediffadvanced.c:115-309 | status 2 iff a file cannot be opened or mapped, the entries array cannot be allocated or the clock fails; otherwise 0 iff the files are equal and 1 otherwise, with a report of both sizes, the count, the identical flag and min(limit, mismatches) entries, entry k being the k-th differing offset with both bytes and its line and column in file 1 |
| FileDiff.Run | csc332_project/filediffadvanced_mahdi/src/filediffadvanced.c:311-331 | a refused option gives 2 and `-h` gives 0, with no report; anything but exactly two file names gives 2; otherwise the status is 2 iff a file is missing or allocation or the clock fails, 0 iff both files are readable and equal, and 1 iff both are readable and differ, and a report with the difference count exists exactly when the status is not 2 |
| FileDiff.DisplayChar | csc332_project/filediffadvanced_mahdi/src/filediffadvanced.c:270-271 | text mode always shows a printable ASCII character: the byte itself when printable, otherwise `.` |
| FileDiff.SectionsShown | csc332_project/filediffadvanced_mahdi/src/filediffadvanced.c:233-291 | brief mode prints only the identical/differ verdict; the position list appears iff brief mode is off, some byte of the shared range differs and the limit is positive |
| LogAnalyzer.DateFilterArg | csc332_project/loganalyzer_raian/src/loganalyzer.c:225-238 | the stored date is the first ten characters of the argument, or all of it if shorter |
| LogAnalyzer.DateOnArgument | csc332_project/loganalyzer_raian/src/loganalyzer.c:225-228 | with `-d`, a line passes the date filter iff the argument has at least ten characters and the line starts with its first ten; a shorter argument lets no line through |
| LogAnalyzer.LogStats.constructor | csc332_project/loganalyzer_raian/src/loganalyzer.c:303-304 | the counters start at zero |
| LogAnalyzer.TrimmedSpec | csc332_project/loganalyzer_raian/src/loganalyzer.c:45-51 | trimming keeps a prefix, removes only `'\n'`/`'\r'`, and the result does not end in either |
| LogAnalyzer.TrimmedIdempotent | csc332_project/loganalyzer_raian/src/loganalyzer.c:45-51 | trimming a trimmed line changes nothing |
| LogAnalyzer.TrimmedUnique | csc332_project/loganalyzer_raian/src/loganalyzer.c:45-51 | a text not ending in a line end, followed by any run of line ends, trims to exactly that text |
| LogAnalyzer.TrimNewline | csc332_project/loganalyzer_raian/src/loganalyzer.c:45-51 | the string left in the array is the trimmed line and every position after it holds NUL |
| LogAnalyzer.ContainsIff | csc332_project/loganalyzer_raian/src/loganalyzer.c:91-99 | the substring search succeeds iff the needle occurs at some position of the line |
| LogAnalyzer.StrCmpOrder | csc332_project/loganalyzer_raian/src/loganalyzer.c:67 | the comparison is 0 iff the strings are equal, negative iff the first is lexicographically smaller and positive iff it is larger |
| LogAnalyzer.LexLessTail | csc332_project/loganalyzer_raian/src/loganalyzer.c:67 | with equal first characters the lexicographic order is that of the rests |
| LogAnalyzer.DateMatches | csc332_project/loganalyzer_raian/src/loganalyzer.c:54-78 | with no date filter every line passes; otherwise a line under 10 characters fails, and on/before/after pass iff its first ten characters are equal to, lexicographically below or above the filter date |
| LogAnalyzer.StepUnchangedIffRejected | csc332_project/loganalyzer_raian/src/loganalyzer.c:82-119 | a line leaves all counters unchanged iff it fails the date filter or a level filter is on and it carries none of the selected levels |
| LogAnalyzer.StepCounts | csc332_project/loganalyzer_raian/src/loganalyzer.c:126-140 | a counted line adds 1 to the total, 1 to each level whose keyword it contains (several may apply) and 1 to the pattern count iff a pattern was given and occurs in it |
| LogAnalyzer.ProcessLine | csc332_project/loganalyzer_raian/src/loganalyzer.c:80-141 | the record's new value is the old one after one counting step on the line |
| LogAnalyzer.ProcessAllGrows | csc332_project/loganalyzer_raian/src/loganalyzer.c:126-140 | over any sequence of lines no counter decreases, the total grows by at most the number of lines, and "every per-level count ≤ total" is preserved |
| LogAnalyzer.FromZeroBounded | csc332_project/loganalyzer_raian/src/loganalyzer.c:303-306 | from zeroed counters, the error, warning, info and pattern counts never exceed the total, which never exceeds the number of lines |
| LogAnalyzer.NextNewlineSpec | csc332_project/loganalyzer_raian/src/loganalyzer.c:148-157 | the scan for the end of a line passes no `'\n'` and stops at one or at the end |
| LogAnalyzer.NextNewlineAt | csc332_project/loganalyzer_raian/src/loganalyzer.c:148-157 | the first `'\n'` (or the end) after a start position is where that line ends |
| LogAnalyzer.SegmentsFromJoin | csc332_project/loganalyzer_raian/src/loganalyzer.c:146-180 | the pieces from a position hold no `'\n'` and, joined with `'\n'`, give back the rest of the buffer |
| LogAnalyzer.SegmentsJoin | csc332_project/loganalyzer_raian/src/loganalyzer.c:146-180 | the buffer is cut at every `'\n'` and nowhere else: joining the pieces gives the buffer back |
| LogAnalyzer.RecordsSnoc | csc332_project/loganalyzer_raian/src/loganalyzer.c:158-176 | one more piece adds its trimmed form as one more line, unless it is empty |
| LogAnalyzer.ProcessAllSnoc | csc332_project/loganalyzer_raian/src/loganalyzer.c:171 | handing one more line to the counter is one more counting step |
| LogAnalyzer.SegmentsAdvance | csc332_project/loganalyzer_raian/src/loganalyzer.c:157-178 | a `'\n'` (or the end) met after a line start closes exactly the piece between them |
| LogAnalyzer.ScanStep | csc332_project/loganalyzer_raian/src/loganalyzer.c:157-178 | each line end the scan meets moves the piece it closes from the unread part to the pieces seen |
| LogAnalyzer.PieceStep | csc332_project/loganalyzer_raian/src/loganalyzer.c:157-178 | closing a piece moves it to the pieces seen, and the counts over the pieces seen grow by one counting step of its trimmed form exactly when it is non-empty |
| LogAnalyzer.CountPiece | csc332_project/loganalyzer_raian/src/loganalyzer.c:158-176 | an empty piece leaves the record alone; any other piece is counted in its trimmed form |
| LogAnalyzer.ScanAt | csc332_project/loganalyzer_raian/src/loganalyzer.c:149-179 | one position of the scan: a `'\n'` or the end of the buffer closes the current piece, counts it and starts the next piece after it; the pieces closed so far followed by the rest of the buffer's pieces are always all of the buffer's pieces, and the record always equals counting the closed ones |
| LogAnalyzer.AnalyzeBuffer | csc332_project/loganalyzer_raian/src/loganalyzer.c:144-181 | the record ends as the old value after counting, in order, the trimmed non-empty `'\n'`-delimited pieces of the buffer, the end acting as the last terminator |
| FileCrypt.CRem8 | csc332_project/filecrypt_mir/src/filecrypt.c:31 | C's remainder by 8 lies strictly between -8 and 8, equals the mathematical remainder for non-negative counts and is never positive for negative ones |
| FileCrypt.RotLIsRotateLeft | csc332_project/filecrypt_mir/src/filecrypt.c:30-38 | k turns of the carry loop are the 8-bit left rotation by k, and 8 turns give the byte back |
| FileCrypt.RotRIsRotateRight | csc332_project/filecrypt_mir/src/filecrypt.c:40-48 | k turns of the carry loop are the 8-bit right rotation by k, and 8 turns give the byte back |
| FileCrypt.RotLAdd | csc332_project/filecrypt_mir/src/filecrypt.c:33-36 | m + n turns are m turns followed by n turns |
| FileCrypt.RotLPeriodic | csc332_project/filecrypt_mir/src/filecrypt.c:31-36 | n left turns equal n mod 8 left turns, so a multiple of 8 leaves the byte unchanged |
| FileCrypt.RotLTurn | csc332_project/filecrypt_mir/src/filecrypt.c:33-36 | a single left turn commutes with n left turns |
| FileCrypt.RotRTurn | csc332_project/filecrypt_mir/src/filecrypt.c:43-46 | a single right turn commutes with n right turns |
| FileCrypt.RotInverse | csc332_project/filecrypt_mir/src/filecrypt.c:30-48 | rolling right by n undoes rolling left by n, and the other way round |
| FileCrypt.RollLeft | csc332_project/filecrypt_mir/src/filecrypt.c:30-38 | the result is the byte rotated left by count mod 8, and the byte itself for a negative count |
| FileCrypt.RollRight | csc332_project/filecrypt_mir/src/filecrypt.c:40-48 | the result is the byte rotated right by count mod 8, and the byte itself for a negative count |
| FileCrypt.RollLeftRotates | csc332_project/filecrypt_mir/src/filecrypt.c:30-38 | for a count s ≥ 0, the turns roll_left makes are the 8-bit left rotation by s mod 8 |
| FileCrypt.RollRightRotates | csc332_project/filecrypt_mir/src/filecrypt.c:40-48 | for a count s ≥ 0, the turns roll_right makes are the 8-bit right rotation by s mod 8 |
| FileCrypt.XorStreamAt | csc332_project/filecrypt_mir/src/filecrypt.c:14-18 | output byte i is input byte i XOR the key byte at (start + i) mod key length, and the length is kept |
| FileCrypt.XorStreamAppend | csc332_project/filecrypt_mir/src/filecrypt.c:12-18 | encrypting two pieces one after the other, the key position carried on, equals encrypting them joined |
| FileCrypt.XorStreamInvolution | csc332_project/filecrypt_mir/src/filecrypt.c:16 | XOR with the same key stream twice gives the input back |
| FileCrypt.XorChunk | csc332_project/filecrypt_mir/src/filecrypt.c:15-18 | a chunk XORed in place at its file position is the key stream applied to that slice |
| FileCrypt.XorStreamExtend | csc332_project/filecrypt_mir/src/filecrypt.c:14-18 | the output so far plus one more chunk's output is the output for the longer prefix |
| FileCrypt.XorCrypt | csc332_project/filecrypt_mir/src/filecrypt.c:9-28 | whatever the chunking of the reads, the output is the input XORed with the key repeated from position 0 |
| FileCrypt.Shift | csc332_project/filecrypt_mir/src/filecrypt.c:56-57 | the shift is key[0] mod 8, or 1 when that is 0, so always in 1..7 |
| FileCrypt.BitStreamAt | csc332_project/filecrypt_mir/src/filecrypt.c:60-65 | output byte i is input byte i rolled right (decrypting) or left (encrypting), and the length is kept |
| FileCrypt.BitStreamRoundTrip | csc332_project/filecrypt_mir/src/filecrypt.c:59-65 | decrypting the encryption with the same shift gives the input back |
| FileCrypt.BitStreamExtend | csc332_project/filecrypt_mir/src/filecrypt.c:59-65 | the output so far plus one more chunk's output is the output for the longer prefix |
| FileCrypt.BitStreamAppend | csc332_project/filecrypt_mir/src/filecrypt.c:59-65 | rolling two pieces separately and joining them equals rolling the joined input |
| FileCrypt.RollBuffer | csc332_project/filecrypt_mir/src/filecrypt.c:60-65 | the first n buffer bytes become their rolled values and the bytes after them are left as they were |
| FileCrypt.BitCrypt | csc332_project/filecrypt_mir/src/filecrypt.c:51-77 | whatever the chunking, the output is every input byte rolled by the shift from the first key byte |
| FileCrypt.CryptRoundTrip | csc332_project/filecrypt_mir/src/filecrypt.c:185-189 | for either algorithm, decrypting the encryption with the same key gives the plaintext back, the length is kept, and XOR ignores the direction |
| FileCrypt.AlgorithmNamed | csc332_project/filecrypt_mir/src/filecrypt.c:104 | only the names "xor" and "rol" are accepted |
| FileCrypt.ValidateArgs | csc332_project/filecrypt_mir/src/filecrypt.c:104-127 | the command line passes iff the algorithm is "xor" or "rol", both files are named, exactly one of `-k`/`-P` and exactly one of `-e`/`-d` is given; a bad algorithm is the error reported iff the algorithm is bad |
| FileCrypt.KeyFromFile | csc332_project/filecrypt_mir/src/filecrypt.c:138-162 | a key file gives a key iff it can be read and is not empty, and the key is its whole contents |
| FileCrypt.KeyLength | csc332_project/filecrypt_mir/src/filecrypt.c:174-176 | the key length is the number of bytes before the first newline or NUL |
| FileCrypt.AfterTruncation | csc332_project/filecrypt_mir/src/filecrypt.c:132-153 | once the output is opened with truncation, an input or key file named by the output's path is empty and reading that input yields nothing; other files are as they were |
| FileCrypt.KeyFromPrompt | csc332_project/filecrypt_mir/src/filecrypt.c:164-183 | a typed key is accepted iff input was read and is non-empty before its first newline or NUL; it is that prefix and holds no newline |
| FileCrypt.Run | csc332_project/filecrypt_mir/src/filecrypt.c:129-195 | exit 0 iff the command line passes, input and output open and a key is obtained from the files as they are after the output is truncated; the output then holds the chosen cipher applied to the input as it is then; a refused command line touches no file; a key failure after opening leaves the output empty; an output path equal to the input path leaves the output empty, and one equal to the key file path exits 1 |

## Left out

- Operating-system calls are not modelled: `open`, `fstat`, `mmap`, `munmap`, `close`, `malloc`, `lseek`, `read`, `write`. File contents and their failures are parameters.
- A `read` or `write` error part-way through a cipher is not modelled. The source exits with status 1 after partial output; the model treats every read as successful and the output as the whole result.
- Timing and floating point in `diff_files` are left out: the elapsed time, the percentage, the megabytes and the throughput.
- `printf` text and the usage messages are not modelled. `FileDiff.Sections` models only which blocks are printed, and `FileDiff.DisplayChar` models the character shown in text mode.
- The SIGINT handlers of filediffadvanced and loganalyzer are not modelled, nor the `stop_requested` test in `analyze_buffer`; the scan always runs to the end.
- `getopt`, `getopt_long` and `strtol` are not modelled: the options arrive already recognised. In filediffadvanced, operands are counted as the names left after the options.
- loganalyzer's `main` is not modelled beyond the date argument and the zeroed counters: its option loop, opening and mapping the log, the empty-file warning and the printing of results are left out. The `-p` printing of matching lines is left out.
- Log data and lines are taken to hold no NUL character, so `strlen` and `strstr` see the whole line.
- LogAnalyzer.StrCmpOrder: compares characters by code point. C's `strcmp` compares unsigned chars; the two agree on byte-valued characters.
- Integer widths are unbounded: `int` line/column counters, `long` statistics, `off_t`, `size_t`, and the `long` from `strtol` narrowed to `size_t`.
- FileDiff.DiffFiles: open, fstat and mmap failures of a file are one outcome, and the two clock readings share one success flag. Both still give status 2, as in the source.
- FileCrypt.Run: a key file that cannot be opened, allocated for or read is one outcome, exit status 1, as in the source.
- FileCrypt.Run: aliasing between the output and the input or key file is recognised only when the paths are the same string. Different spellings of one file, such as `./f` and `f` or hard links, are not recognised.
- `csc332_project/timedexec_ibsan/src/finaltimedexec.c`, `memview.c`, `helpers.c` and `helpers.h` are not part of this model: they supervise processes and dump `/proc` files.
