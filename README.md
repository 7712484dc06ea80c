# ged — a verified model of the search-and-replace core

`ged` is a command-line tool that replaces a search term by a replacement
in every line of the files it is given, in place. Flags restrict it to a
given line (`-l`), a range of lines (`-lr n:m`), a number of occurrences per
line (`-o`), switch to regular expressions (`-r`) and report the changes
(`-v`). This project models, in Dafny, what one invocation does to the
files it names:

- `GoStrings` — the parts of Go's `strings` package the tool relies on:
  `Index`, `Replace` (first `n` non-overlapping occurrences, all when
  `n < 0`, none when `n == 0`, an empty search inserting at character
  boundaries), `Split` as `Pieces(_, _, -1)`, and `Join`.
- `GoStrconv` — `strconv.Atoi` (optional sign, at least one digit) and
  `strconv.Itoa` as its inverse.
- `LineScan` — `bufio.ScanLines` (split on `'\n'`, one trailing `'\r'`
  dropped per line, no empty token after a final `'\n'`) and the text
  `write` produces (every line followed by `'\n'`).
- `LineTransform` — which lines are eligible (`-l`, `-lr`) and what an
  eligible line becomes. In `-r` mode the line goes through the compiled
  expression's `ReplaceAllString`; the regular-expression engine is outside
  the model, so that mode carries the function it computes as a parameter.
- `FileProcessor` — `read` and `write` as loop methods proved against
  specification functions (`Rewritten`, `Records`, `Written`), the change
  records `read` keeps, and the read/write round trip.
- `Cli` — the checks `run` makes before touching any file: at least three
  positional arguments, then `parseLineRange`/`splitCheck`.
- `Ged` — a `Session` object holding the files (path to text) and the
  shared report `changedFiles`, with `read`, `write`, `readAndWrite` and
  `run` as methods that update it.
- `ReadCases` — cases from the repository's own `read` test table, stated
  against the model.

Trailing newlines: the test case "preserve multiple empty lines at end with
flags" (cases_test.go:27-32) expects `"\nhello there\nand there\n\n"` to
come back as `"\nhello there\nand there\n"`, one `'\n'` shorter. That is the
view the tests take, the lines `read` returns joined with `'\n'`
(main_test.go:26; `LineScan.JoinScan`, `ReadCases.PreserveEmptyLinesAtEnd`).
The file itself keeps that `'\n'`: `write` (main.go:190-198) puts a `'\n'`
after every line, the last one included, so for text without `'\r'` a file
that is empty or ends in `'\n'` is written back byte for byte, and any other
file gains exactly one `'\n'` (`LineScan.WrittenScan`).

## Model

| member | source | states |
|---|---|---|
| GoStrings.IndexSpec | main.go:168 | the index found is an occurrence, no earlier index is one, and -1 is returned exactly when the term does not occur |
| GoStrings.ReplaceNoMatch | main.go:168 | a line that does not contain a non-empty search term is returned unchanged, whatever the limit |
| GoStrings.ReplaceAtFirstMatch | main.go:168 | with budget left, the text before the first occurrence is copied, that occurrence replaced, and the scan resumes after it with one fewer occurrence allowed |
| GoStrings.ReplaceCopiesUntil | main.go:168 | text before the first occurrence of the search term is copied unchanged ahead of the rewrite of the rest |
| GoStrings.ReplaceIsJoinOfPieces | main.go:168 | replacing is cutting the line at the first n occurrences (all when n < 0, none when n == 0) and joining the pieces with the replacement |
| GoStrings.Replace | main.go:168 | a limit of 0, or a search term equal to its replacement, leaves the line as it is |
| GoStrings.InsertAtBoundariesLength | main.go:168 | an empty search term inserts the replacement at min(n, len + 1) character boundaries, at all of them when n < 0 |
| GoStrings.InsertAtBoundariesPieces | main.go:168 | with an empty search term the result is the line cut into an empty piece, then one piece per character before the last insertion point, then the rest, joined with the replacement |
| GoStrings.JoinPieces | main.go:99 | joining the pieces of a split with the separator gives back the text |
| GoStrings.PiecesSpec | main.go:99 | a split makes at most n cuts when n >= 0, no piece before a cut contains the separator, and the last piece is free of it unless the budget ran out |
| GoStrconv.Atoi | main.go:226 | parsing succeeds exactly on an optional sign followed by at least one decimal digit; otherwise the error is strconv's syntax error |
| GoStrconv.AtoiItoa | main.go:226-246 | every integer, written in decimal, parses back to itself |
| LineScan.ScanLines | main.go:155-158 | no scanned line contains '\n' |
| LineScan.Written | main.go:190-198 | the written text of at least one line ends in '\n' |
| LineScan.ScanWritten | main.go:155-198 | lines without '\n' and without a trailing '\r' scan back from their written text unchanged |
| LineScan.ScanJoin | main.go:155-158 | such lines joined with '\n' scan back to themselves when the last is not empty |
| LineScan.WrittenScan | main.go:155-198 | for text without '\r', writing the scanned lines restores an empty text or one ending in '\n' and adds one '\n' to any other |
| LineScan.JoinScan | main.go:155-158 | for text without '\r', the scanned lines joined with '\n' are the text minus at most one final '\n', so blank lines before it survive |
| LineTransform.Eligible | main.go:159 | a line is rewritten exactly when the skip test (wrong -l line, before the range start, at or after the range end) fails; with default flags every line is, and with -l n only line n - 1 |
| LineTransform.TransformLine | main.go:159-169 | a line that is not eligible is kept; in literal mode a limit of 0 or a search term equal to the replacement keeps it too |
| LineTransform.LiteralLineUnchanged | main.go:159-169 | in literal mode a line is kept when the limit is 0, when search equals replacement, or when the search term does not occur in it |
| LineTransform.NoMatchAcrossLines | main.go:155-168 | a search term holding '\n' never matches inside a scanned line, so the line is kept |
| FileProcessor.Read | main.go:146-184 | one output line per scanned line, each the rewrite of an eligible line or the line itself, and the change records of the specification |
| FileProcessor.Write | main.go:186-202 | the buffer receives every line followed by '\n' |
| FileProcessor.Records | main.go:172-174 | at most one record per scanned line, and none at all when verbose mode is off |
| FileProcessor.RecordsSpec | main.go:172-174 | every record names an eligible line that rewriting altered in verbose mode, with its text before and after; records are in strictly increasing line order; every such line has one |
| FileProcessor.RecordsEmpty | main.go:172-182 | no records are kept (so no report entry is made) exactly when no line qualifies, in particular whenever verbose mode is off |
| FileProcessor.LineMatchIsTextMatch | main.go:155-168 | a search term found in a scanned line is found in the file's text |
| FileProcessor.UnchangedLines | main.go:159-169 | in literal mode, with limit 0, search equal to replacement, or a search term the file does not contain, every line is kept |
| FileProcessor.UnchangedRoundTrip | main.go:146-202 | under the same conditions a file without '\r' is written back unchanged when empty or ending in '\n' and with one '\n' added otherwise |
| Cli.SplitCheck | main.go:98-104 | the range is accepted with its two pieces when splitting on ':' gives exactly two, and rejected with "give range like this: n:m" otherwise |
| Cli.SplitCheckSpec | main.go:98-104 | an accepted range is its first part, ':', its second part, and neither part contains ':' |
| Cli.SplitCheckTwoParts | main.go:98-104 | conversely, any two parts free of ':' joined by one ':' are accepted as exactly those two parts |
| Cli.ParseLineRangeAsWritten | main.go:214-221 | the code as written panics exactly on the empty range; ":" keeps the defaults |
| Cli.ParseLineRange | main.go:214-248 | ":" gives the defaults (start 0, end -1); a range that does not split into two parts on ':' is the format error |
| Cli.ParseLineRangeSpec | main.go:214-248 | a range is accepted exactly when it splits into two parts each empty or a decimal integer; an empty part keeps its default (start 0, end -1) and a present part sets that side |
| Cli.EmptyRangePanics | main.go:219-221 | on every range but the empty one the code as written returns what the corrected parser returns; the corrected parser rejects the empty range as malformed |
| Cli.Setup | main.go:56-67 | fewer than three arguments is an error before the range is checked; then a bad range is an error; otherwise search and replacement are the first two arguments, the paths are the rest (at least one), and the settings (occurrence limit, line, verbose, and the mode from -r) come from the flags and the start and end from the range |
| Ged.Step | main.go:122-132 | processing one path makes it a file holding its rewritten text (empty when it could not be opened), adds the records `read` made to the report when there are any, and changes no other path |
| Ged.Session.ReadFile | main.go:146-184 | a path with no file yields no lines and no report entry; otherwise the rewritten lines, and a report entry exactly when there are records |
| Ged.Session.WriteFile | main.go:186-202 | the file is replaced by every line followed by '\n'; no other file changes |
| Ged.Session.ReadAndWrite | main.go:122-132 | the file holds its rewritten text afterwards (a path that could not be opened ends up an empty file), and the report gains the records `read` made, if any; nothing else changes |
| Ged.Session.Run | main.go:56-83 | a failed check changes nothing and returns its message; otherwise the files and the report are those of `readAndWrite` on every path in turn |
| Ged.StepAllSpec | main.go:72-77 | after every path is processed, files not named keep their text and report entry, every named path exists, and with distinct paths each holds its rewritten text and the report entry its `read` made |
| ReadCases.PreserveEmptyLinesAtEnd | cases_test.go:27-32 | "\nhello there\nand there\n\n" with search "this" reads back, joined, as "\nhello there\nand there\n" |
| ReadCases.PreserveEmptyLinesInMiddle | cases_test.go:45-50 | "\nhello there\nand there\n\nand\n\n\nthat" with an empty search and replacement reads back, joined, as itself: blank lines in the middle and a last line without '\n' are kept |
| ReadCases.ChangeWordInBeginning | cases_test.go:63-68 | "this is a test" with search "this" and replacement "that" reads as "that is a test" |
| ReadCases.ChangeWordWithSpaces | cases_test.go:93-98 | "test is this\nelse is test\ntest this is" with search " this " and replacement "that" reads as "test is this\nelse is test\ntestthatis" |
| ReadCases.ChangeMultipleWords | cases_test.go:105-110 | "hello and goodbye from out" with search "from out" and replacement "tuo morf" reads as "hello and goodbye tuo morf" |
| ReadCases.MatchEntireSentence | cases_test.go:111-116 | "hello \nworld\nword hello\nhello world" with search "hello world" and replacement "there" reads as "hello \nworld\nword hello\nthere": only the line that is the whole term changes |

## Left out

- Concurrency: `run` starts a goroutine per path and `searchReplaceInFile` one per file, joined by wait groups, with a mutex around the report. `Ged.Session.Run` processes the paths one after another; with distinct paths each path's outcome depends on nothing else (`Ged.StepAllSpec`), so any order gives the same result.
- Ged.StepAllSpec: the per-path result is stated only when no path is named twice; with repeated paths the concurrent original races on the same file and no order is promised.
- Directories: `fileOrDir` walks a path with `filepath.Walk`; the model treats every path as a single file. The walk's own errors are not modelled.
- `loadArgs`: extra arguments read from standard input when it is not a terminal are not modelled; `Setup` takes the argument list as given.
- Flag parsing and the usage text (`flag.Parse`, `flag.Usage`, the exit status) are not modelled; `Cli.Flags` holds the parsed values.
- The regular-expression engine (`regexp.MustCompile`, `ReplaceAllString`) is not modelled: `-r` mode is a function supplied as a parameter, and a pattern that does not compile (a panic in the original) is not represented.
- `printChanges` and all other output to standard output and standard error are not modelled; the report `changedFiles` is.
- File-system errors other than a missing file: failures of `os.Create`, of the buffered writer and of the scanner (`s.Err()` is never consulted) are not modelled.
- The scanner's maximum token size (64 KiB per line) is not modelled; longer lines would stop the scan in the original.
- Cli.Setup, Ged.Session.Run: use the corrected range parser `Cli.ParseLineRange`; the program as written panics on `-lr ""` (see ## Findings, `Cli.ParseLineRangeAsWritten`).
- GoStrconv.Atoi: overflow of Go's `int` is not modelled, integers are unbounded; the error text does not apply Go's quoting of special characters.
- Text is a sequence of characters standing for runes; Go's byte-level search gives the same results on valid UTF-8, and invalid UTF-8 is not modelled.

## Findings

| source | as written | input that shows it | evidently intended | confidence | as-written member | corrected member |
|---|---|---|---|---|---|---|
| main.go:219-221 | `parseLineRange` reads the first rune of the `-lr` value without checking that there is one | `-lr ""` (an empty range) makes `lineRangeRunes[0]` index out of range and the program panics | reject the empty range with the same "give range like this: n:m" error `splitCheck` gives for other malformed ranges | high, not executed | Cli.EmptyRangePanics | Cli.ParseLineRangeSpec |
