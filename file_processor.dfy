/**
 * One file's pass: `read` (main.go:146-184) scans the text into lines,
 * rewrites the eligible ones and keeps change records; `write`
 * (main.go:186-202) serialises the lines again.
 */
module FileProcessor {
  import opened GoStrings
  import opened LineScan
  import opened LineTransform

  /** changedLine: a line `read` altered, by 0-based index, with its text before and after. */
  datatype ChangedLine = ChangedLine(line: int, before: string, after: string)

  /** The output lines for the scanned `lines`: one per input line, in the same order. */
  function Rewritten(lines: seq<string>, cfg: Config): seq<string> {
    seq(|lines|, i requires 0 <= i < |lines| => TransformLine(lines[i], i, cfg))
  }

  /** What `write` leaves in a file whose text was `text`. */
  function RewriteFile(text: string, cfg: Config): string {
    Written(Rewritten(ScanLines(text), cfg))
  }

  /** Line `i` yields a change record: verbose mode, the line is eligible, and rewriting alters it. */
  predicate Recorded(lines: seq<string>, i: int, cfg: Config)
    requires 0 <= i < |lines|
  {
    cfg.verbose && Eligible(i, cfg) && Rewrite(lines[i], cfg) != lines[i]
  }

  /**
   * The change records `read` accumulates for `lines`, in line order: at most
   * one per line, and none unless verbose.
   */
  function Records(lines: seq<string>, cfg: Config): (r: seq<ChangedLine>)
    ensures |r| <= |lines|
    ensures !cfg.verbose ==> r == []
    decreases |lines|
  {
    if lines == [] then []
    else
      var i := |lines| - 1;
      Records(lines[..i], cfg)
        + (if Recorded(lines, i, cfg) then [ChangedLine(i, lines[i], Rewrite(lines[i], cfg))] else [])
  }

  /** `read` on the file's text: the output lines and the change records. */
  method Read(text: string, cfg: Config) returns (contents: seq<string>, changedLines: seq<ChangedLine>)
    ensures |contents| == |ScanLines(text)|
    ensures forall i :: 0 <= i < |contents| ==> contents[i] == TransformLine(ScanLines(text)[i], i, cfg)
    ensures changedLines == Records(ScanLines(text), cfg)
  {
    var lines := ScanLines(text);
    contents, changedLines := [], [];
    var lineNum := 0;
    while lineNum < |lines|
      invariant 0 <= lineNum <= |lines|
      invariant |contents| == lineNum
      invariant forall i :: 0 <= i < lineNum ==> contents[i] == TransformLine(lines[i], i, cfg)
      invariant changedLines == Records(lines[..lineNum], cfg)
    {
      var s := lines[lineNum];
      if !Eligible(lineNum, cfg) {
        contents := contents + [s];
      } else {
        var t := Rewrite(s, cfg);
        contents := contents + [t];
        if t != s && cfg.verbose {
          changedLines := changedLines + [ChangedLine(lineNum, s, t)];
        }
      }
      assert lines[..lineNum + 1][..lineNum] == lines[..lineNum];
      lineNum := lineNum + 1;
    }
    assert lines[..|lines|] == lines;
  }

  /** `write`'s loop: each line and then '\n' go into the buffer. */
  method Write(contents: seq<string>) returns (buffer: string)
    ensures buffer == Written(contents)
  {
    buffer := [];
    for k := 0 to |contents|
      invariant buffer == Written(contents[..k])
    {
      WrittenSnoc(contents[..k], contents[k]);
      assert contents[..k + 1] == contents[..k] + [contents[k]];
      buffer := buffer + contents[k];
      buffer := buffer + "\n";
    }
    assert contents[..|contents|] == contents;
  }

  /** A record describes an eligible line that changed, with its text before and after. */
  ghost predicate Faithful(lines: seq<string>, r: ChangedLine, cfg: Config) {
    0 <= r.line < |lines| && Recorded(lines, r.line, cfg)
    && r.before == lines[r.line] && r.after == Rewrite(lines[r.line], cfg)
  }

  /**
   * Every record is faithful, records appear in strictly increasing line
   * order, and every line that is recorded has a record.
   */
  lemma {:induction false} RecordsSpec(lines: seq<string>, cfg: Config)
    ensures forall r :: r in Records(lines, cfg) ==> Faithful(lines, r, cfg)
    ensures forall j, k :: 0 <= j < k < |Records(lines, cfg)| ==> Records(lines, cfg)[j].line < Records(lines, cfg)[k].line
    ensures forall i :: 0 <= i < |lines| && Recorded(lines, i, cfg) ==> exists r :: r in Records(lines, cfg) && r.line == i
  {
    RecordsFaithful(lines, cfg);
    RecordsIncreasing(lines, cfg);
    RecordsComplete(lines, cfg);
  }

  /** The records of a prefix are the first records of the whole, and they describe the same lines. */
  lemma {:induction false} RecordsOfPrefix(lines: seq<string>, cfg: Config)
    requires lines != []
    ensures var n := |lines| - 1;
      Records(lines, cfg) == Records(lines[..n], cfg)
        + (if Recorded(lines, n, cfg) then [ChangedLine(n, lines[n], Rewrite(lines[n], cfg))] else [])
    ensures forall i :: 0 <= i < |lines| - 1 ==>
      lines[..|lines| - 1][i] == lines[i] && (Recorded(lines[..|lines| - 1], i, cfg) <==> Recorded(lines, i, cfg))
  {
  }

  lemma {:induction false} RecordsFaithful(lines: seq<string>, cfg: Config)
    ensures forall r :: r in Records(lines, cfg) ==> Faithful(lines, r, cfg)
    decreases |lines|
  {
    if lines != [] {
      var prefix := lines[..|lines| - 1];
      RecordsFaithful(prefix, cfg);
      RecordsOfPrefix(lines, cfg);
      forall r | r in Records(prefix, cfg)
        ensures Faithful(lines, r, cfg)
      {
        assert Faithful(prefix, r, cfg);
      }
    }
  }

  lemma {:induction false} RecordsIncreasing(lines: seq<string>, cfg: Config)
    ensures forall j, k :: 0 <= j < k < |Records(lines, cfg)| ==> Records(lines, cfg)[j].line < Records(lines, cfg)[k].line
    decreases |lines|
  {
    if lines != [] {
      var n := |lines| - 1;
      var prefix := lines[..n];
      RecordsIncreasing(prefix, cfg);
      RecordsFaithful(prefix, cfg);
      RecordsOfPrefix(lines, cfg);
      var earlier, all := Records(prefix, cfg), Records(lines, cfg);
      forall j, k | 0 <= j < k < |all|
        ensures all[j].line < all[k].line
      {
        assert all[j] == earlier[j];
        if k >= |earlier| {
          assert Faithful(prefix, earlier[j], cfg);
        } else {
          assert all[k] == earlier[k];
        }
      }
    }
  }

  lemma {:induction false} RecordsComplete(lines: seq<string>, cfg: Config)
    ensures forall i :: 0 <= i < |lines| && Recorded(lines, i, cfg) ==> exists r :: r in Records(lines, cfg) && r.line == i
    decreases |lines|
  {
    if lines != [] {
      var n := |lines| - 1;
      var prefix := lines[..n];
      RecordsComplete(prefix, cfg);
      RecordsOfPrefix(lines, cfg);
      forall i | 0 <= i < |lines| && Recorded(lines, i, cfg)
        ensures exists r :: r in Records(lines, cfg) && r.line == i
      {
        if i < n {
          assert Recorded(prefix, i, cfg);
          var r :| r in Records(prefix, cfg) && r.line == i;
          assert r in Records(lines, cfg);
        } else {
          assert ChangedLine(n, lines[n], Rewrite(lines[n], cfg)) in Records(lines, cfg);
        }
      }
    }
  }

  /** `read` keeps no records exactly when no line is recorded (in particular, whenever verbose mode is off). */
  lemma {:induction false} RecordsEmpty(lines: seq<string>, cfg: Config)
    ensures Records(lines, cfg) == [] <==> forall i :: 0 <= i < |lines| ==> !Recorded(lines, i, cfg)
  {
    RecordsSpec(lines, cfg);
    if Records(lines, cfg) != [] {
      assert Faithful(lines, Records(lines, cfg)[0], cfg);
    }
  }

  /** Each scanned line is a stretch of the text it came from; `a` is where it starts. */
  lemma {:induction false} ScannedLineAt(text: string, k: int) returns (a: int)
    requires 0 <= k < |ScanLines(text)|
    ensures Occurs(text, ScanLines(text)[k], a)
    decreases |text|
  {
    var i := Index(text, "\n");
    ScanLinesStep(text);
    if i < 0 || k == 0 {
      var whole := if i < 0 then text else text[..i];
      DropCRIsPrefix(whole);
      PrefixOccurs(text, whole, DropCR(whole));
      a := 0;
    } else {
      var rest := text[i + 1..];
      var b := ScannedLineAt(rest, k - 1);
      OccursInSuffix(text, i + 1, ScanLines(rest)[k - 1], b);
      a := i + 1 + b;
    }
  }

  /** One step of the scan: the first token, then the scan of what follows its '\n'. */
  lemma {:induction false} ScanLinesStep(text: string)
    requires text != []
    ensures var i := Index(text, "\n");
      ScanLines(text) == if i < 0 then [DropCR(text)] else [DropCR(text[..i])] + ScanLines(text[i + 1..])
  {
  }

  /** A prefix of a prefix of `text` occurs at its start. */
  lemma {:induction false} PrefixOccurs(text: string, whole: string, line: string)
    requires whole <= text && line <= whole
    ensures Occurs(text, line, 0)
  {
    assert text[0..|line|] == line;
  }

  /** An occurrence in a suffix of `text` is an occurrence in `text`, shifted by where the suffix starts. */
  lemma {:induction false} OccursInSuffix(text: string, start: int, line: string, b: int)
    requires 0 <= start <= |text| && Occurs(text[start..], line, b)
    ensures Occurs(text, line, start + b)
  {
    assert text[start + b..start + b + |line|] == text[start..][b..b + |line|];
  }

  lemma {:induction false} DropCRIsPrefix(t: string)
    ensures DropCR(t) <= t
  {
  }

  /** A search term found in a scanned line is found in the text, so one the text lacks is in none of its lines. */
  lemma {:induction false} LineMatchIsTextMatch(text: string, search: string, k: int)
    requires 0 <= k < |ScanLines(text)|
    ensures Contains(ScanLines(text)[k], search) ==> Contains(text, search)
  {
    var line := ScanLines(text)[k];
    var a := ScannedLineAt(text, k);
    if Contains(line, search) {
      var i :| Occurs(line, search, i);
      OccursWithin(text, line, a, search, i);
    }
  }

  /** An occurrence inside an occurrence is an occurrence in the outer text. */
  lemma {:induction false} OccursWithin(text: string, line: string, a: int, search: string, i: int)
    requires Occurs(text, line, a) && Occurs(line, search, i)
    ensures Occurs(text, search, a + i)
  {
    assert text[a..a + |line|] == line;
    forall t | 0 <= t < |search|
      ensures text[a + i..a + i + |search|][t] == search[t]
    {
      assert line[i..i + |search|][t] == search[t];
      assert text[a + i + t] == line[i + t];
    }
  }

  /**
   * In literal mode with occurrence limit 0, with search equal to replacement,
   * or with a search term the text does not contain, every line is copied.
   */
  lemma {:induction false} UnchangedLines(text: string, cfg: Config)
    requires cfg.mode.Literal?
    requires cfg.occurrences == 0 || cfg.search == cfg.replacement
          || (cfg.search != [] && !Contains(text, cfg.search))
    ensures Rewritten(ScanLines(text), cfg) == ScanLines(text)
  {
    var lines := ScanLines(text);
    forall i | 0 <= i < |lines|
      ensures TransformLine(lines[i], i, cfg) == lines[i]
    {
      if cfg.occurrences != 0 && cfg.search != cfg.replacement {
        LineMatchIsTextMatch(text, cfg.search, i);
      }
      LiteralLineUnchanged(lines[i], i, cfg);
    }
  }

  /**
   * Read/write round trip when nothing matches (text without '\r'): the file
   * is written back unchanged if it is empty or ends in '\n', and gains one
   * '\n' otherwise; the lines joined with '\n' are the text minus at most one
   * trailing '\n', so a file ending in "\n\n" keeps its blank last line.
   */
  lemma {:induction false} UnchangedRoundTrip(text: string, cfg: Config)
    requires '\r' !in text && cfg.mode.Literal?
    requires cfg.occurrences == 0 || cfg.search == cfg.replacement
          || (cfg.search != [] && !Contains(text, cfg.search))
    ensures RewriteFile(text, cfg) == if text == [] || EndsWithNewline(text) then text else text + "\n"
    ensures Join(Rewritten(ScanLines(text), cfg), "\n") == TrimNewline(text)
  {
    UnchangedLines(text, cfg);
    WrittenScan(text);
    JoinScan(text);
  }
}
