/**
 * Cases from the repository's table of `read` tests (cases_test.go), each
 * stated against the model with every flag at its default: literal mode, all
 * occurrences, any line, the whole file. The tests compare the lines joined
 * with '\n'.
 */
module ReadCases {
  import opened GoStrings
  import opened LineScan
  import opened LineTransform
  import opened FileProcessor

  function Defaults(search: string, replacement: string): (cfg: Config)
    ensures cfg.mode.Literal? && cfg.occurrences < 0 && !cfg.verbose
    ensures forall i :: i >= 0 ==> Eligible(i, cfg)
  {
    Config(search, replacement, Literal, -1, -1, 0, -1, false)
  }

  /** The lines `read` returns for `before`, joined as the tests join them. */
  function ReadJoined(before: string, search: string, replacement: string): string {
    Join(Rewritten(ScanLines(before), Defaults(search, replacement)), "\n")
  }

  /** "preserve multiple empty lines at end with flags": the search term cannot match, and one trailing '\n' is dropped by the join. */
  lemma {:induction false} PreserveEmptyLinesAtEnd(text: string)
    requires text == "\nhello there\nand there\n\n"
    ensures ReadJoined(text, "this", "that") == "\nhello there\nand there\n"
  {
    assert 'i' !in text && '\r' !in text;
    ContainsNeedsChar(text, "this", 'i');
    UnchangedRoundTrip(text, Defaults("this", "that"));
    assert EndsWithNewline(text);
    assert text[..|text| - 1] == "\nhello there\nand there\n";
  }

  /** "preserve multiple empty lines in middle with not flags": empty search and replacement leave every line. */
  lemma {:induction false} PreserveEmptyLinesInMiddle(text: string)
    requires text == "\nhello there\nand there\n\nand\n\n\nthat"
    ensures ReadJoined(text, "", "") == text
  {
    UnchangedRoundTrip(text, Defaults("", ""));
  }

  /** The joined result, line by line: `read` yields `expected` when each scanned line transforms to it. */
  lemma {:induction false} ReadJoinedFromLines(before: string, search: string, replacement: string, lines: seq<string>, expected: seq<string>)
    requires ScanLines(before) == lines && |expected| == |lines|
    requires forall i :: 0 <= i < |lines| ==> TransformLine(lines[i], i, Defaults(search, replacement)) == expected[i]
    ensures ReadJoined(before, search, replacement) == Join(expected, "\n")
  {
    assert Rewritten(lines, Defaults(search, replacement)) == expected;
  }

  /** A one-line text without '\n' or a final '\r' reads back as that line's replacement. */
  lemma {:induction false} ReadOneLine(text: string, search: string, replacement: string, out: string)
    requires text != [] && '\n' !in text && text[|text| - 1] != '\r'
    requires Replace(text, search, replacement, -1) == out
    ensures ReadJoined(text, search, replacement) == out
  {
    OnlyLine(text);
    assert Rewritten([text], Defaults(search, replacement)) == [out];
  }

  /** The one line of "change word in beginning": the leading match is replaced and the rest holds no further match. */
  lemma {:induction false} BeginningLine(s: string, sub: string)
    requires s == "this is a test" && sub == "this"
    ensures Replace(s, sub, "that", -1) == "that is a test"
  {
    var tail := s[4..];
    assert tail == " is a test" && 'h' !in tail;
    assert "that" + tail == "that is a test";
    assert Index(s, sub) == 0 by {
      assert sub <= s;
    }
    ContainsNeedsChar(tail, sub, 'h');
    ReplaceNoMatch(tail, sub, "that", -1);
    ReplaceAtFirstMatch(s, sub, "that", -1);
    assert s[..0] == [];
    assert Replace(s, sub, "that", -1) == "that" + tail;
  }

  /** "change word in beginning". */
  lemma {:induction false} ChangeWordInBeginning(text: string)
    requires text == "this is a test"
    ensures ReadJoined(text, "this", "that") == "that is a test"
  {
    assert '\n' !in text && text[|text| - 1] != '\r';
    BeginningLine(text, "this");
    ReadOneLine(text, "this", "that", "that is a test");
  }

  /** Three lines joined by '\n' scan back as those lines. */
  lemma {:induction false} ScanThree(a: string, b: string, c: string)
    requires PlainLines([a, b, c]) && c != []
    ensures ScanLines(a + "\n" + b + "\n" + c) == [a, b, c]
  {
    JoinThree(a, b, c, "\n");
    ScanJoin([a, b, c]);
  }

  /** Four lines joined by '\n' scan back as those lines. */
  lemma {:induction false} ScanFour(w: string, a: string, b: string, c: string)
    requires PlainLines([w, a, b, c]) && c != []
    ensures ScanLines(w + "\n" + a + "\n" + b + "\n" + c) == [w, a, b, c]
  {
    JoinFour(w, a, b, c, "\n");
    ScanJoin([w, a, b, c]);
  }

  lemma {:induction false} JoinThree(a: string, b: string, c: string, sep: string)
    ensures Join([a, b, c], sep) == a + sep + b + sep + c
  {
    JoinCons(a, [b, c], sep);
    JoinCons(b, [c], sep);
    assert [a] + [b, c] == [a, b, c] && [b] + [c] == [b, c];
  }

  lemma {:induction false} JoinFour(w: string, a: string, b: string, c: string, sep: string)
    ensures Join([w, a, b, c], sep) == w + sep + a + sep + b + sep + c
  {
    JoinThree(a, b, c, sep);
    JoinCons(w, [a, b, c], sep);
    assert [w] + [a, b, c] == [w, a, b, c];
    assert w + sep + (a + sep + b + sep + c) == w + sep + a + sep + b + sep + c;
  }

  /** The joined result of a three-line text whose lines transform to `a1`, `b1`, `c1`. */
  lemma {:induction false} ReadThree(text: string, a: string, b: string, c: string, search: string, replacement: string,
                                     a1: string, b1: string, c1: string)
    requires ScanLines(text) == [a, b, c]
    requires TransformLine(a, 0, Defaults(search, replacement)) == a1
    requires TransformLine(b, 1, Defaults(search, replacement)) == b1
    requires TransformLine(c, 2, Defaults(search, replacement)) == c1
    ensures ReadJoined(text, search, replacement) == a1 + "\n" + b1 + "\n" + c1
  {
    var out := Rewritten([a, b, c], Defaults(search, replacement));
    assert out == [a1, b1, c1] by {
      assert |out| == 3;
      assert out[0] == a1 && out[1] == b1 && out[2] == c1;
    }
    JoinThree(a1, b1, c1, "\n");
  }

  /** The joined result of a four-line text whose lines transform to `w1`, `a1`, `b1`, `c1`. */
  lemma {:induction false} ReadFour(text: string, w: string, a: string, b: string, c: string, search: string, replacement: string,
                                    w1: string, a1: string, b1: string, c1: string)
    requires ScanLines(text) == [w, a, b, c]
    requires TransformLine(w, 0, Defaults(search, replacement)) == w1
    requires TransformLine(a, 1, Defaults(search, replacement)) == a1
    requires TransformLine(b, 2, Defaults(search, replacement)) == b1
    requires TransformLine(c, 3, Defaults(search, replacement)) == c1
    ensures ReadJoined(text, search, replacement) == w1 + "\n" + a1 + "\n" + b1 + "\n" + c1
  {
    RewrittenFour(w, a, b, c, Defaults(search, replacement));
    JoinFour(w1, a1, b1, c1, "\n");
  }

  lemma {:induction false} RewrittenFour(w: string, a: string, b: string, c: string, cfg: Config)
    ensures Rewritten([w, a, b, c], cfg)
         == [TransformLine(w, 0, cfg), TransformLine(a, 1, cfg), TransformLine(b, 2, cfg), TransformLine(c, 3, cfg)]
  {
  }

  /** The first line of "change word with spaces": " this " needs a space after "this", which the line lacks. */
  lemma {:induction false} SpacedFirst(s: string, sub: string)
    requires s == "test is this" && sub == " this "
    ensures Replace(s, sub, "that", -1) == s
  {
    NoOccurrence(s, sub, 2);
    ReplaceNoMatch(s, sub, "that", -1);
  }

  /** The last line of "change word with spaces": the one occurrence, spaces included, becomes "that". */
  lemma {:induction false} SpacedThird(s: string, sub: string)
    requires s == "test this is" && sub == " this "
    ensures Replace(s, sub, "that", -1) == "testthatis"
  {
    var head, tail := s[..4], s[10..];
    assert head == "test" && tail == "is" && s[4..10] == sub;
    assert head + "that" + tail == "testthatis";
    NoOccurrenceBefore(s, sub, 4, 0);
    IndexIsFirst(s, sub, 4);
    ShorterNoMatch(tail, sub);
    ReplaceNoMatch(tail, sub, "that", -1);
    ReplaceAtFirstMatch(s, sub, "that", -1);
  }

  /** "change word with spaces": the spaces are part of the search term and are replaced with the word. */
  lemma {:induction false} ChangeWordWithSpaces(a: string, b: string, c: string)
    requires a == "test is this" && b == "else is test" && c == "test this is"
    ensures ReadJoined(a + "\n" + b + "\n" + c, " this ", "that") == a + "\n" + b + "\n" + "testthatis"
  {
    var sub := " this ";
    var cfg := Defaults(sub, "that");
    assert ScanLines(a + "\n" + b + "\n" + c) == [a, b, c] by {
      ScanThree(a, b, c);
    }
    assert TransformLine(a, 0, cfg) == a by {
      SpacedFirst(a, sub);
    }
    assert TransformLine(b, 1, cfg) == b by {
      ContainsNeedsChar(b, sub, 'h');
      ReplaceNoMatch(b, sub, "that", -1);
    }
    assert TransformLine(c, 2, cfg) == "testthatis" by {
      SpacedThird(c, sub);
    }
    ReadThree(a + "\n" + b + "\n" + c, a, b, c, sub, "that", a, b, "testthatis");
  }

  /** "match entire sentence": only the line that is the whole search term changes; shorter lines cannot match. */
  lemma {:induction false} MatchEntireSentence(w: string, a: string, b: string, c: string)
    requires w == "hello " && a == "world" && b == "word hello" && c == "hello world"
    ensures ReadJoined(w + "\n" + a + "\n" + b + "\n" + c, "hello world", "there") == w + "\n" + a + "\n" + b + "\n" + "there"
  {
    ScanFour(w, a, b, c);
    ShorterNoMatch(w, c);
    ShorterNoMatch(a, c);
    ShorterNoMatch(b, c);
    ReplaceNoMatch(w, c, "there", -1);
    ReplaceNoMatch(a, c, "there", -1);
    ReplaceNoMatch(b, c, "there", -1);
    assert Replace(c, c, "there", -1) == "there" by {
      assert c <= c && c[|c|..] == [];
    }
    ReadFour(w + "\n" + a + "\n" + b + "\n" + c, w, a, b, c, c, "there", w, a, b, "there");
  }

  /** The line of "change multiple words": the first 'f' is where the search term starts. */
  lemma {:induction false} MultipleWordsLine(s: string, sub: string)
    requires s == "hello and goodbye from out" && sub == "from out"
    ensures Replace(s, sub, "tuo morf", -1) == "hello and goodbye tuo morf"
  {
    var head, tail := s[..18], s[26..];
    assert head == "hello and goodbye " && tail == [] && s[18..26] == sub;
    assert head + "tuo morf" + tail == "hello and goodbye tuo morf";
    NoOccurrenceBefore(s, sub, 18, 0);
    IndexIsFirst(s, sub, 18);
    ReplaceAtFirstMatch(s, sub, "tuo morf", -1);
  }

  /** "change multiple words": a search term holding a space is found as a whole and replaced. */
  lemma {:induction false} ChangeMultipleWords(text: string)
    requires text == "hello and goodbye from out"
    ensures ReadJoined(text, "from out", "tuo morf") == "hello and goodbye tuo morf"
  {
    assert '\n' !in text && text[|text| - 1] != '\r';
    MultipleWordsLine(text, "from out");
    ReadOneLine(text, "from out", "tuo morf", "hello and goodbye tuo morf");
  }
}
