/**
 * How a file's text becomes lines and lines become text again: the
 * bufio.ScanLines split that `read` uses (main.go:155-158) and the
 * serialisation that `write` performs (main.go:190-198).
 */
module LineScan {
  import opened GoStrings

  /** bufio's dropCR: one trailing carriage return is removed from a token. */
  function DropCR(t: string): string {
    if |t| > 0 && t[|t| - 1] == '\r' then t[..|t| - 1] else t
  }

  /**
   * The tokens bufio.ScanLines yields: the text up to each '\n' with one
   * trailing '\r' dropped, and then whatever follows the last '\n' if it is
   * not empty. A trailing '\n' therefore produces no empty last line.
   */
  function ScanLines(data: string): (lines: seq<string>)
    ensures forall k :: 0 <= k < |lines| ==> '\n' !in lines[k]
    decreases |data|
  {
    if data == [] then []
    else
      var i := Index(data, "\n");
      IndexSpec(data, "\n");
      if i < 0 then
        NoNewlineBefore(data, |data|);
        assert data[..|data|] == data;
        [DropCR(data)]
      else
        NoNewlineBefore(data, i);
        [DropCR(data[..i])] + ScanLines(data[i + 1..])
  }

  /** With no occurrence of "\n" before `i`, the text before `i` holds no newline. */
  lemma {:induction false} NoNewlineBefore(data: string, i: int)
    requires 0 <= i <= |data|
    requires forall k :: 0 <= k < i ==> !Occurs(data, "\n", k)
    ensures '\n' !in data[..i]
  {
    forall k | 0 <= k < i
      ensures data[k] != '\n'
    {
      CharOccurs(data, k);
    }
  }

  /** What `write` puts in the file: every line followed by '\n', the last one included. */
  function Written(lines: seq<string>): (out: string)
    ensures lines != [] ==> |out| > 0 && out[|out| - 1] == '\n'
  {
    if lines == [] then []
    else lines[0] + "\n" + Written(lines[1..])
  }

  /** Appending one line appends it and its newline to the written text. */
  lemma {:induction false} WrittenSnoc(lines: seq<string>, t: string)
    ensures Written(lines + [t]) == Written(lines) + t + "\n"
  {
    if lines != [] {
      assert (lines + [t])[1..] == lines[1..] + [t];
      WrittenSnoc(lines[1..], t);
    }
  }

  /** Lines that hold no '\n' and do not end in '\r'; ScanLines yields exactly these when the text has no '\r'. */
  ghost predicate PlainLines(lines: seq<string>) {
    forall k :: 0 <= k < |lines| ==> '\n' !in lines[k] && (lines[k] == [] || lines[k][|lines[k]| - 1] != '\r')
  }

  /** Scanning what `write` produced gives back the same lines. */
  lemma {:induction false} ScanWritten(lines: seq<string>)
    requires PlainLines(lines)
    ensures ScanLines(Written(lines)) == lines
  {
    if lines != [] {
      FirstLine(Written(lines), lines[0], Written(lines[1..]));
      ScanWritten(lines[1..]);
      assert [lines[0]] + lines[1..] == lines;
    }
  }

  /** Lines joined with '\n' scan back to themselves when the last line is not empty. */
  lemma {:induction false} ScanJoin(lines: seq<string>)
    requires PlainLines(lines) && lines != [] && lines[|lines| - 1] != []
    ensures ScanLines(Join(lines, "\n")) == lines
  {
    if |lines| == 1 {
      OnlyLine(lines[0]);
    } else {
      FirstLine(Join(lines, "\n"), lines[0], Join(lines[1..], "\n"));
      ScanJoin(lines[1..]);
      assert [lines[0]] + lines[1..] == lines;
    }
  }

  /** Text up to its first '\n' is the first token when it does not end in '\r'. */
  lemma {:induction false} FirstLine(data: string, first: string, rest: string)
    requires data == first + "\n" + rest
    requires '\n' !in first && (first == [] || first[|first| - 1] != '\r')
    ensures ScanLines(data) == [first] + ScanLines(rest)
  {
    assert Index(data, "\n") == |first| by {
      assert data[|first|..|first| + 1] == "\n";
      forall k | 0 <= k < |first|
        ensures !Occurs(data, "\n", k)
      {
        assert data[k..k + 1] == [first[k]];
      }
      IndexIsFirst(data, "\n", |first|);
    }
    assert data[..|first|] == first;
    assert data[|first| + 1..] == rest;
  }

  /** Text without '\n' that does not end in '\r' is a single token. */
  lemma {:induction false} OnlyLine(data: string)
    requires data != [] && '\n' !in data && data[|data| - 1] != '\r'
    ensures ScanLines(data) == [data]
  {
    assert Index(data, "\n") < 0 by {
      forall k | 0 <= k < |data|
        ensures !Occurs(data, "\n", k)
      {
        assert data[k..k + 1] == [data[k]];
      }
      IndexSpec(data, "\n");
    }
  }

  /** The file's text with no trailing newline, or with exactly one added back as `write` does. */
  function EndsWithNewline(text: string): bool {
    text != [] && text[|text| - 1] == '\n'
  }

  /**
   * For text without '\r', writing the scanned lines restores the text when it
   * is empty or ends in '\n', and otherwise adds exactly one '\n'.
   */
  lemma {:induction false} WrittenScan(text: string)
    requires '\r' !in text
    ensures Written(ScanLines(text)) == if text == [] || EndsWithNewline(text) then text else text + "\n"
    decreases |text|
  {
    if text != [] {
      var i := Index(text, "\n");
      IndexSpec(text, "\n");
      if i < 0 {
        NoNewlineBefore(text, |text|);
        assert text[..|text|] == text;
        assert text[|text| - 1] in text;
      } else {
        var head, rest := text[..i], text[i + 1..];
        assert text == head + "\n" + rest by {
          assert text[i..i + 1] == "\n";
        }
        PlainHead(head, "\n" + rest);
        assert '\r' !in rest;
        WrittenScan(rest);
        WrittenScanStep(text, head, rest, ScanLines(rest));
      }
    }
  }

  /** A piece of text without '\r' is its own token. */
  lemma {:induction false} PlainHead(head: string, rest: string)
    requires '\r' !in head + rest
    ensures '\r' !in head && '\r' !in rest && DropCR(head) == head
  {
    assert forall c :: c in head ==> c in head + rest;
    assert forall k :: 0 <= k < |rest| ==> rest[k] == (head + rest)[|head| + k];
    if |head| > 0 {
      assert head[|head| - 1] in head;
    }
  }

  /** One step of WrittenScan: the first line and its newline, then the rest. */
  lemma {:induction false} WrittenScanStep(text: string, head: string, rest: string, tail: seq<string>)
    requires text == head + "\n" + rest
    requires ScanLines(text) == [head] + tail
    requires Written(tail) == if rest == [] || EndsWithNewline(rest) then rest else rest + "\n"
    ensures Written(ScanLines(text)) == if EndsWithNewline(text) then text else text + "\n"
  {
    assert ([head] + tail)[1..] == tail;
    if rest != [] {
      assert rest[|rest| - 1] == text[|text| - 1];
      assert EndsWithNewline(text) == EndsWithNewline(rest);
    }
  }

  /** `write` output is the lines joined by '\n', plus one final '\n'. */
  lemma {:induction false} WrittenIsJoinPlusNewline(lines: seq<string>)
    requires lines != []
    ensures Written(lines) == Join(lines, "\n") + "\n"
  {
    if |lines| > 1 {
      WrittenIsJoinPlusNewline(lines[1..]);
    }
  }

  /** The text minus at most one trailing '\n'. */
  function TrimNewline(text: string): (r: string)
    ensures text == r || text == r + "\n"
  {
    if EndsWithNewline(text) then text[..|text| - 1] else text
  }

  /**
   * The line sequence read back and joined with '\n' (as the repository's
   * tests compare it) is the text minus at most one trailing '\n'; blank
   * lines before the last '\n' are all kept.
   */
  lemma {:induction false} JoinScan(text: string)
    requires '\r' !in text
    ensures Join(ScanLines(text), "\n") == TrimNewline(text)
  {
    WrittenScan(text);
    if text != [] {
      var lines := ScanLines(text);
      assert lines != [];
      WrittenIsJoinPlusNewline(lines);
      var joined := Join(lines, "\n");
      assert joined == (joined + "\n")[..|joined|];
      if !EndsWithNewline(text) {
        assert (text + "\n")[..|text|] == text;
      }
    }
  }
}
