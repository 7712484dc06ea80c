/**
 * The checks `run` makes before any file is touched (main.go:56-67): the
 * argument count and the `-lr` range expression (parseLineRange and
 * splitCheck, main.go:98-104, 214-248).
 */
module Cli {
  import opened Outcomes
  import opened GoStrings
  import opened GoStrconv
  import opened LineTransform

  /** The eligible 0-based line indices [start, end); end -1 means no bound. */
  datatype LineRange = LineRange(start: int, end: int)

  /** The values of `start` and `end` before parseLineRange assigns them. */
  const DefaultRange := LineRange(0, -1)

  const RangeFormatError := "give range like this: n:m"
  const TooFewArgsError := "you need to run this script with at least one file"

  /** splitCheck: the expression split on ':', which must give exactly two parts. */
  function SplitCheck(expr: string): (r: Outcome<seq<string>>)
    ensures r.Ok? ==> |r.value| == 2 && r.value == Pieces(expr, ":", -1)
    ensures r.Err? ==> |Pieces(expr, ":", -1)| != 2 && r.message == RangeFormatError
  {
    var parts := Pieces(expr, ":", -1);
    if |parts| != 2 then Err(RangeFormatError) else Ok(parts)
  }

  /** An accepted range is two colon-free parts around its one ':'. */
  lemma {:induction false} SplitCheckSpec(expr: string)
    ensures SplitCheck(expr).Ok? ==>
      var parts := SplitCheck(expr).value;
      expr == parts[0] + ":" + parts[1] && ':' !in parts[0] && ':' !in parts[1]
  {
    if SplitCheck(expr).Ok? {
      var parts := Pieces(expr, ":", -1);
      JoinPieces(expr, ":", -1);
      PiecesSpec(expr, ":", -1);
      JoinCons(parts[0], parts[1..], ":");
      assert parts == [parts[0]] + parts[1..];
      CharNotInFreePiece(parts[0], ':');
      CharNotInFreePiece(parts[1], ':');
    }
  }

  /** Conversely, two colon-free parts around one ':' are accepted as those two parts. */
  lemma {:induction false} SplitCheckTwoParts(a: string, b: string)
    requires ':' !in a && ':' !in b
    ensures SplitCheck(a + ":" + b) == Ok([a, b])
  {
    var expr := a + ":" + b;
    assert Occurs(expr, ":", |a|) by {
      assert expr[|a|..|a| + 1] == ":";
    }
    forall i | 0 <= i < |a|
      ensures !Occurs(expr, ":", i)
    {
      assert expr[i..i + 1][0] == expr[i] == a[i];
    }
    IndexIsFirst(expr, ":", |a|);
    assert expr[..|a|] == a && expr[|a| + 1..] == b;
    ContainsNeedsChar(b, ":", ':');
    IndexSpec(b, ":");
    assert Pieces(b, ":", -1) == [b];
    assert Index(expr, ":") == |a|;
    PiecesAtFirstMatch(expr, ":", -1);
    assert Remaining(-1) == -1;
    assert Pieces(expr, ":", -1) == [expr[..|a|]] + Pieces(expr[|a| + 1..], ":", -1);
    assert Pieces(expr, ":", -1) == [a] + [b] == [a, b];
    assert SplitCheck(expr) == Ok([a, b]);
  }

  /** The branches of parseLineRange after its first two checks; `expr` is neither ":" nor empty. */
  function ParseSides(expr: string): Outcome<LineRange>
    requires expr != []
  {
    match SplitCheck(expr)
    case Err(m) => Err(m)
    case Ok(parts) =>
      if expr[0] == ':' then
        match Atoi(parts[1])
        case Err(m) => Err(m)
        case Ok(end) => Ok(LineRange(DefaultRange.start, end))
      else if expr[|expr| - 1] == ':' then
        match Atoi(parts[0])
        case Err(m) => Err(m)
        case Ok(start) => Ok(LineRange(start, DefaultRange.end))
      else
        match Atoi(parts[0])
        case Err(m) => Err(m)
        case Ok(start) =>
          match Atoi(parts[1])
          case Err(m) => Err(m)
          case Ok(end) => Ok(LineRange(start, end))
  }

  /** How parseLineRange ends: it returns (an error or the range it assigned), or it panics. */
  datatype Ending = Returns(outcome: Outcome<LineRange>) | IndexPanic

  /**
   * parseLineRange as written: ":" keeps the defaults; otherwise the first
   * rune is read before anything checks that there is one, so the empty
   * expression panics with an index out of range.
   */
  function ParseLineRangeAsWritten(expr: string): (r: Ending)
    ensures r == IndexPanic <==> expr == []
    ensures expr == ":" ==> r == Returns(Ok(DefaultRange))
  {
    if expr == ":" then Returns(Ok(DefaultRange))
    else if expr == [] then IndexPanic
    else Returns(ParseSides(expr))
  }

  /**
   * parseLineRange with the empty expression rejected as malformed, as
   * splitCheck would reject it: ":" keeps the defaults, and anything that
   * does not split on ':' into exactly two parts is the format error.
   */
  function ParseLineRange(expr: string): (r: Outcome<LineRange>)
    ensures expr == ":" ==> r == Ok(DefaultRange)
    ensures |Pieces(expr, ":", -1)| != 2 ==> r == Err(RangeFormatError)
  {
    if expr == ":" then Ok(DefaultRange)
    else if expr == [] then Err(RangeFormatError)
    else ParseSides(expr)
  }

  /** The two differ only on the empty expression, where the code as written panics. */
  lemma {:induction false} EmptyRangePanics(expr: string)
    ensures expr != [] ==> ParseLineRangeAsWritten(expr) == Returns(ParseLineRange(expr))
    ensures ParseLineRange([]) == Err(RangeFormatError)
  {
    assert Pieces([], ":", -1) == [[]];
  }

  /** A missing side keeps its default; a present side must parse as a decimal integer. */
  function Side(part: string, default: int): Outcome<int> {
    if part == [] then Ok(default) else Atoi(part)
  }

  /**
   * What the range expression means: it must split on ':' into exactly two
   * parts; an empty part keeps the default (start 0, end -1); a non-empty
   * part must be a decimal integer and sets that side.
   */
  lemma {:induction false} ParseLineRangeSpec(expr: string)
    ensures var parts := Pieces(expr, ":", -1);
      ParseLineRange(expr).Ok? <==>
        |parts| == 2 && Side(parts[0], 0).Ok? && Side(parts[1], -1).Ok?
    ensures var parts := Pieces(expr, ":", -1);
      ParseLineRange(expr).Ok? ==>
        ParseLineRange(expr).value == LineRange(Side(parts[0], 0).value, Side(parts[1], -1).value)
  {
    var parts := Pieces(expr, ":", -1);
    JoinPieces(expr, ":", -1);
    PiecesSpec(expr, ":", -1);
    if expr == [] {
      assert parts == [[]];
    } else if |parts| == 2 {
      var a, b := parts[0], parts[1];
      SplitCheckSpec(expr);
      assert expr[0] == ':' <==> a == [] by {
        if a != [] { assert expr[0] == a[0]; }
      }
      assert expr[|expr| - 1] == ':' <==> b == [] by {
        if b != [] { assert expr[|expr| - 1] == b[|b| - 1]; }
      }
      assert expr == ":" <==> a == [] && b == [];
    }
  }

  /** The flag values `run` reads (main.go:30-35); `mode` stands for `-r` with its compiled pattern. */
  datatype Flags = Flags(verbose: bool, mode: Mode, occurrences: int, line: int, lineRange: string)

  /** What `run` goes on with once its checks pass: the configuration and the paths to process. */
  datatype Job = Job(cfg: Config, paths: seq<string>)

  /**
   * The checks of `run`, in its order: fewer than three positional arguments
   * (search, replacement, at least one path) is an error before the range is
   * looked at; then a malformed range is an error; otherwise search and
   * replacement are the first two arguments and the rest are the paths.
   */
  function Setup(args: seq<string>, flags: Flags): (r: Outcome<Job>)
    ensures |args| < 3 ==> r == Err(TooFewArgsError)
    ensures |args| >= 3 ==> (r.Ok? <==> ParseLineRange(flags.lineRange).Ok?)
    ensures r.Ok? ==>
      var range := ParseLineRange(flags.lineRange).value;
      [r.value.cfg.search, r.value.cfg.replacement] + r.value.paths == args
      && |r.value.paths| >= 1
      && r.value.cfg.start == range.start && r.value.cfg.end == range.end
      && r.value.cfg.occurrences == flags.occurrences && r.value.cfg.line == flags.line
      && r.value.cfg.verbose == flags.verbose && r.value.cfg.mode == flags.mode
  {
    if |args| < 3 then Err(TooFewArgsError)
    else
      match ParseLineRange(flags.lineRange)
      case Err(m) => Err(m)
      case Ok(range) =>
        Ok(Job(
          Config(args[0], args[1], flags.mode, flags.occurrences, flags.line, range.start, range.end, flags.verbose),
          args[2..]))
  }
}
