/**
 * The per-line policy of `read` (main.go:159-169): which lines are eligible
 * and what an eligible line becomes.
 */
module LineTransform {
  import opened GoStrings

  /**
   * Literal mode uses strings.Replace. In pattern mode (the `-r` flag) the
   * line goes through the compiled expression's ReplaceAllString with the
   * replacement template; that engine is not part of this model, so the
   * function it computes is supplied as a parameter.
   */
  datatype Mode = Literal | Pattern(replaceAll: string -> string)

  /**
   * The settings `read` consults: the search and replacement terms, the mode,
   * the occurrence limit `-o` (negative: unlimited), the target line `-l`
   * (1-based, -1: any), the range [start, end) from `-lr` (end -1: no bound)
   * and the verbose flag `-v`.
   */
  datatype Config = Config(
    search: string,
    replacement: string,
    mode: Mode,
    occurrences: int,
    line: int,
    start: int,
    end: int,
    verbose: bool)

  /**
   * Line `i` (0-based) is considered for replacement: it is the target line
   * if one is set, and lies in [start, end). This is exactly the negation of
   * `read`'s skip test; with every flag at its default each line is eligible,
   * and a target line `-l n` admits only line n - 1.
   */
  function Eligible(i: int, cfg: Config): (r: bool)
    ensures r <==> !((cfg.line != -1 && cfg.line != i + 1) || i < cfg.start || (cfg.end != -1 && cfg.end <= i))
    ensures i >= 0 && cfg.line == -1 && cfg.start == 0 && cfg.end == -1 ==> r
    ensures r && cfg.line != -1 ==> i == cfg.line - 1
  {
    (cfg.line == -1 || cfg.line == i + 1) && i >= cfg.start && (cfg.end == -1 || i < cfg.end)
  }

  /** What an eligible line becomes. */
  function Rewrite(text: string, cfg: Config): string {
    match cfg.mode
    case Literal => Replace(text, cfg.search, cfg.replacement, cfg.occurrences)
    case Pattern(replaceAll) => replaceAll(text)
  }

  /**
   * The output line for input line `i`: rewritten when eligible, copied
   * verbatim otherwise. In literal mode a limit of 0 or a search term equal
   * to the replacement keeps the line as it is.
   */
  function TransformLine(text: string, i: int, cfg: Config): (r: string)
    ensures !Eligible(i, cfg) ==> r == text
    ensures cfg.mode.Literal? && (cfg.occurrences == 0 || cfg.search == cfg.replacement) ==> r == text
  {
    if Eligible(i, cfg) then Rewrite(text, cfg) else text
  }

  /**
   * In literal mode a line is left as it is when the occurrence limit is 0,
   * when the search term equals the replacement (an empty search with an
   * empty replacement included), or when the search term does not occur in it.
   */
  lemma {:induction false} LiteralLineUnchanged(text: string, i: int, cfg: Config)
    requires cfg.mode.Literal?
    requires cfg.occurrences == 0 || cfg.search == cfg.replacement
          || (cfg.search != [] && !Contains(text, cfg.search))
    ensures TransformLine(text, i, cfg) == text
  {
    if cfg.occurrences != 0 && cfg.search != cfg.replacement {
      ReplaceNoMatch(text, cfg.search, cfg.replacement, cfg.occurrences);
    }
  }

  /**
   * Matching never crosses a line boundary: a search term holding '\n' never
   * matches inside a scanned line, which holds none, so the line is kept.
   */
  lemma {:induction false} NoMatchAcrossLines(text: string, i: int, cfg: Config)
    requires cfg.mode.Literal? && '\n' in cfg.search && '\n' !in text
    ensures TransformLine(text, i, cfg) == text
  {
    ContainsNeedsChar(text, cfg.search, '\n');
    LiteralLineUnchanged(text, i, cfg);
  }
}
