/**
 * The state one invocation works on and the steps that change it:
 * `read` and `write` on a path, `readAndWrite` for one file
 * (main.go:122-132) and the body of `run` after its checks (main.go:66-82).
 * Files are a map from path to text; the shared report `changedFiles`
 * (main.go:36) is a map from path to change records.
 */
module Ged {
  import opened Outcomes
  import opened LineScan
  import opened LineTransform
  import opened FileProcessor
  import opened Cli

  /** The files and the report, as values. */
  datatype State = State(files: map<string, string>, report: map<string, seq<ChangedLine>>)

  /** The value stored under `key`, if any. */
  function Lookup<K, V>(m: map<K, V>, key: K): Option<V> {
    if key in m then Some(m[key]) else None
  }

  /** What a file holds after `readAndWrite`: its rewritten text, or nothing when it could not be opened. */
  function AfterReadAndWrite(files: map<string, string>, filename: string, cfg: Config): string {
    if filename in files then RewriteFile(files[filename], cfg) else []
  }

  /** The report after `read` of `filename`: an entry only when the file opened and yielded records. */
  function ReportAfter(files: map<string, string>, report: map<string, seq<ChangedLine>>, filename: string, cfg: Config)
    : map<string, seq<ChangedLine>>
  {
    if filename in files && Records(ScanLines(files[filename]), cfg) != [] then
      report[filename := Records(ScanLines(files[filename]), cfg)]
    else report
  }

  /**
   * `readAndWrite` of one path: the path exists afterwards and holds its
   * rewritten text, or nothing if it could not be opened; the report gains
   * the records `read` made, if there are any; no other path changes.
   */
  function Step(st: State, filename: string, cfg: Config): (r: State)
    ensures r.files.Keys == st.files.Keys + {filename}
    ensures forall p :: p != filename ==>
      Lookup(r.files, p) == Lookup(st.files, p) && Lookup(r.report, p) == Lookup(st.report, p)
    ensures filename !in st.files ==> r.files[filename] == [] && r.report == st.report
    ensures filename in st.files ==>
      r.files[filename] == Written(Rewritten(ScanLines(st.files[filename]), cfg))
      && (Records(ScanLines(st.files[filename]), cfg) == [] ==> r.report == st.report)
      && (Records(ScanLines(st.files[filename]), cfg) != [] ==>
            r.report == st.report[filename := Records(ScanLines(st.files[filename]), cfg)])
  {
    State(st.files[filename := AfterReadAndWrite(st.files, filename, cfg)], ReportAfter(st.files, st.report, filename, cfg))
  }

  /** `readAndWrite` of each path in turn. */
  function StepAll(st: State, paths: seq<string>, cfg: Config): State
    decreases |paths|
  {
    if paths == [] then st
    else Step(StepAll(st, paths[..|paths| - 1], cfg), paths[|paths| - 1], cfg)
  }

  ghost predicate Distinct(paths: seq<string>) {
    forall i, j :: 0 <= i < j < |paths| ==> paths[i] != paths[j]
  }

  /**
   * What processing the paths leaves behind: paths not named keep their
   * text and report entry, every named path exists afterwards, and when no
   * path is named twice each holds its rewritten text (empty if it could
   * not be opened) and the report entry its `read` made.
   */
  lemma {:induction false} StepAllSpec(st: State, paths: seq<string>, cfg: Config)
    ensures forall p :: p in StepAll(st, paths, cfg).files <==> p in st.files || p in paths
    ensures forall p :: p !in paths ==>
      Lookup(StepAll(st, paths, cfg).files, p) == Lookup(st.files, p)
      && Lookup(StepAll(st, paths, cfg).report, p) == Lookup(st.report, p)
    ensures Distinct(paths) ==> forall p :: p in paths ==>
      Lookup(StepAll(st, paths, cfg).files, p) == Some(AfterReadAndWrite(st.files, p, cfg))
      && Lookup(StepAll(st, paths, cfg).report, p) == Lookup(ReportAfter(st.files, st.report, p, cfg), p)
    decreases |paths|
  {
    if paths != [] {
      var init, last := paths[..|paths| - 1], paths[|paths| - 1];
      assert paths == init + [last];
      StepAllSpec(st, init, cfg);
      var mid := StepAll(st, init, cfg);
      if Distinct(paths) {
        assert last !in init;
        assert Distinct(init);
        SameEntrySameOutcome(mid, st, last, cfg);
      }
    }
  }

  /** Where a path's file and report entry are as in `st0`, `readAndWrite` of it has the same outcome. */
  lemma {:induction false} SameEntrySameOutcome(st: State, st0: State, p: string, cfg: Config)
    requires Lookup(st.files, p) == Lookup(st0.files, p) && Lookup(st.report, p) == Lookup(st0.report, p)
    ensures AfterReadAndWrite(st.files, p, cfg) == AfterReadAndWrite(st0.files, p, cfg)
    ensures Lookup(ReportAfter(st.files, st.report, p, cfg), p) == Lookup(ReportAfter(st0.files, st0.report, p, cfg), p)
  {
  }

  class Session {
    var files: map<string, string>
    var changedFiles: map<string, seq<ChangedLine>>

    constructor (files: map<string, string>)
      ensures this.files == files && changedFiles == map[]
    {
      this.files := files;
      changedFiles := map[];
    }

    /**
     * `read` on a path: opening fails when there is no such file, and then
     * nothing is recorded; otherwise the records, if any, go into the report.
     */
    method ReadFile(filename: string, cfg: Config) returns (contents: seq<string>, found: bool)
      modifies this`changedFiles
      ensures found <==> filename in files
      ensures found ==> contents == Rewritten(ScanLines(files[filename]), cfg)
      ensures !found ==> contents == []
      ensures changedFiles == ReportAfter(files, old(changedFiles), filename, cfg)
    {
      if filename !in files {
        return [], false;
      }
      var changedLines;
      contents, changedLines := Read(files[filename], cfg);
      if |changedLines| != 0 {
        changedFiles := changedFiles[filename := changedLines];
      }
      found := true;
    }

    /** `write`: the file is created or truncated and receives every line followed by '\n'. */
    method WriteFile(filename: string, contents: seq<string>)
      modifies this`files
      ensures files == old(files)[filename := Written(contents)]
    {
      var buffer := Write(contents);
      files := files[filename := buffer];
    }

    /**
     * `readAndWrite`: the write happens even when the read failed, so a path
     * that could not be opened ends up as an empty file.
     */
    method ReadAndWrite(filename: string, cfg: Config)
      modifies this
      ensures State(files, changedFiles) == Step(old(State(files, changedFiles)), filename, cfg)
    {
      var contents, found := ReadFile(filename, cfg);
      WriteFile(filename, contents);
    }

    /**
     * `run` after flag parsing: the checks of Setup, then every path in turn.
     * A failed check changes nothing and is reported.
     */
    method Run(args: seq<string>, flags: Flags) returns (err: Option<string>)
      modifies this
      ensures err.Some? <==> Setup(args, flags).Err?
      ensures err.Some? ==>
        err.value == Setup(args, flags).message && files == old(files) && changedFiles == old(changedFiles)
      ensures err.None? ==>
        var job := Setup(args, flags).value;
        State(files, changedFiles) == StepAll(old(State(files, changedFiles)), job.paths, job.cfg)
    {
      match Setup(args, flags)
      case Err(m) =>
        return Some(m);
      case Ok(job) =>
        var paths, cfg := job.paths, job.cfg;
        for k := 0 to |paths|
          invariant State(files, changedFiles) == StepAll(old(State(files, changedFiles)), paths[..k], cfg)
        {
          assert paths[..k + 1][..k] == paths[..k];
          ReadAndWrite(paths[k], cfg);
        }
        assert paths[..|paths|] == paths;
        return None;
    }
  }
}
