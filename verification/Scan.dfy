/** The scan as a whole: file rules, scopes, project rules and the report. */
module Scan {
  import opened Diagnostics
  import opened GraphRules
  import opened Hunks
  import opened Imports
  import opened Options
  import opened Orders
  import opened ProjectRules
  import opened RuleOutcomes
  import opened Runner

  datatype ScopeMode = Changed | FilesOnly | LinesOnly

  /** The files let through and, for the lines mode, the changed ranges of every tracked file. */
  datatype Scope = Scope(mode: ScopeMode, files: set<string>, lineRanges: map<string, seq<LineRange>>)

  datatype Parsed = Parsed(files: seq<EdgeSource>, failures: seq<Failure>, resolutionFailures: seq<Failure>)

  /** What the rest of the engine supplies: parser, framework detection, application model and rules. */
  datatype Engine = Engine(
    ops: PathOps, config: Config, reporting: Reporting,
    parse: seq<string> -> Parsed,
    detect: seq<EdgeSource> -> (set<string>, seq<SkippedCheck>),
    modelFailure: seq<EdgeSource> -> Option<SkippedCheck>,
    fileRules: seq<Rule>, create: (seq<EdgeSource>, string, Rule) -> Behaviour<FileFinding>,
    projectRules: seq<Rule>, analyze: (Rule, ImportGraph) -> Behaviour<ProjectFinding>,
    surfaceFailure: Option<string>)

  datatype Report = Report(
    diagnostics: seq<Diagnostic>, skippedChecks: seq<SkippedCheck>, analyzedFiles: seq<string>, complete: bool)

  // ---- the stages ----

  /** The collected files inside the scope. */
  function Analyzed(collected: seq<string>, scope: Option<Scope>): seq<string> {
    if scope.None? then collected
    else if collected == [] then []
    else
      var rest, last := Analyzed(collected[..|collected| - 1], scope), collected[|collected| - 1];
      if last in scope.value.files then rest + [last] else rest
  }

  /** Unlike the project rules, the scan leaves the empty path of a target that is a single file as it is. */
  function ReasonText(reporting: Reporting, failure: Failure): string {
    reporting.relative(failure.filePath) + ": " + failure.reason
  }

  function ReasonTexts(reporting: Reporting, failures: seq<Failure>): seq<string> {
    seq(|failures|, i requires 0 <= i < |failures| => ReasonText(reporting, failures[i]))
  }

  function Skips(reporting: Reporting, check: string, failures: seq<Failure>): seq<SkippedCheck> {
    seq(|failures|, i requires 0 <= i < |failures| => SkippedCheck(check, ReasonText(reporting, failures[i])))
  }

  function EarlySkips(engine: Engine, parsed: Parsed): seq<SkippedCheck> {
    var failure := engine.modelFailure(parsed.files);
    Skips(engine.reporting, "read", parsed.failures)
    + Skips(engine.reporting, "module-resolution", parsed.resolutionFailures)
    + engine.detect(parsed.files).1
    + if failure.Some? then [failure.value] else []
  }

  function JobFor(engine: Engine, files: seq<EdgeSource>, filePath: string): FileJob {
    FileJob(filePath, engine.config, engine.detect(files).0, engine.reporting,
      rule => engine.create(files, filePath, rule))
  }

  /** The file rules on the first `n` files. */
  function FileOutcomes(engine: Engine, files: seq<EdgeSource>, n: nat): Outcome
    requires n <= |files|
  {
    if n == 0 then Nothing
    else Join(FileOutcomes(engine, files, n - 1),
              Joined(engine.fileRules, OnFile(JobFor(engine, files, files[n - 1].filePath))))
  }

  /** A file without an entry is new: all of it counts as changed. */
  predicate InChangedHunk(lineRanges: map<string, seq<LineRange>>, d: Diagnostic) {
    d.filePath in lineRanges ==> exists r :: r in lineRanges[d.filePath] && Covers(r, d.line)
  }

  function Kept(lineRanges: map<string, seq<LineRange>>, ds: seq<Diagnostic>): seq<Diagnostic> {
    if ds == [] then []
    else
      var rest, last := Kept(lineRanges, ds[..|ds| - 1]), ds[|ds| - 1];
      if InChangedHunk(lineRanges, last) then rest + [last] else rest
  }

  function InScope(scope: Option<Scope>, ds: seq<Diagnostic>): seq<Diagnostic> {
    if scope.Some? && scope.value.mode.LinesOnly? then Kept(scope.value.lineRanges, ds) else ds
  }

  function ProjectJobFor(engine: Engine, parsed: Parsed): ProjectJob {
    ProjectJob(engine.config, engine.detect(parsed.files).0, engine.reporting, engine.surfaceFailure,
      ReasonTexts(engine.reporting, parsed.failures + parsed.resolutionFailures), engine.analyze)
  }

  function ModeText(mode: ScopeMode): string {
    match mode
    case Changed => "changed"
    case FilesOnly => "files"
    case LinesOnly => "lines"
  }

  function ProjectSkip(scope: Scope): SkippedCheck {
    SkippedCheck("project-rules", "skipped: " + ModeText(scope.mode)
      + " scope analyzes a file subset; project rules require the full file set")
  }

  /** The last stage: the project rules on a full scan, a visible skip otherwise. */
  ghost predicate IsProjectStage(engine: Engine, parsed: Parsed, scope: Option<Scope>, stage: Outcome) {
    if scope.Some? then stage == Outcome([], [ProjectSkip(scope.value)])
    else
      var job := ProjectJobFor(engine, parsed);
      exists graph :: IsGraphOf(engine.ops, parsed.files, graph)
        && stage == Join(Preliminary(job, graph), Joined(engine.projectRules, OnProject(job, graph)))
  }

  function RelativePaths(reporting: Reporting, files: seq<EdgeSource>): seq<string> {
    seq(|files|, i requires 0 <= i < |files| => reporting.relative(files[i].filePath))
  }

  /** The report put together from what the stages leave. */
  function Assembled(engine: Engine, parsed: Parsed, scope: Option<Scope>, stage: Outcome): Report {
    var own := FileOutcomes(engine, parsed.files, |parsed.files|);
    Report(
      SortDiagnostics(engine.reporting.relative, InScope(scope, own.diagnostics) + stage.diagnostics),
      EarlySkips(engine, parsed) + own.skippedChecks + stage.skippedChecks,
      Sort(StringLess, RelativePaths(engine.reporting, parsed.files)), scope.None?)
  }

  ghost predicate IsReport(engine: Engine, collected: seq<string>, scope: Option<Scope>, report: Report) {
    var parsed := engine.parse(Analyzed(collected, scope));
    exists stage :: IsProjectStage(engine, parsed, scope, stage) && report == Assembled(engine, parsed, scope, stage)
  }

  method RunFileRules(engine: Engine, files: seq<EdgeSource>) returns (outcome: Outcome)
    ensures outcome == FileOutcomes(engine, files, |files|)
  {
    outcome := Nothing;
    for i := 0 to |files|
      invariant outcome == FileOutcomes(engine, files, i)
    {
      var own := RunRules(JobFor(engine, files, files[i].filePath), engine.fileRules);
      outcome := Outcome(outcome.diagnostics + own.diagnostics, outcome.skippedChecks + own.skippedChecks);
    }
  }

  /** The filter of the lines scope. */
  method KeepChanged(lineRanges: map<string, seq<LineRange>>, diagnostics: seq<Diagnostic>)
    returns (kept: seq<Diagnostic>)
    ensures kept == Kept(lineRanges, diagnostics)
  {
    kept := [];
    for i := 0 to |diagnostics|
      invariant kept == Kept(lineRanges, diagnostics[..i])
    {
      assert diagnostics[..i + 1][..i] == diagnostics[..i];
      if InChangedHunk(lineRanges, diagnostics[i]) {
        kept := kept + [diagnostics[i]];
      }
    }
    assert diagnostics[..|diagnostics|] == diagnostics;
  }

  method RunScan(engine: Engine, collected: seq<string>, scope: Option<Scope>) returns (report: Report)
    ensures IsReport(engine, collected, scope, report)
  {
    hide Joined, Kept, EarlySkips, FileOutcomes, IsGraphOf, Preliminary;
    var parsed := engine.parse(Analyzed(collected, scope));
    var skippedChecks := EarlySkips(engine, parsed);
    var own := RunFileRules(engine, parsed.files);
    var diagnostics := own.diagnostics;
    skippedChecks := skippedChecks + own.skippedChecks;
    if scope.Some? && scope.value.mode.LinesOnly? {
      diagnostics := KeepChanged(scope.value.lineRanges, diagnostics);
    }
    var stage;
    if scope.None? {
      var graph;
      stage, graph := RunProjectRules(ProjectJobFor(engine, parsed), engine.ops, parsed.files, engine.projectRules);
    } else {
      stage := Outcome([], [ProjectSkip(scope.value)]);
    }
    diagnostics := diagnostics + stage.diagnostics;
    skippedChecks := skippedChecks + stage.skippedChecks;
    report := Report(
      SortDiagnostics(engine.reporting.relative, diagnostics), skippedChecks,
      Sort(StringLess, RelativePaths(engine.reporting, parsed.files)), scope.None?);
    assert IsProjectStage(engine, parsed, scope, stage);
  }
}
