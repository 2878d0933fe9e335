/** The report as a whole: its order, its files, its skipped checks, and on a full scan the project findings. */
module ScanReports {
  import opened Diagnostics
  import opened Imports
  import opened Options
  import opened Orders
  import opened ProjectRules
  import opened RuleOutcomes
  import opened Runner
  import opened Scan
  import opened ScanProperties

  /** The outcome of the last stage that a report was put together with. */
  lemma LastStage(engine: Engine, collected: seq<string>, scope: Option<Scope>, given: seq<string>, report: Report)
    returns (stage: Outcome)
    requires IsReport(engine, collected, scope, report) && IsGiven(collected, scope, given)
    ensures IsProjectStage(engine, engine.parse(given), scope, stage)
    ensures report == Assembled(engine, engine.parse(given), scope, stage)
  {
    hide Analyzed, IsGiven, IsProjectStage, Assembled;
    GivenIsAnalyzed(collected, scope, given);
    stage :| IsProjectStage(engine, engine.parse(given), scope, stage)
      && report == Assembled(engine, engine.parse(given), scope, stage);
  }

  // ---- order and files ----

  ghost predicate ArePaths(reporting: Reporting, files: seq<EdgeSource>, paths: seq<string>) {
    |paths| == |files| && forall i :: 0 <= i < |files| ==> paths[i] == reporting.relative(files[i].filePath)
  }

  /** The relative paths of the files, each as often as it occurs, in lexicographic order. */
  ghost predicate ListsFiles(reporting: Reporting, files: seq<EdgeSource>, listed: seq<string>) {
    && (exists paths: seq<string> :: ArePaths(reporting, files, paths) && multiset(listed) == multiset(paths))
    && forall i, j :: 0 <= i < j < |listed| ==> !Precedes(listed[j], listed[i])
  }

  lemma SortedLists(reporting: Reporting, files: seq<EdgeSource>)
    ensures ListsFiles(reporting, files, Sort(StringLess, RelativePaths(reporting, files)))
  {
    var paths := RelativePaths(reporting, files);
    var listed := Sort(StringLess, paths);
    assert ArePaths(reporting, files, paths);
    StringLessIsTotal();
    SortIsStable(StringLess, paths);
    hide Sort, RelativePaths, Precedes, StringLess, WeakOrder;
    forall i, j | 0 <= i < j < |listed|
      ensures !Precedes(listed[j], listed[i])
    {
      StringLessIsLexicographic(listed[j], listed[i]);
    }
  }

  /** A report is complete exactly without a scope, lists the parsed files, and follows file, line, column and rule. */
  lemma ReportFrame(engine: Engine, collected: seq<string>, scope: Option<Scope>, given: seq<string>, report: Report)
    requires IsReport(engine, collected, scope, report) && IsGiven(collected, scope, given)
    ensures report.complete <==> scope.None?
    ensures ListsFiles(engine.reporting, engine.parse(given).files, report.analyzedFiles)
    ensures forall i, j :: 0 <= i < j < |report.diagnostics| ==>
      !ReportedBefore(engine.reporting.relative, report.diagnostics[j], report.diagnostics[i])
  {
    SortedLists(engine.reporting, engine.parse(given).files);
    hide IsReport, IsGiven, SortDiagnostics, EarlySkips, FileOutcomes, InScope, IsProjectStage, ListsFiles, Sort,
      ReportedBefore;
    var stage := LastStage(engine, collected, scope, given, report);
    var all := InScope(scope, FileDiagnostics(engine, given)) + stage.diagnostics;
    forall i, j | 0 <= i < j < |report.diagnostics|
      ensures !ReportedBefore(engine.reporting.relative, report.diagnostics[j], report.diagnostics[i])
    {
      ReportFollowsFields(engine.reporting.relative, all, i, j);
    }
  }

  // ---- the project stage ----

  ghost predicate IsText(reporting: Reporting, failure: Failure, text: string) {
    text == reporting.relative(failure.filePath) + ": " + failure.reason
  }

  /** One text for every failure, those of the first list first. */
  ghost predicate AreTexts(reporting: Reporting, unread: seq<Failure>, unresolved: seq<Failure>, texts: seq<string>) {
    && |texts| == |unread| + |unresolved|
    && (forall i :: 0 <= i < |unread| ==> IsText(reporting, unread[i], texts[i]))
    && forall i :: 0 <= i < |unresolved| ==> IsText(reporting, unresolved[i], texts[|unread| + i])
  }

  /** What the project rules are given: what could not be read, then what could not be resolved, makes it incomplete. */
  ghost predicate IsProjectJob(engine: Engine, parsed: Parsed, job: ProjectJob) {
    && job.config == engine.config && job.detected == engine.detect(parsed.files).0
    && job.reporting == engine.reporting && job.surfaceFailure == engine.surfaceFailure
    && job.analyze == engine.analyze
    && AreTexts(engine.reporting, parsed.failures, parsed.resolutionFailures, job.incompleteReasons)
  }

  lemma TextsExactly(reporting: Reporting, unread: seq<Failure>, unresolved: seq<Failure>, texts: seq<string>)
    ensures AreTexts(reporting, unread, unresolved, texts) <==> texts == ReasonTexts(reporting, unread + unresolved)
  {
    var exact := ReasonTexts(reporting, unread + unresolved);
    assert AreTexts(reporting, unread, unresolved, exact);
    if AreTexts(reporting, unread, unresolved, texts) {
      forall i | 0 <= i < |exact|
        ensures texts[i] == exact[i]
      {
        if i >= |unread| {
          assert IsText(reporting, unresolved[i - |unread|], texts[|unread| + (i - |unread|)]);
        }
      }
    }
  }

  lemma ProjectJobExactly(engine: Engine, parsed: Parsed, job: ProjectJob)
    ensures IsProjectJob(engine, parsed, job) <==> job == ProjectJobFor(engine, parsed)
  {
    TextsExactly(engine.reporting, parsed.failures, parsed.resolutionFailures, job.incompleteReasons);
    TextsExactly(engine.reporting, parsed.failures, parsed.resolutionFailures,
      ProjectJobFor(engine, parsed).incompleteReasons);
    hide AreTexts, ReasonTexts;
  }

  /** One of the project rules reports `d` on the graph. */
  ghost predicate FoundByProjectRule(engine: Engine, parsed: Parsed, graph: ImportGraph, d: Diagnostic) {
    exists job, rule :: IsProjectJob(engine, parsed, job) && rule in engine.projectRules
      && d in ProjectOutcome(job, graph, rule).diagnostics
  }

  lemma FoundIsJoined(engine: Engine, parsed: Parsed, graph: ImportGraph, d: Diagnostic)
    ensures FoundByProjectRule(engine, parsed, graph, d)
            <==> d in Joined(engine.projectRules, OnProject(ProjectJobFor(engine, parsed), graph)).diagnostics
  {
    var exact := ProjectJobFor(engine, parsed);
    JoinedMembers(engine.projectRules, OnProject(exact, graph), d);
    assert forall rule :: OnProject(exact, graph)(rule) == ProjectOutcome(exact, graph, rule);
    hide ProjectOutcome, IsProjectJob, ProjectJobFor;
    ProjectJobExactly(engine, parsed, exact);
    if FoundByProjectRule(engine, parsed, graph, d) {
      var job, rule :| IsProjectJob(engine, parsed, job) && rule in engine.projectRules
        && d in ProjectOutcome(job, graph, rule).diagnostics;
      ProjectJobExactly(engine, parsed, job);
    }
  }

  ghost predicate ReportsBoth(engine: Engine, parsed: Parsed, graph: ImportGraph, report: Report) {
    forall d :: d in report.diagnostics
      <==> FoundByFileRule(engine, parsed.files, d) || FoundByProjectRule(engine, parsed, graph, d)
  }

  /**
   * A full scan reports exactly what the file rules find on the collected files and what the project rules find on
   * the import graph of those files.
   */
  lemma FullReportExactly(engine: Engine, collected: seq<string>, report: Report)
    requires IsReport(engine, collected, None, report)
    ensures var parsed := engine.parse(collected);
            exists graph :: IsGraphOf(engine.ops, parsed.files, graph) && ReportsBoth(engine, parsed, graph, report)
  {
    var parsed := engine.parse(collected);
    var job := ProjectJobFor(engine, parsed);
    hide IsReport, IsGraphOf, FileOutcomes, EarlySkips, SortDiagnostics, Joined, ProjectJobFor;
    var stage := LastStage(engine, collected, None, collected, report);
    var graph :| IsGraphOf(engine.ops, parsed.files, graph)
      && stage == Join(Preliminary(job, graph), Joined(engine.projectRules, OnProject(job, graph)));
    FailuresRecorded(job, graph);
    hide IsProjectStage, Preliminary, FoundByFileRule, FoundByProjectRule;
    forall d
      ensures d in report.diagnostics
              <==> FoundByFileRule(engine, parsed.files, d) || FoundByProjectRule(engine, parsed, graph, d)
    {
      SortedMembers(engine.reporting.relative,
        FileOutcomes(engine, parsed.files, |parsed.files|).diagnostics + stage.diagnostics, d);
      FoundAnywhere(engine, parsed.files, d);
      FoundIsJoined(engine, parsed, graph, d);
    }
  }

  /** After any failure to read or resolve, a full scan draws no conclusion from absence. */
  lemma UnreadFilesSilence(engine: Engine, collected: seq<string>, report: Report, d: Diagnostic)
    requires IsReport(engine, collected, None, report) && d in report.diagnostics
    requires engine.parse(collected).failures != [] || engine.parse(collected).resolutionFailures != []
    requires forall rule :: rule in engine.fileRules ==> !ConcludesFromAbsence(rule.id)
    ensures !ConcludesFromAbsence(d.rule)
  {
    var parsed := engine.parse(collected);
    FullReportExactly(engine, collected, report);
    hide IsReport, IsGraphOf, FoundByFileRule, FoundByProjectRule, ConcludesFromAbsence, ProjectJobFor;
    var graph :| IsGraphOf(engine.ops, parsed.files, graph) && ReportsBoth(engine, parsed, graph, report);
    if FoundByFileRule(engine, parsed.files, d) {
      FoundNamesRule(engine, parsed.files, d);
    } else if ConcludesFromAbsence(d.rule) {
      FoundIsJoined(engine, parsed, graph, d);
      ReasonsGiven(engine, parsed);
      hide Joined;
      IncompleteGraphSilences(ProjectJobFor(engine, parsed), graph, engine.projectRules, d.rule);
    }
  }

  lemma ReasonsGiven(engine: Engine, parsed: Parsed)
    ensures ProjectJobFor(engine, parsed).incompleteReasons == []
            <==> parsed.failures == [] && parsed.resolutionFailures == []
  {
  }

  lemma FoundNamesRule(engine: Engine, files: seq<EdgeSource>, d: Diagnostic)
    requires FoundByFileRule(engine, files, d)
    ensures exists rule :: rule in engine.fileRules && rule.id == d.rule
  {
    hide ReportsOn, FileOutcome;
    var i, rule :| 0 <= i < |files| && rule in engine.fileRules && ReportsOn(engine, files, files[i].filePath, rule, d);
    ReportsOnIsOutcome(engine, files, files[i].filePath, rule, d);
    OutcomeIsOwn(JobFor(engine, files, files[i].filePath), rule);
  }

  // ---- the skipped checks ----

  ghost predicate AreSkips(reporting: Reporting, check: string, failures: seq<Failure>, skips: seq<SkippedCheck>) {
    |skips| == |failures|
    && forall i :: 0 <= i < |failures| ==>
         skips[i].check == check && IsText(reporting, failures[i], skips[i].reason)
  }

  lemma SkipsExact(reporting: Reporting, check: string, failures: seq<Failure>)
    ensures AreSkips(reporting, check, failures, Skips(reporting, check, failures))
  {
  }

  /** The text that stands for the project rules of a partial scan. */
  ghost predicate IsProjectSkip(scope: Scope, skip: SkippedCheck) {
    && skip.check == "project-rules"
    && skip.reason == "skipped: "
         + (match scope.mode { case Changed => "changed" case FilesOnly => "files" case LinesOnly => "lines" })
         + " scope analyzes a file subset; project rules require the full file set"
  }

  /** What the last stage skips: one entry for all project rules, or what the project rules record. */
  ghost predicate StageSkips(engine: Engine, parsed: Parsed, scope: Option<Scope>, skips: seq<SkippedCheck>) {
    && (scope.Some? ==> |skips| == 1 && IsProjectSkip(scope.value, skips[0]))
    && (scope.None? ==> ProjectSkips(engine, parsed, skips))
  }

  ghost predicate ProjectSkips(engine: Engine, parsed: Parsed, skips: seq<SkippedCheck>) {
    exists job, graph :: IsProjectJob(engine, parsed, job) && IsGraphOf(engine.ops, parsed.files, graph)
      && skips == Preliminary(job, graph).skippedChecks + Joined(engine.projectRules, OnProject(job, graph)).skippedChecks
  }

  /** What happens before the rules: unread files, unresolved files, frameworks, application model. */
  ghost predicate BeforeRules(engine: Engine, parsed: Parsed, skips: seq<SkippedCheck>) {
    exists unread, unresolved :: AreSkips(engine.reporting, "read", parsed.failures, unread)
      && AreSkips(engine.reporting, "module-resolution", parsed.resolutionFailures, unresolved)
      && skips == unread + unresolved + engine.detect(parsed.files).1
                  + match engine.modelFailure(parsed.files) { case None => [] case Some(failure) => [failure] }
  }

  lemma EarlySkipsExact(engine: Engine, parsed: Parsed)
    ensures BeforeRules(engine, parsed, EarlySkips(engine, parsed))
  {
    SkipsExact(engine.reporting, "read", parsed.failures);
    SkipsExact(engine.reporting, "module-resolution", parsed.resolutionFailures);
    hide AreSkips, Skips;
  }

  lemma StageSkipsExact(engine: Engine, parsed: Parsed, scope: Option<Scope>, stage: Outcome)
    requires IsProjectStage(engine, parsed, scope, stage)
    ensures StageSkips(engine, parsed, scope, stage.skippedChecks)
  {
    hide IsGraphOf, Joined, Preliminary;
    if scope.None? {
      ProjectJobExactly(engine, parsed, ProjectJobFor(engine, parsed));
      hide IsProjectJob, ProjectJobFor;
    }
  }

  /** Nothing that is not done goes unmentioned: everything a scan skips is listed, stage after stage. */
  lemma SkipsInOrder(engine: Engine, collected: seq<string>, scope: Option<Scope>, given: seq<string>, report: Report)
    requires IsReport(engine, collected, scope, report) && IsGiven(collected, scope, given)
    ensures var parsed := engine.parse(given);
            exists early, stage :: BeforeRules(engine, parsed, early) && StageSkips(engine, parsed, scope, stage)
              && report.skippedChecks == early + FileOutcomes(engine, parsed.files, |parsed.files|).skippedChecks + stage
  {
    hide IsReport, IsGiven, EarlySkips, BeforeRules, IsProjectStage, StageSkips, FileOutcomes, SortDiagnostics, Sort;
    var stage := LastStage(engine, collected, scope, given, report);
    EarlySkipsExact(engine, engine.parse(given));
    StageSkipsExact(engine, engine.parse(given), scope, stage);
  }

  /** A partial scan reports no project finding, says so, and is not complete. */
  lemma PartialScopesSkipProjectRules(engine: Engine, collected: seq<string>, scope: Option<Scope>, given: seq<string>,
      report: Report)
    requires IsReport(engine, collected, scope, report) && IsGiven(collected, scope, given)
    ensures report.complete <==> scope.None?
    ensures scope.Some? ==>
      && (exists skip :: skip in report.skippedChecks && IsProjectSkip(scope.value, skip))
      && forall d :: d in report.diagnostics ==> FoundByFileRule(engine, engine.parse(given).files, d)
  {
    hide IsReport, IsGiven, EarlySkips, FileOutcomes, SortDiagnostics, Sort, FoundByFileRule, OnChangedLine, ProjectSkip,
      IsProjectSkip;
    var stage := LastStage(engine, collected, scope, given, report);
    if scope.Some? {
      StageSkipsExact(engine, engine.parse(given), scope, stage);
      assert report.skippedChecks[|report.skippedChecks| - 1] == stage.skippedChecks[0];
      forall d | d in report.diagnostics
        ensures FoundByFileRule(engine, engine.parse(given).files, d)
      {
        PartialReportExactly(engine, collected, scope.value, given, report, d);
      }
    }
  }
}
