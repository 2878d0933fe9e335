/** The project-rule pass: gates, suppression on an incomplete graph, and isolation of crashes. */
module ProjectRules {
  import opened Diagnostics
  import opened GraphRules
  import opened ImportCycles
  import opened Imports
  import opened Options
  import opened RuleOutcomes
  import opened Tallies
  import opened Texts

  const NEED_FULL_GRAPH: set<string> := {
    "backend-doctor/unused-file", "backend-doctor/unused-export", "backend-doctor/unused-dependency"}

  datatype ProjectJob = ProjectJob(
    config: Config, detected: set<string>, reporting: Reporting,
    surfaceFailure: Option<string>, incompleteReasons: seq<string>,
    analyze: (Rule, ImportGraph) -> Behaviour<ProjectFinding>)

  function RelativeTo(reporting: Reporting, filePath: string): string {
    var relative := reporting.relative(filePath);
    if relative == "" then "." else relative
  }

  function FailureReason(reporting: Reporting, failure: Failure): string {
    RelativeTo(reporting, failure.filePath) + ": " + failure.reason
  }

  function FailureReasons(reporting: Reporting, failures: seq<Failure>): seq<string> {
    seq(|failures|, i requires 0 <= i < |failures| => FailureReason(reporting, failures[i]))
  }

  /** Why absence-based conclusions would be unsafe. */
  function Incomplete(job: ProjectJob, graph: ImportGraph): seq<string> {
    job.incompleteReasons + FailureReasons(job.reporting, graph.failures)
  }

  function ResolutionSkips(reporting: Reporting, failures: seq<Failure>): seq<SkippedCheck> {
    seq(|failures|, i requires 0 <= i < |failures| =>
      SkippedCheck("module-resolution", FailureReason(reporting, failures[i])))
  }

  /** What is recorded before any rule runs. */
  function Preliminary(job: ProjectJob, graph: ImportGraph): Outcome {
    var surface := if job.surfaceFailure.None? then []
                   else [SkippedCheck("package-surface", "package.json: " + job.surfaceFailure.value)];
    Outcome([], surface + ResolutionSkips(job.reporting, graph.failures))
  }

  function StampProject(job: ProjectJob, rule: Rule, severity: Severity, finding: ProjectFinding): Diagnostic {
    var line, column := GetOr(finding.lineOr, 1), GetOr(finding.columnOr, 1);
    Diagnostic(
      job.reporting.idOf(RelativeTo(job.reporting, finding.filePath), line, column, rule.id, finding.message),
      finding.filePath, line, column, rule.id, rule.category, severity, finding.message, [])
  }

  function ProjectCrash(job: ProjectJob, rule: Rule, reason: string): Outcome {
    var message := CrashMessage(rule, reason);
    Outcome(
      [Diagnostic(job.reporting.idOf(".", 1, 1, rule.id, message), job.reporting.scanRoot, 1, 1, rule.id,
        rule.category, Warn, message, ["internal"])],
      [SkippedCheck(rule.id, "project: " + reason)])
  }

  function IncompleteSkip(job: ProjectJob, graph: ImportGraph, rule: Rule): SkippedCheck {
    SkippedCheck(rule.id, "skipped: incomplete import graph (" + JoinTexts(Incomplete(job, graph), "; ") + ")")
  }

  function ProjectGate(job: ProjectJob, graph: ImportGraph, rule: Rule): Gate {
    var severity := Enabled(rule, job.config, job.detected);
    if severity.None? then Disabled
    else if Incomplete(job, graph) != [] && rule.id in NEED_FULL_GRAPH then Suppressed(IncompleteSkip(job, graph, rule))
    else Runs(severity.value)
  }

  /** The pass over the project rules. */
  function ProjectPass(job: ProjectJob, graph: ImportGraph): Pass<ProjectFinding> {
    Pass(rule => ProjectGate(job, graph, rule), rule => job.analyze(rule, graph),
      (rule, severity, finding) => StampProject(job, rule, severity, finding),
      (rule, reason) => ProjectCrash(job, rule, reason))
  }

  /** One project rule, alone. */
  function ProjectOutcome(job: ProjectJob, graph: ImportGraph, rule: Rule): Outcome {
    Alone(ProjectPass(job, graph), rule)
  }

  function OnProject(job: ProjectJob, graph: ImportGraph): Rule -> Outcome {
    rule => Alone(ProjectPass(job, graph), rule)
  }

  method RunProjectRules(job: ProjectJob, ops: PathOps, sources: seq<EdgeSource>, rules: seq<Rule>)
    returns (outcome: Outcome, graph: ImportGraph)
    ensures IsGraphOf(ops, sources, graph)
    ensures outcome == Join(Preliminary(job, graph), Joined(rules, OnProject(job, graph)))
  {
    hide IsGraphOf;
    graph := BuildImportGraph(ops, sources);
    var preliminary := RecordFailures(job, graph);
    hide Preliminary;
    var own := RunEach(job, graph, rules);
    outcome := Outcome(preliminary.diagnostics + own.diagnostics, preliminary.skippedChecks + own.skippedChecks);
  }

  method RecordFailures(job: ProjectJob, graph: ImportGraph) returns (outcome: Outcome)
    ensures outcome == Preliminary(job, graph)
  {
    var skippedChecks := [];
    if job.surfaceFailure.Some? {
      skippedChecks := [SkippedCheck("package-surface", "package.json: " + job.surfaceFailure.value)];
    }
    var first := skippedChecks;
    for i := 0 to |graph.failures|
      invariant skippedChecks == first + ResolutionSkips(job.reporting, graph.failures[..i])
    {
      skippedChecks := skippedChecks
        + [SkippedCheck("module-resolution", FailureReason(job.reporting, graph.failures[i]))];
    }
    assert graph.failures[..|graph.failures|] == graph.failures;
    outcome := Outcome([], skippedChecks);
  }

  method RunEach(job: ProjectJob, graph: ImportGraph, rules: seq<Rule>) returns (outcome: Outcome)
    ensures outcome == RunAll(ProjectPass(job, graph), rules).outcome == Joined(rules, OnProject(job, graph))
  {
    hide IncompleteSkip, PushAll, StampAll;
    var buffers: seq<seq<ProjectFinding>>, diagnostics, skippedChecks := [], [], [];
    var incomplete := Incomplete(job, graph);
    ghost var pass := ProjectPass(job, graph);
    for i := 0 to |rules|
      invariant RunState(buffers, Outcome(diagnostics, skippedChecks)) == RunAll(pass, rules[..i])
    {
      assert rules[..i + 1][..i] == rules[..i];
      var rule := rules[i];
      if !FrameworksDetected(rule, job.detected) || rule.id in job.config.ignoredRules {
        continue;
      }
      var setting := ResolveSeverity(job.config, rule);
      if setting.Off? {
        continue;
      }
      if |incomplete| > 0 && rule.id in NEED_FULL_GRAPH {
        skippedChecks := skippedChecks + [IncompleteSkip(job, graph, rule)];
        continue;
      }
      var own;
      buffers, own := RunOne(job, graph, buffers, rule, setting.severity);
      diagnostics := diagnostics + own.diagnostics;
      skippedChecks := skippedChecks + own.skippedChecks;
    }
    assert rules[..|rules|] == rules;
    outcome := Outcome(diagnostics, skippedChecks);
    RunIsConcatenation(pass, rules);
  }

  /** Call one rule with a buffer of its own, then stamp what is in it or replace it by the crash report. */
  method RunOne(job: ProjectJob, graph: ImportGraph, buffers: seq<seq<ProjectFinding>>, rule: Rule, severity: Severity)
    returns (pushed: seq<seq<ProjectFinding>>, own: Outcome)
    requires ProjectGate(job, graph, rule) == Runs(severity)
    ensures forall before: Outcome ::
      RunRule(ProjectPass(job, graph), RunState(buffers, before), rule) == RunState(pushed, Join(before, own))
  {
    var end;
    pushed, end := CallRule(buffers, job.analyze(rule, graph));
    hide ProjectGate;
    match end {
      case Throws(reason) =>
        own := ProjectCrash(job, rule, reason);
      case Returns =>
        var stamped := StampFindings(job, graph, rule, severity, pushed[|pushed| - 1]);
        own := Outcome(stamped, []);
    }
  }

  method StampFindings(job: ProjectJob, graph: ImportGraph, rule: Rule, severity: Severity,
      findings: seq<ProjectFinding>)
    returns (diagnostics: seq<Diagnostic>)
    ensures diagnostics == StampAll(ProjectPass(job, graph), rule, severity, findings)
  {
    diagnostics := [];
    for k := 0 to |findings|
      invariant diagnostics == StampAll(ProjectPass(job, graph), rule, severity, findings[..k])
    {
      diagnostics := diagnostics + [StampProject(job, rule, severity, findings[k])];
    }
    assert findings[..|findings|] == findings;
  }

  // ---- what a run guarantees ----

  lemma ProjectPassNames(job: ProjectJob, graph: ImportGraph)
    ensures NamesItsRule(ProjectPass(job, graph))
  {
    hide Incomplete, JoinTexts;
  }

  lemma ProjectOutcomeIsOwn(job: ProjectJob, graph: ImportGraph, rule: Rule)
    ensures About(ProjectOutcome(job, graph, rule), rule.id)
  {
    ProjectPassNames(job, graph);
    hide NamesItsRule, ProjectPass;
    AloneIsOwn(ProjectPass(job, graph), rule);
  }

  /**
   * A crashing project rule leaves one internal warning at the scan root and one skipped check between what the rules
   * before and after it leave, whatever it had reported before and whatever is reported through its context later.
   */
  lemma ProjectCrashLeavesNoFindings(job: ProjectJob, graph: ImportGraph, before: seq<Rule>, rule: Rule,
      after: seq<Rule>)
    requires ProjectGate(job, graph, rule).Runs? && job.analyze(rule, graph).end.Throws?
    ensures var report := ProjectCrash(job, rule, job.analyze(rule, graph).end.reason);
            && |report.diagnostics| == |report.skippedChecks| == 1
            && IsCrashReport(report.diagnostics[0], rule, job.analyze(rule, graph).end.reason)
            && report.diagnostics[0].filePath == job.reporting.scanRoot
            && report.skippedChecks[0].check == rule.id
            && RunAll(ProjectPass(job, graph), before + [rule] + after).outcome
               == Join(Join(RunAll(ProjectPass(job, graph), before).outcome, report),
                       RunAll(ProjectPass(job, graph), after).outcome)
  {
    CrashLeavesNoFindings(ProjectPass(job, graph), before, rule, after);
    hide RunAll, ProjectGate;
  }

  /** However one project rule behaves, and whatever contexts it reports through, the others come out the same. */
  lemma ProjectRulesAreIsolated(rules: seq<Rule>, p: ProjectJob, q: ProjectJob, graph: ImportGraph, id: string)
    requires q == p.(analyze := q.analyze)
    requires forall rule :: rule in rules && rule.id != id ==> p.analyze(rule, graph) == q.analyze(rule, graph)
    ensures WithoutRule(RunAll(ProjectPass(p, graph), rules).outcome, id)
         == WithoutRule(RunAll(ProjectPass(q, graph), rules).outcome, id)
  {
    SamePass(p, q, graph);
    ProjectPassNames(p, graph);
    ProjectPassNames(q, graph);
    hide RunAll, WithoutRule, NamesItsRule, SameFrame;
    RunIsIsolated(ProjectPass(p, graph), ProjectPass(q, graph), rules, id);
  }

  lemma SamePass(p: ProjectJob, q: ProjectJob, graph: ImportGraph)
    requires q == p.(analyze := q.analyze)
    ensures SameFrame(ProjectPass(p, graph), ProjectPass(q, graph))
  {
  }

  function CheckOf(s: SkippedCheck): string {
    s.check
  }

  /** How many of the rules with this id are enabled. */
  function EnabledCount(rules: seq<Rule>, id: string, config: Config, detected: set<string>): nat {
    if rules == [] then 0
    else
      var last := rules[|rules| - 1];
      EnabledCount(rules[..|rules| - 1], id, config, detected)
      + if last.id == id && Enabled(last, config, detected).Some? then 1 else 0
  }

  /** The rules that draw conclusions from absence. */
  ghost predicate ConcludesFromAbsence(id: string) {
    id == "backend-doctor/unused-file" || id == "backend-doctor/unused-export" || id == "backend-doctor/unused-dependency"
  }

  /** An enabled rule is suppressed exactly if it concludes from absence and a file or an import target is unknown. */
  lemma SuppressedExactly(job: ProjectJob, graph: ImportGraph, rule: Rule)
    ensures ProjectGate(job, graph, rule).Suppressed?
            <==> Enabled(rule, job.config, job.detected).Some? && ConcludesFromAbsence(rule.id)
                 && (job.incompleteReasons != [] || graph.failures != [])
    ensures ProjectGate(job, graph, rule).Disabled? <==> Enabled(rule, job.config, job.detected).None?
  {
    hide Enabled, IncompleteSkip;
    assert |Incomplete(job, graph)| == |job.incompleteReasons| + |graph.failures|;
  }

  /** The path of a failure relative to the scan root, which itself is a dot, and why it failed. */
  ghost predicate IsReason(reporting: Reporting, failure: Failure, reason: string) {
    var relative := reporting.relative(failure.filePath);
    && (relative != "" ==> reason == relative + ": " + failure.reason)
    && (relative == "" ==> reason == ".: " + failure.reason)
  }

  lemma ReasonIsPathAndCause(reporting: Reporting, failure: Failure)
    ensures IsReason(reporting, failure, FailureReason(reporting, failure))
  {
  }

  /** The reasons named by a suppressed rule: what the scan could not read, then what the graph could not resolve. */
  lemma ReasonsExact(job: ProjectJob, graph: ImportGraph)
    ensures var given, all := job.incompleteReasons, Incomplete(job, graph);
            && |all| == |given| + |graph.failures| && all[..|given|] == given
            && forall i :: 0 <= i < |graph.failures| ==>
                 IsReason(job.reporting, graph.failures[i], all[|given| + i])
  {
    forall i | 0 <= i < |graph.failures|
      ensures IsReason(job.reporting, graph.failures[i], Incomplete(job, graph)[|job.incompleteReasons| + i])
    {
      ReasonIsPathAndCause(job.reporting, graph.failures[i]);
    }
  }

  lemma ResolutionsRecorded(reporting: Reporting, failures: seq<Failure>)
    ensures var skips := ResolutionSkips(reporting, failures);
            |skips| == |failures| && forall i :: 0 <= i < |failures| ==> IsResolutionSkip(reporting, failures[i], skips[i])
  {
  }

  ghost predicate IsResolutionSkip(reporting: Reporting, failure: Failure, skip: SkippedCheck) {
    skip.check == "module-resolution" && IsReason(reporting, failure, skip.reason)
  }

  /** What is recorded before any rule runs: an unreadable package.json, then every failed resolution, in order. */
  lemma FailuresRecorded(job: ProjectJob, graph: ImportGraph)
    ensures var first := Preliminary(job, graph);
            var n := if job.surfaceFailure.Some? then 1 else 0;
            && first.diagnostics == [] && |first.skippedChecks| == n + |graph.failures|
            && (n == 1 ==>
                  first.skippedChecks[0] == SkippedCheck("package-surface", "package.json: " + job.surfaceFailure.value))
            && forall i :: 0 <= i < |graph.failures| ==>
                 IsResolutionSkip(job.reporting, graph.failures[i], first.skippedChecks[n + i])
  {
    ResolutionsRecorded(job.reporting, graph.failures);
    hide ResolutionSkips, IsResolutionSkip;
  }

  /** The diagnostic that a finding of a project rule becomes. */
  ghost predicate IsStampedProject(job: ProjectJob, rule: Rule, severity: Severity, finding: ProjectFinding,
      d: Diagnostic) {
    var relative := job.reporting.relative(finding.filePath);
    && d.filePath == finding.filePath && d.rule == rule.id && d.category == rule.category
    && d.severity == severity && d.message == finding.message && d.tags == []
    && IsPosition(finding.lineOr, d.line) && IsPosition(finding.columnOr, d.column)
    && (relative != "" ==> d.id == job.reporting.idOf(relative, d.line, d.column, rule.id, finding.message))
    && (relative == "" ==> d.id == job.reporting.idOf(".", d.line, d.column, rule.id, finding.message))
  }

  /**
   * What one project rule leaves, field by field: nothing if it is disabled; a skipped check with all reasons if it is
   * suppressed; else one diagnostic for each of its own findings, in order, or the crash report at the scan root.
   */
  lemma ProjectRuleLeaves(job: ProjectJob, graph: ImportGraph, rule: Rule)
    ensures var own, gate, behaviour := ProjectOutcome(job, graph, rule), ProjectGate(job, graph, rule), job.analyze(rule, graph);
            && (gate.Disabled? ==> own == Outcome([], []))
            && (gate.Suppressed? ==> own == Outcome([], [SkippedCheck(rule.id,
                  "skipped: incomplete import graph (" + JoinTexts(Incomplete(job, graph), "; ") + ")")]))
            && (gate.Runs? ==> Enabled(rule, job.config, job.detected) == Some(gate.severity))
            && (gate.Runs? && behaviour.end.Returns? ==>
                  && own.skippedChecks == [] && |own.diagnostics| == |OwnFindings(behaviour.calls)|
                  && forall k :: 0 <= k < |own.diagnostics| ==>
                       IsStampedProject(job, rule, gate.severity, OwnFindings(behaviour.calls)[k], own.diagnostics[k]))
            && (gate.Runs? && behaviour.end.Throws? ==>
                  && |own.diagnostics| == 1 && IsCrashReport(own.diagnostics[0], rule, behaviour.end.reason)
                  && own.diagnostics[0].filePath == job.reporting.scanRoot
                  && own.diagnostics[0].id
                     == job.reporting.idOf(".", 1, 1, rule.id, "Rule \"" + rule.id + "\" crashed: " + behaviour.end.reason)
                  && own.skippedChecks == [SkippedCheck(rule.id, "project: " + behaviour.end.reason)])
  {
    hide OwnFindings, Enabled, Incomplete, JoinTexts;
  }

  /** On an incomplete graph a rule that concludes from absence reports nothing; every enabled one is skipped once. */
  lemma {:induction false} IncompleteGraphSilences(job: ProjectJob, graph: ImportGraph, rules: seq<Rule>, id: string)
    requires job.incompleteReasons != [] || graph.failures != []
    requires ConcludesFromAbsence(id)
    ensures var outcome := Joined(rules, OnProject(job, graph));
            && (forall d :: d in outcome.diagnostics ==> d.rule != id)
            && |Select(outcome.skippedChecks, CheckOf, id)| == EnabledCount(rules, id, job.config, job.detected)
  {
    if rules != [] {
      var before, last := rules[..|rules| - 1], rules[|rules| - 1];
      IncompleteGraphSilences(job, graph, before, id);
      ProjectOutcomeIsOwn(job, graph, last);
      SilencedOne(job, graph, last, id);
      SelectAppend(Joined(before, OnProject(job, graph)).skippedChecks, ProjectOutcome(job, graph, last).skippedChecks,
        CheckOf, id);
      hide ProjectOutcome, Select, Incomplete;
    }
  }

  lemma SilencedOne(job: ProjectJob, graph: ImportGraph, rule: Rule, id: string)
    requires (job.incompleteReasons != [] || graph.failures != []) && ConcludesFromAbsence(id)
    ensures forall d :: d in ProjectOutcome(job, graph, rule).diagnostics ==> d.rule != id
    ensures |Select(ProjectOutcome(job, graph, rule).skippedChecks, CheckOf, id)|
            == if rule.id == id && Enabled(rule, job.config, job.detected).Some? then 1 else 0
  {
    var skips := ProjectOutcome(job, graph, rule).skippedChecks;
    ProjectOutcomeIsOwn(job, graph, rule);
    SuppressedExactly(job, graph, rule);
    hide ProjectGate, Enabled;
    assert |skips| <= 1;
    if |skips| == 1 {
      assert skips[..0] == [];
      assert Select(skips, CheckOf, id) == if skips[0].check == id then skips else [];
    }
  }

  /**
   * The two halves together: when the graph is complete, an enabled unused-file rule leaves a diagnostic for a file
   * exactly if there is an entry, and no entry reaches that file.
   */
  lemma UnusedFilesReported(job: ProjectJob, graph: ImportGraph, rules: seq<Rule>, rule: Rule, entries: seq<string>,
      f: string)
    requires rule in rules && rule.id == "backend-doctor/unused-file"
    requires forall r :: r in rules && r.id == rule.id ==> r == rule
    requires Enabled(rule, job.config, job.detected).Some? && job.incompleteReasons == [] && graph.failures == []
    requires job.analyze(rule, graph).end.Returns?
    requires OwnFindings(job.analyze(rule, graph).calls)
             == if entries == [] then [] else Unreached(graph.edges, entries, graph.files)
    ensures (exists d :: d in Joined(rules, OnProject(job, graph)).diagnostics && d.rule == rule.id && d.filePath == f)
            <==> entries != [] && f in graph.files && !IsReachable(graph.edges, entries, f)
  {
    var all, own := Joined(rules, OnProject(job, graph)).diagnostics, ProjectOutcome(job, graph, rule).diagnostics;
    var findings := OwnFindings(job.analyze(rule, graph).calls);
    var severity := Enabled(rule, job.config, job.detected).value;
    SuppressedExactly(job, graph, rule);
    assert own == StampAll(ProjectPass(job, graph), rule, severity, findings);
    UnreachedIsComplement(graph.edges, entries, graph.files, f);
    forall d
      ensures d in all && d.rule == rule.id <==> d in own
    {
      JoinedMembers(rules, OnProject(job, graph), d);
      ProjectOutcomeIsOwn(job, graph, rule);
      if r :| r in rules && d in ProjectOutcome(job, graph, r).diagnostics {
        ProjectOutcomeIsOwn(job, graph, r);
      }
      assert OnProject(job, graph)(rule).diagnostics == own;
    }
    hide Unreached, ProjectOutcome, IsReachable, Incomplete;
    UnusedFindingsAt(job, graph, rule, severity, findings, entries, f);
  }

  lemma {:induction false} OnlyUnusedAt(edges: Edges, entries: seq<string>, files: seq<string>)
    ensures forall x :: x in Unreached(edges, entries, files) ==> x == UnusedAt(x.filePath)
  {
    if files != [] {
      OnlyUnusedAt(edges, entries, files[..|files| - 1]);
    }
  }

  lemma UnusedFindingsAt(job: ProjectJob, graph: ImportGraph, rule: Rule, severity: Severity,
      findings: seq<ProjectFinding>, entries: seq<string>, f: string)
    requires findings == if entries == [] then [] else Unreached(graph.edges, entries, graph.files)
    ensures (exists d :: d in StampAll(ProjectPass(job, graph), rule, severity, findings) && d.filePath == f)
            <==> entries != [] && UnusedAt(f) in Unreached(graph.edges, entries, graph.files)
  {
    OnlyUnusedAt(graph.edges, entries, graph.files);
    hide Unreached;
    var ds := StampAll(ProjectPass(job, graph), rule, severity, findings);
    if d :| d in ds && d.filePath == f {
      var k :| 0 <= k < |ds| && ds[k] == d;
      assert findings[k] == UnusedAt(f);
      assert findings[k] in findings;
    }
    if entries != [] && UnusedAt(f) in findings {
      var k :| 0 <= k < |findings| && findings[k] == UnusedAt(f);
      assert ds[k].filePath == f && ds[k] in ds;
    }
  }
}
