/** Running the rules on one file, and the global order of the diagnostics. */
module Runner {
  import opened Diagnostics
  import opened Options
  import opened Orders
  import opened RuleOutcomes
  import opened Tallies

  // ---- rules on one file ----

  /** Where a finding is: at a syntax node, whose position the parser knows, or at an optional line and column. */
  datatype Place = AtNode(line: int, column: int) | At(lineOr: Option<int>, columnOr: Option<int>)

  datatype FileFinding = FileFinding(place: Place, message: string)

  datatype FileJob = FileJob(
    filePath: string, config: Config, detected: set<string>, reporting: Reporting,
    create: Rule -> Behaviour<FileFinding>)

  function LineOf(place: Place): int {
    match place
    case AtNode(line, _) => line
    case At(line, _) => GetOr(line, 1)
  }

  function ColumnOf(place: Place): int {
    match place
    case AtNode(_, column) => column
    case At(_, column) => GetOr(column, 1)
  }

  function Stamp(job: FileJob, rule: Rule, severity: Severity, finding: FileFinding): Diagnostic {
    var line, column := LineOf(finding.place), ColumnOf(finding.place);
    Diagnostic(
      job.reporting.idOf(job.reporting.relative(job.filePath), line, column, rule.id, finding.message),
      job.filePath, line, column, rule.id, rule.category, severity, finding.message, [])
  }

  function CrashOutcome(job: FileJob, rule: Rule, reason: string): Outcome {
    var file, message := job.reporting.relative(job.filePath), CrashMessage(rule, reason);
    Outcome(
      [Diagnostic(job.reporting.idOf(file, 1, 1, rule.id, message), job.filePath, 1, 1, rule.id, rule.category,
        Warn, message, ["internal"])],
      [SkippedCheck(rule.id, file + ": " + reason)])
  }

  function FileGate(job: FileJob, rule: Rule): Gate {
    var severity := Enabled(rule, job.config, job.detected);
    if severity.None? then Disabled else Runs(severity.value)
  }

  /** The pass over the rules for one file. */
  function FilePass(job: FileJob): Pass<FileFinding> {
    Pass(rule => FileGate(job, rule), job.create, (rule, severity, finding) => Stamp(job, rule, severity, finding),
      (rule, reason) => CrashOutcome(job, rule, reason))
  }

  /** One rule on one file, alone. */
  function FileOutcome(job: FileJob, rule: Rule): Outcome {
    Alone(FilePass(job), rule)
  }

  function OnFile(job: FileJob): Rule -> Outcome {
    rule => Alone(FilePass(job), rule)
  }

  method RunRules(job: FileJob, rules: seq<Rule>) returns (outcome: Outcome)
    ensures outcome == RunAll(FilePass(job), rules).outcome == Joined(rules, OnFile(job))
  {
    var buffers: seq<seq<FileFinding>>, diagnostics, skippedChecks := [], [], [];
    ghost var pass := FilePass(job);
    for i := 0 to |rules|
      invariant RunState(buffers, Outcome(diagnostics, skippedChecks)) == RunAll(pass, rules[..i])
    {
      assert rules[..i + 1][..i] == rules[..i];
      var rule := rules[i];
      if !FrameworksDetected(rule, job.detected) || rule.id in job.config.ignoredRules {
        continue;
      }
      var setting := ResolveSeverity(job.config, rule);
      if setting.Off? {
        continue;
      }
      var end;
      buffers, end := CallRule(buffers, job.create(rule));
      match end {
        case Throws(reason) =>
          var report := CrashOutcome(job, rule, reason);
          diagnostics := diagnostics + report.diagnostics;
          skippedChecks := skippedChecks + report.skippedChecks;
        case Returns =>
          var stamped := StampFindings(job, rule, setting.severity, buffers[|buffers| - 1]);
          diagnostics := diagnostics + stamped;
      }
    }
    assert rules[..|rules|] == rules;
    outcome := Outcome(diagnostics, skippedChecks);
    RunIsConcatenation(pass, rules);
  }

  method StampFindings(job: FileJob, rule: Rule, severity: Severity, findings: seq<FileFinding>)
    returns (diagnostics: seq<Diagnostic>)
    ensures diagnostics == StampAll(FilePass(job), rule, severity, findings)
  {
    diagnostics := [];
    for k := 0 to |findings|
      invariant diagnostics == StampAll(FilePass(job), rule, severity, findings[..k])
    {
      diagnostics := diagnostics + [Stamp(job, rule, severity, findings[k])];
    }
    assert findings[..|findings|] == findings;
  }

  lemma FilePassNames(job: FileJob)
    ensures NamesItsRule(FilePass(job))
  {
  }

  /** Every diagnostic of a rule carries its name and its file; a skipped check names the rule. */
  lemma OutcomeIsOwn(job: FileJob, rule: Rule)
    ensures About(FileOutcome(job, rule), rule.id)
    ensures forall d :: d in FileOutcome(job, rule).diagnostics ==> d.filePath == job.filePath
  {
    FilePassNames(job);
    AloneIsOwn(FilePass(job), rule);
    hide OwnFindings;
  }

  /** The diagnostic that a finding of a file rule becomes. */
  ghost predicate IsStamped(job: FileJob, rule: Rule, severity: Severity, finding: FileFinding, d: Diagnostic) {
    && d.filePath == job.filePath && d.rule == rule.id && d.category == rule.category
    && d.severity == severity && d.message == finding.message && d.tags == []
    && (finding.place.AtNode? ==> d.line == finding.place.line && d.column == finding.place.column)
    && (finding.place.At? ==> IsPosition(finding.place.lineOr, d.line) && IsPosition(finding.place.columnOr, d.column))
    && d.id == job.reporting.idOf(job.reporting.relative(job.filePath), d.line, d.column, rule.id, finding.message)
  }

  /**
   * What one file rule leaves, field by field: nothing if it is disabled; else one diagnostic for each of its own
   * findings, in order, if it returns, and the crash report if it throws.
   */
  lemma FileRuleLeaves(job: FileJob, rule: Rule)
    ensures var own, severity := FileOutcome(job, rule), Enabled(rule, job.config, job.detected);
            var behaviour, file := job.create(rule), job.reporting.relative(job.filePath);
            && (severity.None? ==> own == Outcome([], []))
            && (severity.Some? && behaviour.end.Returns? ==>
                  && own.skippedChecks == [] && |own.diagnostics| == |OwnFindings(behaviour.calls)|
                  && forall k :: 0 <= k < |own.diagnostics| ==>
                       IsStamped(job, rule, severity.value, OwnFindings(behaviour.calls)[k], own.diagnostics[k]))
            && (severity.Some? && behaviour.end.Throws? ==>
                  && |own.diagnostics| == 1 && IsCrashReport(own.diagnostics[0], rule, behaviour.end.reason)
                  && own.diagnostics[0].filePath == job.filePath
                  && own.diagnostics[0].id
                     == job.reporting.idOf(file, 1, 1, rule.id, "Rule \"" + rule.id + "\" crashed: " + behaviour.end.reason)
                  && own.skippedChecks == [SkippedCheck(rule.id, file + ": " + behaviour.end.reason)])
  {
    hide OwnFindings, Enabled;
  }

  /**
   * A crashing rule leaves one internal warning and one skipped check between what the rules before and after it
   * leave, whatever it had reported before and whatever is reported through its context later.
   */
  lemma FileCrashLeavesNoFindings(job: FileJob, before: seq<Rule>, rule: Rule, after: seq<Rule>)
    requires Enabled(rule, job.config, job.detected).Some? && job.create(rule).end.Throws?
    ensures var report := CrashOutcome(job, rule, job.create(rule).end.reason);
            && |report.diagnostics| == |report.skippedChecks| == 1
            && IsCrashReport(report.diagnostics[0], rule, job.create(rule).end.reason)
            && report.skippedChecks[0].check == rule.id
            && RunAll(FilePass(job), before + [rule] + after).outcome
               == Join(Join(RunAll(FilePass(job), before).outcome, report), RunAll(FilePass(job), after).outcome)
  {
    CrashLeavesNoFindings(FilePass(job), before, rule, after);
    hide RunAll;
  }

  /** However one rule behaves on a file, and whatever contexts it reports through, the others report the same. */
  lemma FileRulesAreIsolated(rules: seq<Rule>, p: FileJob, q: FileJob, id: string)
    requires q == p.(create := q.create)
    requires forall rule :: rule in rules && rule.id != id ==> p.create(rule) == q.create(rule)
    ensures WithoutRule(RunAll(FilePass(p), rules).outcome, id) == WithoutRule(RunAll(FilePass(q), rules).outcome, id)
  {
    SamePass(p, q);
    FilePassNames(p);
    FilePassNames(q);
    hide RunAll, WithoutRule, NamesItsRule, SameFrame;
    RunIsIsolated(FilePass(p), FilePass(q), rules, id);
  }

  lemma SamePass(p: FileJob, q: FileJob)
    requires q == p.(create := q.create)
    ensures SameFrame(FilePass(p), FilePass(q))
  {
  }

  // ---- the global order ----

  /** Relative file, line, column, rule id. */
  function ReportOrder(relative: string -> string): (Diagnostic, Diagnostic) -> bool {
    Then(ByString((d: Diagnostic) => relative(d.filePath)),
    Then(ByInt((d: Diagnostic) => d.line),
    Then(ByInt((d: Diagnostic) => d.column),
         ByString((d: Diagnostic) => d.rule))))
  }

  function SortDiagnostics(relative: string -> string, ds: seq<Diagnostic>): seq<Diagnostic> {
    Sort(ReportOrder(relative), ds)
  }

  predicate SameKey(relative: string -> string, a: Diagnostic, b: Diagnostic) {
    relative(a.filePath) == relative(b.filePath) && a.line == b.line && a.column == b.column && a.rule == b.rule
  }

  lemma ReportOrderTies(relative: string -> string)
    ensures WeakOrder(ReportOrder(relative))
    ensures forall a, b :: Tied(ReportOrder(relative), a, b) <==> SameKey(relative, a, b)
  {
    var file, line := ByString((d: Diagnostic) => relative(d.filePath)), ByInt((d: Diagnostic) => d.line);
    var column, rule := ByInt((d: Diagnostic) => d.column), ByString((d: Diagnostic) => d.rule);
    ByStringOrder((d: Diagnostic) => relative(d.filePath));
    ByIntOrder((d: Diagnostic) => d.line);
    ByIntOrder((d: Diagnostic) => d.column);
    ByStringOrder((d: Diagnostic) => d.rule);
    hide WeakOrder;
    ThenOrder(column, rule);
    ThenOrder(line, Then(column, rule));
    ThenOrder(file, Then(line, Then(column, rule)));
    forall a, b
      ensures Tied(ReportOrder(relative), a, b) <==> SameKey(relative, a, b)
    {
      StringLessTotal(relative(a.filePath), relative(b.filePath));
      StringLessTotal(a.rule, b.rule);
    }
  }

  /** By relative file, then line, then column, then rule; texts in lexicographic order. */
  ghost predicate ReportedBefore(relative: string -> string, a: Diagnostic, b: Diagnostic) {
    var p, q := relative(a.filePath), relative(b.filePath);
    || Precedes(p, q)
    || (p == q && a.line < b.line)
    || (p == q && a.line == b.line && a.column < b.column)
    || (p == q && a.line == b.line && a.column == b.column && Precedes(a.rule, b.rule))
  }

  lemma ReportOrderOnFields(relative: string -> string, a: Diagnostic, b: Diagnostic)
    ensures ReportOrder(relative)(a, b) <==> ReportedBefore(relative, a, b)
  {
    StringLessIsLexicographic(relative(a.filePath), relative(b.filePath));
    StringLessTotal(relative(a.filePath), relative(b.filePath));
    StringLessIsLexicographic(a.rule, b.rule);
    hide Precedes, StringLess;
  }

  /** In the report no diagnostic stands behind one that it comes before. */
  lemma ReportFollowsFields(relative: string -> string, ds: seq<Diagnostic>, i: nat, j: nat)
    requires i < j < |SortDiagnostics(relative, ds)|
    ensures var report := SortDiagnostics(relative, ds); !ReportedBefore(relative, report[j], report[i])
  {
    ReportOrderTies(relative);
    SortIsStable(ReportOrder(relative), ds);
    var report := SortDiagnostics(relative, ds);
    hide Sort, ReportOrder, WeakOrder, Ties, ReportedBefore;
    ReportOrderOnFields(relative, report[j], report[i]);
  }

  /** An ordered permutation in which diagnostics with equal keys keep their insertion order. */
  ghost predicate IsReportOf(relative: string -> string, ds: seq<Diagnostic>, report: seq<Diagnostic>) {
    && Sorted(ReportOrder(relative), report) && multiset(report) == multiset(ds)
    && forall k :: Ties(ReportOrder(relative), k, report) == Ties(ReportOrder(relative), k, ds)
  }

  /** The sorted diagnostics are such a report, and there is no other. */
  lemma ReportIsStable(relative: string -> string, ds: seq<Diagnostic>)
    ensures IsReportOf(relative, ds, SortDiagnostics(relative, ds))
    ensures forall other :: IsReportOf(relative, ds, other) ==> other == SortDiagnostics(relative, ds)
  {
    var order, report := ReportOrder(relative), SortDiagnostics(relative, ds);
    ReportOrderTies(relative);
    SortIsStable(order, ds);
    hide WeakOrder, Sorted, Ties, Sort, ReportOrder;
    forall other | IsReportOf(relative, ds, other)
      ensures other == report
    {
      StableSortUnique(order, other, report);
    }
  }

  /** Sorting again after more diagnostics were appended to a sorted report is one global sort. */
  lemma MergeThenSort(relative: string -> string, a: seq<Diagnostic>, b: seq<Diagnostic>)
    ensures SortDiagnostics(relative, SortDiagnostics(relative, a) + b) == SortDiagnostics(relative, a + b)
  {
    ReportOrderTies(relative);
    SortTwice(ReportOrder(relative), a, b);
  }

  // ---- the order does not depend on where the tree is ----

  lemma {:induction false} InsertMapped<T, U>(less: (T, T) -> bool, lessU: (U, U) -> bool, f: T -> U, s: seq<T>, x: T)
    requires forall a, b :: lessU(f(a), f(b)) == less(a, b)
    ensures Insert(lessU, MapSeq(s, f), f(x)) == MapSeq(Insert(less, s, x), f)
  {
    if s != [] && less(x, s[|s| - 1]) {
      var n := |s| - 1;
      InsertMapped(less, lessU, f, s[..n], x);
      assert MapSeq(s, f)[..n] == MapSeq(s[..n], f);
    }
  }

  lemma {:induction false} SortMapped<T, U>(less: (T, T) -> bool, lessU: (U, U) -> bool, f: T -> U, s: seq<T>)
    requires forall a, b :: lessU(f(a), f(b)) == less(a, b)
    ensures Sort(lessU, MapSeq(s, f)) == MapSeq(Sort(less, s), f)
  {
    if s != [] {
      var n := |s| - 1;
      SortMapped(less, lessU, f, s[..n]);
      assert MapSeq(s, f)[..n] == MapSeq(s[..n], f);
      InsertMapped(less, lessU, f, Sort(less, s[..n]), s[n]);
    }
  }

  /** Moving the whole tree moves the report with it: the paths change, the order does not. */
  lemma OrderIgnoresLocation(here: string -> string, there: string -> string, move: string -> string,
      ds: seq<Diagnostic>)
    requires forall p :: there(move(p)) == here(p)
    ensures var moved := (d: Diagnostic) => d.(filePath := move(d.filePath));
            SortDiagnostics(there, MapSeq(ds, moved)) == MapSeq(SortDiagnostics(here, ds), moved)
  {
    var moved := (d: Diagnostic) => d.(filePath := move(d.filePath));
    assert forall a, b :: ReportOrder(there)(moved(a), moved(b)) == ReportOrder(here)(a, b);
    SortMapped(ReportOrder(here), ReportOrder(there), moved, ds);
  }
}
