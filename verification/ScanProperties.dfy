/** What the report of a scan guarantees, from the diff text to the sorted diagnostics. */
module ScanProperties {
  import opened Diagnostics
  import opened GraphRules
  import opened Hunks
  import opened Imports
  import opened Options
  import opened Orders
  import opened ProjectRules
  import opened RuleOutcomes
  import opened Runner
  import opened Scan
  import opened Sublists

  // ---- the filter ----

  lemma {:induction false} KeptExact(lineRanges: map<string, seq<LineRange>>, ds: seq<Diagnostic>, d: Diagnostic)
    ensures d in Kept(lineRanges, ds) <==> d in ds && InChangedHunk(lineRanges, d)
  {
    if ds != [] {
      var n := |ds| - 1;
      KeptExact(lineRanges, ds[..n], d);
      assert d in ds <==> d in ds[..n] || d == ds[n];
    }
  }

  lemma {:induction false} KeptSorted(lineRanges: map<string, seq<LineRange>>,
      less: (Diagnostic, Diagnostic) -> bool, ds: seq<Diagnostic>)
    requires Sorted(less, ds)
    ensures Sorted(less, Kept(lineRanges, ds))
  {
    if ds != [] {
      var n := |ds| - 1;
      KeptSorted(lineRanges, less, ds[..n]);
      var rest := Kept(lineRanges, ds[..n]);
      forall i | 0 <= i < |rest|
        ensures !less(ds[n], rest[i])
      {
        KeptExact(lineRanges, ds[..n], rest[i]);
      }
    }
  }

  lemma {:induction false} KeptTies(lineRanges: map<string, seq<LineRange>>,
      less: (Diagnostic, Diagnostic) -> bool, k: Diagnostic, ds: seq<Diagnostic>)
    ensures Ties(less, k, Kept(lineRanges, ds)) == Kept(lineRanges, Ties(less, k, ds))
  {
    if ds != [] {
      var n := |ds| - 1;
      KeptTies(lineRanges, less, k, ds[..n]);
      var rest, ties := Kept(lineRanges, ds[..n]), Ties(less, k, ds[..n]);
      hide InChangedHunk;
      assert (rest + [ds[n]])[..|rest|] == rest && (ties + [ds[n]])[..|ties|] == ties;
    }
  }

  /** Filtering a sorted report is sorting the filtered diagnostics. */
  lemma FilterCommutesWithSort(relative: string -> string, lineRanges: map<string, seq<LineRange>>, ds: seq<Diagnostic>)
    ensures SortDiagnostics(relative, Kept(lineRanges, ds)) == Kept(lineRanges, SortDiagnostics(relative, ds))
  {
    var order := ReportOrder(relative);
    ReportOrderTies(relative);
    SortIsStable(order, ds);
    SortIsStable(order, Kept(lineRanges, ds));
    KeptSorted(lineRanges, order, Sort(order, ds));
    hide WeakOrder, Sorted, Ties, Sort, ReportOrder, Kept;
    forall k
      ensures Ties(order, k, Sort(order, Kept(lineRanges, ds))) == Ties(order, k, Kept(lineRanges, Sort(order, ds)))
    {
      KeptTies(lineRanges, order, k, ds);
      KeptTies(lineRanges, order, k, Sort(order, ds));
    }
    StableSortUnique(order, Sort(order, Kept(lineRanges, ds)), Kept(lineRanges, Sort(order, ds)));
  }

  // ---- the files of a scan ----

  ghost predicate InFiles(files: set<string>, collected: seq<string>, given: seq<string>) {
    Keeps(collected, given, (f: string) => f in files)
  }

  /** The collected files that are parsed: all of them, or those of the scope, in the order they were collected in. */
  ghost predicate IsGiven(collected: seq<string>, scope: Option<Scope>, given: seq<string>) {
    && (scope.None? ==> given == collected)
    && (scope.Some? ==> InFiles(scope.value.files, collected, given))
  }

  lemma InFilesNone(files: set<string>)
    ensures InFiles(files, [], [])
  {
    KeepsNone((f: string) => f in files);
  }

  lemma InFilesStep(files: set<string>, collected: seq<string>, given: seq<string>, last: string)
    requires InFiles(files, collected, given)
    ensures InFiles(files, collected + [last], if last in files then given + [last] else given)
  {
    hide Keeps;
    KeepsStep(collected, given, (f: string) => f in files, last);
  }

  lemma InFilesUnique(files: set<string>, collected: seq<string>, a: seq<string>, b: seq<string>)
    requires InFiles(files, collected, a) && InFiles(files, collected, b)
    ensures a == b
  {
    hide Keeps;
    KeepsUnique(collected, a, b, (f: string) => f in files);
  }

  lemma InFilesMember(files: set<string>, collected: seq<string>, given: seq<string>, f: string)
    requires InFiles(files, collected, given)
    ensures f in given <==> f in collected && f in files
  {
    hide Keeps;
    KeptMember(collected, given, (x: string) => x in files, f);
  }

  lemma {:induction false} AnalyzedIsGiven(collected: seq<string>, scope: Option<Scope>)
    ensures IsGiven(collected, scope, Analyzed(collected, scope))
  {
    hide InFiles;
    if scope.Some? {
      var files := scope.value.files;
      if collected == [] {
        InFilesNone(files);
      } else {
        var n := |collected| - 1;
        AnalyzedIsGiven(collected[..n], scope);
        InFilesStep(files, collected[..n], Analyzed(collected[..n], scope), collected[n]);
        assert collected == collected[..n] + [collected[n]];
      }
    }
  }

  lemma GivenIsAnalyzed(collected: seq<string>, scope: Option<Scope>, given: seq<string>)
    requires IsGiven(collected, scope, given)
    ensures given == Analyzed(collected, scope)
  {
    hide InFiles, Analyzed;
    AnalyzedIsGiven(collected, scope);
    if scope.Some? {
      InFilesUnique(scope.value.files, collected, given, Analyzed(collected, scope));
    } else {
      assert Analyzed(collected, scope) == collected;
    }
  }

  // ---- what the file rules contribute ----

  /** What a rule sees when it runs on one file. */
  ghost predicate IsFileJob(engine: Engine, files: seq<EdgeSource>, filePath: string, job: FileJob) {
    && job.filePath == filePath && job.config == engine.config
    && job.detected == engine.detect(files).0 && job.reporting == engine.reporting
    && forall rule :: job.create(rule) == engine.create(files, filePath, rule)
  }

  /** The rule reports `d` on the file. */
  ghost predicate ReportsOn(engine: Engine, files: seq<EdgeSource>, filePath: string, rule: Rule, d: Diagnostic) {
    exists job :: IsFileJob(engine, files, filePath, job) && d in FileOutcome(job, rule).diagnostics
  }

  lemma ReportsOnIsOutcome(engine: Engine, files: seq<EdgeSource>, filePath: string, rule: Rule, d: Diagnostic)
    ensures ReportsOn(engine, files, filePath, rule, d)
            <==> d in FileOutcome(JobFor(engine, files, filePath), rule).diagnostics
  {
    assert IsFileJob(engine, files, filePath, JobFor(engine, files, filePath));
    if job :| IsFileJob(engine, files, filePath, job) && d in FileOutcome(job, rule).diagnostics {
      SameJobs(job, JobFor(engine, files, filePath), rule);
    }
  }

  lemma SameJobs(a: FileJob, b: FileJob, rule: Rule)
    requires a == b.(create := a.create) && a.create(rule) == b.create(rule)
    ensures FileOutcome(a, rule) == FileOutcome(b, rule)
  {
    hide OwnFindings, Enabled;
  }

  /** One of the file rules reports `d` on one of the files. */
  ghost predicate FoundByFileRule(engine: Engine, files: seq<EdgeSource>, d: Diagnostic) {
    exists i, rule :: 0 <= i < |files| && rule in engine.fileRules
      && ReportsOn(engine, files, files[i].filePath, rule, d) && d.filePath == files[i].filePath
  }

  /** One of the file rules reports `d` on one of the first `n` files. */
  ghost predicate FoundIn(engine: Engine, files: seq<EdgeSource>, n: nat, d: Diagnostic)
    requires n <= |files|
  {
    exists i, rule :: 0 <= i < n && rule in engine.fileRules
      && ReportsOn(engine, files, files[i].filePath, rule, d)
  }

  lemma {:induction false} FileOutcomesMembers(engine: Engine, files: seq<EdgeSource>, n: nat, d: Diagnostic)
    requires n <= |files|
    ensures d in FileOutcomes(engine, files, n).diagnostics <==> FoundIn(engine, files, n, d)
  {
    if n > 0 {
      FileOutcomesMembers(engine, files, n - 1, d);
      var job := JobFor(engine, files, files[n - 1].filePath);
      JoinedMembers(engine.fileRules, OnFile(job), d);
      assert forall rule :: OnFile(job)(rule) == FileOutcome(job, rule);
      hide Joined, FileOutcome, ReportsOn;
      forall rule
        ensures d in OnFile(job)(rule).diagnostics <==> ReportsOn(engine, files, files[n - 1].filePath, rule, d)
      {
        ReportsOnIsOutcome(engine, files, files[n - 1].filePath, rule, d);
      }
      FoundInStep(engine, files, n, d);
    }
  }

  lemma FoundInStep(engine: Engine, files: seq<EdgeSource>, n: nat, d: Diagnostic)
    requires 0 < n <= |files|
    ensures FoundIn(engine, files, n, d)
            <==> FoundIn(engine, files, n - 1, d)
                 || exists rule :: rule in engine.fileRules && ReportsOn(engine, files, files[n - 1].filePath, rule, d)
  {
    hide ReportsOn;
  }

  lemma FoundAnywhere(engine: Engine, files: seq<EdgeSource>, d: Diagnostic)
    ensures d in FileOutcomes(engine, files, |files|).diagnostics <==> FoundByFileRule(engine, files, d)
  {
    FileOutcomesMembers(engine, files, |files|, d);
    hide FileOutcomes, ReportsOn, FileOutcome;
    if FoundIn(engine, files, |files|, d) {
      var i, rule :| 0 <= i < |files| && rule in engine.fileRules && ReportsOn(engine, files, files[i].filePath, rule, d);
      ReportsOnIsOutcome(engine, files, files[i].filePath, rule, d);
      OutcomeIsOwn(JobFor(engine, files, files[i].filePath), rule);
    }
  }

  /** File after file, rule after rule. */
  lemma FilesInOrder(engine: Engine, files: seq<EdgeSource>, n: nat)
    requires n < |files|
    ensures var own := Joined(engine.fileRules, OnFile(JobFor(engine, files, files[n].filePath)));
            var before, after := FileOutcomes(engine, files, n), FileOutcomes(engine, files, n + 1);
            && after.diagnostics == before.diagnostics + own.diagnostics
            && after.skippedChecks == before.skippedChecks + own.skippedChecks
    ensures FileOutcomes(engine, files, 0) == Outcome([], [])
  {
    hide Joined;
  }

  lemma SortedMembers(relative: string -> string, ds: seq<Diagnostic>, d: Diagnostic)
    ensures d in SortDiagnostics(relative, ds) <==> d in ds
  {
    ReportOrderTies(relative);
    SortIsStable(ReportOrder(relative), ds);
    SameElements(ds, SortDiagnostics(relative, ds));
  }

  // ---- partial scopes ----

  /** The diagnostics of all file rules on all parsed files, in order. */
  function FileDiagnostics(engine: Engine, given: seq<string>): seq<Diagnostic> {
    var files := engine.parse(given).files;
    FileOutcomes(engine, files, |files|).diagnostics
  }

  /** What a partial scan reports. */
  lemma PartialReport(engine: Engine, collected: seq<string>, scope: Scope, given: seq<string>, report: Report)
    requires IsReport(engine, collected, Some(scope), report) && IsGiven(collected, Some(scope), given)
    ensures report.diagnostics
            == SortDiagnostics(engine.reporting.relative, InScope(Some(scope), FileDiagnostics(engine, given)))
  {
    hide SortDiagnostics, EarlySkips, FileOutcomes, Kept, ProjectSkip, Analyzed, IsGiven, RelativePaths, Sort;
    GivenIsAnalyzed(collected, Some(scope), given);
    var own := InScope(Some(scope), FileDiagnostics(engine, given));
    assert own + [] == own;
  }

  /** The line lies in one of the ranges recorded for its file, or none are recorded because the file is new. */
  ghost predicate OnChangedLine(lineRanges: map<string, seq<LineRange>>, d: Diagnostic) {
    d.filePath in lineRanges ==>
      exists i :: 0 <= i < |lineRanges[d.filePath]|
        && lineRanges[d.filePath][i].start <= d.line <= lineRanges[d.filePath][i].end
  }

  lemma HunkIsChangedLine(lineRanges: map<string, seq<LineRange>>, d: Diagnostic)
    ensures InChangedHunk(lineRanges, d) <==> OnChangedLine(lineRanges, d)
  {
    if d.filePath in lineRanges && InChangedHunk(lineRanges, d) {
      var r :| r in lineRanges[d.filePath] && Covers(r, d.line);
      var i :| 0 <= i < |lineRanges[d.filePath]| && lineRanges[d.filePath][i] == r;
    }
    if d.filePath in lineRanges && OnChangedLine(lineRanges, d) {
      var i :| 0 <= i < |lineRanges[d.filePath]|
        && lineRanges[d.filePath][i].start <= d.line <= lineRanges[d.filePath][i].end;
      assert Covers(lineRanges[d.filePath][i], d.line) && lineRanges[d.filePath][i] in lineRanges[d.filePath];
    }
  }

  /**
   * A partial scan reports exactly what the file rules find on the collected files of the scope; the lines mode drops
   * what is not on a changed line, the other two modes drop nothing.
   */
  lemma PartialReportExactly(engine: Engine, collected: seq<string>, scope: Scope, given: seq<string>, report: Report,
      d: Diagnostic)
    requires IsReport(engine, collected, Some(scope), report) && IsGiven(collected, Some(scope), given)
    ensures d in report.diagnostics
            <==> FoundByFileRule(engine, engine.parse(given).files, d)
                 && (scope.mode.LinesOnly? ==> OnChangedLine(scope.lineRanges, d))
  {
    hide IsReport, IsGiven, SortDiagnostics, Kept, FoundByFileRule, OnChangedLine, InChangedHunk, FileOutcomes;
    PartialReport(engine, collected, scope, given, report);
    var own := FileDiagnostics(engine, given);
    FoundAnywhere(engine, engine.parse(given).files, d);
    hide FileDiagnostics;
    SortedMembers(engine.reporting.relative, InScope(Some(scope), own), d);
    KeptExact(scope.lineRanges, own, d);
    HunkIsChangedLine(scope.lineRanges, d);
  }

  /** The parser returns only files it was given. */
  ghost predicate ParsesOnlyGiven(engine: Engine) {
    forall given, i :: 0 <= i < |engine.parse(given).files| ==> engine.parse(given).files[i].filePath in given
  }

  /** With such a parser every diagnostic of a partial report lies on a collected file of the scope. */
  lemma PartialScanStaysInScope(engine: Engine, collected: seq<string>, scope: Scope, report: Report, d: Diagnostic)
    requires IsReport(engine, collected, Some(scope), report) && ParsesOnlyGiven(engine) && d in report.diagnostics
    ensures d.filePath in collected && d.filePath in scope.files
  {
    var given := Analyzed(collected, Some(scope));
    AnalyzedIsGiven(collected, Some(scope));
    InFilesMember(scope.files, collected, given, d.filePath);
    hide InFiles, IsReport, ReportsOn, OnChangedLine, Analyzed;
    PartialReportExactly(engine, collected, scope, given, report, d);
  }

  /** The ranges of every tracked file were read from the diff of its edits. */
  ghost predicate RangesOfDiffs(scope: Scope, diffs: map<string, string>, scripts: map<string, seq<Edit>>) {
    && scope.lineRanges.Keys == diffs.Keys == scripts.Keys
    && forall f :: f in diffs ==> IsDiff(diffs[f], scripts[f]) && scope.lineRanges[f] == Ranges(Lines(diffs[f]))
  }

  lemma InHunkIffAdded(scope: Scope, diffs: map<string, string>, scripts: map<string, seq<Edit>>, d: Diagnostic)
    requires RangesOfDiffs(scope, diffs, scripts)
    ensures InChangedHunk(scope.lineRanges, d) <==> (d.filePath in scripts ==> AddedAt(scripts[d.filePath], d.line))
  {
    hide IsDiff, Ranges, Lines, AddedAt, Covers;
    if d.filePath in scripts {
      RangesAreAddedLines(diffs[d.filePath], scripts[d.filePath], d.line);
    }
  }

  /**
   * From the diffs to the report: the lines scope reports exactly what the file rules find in the collected files of
   * the scope, on untracked files and on lines that were added.
   */
  lemma LinesScopeReportsAddedLines(engine: Engine, collected: seq<string>, scope: Scope, given: seq<string>,
      report: Report, diffs: map<string, string>, scripts: map<string, seq<Edit>>, d: Diagnostic)
    requires IsReport(engine, collected, Some(scope), report) && IsGiven(collected, Some(scope), given)
    requires scope.mode.LinesOnly? && RangesOfDiffs(scope, diffs, scripts)
    ensures d in report.diagnostics
            <==> FoundByFileRule(engine, engine.parse(given).files, d)
                 && (d.filePath in scripts ==> AddedAt(scripts[d.filePath], d.line))
  {
    hide IsReport, IsGiven, FoundByFileRule, AddedAt, InChangedHunk, OnChangedLine, RangesOfDiffs;
    PartialReportExactly(engine, collected, scope, given, report, d);
    InHunkIffAdded(scope, diffs, scripts, d);
    HunkIsChangedLine(scope.lineRanges, d);
  }

  /** The lines report is the report on the changed files, filtered: no finding moves and none is added. */
  lemma LinesReportIsFilteredReport(engine: Engine, collected: seq<string>, scope: Scope, lines: Report, whole: Report)
    requires scope.mode.LinesOnly?
    requires IsReport(engine, collected, Some(scope), lines)
    requires IsReport(engine, collected, Some(scope.(mode := Changed)), whole)
    ensures lines.diagnostics == Kept(scope.lineRanges, whole.diagnostics)
    ensures Keeps(whole.diagnostics, lines.diagnostics, (d: Diagnostic) => OnChangedLine(scope.lineRanges, d))
  {
    var changed, given := scope.(mode := Changed), Analyzed(collected, Some(scope));
    hide IsReport, SortDiagnostics, Kept, FileDiagnostics, Keeps, InFiles, Analyzed;
    AnalyzedIsGiven(collected, Some(scope));
    assert IsGiven(collected, Some(changed), given);
    hide IsGiven;
    PartialReport(engine, collected, scope, given, lines);
    PartialReport(engine, collected, changed, given, whole);
    FilterCommutesWithSort(engine.reporting.relative, scope.lineRanges, FileDiagnostics(engine, given));
    KeptInPlace(scope.lineRanges, whole.diagnostics);
  }

  lemma {:induction false} KeptInPlace(lineRanges: map<string, seq<LineRange>>, ds: seq<Diagnostic>)
    ensures Keeps(ds, Kept(lineRanges, ds), (d: Diagnostic) => OnChangedLine(lineRanges, d))
  {
    var keep := (d: Diagnostic) => OnChangedLine(lineRanges, d);
    hide Keeps, OnChangedLine, InChangedHunk;
    if ds == [] {
      KeepsNone(keep);
    } else {
      var n := |ds| - 1;
      KeptInPlace(lineRanges, ds[..n]);
      KeepsStep(ds[..n], Kept(lineRanges, ds[..n]), keep, ds[n]);
      HunkIsChangedLine(lineRanges, ds[n]);
      assert ds == ds[..n] + [ds[n]];
    }
  }
}
