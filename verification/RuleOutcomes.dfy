/** Rules, how they are switched on, and how the outcomes of several rules are put together. */
module RuleOutcomes {
  import opened Diagnostics
  import opened Options

  datatype Setting = Off | On(severity: Severity)

  datatype Config = Config(rules: map<string, Setting>, categories: map<string, Setting>, ignoredRules: seq<string>)

  datatype Rule = Rule(id: string, category: string, severity: Severity, frameworks: seq<string>)

  /**
   * One call of `report`: through the rule's own context, or through the context that an earlier rule of the run, the
   * `through`-th to be called, has leaked.
   */
  datatype Call<F> = Call(through: Option<nat>, finding: F)

  datatype End = Returns | Throws(reason: string)

  /** What a rule does when it is called: it reports, finding by finding, and then returns or throws. */
  datatype Behaviour<F> = Behaviour(calls: seq<Call<F>>, end: End)

  datatype Outcome = Outcome(diagnostics: seq<Diagnostic>, skippedChecks: seq<SkippedCheck>)

  /** The scan root as the reports see it: paths relative to it, and diagnostic ids. */
  datatype Reporting = Reporting(
    scanRoot: string, relative: string -> string, idOf: (string, int, int, string, string) -> string)

  const Nothing := Outcome([], [])

  /** The rule's own setting, else its category's, else its default. */
  function ResolveSeverity(config: Config, rule: Rule): Setting {
    if rule.id in config.rules then config.rules[rule.id]
    else if rule.category in config.categories then config.categories[rule.category]
    else On(rule.severity)
  }

  predicate FrameworksDetected(rule: Rule, detected: set<string>) {
    forall framework :: framework in rule.frameworks ==> framework in detected
  }

  /** The severity a rule runs with; none when it is disabled. */
  function Enabled(rule: Rule, config: Config, detected: set<string>): Option<Severity> {
    if !FrameworksDetected(rule, detected) || rule.id in config.ignoredRules then None
    else match ResolveSeverity(config, rule)
      case Off => None
      case On(severity) => Some(severity)
  }

  /** The setting that decides about a rule. */
  ghost predicate Decides(rule: Rule, config: Config, setting: Setting) {
    || (rule.id in config.rules && setting == config.rules[rule.id])
    || (rule.id !in config.rules && rule.category in config.categories && setting == config.categories[rule.category])
    || (rule.id !in config.rules && rule.category !in config.categories && setting == On(rule.severity))
  }

  /** A rule runs with a severity exactly if nothing gates it off and the deciding setting is that severity. */
  lemma EnabledExactly(rule: Rule, config: Config, detected: set<string>, severity: Severity)
    ensures Enabled(rule, config, detected) == Some(severity)
            <==> (forall i :: 0 <= i < |rule.frameworks| ==> rule.frameworks[i] in detected)
                 && (forall i :: 0 <= i < |config.ignoredRules| ==> config.ignoredRules[i] != rule.id)
                 && Decides(rule, config, On(severity))
  {
    if rule.id in config.ignoredRules {
      var i :| 0 <= i < |config.ignoredRules| && config.ignoredRules[i] == rule.id;
    }
    assert FrameworksDetected(rule, detected) <==> forall i :: 0 <= i < |rule.frameworks| ==> rule.frameworks[i] in detected;
  }

  function CrashMessage(rule: Rule, reason: string): string {
    "Rule \"" + rule.id + "\" crashed: " + reason
  }

  /** The diagnostic that stands for a crashed rule. */
  predicate IsCrashReport(d: Diagnostic, rule: Rule, reason: string) {
    && d.rule == rule.id && d.severity == Warn && d.tags == ["internal"]
    && d.line == 1 && d.column == 1 && d.category == rule.category
    && d.message == "Rule \"" + rule.id + "\" crashed: " + reason
  }

  // ---- several rules ----

  function Join(a: Outcome, b: Outcome): Outcome {
    Outcome(a.diagnostics + b.diagnostics, a.skippedChecks + b.skippedChecks)
  }

  /** The outcomes of the rules one after the other. */
  function Joined(rules: seq<Rule>, f: Rule -> Outcome): Outcome {
    if rules == [] then Nothing else Join(Joined(rules[..|rules| - 1], f), f(rules[|rules| - 1]))
  }

  lemma JoinAssociates(a: Outcome, b: Outcome, c: Outcome)
    ensures Join(Join(a, b), c) == Join(a, Join(b, c))
  {
  }

  lemma {:induction false} JoinedAppend(a: seq<Rule>, b: seq<Rule>, f: Rule -> Outcome)
    ensures Joined(a + b, f) == Join(Joined(a, f), Joined(b, f))
    ensures Joined(a + b, f).diagnostics == Joined(a, f).diagnostics + Joined(b, f).diagnostics
    ensures Joined(a + b, f).skippedChecks == Joined(a, f).skippedChecks + Joined(b, f).skippedChecks
  {
    if b == [] {
      assert a + b == a;
    } else {
      var n := |b| - 1;
      assert (a + b)[..|a + b| - 1] == a + b[..n] && (a + b)[|a + b| - 1] == b[n];
      JoinedAppend(a, b[..n], f);
      assert Joined(b, f) == Join(Joined(b[..n], f), f(b[n]));
      hide Join;
      JoinAssociates(Joined(a, f), Joined(b[..n], f), f(b[n]));
    }
  }

  lemma JoinedOne(rule: Rule, f: Rule -> Outcome)
    ensures Joined([rule], f) == f(rule)
    ensures Joined([], f) == Outcome([], [])
  {
    assert [rule][..0] == [];
    assert Joined([rule], f) == Join(Joined([], f), f(rule));
  }

  lemma {:induction false} JoinedMembers(rules: seq<Rule>, f: Rule -> Outcome, d: Diagnostic)
    ensures d in Joined(rules, f).diagnostics <==> exists rule :: rule in rules && d in f(rule).diagnostics
  {
    if rules != [] {
      var n := |rules| - 1;
      JoinedMembers(rules[..n], f, d);
      assert forall rule :: rule in rules <==> rule in rules[..n] || rule == rules[n];
    }
  }

  /** An outcome speaks about one rule only. */
  ghost predicate About(outcome: Outcome, id: string) {
    && (forall d :: d in outcome.diagnostics ==> d.rule == id)
    && forall s :: s in outcome.skippedChecks ==> s.check == id
  }

  function OtherDiagnostics(ds: seq<Diagnostic>, id: string): seq<Diagnostic> {
    if ds == [] then []
    else
      var rest, last := OtherDiagnostics(ds[..|ds| - 1], id), ds[|ds| - 1];
      if last.rule == id then rest else rest + [last]
  }

  function OtherSkips(ss: seq<SkippedCheck>, id: string): seq<SkippedCheck> {
    if ss == [] then []
    else
      var rest, last := OtherSkips(ss[..|ss| - 1], id), ss[|ss| - 1];
      if last.check == id then rest else rest + [last]
  }

  /** The part of an outcome that is about other rules, in order. */
  function WithoutRule(outcome: Outcome, id: string): Outcome {
    Outcome(OtherDiagnostics(outcome.diagnostics, id), OtherSkips(outcome.skippedChecks, id))
  }

  lemma {:induction false} OtherDiagnosticsAppend(a: seq<Diagnostic>, b: seq<Diagnostic>, id: string)
    ensures OtherDiagnostics(a + b, id) == OtherDiagnostics(a, id) + OtherDiagnostics(b, id)
  {
    if b == [] {
      assert a + b == a;
    } else {
      OtherDiagnosticsAppend(a, b[..|b| - 1], id);
      assert (a + b)[..|a + b| - 1] == a + b[..|b| - 1];
    }
  }

  lemma {:induction false} OtherSkipsAppend(a: seq<SkippedCheck>, b: seq<SkippedCheck>, id: string)
    ensures OtherSkips(a + b, id) == OtherSkips(a, id) + OtherSkips(b, id)
  {
    if b == [] {
      assert a + b == a;
    } else {
      OtherSkipsAppend(a, b[..|b| - 1], id);
      assert (a + b)[..|a + b| - 1] == a + b[..|b| - 1];
    }
  }

  lemma {:induction false} NoOtherDiagnostics(ds: seq<Diagnostic>, id: string)
    requires forall d :: d in ds ==> d.rule == id
    ensures OtherDiagnostics(ds, id) == []
  {
    if ds != [] {
      NoOtherDiagnostics(ds[..|ds| - 1], id);
    }
  }

  lemma {:induction false} NoOtherSkips(ss: seq<SkippedCheck>, id: string)
    requires forall s :: s in ss ==> s.check == id
    ensures OtherSkips(ss, id) == []
  {
    if ss != [] {
      NoOtherSkips(ss[..|ss| - 1], id);
    }
  }

  lemma WithoutRuleJoin(a: Outcome, b: Outcome, id: string)
    ensures WithoutRule(Join(a, b), id) == Join(WithoutRule(a, id), WithoutRule(b, id))
  {
    OtherDiagnosticsAppend(a.diagnostics, b.diagnostics, id);
    OtherSkipsAppend(a.skippedChecks, b.skippedChecks, id);
  }

  lemma WithoutOwn(outcome: Outcome, id: string)
    requires About(outcome, id)
    ensures WithoutRule(outcome, id) == Nothing
  {
    NoOtherDiagnostics(outcome.diagnostics, id);
    NoOtherSkips(outcome.skippedChecks, id);
  }

  /** What one rule does shows nowhere else: two runs that differ in one rule agree on all the others. */
  lemma {:induction false} RulesAreIsolated(rules: seq<Rule>, f: Rule -> Outcome, g: Rule -> Outcome, id: string)
    requires forall rule :: rule in rules && rule.id != id ==> f(rule) == g(rule)
    requires forall rule :: rule in rules && rule.id == id ==> About(f(rule), id) && About(g(rule), id)
    ensures WithoutRule(Joined(rules, f), id) == WithoutRule(Joined(rules, g), id)
  {
    if rules != [] {
      var before, last := rules[..|rules| - 1], rules[|rules| - 1];
      assert last in rules && forall rule :: rule in before ==> rule in rules;
      RulesAreIsolated(before, f, g, id);
      hide WithoutRule;
      WithoutRuleJoin(Joined(before, f), f(last), id);
      WithoutRuleJoin(Joined(before, g), g(last), id);
      if last.id == id {
        WithoutOwn(f(last), id);
        WithoutOwn(g(last), id);
      }
    }
  }

  // ---- the run with its shared state ----

  /** Whether a rule is called, and if not whether that is recorded. */
  datatype Gate = Disabled | Suppressed(skip: SkippedCheck) | Runs(severity: Severity)

  /** What distinguishes one pass over the rules from another. */
  datatype Pass<!F> = Pass(
    gate: Rule -> Gate, act: Rule -> Behaviour<F>,
    stamp: (Rule, Severity, F) -> Diagnostic, crash: (Rule, string) -> Outcome)

  /** The buffers of all contexts handed out so far, and the lists that the pass returns. */
  datatype RunState<F> = RunState(buffers: seq<seq<F>>, outcome: Outcome)

  /** One finding enters the buffer of its context; the last buffer belongs to the rule that is running. */
  function Push<F>(buffers: seq<seq<F>>, call: Call<F>): (pushed: seq<seq<F>>)
    requires buffers != []
    ensures |pushed| == |buffers|
  {
    var own := |buffers| - 1;
    if call.through.None? then buffers[own := buffers[own] + [call.finding]]
    else if call.through.value < own then
      buffers[call.through.value := buffers[call.through.value] + [call.finding]]
    else buffers
  }

  function PushAll<F>(buffers: seq<seq<F>>, calls: seq<Call<F>>): (pushed: seq<seq<F>>)
    requires buffers != []
    ensures |pushed| == |buffers|
  {
    if calls == [] then buffers else Push(PushAll(buffers, calls[..|calls| - 1]), calls[|calls| - 1])
  }

  function StampAll<F>(pass: Pass<F>, rule: Rule, severity: Severity, findings: seq<F>): seq<Diagnostic> {
    seq(|findings|, i requires 0 <= i < |findings| => pass.stamp(rule, severity, findings[i]))
  }

  /** One rule in the middle of a run. */
  function RunRule<F>(pass: Pass<F>, s: RunState<F>, rule: Rule): RunState<F> {
    match pass.gate(rule)
    case Disabled => s
    case Suppressed(skip) => s.(outcome := Join(s.outcome, Outcome([], [skip])))
    case Runs(severity) =>
      var behaviour := pass.act(rule);
      var buffers := PushAll(s.buffers + [[]], behaviour.calls);
      var own := match behaviour.end
        case Throws(reason) => pass.crash(rule, reason)
        case Returns => Outcome(StampAll(pass, rule, severity, buffers[|buffers| - 1]), []);
      RunState(buffers, Join(s.outcome, own))
  }

  function RunAll<F>(pass: Pass<F>, rules: seq<Rule>): RunState<F> {
    if rules == [] then RunState([], Nothing)
    else RunRule(pass, RunAll(pass, rules[..|rules| - 1]), rules[|rules| - 1])
  }

  // ---- one rule alone ----

  /** What a rule reports through its own context. */
  function OwnFindings<F>(calls: seq<Call<F>>): seq<F> {
    if calls == [] then []
    else
      var rest, last := OwnFindings(calls[..|calls| - 1]), calls[|calls| - 1];
      if last.through.None? then rest + [last.finding] else rest
  }

  /** Call by call: a finding of its own is kept in its place, one that went through a leaked context is not. */
  lemma {:induction false} OwnFindingsAppend<F>(a: seq<Call<F>>, b: seq<Call<F>>, finding: F, k: nat)
    ensures OwnFindings(a + b) == OwnFindings(a) + OwnFindings(b)
    ensures OwnFindings([Call(None, finding)]) == [finding]
    ensures OwnFindings([Call(Some(k), finding)]) == []
  {
    assert [Call(None, finding)][..0] == [] && [Call(Some(k), finding)][..0] == [];
    if b == [] {
      assert a + b == a;
    } else {
      var n := |b| - 1;
      assert (a + b)[..|a + b| - 1] == a + b[..n];
      OwnFindingsAppend(a, b[..n], finding, k);
    }
  }

  /** One rule on its own: its own findings if it returns, the crash report if it throws. */
  function Alone<F>(pass: Pass<F>, rule: Rule): Outcome {
    match pass.gate(rule)
    case Disabled => Nothing
    case Suppressed(skip) => Outcome([], [skip])
    case Runs(severity) =>
      match pass.act(rule).end
      case Throws(reason) => pass.crash(rule, reason)
      case Returns => Outcome(StampAll(pass, rule, severity, OwnFindings(pass.act(rule).calls)), [])
  }

  /** Whatever reaches the other buffers, the last one collects exactly what its own rule reports. */
  lemma {:induction false} OwnBuffer<F>(buffers: seq<seq<F>>, calls: seq<Call<F>>)
    ensures PushAll(buffers + [[]], calls)[|buffers|] == OwnFindings(calls)
  {
    if calls != [] {
      OwnBuffer(buffers, calls[..|calls| - 1]);
    }
  }

  /** The run with its shared buffers gives the concatenation of what every rule gives alone. */
  lemma {:induction false} RunIsConcatenation<F>(pass: Pass<F>, rules: seq<Rule>)
    ensures RunAll(pass, rules).outcome == Joined(rules, rule => Alone(pass, rule))
  {
    if rules != [] {
      var before, last := rules[..|rules| - 1], rules[|rules| - 1];
      RunIsConcatenation(pass, before);
      OwnBuffer(RunAll(pass, before).buffers, pass.act(last).calls);
      hide PushAll, OwnFindings;
    }
  }

  /**
   * A rule that throws leaves its crash report between what the rules before it and the rules after it leave,
   * although its findings were pushed already and later rules may push more through its context.
   */
  lemma CrashLeavesNoFindings<F>(pass: Pass<F>, before: seq<Rule>, rule: Rule, after: seq<Rule>)
    requires pass.gate(rule).Runs? && pass.act(rule).end.Throws?
    ensures RunAll(pass, before + [rule] + after).outcome
            == Join(Join(RunAll(pass, before).outcome, pass.crash(rule, pass.act(rule).end.reason)),
                    RunAll(pass, after).outcome)
  {
    var alone := (r: Rule) => Alone(pass, r);
    RunIsConcatenation(pass, before + [rule] + after);
    RunIsConcatenation(pass, before);
    RunIsConcatenation(pass, after);
    assert alone(rule) == pass.crash(rule, pass.act(rule).end.reason);
    hide RunAll, Joined, Join, Alone;
    JoinedAppend(before + [rule], after, alone);
    JoinedAppend(before, [rule], alone);
    JoinedOne(rule, alone);
  }

  /** Passes that differ in the behaviour of the rules only. */
  ghost predicate SameFrame<F(!new)>(p: Pass<F>, q: Pass<F>) {
    && (forall rule :: p.gate(rule) == q.gate(rule))
    && (forall rule, severity, finding :: p.stamp(rule, severity, finding) == q.stamp(rule, severity, finding))
    && (forall rule, reason :: p.crash(rule, reason) == q.crash(rule, reason))
  }

  lemma SameStamps<F(!new)>(p: Pass<F>, q: Pass<F>, rule: Rule, severity: Severity, findings: seq<F>)
    requires SameFrame(p, q)
    ensures StampAll(p, rule, severity, findings) == StampAll(q, rule, severity, findings)
  {
    assert forall i :: 0 <= i < |findings| ==> p.stamp(rule, severity, findings[i]) == q.stamp(rule, severity, findings[i]);
  }

  /** The two behaviours of a rule end alike and, if they return, report the same through its own context. */
  ghost predicate KeepsTheSame<F>(p: Pass<F>, q: Pass<F>, rule: Rule) {
    && p.act(rule).end == q.act(rule).end
    && (p.act(rule).end.Returns? ==> OwnFindings(p.act(rule).calls) == OwnFindings(q.act(rule).calls))
  }

  lemma SameAlone<F(!new)>(p: Pass<F>, q: Pass<F>, rule: Rule)
    requires SameFrame(p, q) && KeepsTheSame(p, q, rule)
    ensures Alone(p, rule) == Alone(q, rule)
  {
    if p.gate(rule).Runs? {
      SameStamps(p, q, rule, p.gate(rule).severity, OwnFindings(p.act(rule).calls));
    }
    hide OwnFindings, StampAll;
  }

  /** Neither the findings of a throwing rule nor findings pushed through leaked contexts reach either list. */
  lemma {:induction false} LostFindings<F(!new)>(p: Pass<F>, q: Pass<F>, rules: seq<Rule>)
    requires SameFrame(p, q) && forall rule :: rule in rules ==> KeepsTheSame(p, q, rule)
    ensures RunAll(p, rules).outcome == RunAll(q, rules).outcome
  {
    RunIsConcatenation(p, rules);
    RunIsConcatenation(q, rules);
    hide RunAll, SameFrame, Alone, KeepsTheSame;
    forall rule | rule in rules
      ensures Alone(p, rule) == Alone(q, rule)
    {
      SameAlone(p, q, rule);
    }
    SameJoined(rules, rule => Alone(p, rule), rule => Alone(q, rule));
  }

  lemma {:induction false} SameJoined(rules: seq<Rule>, f: Rule -> Outcome, g: Rule -> Outcome)
    requires forall rule :: rule in rules ==> f(rule) == g(rule)
    ensures Joined(rules, f) == Joined(rules, g)
  {
    if rules != [] {
      assert rules[|rules| - 1] in rules && forall rule :: rule in rules[..|rules| - 1] ==> rule in rules;
      SameJoined(rules[..|rules| - 1], f, g);
    }
  }

  /** Every outcome of a rule, its crash report included, names that rule. */
  ghost predicate NamesItsRule<F(!new)>(pass: Pass<F>) {
    && (forall rule, severity, finding :: pass.stamp(rule, severity, finding).rule == rule.id)
    && (forall rule, reason :: About(pass.crash(rule, reason), rule.id))
    && (forall rule :: pass.gate(rule).Suppressed? ==> pass.gate(rule).skip.check == rule.id)
  }

  lemma AloneIsOwn<F(!new)>(pass: Pass<F>, rule: Rule)
    requires NamesItsRule(pass)
    ensures About(Alone(pass, rule), rule.id)
  {
    hide OwnFindings;
  }

  /** However one rule behaves, and whatever contexts it reports through, the others come out the same. */
  lemma RunIsIsolated<F(!new)>(p: Pass<F>, q: Pass<F>, rules: seq<Rule>, id: string)
    requires SameFrame(p, q) && NamesItsRule(p) && NamesItsRule(q)
    requires forall rule :: rule in rules && rule.id != id ==> p.act(rule) == q.act(rule)
    ensures WithoutRule(RunAll(p, rules).outcome, id) == WithoutRule(RunAll(q, rules).outcome, id)
  {
    RunIsConcatenation(p, rules);
    RunIsConcatenation(q, rules);
    hide RunAll, WithoutRule, NamesItsRule, SameFrame, Alone, About;
    forall rule | rule in rules
      ensures About(Alone(p, rule), rule.id) && About(Alone(q, rule), rule.id)
      ensures rule.id != id ==> Alone(p, rule) == Alone(q, rule)
    {
      AloneIsOwn(p, rule);
      AloneIsOwn(q, rule);
      if rule.id != id {
        SameAlone(p, q, rule);
      }
    }
    RulesAreIsolated(rules, rule => Alone(p, rule), rule => Alone(q, rule), id);
  }

  /** Calling a rule: every call of `report` pushes one finding. */
  method CallRule<F>(buffers: seq<seq<F>>, behaviour: Behaviour<F>) returns (pushed: seq<seq<F>>, end: End)
    ensures pushed == PushAll(buffers + [[]], behaviour.calls) && end == behaviour.end
  {
    pushed := buffers + [[]];
    var calls := behaviour.calls;
    for k := 0 to |calls|
      invariant |pushed| == |buffers| + 1 && pushed == PushAll(buffers + [[]], calls[..k])
    {
      assert calls[..k + 1][..k] == calls[..k];
      pushed := Push(pushed, calls[k]);
    }
    assert calls[..|calls|] == calls;
    end := behaviour.end;
  }
}
