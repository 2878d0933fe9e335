/** What the collectors hold after any steps, told from the steps: flags, requests, queries and the lines of the log. */
module ProbeSteps {
  import opened Options
  import opened ProbeAnalysis
  import opened ProbeConservation
  import opened ProbeHook

  // ---- what reaches the log ----

  /** The step is the first finish of a dispatched request, before the collector gave up. */
  ghost predicate FirstFinishOf(s: HookState, step: Step) {
    step.Finish? && step.request < |s.requests| && !s.requests[step.request].fired && !s.httpDisabled
  }

  /** The step settles a query that was started and has not settled. */
  ghost predicate Settles(s: HookState, step: Step) {
    step.QueryEnd? && step.query < |s.queries| && s.queries[step.query].fate.Pending?
  }

  /** The step hands an event to the log. */
  ghost predicate HandsOver(s: HookState, step: Step) {
    || FirstFinishOf(s, step)
    || Settles(s, step)
    || (step.Note? && !step.line.HttpLine? && !step.line.DbLine?)
  }

  ghost predicate FailsAt(steps: seq<Step>, k: nat)
    requires k < |steps|
  {
    HandsOver(Run(steps[..k]), steps[k]) && steps[k].outcome.WriteFails?
  }

  ghost predicate HttpThrowsAt(steps: seq<Step>, k: nat)
    requires k < |steps|
  {
    FirstFinishOf(Run(steps[..k]), steps[k]) && steps[k].outcome.Throws?
  }

  ghost predicate DbStopsAt(steps: seq<Step>, k: nat)
    requires k < |steps|
  {
    steps[k].DisableDb? || (Settles(Run(steps[..k]), steps[k]) && steps[k].outcome.Throws?)
  }

  lemma FlagStep(s: HookState, step: Step)
    ensures Apply(s, step).recordable <==> s.recordable && !(HandsOver(s, step) && step.outcome.WriteFails?)
    ensures Apply(s, step).httpDisabled <==> s.httpDisabled || (FirstFinishOf(s, step) && step.outcome.Throws?)
    ensures Apply(s, step).dbDisabled
            <==> s.dbDisabled || step.DisableDb? || (Settles(s, step) && step.outcome.Throws?)
  {
  }

  /**
   * Recording goes on exactly until an append fails; a collector gives up exactly when its own event cannot be put
   * together, the one for queries also when it is told to.
   */
  lemma FlagsExactly(steps: seq<Step>)
    ensures Run(steps).recordable <==> forall k :: 0 <= k < |steps| ==> !FailsAt(steps, k)
    ensures Run(steps).httpDisabled <==> exists k :: 0 <= k < |steps| && HttpThrowsAt(steps, k)
    ensures Run(steps).dbDisabled <==> exists k :: 0 <= k < |steps| && DbStopsAt(steps, k)
  {
    hide Run, FailsAt, HttpThrowsAt, DbStopsAt;
    FlagsUpTo(steps, |steps|);
    assert steps[..|steps|] == steps;
  }

  lemma {:induction false} FlagsUpTo(steps: seq<Step>, n: nat)
    requires n <= |steps|
    ensures Run(steps[..n]).recordable <==> forall k :: 0 <= k < n ==> !FailsAt(steps, k)
    ensures Run(steps[..n]).httpDisabled <==> exists k :: 0 <= k < n && HttpThrowsAt(steps, k)
    ensures Run(steps[..n]).dbDisabled <==> exists k :: 0 <= k < n && DbStopsAt(steps, k)
  {
    hide Apply, HandsOver, FirstFinishOf, Settles;
    if n > 0 {
      FlagsUpTo(steps, n - 1);
      assert steps[..n][..n - 1] == steps[..n - 1];
      FlagStep(Run(steps[..n - 1]), steps[n - 1]);
      FlagsAt(steps, n - 1);
      hide FailsAt, HttpThrowsAt, DbStopsAt;
    }
  }

  lemma FlagsAt(steps: seq<Step>, n: nat)
    requires n < |steps|
    ensures var s := Run(steps[..n]);
            && (FailsAt(steps, n) <==> HandsOver(s, steps[n]) && steps[n].outcome.WriteFails?)
            && (HttpThrowsAt(steps, n) <==> FirstFinishOf(s, steps[n]) && steps[n].outcome.Throws?)
            && (DbStopsAt(steps, n) <==> steps[n].DisableDb? || (Settles(s, steps[n]) && steps[n].outcome.Throws?))
  {
  }

  // ---- which query a number stands for ----

  /** Step `j` starts the query with this number: as many have started before it. */
  ghost predicate StartsQuery(steps: seq<Step>, query: nat, j: nat) {
    && j < |steps| && steps[j].QueryStart? && !Run(steps[..j]).dbDisabled && |Run(steps[..j]).queries| == query
    && (steps[j].context.Some? ==> steps[j].context.value < |Run(steps[..j]).requests|)
  }

  lemma QueryStep(s: HookState, step: Step, query: nat)
    ensures query < |s.queries| ==>
      && query < |Apply(s, step).queries|
      && Apply(s, step).queries[query].context == s.queries[query].context
      && Apply(s, step).queries[query].operation == s.queries[query].operation
    ensures |s.queries| <= query < |Apply(s, step).queries| ==>
      && query == |s.queries| && step.QueryStart? && !s.dbDisabled
      && (step.context.Some? ==> step.context.value < |s.requests|)
      && Apply(s, step).queries[query] == QueryState(step.context, step.operation, Pending)
  {
  }

  /** Every query has one start, which says what it runs and in which request. */
  lemma {:induction false} QueryHasStart(steps: seq<Step>, query: nat) returns (j: nat)
    requires query < |Run(steps).queries|
    ensures StartsQuery(steps, query, j)
    ensures Run(steps).queries[query].operation == steps[j].operation
    ensures Run(steps).queries[query].context == steps[j].context
  {
    var n := |steps| - 1;
    var before := steps[..n];
    QueryStep(Run(before), steps[n], query);
    hide Apply;
    if query < |Run(before).queries| {
      j := QueryHasStart(before, query);
      assert before[..j] == steps[..j];
    } else {
      j := n;
    }
  }

  /** Step `k` settles the query with this number, which has started by then. */
  ghost predicate EndsQuery(steps: seq<Step>, query: nat, k: nat)
    requires k < |steps|
  {
    steps[k].QueryEnd? && steps[k].query == query && query < |Run(steps[..k]).queries|
  }

  lemma FateStep(s: HookState, step: Step, query: nat)
    requires query < |s.queries|
    ensures query < |Apply(s, step).queries|
    ensures Apply(s, step).queries[query].fate.Pending?
            <==> s.queries[query].fate.Pending? && !(step.QueryEnd? && step.query == query)
  {
  }

  /** A query runs exactly until the first step that settles it, whatever comes of its event. */
  lemma {:induction false} RunsUntilSettled(steps: seq<Step>, query: nat, n: nat)
    requires n <= |steps| && query < |Run(steps[..n]).queries|
    ensures Run(steps[..n]).queries[query].fate.Pending? <==> forall k :: 0 <= k < n ==> !EndsQuery(steps, query, k)
  {
    hide Apply;
    var before := Run(steps[..n - 1]);
    assert steps[..n][..n - 1] == steps[..n - 1];
    assert Run(steps[..n]) == Apply(before, steps[n - 1]);
    QueryStep(before, steps[n - 1], query);
    assert EndsQuery(steps, query, n - 1)
      <==> steps[n - 1].QueryEnd? && steps[n - 1].query == query && query < |before.queries|;
    if query < |before.queries| {
      hide EndsQuery;
      RunsUntilSettled(steps, query, n - 1);
      FateStep(before, steps[n - 1], query);
    } else {
      NotYetStarted(steps, query, n - 1);
      hide EndsQuery, Run;
    }
  }

  /** Nothing settles a query before it starts. */
  lemma NotYetStarted(steps: seq<Step>, query: nat, n: nat)
    requires n < |steps| && |Run(steps[..n]).queries| <= query
    ensures forall k :: 0 <= k <= n ==> !EndsQuery(steps, query, k)
  {
    hide Apply, Run;
    forall k | 0 <= k <= n
      ensures !EndsQuery(steps, query, k)
    {
      QueriesStay(steps, k, n);
    }
  }

  lemma {:induction false} QueriesStay(steps: seq<Step>, k: nat, n: nat)
    requires k <= n <= |steps|
    ensures |Run(steps[..k]).queries| <= |Run(steps[..n]).queries|
  {
    hide Apply;
    if k < n {
      QueriesStay(steps, k, n - 1);
      assert steps[..n][..n - 1] == steps[..n - 1];
      StartStep(Run(steps[..n - 1]), steps[n - 1]);
    }
  }

  // ---- one more step ----

  ghost predicate IsRecordOf(steps: seq<Step>, query: nat, duration: int, line: Line) {
    exists j: nat :: StartsQuery(steps, query, j)
      && line == DbLine(DbQuery(steps[j].operation, duration, steps[j].context.Some?))
  }

  /**
   * The event of a step: a request with the queries that started in it, a query with what its start said and whether
   * it belongs to a request, or the line of another collector.
   */
  ghost predicate IsEventOf(steps: seq<Step>, step: Step, line: Line) {
    match step
    case Finish(request, route, status, duration, _) =>
      line == HttpLine(HttpRequest(route, status, duration, StartedIn(steps, request)))
    case QueryEnd(query, duration, _) => IsRecordOf(steps, query, duration, line)
    case Note(other, _) => line == other
    case _ => false
  }

  lemma LineStep(s: HookState, step: Step)
    ensures var t := Apply(s, step);
            && (s.recordable && HandsOver(s, step) && step.outcome.Written? ==>
                  |t.log| == |s.log| + 1 && t.log[..|s.log|] == s.log && IsLineOf(s, step, t.log[|s.log|]))
            && (!(s.recordable && HandsOver(s, step) && step.outcome.Written?) ==> t.log == s.log)
  {
  }

  ghost predicate IsLineOf(s: HookState, step: Step, line: Line) {
    match step
    case Finish(request, route, status, duration, _) =>
      request < |s.requests| && line == HttpLine(HttpRequest(route, status, duration, s.requests[request].dbQueries))
    case QueryEnd(query, duration, _) =>
      query < |s.queries|
      && line == DbLine(DbQuery(s.queries[query].operation, duration, s.queries[query].context.Some?))
    case Note(other, _) => line == other
    case _ => false
  }

  lemma LineIsEvent(steps: seq<Step>, step: Step, line: Line)
    requires IsLineOf(Run(steps), step, line)
    ensures IsEventOf(steps, step, line)
  {
    hide Run, StartedIn, StartsQuery;
    match step
    case Finish(request, _, _, _, _) => CounterIsStarted(steps, request);
    case QueryEnd(query, _, _) =>
      var j := QueryHasStart(steps, query);
    case _ =>
  }

  /**
   * One more step appends exactly its own event, and only if recording goes on, the step hands an event over and the
   * append succeeds; else the log stays as it is.
   */
  lemma OneMoreStep(steps: seq<Step>, step: Step)
    ensures var before, after := Run(steps), Run(steps + [step]);
            var writes := before.recordable && HandsOver(before, step) && step.outcome.Written?;
            && (writes ==> |after.log| == |before.log| + 1 && after.log[..|before.log|] == before.log
                           && IsEventOf(steps, step, after.log[|before.log|]))
            && (!writes ==> after.log == before.log)
  {
    RunMore(steps, step);
    LineStep(Run(steps), step);
    assert HandsOver(Run(steps), step) ==> step.Finish? || step.QueryEnd? || step.Note?;
    hide Run, Apply, HandsOver, IsEventOf, IsLineOf;
    if Run(steps).recordable && HandsOver(Run(steps), step) && step.outcome.Written? {
      LineIsEvent(steps, step, Run(steps + [step]).log[|Run(steps).log|]);
    }
  }

  lemma StartStep(s: HookState, step: Step)
    ensures |Apply(s, step).requests|
         == |s.requests| + (if step == Dispatch(true) && !s.httpDisabled then 1 else 0)
    ensures |Apply(s, step).queries| == |s.queries|
         + (if step.QueryStart? && !s.dbDisabled && (step.context.Some? ==> step.context.value < |s.requests|) then 1 else 0)
  {
  }

  /** A server's request gets a store exactly if it can be observed; a query is followed exactly if it may be. */
  lemma OneMoreStart(steps: seq<Step>, step: Step)
    ensures var before, after := Run(steps), Run(steps + [step]);
            && |after.requests| == |before.requests| + (if step == Dispatch(true) && !before.httpDisabled then 1 else 0)
            && |after.queries| == |before.queries| + (if StartsQuery(steps + [step], |before.queries|, |steps|) then 1 else 0)
  {
    RunMore(steps, step);
    StartStep(Run(steps), step);
    hide Run, Apply;
    assert (steps + [step])[..|steps|] == steps && (steps + [step])[|steps|] == step;
  }

  // ---- a failing append ----

  lemma StaysSilent(s: HookState, step: Step)
    requires !s.recordable
    ensures !Apply(s, step).recordable && Apply(s, step).log == s.log
  {
  }

  /** After an append has failed the log never grows again, whatever happens. */
  lemma {:induction false} NothingAfterFailure(steps: seq<Step>, k: nat)
    requires k < |steps| && FailsAt(steps, k)
    ensures !Run(steps).recordable && Run(steps).log == Run(steps[..k]).log
    decreases |steps|
  {
    var n := |steps| - 1;
    var before := steps[..n];
    if k == n {
      LineStep(Run(before), steps[n]);
      FlagStep(Run(before), steps[n]);
      hide Apply;
    } else {
      assert before[..k] == steps[..k];
      NothingAfterFailure(before, k);
      hide Apply, HandsOver, FirstFinishOf, Settles;
      StaysSilent(Run(before), steps[n]);
    }
  }
}
