/** What the collectors keep in every interleaving, and what that means for the findings derived from their log. */
module ProbeConservation {
  import opened FindingsProperties
  import opened Options
  import opened ProbeAnalysis
  import opened ProbeFindings
  import opened ProbeHook
  import opened Tallies

  // ---- the books ----

  function Started(r: RequestState): int {
    r.dbQueries
  }

  /** The queries the request's event accounts for. */
  function Carried(r: RequestState): int {
    if r.reported.Some? then r.reported.value else 0
  }

  /** The queries counted in the request that no event accounts for. */
  function Missed(r: RequestState): int {
    Started(r) - Carried(r)
  }

  function HasEvent(r: RequestState): int {
    if r.reported.Some? then 1 else 0
  }

  function InRequest(q: QueryState): int {
    if q.context.Some? then 1 else 0
  }

  /** An attributed query whose event is in the log. */
  function Attested(q: QueryState): int {
    if q.context.Some? && q.fate.Recorded? then 1 else 0
  }

  /** An attributed query without an event: still running, or its event was not written. */
  function Unattested(q: QueryState): int {
    InRequest(q) - Attested(q)
  }

  function HasRecord(q: QueryState): int {
    if q.fate.Recorded? then 1 else 0
  }

  /** The counters, the reports and the log agree with each other. */
  ghost predicate Balanced(s: HookState) {
    && SumBy(s.requests, Started) == SumBy(s.queries, InRequest)
    && SumBy(s.requests, Carried) == SumBy(Pick(s.log, AsRequest), QueriesOf)
    && SumBy(s.requests, HasEvent) == |Pick(s.log, AsRequest)|
    && SumBy(s.queries, Attested) == SumBy(Pick(s.log, AsQuery), Attributed)
    && SumBy(s.queries, HasRecord) == |Pick(s.log, AsQuery)|
    && forall i :: 0 <= i < |s.requests| && s.requests[i].reported.Some? ==>
         s.requests[i].fired && s.requests[i].reported.value <= s.requests[i].dbQueries
  }

  // ---- every step keeps them ----

  lemma PickPush<T>(log: seq<Line>, line: Line, f: Line -> Option<T>)
    ensures Pick(log + [line], f) == Pick(log, f) + if f(line).Some? then [f(line).value] else []
  {
    assert (log + [line])[..|log|] == log;
  }

  /** The sums over the requests and over the queries of a state. */
  lemma RequestSums(s: seq<RequestState>, i: nat, x: RequestState)
    requires i < |s|
    ensures SumBy(s[i := x], Started) == SumBy(s, Started) - Started(s[i]) + Started(x)
    ensures SumBy(s[i := x], Carried) == SumBy(s, Carried) - Carried(s[i]) + Carried(x)
    ensures SumBy(s[i := x], HasEvent) == SumBy(s, HasEvent) - HasEvent(s[i]) + HasEvent(x)
  {
    SumUpdate(s, i, x, Started);
    SumUpdate(s, i, x, Carried);
    SumUpdate(s, i, x, HasEvent);
  }

  lemma QuerySums(s: seq<QueryState>, i: nat, x: QueryState)
    requires i < |s|
    ensures SumBy(s[i := x], InRequest) == SumBy(s, InRequest) - InRequest(s[i]) + InRequest(x)
    ensures SumBy(s[i := x], Attested) == SumBy(s, Attested) - Attested(s[i]) + Attested(x)
    ensures SumBy(s[i := x], HasRecord) == SumBy(s, HasRecord) - HasRecord(s[i]) + HasRecord(x)
  {
    SumUpdate(s, i, x, InRequest);
    SumUpdate(s, i, x, Attested);
    SumUpdate(s, i, x, HasRecord);
  }

  lemma LogSums(log: seq<Line>, line: Line)
    ensures SumBy(Pick(log + [line], AsRequest), QueriesOf)
         == SumBy(Pick(log, AsRequest), QueriesOf) + (if line.HttpLine? then line.request.dbQueries else 0)
    ensures |Pick(log + [line], AsRequest)| == |Pick(log, AsRequest)| + (if line.HttpLine? then 1 else 0)
    ensures SumBy(Pick(log + [line], AsQuery), Attributed)
         == SumBy(Pick(log, AsQuery), Attributed) + (if line.DbLine? then Attributed(line.query) else 0)
    ensures |Pick(log + [line], AsQuery)| == |Pick(log, AsQuery)| + (if line.DbLine? then 1 else 0)
  {
    PickPush(log, line, AsRequest);
    PickPush(log, line, AsQuery);
    if line.HttpLine? {
      SumPush(Pick(log, AsRequest), line.request, QueriesOf);
    }
    if line.DbLine? {
      SumPush(Pick(log, AsQuery), line.query, Attributed);
    }
  }

  lemma DispatchKeeps(s: HookState, observable: bool)
    requires Balanced(s)
    ensures Balanced(Apply(s, Dispatch(observable)))
  {
    var r := RequestState(0, false, None);
    SumPush(s.requests, r, Started);
    SumPush(s.requests, r, Carried);
    SumPush(s.requests, r, HasEvent);
    hide SumBy, Pick;
  }

  lemma StartKeeps(s: HookState, context: Option<nat>, operation: Operation)
    requires Balanced(s)
    ensures Balanced(Apply(s, QueryStart(context, operation)))
  {
    var q := QueryState(context, operation, Pending);
    SumPush(s.queries, q, InRequest);
    SumPush(s.queries, q, Attested);
    SumPush(s.queries, q, HasRecord);
    hide SumBy, Pick;
    if context.Some? && context.value < |s.requests| {
      var r := s.requests[context.value];
      RequestSums(s.requests, context.value, r.(dbQueries := r.dbQueries + 1));
    }
  }

  /** A query settles and leaves no event. */
  lemma LosesQuery(s: HookState, t: HookState, i: nat)
    requires Balanced(s) && i < |s.queries| && s.queries[i].fate.Pending?
    requires t.requests == s.requests && t.log == s.log && t.queries == s.queries[i := s.queries[i].(fate := Lost)]
    ensures Balanced(t)
  {
    hide SumBy, Pick;
    QuerySums(s.queries, i, s.queries[i].(fate := Lost));
  }

  /** A query settles and its event is appended. */
  lemma RecordsQuery(s: HookState, t: HookState, i: nat, line: Line)
    requires Balanced(s) && i < |s.queries| && s.queries[i].fate.Pending?
    requires line.DbLine? && (line.query.attributed <==> s.queries[i].context.Some?)
    requires t.requests == s.requests && t.log == s.log + [line]
    requires t.queries == s.queries[i := s.queries[i].(fate := Recorded)]
    ensures Balanced(t)
  {
    hide SumBy, Pick;
    QuerySums(s.queries, i, s.queries[i].(fate := Recorded));
    LogSums(s.log, line);
  }

  lemma EndKeeps(s: HookState, query: nat, duration: int, outcome: Outcome)
    requires Balanced(s)
    ensures Balanced(Apply(s, QueryEnd(query, duration, outcome)))
  {
    hide Balanced;
    var t := Apply(s, QueryEnd(query, duration, outcome));
    if query < |s.queries| && s.queries[query].fate.Pending? {
      var q := s.queries[query];
      if s.recordable && outcome.Written? {
        RecordsQuery(s, t, query, DbLine(DbQuery(q.operation, duration, q.context.Some?)));
      } else {
        LosesQuery(s, t, query);
      }
    }
  }

  /** A request finishes and leaves no event. */
  lemma FinishesSilently(s: HookState, t: HookState, i: nat)
    requires Balanced(s) && i < |s.requests| && !s.requests[i].fired
    requires t.queries == s.queries && t.log == s.log && t.requests == s.requests[i := s.requests[i].(fired := true)]
    ensures Balanced(t)
  {
    hide SumBy, Pick;
    RequestSums(s.requests, i, s.requests[i].(fired := true));
  }

  /** A request finishes and its event is appended. */
  lemma FinishesWithEvent(s: HookState, t: HookState, i: nat, line: Line)
    requires Balanced(s) && i < |s.requests| && !s.requests[i].fired
    requires line.HttpLine? && line.request.dbQueries == s.requests[i].dbQueries
    requires t.queries == s.queries && t.log == s.log + [line]
    requires t.requests == s.requests[i := RequestState(s.requests[i].dbQueries, true, Some(s.requests[i].dbQueries))]
    ensures Balanced(t)
  {
    hide SumBy, Pick;
    RequestSums(s.requests, i, t.requests[i]);
    LogSums(s.log, line);
  }

  /** A request that has not finished has reported nothing. */
  lemma Unreported(s: HookState, i: nat)
    requires Balanced(s) && i < |s.requests| && !s.requests[i].fired
    ensures s.requests[i].reported.None?
  {
  }

  lemma FinishKeeps(s: HookState, request: nat, route: Route, status: int, duration: int, outcome: Outcome)
    requires Balanced(s)
    ensures Balanced(Apply(s, Finish(request, route, status, duration, outcome)))
  {
    hide Balanced;
    var t := Apply(s, Finish(request, route, status, duration, outcome));
    if request < |s.requests| && !s.requests[request].fired {
      Unreported(s, request);
      if !s.httpDisabled && s.recordable && outcome.Written? {
        FinishesWithEvent(s, t, request, HttpLine(HttpRequest(route, status, duration, s.requests[request].dbQueries)));
      } else {
        FinishesSilently(s, t, request);
      }
    }
  }

  lemma DisableKeeps(s: HookState)
    requires Balanced(s)
    ensures Balanced(Apply(s, DisableDb))
  {
    hide SumBy, Pick;
  }

  lemma NoteKeeps(s: HookState, line: Line, outcome: Outcome)
    requires Balanced(s)
    ensures Balanced(Apply(s, Note(line, outcome)))
  {
    hide SumBy, Pick;
    LogSums(s.log, line);
  }

  /** Every step of every collector keeps the books balanced, whatever its outcome. */
  lemma StepKeeps(s: HookState, step: Step)
    requires Balanced(s)
    ensures Balanced(Apply(s, step))
  {
    hide Balanced, Apply;
    match step
    case Dispatch(observable) => DispatchKeeps(s, observable);
    case QueryStart(context, operation) => StartKeeps(s, context, operation);
    case QueryEnd(query, duration, outcome) => EndKeeps(s, query, duration, outcome);
    case Finish(request, route, status, duration, outcome) => FinishKeeps(s, request, route, status, duration, outcome);
    case DisableDb => DisableKeeps(s);
    case Note(line, outcome) => NoteKeeps(s, line, outcome);
  }

  lemma {:induction false} RunBalanced(steps: seq<Step>)
    ensures Balanced(Run(steps))
  {
    if steps != [] {
      RunBalanced(steps[..|steps| - 1]);
      hide Balanced, Apply;
      StepKeeps(Run(steps[..|steps| - 1]), steps[|steps| - 1]);
    }
  }

  /** The mutable collectors, taken through any steps, end up with balanced books. */
  method Observe(steps: seq<Step>) returns (collectors: Collectors)
    ensures fresh(collectors) && collectors.Valid()
    ensures collectors.State() == Run(steps) && Balanced(collectors.State())
  {
    RunBalanced(steps);
    hide Balanced, Run;
    collectors := new Collectors();
    collectors.PerformAll(steps);
  }

  // ---- what one request event carries ----

  /** The step counts a query in the store of request `i`. */
  predicate CountsIn(s: HookState, step: Step, i: nat) {
    step.QueryStart? && step.context == Some(i) && i < |s.requests| && !s.dbDisabled
  }

  /** How many queries started in the context of request `i`. */
  function StartedIn(steps: seq<Step>, i: nat): nat {
    if steps == [] then 0
    else
      var before := steps[..|steps| - 1];
      StartedIn(before, i) + if CountsIn(Run(before), steps[|steps| - 1], i) then 1 else 0
  }

  /** How one step changes a counter. */
  lemma CounterStep(s: HookState, step: Step, i: nat)
    ensures i < |s.requests| ==> i < |Apply(s, step).requests|
    ensures i < |s.requests| ==>
      Apply(s, step).requests[i].dbQueries == s.requests[i].dbQueries + if CountsIn(s, step, i) then 1 else 0
    ensures |s.requests| <= i < |Apply(s, step).requests| ==> Apply(s, step).requests[i].dbQueries == 0
    ensures |s.requests| <= i ==> !CountsIn(s, step, i)
  {
  }

  lemma {:induction false} CounterIsStarted(steps: seq<Step>, i: nat)
    ensures StartedIn(steps, i) == if i < |Run(steps).requests| then Run(steps).requests[i].dbQueries else 0
  {
    if steps != [] {
      hide Apply, CountsIn;
      CounterIsStarted(steps[..|steps| - 1], i);
      CounterStep(Run(steps[..|steps| - 1]), steps[|steps| - 1], i);
    }
  }

  /** Line `p` of the log was written by step `k`, the first `finish` of a request, with what had started by then. */
  ghost predicate WrittenAt(steps: seq<Step>, p: nat, k: nat)
    requires p < |Run(steps).log| && Run(steps).log[p].HttpLine?
  {
    && k < |steps| && steps[k].Finish?
    && var before := Run(steps[..k]);
       var i := steps[k].request;
       && |before.log| == p && i < |before.requests| && !before.requests[i].fired
       && Run(steps).log[p].request
            == HttpRequest(steps[k].route, steps[k].status, steps[k].duration, StartedIn(steps[..k], i))
  }

  lemma LogGrows(s: HookState, step: Step)
    ensures s.log <= Apply(s, step).log && |Apply(s, step).log| <= |s.log| + 1
    ensures |Apply(s, step).log| == |s.log| + 1 && Apply(s, step).log[|s.log|].HttpLine? ==>
              && step.Finish? && step.request < |s.requests| && !s.requests[step.request].fired
              && Apply(s, step).log[|s.log|].request
                   == HttpRequest(step.route, step.status, step.duration, s.requests[step.request].dbQueries)
  {
  }

  /** In every interleaving a request event carries exactly the queries started in its context before its finish. */
  lemma {:induction false} EventsCarryStarted(steps: seq<Step>, p: nat)
    requires p < |Run(steps).log| && Run(steps).log[p].HttpLine?
    ensures exists k: nat :: WrittenAt(steps, p, k)
  {
    var n := |steps| - 1;
    var before := Run(steps[..n]);
    LogGrows(before, steps[n]);
    hide Apply;
    if p < |before.log| {
      EventsCarryStarted(steps[..n], p);
      var k: nat :| WrittenAt(steps[..n], p, k);
      assert steps[..n][..k] == steps[..k];
      assert WrittenAt(steps, p, k);
    } else {
      CounterIsStarted(steps[..n], steps[n].request);
      assert WrittenAt(steps, p, n);
    }
  }

  // ---- conservation across both halves ----

  /** The queries all endpoint rows account for, before the cap. */
  function EndpointQueries(log: seq<Line>): int {
    SumBy(Endpoints(Pick(log, AsRequest)), (r: FindingsEndpoint) => r.dbTotal)
  }

  lemma {:induction false} SumOfDifference<E>(s: seq<E>, f: E -> int, g: E -> int, h: E -> int)
    requires forall x :: h(x) == f(x) - g(x)
    ensures SumBy(s, h) == SumBy(s, f) - SumBy(s, g)
  {
    if s != [] {
      SumOfDifference(s[..|s| - 1], f, g, h);
    }
  }

  lemma {:induction false} AttributedOrNot(queries: seq<DbQuery>)
    ensures SumBy(queries, Attributed) + SumBy(queries, Unattributed) == |queries|
  {
    if queries != [] {
      AttributedOrNot(queries[..|queries| - 1]);
    }
  }

  /**
   * The law behind the findings: what the endpoints account for and the attributed queries differ by the queries
   * no request event accounts for and the attributed queries that left no event.
   */
  lemma QueriesConserve(steps: seq<Step>, session: Session)
    ensures var s, doc := Run(steps), Document(Run(steps).log, session);
            EndpointQueries(s.log) + SumBy(s.requests, Missed)
              == doc.queries - doc.unattributed + SumBy(s.queries, Unattested)
  {
    RunBalanced(steps);
    var s := Run(steps);
    EndpointsConserve(Pick(s.log, AsRequest));
    AttributedOrNot(Pick(s.log, AsQuery));
    SumOfDifference(s.requests, Started, Carried, Missed);
    SumOfDifference(s.queries, InRequest, Attested, Unattested);
    hide Run, SumBy, Pick, Calls, Endpoints, Models, LagOf, Warnings;
  }

  lemma {:induction false} ZeroSum<E>(s: seq<E>, f: E -> int)
    requires forall i :: 0 <= i < |s| ==> 0 <= f(s[i])
    ensures 0 <= SumBy(s, f)
    ensures SumBy(s, f) == 0 <==> forall i :: 0 <= i < |s| ==> f(s[i]) == 0
  {
    if s != [] {
      ZeroSum(s[..|s| - 1], f);
    }
  }

  /** Every request that ran queries reported all of them. */
  ghost predicate AllReported(s: HookState) {
    forall r :: r in s.requests && r.dbQueries > 0 ==> r.reported == Some(r.dbQueries)
  }

  lemma NoneMissed(s: HookState)
    requires Balanced(s)
    ensures SumBy(s.requests, Missed) == 0 <==> AllReported(s)
  {
    ZeroSum(s.requests, Missed);
    hide SumBy, Pick;
  }

  lemma AllAttested(s: HookState)
    requires forall q :: q in s.queries && q.context.Some? ==> q.fate.Recorded?
    ensures SumBy(s.queries, Unattested) == 0
  {
    ZeroSum(s.queries, Unattested);
  }

  lemma ReportedConserves(steps: seq<Step>, session: Session)
    requires forall q :: q in Run(steps).queries && q.context.Some? ==> q.fate.Recorded?
    ensures var doc := Document(Run(steps).log, session);
            AllReported(Run(steps)) <==> EndpointQueries(Run(steps).log) == doc.queries - doc.unattributed
  {
    RunBalanced(steps);
    hide Run, SumBy, Pick, Document, EndpointQueries, Balanced, AllReported;
    QueriesConserve(steps, session);
    NoneMissed(Run(steps));
    AllAttested(Run(steps));
  }

  // ---- the exact condition, on the steps ----

  /** Step `k` finishes request `i`, which has been dispatched by then. */
  predicate FinishesAt(steps: seq<Step>, i: nat, k: nat) {
    k < |steps| && steps[k].Finish? && steps[k].request == i && i < |Run(steps[..k]).requests|
  }

  /** The step at which the request finishes for the first time. */
  function FirstFinish(steps: seq<Step>, i: nat): (k: Option<nat>)
    ensures k.Some? ==> FinishesAt(steps, i, k.value)
    ensures forall j: nat :: j < |steps| && (k.None? || j < k.value) ==> !FinishesAt(steps, i, j)
  {
    if steps == [] then None
    else
      var n := |steps| - 1;
      var earlier := FirstFinish(steps[..n], i);
      assert forall j: nat :: j < n ==> steps[..n][..j] == steps[..j];
      assert forall j: nat :: j < n ==> (FinishesAt(steps[..n], i, j) <==> FinishesAt(steps, i, j));
      if earlier.Some? then earlier
      else if FinishesAt(steps, i, n) then Some(n)
      else None
  }

  /** The finish listener that runs at step `k` gets its event into the log. */
  predicate WritesAt(steps: seq<Step>, k: nat) {
    && k < |steps| && steps[k].Finish? && steps[k].outcome.Written?
    && !Run(steps[..k]).httpDisabled && Run(steps[..k]).recordable
  }

  /** What is known about request `i`, from the steps alone. */
  function RequestAfter(steps: seq<Step>, i: nat): RequestState {
    var k := FirstFinish(steps, i);
    RequestState(StartedIn(steps, i), k.Some?,
      if k.Some? && WritesAt(steps, k.value) then Some(StartedIn(steps[..k.value], i)) else None)
  }

  /** How one step changes a request. */
  lemma RequestStep(s: HookState, step: Step, i: nat)
    requires i < |Apply(s, step).requests|
    ensures |s.requests| <= i ==> Apply(s, step).requests[i] == RequestState(0, false, None)
    ensures i < |s.requests| ==>
      var r := s.requests[i];
      Apply(s, step).requests[i] ==
        if CountsIn(s, step, i) then r.(dbQueries := r.dbQueries + 1)
        else if step.Finish? && step.request == i && !r.fired then
          RequestState(r.dbQueries, true,
            if s.httpDisabled then r.reported
            else if step.outcome.Throws? then r.reported
            else if s.recordable && step.outcome.Written? then Some(r.dbQueries) else None)
        else r
  {
  }

  lemma {:induction false} RequestIsAfter(steps: seq<Step>, i: nat)
    requires i < |Run(steps).requests|
    ensures Run(steps).requests[i] == RequestAfter(steps, i)
  {
    var n := |steps| - 1;
    var s, step := Run(steps[..n]), steps[n];
    CounterIsStarted(steps, i);
    RequestStep(s, step, i);
    hide Apply;
    if i < |s.requests| {
      RequestIsAfter(steps[..n], i);
    } else {
      NotYetFinished(steps[..n], i);
    }
    var k := FirstFinish(steps[..n], i);
    if k.Some? {
      assert steps[..n][..k.value] == steps[..k.value];
    }
  }

  /** A request that was not dispatched has not finished. */
  lemma NotYetFinished(steps: seq<Step>, i: nat)
    requires i >= |Run(steps).requests|
    ensures FirstFinish(steps, i).None?
  {
    var k := FirstFinish(steps, i);
    if k.Some? {
      RequestsStay(steps, k.value);
    }
  }

  lemma RequestsGrow(s: HookState, step: Step)
    ensures |s.requests| <= |Apply(s, step).requests|
  {
  }

  lemma {:induction false} RequestsStay(steps: seq<Step>, k: nat)
    requires k <= |steps|
    ensures |Run(steps[..k]).requests| <= |Run(steps).requests|
  {
    hide Apply;
    if k == |steps| {
      assert steps[..k] == steps;
    } else {
      var n := |steps| - 1;
      RequestsStay(steps[..n], k);
      RequestsGrow(Run(steps[..n]), steps[n]);
      assert steps[..n][..k] == steps[..k];
    }
  }

  /** The request finishes, its event is written, and none of its queries starts later. */
  predicate FinishesInTime(steps: seq<Step>, i: nat) {
    var k := FirstFinish(steps, i);
    k.Some? && WritesAt(steps, k.value) && StartedIn(steps[..k.value], i) == StartedIn(steps, i)
  }

  lemma ReportedInTime(steps: seq<Step>)
    ensures AllReported(Run(steps)) <==> forall i: nat :: StartedIn(steps, i) > 0 ==> FinishesInTime(steps, i)
  {
    hide Run, FirstFinish, WritesAt, StartedIn;
    var s := Run(steps);
    forall i: nat
      ensures i < |s.requests| ==> s.requests[i] == RequestAfter(steps, i)
      ensures i >= |s.requests| ==> StartedIn(steps, i) == 0
    {
      CounterIsStarted(steps, i);
      if i < |s.requests| {
        RequestIsAfter(steps, i);
      }
    }
    if AllReported(s) {
      forall i: nat | StartedIn(steps, i) > 0
        ensures FinishesInTime(steps, i)
      {
        assert s.requests[i] in s.requests;
      }
    }
    if forall i: nat :: StartedIn(steps, i) > 0 ==> FinishesInTime(steps, i) {
      forall r | r in s.requests && r.dbQueries > 0
        ensures r.reported == Some(r.dbQueries)
      {
        var i: nat :| i < |s.requests| && s.requests[i] == r;
      }
    }
  }

  /**
   * Once every attributed query has its event, the sums agree exactly when each request that ran queries finishes
   * after the last of them has started, and its event is written.
   */
  lemma ConservedExactly(steps: seq<Step>, session: Session)
    requires forall q :: q in Run(steps).queries && q.context.Some? ==> q.fate.Recorded?
    ensures var doc := Document(Run(steps).log, session);
            EndpointQueries(Run(steps).log) == doc.queries - doc.unattributed
            <==> forall i: nat :: StartedIn(steps, i) > 0 ==> FinishesInTime(steps, i)
  {
    hide Run, Document, EndpointQueries, AllReported, FinishesInTime, StartedIn;
    ReportedConserves(steps, session);
    ReportedInTime(steps);
  }

  // ---- runs in which nothing fails ----

  predicate Succeeds(step: Step) {
    match step
    case QueryEnd(_, _, outcome) => outcome.Written?
    case Finish(_, _, _, _, outcome) => outcome.Written?
    case Note(_, outcome) => !outcome.WriteFails?
    case _ => true
  }

  ghost predicate Untroubled(s: HookState) {
    s.recordable && !s.httpDisabled && forall q :: q in s.queries ==> !q.fate.Lost?
  }

  lemma StaysUntroubled(s: HookState, step: Step)
    requires Untroubled(s) && Succeeds(step)
    ensures Untroubled(Apply(s, step))
  {
  }

  lemma {:induction false} RunsUntroubled(steps: seq<Step>, k: nat)
    requires k <= |steps| && forall step :: step in steps ==> Succeeds(step)
    ensures Untroubled(Run(steps[..k]))
  {
    if k > 0 {
      RunsUntroubled(steps, k - 1);
      assert steps[..k][..k - 1] == steps[..k - 1];
      hide Apply, Untroubled, Succeeds;
      StaysUntroubled(Run(steps[..k - 1]), steps[k - 1]);
    }
  }

  /**
   * When nothing fails and all attributed queries have settled, the sums agree exactly when each request that ran
   * queries finishes, the first time, after the last of them has started.
   */
  lemma ConservedInTime(steps: seq<Step>, session: Session)
    requires forall step :: step in steps ==> Succeeds(step)
    requires forall q :: q in Run(steps).queries && q.context.Some? ==> !q.fate.Pending?
    ensures var doc := Document(Run(steps).log, session);
            EndpointQueries(Run(steps).log) == doc.queries - doc.unattributed
            <==> forall i: nat :: StartedIn(steps, i) > 0 ==>
                   var k := FirstFinish(steps, i); k.Some? && StartedIn(steps[..k.value], i) == StartedIn(steps, i)
  {
    RunsUntroubled(steps, |steps|);
    assert steps[..|steps|] == steps;
    hide Run, Document, EndpointQueries, FirstFinish, StartedIn;
    ConservedExactly(steps, session);
    forall i: nat, k: nat | FirstFinish(steps, i) == Some(k)
      ensures WritesAt(steps, k)
    {
      RunsUntroubled(steps, k);
      assert FinishesAt(steps, i, k) && steps[k] in steps;
    }
  }

  // ---- orderly runs ----

  /** No write fails, no query starts after its request finished, and none is still running when it finishes. */
  predicate Fits(s: HookState, step: Step) {
    match step
    case Dispatch(_) => true
    case QueryStart(context, _) => context.Some? && context.value < |s.requests| ==> !s.requests[context.value].fired
    case QueryEnd(_, _, outcome) => outcome.Written?
    case Finish(request, _, _, _, outcome) =>
      outcome.Written? && forall q :: q in s.queries && q.context == Some(request) ==> !q.fate.Pending?
    case DisableDb => true
    case Note(_, outcome) => !outcome.WriteFails?
  }

  ghost predicate Orderly(steps: seq<Step>) {
    forall k :: 0 <= k < |steps| ==> Fits(Run(steps[..k]), steps[k])
  }

  ghost predicate Tidy(s: HookState) {
    && s.recordable && !s.httpDisabled
    && (forall q :: q in s.queries ==> !q.fate.Lost?)
    && (forall q :: q in s.queries && q.context.Some? ==>
          q.context.value < |s.requests| && s.requests[q.context.value].dbQueries > 0)
    && (forall q :: q in s.queries && q.context.Some? && s.requests[q.context.value].fired ==> q.fate.Recorded?)
    && (forall r :: r in s.requests && r.fired ==> r.reported == Some(r.dbQueries))
  }

  lemma TidyStep(s: HookState, step: Step)
    requires Tidy(s) && Fits(s, step)
    ensures Tidy(Apply(s, step))
  {
  }

  lemma {:induction false} OrderlyTidy(steps: seq<Step>)
    requires Orderly(steps)
    ensures Tidy(Run(steps))
  {
    if steps != [] {
      var before := steps[..|steps| - 1];
      forall k | 0 <= k < |before|
        ensures Fits(Run(before[..k]), before[k])
      {
        assert before[..k] == steps[..k];
      }
      OrderlyTidy(before);
      hide Tidy, Fits, Apply;
      TidyStep(Run(before), steps[|steps| - 1]);
    }
  }

  /** When every request that ran a query finished after its queries and nothing failed, nothing is lost. */
  lemma OrderlyConserves(steps: seq<Step>, session: Session)
    requires Orderly(steps)
    requires forall r :: r in Run(steps).requests && r.dbQueries > 0 ==> r.fired
    ensures var doc := Document(Run(steps).log, session);
            EndpointQueries(Run(steps).log) == doc.queries - doc.unattributed
  {
    OrderlyTidy(steps);
    hide Run, Document, EndpointQueries, Orderly;
    assert AllReported(Run(steps));
    ReportedConserves(steps, session);
  }

  // ---- a late query ----

  lemma RunMore(steps: seq<Step>, step: Step)
    ensures Run(steps + [step]) == Apply(Run(steps), step)
  {
    assert (steps + [step])[..|steps|] == steps;
  }

  lemma LateLog(route: Route, operation: Operation)
    ensures Run([Dispatch(true), Finish(0, route, 200, 1, Written), QueryStart(Some(0), operation),
                 QueryEnd(0, 1, Written)]).log
            == [HttpLine(HttpRequest(route, 200, 1, 0)), DbLine(DbQuery(operation, 1, true))]
  {
    var a, b := Dispatch(true), Finish(0, route, 200, 1, Written);
    var c, d := QueryStart(Some(0), operation), QueryEnd(0, 1, Written);
    RunMore([], a);
    RunMore([a], b);
    RunMore([a, b], c);
    RunMore([a, b, c], d);
    assert [] + [a] == [a] && [a] + [b] == [a, b] && [a, b] + [c] == [a, b, c] && [a, b, c] + [d] == [a, b, c, d];
    assert Run([]) == Attached;
  }

  lemma SumsOfTwo(request: HttpRequest, query: DbQuery)
    ensures var log := [HttpLine(request), DbLine(query)];
            && SumBy(Pick(log, AsRequest), QueriesOf) == request.dbQueries
            && |Pick(log, AsQuery)| == 1 && SumBy(Pick(log, AsQuery), Attributed) == Attributed(query)
  {
    LogSums([], HttpLine(request));
    LogSums([HttpLine(request)], DbLine(query));
    assert [] + [HttpLine(request)] == [HttpLine(request)];
    assert [HttpLine(request)] + [DbLine(query)] == [HttpLine(request), DbLine(query)];
  }

  /** A query started after its request finished is attributed, yet no request event accounts for it. */
  lemma LateQueryIsMissed(route: Route, operation: Operation, session: Session)
    ensures var steps := [Dispatch(true), Finish(0, route, 200, 1, Written),
                          QueryStart(Some(0), operation), QueryEnd(0, 1, Written)];
            var doc := Document(Run(steps).log, session);
            EndpointQueries(Run(steps).log) == 0 && doc.queries - doc.unattributed == 1
  {
    hide Run, Pick, SumBy, Calls, Endpoints, Models, LagOf, Warnings;
    var request, query := HttpRequest(route, 200, 1, 0), DbQuery(operation, 1, true);
    var log := [HttpLine(request), DbLine(query)];
    LateLog(route, operation);
    SumsOfTwo(request, query);
    EndpointsConserve(Pick(log, AsRequest));
    AttributedOrNot(Pick(log, AsQuery));
  }
}
