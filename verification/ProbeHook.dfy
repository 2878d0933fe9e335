/** The HTTP and database collectors inside the host process, as steps that may interleave in any way. */
module ProbeHook {
  import opened Options
  import opened ProbeAnalysis

  /**
   * What happens when an event is handed to the log: it is appended, no log path is set, the append fails, or
   * putting the event together throws before it is handed over.
   */
  datatype Outcome = Written | NoPath | WriteFails | Throws

  datatype Step =
    | Dispatch(observable: bool)                            // a server emits `request`
    | QueryStart(context: Option<nat>, operation: Operation) // a client call runs in a request context, or in none
    | QueryEnd(query: nat, duration: int, outcome: Outcome)  // its promise settles
    | Finish(request: nat, route: Route, status: int, duration: int, outcome: Outcome) // the response finishes
    | DisableDb                                              // the database collector gives up
    | Note(line: Line, outcome: Outcome)                     // another collector records something

  /** One observed request: its store's counter and, once its event was written, the number it carried. */
  datatype RequestState = RequestState(dbQueries: nat, fired: bool, reported: Option<nat>)

  /** Whether a query is still running and, once it settled, whether its event was written. */
  datatype Fate = Pending | Recorded | Lost

  datatype QueryState = QueryState(context: Option<nat>, operation: Operation, fate: Fate)

  datatype HookState = HookState(
    requests: seq<RequestState>, queries: seq<QueryState>,
    httpDisabled: bool, dbDisabled: bool, recordable: bool, log: seq<Line>)

  const Attached: HookState := HookState([], [], false, false, true, [])

  /** `writeEvent`: the log takes the line unless recording has stopped; a failing append stops it. */
  function Write(s: HookState, line: Line, outcome: Outcome): HookState {
    if !s.recordable then s
    else if outcome.WriteFails? then s.(recordable := false)
    else if outcome.Written? then s.(log := s.log + [line])
    else s
  }

  predicate IsOther(line: Line) {
    !line.HttpLine? && !line.DbLine?
  }

  /** The effect of one step; a step that cannot happen changes nothing. */
  function Apply(s: HookState, step: Step): HookState {
    match step
    case Dispatch(observable) =>
      if s.httpDisabled || !observable then s
      else s.(requests := s.requests + [RequestState(0, false, None)])
    case QueryStart(context, operation) =>
      if s.dbDisabled || (context.Some? && context.value >= |s.requests|) then s
      else
        var counted := if context.None? then s else
          var r := s.requests[context.value];
          s.(requests := s.requests[context.value := r.(dbQueries := r.dbQueries + 1)]);
        counted.(queries := s.queries + [QueryState(context, operation, Pending)])
    case QueryEnd(query, duration, outcome) =>
      if query >= |s.queries| || !s.queries[query].fate.Pending? then s
      else
        var q := s.queries[query];
        var fate := if s.recordable && outcome.Written? then Recorded else Lost;
        var settled := s.(queries := s.queries[query := q.(fate := fate)]);
        if outcome.Throws? then settled.(dbDisabled := true)
        else Write(settled, DbLine(DbQuery(q.operation, duration, q.context.Some?)), outcome)
    case Finish(request, route, status, duration, outcome) =>
      if request >= |s.requests| || s.requests[request].fired then s
      else
        var r := s.requests[request];
        var fired := s.(requests := s.requests[request := r.(fired := true)]);
        if s.httpDisabled then fired
        else if outcome.Throws? then fired.(httpDisabled := true)
        else
          var reported := if s.recordable && outcome.Written? then Some(r.dbQueries) else None;
          Write(s.(requests := s.requests[request := RequestState(r.dbQueries, true, reported)]),
            HttpLine(HttpRequest(route, status, duration, r.dbQueries)), outcome)
    case DisableDb => s.(dbDisabled := true)
    case Note(line, outcome) => if IsOther(line) then Write(s, line, outcome) else s
  }

  function Run(steps: seq<Step>): HookState {
    if steps == [] then Attached else Apply(Run(steps[..|steps| - 1]), steps[|steps| - 1])
  }

  /** The collectors as the host process holds them: mutable stores, flags and an append-only log. */
  class Collectors {
    var counters: seq<nat>      // how many queries the store of every observed request has counted
    var fired: seq<bool>        // whether the `finish` listener of the request has run
    var queries: seq<QueryState>
    var httpDisabled: bool
    var dbDisabled: bool
    var recordable: bool
    var log: seq<Line>
    ghost var reported: seq<Option<nat>>

    ghost predicate Valid()
      reads this
    {
      |fired| == |counters| == |reported|
    }

    ghost function State(): HookState
      requires Valid()
      reads this
    {
      HookState(
        seq(|counters|, i requires 0 <= i < |counters| && Valid() reads this =>
          RequestState(counters[i], fired[i], reported[i])),
        queries, httpDisabled, dbDisabled, recordable, log)
    }

    constructor ()
      ensures Valid() && State() == Attached
    {
      counters, fired, queries, reported, log := [], [], [], [], [];
      httpDisabled, dbDisabled, recordable := false, false, true;
    }

    method WriteEvent(line: Line, outcome: Outcome)
      requires Valid()
      modifies this`recordable, this`log
      ensures Valid() && State() == Write(old(State()), line, outcome)
    {
      if !recordable || outcome.NoPath? || outcome.Throws? {
        return;
      }
      if outcome.WriteFails? {
        recordable := false;
      } else {
        log := log + [line];
      }
    }

    /** A server dispatches a request: a fresh store for every one that can be observed. */
    method EmitRequest(observable: bool) returns (context: Option<nat>)
      requires Valid()
      modifies this
      ensures Valid() && State() == Apply(old(State()), Dispatch(observable))
      ensures context.Some? ==> context.value == |old(counters)| && context.value < |counters|
    {
      if httpDisabled || !observable {
        return None;
      }
      context := Some(|counters|);
      counters, fired, reported := counters + [0], fired + [false], reported + [None];
      assert State().requests == old(State()).requests + [RequestState(0, false, None)];
    }

    /** The first half of `observe`: count the query in its store. */
    method ObserveStart(context: Option<nat>, operation: Operation)
      requires Valid() && (context.Some? ==> context.value < |counters|)
      modifies this
      ensures Valid() && State() == Apply(old(State()), QueryStart(context, operation))
    {
      if dbDisabled {
        return;
      }
      if context.Some? {
        counters := counters[context.value := counters[context.value] + 1];
        assert State().requests == old(State()).requests[context.value := State().requests[context.value]];
      }
      queries := queries + [QueryState(context, operation, Pending)];
    }

    /** The second half of `observe`: the promise settled, record the query. */
    method ObserveEnd(query: nat, duration: int, outcome: Outcome)
      requires Valid() && query < |queries| && queries[query].fate.Pending?
      modifies this
      ensures Valid() && State() == Apply(old(State()), QueryEnd(query, duration, outcome))
    {
      var q := queries[query];
      queries := queries[query := q.(fate := if recordable && outcome.Written? then Recorded else Lost)];
      if outcome.Throws? {
        dbDisabled := true;
      } else {
        WriteEvent(DbLine(DbQuery(q.operation, duration, q.context.Some?)), outcome);
      }
    }

    /** The `finish` listener of a response; it runs once. */
    method OnFinish(request: nat, route: Route, status: int, duration: int, outcome: Outcome)
      requires Valid() && request < |counters| && !fired[request]
      modifies this
      ensures Valid() && State() == Apply(old(State()), Finish(request, route, status, duration, outcome))
    {
      fired := fired[request := true];
      ghost var before := old(State()).requests;
      assert State().requests == before[request := before[request].(fired := true)];
      if httpDisabled {
        return;
      }
      if outcome.Throws? {
        httpDisabled := true;
        return;
      }
      reported := reported[request := if recordable && outcome.Written? then Some(counters[request]) else None];
      assert State().requests == before[request := RequestState(counters[request], true, reported[request])];
      WriteEvent(HttpLine(HttpRequest(route, status, duration, counters[request])), outcome);
    }

    /** One step, if it can happen. */
    method Perform(step: Step)
      requires Valid()
      modifies this
      ensures Valid() && State() == Apply(old(State()), step)
    {
      match step {
        case Dispatch(observable) =>
          var _ := EmitRequest(observable);
        case QueryStart(context, operation) =>
          if context.None? || context.value < |counters| {
            ObserveStart(context, operation);
          }
        case QueryEnd(query, duration, outcome) =>
          if query < |queries| && queries[query].fate.Pending? {
            ObserveEnd(query, duration, outcome);
          }
        case Finish(request, route, status, duration, outcome) =>
          if request < |counters| && !fired[request] {
            OnFinish(request, route, status, duration, outcome);
          }
        case DisableDb =>
          dbDisabled := true;
        case Note(line, outcome) =>
          if IsOther(line) {
            WriteEvent(line, outcome);
          }
      }
    }

    /** Whatever happens to fresh collectors, their state is the one the steps lead to. */
    method PerformAll(steps: seq<Step>)
      requires Valid() && State() == Attached
      modifies this
      ensures Valid() && State() == Run(steps)
    {
      hide Apply;
      for i := 0 to |steps|
        invariant Valid() && State() == Run(steps[..i])
      {
        assert steps[..i + 1][..i] == steps[..i];
        Perform(steps[i]);
      }
      assert steps[..|steps|] == steps;
    }
  }
}
