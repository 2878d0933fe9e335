/** The findings derived from the events of one probe session.  All durations are in thousandths of a millisecond. */
module ProbeAnalysis {
  import opened Graphs
  import opened Options
  import opened Orders
  import opened Percentiles
  import opened Tables
  import opened Tallies

  // ---- events ----

  /** Where and under which asynchronous root a blocking call happened. */
  datatype CallSite = CallSite(
    api: string, file: string, line: Option<int>, column: Option<int>, function': Option<string>, rootType: string)

  datatype BlockCall = BlockCall(site: CallSite, duration: int)

  datatype LagTotal = LagTotal(count: int, p50: int, p99: int, max: int)

  datatype LoopLag = LoopLag(pid: int, final: bool, total: LagTotal)

  datatype Route = Route(verb: string, path: string)

  datatype HttpRequest = HttpRequest(route: Route, status: int, duration: int, dbQueries: int)

  datatype Operation = Operation(model: Option<string>, action: string)

  datatype DbQuery = DbQuery(operation: Operation, duration: int, attributed: bool)

  datatype MemSample = MemSample(rss: int, heapUsed: int)

  /** One line of the event log after parsing. */
  datatype Line =
    | Malformed
    | AttachLine(pid: int)
    | BlockLine(call: BlockCall)
    | LagLine(lag: LoopLag)
    | HttpLine(request: HttpRequest)
    | DbLine(query: DbQuery)
    | MemLine(sample: MemSample)
    | GcLine(pause: int)
    | OtherLine

  // ---- findings ----

  datatype FindingsCall = FindingsCall(site: CallSite, count: int, total: int, max: int)

  datatype StatusCount = StatusCount(code: int, count: int)

  /** The running state of one endpoint. */
  datatype EndpointGroup = EndpointGroup(
    route: Route, durations: seq<int>, statuses: seq<StatusCount>, dbTotal: int, dbMax: int)

  /** `dbAverage` is in thousandths of a query. */
  datatype FindingsEndpoint = FindingsEndpoint(
    route: Route, count: int, p50: int, p99: int, max: int, statuses: seq<StatusCount>,
    dbTotal: int, dbMax: int, dbAverage: int)

  datatype FindingsDbModel = FindingsDbModel(operation: Operation, count: int)

  datatype LagSummary = LagSummary(windows: int, count: int, p50: int, p99: int, max: int)

  datatype Warning =
    | NoAttach
    | EndpointsCapped
    | PossibleNPlusOne(route: Route, max: int)
    | ModelsCapped
    | CallsCapped

  datatype MemorySummary = MemorySummary(
    samples: int, peakRss: int, peakHeapUsed: int, gcCount: int, gcTotal: int, gcMax: int)

  /** What the session was called and how its collectors were set. */
  datatype Session = Session(id: string, blockThreshold: int, lagInterval: int, n1Threshold: int)

  const TRACE_SCHEMA_VERSION := 1

  datatype Findings = Findings(
    traceSchemaVersion: int, session: Session,
    loopLag: LagSummary,
    blockingCount: int, blockingTotal: int, calls: seq<FindingsCall>,
    requests: int, endpoints: seq<FindingsEndpoint>,
    queries: int, queriesTotal: int, unattributed: int, models: seq<FindingsDbModel>,
    memory: MemorySummary,
    lines: int, malformedLines: int, attachProcesses: int,
    warnings: seq<Warning>)

  const CALLS_CAP := 50
  const ENDPOINTS_CAP := 50
  const MODELS_CAP := 50

  function Capped<T>(rows: seq<T>, cap: nat): seq<T> {
    if |rows| > cap then rows[..cap] else rows
  }

  // ---- blocking calls ----

  function MaxOr0<E>(s: seq<E>, f: E -> int): int {
    if s == [] then 0 else MaxBy(s, f)
  }

  function Bigger(a: int, b: int): int {
    if a < b then b else a
  }

  function CallDuration(e: BlockCall): int {
    e.duration
  }

  function CallRow(sel: seq<BlockCall>, site: CallSite): FindingsCall {
    FindingsCall(site, |sel|, SumBy(sel, CallDuration), MaxOr0(sel, CallDuration))
  }

  function FirstCall(e: BlockCall): FindingsCall {
    FindingsCall(e.site, 1, e.duration, e.duration)
  }

  function AddCall(row: FindingsCall, e: BlockCall): FindingsCall {
    row.(count := row.count + 1, total := row.total + e.duration, max := Bigger(row.max, e.duration))
  }

  function SiteOf(e: BlockCall): CallSite {
    e.site
  }

  /** Missing positions count as -1 and a missing name as "". */
  function NumberOr(o: Option<int>): int {
    if o.Some? then o.value else -1
  }

  function TextOr(o: Option<string>): string {
    if o.Some? then o.value else ""
  }

  /** Total descending, then file, line, column, function, root type and api ascending. */
  function CallOrder(): (FindingsCall, FindingsCall) -> bool {
    Then(ByInt((r: FindingsCall) => -r.total), SiteOrder())
  }

  function SiteOrder(): (FindingsCall, FindingsCall) -> bool {
    Then(ByString((r: FindingsCall) => r.site.file),
    Then(ByInt((r: FindingsCall) => NumberOr(r.site.line)),
    Then(ByInt((r: FindingsCall) => NumberOr(r.site.column)),
    Then(ByString((r: FindingsCall) => TextOr(r.site.function')),
    Then(ByString((r: FindingsCall) => r.site.rootType),
         ByString((r: FindingsCall) => r.site.api))))))
  }

  // ---- endpoints ----

  function StatusOf(e: HttpRequest): int {
    e.status
  }

  function StatusRow(sel: seq<HttpRequest>, code: int): StatusCount {
    StatusCount(code, |sel|)
  }

  /** Count one more response with this code; a new code is appended with count one. */
  function BumpStatus(statuses: seq<StatusCount>, code: int): seq<StatusCount> {
    if statuses == [] then [StatusCount(code, 1)]
    else if statuses[0].code == code then [StatusCount(code, statuses[0].count + 1)] + statuses[1..]
    else [statuses[0]] + BumpStatus(statuses[1..], code)
  }

  function RequestDuration(e: HttpRequest): int {
    e.duration
  }

  function Durations(sel: seq<HttpRequest>): seq<int> {
    MapSeq(sel, RequestDuration)
  }

  function QueriesOf(e: HttpRequest): int {
    e.dbQueries
  }

  function GroupRow(sel: seq<HttpRequest>, route: Route): EndpointGroup {
    EndpointGroup(route, Durations(sel), Table(sel, StatusOf, StatusRow),
      SumBy(sel, QueriesOf), MaxOr0(sel, QueriesOf))
  }

  function FirstRequest(e: HttpRequest): EndpointGroup {
    EndpointGroup(e.route, [e.duration], [StatusCount(e.status, 1)], e.dbQueries, e.dbQueries)
  }

  function AddRequest(row: EndpointGroup, e: HttpRequest): EndpointGroup {
    row.(durations := row.durations + [e.duration], statuses := BumpStatus(row.statuses, e.status),
         dbTotal := row.dbTotal + e.dbQueries, dbMax := Bigger(row.dbMax, e.dbQueries))
  }

  function RouteOf(e: HttpRequest): Route {
    e.route
  }

  function ByCode(): (StatusCount, StatusCount) -> bool {
    ByInt((s: StatusCount) => s.code)
  }

  /** The integer nearest to `total / n`, the larger one of two; 0 when there is nothing to divide by. */
  function Rounded(total: int, n: int): int {
    if n <= 0 then 0 else (2 * total + n) / (2 * n)
  }

  function Summarize(group: EndpointGroup): FindingsEndpoint {
    var durations := Sort(Less, group.durations);
    FindingsEndpoint(group.route, |durations|, NearestRank(durations, 50), NearestRank(durations, 99),
      if durations == [] then 0 else durations[|durations| - 1],
      Sort(ByCode(), group.statuses), group.dbTotal, group.dbMax, Rounded(1000 * group.dbTotal, |durations|))
  }

  function EndpointRow(sel: seq<HttpRequest>, route: Route): FindingsEndpoint {
    Summarize(GroupRow(sel, route))
  }

  /** 99th percentile descending, then method and route ascending. */
  function EndpointOrder(): (FindingsEndpoint, FindingsEndpoint) -> bool {
    Then(ByInt((r: FindingsEndpoint) => -r.p99),
    Then(ByString((r: FindingsEndpoint) => r.route.verb),
         ByString((r: FindingsEndpoint) => r.route.path)))
  }

  // ---- database models ----

  function OperationOf(e: DbQuery): Operation {
    e.operation
  }

  function ModelRow(sel: seq<DbQuery>, operation: Operation): FindingsDbModel {
    FindingsDbModel(operation, |sel|)
  }

  function FirstQuery(e: DbQuery): FindingsDbModel {
    FindingsDbModel(e.operation, 1)
  }

  function AddQuery(row: FindingsDbModel, e: DbQuery): FindingsDbModel {
    row.(count := row.count + 1)
  }

  function ModelOrder(): (FindingsDbModel, FindingsDbModel) -> bool {
    Then(ByInt((r: FindingsDbModel) => -r.count),
    Then(ByString((r: FindingsDbModel) => TextOr(r.operation.model)),
         ByString((r: FindingsDbModel) => r.operation.action)))
  }

  // ---- the sorted tables before the cap ----

  function Calls(blocks: seq<BlockCall>): seq<FindingsCall> {
    Sort(CallOrder(), Table(blocks, SiteOf, CallRow))
  }

  function Endpoints(requests: seq<HttpRequest>): seq<FindingsEndpoint> {
    Sort(EndpointOrder(), Table(requests, RouteOf, EndpointRow))
  }

  function Models(queries: seq<DbQuery>): seq<FindingsDbModel> {
    Sort(ModelOrder(), Table(queries, OperationOf, ModelRow))
  }

  // ---- the loops ----

  lemma CallsBuild()
    ensures Builds(SiteOf, CallRow, FirstCall, AddCall)
  {
    forall e: BlockCall
      ensures FirstCall(e) == CallRow([e], SiteOf(e))
    {
      SumOne(e, CallDuration);
    }
    forall sel: seq<BlockCall>, e: BlockCall | sel != []
      ensures AddCall(CallRow(sel, SiteOf(e)), e) == CallRow(sel + [e], SiteOf(e))
    {
      assert (sel + [e])[..|sel|] == sel;
    }
  }

  lemma ModelsBuild()
    ensures Builds(OperationOf, ModelRow, FirstQuery, AddQuery)
  {
  }

  lemma {:induction false} BumpFound(statuses: seq<StatusCount>, code: int, i: nat)
    requires i < |statuses| && statuses[i].code == code
    requires forall j :: 0 <= j < i ==> statuses[j].code != code
    ensures BumpStatus(statuses, code) == statuses[i := StatusCount(code, statuses[i].count + 1)]
  {
    if i > 0 {
      BumpFound(statuses[1..], code, i - 1);
    }
  }

  lemma {:induction false} BumpNew(statuses: seq<StatusCount>, code: int)
    requires forall j :: 0 <= j < |statuses| ==> statuses[j].code != code
    ensures BumpStatus(statuses, code) == statuses + [StatusCount(code, 1)]
  {
    if statuses != [] {
      BumpNew(statuses[1..], code);
    }
  }

  /** How the status table changes, row by row, with one more request. */
  lemma StatusesAfter(sel: seq<HttpRequest>, e: HttpRequest)
    ensures var p, q, keys := Table(sel, StatusOf, StatusRow), Table(sel + [e], StatusOf, StatusRow), FirstSeen(sel, StatusOf);
            && |p| == |keys| && Distinct(keys)
            && |q| == |p| + (if e.status in keys then 0 else 1)
            && (forall i :: 0 <= i < |p| ==> p[i].code == keys[i])
            && (forall i :: 0 <= i < |p| ==>
                  q[i] == if keys[i] == e.status then StatusCount(e.status, p[i].count + 1) else p[i])
            && (e.status !in keys ==> q[|p|] == StatusCount(e.status, 1))
  {
    var more := sel + [e];
    assert more[..|more| - 1] == sel;
    FirstSeenExact(sel, StatusOf);
    TableAt(sel, StatusOf, StatusRow);
    TableAt(more, StatusOf, StatusRow);
    hide Table;
    assert forall c :: |Select(more, StatusOf, c)| == |Select(sel, StatusOf, c)| + if c == e.status then 1 else 0;
    assert e.status !in FirstSeen(sel, StatusOf) ==> |Select(sel, StatusOf, e.status)| == 0;
  }

  /** Counting one more request keeps the status list the table of the requests. */
  lemma BumpTable(sel: seq<HttpRequest>, e: HttpRequest)
    ensures BumpStatus(Table(sel, StatusOf, StatusRow), e.status) == Table(sel + [e], StatusOf, StatusRow)
  {
    StatusesAfter(sel, e);
    var keys, statuses := FirstSeen(sel, StatusOf), Table(sel, StatusOf, StatusRow);
    hide Table, Select, FirstSeen, BumpStatus;
    if e.status in keys {
      var i :| 0 <= i < |keys| && keys[i] == e.status;
      BumpFound(statuses, e.status, i);
    } else {
      BumpNew(statuses, e.status);
    }
  }

  lemma DurationsPush(sel: seq<HttpRequest>, e: HttpRequest)
    ensures Durations(sel + [e]) == Durations(sel) + [e.duration]
  {
    var p, q := Durations(sel + [e]), Durations(sel) + [e.duration];
    assert |p| == |q|;
    forall i | 0 <= i < |p|
      ensures p[i] == q[i]
    {
      assert p[i] == RequestDuration((sel + [e])[i]);
    }
  }

  lemma OneRequest(e: HttpRequest)
    ensures FirstRequest(e) == GroupRow([e], RouteOf(e))
  {
    SumOne(e, QueriesOf);
    BumpTable([], e);
    assert [] + [e] == [e];
    assert Table([], StatusOf, StatusRow) == [];
    DurationsPush([], e);
  }

  lemma OneMoreRequest(sel: seq<HttpRequest>, e: HttpRequest)
    requires sel != []
    ensures AddRequest(GroupRow(sel, RouteOf(e)), e) == GroupRow(sel + [e], RouteOf(e))
  {
    BumpTable(sel, e);
    hide Table;
    assert (sel + [e])[..|sel|] == sel;
    DurationsPush(sel, e);
  }

  lemma EndpointsBuild()
    ensures Builds(RouteOf, GroupRow, FirstRequest, AddRequest)
  {
    hide FirstRequest, AddRequest, GroupRow;
    forall e: HttpRequest
      ensures FirstRequest(e) == GroupRow([e], RouteOf(e))
    {
      OneRequest(e);
    }
    forall sel: seq<HttpRequest>, e: HttpRequest | sel != []
      ensures AddRequest(GroupRow(sel, RouteOf(e)), e) == GroupRow(sel + [e], RouteOf(e))
    {
      OneMoreRequest(sel, e);
    }
  }

  method GroupCalls(blocks: seq<BlockCall>) returns (rows: seq<FindingsCall>)
    ensures rows == Calls(blocks)
  {
    CallsBuild();
    rows := Aggregate(blocks, SiteOf, FirstCall, AddCall, CallRow);
    rows := Sort(CallOrder(), rows);
  }

  method GroupModels(queries: seq<DbQuery>) returns (rows: seq<FindingsDbModel>)
    ensures rows == Models(queries)
  {
    ModelsBuild();
    rows := Aggregate(queries, OperationOf, FirstQuery, AddQuery, ModelRow);
    rows := Sort(ModelOrder(), rows);
  }

  method GroupEndpoints(requests: seq<HttpRequest>) returns (rows: seq<FindingsEndpoint>)
    ensures rows == Endpoints(requests)
  {
    EndpointsBuild();
    var groups := Aggregate(requests, RouteOf, FirstRequest, AddRequest, GroupRow);
    rows := seq(|groups|, i requires 0 <= i < |groups| => Summarize(groups[i]));
    TableAt(requests, RouteOf, GroupRow);
    TableAt(requests, RouteOf, EndpointRow);
    hide Table, Summarize, GroupRow;
    assert rows == Table(requests, RouteOf, EndpointRow);
    rows := Sort(EndpointOrder(), rows);
  }
}
