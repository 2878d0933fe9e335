/** The rows of the findings: what each of them says, which comes first, which are shown, and what is warned about. */
module FindingsRows {
  import opened FindingsProperties
  import opened FindingsTotals
  import opened Options
  import opened Orders
  import opened ProbeAnalysis
  import opened ProbeFindings
  import opened Sublists
  import opened Tables
  import opened Tallies

  // ---- which rows there are ----

  lemma {:induction false} SelectKeeps<E, K>(events: seq<E>, key: E -> K, k: K, keep: E -> bool)
    requires forall e :: keep(e) <==> key(e) == k
    ensures Keeps(events, Select(events, key, k), keep)
  {
    hide Keeps;
    if events == [] {
      KeepsNone(keep);
    } else {
      var n := |events| - 1;
      SelectKeeps(events[..n], key, k, keep);
      KeepsStep(events[..n], Select(events[..n], key, k), keep, events[n]);
      assert events == events[..n] + [events[n]];
    }
  }

  /** The rows of a sorted table: one for each key that occurs, made of the events of that key. */
  lemma RowMembers<E, K(!new), R(!new)>(events: seq<E>, key: E -> K, row: (seq<E>, K) -> R, less: (R, R) -> bool,
      tell: R -> K, r: R)
    requires WeakOrder(less) && forall sel, k :: tell(row(sel, k)) == k
    ensures r in Sort(less, Table(events, key, row))
            <==> Select(events, key, tell(r)) != [] && r == row(Select(events, key, tell(r)), tell(r))
  {
    SortIsStable(less, Table(events, key, row));
    SameElements(Table(events, key, row), Sort(less, Table(events, key, row)));
    FirstSeenExact(events, key);
    TableRows(events, key, row, r);
    hide WeakOrder, Sort, Table, FirstSeen, Select;
    if r in Table(events, key, row) {
      var k :| RowFor(events, key, row, k, r);
      assert tell(r) == k;
    }
    if Select(events, key, tell(r)) != [] && r == row(Select(events, key, tell(r)), tell(r)) {
      assert RowFor(events, key, row, tell(r), r);
    }
  }

  /** The calls of a site are counted, their durations summed, and the longest is kept. */
  ghost predicate SumsCalls(sel: seq<BlockCall>, row: FindingsCall) {
    && sel != [] && row.count == |sel| && row.total == SumBy(sel, (e: BlockCall) => e.duration)
    && (forall i :: 0 <= i < |sel| ==> sel[i].duration <= row.max)
    && exists i :: 0 <= i < |sel| && sel[i].duration == row.max
  }

  lemma CallRowSums(sel: seq<BlockCall>, site: CallSite, row: FindingsCall)
    requires sel != []
    ensures row.site == site && SumsCalls(sel, row) <==> row == CallRow(sel, site)
  {
    SameSum(sel, CallDuration, (e: BlockCall) => e.duration);
    MaxExact(sel, CallDuration);
    var max := MaxBy(sel, CallDuration);
    assert CallRow(sel, site) == FindingsCall(site, |sel|, SumBy(sel, CallDuration), max);
    hide SumBy, MaxBy, CallRow;
    var e :| e in sel && CallDuration(e) == max;
    var i :| 0 <= i < |sel| && sel[i] == e;
    assert sel[i].duration == max;
    forall k | 0 <= k < |sel|
      ensures sel[k].duration <= max
    {
      assert sel[k] in sel && CallDuration(sel[k]) <= max;
    }
    assert SumsCalls(sel, CallRow(sel, site));
    if SumsCalls(sel, row) {
      var j :| 0 <= j < |sel| && sel[j].duration == row.max;
      assert sel[j] in sel;
    }
  }

  ghost predicate CallsAt(blocks: seq<BlockCall>, site: CallSite, sel: seq<BlockCall>) {
    Keeps(blocks, sel, (e: BlockCall) => e.site == site)
  }

  lemma CallsAtExactly(blocks: seq<BlockCall>, site: CallSite, sel: seq<BlockCall>)
    ensures CallsAt(blocks, site, sel) <==> sel == Select(blocks, SiteOf, site)
  {
    hide Keeps;
    SelectKeeps(blocks, SiteOf, site, (e: BlockCall) => e.site == site);
    if CallsAt(blocks, site, sel) {
      KeepsUnique(blocks, sel, Select(blocks, SiteOf, site), (e: BlockCall) => e.site == site);
    }
  }

  /** The call rows are exactly the sums over the calls of one site. */
  lemma CallRows(blocks: seq<BlockCall>, row: FindingsCall)
    ensures row in Calls(blocks) <==> exists sel :: CallsAt(blocks, row.site, sel) && SumsCalls(sel, row)
  {
    CallOrderTies();
    hide WeakOrder, CallOrder, CallsAt, Keeps, Sort, Table, Select, SumsCalls;
    RowMembers(blocks, SiteOf, CallRow, CallOrder(), (r: FindingsCall) => r.site, row);
    var own := Select(blocks, SiteOf, row.site);
    CallsAtExactly(blocks, row.site, own);
    if own != [] {
      CallRowSums(own, row.site, row);
    }
    if sel :| CallsAt(blocks, row.site, sel) && SumsCalls(sel, row) {
      CallsAtExactly(blocks, row.site, sel);
      NoCallNoRow(sel, row);
    }
  }

  lemma NoCallNoRow(sel: seq<BlockCall>, row: FindingsCall)
    requires SumsCalls(sel, row)
    ensures sel != []
  {
  }

  /** The model rows are exactly the numbers of queries of one operation. */
  lemma ModelRows(queries: seq<DbQuery>, row: FindingsDbModel)
    ensures row in Models(queries) <==> exists sel ::
              Keeps(queries, sel, (e: DbQuery) => e.operation == row.operation) && sel != [] && row.count == |sel|
  {
    var same := (e: DbQuery) => e.operation == row.operation;
    ModelOrderTies();
    hide WeakOrder, ModelOrder, Keeps, Sort, Table, Select;
    RowMembers(queries, OperationOf, ModelRow, ModelOrder(), (r: FindingsDbModel) => r.operation, row);
    var own := Select(queries, OperationOf, row.operation);
    SelectKeeps(queries, OperationOf, row.operation, same);
    if sel :| Keeps(queries, sel, same) && sel != [] && row.count == |sel| {
      KeepsUnique(queries, sel, own, same);
    }
  }

  // ---- endpoints ----

  /** Every status code that occurs, once and in ascending order, with the number of its requests. */
  ghost predicate CountsStatuses(sel: seq<HttpRequest>, statuses: seq<StatusCount>) {
    && (forall i, j :: 0 <= i < j < |statuses| ==> statuses[i].code < statuses[j].code)
    && (forall i :: 0 <= i < |statuses| ==> HasStatus(sel, statuses[i]))
    && forall i :: 0 <= i < |sel| ==> exists s :: s in statuses && s.code == sel[i].status
  }

  ghost predicate HasStatus(sel: seq<HttpRequest>, s: StatusCount) {
    exists own :: Keeps(sel, own, (e: HttpRequest) => e.status == s.code) && own != [] && s.count == |own|
  }

  lemma StatusesCounted(sel: seq<HttpRequest>)
    ensures CountsStatuses(sel, Sort(ByCode(), Table(sel, StatusOf, StatusRow)))
  {
    ByIntOrder((s: StatusCount) => s.code);
    var statuses := Sort(ByCode(), Table(sel, StatusOf, StatusRow));
    hide WeakOrder, Sort, Table, Select, FirstSeen, Keeps;
    SortedTable(sel, StatusOf, StatusRow, ByCode());
    assert forall i, j :: 0 <= i < j < |statuses| ==> statuses[i].code < statuses[j].code;
    forall i | 0 <= i < |statuses|
      ensures HasStatus(sel, statuses[i])
    {
      assert statuses[i] in statuses;
      RowMembers(sel, StatusOf, StatusRow, ByCode(), (s: StatusCount) => s.code, statuses[i]);
      SelectKeeps(sel, StatusOf, statuses[i].code, (e: HttpRequest) => e.status == statuses[i].code);
    }
    forall i | 0 <= i < |sel|
      ensures exists s :: s in statuses && s.code == sel[i].status
    {
      var own := Select(sel, StatusOf, sel[i].status);
      SelectExact(sel, StatusOf, sel[i].status);
      assert sel[i] in own;
      RowMembers(sel, StatusOf, StatusRow, ByCode(), (s: StatusCount) => s.code, StatusRow(own, sel[i].status));
    }
  }

  /** The row of an endpoint, from its requests and their durations. */
  ghost predicate SumsRequests(sel: seq<HttpRequest>, samples: seq<int>, row: FindingsEndpoint) {
    && sel != [] && row.count == |sel| == |samples|
    && (forall i :: 0 <= i < |sel| ==> samples[i] == sel[i].duration)
    && IsPercentile(samples, 50, row.p50) && IsPercentile(samples, 99, row.p99)
    && row.max in samples && (forall d :: d in samples ==> d <= row.max)
    && CountsStatuses(sel, row.statuses)
    && row.dbTotal == SumBy(sel, (e: HttpRequest) => e.dbQueries)
    && (forall i :: 0 <= i < |sel| ==> sel[i].dbQueries <= row.dbMax)
    && (exists i :: 0 <= i < |sel| && sel[i].dbQueries == row.dbMax)
    && IsRounded(1000 * row.dbTotal, |sel|, row.dbAverage)
  }

  ghost predicate RequestsAt(requests: seq<HttpRequest>, route: Route, sel: seq<HttpRequest>) {
    Keeps(requests, sel, (e: HttpRequest) => e.route == route)
  }

  lemma RequestsAtExactly(requests: seq<HttpRequest>, route: Route, sel: seq<HttpRequest>)
    ensures RequestsAt(requests, route, sel) <==> sel == RequestsTo(requests, route)
  {
    hide Keeps;
    SelectKeeps(requests, RouteOf, route, (e: HttpRequest) => e.route == route);
    if RequestsAt(requests, route, sel) {
      KeepsUnique(requests, sel, RequestsTo(requests, route), (e: HttpRequest) => e.route == route);
    }
  }

  /** Every endpoint row describes exactly the requests to its route, and every route of the log has such a row. */
  lemma EndpointRows(requests: seq<HttpRequest>, row: FindingsEndpoint, sel: seq<HttpRequest>)
    requires RequestsAt(requests, row.route, sel)
    ensures row in Endpoints(requests) ==> exists samples :: SumsRequests(sel, samples, row)
    ensures sel != [] ==> exists r :: r in Endpoints(requests) && r.route == row.route
  {
    RequestsAtExactly(requests, row.route, sel);
    hide RequestsAt, Select, CountsStatuses;
    EndpointIsRow(requests, row);
    if row in Endpoints(requests) {
      EndpointPercentiles(requests, row);
      StatusesCounted(sel);
      assert row.statuses == Sort(ByCode(), Table(sel, StatusOf, StatusRow));
      assert row.dbAverage == Rounded(1000 * row.dbTotal, |sel|);
      hide Endpoints, IsPercentile, MaxBy, SumBy, EndpointRow, Durations, Rounded;
      RowSumsRequests(sel, row);
    }
    if sel != [] {
      EndpointIsRow(requests, EndpointRow(sel, row.route));
    }
  }

  lemma RowSumsRequests(sel: seq<HttpRequest>, row: FindingsEndpoint)
    requires sel != [] && row.count == |sel|
    requires IsPercentile(Durations(sel), 50, row.p50) && IsPercentile(Durations(sel), 99, row.p99)
    requires row.max in Durations(sel) && forall d :: d in Durations(sel) ==> d <= row.max
    requires row.dbTotal == SumBy(sel, QueriesOf) && row.dbMax == MaxBy(sel, QueriesOf)
    requires CountsStatuses(sel, row.statuses) && row.dbAverage == Rounded(1000 * row.dbTotal, |sel|)
    ensures SumsRequests(sel, Durations(sel), row)
  {
    hide SumBy, MaxBy, IsPercentile, CountsStatuses, Rounded, IsRounded, Durations;
    DurationsAt(sel);
    SameSum(sel, QueriesOf, (e: HttpRequest) => e.dbQueries);
    MostQueries(sel);
    RoundedIsNearest(1000 * row.dbTotal, |sel|);
  }

  lemma DurationsAt(sel: seq<HttpRequest>)
    ensures |Durations(sel)| == |sel| && forall i :: 0 <= i < |sel| ==> Durations(sel)[i] == sel[i].duration
  {
    forall i | 0 <= i < |sel|
      ensures Durations(sel)[i] == sel[i].duration
    {
      assert Durations(sel)[i] == RequestDuration(sel[i]);
    }
  }

  lemma MostQueries(sel: seq<HttpRequest>)
    requires sel != []
    ensures forall i :: 0 <= i < |sel| ==> sel[i].dbQueries <= MaxBy(sel, QueriesOf)
    ensures exists i :: 0 <= i < |sel| && sel[i].dbQueries == MaxBy(sel, QueriesOf)
  {
    var most := MaxBy(sel, QueriesOf);
    MaxExact(sel, QueriesOf);
    hide MaxBy;
    var e :| e in sel && QueriesOf(e) == most;
    var i :| 0 <= i < |sel| && sel[i] == e;
    assert sel[i].dbQueries == most;
    forall k | 0 <= k < |sel|
      ensures sel[k].dbQueries <= most
    {
      assert sel[k] in sel && QueriesOf(sel[k]) <= most;
    }
  }

  // ---- which row comes first ----

  ghost function ReadNumber(o: Option<int>): int {
    match o case None => -1 case Some(n) => n
  }

  ghost function ReadText(o: Option<string>): string {
    match o case None => "" case Some(text) => text
  }

  /** By file, line, column, function, asynchronous root and api; what is missing reads as -1 or as the empty text. */
  ghost predicate SiteBefore(p: CallSite, q: CallSite) {
    || Precedes(p.file, q.file)
    || (p.file == q.file && ReadNumber(p.line) < ReadNumber(q.line))
    || (p.file == q.file && ReadNumber(p.line) == ReadNumber(q.line) && BeforeOnLine(p, q))
  }

  ghost predicate BeforeOnLine(p: CallSite, q: CallSite) {
    || ReadNumber(p.column) < ReadNumber(q.column)
    || (ReadNumber(p.column) == ReadNumber(q.column) && BeforeAtColumn(p, q))
  }

  ghost predicate BeforeAtColumn(p: CallSite, q: CallSite) {
    var f, g := ReadText(p.function'), ReadText(q.function');
    || Precedes(f, g)
    || (f == g && Precedes(p.rootType, q.rootType))
    || (f == g && p.rootType == q.rootType && Precedes(p.api, q.api))
  }

  /** The larger total first, then by site. */
  ghost predicate CalledBefore(a: FindingsCall, b: FindingsCall) {
    a.total > b.total || (a.total == b.total && SiteBefore(a.site, b.site))
  }

  lemma TextsInOrder(a: string, b: string)
    ensures StringLess(a, b) <==> Precedes(a, b)
    ensures StringLess(b, a) <==> Precedes(b, a)
    ensures !StringLess(a, b) && !StringLess(b, a) <==> a == b
    ensures !(StringLess(a, b) && StringLess(b, a))
  {
    StringLessIsLexicographic(a, b);
    StringLessIsLexicographic(b, a);
    StringLessTotal(a, b);
    StringLessTotal(b, a);
  }

  lemma CallOrderOnFields(a: FindingsCall, b: FindingsCall)
    ensures CallOrder()(a, b) <==> CalledBefore(a, b)
  {
    TextsInOrder(a.site.file, b.site.file);
    TextsInOrder(TextOr(a.site.function'), TextOr(b.site.function'));
    TextsInOrder(a.site.rootType, b.site.rootType);
    TextsInOrder(a.site.api, b.site.api);
    hide StringLess, Precedes;
  }

  /** The larger 99th percentile first, then by method and route. */
  ghost predicate SlowerBefore(a: FindingsEndpoint, b: FindingsEndpoint) {
    || a.p99 > b.p99
    || (a.p99 == b.p99 && Precedes(a.route.verb, b.route.verb))
    || (a.p99 == b.p99 && a.route.verb == b.route.verb && Precedes(a.route.path, b.route.path))
  }

  lemma EndpointOrderOnFields(a: FindingsEndpoint, b: FindingsEndpoint)
    ensures EndpointOrder()(a, b) <==> SlowerBefore(a, b)
  {
    TextsInOrder(a.route.verb, b.route.verb);
    TextsInOrder(a.route.path, b.route.path);
    hide StringLess, Precedes;
  }

  /** The larger count first, then by model and action. */
  ghost predicate OftenBefore(a: FindingsDbModel, b: FindingsDbModel) {
    var m, n := ReadText(a.operation.model), ReadText(b.operation.model);
    || a.count > b.count
    || (a.count == b.count && Precedes(m, n))
    || (a.count == b.count && m == n && Precedes(a.operation.action, b.operation.action))
  }

  lemma ModelOrderOnFields(a: FindingsDbModel, b: FindingsDbModel)
    ensures ModelOrder()(a, b) <==> OftenBefore(a, b)
  {
    TextsInOrder(TextOr(a.operation.model), TextOr(b.operation.model));
    TextsInOrder(a.operation.action, b.operation.action);
    hide StringLess, Precedes;
  }

  // ---- which rows are shown ----

  /** At most the first fifty. */
  ghost predicate Shown<R>(rows: seq<R>, shown: seq<R>) {
    (|rows| <= 50 ==> shown == rows) && (|rows| > 50 ==> shown == rows[..50])
  }

  lemma CappedAtFifty<R>(rows: seq<R>)
    ensures Shown(rows, Capped(rows, CALLS_CAP)) && Shown(rows, Capped(rows, ENDPOINTS_CAP))
    ensures Shown(rows, Capped(rows, MODELS_CAP))
  {
  }

  lemma CallsInOrder(blocks: seq<BlockCall>)
    ensures var rows := Calls(blocks); forall i, j :: 0 <= i < j < |rows| ==> !CalledBefore(rows[j], rows[i])
  {
    var rows := Calls(blocks);
    CallOrderTies();
    SortIsStable(CallOrder(), Table(blocks, SiteOf, CallRow));
    hide WeakOrder, CallOrder, Sort, Table, CalledBefore;
    forall i, j | 0 <= i < j < |rows|
      ensures !CalledBefore(rows[j], rows[i])
    {
      CallOrderOnFields(rows[j], rows[i]);
    }
  }

  lemma EndpointsInOrder(requests: seq<HttpRequest>)
    ensures var rows := Endpoints(requests); forall i, j :: 0 <= i < j < |rows| ==> !SlowerBefore(rows[j], rows[i])
  {
    var rows := Endpoints(requests);
    EndpointOrderTies();
    SortIsStable(EndpointOrder(), Table(requests, RouteOf, EndpointRow));
    hide WeakOrder, EndpointOrder, Sort, Table, SlowerBefore;
    forall i, j | 0 <= i < j < |rows|
      ensures !SlowerBefore(rows[j], rows[i])
    {
      EndpointOrderOnFields(rows[j], rows[i]);
    }
  }

  lemma ModelsInOrder(queries: seq<DbQuery>)
    ensures var rows := Models(queries); forall i, j :: 0 <= i < j < |rows| ==> !OftenBefore(rows[j], rows[i])
  {
    var rows := Models(queries);
    ModelOrderTies();
    SortIsStable(ModelOrder(), Table(queries, OperationOf, ModelRow));
    hide WeakOrder, ModelOrder, Sort, Table, OftenBefore;
    forall i, j | 0 <= i < j < |rows|
      ensures !OftenBefore(rows[j], rows[i])
    {
      ModelOrderOnFields(rows[j], rows[i]);
    }
  }

  /** The calls of a document: in order, at most fifty, and none behind the cap has a larger total than one shown. */
  lemma CallsShown(lines: seq<Line>, session: Session)
    ensures var rows, doc := Calls(Pick(lines, AsBlock)), Document(lines, session);
            && Shown(rows, doc.calls)
            && (forall i, j :: 0 <= i < j < |rows| ==> !CalledBefore(rows[j], rows[i]))
            && forall i, j :: 0 <= i < |doc.calls| <= j < |rows| ==> rows[j].total <= doc.calls[i].total
  {
    CappedAtFifty(Calls(Pick(lines, AsBlock)));
    CallsInOrder(Pick(lines, AsBlock));
    hide Pick, Calls, Endpoints, Models, Warnings, LagOf, MemoryOf, SumBy, Table, Capped, SiteBefore, Precedes;
  }

  /** The endpoints of a document: in order, at most fifty, and none behind the cap is slower than one shown. */
  lemma EndpointsShown(lines: seq<Line>, session: Session)
    ensures var rows, doc := Endpoints(Pick(lines, AsRequest)), Document(lines, session);
            && Shown(rows, doc.endpoints)
            && (forall i, j :: 0 <= i < j < |rows| ==> !SlowerBefore(rows[j], rows[i]))
            && forall i, j :: 0 <= i < |doc.endpoints| <= j < |rows| ==> rows[j].p99 <= doc.endpoints[i].p99
  {
    CappedAtFifty(Endpoints(Pick(lines, AsRequest)));
    EndpointsInOrder(Pick(lines, AsRequest));
    hide Pick, Calls, Endpoints, Models, Warnings, LagOf, MemoryOf, SumBy, Table, Capped, SiteBefore, Precedes;
  }

  /** The models of a document: in order, at most fifty, and none behind the cap is queried more than one shown. */
  lemma ModelsShown(lines: seq<Line>, session: Session)
    ensures var rows, doc := Models(Pick(lines, AsQuery)), Document(lines, session);
            && Shown(rows, doc.models)
            && (forall i, j :: 0 <= i < j < |rows| ==> !OftenBefore(rows[j], rows[i]))
            && forall i, j :: 0 <= i < |doc.models| <= j < |rows| ==> rows[j].count <= doc.models[i].count
  {
    CappedAtFifty(Models(Pick(lines, AsQuery)));
    ModelsInOrder(Pick(lines, AsQuery));
    hide Pick, Calls, Endpoints, Models, Warnings, LagOf, MemoryOf, SumBy, Table, Capped, SiteBefore, Precedes;
  }

  // ---- what is warned about ----

  /** One warning for each of the endpoints. */
  ghost predicate WarnAbout(kept: seq<FindingsEndpoint>, warnings: seq<Warning>) {
    && |warnings| == |kept|
    && forall i :: 0 <= i < |kept| ==> warnings[i] == PossibleNPlusOne(kept[i].route, kept[i].dbMax)
  }

  ghost predicate AreNPlusOnes(endpoints: seq<FindingsEndpoint>, threshold: int, warnings: seq<Warning>) {
    exists kept: seq<FindingsEndpoint> :: WarnAbout(kept, warnings)
      && Keeps(endpoints, kept, (e: FindingsEndpoint) => e.dbMax >= threshold)
  }

  lemma NPlusOnesStep(endpoints: seq<FindingsEndpoint>, threshold: int, warnings: seq<Warning>, e: FindingsEndpoint)
    requires AreNPlusOnes(endpoints, threshold, warnings)
    ensures AreNPlusOnes(endpoints + [e], threshold,
              if e.dbMax >= threshold then warnings + [PossibleNPlusOne(e.route, e.dbMax)] else warnings)
  {
    var keep := (e: FindingsEndpoint) => e.dbMax >= threshold;
    hide Keeps;
    var kept: seq<FindingsEndpoint> :| WarnAbout(kept, warnings) && Keeps(endpoints, kept, keep);
    KeepsStep(endpoints, kept, keep, e);
    assert WarnAbout(kept + [e], warnings + [PossibleNPlusOne(e.route, e.dbMax)]);
  }

  lemma NoNPlusOnes(threshold: int)
    ensures AreNPlusOnes([], threshold, [])
  {
    hide Keeps;
    KeepsNone((e: FindingsEndpoint) => e.dbMax >= threshold);
    assert WarnAbout([], []);
  }

  lemma {:induction false} NPlusOnesInOrder(endpoints: seq<FindingsEndpoint>, threshold: int)
    ensures AreNPlusOnes(endpoints, threshold, NPlusOnes(endpoints, threshold))
  {
    hide AreNPlusOnes;
    if endpoints == [] {
      NoNPlusOnes(threshold);
    } else {
      var n := |endpoints| - 1;
      NPlusOnesInOrder(endpoints[..n], threshold);
      NPlusOnesStep(endpoints[..n], threshold, NPlusOnes(endpoints[..n], threshold), endpoints[n]);
      assert endpoints == endpoints[..n] + [endpoints[n]];
    }
  }

  /** Whether some process attached. */
  ghost predicate Attached(lines: seq<Line>) {
    exists i :: 0 <= i < |lines| && lines[i].AttachLine?
  }

  lemma AttachedIsPid(lines: seq<Line>)
    ensures Attached(lines) <==> PidSet(Pick(lines, AsAttach)) != {}
  {
    var pids := Pick(lines, AsAttach);
    hide Pick;
    if pids != [] {
      assert pids[0] in PidSet(pids);
      AttachedExactly(lines, pids[0]);
      var i :| 0 <= i < |lines| && lines[i] == AttachLine(pids[0]);
    } else if Attached(lines) {
      var i :| 0 <= i < |lines| && lines[i].AttachLine?;
      AttachedExactly(lines, lines[i].pid);
    }
  }

  /**
   * The warnings of a document, in this order: no process attached, endpoints capped, the possible N+1 among all
   * endpoints, models capped, calls capped.
   */
  lemma WarningsInOrder(lines: seq<Line>, session: Session)
    ensures exists many :: AreNPlusOnes(Endpoints(Pick(lines, AsRequest)), session.n1Threshold, many)
              && Document(lines, session).warnings
                 == (if Attached(lines) then [] else [NoAttach])
                    + ((if |Endpoints(Pick(lines, AsRequest))| > 50 then [EndpointsCapped] else []) + many
                       + (if |Models(Pick(lines, AsQuery))| > 50 then [ModelsCapped] else []))
                    + (if |Calls(Pick(lines, AsBlock))| > 50 then [CallsCapped] else [])
  {
    var endpoints := Endpoints(Pick(lines, AsRequest));
    hide Pick, Calls, Endpoints, Models, LagOf, MemoryOf, AreNPlusOnes, NPlusOnes, Attached, Capped, SumBy, Table;
    NPlusOnesInOrder(endpoints, session.n1Threshold);
    AttachedIsPid(lines);
    var many := NPlusOnes(endpoints, session.n1Threshold);
    assert Document(lines, session).warnings
        == (if Attached(lines) then [] else [NoAttach])
           + ((if |Endpoints(Pick(lines, AsRequest))| > 50 then [EndpointsCapped] else []) + many
              + (if |Models(Pick(lines, AsQuery))| > 50 then [ModelsCapped] else []))
           + (if |Calls(Pick(lines, AsBlock))| > 50 then [CallsCapped] else []);
  }
}
