/** What the findings conserve, and what they do not depend on. */
module FindingsProperties {
  import opened Options
  import opened Orders
  import opened Percentiles
  import opened ProbeAnalysis
  import opened ProbeFindings
  import opened Tables
  import opened Tallies

  // ---- the orders of the tables ----

  lemma SiteOrderTies()
    ensures WeakOrder(SiteOrder())
    ensures forall a, b :: Tied(SiteOrder(), a, b) <==>
      && a.site.file == b.site.file && NumberOr(a.site.line) == NumberOr(b.site.line)
      && NumberOr(a.site.column) == NumberOr(b.site.column)
      && TextOr(a.site.function') == TextOr(b.site.function')
      && a.site.rootType == b.site.rootType && a.site.api == b.site.api
  {
    var byFile := ByString((r: FindingsCall) => r.site.file);
    var byLine := ByInt((r: FindingsCall) => NumberOr(r.site.line));
    var byColumn := ByInt((r: FindingsCall) => NumberOr(r.site.column));
    var byFunction := ByString((r: FindingsCall) => TextOr(r.site.function'));
    var byRoot := ByString((r: FindingsCall) => r.site.rootType);
    var byApi := ByString((r: FindingsCall) => r.site.api);
    ByStringOrder((r: FindingsCall) => r.site.file);
    ByIntOrder((r: FindingsCall) => NumberOr(r.site.line));
    ByIntOrder((r: FindingsCall) => NumberOr(r.site.column));
    ByStringOrder((r: FindingsCall) => TextOr(r.site.function'));
    ByStringOrder((r: FindingsCall) => r.site.rootType);
    ByStringOrder((r: FindingsCall) => r.site.api);
    hide WeakOrder, ByInt, ByString, Then;
    var o1 := Then(byRoot, byApi);
    ThenOrder(byRoot, byApi);
    var o2 := Then(byFunction, o1);
    ThenOrder(byFunction, o1);
    var o3 := Then(byColumn, o2);
    ThenOrder(byColumn, o2);
    var o4 := Then(byLine, o3);
    ThenOrder(byLine, o3);
    ThenOrder(byFile, o4);
    assert SiteOrder() == Then(byFile, o4);
  }

  lemma CallOrderTies()
    ensures WeakOrder(CallOrder())
    ensures forall a, b :: Tied(CallOrder(), a, b) <==> a.total == b.total && Tied(SiteOrder(), a, b)
  {
    var byTotal := ByInt((r: FindingsCall) => -r.total);
    ByIntOrder((r: FindingsCall) => -r.total);
    SiteOrderTies();
    hide WeakOrder, ByInt, Then, SiteOrder;
    ThenOrder(byTotal, SiteOrder());
    assert CallOrder() == Then(byTotal, SiteOrder());
  }

  lemma EndpointOrderTies()
    ensures WeakOrder(EndpointOrder())
    ensures forall a, b :: Tied(EndpointOrder(), a, b) <==> a.p99 == b.p99 && a.route == b.route
  {
    var byP99 := ByInt((r: FindingsEndpoint) => -r.p99);
    var byVerb := ByString((r: FindingsEndpoint) => r.route.verb);
    var byPath := ByString((r: FindingsEndpoint) => r.route.path);
    ByIntOrder((r: FindingsEndpoint) => -r.p99);
    ByStringOrder((r: FindingsEndpoint) => r.route.verb);
    ByStringOrder((r: FindingsEndpoint) => r.route.path);
    hide WeakOrder, ByInt, ByString, Then;
    ThenOrder(byVerb, byPath);
    ThenOrder(byP99, Then(byVerb, byPath));
    assert EndpointOrder() == Then(byP99, Then(byVerb, byPath));
  }

  lemma ModelOrderTies()
    ensures WeakOrder(ModelOrder())
    ensures forall a, b :: Tied(ModelOrder(), a, b) <==>
      a.count == b.count && TextOr(a.operation.model) == TextOr(b.operation.model) && a.operation.action == b.operation.action
  {
    var byCount := ByInt((r: FindingsDbModel) => -r.count);
    var byModel := ByString((r: FindingsDbModel) => TextOr(r.operation.model));
    var byAction := ByString((r: FindingsDbModel) => r.operation.action);
    ByIntOrder((r: FindingsDbModel) => -r.count);
    ByStringOrder((r: FindingsDbModel) => TextOr(r.operation.model));
    ByStringOrder((r: FindingsDbModel) => r.operation.action);
    hide WeakOrder, ByInt, ByString, Then;
    ThenOrder(byModel, byAction);
    ThenOrder(byCount, Then(byModel, byAction));
    assert ModelOrder() == Then(byCount, Then(byModel, byAction));
  }

  // ---- conservation ----

  lemma {:induction false} SumOfOnes<E>(s: seq<E>, one: E -> int)
    requires forall e :: one(e) == 1
    ensures SumBy(s, one) == |s|
  {
    if s != [] {
      SumOfOnes(s[..|s| - 1], one);
    }
  }

  /** Before the cap the call rows account for every blocking call and all of its time. */
  lemma CallsConserve(blocks: seq<BlockCall>)
    ensures SumBy(Calls(blocks), (r: FindingsCall) => r.count) == |blocks|
    ensures SumBy(Calls(blocks), (r: FindingsCall) => r.total) == SumBy(blocks, CallDuration)
  {
    var count, total, one := (r: FindingsCall) => r.count, (r: FindingsCall) => r.total, (e: BlockCall) => 1;
    forall k
      ensures count(CallRow(Select(blocks, SiteOf, k), k)) == SumBy(Select(blocks, SiteOf, k), one)
    {
      SumOfOnes(Select(blocks, SiteOf, k), one);
    }
    SumOfOnes(blocks, one);
    CallOrderTies();
    hide WeakOrder, SumBy, Select, CallOrder;
    TableConserves(blocks, SiteOf, CallRow, count, one);
    TableConserves(blocks, SiteOf, CallRow, total, CallDuration);
    SortedSum(CallOrder(), Table(blocks, SiteOf, CallRow), count);
    SortedSum(CallOrder(), Table(blocks, SiteOf, CallRow), total);
  }

  lemma EndpointCounts(sel: seq<HttpRequest>, route: Route)
    ensures EndpointRow(sel, route).count == |sel| && EndpointRow(sel, route).dbTotal == SumBy(sel, QueriesOf)
  {
    SortedIsAscending(Durations(sel));
    assert |Sort(Less, Durations(sel))| == |multiset(Durations(sel))|;
  }

  /** Before the cap the endpoint rows account for every request and every query counted in one. */
  lemma EndpointsConserve(requests: seq<HttpRequest>)
    ensures SumBy(Endpoints(requests), (r: FindingsEndpoint) => r.count) == |requests|
    ensures SumBy(Endpoints(requests), (r: FindingsEndpoint) => r.dbTotal) == SumBy(requests, QueriesOf)
  {
    var count, total, one := (r: FindingsEndpoint) => r.count, (r: FindingsEndpoint) => r.dbTotal, (e: HttpRequest) => 1;
    forall k
      ensures count(EndpointRow(Select(requests, RouteOf, k), k)) == SumBy(Select(requests, RouteOf, k), one)
      ensures total(EndpointRow(Select(requests, RouteOf, k), k)) == SumBy(Select(requests, RouteOf, k), QueriesOf)
    {
      SumOfOnes(Select(requests, RouteOf, k), one);
      EndpointCounts(Select(requests, RouteOf, k), k);
    }
    SumOfOnes(requests, one);
    EndpointOrderTies();
    hide WeakOrder, SumBy, Select, EndpointOrder, EndpointRow;
    TableConserves(requests, RouteOf, EndpointRow, count, one);
    TableConserves(requests, RouteOf, EndpointRow, total, QueriesOf);
    SortedSum(EndpointOrder(), Table(requests, RouteOf, EndpointRow), count);
    SortedSum(EndpointOrder(), Table(requests, RouteOf, EndpointRow), total);
  }

  /** The status counts of an endpoint add up to its requests. */
  lemma StatusesConserve(sel: seq<HttpRequest>, route: Route)
    ensures SumBy(EndpointRow(sel, route).statuses, (s: StatusCount) => s.count) == EndpointRow(sel, route).count
  {
    var count, one := (s: StatusCount) => s.count, (e: HttpRequest) => 1;
    forall c
      ensures count(StatusRow(Select(sel, StatusOf, c), c)) == SumBy(Select(sel, StatusOf, c), one)
    {
      SumOfOnes(Select(sel, StatusOf, c), one);
    }
    SumOfOnes(sel, one);
    EndpointCounts(sel, route);
    ByIntOrder((s: StatusCount) => s.code);
    hide WeakOrder, SumBy, Select;
    TableConserves(sel, StatusOf, StatusRow, count, one);
    SortedSum(ByCode(), Table(sel, StatusOf, StatusRow), count);
  }

  /** Before the cap the model rows account for every query. */
  lemma ModelsConserve(queries: seq<DbQuery>)
    ensures SumBy(Models(queries), (r: FindingsDbModel) => r.count) == |queries|
  {
    var count, one := (r: FindingsDbModel) => r.count, (e: DbQuery) => 1;
    forall k
      ensures count(ModelRow(Select(queries, OperationOf, k), k)) == SumBy(Select(queries, OperationOf, k), one)
    {
      SumOfOnes(Select(queries, OperationOf, k), one);
    }
    SumOfOnes(queries, one);
    ModelOrderTies();
    hide WeakOrder, SumBy, Select, ModelOrder;
    TableConserves(queries, OperationOf, ModelRow, count, one);
    SortedSum(ModelOrder(), Table(queries, OperationOf, ModelRow), count);
  }

  // ---- independence of the order of events ----

  /** Positions are not negative and names are not empty, so that a missing one stands apart. */
  predicate WellFormedSite(site: CallSite) {
    && (site.line.Some? ==> site.line.value >= 0)
    && (site.column.Some? ==> site.column.value >= 0)
    && (site.function'.Some? ==> site.function'.value != "")
  }

  /** Reordered well-formed events give the same call rows. */
  lemma CallsOrderFree(a: seq<BlockCall>, b: seq<BlockCall>)
    requires multiset(a) == multiset(b) && forall e :: e in a ==> WellFormedSite(e.site)
    ensures Calls(a) == Calls(b)
  {
    hide Select, Calls;
    CallsOrderFreeExactly(a);
    assert SitesTell(a);
  }

  lemma CallRowOrderFree(p: seq<BlockCall>, q: seq<BlockCall>, site: CallSite)
    requires multiset(p) == multiset(q)
    ensures CallRow(p, site) == CallRow(q, site)
  {
    assert |p| == |multiset(p)| == |multiset(q)| == |q|;
    SumPermutation(p, q, CallDuration);
    if p != [] {
      MaxPermutation(p, q, CallDuration);
    }
  }

  /** The comparison of two sites cannot tell a missing position from -1 or a missing name from "". */
  predicate LooksLike(a: CallSite, b: CallSite) {
    && a.file == b.file && NumberOr(a.line) == NumberOr(b.line) && NumberOr(a.column) == NumberOr(b.column)
    && TextOr(a.function') == TextOr(b.function') && a.rootType == b.rootType && a.api == b.api
  }

  /** Different sites of the log that look alike at least differ in their total. */
  ghost predicate SitesTell(blocks: seq<BlockCall>) {
    forall e, f :: e in blocks && f in blocks && e.site != f.site && LooksLike(e.site, f.site) ==>
      SumBy(Select(blocks, SiteOf, e.site), CallDuration) != SumBy(Select(blocks, SiteOf, f.site), CallDuration)
  }

  /** The call rows forget the order of the log exactly when the sites of the log can be told apart. */
  lemma CallsOrderFreeExactly(blocks: seq<BlockCall>)
    ensures (forall b :: multiset(b) == multiset(blocks) ==> Calls(b) == Calls(blocks)) <==> SitesTell(blocks)
  {
    CallOrderTies();
    CallRowsTell();
    hide WeakOrder, CallOrder, Sort, Table, RowsTell, Separates, SitesTell;
    OrderFreeExactly(blocks, SiteOf, CallRow, CallOrder());
    SeparatesIsTell(blocks);
    assert forall b :: Calls(b) == Sort(CallOrder(), Table(b, SiteOf, CallRow));
  }

  lemma CallRowsTell()
    ensures RowsTell(CallRow)
  {
    forall p: seq<BlockCall>, q: seq<BlockCall>, k | multiset(p) == multiset(q)
      ensures CallRow(p, k) == CallRow(q, k)
    {
      CallRowOrderFree(p, q, k);
    }
  }

  lemma SeparatesIsTell(blocks: seq<BlockCall>)
    ensures Separates(blocks, SiteOf, CallRow, CallOrder()) <==> SitesTell(blocks)
  {
    CallOrderTies();
    SiteOrderTies();
    KeysOccur(blocks, SiteOf);
    hide WeakOrder, CallOrder, SiteOrder, Select, FirstSeen;
    if SitesTell(blocks) {
      forall j, k | j in FirstSeen(blocks, SiteOf) && k in FirstSeen(blocks, SiteOf) && j != k
        ensures !Tied(CallOrder(), CallRow(Select(blocks, SiteOf, j), j), CallRow(Select(blocks, SiteOf, k), k))
      {
        var e :| e in blocks && SiteOf(e) == j;
        var f :| f in blocks && SiteOf(f) == k;
      }
    }
  }

  /** A missing line and the line -1 tie, and then the rows come in the order of the log. */
  lemma MalformedSitesCanTie(site: CallSite, duration: int)
    requires site.line.None?
    ensures var e, f := BlockCall(site, duration), BlockCall(site.(line := Some(-1)), duration);
            Calls([e, f]) == [FirstCall(e), FirstCall(f)] && Calls([f, e]) == [FirstCall(f), FirstCall(e)]
            && FirstCall(e) != FirstCall(f)
  {
    var e, f := BlockCall(site, duration), BlockCall(site.(line := Some(-1)), duration);
    CallOrderTies();
    SiteOrderTies();
    CallsBuild();
    hide WeakOrder, CallOrder, SiteOrder, CallRow, Sort, Table;
    assert Tied(CallOrder(), FirstCall(e), FirstCall(f));
    TwoTiedRows(e, f, SiteOf, CallRow, CallOrder());
    TwoTiedRows(f, e, SiteOf, CallRow, CallOrder());
  }

  lemma GroupRowOrderFree(p: seq<HttpRequest>, q: seq<HttpRequest>, route: Route)
    requires multiset(p) == multiset(q)
    ensures EndpointRow(p, route) == EndpointRow(q, route)
  {
    MapPermutation(p, q, RequestDuration);
    SortedSamples(Durations(p), Durations(q));
    SumPermutation(p, q, QueriesOf);
    if p != [] {
      assert q != [] by {
        assert |p| == |multiset(p)| == |multiset(q)| == |q|;
      }
      MaxPermutation(p, q, QueriesOf);
    } else {
      assert |q| == |multiset(q)| == 0;
    }
    StatusesOrderFree(p, q);
    hide Sort, Table;
  }

  lemma StatusesOrderFree(p: seq<HttpRequest>, q: seq<HttpRequest>)
    requires multiset(p) == multiset(q)
    ensures Sort(ByCode(), Table(p, StatusOf, StatusRow)) == Sort(ByCode(), Table(q, StatusOf, StatusRow))
  {
    ByIntOrder((s: StatusCount) => s.code);
    hide WeakOrder;
    SelectPermutation(p, q, StatusOf);
    hide Select, FirstSeen;
    forall k
      ensures StatusRow(Select(p, StatusOf, k), k) == StatusRow(Select(q, StatusOf, k), k)
    {
      assert |Select(p, StatusOf, k)| == |multiset(Select(p, StatusOf, k))|;
      assert |Select(q, StatusOf, k)| == |multiset(Select(q, StatusOf, k))|;
    }
    TableOrderFree(p, q, StatusOf, StatusRow, ByCode());
  }

  /** Reordered requests give the same endpoint rows. */
  lemma EndpointsOrderFree(a: seq<HttpRequest>, b: seq<HttpRequest>)
    requires multiset(a) == multiset(b)
    ensures Endpoints(a) == Endpoints(b)
  {
    EndpointOrderTies();
    hide WeakOrder, EndpointOrder;
    SelectPermutation(a, b, RouteOf);
    hide Select, FirstSeen;
    forall k
      ensures EndpointRow(Select(a, RouteOf, k), k) == EndpointRow(Select(b, RouteOf, k), k)
    {
      GroupRowOrderFree(Select(a, RouteOf, k), Select(b, RouteOf, k), k);
    }
    TableOrderFree(a, b, RouteOf, EndpointRow, EndpointOrder());
  }

  predicate WellFormedOperation(operation: Operation) {
    operation.model.Some? ==> operation.model.value != ""
  }

  /** The comparison of two operations cannot tell a missing model from "". */
  predicate SameReading(a: Operation, b: Operation) {
    TextOr(a.model) == TextOr(b.model) && a.action == b.action
  }

  /** Different operations of the log that read the same at least differ in how often they occur. */
  ghost predicate OperationsTell(queries: seq<DbQuery>) {
    forall e, f :: e in queries && f in queries && e.operation != f.operation && SameReading(e.operation, f.operation) ==>
      |Select(queries, OperationOf, e.operation)| != |Select(queries, OperationOf, f.operation)|
  }

  /** The model rows forget the order of the log exactly when the operations of the log can be told apart. */
  lemma ModelsOrderFreeExactly(queries: seq<DbQuery>)
    ensures (forall b :: multiset(b) == multiset(queries) ==> Models(b) == Models(queries)) <==> OperationsTell(queries)
  {
    ModelOrderTies();
    ModelRowsTell();
    hide WeakOrder, ModelOrder, Sort, Table, RowsTell, Separates, OperationsTell;
    OrderFreeExactly(queries, OperationOf, ModelRow, ModelOrder());
    ModelsSeparateIffTell(queries);
    assert forall b :: Models(b) == Sort(ModelOrder(), Table(b, OperationOf, ModelRow));
  }

  lemma ModelRowsTell()
    ensures RowsTell(ModelRow)
  {
    forall p: seq<DbQuery>, q: seq<DbQuery>, k | multiset(p) == multiset(q)
      ensures ModelRow(p, k) == ModelRow(q, k)
    {
      assert |p| == |multiset(p)| == |multiset(q)| == |q|;
    }
  }

  lemma ModelsSeparateIffTell(queries: seq<DbQuery>)
    ensures Separates(queries, OperationOf, ModelRow, ModelOrder()) <==> OperationsTell(queries)
  {
    ModelOrderTies();
    KeysOccur(queries, OperationOf);
    hide WeakOrder, ModelOrder, Select, FirstSeen;
    if OperationsTell(queries) {
      forall j, k | j in FirstSeen(queries, OperationOf) && k in FirstSeen(queries, OperationOf) && j != k
        ensures !Tied(ModelOrder(), ModelRow(Select(queries, OperationOf, j), j), ModelRow(Select(queries, OperationOf, k), k))
      {
        var e :| e in queries && OperationOf(e) == j;
        var f :| f in queries && OperationOf(f) == k;
      }
    }
  }

  /** A missing model and the empty name tie, and then the rows come in the order of the log. */
  lemma UnnamedModelsCanTie(action: string, duration: int)
    ensures var e, f := DbQuery(Operation(None, action), duration, true), DbQuery(Operation(Some(""), action), duration, true);
            Models([e, f]) == [FirstQuery(e), FirstQuery(f)] && Models([f, e]) == [FirstQuery(f), FirstQuery(e)]
            && FirstQuery(e) != FirstQuery(f)
  {
    var e, f := DbQuery(Operation(None, action), duration, true), DbQuery(Operation(Some(""), action), duration, true);
    ModelOrderTies();
    hide WeakOrder, ModelOrder, Sort, Table;
    assert Tied(ModelOrder(), FirstQuery(e), FirstQuery(f));
    TwoTiedRows(e, f, OperationOf, ModelRow, ModelOrder());
    TwoTiedRows(f, e, OperationOf, ModelRow, ModelOrder());
  }

  /** Reordered well-formed queries give the same model rows. */
  lemma ModelsOrderFree(a: seq<DbQuery>, b: seq<DbQuery>)
    requires multiset(a) == multiset(b) && forall e :: e in a ==> WellFormedOperation(e.operation)
    ensures Models(a) == Models(b)
  {
    hide Select, Models;
    ModelsOrderFreeExactly(a);
    assert OperationsTell(a);
  }

  // ---- percentiles ----

  ghost function AtMost(v: int): int -> int {
    x => if x <= v then 1 else 0
  }

  lemma {:induction false} CountIsSum(s: seq<int>, v: int)
    ensures CountAtMost(s, v) == SumBy(s, AtMost(v))
  {
    if s != [] {
      CountIsSum(s[..|s| - 1], v);
    }
  }

  lemma CountReordered(p: seq<int>, q: seq<int>, v: int)
    requires multiset(p) == multiset(q)
    ensures CountAtMost(p, v) == CountAtMost(q, v)
  {
    CountIsSum(p, v);
    CountIsSum(q, v);
    SumPermutation(p, q, AtMost(v));
  }

  /** `v` is the least sample that at least `p` per cent of the samples do not exceed. */
  ghost predicate IsPercentile(samples: seq<int>, p: nat, v: int) {
    && v in samples
    && p * |samples| <= 100 * CountAtMost(samples, v)
    && forall x :: x < v ==> 100 * CountAtMost(samples, x) < p * |samples|
  }

  lemma PercentileOfSamples(samples: seq<int>, p: nat)
    requires samples != [] && 0 < p <= 100
    ensures IsPercentile(samples, p, NearestRank(Sort(Less, samples), p))
  {
    var sorted := Sort(Less, samples);
    SortedIsAscending(samples);
    assert |sorted| == |multiset(sorted)| == |multiset(samples)| == |samples|;
    NearestRankIsLeast(sorted, p);
    var v := NearestRank(sorted, p);
    assert v in multiset(sorted);
    CountReordered(sorted, samples, v);
    forall x | x < v
      ensures 100 * CountAtMost(samples, x) < p * |samples|
    {
      CountReordered(sorted, samples, x);
    }
  }

  /** The requests of one endpoint row. */
  function RequestsTo(requests: seq<HttpRequest>, route: Route): seq<HttpRequest> {
    Select(requests, RouteOf, route)
  }

  lemma EndpointIsRow(requests: seq<HttpRequest>, e: FindingsEndpoint)
    ensures e in Endpoints(requests)
            <==> RequestsTo(requests, e.route) != [] && e == EndpointRow(RequestsTo(requests, e.route), e.route)
  {
    EndpointOrderTies();
    SortIsStable(EndpointOrder(), Table(requests, RouteOf, EndpointRow));
    SameElements(Table(requests, RouteOf, EndpointRow), Endpoints(requests));
    FirstSeenExact(requests, RouteOf);
    TableRows(requests, RouteOf, EndpointRow, e);
    hide WeakOrder, EndpointOrder, Sort, Table, FirstSeen, Select;
    if e in Endpoints(requests) {
      var k :| RowFor(requests, RouteOf, EndpointRow, k, e);
      assert e.route == k;
    }
    if RequestsTo(requests, e.route) != [] && e == EndpointRow(RequestsTo(requests, e.route), e.route) {
      assert RowFor(requests, RouteOf, EndpointRow, e.route, e);
    }
  }

  /** Every endpoint row reports the exact percentiles and maxima of its own requests. */
  lemma EndpointPercentiles(requests: seq<HttpRequest>, e: FindingsEndpoint)
    requires e in Endpoints(requests)
    ensures var sel := RequestsTo(requests, e.route);
            && sel != [] && e.count == |sel|
            && IsPercentile(Durations(sel), 50, e.p50) && IsPercentile(Durations(sel), 99, e.p99)
            && e.p50 <= e.p99 <= e.max && e.max in Durations(sel)
            && (forall d :: d in Durations(sel) ==> d <= e.max)
            && e.dbTotal == SumBy(sel, QueriesOf) && e.dbMax == MaxBy(sel, QueriesOf)
  {
    EndpointIsRow(requests, e);
    var sel := RequestsTo(requests, e.route);
    var samples := Durations(sel);
    EndpointCounts(sel, e.route);
    PercentileOfSamples(samples, 50);
    PercentileOfSamples(samples, 99);
    MaximumIsLast(samples);
    hide IsPercentile, Sort, Select, SumBy, Table;
    NearestRankMonotone(Sort(Less, samples), 50, 99);
  }

  lemma MaximumIsLast(samples: seq<int>)
    requires samples != []
    ensures var s := Sort(Less, samples);
            && s != [] && Ascending(s) && s[|s| - 1] in samples && forall d :: d in samples ==> d <= s[|s| - 1]
  {
    var s := Sort(Less, samples);
    SortedIsAscending(samples);
    assert |s| == |multiset(s)| == |multiset(samples)| == |samples|;
    SameElements(samples, s);
    assert s[|s| - 1] in s;
  }

  // ---- warnings ----

  lemma {:induction false} NPlusOnesExact(endpoints: seq<FindingsEndpoint>, threshold: int, w: Warning)
    ensures w in NPlusOnes(endpoints, threshold) <==>
            exists i :: 0 <= i < |endpoints| && Warned(endpoints[i], threshold, w)
  {
    if endpoints != [] {
      var init, last := endpoints[..|endpoints| - 1], endpoints[|endpoints| - 1];
      NPlusOnesExact(init, threshold, w);
      if i :| 0 <= i < |endpoints| && Warned(endpoints[i], threshold, w) {
        if i < |init| {
          assert Warned(init[i], threshold, w);
        }
      }
      if i :| 0 <= i < |init| && Warned(init[i], threshold, w) {
        assert Warned(endpoints[i], threshold, w);
      }
    }
  }

  ghost predicate Warned(e: FindingsEndpoint, threshold: int, w: Warning) {
    e.dbMax >= threshold && w == PossibleNPlusOne(e.route, e.dbMax)
  }

  /**
   * A possible N+1 is reported for exactly the routes of which some request saw `n1Threshold` or more
   * queries, capped or not, and with the largest number seen.
   */
  lemma WarningsExact(lines: seq<Line>, session: Session, route: Route, max: int)
    ensures PossibleNPlusOne(route, max) in Document(lines, session).warnings <==>
            var sel := RequestsTo(Pick(lines, AsRequest), route);
            sel != [] && max == MaxBy(sel, QueriesOf) && max >= session.n1Threshold
  {
    var requests := Pick(lines, AsRequest);
    var endpoints, w := Endpoints(requests), PossibleNPlusOne(route, max);
    NPlusOnesExact(endpoints, session.n1Threshold, w);
    hide Pick, Calls, Models, Endpoints, NPlusOnes;
    assert w in Document(lines, session).warnings <==> w in NPlusOnes(endpoints, session.n1Threshold);
    var sel := RequestsTo(requests, route);
    if i :| 0 <= i < |endpoints| && Warned(endpoints[i], session.n1Threshold, w) {
      EndpointIsRow(requests, endpoints[i]);
    }
    if sel != [] && max == MaxBy(sel, QueriesOf) && max >= session.n1Threshold {
      var e := EndpointRow(sel, route);
      EndpointIsRow(requests, e);
      var i :| 0 <= i < |endpoints| && endpoints[i] == e;
      assert Warned(endpoints[i], session.n1Threshold, w);
    }
  }

  // ---- the whole document ----

  lemma {:induction false} PickAppend<T>(a: seq<Line>, b: seq<Line>, f: Line -> Option<T>)
    ensures Pick(a + b, f) == Pick(a, f) + Pick(b, f)
  {
    if b == [] {
      assert a + b == a;
    } else {
      PickAppend(a, b[..|b| - 1], f);
      assert (a + b)[..|a + b| - 1] == a + b[..|b| - 1];
    }
  }

  function Picked<T>(x: Line, f: Line -> Option<T>): seq<T> {
    if f(x).Some? then [f(x).value] else []
  }

  lemma PickOne<T>(x: Line, f: Line -> Option<T>)
    ensures Pick([x], f) == Picked(x, f)
  {
    assert [x][..0] == [];
  }

  lemma PickTakeOut<T>(lines: seq<Line>, i: nat, f: Line -> Option<T>)
    requires i < |lines|
    ensures multiset(Pick(lines, f)) == multiset(Pick(lines[..i] + lines[i + 1..], f)) + multiset(Picked(lines[i], f))
  {
    hide Pick, Picked;
    var p, x, q := lines[..i], lines[i], lines[i + 1..];
    assert lines == p + [x] + q;
    PickAppend(p, q, f);
    PickAppend(p + [x], q, f);
    PickAppend(p, [x], f);
    PickOne(x, f);
  }

  /** Reordered lines hold reordered events of each kind. */
  lemma {:induction false} PickPermutation<T>(a: seq<Line>, b: seq<Line>, f: Line -> Option<T>)
    requires multiset(a) == multiset(b)
    ensures multiset(Pick(a, f)) == multiset(Pick(b, f))
    decreases |a|
  {
    hide Pick, Picked;
    if a == [] {
      assert |b| == |multiset(b)| == 0;
      assert a == b;
    } else {
      var n := |a| - 1;
      var i := SameRest(a, b);
      PickPermutation(a[..n], b[..i] + b[i + 1..], f);
      PickTakeOut(a, n, f);
      PickTakeOut(b, i, f);
      assert a[..n] + a[n + 1..] == a[..n];
    }
  }

  predicate WellFormedLine(line: Line) {
    && (line.BlockLine? ==> WellFormedSite(line.call.site))
    && (line.DbLine? ==> WellFormedOperation(line.query.operation))
  }

  /** Two logs of the same lines in which the lag lines of every single process keep their order. */
  ghost predicate SameLog(a: seq<Line>, b: seq<Line>) {
    && multiset(a) == multiset(b)
    && forall pid :: Select(Pick(a, AsLag), PidOf, pid) == Select(Pick(b, AsLag), PidOf, pid)
  }

  lemma {:induction false} PickedIsLine<T>(lines: seq<Line>, f: Line -> Option<T>, x: T)
    requires x in Pick(lines, f)
    ensures exists i :: 0 <= i < |lines| && f(lines[i]) == Some(x)
  {
    var init, last := lines[..|lines| - 1], lines[|lines| - 1];
    if x in Pick(init, f) {
      PickedIsLine(init, f, x);
      var i :| 0 <= i < |init| && f(init[i]) == Some(x);
      assert f(lines[i]) == Some(x);
    }
  }

  /** The last totals of the processes are the same, in some order. */
  lemma TotalsReordered(a: seq<LoopLag>, b: seq<LoopLag>)
    requires forall pid :: Select(a, PidOf, pid) == Select(b, PidOf, pid)
    ensures multiset(Table(a, PidOf, LastTotal)) == multiset(Table(b, PidOf, LastTotal))
  {
    FirstSeenExact(a, PidOf);
    FirstSeenExact(b, PidOf);
    var p, q := FirstSeen(a, PidOf), FirstSeen(b, PidOf);
    TableAt(a, PidOf, LastTotal);
    TableAt(b, PidOf, LastTotal);
    hide Select, FirstSeen, Table, LastTotal;
    DistinctSameElements(p, q);
    var last := (pid: int) => LastTotal(Select(a, PidOf, pid), pid);
    MapPermutation(p, q, last);
    assert Table(a, PidOf, LastTotal) == MapSeq(p, last);
    assert Table(b, PidOf, LastTotal) == MapSeq(q, last);
  }

  /** The lag summary does not depend on how the lines of different processes interleave. */
  lemma LagInterleaving(a: seq<LoopLag>, b: seq<LoopLag>)
    requires multiset(a) == multiset(b) && forall pid :: Select(a, PidOf, pid) == Select(b, PidOf, pid)
    ensures LagOf(SumBy(a, IsWindow), Table(a, PidOf, LastTotal)) == LagOf(SumBy(b, IsWindow), Table(b, PidOf, LastTotal))
  {
    SumPermutation(a, b, IsWindow);
    TotalsReordered(a, b);
    hide Table, SumBy;
    var s, t := Table(a, PidOf, LastTotal), Table(b, PidOf, LastTotal);
    SumPermutation(s, t, CountOf);
    SumPermutation(s, t, Weighted50);
    SumPermutation(s, t, Weighted99);
    PeakPermutation(s, t, MaxOf);
  }

  lemma {:induction false} PeakExact<E>(s: seq<E>, f: E -> int)
    ensures Peak(s, f) >= 0 && forall x :: x in s ==> f(x) <= Peak(s, f)
    ensures Peak(s, f) == 0 || exists x :: x in s && f(x) == Peak(s, f)
  {
    if s != [] {
      PeakExact(s[..|s| - 1], f);
      assert s == s[..|s| - 1] + [s[|s| - 1]];
    }
  }

  lemma PeakPermutation<E>(s: seq<E>, t: seq<E>, f: E -> int)
    requires multiset(s) == multiset(t)
    ensures Peak(s, f) == Peak(t, f)
  {
    PeakExact(s, f);
    PeakExact(t, f);
    SameElements(s, t);
  }

  /** Peaks and pause totals do not depend on the order of the events. */
  lemma MemoryOrderFree(a: seq<MemSample>, b: seq<MemSample>, p: seq<int>, q: seq<int>)
    requires multiset(a) == multiset(b) && multiset(p) == multiset(q)
    ensures MemoryOf(a, p) == MemoryOf(b, q)
  {
    hide SumBy, Peak;
    SamePick(a, b);
    SamePick(p, q);
    PeakPermutation(a, b, RssOf);
    PeakPermutation(a, b, HeapOf);
    PeakPermutation(p, q, Itself);
    SumPermutation(p, q, Itself);
  }

  /** The findings forget the order of the log, except for the lag lines of one process. */
  lemma DocumentOrderFree(a: seq<Line>, b: seq<Line>, session: Session)
    requires SameLog(a, b) && forall line :: line in a ==> WellFormedLine(line)
    ensures Document(a, session) == Document(b, session)
  {
    PickPermutation(a, b, AsBlock);
    PickPermutation(a, b, AsLag);
    PickPermutation(a, b, AsRequest);
    PickPermutation(a, b, AsQuery);
    PickPermutation(a, b, AsAttach);
    PickPermutation(a, b, AsMalformed);
    PickPermutation(a, b, AsSample);
    PickPermutation(a, b, AsPause);
    SamePick(Pick(a, AsMalformed), Pick(b, AsMalformed));
    WellFormedEvents(a);
    hide Pick, SumBy, LagOf, Calls, Endpoints, Models, Warnings, Select, MemoryOf;
    MemoryOrderFree(Pick(a, AsSample), Pick(b, AsSample), Pick(a, AsPause), Pick(b, AsPause));
    LagInterleaving(Pick(a, AsLag), Pick(b, AsLag));
    CallsOrderFree(Pick(a, AsBlock), Pick(b, AsBlock));
    EndpointsOrderFree(Pick(a, AsRequest), Pick(b, AsRequest));
    ModelsOrderFree(Pick(a, AsQuery), Pick(b, AsQuery));
    SumPermutation(Pick(a, AsBlock), Pick(b, AsBlock), CallDuration);
    SumPermutation(Pick(a, AsQuery), Pick(b, AsQuery), QueryDuration);
    SumPermutation(Pick(a, AsQuery), Pick(b, AsQuery), Unattributed);
    SamePick(Pick(a, AsBlock), Pick(b, AsBlock));
    SamePick(Pick(a, AsRequest), Pick(b, AsRequest));
    SamePick(Pick(a, AsQuery), Pick(b, AsQuery));
    SamePick(Pick(a, AsAttach), Pick(b, AsAttach));
    assert PidSet(Pick(a, AsAttach)) == PidSet(Pick(b, AsAttach));
    assert |a| == |multiset(a)| == |multiset(b)| == |b|;
  }

  lemma SamePick<T>(p: seq<T>, q: seq<T>)
    requires multiset(p) == multiset(q)
    ensures |p| == |q| && forall x :: x in p <==> x in q
  {
    assert |p| == |multiset(p)| && |q| == |multiset(q)|;
    SameElements(p, q);
  }

  lemma WellFormedEvents(lines: seq<Line>)
    requires forall line :: line in lines ==> WellFormedLine(line)
    ensures forall e :: e in Pick(lines, AsBlock) ==> WellFormedSite(e.site)
    ensures forall e :: e in Pick(lines, AsQuery) ==> WellFormedOperation(e.operation)
  {
    forall e | e in Pick(lines, AsBlock)
      ensures WellFormedSite(e.site)
    {
      PickedIsLine(lines, AsBlock, e);
      var i :| 0 <= i < |lines| && AsBlock(lines[i]) == Some(e);
      assert lines[i] in lines;
    }
    forall e | e in Pick(lines, AsQuery)
      ensures WellFormedOperation(e.operation)
    {
      PickedIsLine(lines, AsQuery, e);
      var i :| 0 <= i < |lines| && AsQuery(lines[i]) == Some(e);
      assert lines[i] in lines;
    }
  }
}
