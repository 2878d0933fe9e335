/** The findings document as a whole: how it is assembled from the event log and what it guarantees. */
module ProbeFindings {
  import opened Options
  import opened ProbeAnalysis
  import opened Tables
  import opened Tallies

  // ---- classification of the lines ----

  function Pick<T>(lines: seq<Line>, f: Line -> Option<T>): seq<T> {
    if lines == [] then []
    else
      var rest, picked := Pick(lines[..|lines| - 1], f), f(lines[|lines| - 1]);
      if picked.Some? then rest + [picked.value] else rest
  }

  function AsBlock(line: Line): Option<BlockCall> {
    if line.BlockLine? then Some(line.call) else None
  }

  function AsLag(line: Line): Option<LoopLag> {
    if line.LagLine? then Some(line.lag) else None
  }

  function AsRequest(line: Line): Option<HttpRequest> {
    if line.HttpLine? then Some(line.request) else None
  }

  function AsQuery(line: Line): Option<DbQuery> {
    if line.DbLine? then Some(line.query) else None
  }

  function AsSample(line: Line): Option<MemSample> {
    if line.MemLine? then Some(line.sample) else None
  }

  function AsPause(line: Line): Option<int> {
    if line.GcLine? then Some(line.pause) else None
  }

  function AsAttach(line: Line): Option<int> {
    if line.AttachLine? then Some(line.pid) else None
  }

  function AsMalformed(line: Line): Option<()> {
    if line.Malformed? then Some(()) else None
  }

  function PidSet(pids: seq<int>): set<int> {
    set pid | pid in pids
  }

  datatype Events = Events(
    malformedLines: nat, attachPids: set<int>, blocks: seq<BlockCall>, lags: seq<LoopLag>,
    requests: seq<HttpRequest>, queries: seq<DbQuery>, samples: seq<MemSample>, pauses: seq<int>)

  ghost predicate Classified(lines: seq<Line>, events: Events) {
    && events.malformedLines == |Pick(lines, AsMalformed)|
    && events.attachPids == PidSet(Pick(lines, AsAttach))
    && events.blocks == Pick(lines, AsBlock)
    && events.lags == Pick(lines, AsLag)
    && events.requests == Pick(lines, AsRequest)
    && events.queries == Pick(lines, AsQuery)
    && events.samples == Pick(lines, AsSample)
    && events.pauses == Pick(lines, AsPause)
  }

  method Classify(lines: seq<Line>) returns (events: Events)
    ensures Classified(lines, events)
  {
    events := Events(0, {}, [], [], [], [], [], []);
    for i := 0 to |lines|
      invariant Classified(lines[..i], events)
    {
      assert lines[..i + 1][..i] == lines[..i];
      match lines[i]
      case Malformed => events := events.(malformedLines := events.malformedLines + 1);
      case AttachLine(pid) => events := events.(attachPids := events.attachPids + {pid});
      case BlockLine(call) => events := events.(blocks := events.blocks + [call]);
      case LagLine(lag) => events := events.(lags := events.lags + [lag]);
      case HttpLine(request) => events := events.(requests := events.requests + [request]);
      case DbLine(query) => events := events.(queries := events.queries + [query]);
      case MemLine(sample) => events := events.(samples := events.samples + [sample]);
      case GcLine(pause) => events := events.(pauses := events.pauses + [pause]);
      case OtherLine =>
    }
    assert lines[..|lines|] == lines;
  }

  // ---- loop lag: the last total of every process, merged ----

  function PidOf(e: LoopLag): int {
    e.pid
  }

  function LastTotal(sel: seq<LoopLag>, pid: int): LagTotal {
    if sel == [] then LagTotal(0, 0, 0, 0) else sel[|sel| - 1].total
  }

  function TotalOf(e: LoopLag): LagTotal {
    e.total
  }

  function Overwrite(total: LagTotal, e: LoopLag): LagTotal {
    e.total
  }

  function CountOf(t: LagTotal): int { t.count }

  function Weighted50(t: LagTotal): int { t.p50 * t.count }

  function Weighted99(t: LagTotal): int { t.p99 * t.count }

  function IsWindow(e: LoopLag): int {
    if e.final then 0 else 1
  }

  function MaxOf(t: LagTotal): int { t.max }

  /** The largest value of `f`, at least 0. */
  function Peak<E>(s: seq<E>, f: E -> int): int {
    if s == [] then 0 else Bigger(Peak(s[..|s| - 1], f), f(s[|s| - 1]))
  }

  function LagOf(windows: int, totals: seq<LagTotal>): LagSummary {
    var n := SumBy(totals, CountOf);
    LagSummary(windows, n, Rounded(SumBy(totals, Weighted50), n), Rounded(SumBy(totals, Weighted99), n),
      Peak(totals, MaxOf))
  }

  method MergeLag(lags: seq<LoopLag>) returns (lag: LagSummary)
    ensures lag == LagOf(SumBy(lags, IsWindow), Table(lags, PidOf, LastTotal))
  {
    var windows := 0;
    for i := 0 to |lags|
      invariant windows == SumBy(lags[..i], IsWindow)
    {
      assert lags[..i + 1][..i] == lags[..i];
      if !lags[i].final {
        windows := windows + 1;
      }
    }
    assert lags[..|lags|] == lags;
    var totals := Aggregate(lags, PidOf, TotalOf, Overwrite, LastTotal);
    var sampleCount, maxLag, weighted50, weighted99 := 0, 0, 0, 0;
    for i := 0 to |totals|
      invariant sampleCount == SumBy(totals[..i], CountOf) && maxLag == Peak(totals[..i], MaxOf)
      invariant weighted50 == SumBy(totals[..i], Weighted50) && weighted99 == SumBy(totals[..i], Weighted99)
    {
      assert totals[..i + 1][..i] == totals[..i];
      sampleCount := sampleCount + totals[i].count;
      maxLag := Bigger(maxLag, totals[i].max);
      weighted50 := weighted50 + totals[i].p50 * totals[i].count;
      weighted99 := weighted99 + totals[i].p99 * totals[i].count;
    }
    assert totals[..|totals|] == totals;
    lag := LagSummary(windows, sampleCount, Rounded(weighted50, sampleCount),
      Rounded(weighted99, sampleCount), maxLag);
  }

  // ---- memory ----

  function RssOf(s: MemSample): int { s.rss }

  function HeapOf(s: MemSample): int { s.heapUsed }

  function Itself(x: int): int { x }

  function MemoryOf(samples: seq<MemSample>, pauses: seq<int>): MemorySummary {
    MemorySummary(|samples|, Peak(samples, RssOf), Peak(samples, HeapOf), |pauses|, SumBy(pauses, Itself),
      Peak(pauses, Itself))
  }

  method SummarizeMemory(samples: seq<MemSample>, pauses: seq<int>) returns (memory: MemorySummary)
    ensures memory == MemoryOf(samples, pauses)
  {
    var peakRss, peakHeapUsed := 0, 0;
    for i := 0 to |samples|
      invariant peakRss == Peak(samples[..i], RssOf) && peakHeapUsed == Peak(samples[..i], HeapOf)
    {
      assert samples[..i + 1][..i] == samples[..i];
      peakRss := Bigger(peakRss, samples[i].rss);
      peakHeapUsed := Bigger(peakHeapUsed, samples[i].heapUsed);
    }
    assert samples[..|samples|] == samples;
    var count, total, longest := 0, 0, 0;
    for i := 0 to |pauses|
      invariant count == i && total == SumBy(pauses[..i], Itself) && longest == Peak(pauses[..i], Itself)
    {
      assert pauses[..i + 1][..i] == pauses[..i];
      count := count + 1;
      total := total + pauses[i];
      longest := Bigger(longest, pauses[i]);
    }
    assert pauses[..|pauses|] == pauses;
    memory := MemorySummary(|samples|, peakRss, peakHeapUsed, count, total, longest);
  }

  // ---- warnings ----

  function NPlusOnes(endpoints: seq<FindingsEndpoint>, threshold: int): seq<Warning> {
    if endpoints == [] then []
    else
      var rest, last := NPlusOnes(endpoints[..|endpoints| - 1], threshold), endpoints[|endpoints| - 1];
      if last.dbMax >= threshold then rest + [PossibleNPlusOne(last.route, last.dbMax)] else rest
  }

  function When(condition: bool, warning: Warning): seq<Warning> {
    if condition then [warning] else []
  }

  function Warnings(attached: bool, calls: nat, endpoints: seq<FindingsEndpoint>, models: nat, threshold: int):
    seq<Warning>
  {
    When(!attached, NoAttach)
    + (When(|endpoints| > ENDPOINTS_CAP, EndpointsCapped) + NPlusOnes(endpoints, threshold)
       + When(models > MODELS_CAP, ModelsCapped))
    + When(calls > CALLS_CAP, CallsCapped)
  }

  method CollectWarnings(attached: bool, calls: nat, endpoints: seq<FindingsEndpoint>, models: nat, threshold: int)
    returns (warnings: seq<Warning>)
    ensures warnings == Warnings(attached, calls, endpoints, models, threshold)
  {
    warnings := [];
    if |endpoints| > ENDPOINTS_CAP {
      warnings := warnings + [EndpointsCapped];
    }
    ghost var head := When(|endpoints| > ENDPOINTS_CAP, EndpointsCapped);
    assert warnings == head + NPlusOnes([], threshold);
    for i := 0 to |endpoints|
      invariant warnings == head + NPlusOnes(endpoints[..i], threshold)
    {
      assert endpoints[..i + 1][..i] == endpoints[..i];
      if endpoints[i].dbMax >= threshold {
        warnings := warnings + [PossibleNPlusOne(endpoints[i].route, endpoints[i].dbMax)];
      }
    }
    assert endpoints[..|endpoints|] == endpoints;
    hide NPlusOnes;
    if models > MODELS_CAP {
      warnings := warnings + [ModelsCapped];
    }
    ghost var middle := head + NPlusOnes(endpoints, threshold) + When(models > MODELS_CAP, ModelsCapped);
    assert warnings == middle;
    if !attached {
      warnings := [NoAttach] + warnings;
    }
    assert warnings == When(!attached, NoAttach) + middle;
    if calls > CALLS_CAP {
      warnings := warnings + [CallsCapped];
    }
  }

  // ---- the document ----

  function QueryDuration(e: DbQuery): int {
    e.duration
  }

  function Unattributed(e: DbQuery): int {
    if e.attributed then 0 else 1
  }

  function Attributed(e: DbQuery): int {
    if e.attributed then 1 else 0
  }

  /** The document, field by field, in terms of the classified events. */
  function Document(lines: seq<Line>, session: Session): Findings {
    var blocks, lags := Pick(lines, AsBlock), Pick(lines, AsLag);
    var requests, queries := Pick(lines, AsRequest), Pick(lines, AsQuery);
    var pids := PidSet(Pick(lines, AsAttach));
    var calls, endpoints, models := Calls(blocks), Endpoints(requests), Models(queries);
    Findings(
      TRACE_SCHEMA_VERSION, session,
      LagOf(SumBy(lags, IsWindow), Table(lags, PidOf, LastTotal)),
      |blocks|, SumBy(blocks, CallDuration), Capped(calls, CALLS_CAP),
      |requests|, Capped(endpoints, ENDPOINTS_CAP),
      |queries|, SumBy(queries, QueryDuration), SumBy(queries, Unattributed), Capped(models, MODELS_CAP),
      MemoryOf(Pick(lines, AsSample), Pick(lines, AsPause)),
      |lines|, |Pick(lines, AsMalformed)|, |pids|,
      Warnings(pids != {}, |calls|, endpoints, |models|, session.n1Threshold))
  }

  method BuildFindings(lines: seq<Line>, session: Session) returns (doc: Findings)
    ensures doc == Document(lines, session)
  {
    var events := Classify(lines);
    hide Pick, Calls, Endpoints, Models, Warnings, LagOf, Capped, MemoryOf;
    var calls := GroupCalls(events.blocks);
    var lag := MergeLag(events.lags);
    var endpoints := GroupEndpoints(events.requests);
    var models := GroupModels(events.queries);
    var warnings := CollectWarnings(events.attachPids != {}, |calls|, endpoints, |models|, session.n1Threshold);
    var memory := SummarizeMemory(events.samples, events.pauses);
    doc := Findings(
      TRACE_SCHEMA_VERSION, session,
      lag,
      |events.blocks|, SumBy(events.blocks, CallDuration), Capped(calls, CALLS_CAP),
      |events.requests|, Capped(endpoints, ENDPOINTS_CAP),
      |events.queries|, SumBy(events.queries, QueryDuration), SumBy(events.queries, Unattributed),
      Capped(models, MODELS_CAP),
      memory,
      |lines|, events.malformedLines, |events.attachPids|,
      warnings);
  }
}
