/** The totals of the findings, line by line of the log, and the lag merged from the last total of every process. */
module FindingsTotals {
  import opened FindingsProperties
  import opened Graphs
  import opened Options
  import opened ProbeAnalysis
  import opened ProbeFindings
  import opened Tables
  import opened Tallies

  // ---- one more line ----

  lemma PickMore<T>(lines: seq<Line>, line: Line, f: Line -> Option<T>)
    ensures Pick(lines + [line], f) == if f(line).Some? then Pick(lines, f) + [f(line).value] else Pick(lines, f)
  {
    assert (lines + [line])[..|lines|] == lines;
  }

  /** Every well-formed line enters exactly the list of its kind, at the end. */
  lemma LineByLine(lines: seq<Line>, line: Line)
    ensures var more := lines + [line];
            && Pick(more, AsBlock)
               == (if line.BlockLine? then Pick(lines, AsBlock) + [line.call] else Pick(lines, AsBlock))
            && Pick(more, AsLag)
               == (if line.LagLine? then Pick(lines, AsLag) + [line.lag] else Pick(lines, AsLag))
            && Pick(more, AsRequest)
               == (if line.HttpLine? then Pick(lines, AsRequest) + [line.request] else Pick(lines, AsRequest))
            && Pick(more, AsQuery)
               == (if line.DbLine? then Pick(lines, AsQuery) + [line.query] else Pick(lines, AsQuery))
            && Pick(more, AsSample)
               == (if line.MemLine? then Pick(lines, AsSample) + [line.sample] else Pick(lines, AsSample))
            && Pick(more, AsPause)
               == (if line.GcLine? then Pick(lines, AsPause) + [line.pause] else Pick(lines, AsPause))
            && Pick(more, AsAttach)
               == (if line.AttachLine? then Pick(lines, AsAttach) + [line.pid] else Pick(lines, AsAttach))
            && |Pick(more, AsMalformed)| == |Pick(lines, AsMalformed)| + (if line.Malformed? then 1 else 0)
  {
    hide Pick;
    PickMore(lines, line, AsBlock);
    PickMore(lines, line, AsLag);
    PickMore(lines, line, AsRequest);
    PickMore(lines, line, AsQuery);
    PickMore(lines, line, AsSample);
    PickMore(lines, line, AsPause);
    PickMore(lines, line, AsAttach);
    PickMore(lines, line, AsMalformed);
  }

  /** Before the first line every total is zero and every list is empty. */
  lemma EmptyLog(session: Session)
    ensures var doc := Document([], session);
            && doc.blockingCount == doc.blockingTotal == doc.requests == 0
            && doc.queries == doc.queriesTotal == doc.unattributed == 0
            && doc.lines == doc.malformedLines == doc.attachProcesses == 0
            && doc.memory == MemorySummary(0, 0, 0, 0, 0, 0) && doc.loopLag == LagSummary(0, 0, 0, 0, 0)
            && doc.calls == [] && doc.endpoints == [] && doc.models == []
  {
    assert |Calls([])| == 0 && |Endpoints([])| == 0 && |Models([])| == 0 && |Table([], PidOf, LastTotal)| == 0;
  }

  lemma SumMore<E>(s: seq<E>, x: E, f: E -> int)
    ensures SumBy(s + [x], f) == SumBy(s, f) + f(x)
  {
    SumPush(s, x, f);
  }

  lemma PeakMore<E>(s: seq<E>, x: E, f: E -> int)
    ensures Peak(s + [x], f) == if Peak(s, f) < f(x) then f(x) else Peak(s, f)
  {
    assert (s + [x])[..|s|] == s;
  }

  /** How one more line changes the counts and sums of calls, requests and queries. */
  lemma OneMoreEvent(lines: seq<Line>, line: Line, session: Session)
    ensures var a, b := Document(lines, session), Document(lines + [line], session);
            && b.traceSchemaVersion == 1 && b.session == session
            && b.blockingCount == a.blockingCount + (if line.BlockLine? then 1 else 0)
            && b.blockingTotal == a.blockingTotal + (if line.BlockLine? then line.call.duration else 0)
            && b.requests == a.requests + (if line.HttpLine? then 1 else 0)
            && b.queries == a.queries + (if line.DbLine? then 1 else 0)
            && b.queriesTotal == a.queriesTotal + (if line.DbLine? then line.query.duration else 0)
            && b.unattributed == a.unattributed + (if line.DbLine? && !line.query.attributed then 1 else 0)
            && b.loopLag.windows == a.loopLag.windows + (if line.LagLine? && !line.lag.final then 1 else 0)
  {
    LineByLine(lines, line);
    hide Pick, SumBy, Calls, Endpoints, Models, Warnings, Table, Capped, MemoryOf;
    match line {
      case BlockLine(call) => SumMore(Pick(lines, AsBlock), call, CallDuration);
      case DbLine(query) =>
        SumMore(Pick(lines, AsQuery), query, QueryDuration);
        SumMore(Pick(lines, AsQuery), query, Unattributed);
      case LagLine(lag) => SumMore(Pick(lines, AsLag), lag, IsWindow);
      case _ =>
    }
  }

  lemma {:induction false} AttachedExactly(lines: seq<Line>, pid: int)
    ensures pid in PidSet(Pick(lines, AsAttach)) <==> AttachLine(pid) in lines
  {
    if lines != [] {
      var n := |lines| - 1;
      AttachedExactly(lines[..n], pid);
      LineByLine(lines[..n], lines[n]);
      hide Pick;
      assert lines == lines[..n] + [lines[n]];
    }
  }

  /** How one more line changes the counts of lines and processes and the memory summary. */
  lemma OneMoreLine(lines: seq<Line>, line: Line, session: Session)
    ensures var a, b := Document(lines, session), Document(lines + [line], session);
            && b.lines == a.lines + 1
            && b.malformedLines == a.malformedLines + (if line.Malformed? then 1 else 0)
            && b.attachProcesses == a.attachProcesses + (if line.AttachLine? && line !in lines then 1 else 0)
            && b.memory.samples == a.memory.samples + (if line.MemLine? then 1 else 0)
            && (line.MemLine? ==> IsMaximum(b.memory.peakRss, a.memory.peakRss, line.sample.rss))
            && (line.MemLine? ==> IsMaximum(b.memory.peakHeapUsed, a.memory.peakHeapUsed, line.sample.heapUsed))
            && (!line.MemLine? ==> b.memory.peakRss == a.memory.peakRss)
            && (!line.MemLine? ==> b.memory.peakHeapUsed == a.memory.peakHeapUsed)
            && b.memory.gcCount == a.memory.gcCount + (if line.GcLine? then 1 else 0)
            && b.memory.gcTotal == a.memory.gcTotal + (if line.GcLine? then line.pause else 0)
            && (line.GcLine? ==> IsMaximum(b.memory.gcMax, a.memory.gcMax, line.pause))
            && (!line.GcLine? ==> b.memory.gcMax == a.memory.gcMax)
  {
    LineByLine(lines, line);
    hide Pick, SumBy, Calls, Endpoints, Models, Warnings, Table, Capped, LagOf, Peak;
    match line {
      case AttachLine(pid) =>
        AttachedExactly(lines, pid);
        OnePidMore(Pick(lines, AsAttach), pid);
      case MemLine(sample) =>
        PeakMore(Pick(lines, AsSample), sample, RssOf);
        PeakMore(Pick(lines, AsSample), sample, HeapOf);
      case GcLine(pause) =>
        SumMore(Pick(lines, AsPause), pause, Itself);
        PeakMore(Pick(lines, AsPause), pause, Itself);
      case _ =>
    }
  }

  ghost predicate IsMaximum(m: int, a: int, b: int) {
    a <= m && b <= m && (m == a || m == b)
  }

  lemma OnePidMore(pids: seq<int>, pid: int)
    ensures |PidSet(pids + [pid])| == |PidSet(pids)| + if pid in PidSet(pids) then 0 else 1
  {
    assert PidSet(pids + [pid]) == PidSet(pids) + {pid};
  }

  // ---- rounding ----

  /** The nearest integer, the larger one of two. */
  ghost predicate IsRounded(total: int, n: int, r: int) {
    2 * n * r <= 2 * total + n < 2 * n * r + 2 * n
  }

  lemma RoundedIsNearest(total: int, n: int)
    requires n > 0
    ensures IsRounded(total, n, Rounded(total, n))
  {
    var x, m := 2 * total + n, 2 * n;
    assert m * (x / m) <= x < m * (x / m) + m;
  }

  lemma Scaled(a: int, b: int, n: int)
    requires n > 0
    ensures a < b ==> a * n + n <= b * n
  {
    if a < b {
      var d := b - a - 1;
      Product(d, n);
      assert (a + 1 + d) * n == (a + 1) * n + d * n == a * n + n + d * n;
    }
  }

  lemma Product(d: int, n: int)
    requires d >= 0 && n > 0
    ensures d * n >= 0
  {
  }

  /** Between `low * n` and `high * n` the rounded quotient stays between `low` and `high`. */
  lemma RoundedBetween(total: int, n: int, low: int, high: int, r: int)
    requires n > 0 && low * n <= total <= high * n && IsRounded(total, n, r)
    ensures low <= r <= high
  {
    Scaled(r, low, n);
    Scaled(high, r, n);
  }

  lemma RoundedMonotone(a: int, b: int, n: int, p: int, q: int)
    requires n > 0 && a <= b && IsRounded(a, n, p) && IsRounded(b, n, q)
    ensures p <= q
  {
    Scaled(q, p, n);
  }

  // ---- loop lag ----

  /** The last lag line of the process, the final one or not, carries the total. */
  ghost predicate LastLag(lines: seq<Line>, pid: int, total: LagTotal) {
    exists i :: 0 <= i < |lines| && lines[i].LagLine? && lines[i].lag.pid == pid && lines[i].lag.total == total
      && forall j :: i < j < |lines| ==> !IsLagOf(lines[j], pid)
  }

  ghost predicate IsLagOf(line: Line, pid: int) {
    line.LagLine? && line.lag.pid == pid
  }

  /** Every process with a lag line, once, and its last total. */
  ghost predicate LastTotals(lines: seq<Line>, pids: seq<int>, totals: seq<LagTotal>) {
    && Distinct(pids) && |totals| == |pids|
    && (forall i :: 0 <= i < |pids| ==> LastLag(lines, pids[i], totals[i]))
    && forall i :: 0 <= i < |lines| && lines[i].LagLine? ==> lines[i].lag.pid in pids
  }

  lemma {:induction false} LastSelected(lines: seq<Line>, pid: int)
    ensures var sel := Select(Pick(lines, AsLag), PidOf, pid);
            && (sel != [] ==> LastLag(lines, pid, LastTotal(sel, pid)))
            && (sel == [] ==> forall i :: 0 <= i < |lines| ==> !IsLagOf(lines[i], pid))
  {
    if lines != [] {
      var n := |lines| - 1;
      var init, line := lines[..n], lines[n];
      LastSelected(init, pid);
      LineByLine(init, line);
      assert lines == init + [line];
      SelectMore(Pick(init, AsLag), Pick(lines, AsLag), line, pid);
      hide Pick, Select, LastLag;
      var sel, rest := Select(Pick(lines, AsLag), PidOf, pid), Select(Pick(init, AsLag), PidOf, pid);
      if IsLagOf(line, pid) {
        LastNow(init, line);
      } else if sel != [] {
        LastStays(init, line, pid, LastTotal(rest, pid));
      }
    }
  }

  lemma SelectMore(before: seq<LoopLag>, after: seq<LoopLag>, line: Line, pid: int)
    requires after == if line.LagLine? then before + [line.lag] else before
    ensures Select(after, PidOf, pid) == Select(before, PidOf, pid) + if IsLagOf(line, pid) then [line.lag] else []
  {
    if line.LagLine? {
      assert after[..|after| - 1] == before;
    }
  }

  lemma LastNow(lines: seq<Line>, line: Line)
    requires line.LagLine?
    ensures LastLag(lines + [line], line.lag.pid, line.lag.total)
  {
    assert (lines + [line])[|lines|] == line;
  }

  lemma LastStays(lines: seq<Line>, line: Line, pid: int, total: LagTotal)
    requires LastLag(lines, pid, total) && !IsLagOf(line, pid)
    ensures LastLag(lines + [line], pid, total)
  {
    var i :| 0 <= i < |lines| && lines[i].LagLine? && lines[i].lag.pid == pid && lines[i].lag.total == total
      && forall j :: i < j < |lines| ==> !IsLagOf(lines[j], pid);
    var more := lines + [line];
    assert more[i] == lines[i];
  }

  lemma LastIsOne(lines: seq<Line>, pid: int, a: LagTotal, b: LagTotal)
    requires LastLag(lines, pid, a) && LastLag(lines, pid, b)
    ensures a == b
  {
    var i :| 0 <= i < |lines| && lines[i].LagLine? && lines[i].lag.pid == pid && lines[i].lag.total == a
      && forall k :: i < k < |lines| ==> !IsLagOf(lines[k], pid);
    var j :| 0 <= j < |lines| && lines[j].LagLine? && lines[j].lag.pid == pid && lines[j].lag.total == b
      && forall k :: j < k < |lines| ==> !IsLagOf(lines[k], pid);
    assert IsLagOf(lines[i], pid) && IsLagOf(lines[j], pid);
  }

  /** The rows of the grouping are such last totals. */
  lemma RowsAreTotals(lines: seq<Line>)
    ensures LastTotals(lines, FirstSeen(Pick(lines, AsLag), PidOf), Table(Pick(lines, AsLag), PidOf, LastTotal))
  {
    var lags := Pick(lines, AsLag);
    var keys := FirstSeen(lags, PidOf);
    FirstSeenExact(lags, PidOf);
    TableAt(lags, PidOf, LastTotal);
    hide Table, FirstSeen, Select, LastTotal, LastLag, Pick;
    forall i | 0 <= i < |keys|
      ensures LastLag(lines, keys[i], Table(lags, PidOf, LastTotal)[i])
    {
      assert keys[i] in keys;
      LastSelected(lines, keys[i]);
    }
    forall i | 0 <= i < |lines| && lines[i].LagLine?
      ensures lines[i].lag.pid in keys
    {
      LastSelected(lines, lines[i].lag.pid);
      assert IsLagOf(lines[i], lines[i].lag.pid);
    }
  }

  /** The processes in any order, with their last totals, are the rows that are merged. */
  lemma TotalsAreRows(lines: seq<Line>, pids: seq<int>, totals: seq<LagTotal>)
    requires LastTotals(lines, pids, totals)
    ensures multiset(totals) == multiset(Table(Pick(lines, AsLag), PidOf, LastTotal))
  {
    var lags := Pick(lines, AsLag);
    var keys, last := FirstSeen(lags, PidOf), (pid: int) => LastTotal(Select(lags, PidOf, pid), pid);
    FirstSeenExact(lags, PidOf);
    TableAt(lags, PidOf, LastTotal);
    assert Table(lags, PidOf, LastTotal) == MapSeq(keys, last);
    forall pid
      ensures pid in pids <==> pid in keys
    {
      LastSelected(lines, pid);
      if i :| 0 <= i < |pids| && pids[i] == pid {
        assert LastLag(lines, pids[i], totals[i]);
      }
    }
    forall i | 0 <= i < |pids|
      ensures totals[i] == last(pids[i])
    {
      assert pids[i] in keys;
      LastSelected(lines, pids[i]);
      LastIsOne(lines, pids[i], totals[i], last(pids[i]));
    }
    hide Table, FirstSeen, Select, LastTotal, LastLag, LastTotals, Pick;
    DistinctSameElements(pids, keys);
    MapPermutation(pids, keys, last);
    assert totals == MapSeq(pids, last);
  }

  lemma {:induction false} SameSum<E>(s: seq<E>, f: E -> int, g: E -> int)
    requires forall e :: e in s ==> f(e) == g(e)
    ensures SumBy(s, f) == SumBy(s, g)
  {
    if s != [] {
      assert s[|s| - 1] in s && forall e :: e in s[..|s| - 1] ==> e in s;
      SameSum(s[..|s| - 1], f, g);
    }
  }

  /** What the merged lag is, given the last total of every process. */
  ghost predicate IsMergedLag(totals: seq<LagTotal>, lag: LagSummary) {
    var n := SumBy(totals, (t: LagTotal) => t.count);
    && lag.count == n
    && (n > 0 ==> IsRounded(SumBy(totals, (t: LagTotal) => t.p50 * t.count), n, lag.p50))
    && (n > 0 ==> IsRounded(SumBy(totals, (t: LagTotal) => t.p99 * t.count), n, lag.p99))
    && (n <= 0 ==> lag.p50 == lag.p99 == 0)
    && lag.max >= 0 && (forall i :: 0 <= i < |totals| ==> totals[i].max <= lag.max)
    && (lag.max == 0 || exists i :: 0 <= i < |totals| && totals[i].max == lag.max)
  }

  /**
   * The lag of a document: of all last totals the counts are summed, each percentile is their average weighted by
   * count and rounded to the nearest, and the maximum is the largest.
   */
  lemma LagIsMerged(lines: seq<Line>, session: Session, pids: seq<int>, totals: seq<LagTotal>)
    requires LastTotals(lines, pids, totals)
    ensures IsMergedLag(totals, Document(lines, session).loopLag)
  {
    var rows := Table(Pick(lines, AsLag), PidOf, LastTotal);
    var lag := LagOf(SumBy(Pick(lines, AsLag), IsWindow), rows);
    TotalsAreRows(lines, pids, totals);
    assert Document(lines, session).loopLag == lag by {
      hide Pick, Calls, Endpoints, Models, Warnings, Capped, MemoryOf, SumBy, Table;
    }
    hide Document, Table, Pick, LastTotals, SumBy, Peak;
    MergedRows(totals, rows, lag.windows);
  }

  lemma MergedRows(totals: seq<LagTotal>, rows: seq<LagTotal>, windows: int)
    requires multiset(totals) == multiset(rows)
    ensures IsMergedLag(totals, LagOf(windows, rows))
  {
    hide SumBy, Peak;
    SumPermutation(totals, rows, CountOf);
    SumPermutation(totals, rows, Weighted50);
    SumPermutation(totals, rows, Weighted99);
    SameSum(totals, CountOf, (t: LagTotal) => t.count);
    SameSum(totals, Weighted50, (t: LagTotal) => t.p50 * t.count);
    SameSum(totals, Weighted99, (t: LagTotal) => t.p99 * t.count);
    PeakPermutation(totals, rows, MaxOf);
    PeakExact(totals, MaxOf);
    var n := SumBy(rows, CountOf);
    if n > 0 {
      RoundedIsNearest(SumBy(rows, Weighted50), n);
      RoundedIsNearest(SumBy(rows, Weighted99), n);
    }
    hide Rounded;
    assert forall i :: 0 <= i < |totals| ==> totals[i] in totals;
  }

  // ---- what follows for the lag ----

  /** A single process is reported as it is. */
  lemma SingleTotal(total: LagTotal, lag: LagSummary)
    requires IsMergedLag([total], lag) && total.count > 0 && total.max >= 0
    ensures lag.count == total.count && lag.p50 == total.p50 && lag.p99 == total.p99 && lag.max == total.max
  {
    SumOne(total, (t: LagTotal) => t.count);
    SumOne(total, (t: LagTotal) => t.p50 * t.count);
    SumOne(total, (t: LagTotal) => t.p99 * t.count);
    hide SumBy, IsRounded;
    RoundedBetween(total.p50 * total.count, total.count, total.p50, total.p50, lag.p50);
    RoundedBetween(total.p99 * total.count, total.count, total.p99, total.p99, lag.p99);
    assert [total][0] == total;
  }

  /** Totals with samples lie between the bounds; totals without do not matter. */
  ghost predicate Bounded(totals: seq<LagTotal>, value: LagTotal -> int, low: int, high: int) {
    forall i :: 0 <= i < |totals| && totals[i].count != 0 ==> low <= value(totals[i]) <= high
  }

  lemma {:induction false} WeightedBounds(totals: seq<LagTotal>, value: LagTotal -> int, low: int, high: int)
    requires Bounded(totals, value, low, high) && forall i :: 0 <= i < |totals| ==> totals[i].count >= 0
    ensures var n := SumBy(totals, (t: LagTotal) => t.count);
            0 <= n && low * n <= SumBy(totals, (t: LagTotal) => value(t) * t.count) <= high * n
  {
    if totals != [] {
      var init, last := totals[..|totals| - 1], totals[|totals| - 1];
      WeightedBounds(init, value, low, high);
      var n := SumBy(init, (t: LagTotal) => t.count);
      assert SumBy(totals, (t: LagTotal) => t.count) == n + last.count;
      hide SumBy, Bounded;
      OneWeight(low, value(last), high, last.count, n);
    }
  }

  lemma OneWeight(low: int, v: int, high: int, count: int, n: int)
    requires count >= 0 && (count != 0 ==> low <= v <= high)
    ensures low * (n + count) <= low * n + v * count && high * n + v * count <= high * (n + count)
  {
    assert low * (n + count) == low * n + low * count && high * (n + count) == high * n + high * count;
    if count > 0 {
      assert (v - low) * count >= 0 && (high - v) * count >= 0;
    }
  }

  lemma {:induction false} WeightedLess(totals: seq<LagTotal>)
    requires forall i :: 0 <= i < |totals| ==> totals[i].count >= 0 && totals[i].p50 <= totals[i].p99
    ensures SumBy(totals, (t: LagTotal) => t.p50 * t.count) <= SumBy(totals, (t: LagTotal) => t.p99 * t.count)
  {
    if totals != [] {
      var last := totals[|totals| - 1];
      WeightedLess(totals[..|totals| - 1]);
      assert (last.p99 - last.p50) * last.count >= 0;
    }
  }

  /** Each merged percentile lies between the least and the greatest of the totals that have samples. */
  lemma LagBetween(totals: seq<LagTotal>, lag: LagSummary, low: int, high: int)
    requires IsMergedLag(totals, lag) && lag.count > 0 && forall i :: 0 <= i < |totals| ==> totals[i].count >= 0
    ensures Bounded(totals, (t: LagTotal) => t.p50, low, high) ==> low <= lag.p50 <= high
    ensures Bounded(totals, (t: LagTotal) => t.p99, low, high) ==> low <= lag.p99 <= high
  {
    var p50, p99 := (t: LagTotal) => t.p50, (t: LagTotal) => t.p99;
    SameSum(totals, (t: LagTotal) => p50(t) * t.count, (t: LagTotal) => t.p50 * t.count);
    SameSum(totals, (t: LagTotal) => p99(t) * t.count, (t: LagTotal) => t.p99 * t.count);
    hide SumBy, IsRounded, Bounded;
    if Bounded(totals, p50, low, high) {
      WeightedBounds(totals, p50, low, high);
      RoundedBetween(SumBy(totals, (t: LagTotal) => t.p50 * t.count), lag.count, low, high, lag.p50);
    }
    if Bounded(totals, p99, low, high) {
      WeightedBounds(totals, p99, low, high);
      RoundedBetween(SumBy(totals, (t: LagTotal) => t.p99 * t.count), lag.count, low, high, lag.p99);
    }
  }

  /** The percentiles stay in order, up to the maximum, when every process reports them in order. */
  lemma LagInOrder(totals: seq<LagTotal>, lag: LagSummary)
    requires IsMergedLag(totals, lag)
    requires forall i :: 0 <= i < |totals| ==>
      totals[i].count >= 0 && 0 <= totals[i].p50 <= totals[i].p99 <= totals[i].max
    ensures 0 <= lag.p50 <= lag.p99 <= lag.max
  {
    if lag.count > 0 {
      WeightedLess(totals);
      assert Bounded(totals, (t: LagTotal) => t.p50, 0, lag.max);
      assert Bounded(totals, (t: LagTotal) => t.p99, 0, lag.max);
      LagBetween(totals, lag, 0, lag.max);
      hide SumBy, IsRounded;
      RoundedMonotone(SumBy(totals, (t: LagTotal) => t.p50 * t.count), SumBy(totals, (t: LagTotal) => t.p99 * t.count),
        lag.count, lag.p50, lag.p99);
    }
  }
}
