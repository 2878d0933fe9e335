/** What a report of the cyclic components of a graph is, and why there is only one. */
module CycleReports {
  import opened Graphs
  import opened Orders
  import opened SimpleCycles

  /** All nodes that `s` reaches and that reach it. */
  ghost function ClassOf<N(!new)>(g: Graph<N>, s: N): set<N> {
    set v | v in g && Mutual(g, s, v)
  }

  /** Some walk of one or more edges leads from `v` back to `v`. */
  ghost predicate OnCycle<N(!new)>(g: Graph<N>, v: N) {
    exists u :: Edge(g, v, u) && Reach(g, u, v)
  }

  ghost predicate StrictTotal<N(!new)>(less: (N, N) -> bool) {
    WeakOrder(less) && forall a, b :: a == b || less(a, b) || less(b, a)
  }

  /** `c` is the first simple cycle through the smallest node of a component. */
  ghost predicate Canonical<N(!new)>(g: Graph<N>, less: (N, N) -> bool, c: seq<N>) {
    && c != [] && c[0] in g
    && LeastCycle(g, ClassOf(g, c[0]), c[0], c)
    && forall v :: v in ClassOf(g, c[0]) ==> v == c[0] || less(c[0], v)
  }

  ghost function Firsts<N>(cs: seq<seq<N>>): seq<N>
    requires forall k :: 0 <= k < |cs| ==> cs[k] != []
  {
    seq(|cs|, k requires 0 <= k < |cs| => cs[k][0])
  }

  /** Exactly one canonical cycle for every cyclic component, in the order of their first nodes. */
  ghost predicate IsReport<N(!new)>(g: Graph<N>, less: (N, N) -> bool, cs: seq<seq<N>>) {
    && (forall k :: 0 <= k < |cs| ==> Canonical(g, less, cs[k]))
    && Increasing(less, Firsts(cs))
    && forall v :: v in g && OnCycle(g, v) ==> exists k :: 0 <= k < |cs| && Mutual(g, cs[k][0], v)
  }

  lemma ClassIsComponent<N(!new)>(g: Graph<N>, s: N)
    requires Closed(g) && s in g
    ensures IsComponent(g, ClassOf(g, s), s)
  {
    forall v | Mutual(g, s, v)
      ensures v in g
    {
      ReachStaysInside(g, g.Keys, s, v);
    }
  }

  /** A component of two or more nodes, or with a self-edge, is cyclic. */
  lemma ClassOnCycle<N(!new)>(g: Graph<N>, s: N)
    requires Closed(g) && s in g
    ensures OnCycle(g, s) <==> (Edge(g, s, s) || exists v :: v in ClassOf(g, s) && v != s)
  {
    ClassIsComponent(g, s);
    if OnCycle(g, s) {
      var u :| Edge(g, s, u) && Reach(g, u, s);
      ReachEdge(g, s, u);
      assert u in ClassOf(g, s);
    }
    if Edge(g, s, s) {
      ReachSelf(g, s);
    } else if v :| v in ClassOf(g, s) && v != s {
      var p :| WalkFromTo(g, p, s, v);
      assert Edge(g, s, p[1]);
      assert WalkFromTo(g, p[1..], p[1], v);
      ReachTransitive(g, p[1], v, s);
    }
  }

  /** Being on a cycle is a matter of the component. */
  lemma OnCycleInClass<N(!new)>(g: Graph<N>, s: N, v: N)
    requires Closed(g) && s in g && OnCycle(g, v) && Mutual(g, s, v)
    ensures OnCycle(g, s)
  {
    ReachStaysInside(g, g.Keys, s, v);
    ClassOnCycle(g, s);
    if s != v {
      assert v in ClassOf(g, s);
    }
  }

  lemma CanonicalOnCycle<N(!new)>(g: Graph<N>, less: (N, N) -> bool, c: seq<N>)
    requires Canonical(g, less, c)
    ensures OnCycle(g, c[0])
  {
    hide Before;
    assert SimpleCycle(g, ClassOf(g, c[0]), c[0], c);
    if |c| == 1 {
      ReachSelf(g, c[0]);
    } else {
      assert Edge(g, c[0], c[1]);
      assert c[1] in c;
    }
  }

  /** Every cyclic component has a canonical cycle. */
  lemma CanonicalExists<N(!new)>(g: Graph<N>, s: N)
    requires Closed(g) && s in g && OnCycle(g, s)
    ensures exists c :: SimpleCycle(g, ClassOf(g, s), s, c)
  {
    ClassIsComponent(g, s);
    ClassOnCycle(g, s);
    CycleExists(g, ClassOf(g, s), s);
  }

  /** The first cycle found from the bare start is the canonical one. */
  lemma FirstIsCanonical<N(!new)>(g: Graph<N>, less: (N, N) -> bool, s: N, c: seq<N>)
    requires s in g && FirstFrom(g, ClassOf(g, s), s, [s], c)
    requires forall v :: v in ClassOf(g, s) ==> v == s || less(s, v)
    ensures c != [] && c[0] == s && Canonical(g, less, c) && SimpleCycle(g, ClassOf(g, s), s, c)
  {
    hide Before;
    forall d | SimpleCycle(g, ClassOf(g, s), s, d)
      ensures [s] <= d
    {
    }
  }

  /** In a cyclic component the search cannot come back empty-handed. */
  lemma SearchSucceeds<N(!new)>(g: Graph<N>, s: N)
    requires Closed(g) && s in g && OnCycle(g, s)
    ensures !NoneFrom(g, ClassOf(g, s), s, [s])
  {
    CanonicalExists(g, s);
    var c :| SimpleCycle(g, ClassOf(g, s), s, c);
    assert [s] <= c;
  }

  lemma SameClass<N(!new)>(g: Graph<N>, s: N, t: N)
    requires Mutual(g, s, t)
    ensures ClassOf(g, s) == ClassOf(g, t)
  {
    hide Reach;
    forall v
      ensures Mutual(g, s, v) <==> Mutual(g, t, v)
    {
      if Mutual(g, s, v) {
        ReachTransitive(g, t, s, v);
        ReachTransitive(g, v, s, t);
      }
      if Mutual(g, t, v) {
        ReachTransitive(g, s, t, v);
        ReachTransitive(g, v, t, s);
      }
    }
  }

  /** Two canonical cycles of the same component are the same cycle. */
  lemma CanonicalUnique<N(!new)>(g: Graph<N>, less: (N, N) -> bool, c: seq<N>, d: seq<N>)
    requires StrictTotal(less) && Canonical(g, less, c) && Canonical(g, less, d) && Mutual(g, c[0], d[0])
    ensures c == d
  {
    hide LeastCycle;
    SameClass(g, c[0], d[0]);
    ReachSelf(g, c[0]);
    ReachSelf(g, d[0]);
    assert c[0] in ClassOf(g, c[0]) && d[0] in ClassOf(g, d[0]);
    assert c[0] == d[0];
    LeastCycleUnique(g, ClassOf(g, c[0]), c[0], c, d);
  }

  /** Every canonical cycle is in every report. */
  lemma ReportHasAll<N(!new)>(g: Graph<N>, less: (N, N) -> bool, cs: seq<seq<N>>, c: seq<N>)
    requires StrictTotal(less) && IsReport(g, less, cs) && Canonical(g, less, c)
    ensures c in cs
  {
    CanonicalOnCycle(g, less, c);
    var k :| 0 <= k < |cs| && Mutual(g, cs[k][0], c[0]);
    CanonicalUnique(g, less, cs[k], c);
  }

  /** The report is determined by the graph alone. */
  lemma ReportUnique<N(!new)>(g: Graph<N>, less: (N, N) -> bool, cs: seq<seq<N>>, ds: seq<seq<N>>)
    requires StrictTotal(less) && IsReport(g, less, cs) && IsReport(g, less, ds)
    ensures cs == ds
  {
    SameFirsts(g, less, cs, ds);
    SameFirsts(g, less, ds, cs);
    IncreasingSame(less, Firsts(cs), Firsts(ds));
    forall k | 0 <= k < |cs|
      ensures cs[k] == ds[k]
    {
      assert cs[k][0] == Firsts(cs)[k] == Firsts(ds)[k] == ds[k][0];
      ReachSelf(g, cs[k][0]);
      CanonicalUnique(g, less, cs[k], ds[k]);
    }
  }

  lemma SameFirsts<N(!new)>(g: Graph<N>, less: (N, N) -> bool, cs: seq<seq<N>>, ds: seq<seq<N>>)
    requires StrictTotal(less) && IsReport(g, less, cs) && IsReport(g, less, ds)
    ensures forall x :: x in Firsts(cs) ==> x in Firsts(ds)
  {
    forall x | x in Firsts(cs)
      ensures x in Firsts(ds)
    {
      var k :| 0 <= k < |cs| && Firsts(cs)[k] == x;
      ReportHasAll(g, less, ds, cs[k]);
      var j :| 0 <= j < |ds| && ds[j] == cs[k];
      assert Firsts(ds)[j] == x;
    }
  }

  /** No cycle is reported exactly when the graph has none. */
  lemma EmptyReport<N(!new)>(g: Graph<N>, less: (N, N) -> bool, cs: seq<seq<N>>)
    requires IsReport(g, less, cs)
    ensures cs == [] <==> forall v :: v in g ==> !OnCycle(g, v)
  {
    if cs != [] {
      CanonicalOnCycle(g, less, cs[0]);
    }
  }
}
