/** What the forwardRef flag of a reported provider cycle says about the other cycles of its component. */
module ForwardReferences {
  import opened CycleReports
  import opened Graphs
  import opened NestModel
  import opened Options
  import opened Orders
  import opened ProviderCycles
  import opened ProviderGraph
  import opened SimpleCycles

  /** The edge from `u` to `v` carries forwardRef: the first injection of that name does. */
  predicate ForwardInjection(providers: seq<Provider>, u: nat, v: nat) {
    && u < |providers| && v < |providers|
    && var step := StepInjection(providers, u, v);
    step.Some? && step.value.forwardRef
  }

  /** Some edge of the closed walk of `c` carries forwardRef. */
  ghost predicate HasForwardStep(providers: seq<Provider>, c: seq<nat>) {
    c != [] && exists k: nat :: k < |c| && ForwardInjection(providers, c[k], (c + [c[0]])[k + 1])
  }

  /** Some edge inside the component of `s` carries forwardRef. */
  ghost predicate ForwardInside(providers: seq<Provider>, s: nat) {
    exists u: nat, v: nat :: InsideEdge(providers, s, u, v) && ForwardInjection(providers, u, v)
  }

  ghost predicate InsideEdge(providers: seq<Provider>, s: nat, u: nat, v: nat) {
    var g := GraphOf(providers);
    u in ClassOf(g, s) && v in ClassOf(g, s) && Edge(g, u, v)
  }

  /** The graph without the edges that carry forwardRef. */
  ghost function PlainGraph(providers: seq<Provider>): Graph<nat> {
    map u: nat | u < |providers| :: PlainTargets(providers, u, Succ(GraphOf(providers), u))
  }

  ghost function PlainTargets(providers: seq<Provider>, u: nat, targets: seq<nat>): seq<nat> {
    if targets == [] then []
    else
      var rest, last := PlainTargets(providers, u, targets[..|targets| - 1]), targets[|targets| - 1];
      if ForwardInjection(providers, u, last) then rest else rest + [last]
  }

  /** Without its forwardRef edges the component of `s` has no cycle left. */
  ghost predicate PlainAcyclic(providers: seq<Provider>, s: nat) {
    forall v :: v in ClassOf(GraphOf(providers), s) ==> !OnCycle(PlainGraph(providers), v)
  }

  /** A simple cycle of the component of `s`, wherever it starts, none of whose edges carries forwardRef. */
  ghost predicate PlainCycle(providers: seq<Provider>, s: nat, d: seq<nat>) {
    && d != [] && d[0] in ClassOf(GraphOf(providers), s)
    && SimpleCycle(GraphOf(providers), ClassOf(GraphOf(providers), s), d[0], d)
    && !HasForwardStep(providers, d)
  }

  // ---- the graph, injection by injection ----

  lemma GraphHasInjections(providers: seq<Provider>)
    ensures Closed(GraphOf(providers))
    ensures forall u: nat, v: nat :: Edge(GraphOf(providers), u, v) <==> Injects(providers, u, v)
  {
    var adjacency := seq(|providers|, u requires 0 <= u < |providers| =>
      Sort(EdgeLess, SourceEdges(ClassNames(providers), providers[u].injections)));
    assert IsAdjacency(providers, adjacency);
    AdjacencyGraph(providers, adjacency);
    hide IsAdjacency, GraphOf;
    forall u: nat, v: nat
      ensures Edge(GraphOf(providers), u, v) <==> Injects(providers, u, v)
    {
      GraphIsInjects(providers, adjacency, u, v);
    }
  }

  lemma {:induction false} PlainTargetsExact(providers: seq<Provider>, u: nat, targets: seq<nat>, v: nat)
    ensures v in PlainTargets(providers, u, targets) <==> v in targets && !ForwardInjection(providers, u, v)
  {
    if targets != [] {
      PlainTargetsExact(providers, u, targets[..|targets| - 1], v);
      assert targets == targets[..|targets| - 1] + [targets[|targets| - 1]];
    }
  }

  lemma PlainEdge(providers: seq<Provider>, u: nat, v: nat)
    ensures Edge(PlainGraph(providers), u, v) <==> Edge(GraphOf(providers), u, v) && !ForwardInjection(providers, u, v)
  {
    PlainTargetsExact(providers, u, Succ(GraphOf(providers), u), v);
  }

  // ---- the flag ----

  lemma FlagIsForwardStep(providers: seq<Provider>, c: seq<nat>, cycle: DiCycle)
    requires Describes(providers, c, cycle)
    ensures cycle.hasForwardRef <==> HasForwardStep(providers, c)
  {
    var closed := c + [c[0]];
    assert InRange(providers, closed);
    hide StepInjection;
    if k: nat :| ForwardStep(providers, closed, k) {
      assert ForwardInjection(providers, c[k], closed[k + 1]);
    }
    if HasForwardStep(providers, c) {
      var k: nat :| k < |c| && ForwardInjection(providers, c[k], closed[k + 1]);
      assert ForwardStep(providers, closed, k);
    }
  }

  /**
   * The flag tells whether any edge of the component carries forwardRef exactly when none does or one on the
   * canonical cycle does.
   */
  lemma FlagTellsInjections(providers: seq<Provider>, paths: seq<seq<nat>>, cycles: seq<DiCycle>, k: nat)
    requires Reports(providers, paths, cycles) && k < |cycles|
    ensures paths[k] != [] && (cycles[k].hasForwardRef <==> HasForwardStep(providers, paths[k]))
    ensures (cycles[k].hasForwardRef <==> ForwardInside(providers, paths[k][0]))
            <==> !ForwardInside(providers, paths[k][0]) || HasForwardStep(providers, paths[k])
  {
    var c := paths[k];
    assert Describes(providers, c, cycles[k]) && Canonical(GraphOf(providers), NatLess, c);
    FlagIsForwardStep(providers, c, cycles[k]);
    if HasForwardStep(providers, c) {
      StepInside(providers, c);
    }
    hide Describes, Canonical, IsReport, HasForwardStep, ForwardInside;
  }

  lemma StepInside(providers: seq<Provider>, c: seq<nat>)
    requires Canonical(GraphOf(providers), NatLess, c) && HasForwardStep(providers, c)
    ensures ForwardInside(providers, c[0])
  {
    hide Before, Reach, GraphOf, StepInjection;
    var g, s := GraphOf(providers), c[0];
    assert SimpleCycle(g, ClassOf(g, s), s, c);
    var closed := c + [s];
    var i: nat :| i < |c| && ForwardInjection(providers, c[i], closed[i + 1]);
    ClosedWalk(g, ClassOf(g, s), c, i);
    assert InsideEdge(providers, s, c[i], closed[i + 1]);
  }

  /** Each step of a simple cycle is an edge between members. */
  lemma ClosedWalk(g: Graph<nat>, members: set<nat>, c: seq<nat>, i: nat)
    requires c != [] && SimpleCycle(g, members, c[0], c) && i < |c|
    ensures c[i] in members && (c + [c[0]])[i + 1] in members && Edge(g, c[i], (c + [c[0]])[i + 1])
  {
    assert c[i] in c && c[0] in c;
    if i + 1 < |c| {
      assert c[i + 1] in c;
    }
  }

  // ---- cycles without forwardRef ----

  lemma PlainClosed(providers: seq<Provider>)
    ensures Closed(PlainGraph(providers))
  {
    GraphHasInjections(providers);
    hide Injects, GraphOf, ForwardInjection;
    forall u: nat, v: nat | Edge(PlainGraph(providers), u, v)
      ensures v in PlainGraph(providers)
    {
      PlainEdge(providers, u, v);
      GraphDomain(providers, v);
    }
  }

  lemma GraphDomain(providers: seq<Provider>, v: nat)
    ensures v in GraphOf(providers) <==> v < |providers|
    ensures v in PlainGraph(providers) <==> v < |providers|
  {
  }

  lemma PlainReach(providers: seq<Provider>, u: nat, v: nat)
    requires Reach(PlainGraph(providers), u, v)
    ensures Reach(GraphOf(providers), u, v)
  {
    hide PlainGraph, GraphOf, ForwardInjection;
    var p :| WalkFromTo(PlainGraph(providers), p, u, v);
    forall i | 0 < i < |p|
      ensures Edge(GraphOf(providers), p[i - 1], p[i])
    {
      PlainEdge(providers, p[i - 1], p[i]);
    }
    assert WalkFromTo(GraphOf(providers), p, u, v);
  }

  lemma PlainStep(providers: seq<Provider>, s: nat, d: seq<nat>, i: nat)
    requires PlainCycle(providers, s, d) && i < |d|
    ensures Edge(PlainGraph(providers), d[i], (d + [d[0]])[i + 1])
  {
    hide PlainGraph, GraphOf, ForwardInjection, ClassOf;
    ClosedWalk(GraphOf(providers), ClassOf(GraphOf(providers), s), d, i);
    PlainEdge(providers, d[i], (d + [d[0]])[i + 1]);
  }

  /** Edges that lead around `d` make a cycle. */
  lemma AroundIsCycle(g: Graph<nat>, d: seq<nat>)
    requires d != [] && forall i: nat :: i < |d| ==> Edge(g, d[i], (d + [d[0]])[i + 1])
    ensures OnCycle(g, d[0])
  {
    hide Edge;
    var walk := d[1..] + [d[0]];
    assert Edge(g, d[0], (d + [d[0]])[0 + 1]) && (d + [d[0]])[1] == walk[0];
    forall i | 0 < i < |walk|
      ensures Edge(g, walk[i - 1], walk[i])
    {
      assert Edge(g, d[i], (d + [d[0]])[i + 1]);
    }
    assert WalkFromTo(g, walk, walk[0], d[0]);
  }

  /** A cycle of plain edges closes in the graph without the others. */
  lemma PlainCycleIsCycle(providers: seq<Provider>, s: nat, d: seq<nat>)
    requires PlainCycle(providers, s, d)
    ensures OnCycle(PlainGraph(providers), d[0])
  {
    hide PlainGraph, SimpleCycle, GraphOf, ClassOf, Edge, OnCycle;
    forall i: nat | i < |d|
      ensures Edge(PlainGraph(providers), d[i], (d + [d[0]])[i + 1])
    {
      PlainStep(providers, s, d, i);
    }
    AroundIsCycle(PlainGraph(providers), d);
  }

  /** A cycle that survives without the forwardRef edges contains a plain simple cycle. */
  lemma CycleHasPlainCycle(providers: seq<Provider>, s: nat, v: nat)
    requires v in ClassOf(GraphOf(providers), s) && OnCycle(PlainGraph(providers), v)
    ensures exists d :: PlainCycle(providers, s, d)
  {
    var g, plain := GraphOf(providers), PlainGraph(providers);
    PlainClosed(providers);
    GraphDomain(providers, v);
    hide PlainGraph, GraphOf, ForwardInjection, OnCycle, Reach, Closed;
    CanonicalExists(plain, v);
    var d :| SimpleCycle(plain, ClassOf(plain, v), v, d);
    SameClass(g, s, v);
    PlainCycleInGraph(providers, v, d);
    assert PlainCycle(providers, s, d);
  }

  lemma PlainCycleInGraph(providers: seq<Provider>, v: nat, d: seq<nat>)
    requires SimpleCycle(PlainGraph(providers), ClassOf(PlainGraph(providers), v), v, d)
    ensures SimpleCycle(GraphOf(providers), ClassOf(GraphOf(providers), v), v, d)
    ensures !HasForwardStep(providers, d)
  {
    var g, plain, closed := GraphOf(providers), PlainGraph(providers), d + [v];
    hide PlainGraph, GraphOf, ForwardInjection, Reach;
    forall i: nat | i < |d|
      ensures Edge(g, d[i], closed[i + 1]) && !ForwardInjection(providers, d[i], closed[i + 1])
      ensures d[i] in ClassOf(g, v)
    {
      ClosedWalk(plain, ClassOf(plain, v), d, i);
      PlainEdge(providers, d[i], closed[i + 1]);
      PlainReach(providers, v, d[i]);
      PlainReach(providers, d[i], v);
      EdgeStarts(g, d[i], closed[i + 1]);
    }
    forall i | 0 < i < |d|
      ensures Edge(g, d[i - 1], d[i])
    {
      assert closed[i - 1 + 1] == d[i];
    }
  }

  lemma EdgeStarts(g: Graph<nat>, u: nat, v: nat)
    requires Edge(g, u, v)
    ensures u in g
  {
  }

  /** No simple cycle of the component is free of forwardRef exactly when removing those edges leaves no cycle in it. */
  lemma NoPlainCycle(providers: seq<Provider>, s: nat)
    ensures PlainAcyclic(providers, s) <==> !exists d :: PlainCycle(providers, s, d)
  {
    hide GraphOf, PlainGraph, OnCycle, ClassOf, SimpleCycle, HasForwardStep;
    forall d | PlainCycle(providers, s, d)
      ensures !PlainAcyclic(providers, s)
    {
      PlainCycleIsCycle(providers, s, d);
    }
    forall v | v in ClassOf(GraphOf(providers), s) && OnCycle(PlainGraph(providers), v)
      ensures exists d :: PlainCycle(providers, s, d)
    {
      CycleHasPlainCycle(providers, s, v);
    }
  }

  /**
   * The flag tells whether every simple cycle of the component has a forwardRef exactly when the canonical cycle has
   * none or no cycle of the component is left without the forwardRef edges.
   */
  lemma FlagTellsCycles(providers: seq<Provider>, paths: seq<seq<nat>>, cycles: seq<DiCycle>, k: nat)
    requires Reports(providers, paths, cycles) && k < |cycles|
    ensures paths[k] != []
    ensures (cycles[k].hasForwardRef <==> !exists d :: PlainCycle(providers, paths[k][0], d))
            <==> !HasForwardStep(providers, paths[k]) || PlainAcyclic(providers, paths[k][0])
  {
    var c := paths[k];
    assert Describes(providers, c, cycles[k]) && Canonical(GraphOf(providers), NatLess, c);
    FlagIsForwardStep(providers, c, cycles[k]);
    NoPlainCycle(providers, c[0]);
    CanonicalIsSimple(providers, c);
    hide Describes, Canonical, IsReport, HasForwardStep, PlainAcyclic, GraphOf, ClassOf;
    if !HasForwardStep(providers, c) {
      assert PlainCycle(providers, c[0], c);
    }
  }

  lemma CanonicalIsSimple(providers: seq<Provider>, c: seq<nat>)
    requires Canonical(GraphOf(providers), NatLess, c)
    ensures SimpleCycle(GraphOf(providers), ClassOf(GraphOf(providers), c[0]), c[0], c)
    ensures c[0] in ClassOf(GraphOf(providers), c[0])
  {
    hide Before;
    ReachSelf(GraphOf(providers), c[0]);
  }

  // ---- both ways in which the flag can mislead ----

  /** A and B inject each other, B and C inject each other; each pair may or may not use forwardRef. */
  function Trio(ab: bool, bc: bool): seq<Provider> {
    [Provider("A", "a.ts", [InjectionRef("B", ab, 1, 1)]),
     Provider("B", "b.ts", [InjectionRef("A", ab, 1, 1), InjectionRef("C", bc, 1, 2)]),
     Provider("C", "c.ts", [InjectionRef("B", bc, 1, 1)])]
  }

  ghost predicate TrioEdge(u: nat, v: nat) {
    (u == 0 && v == 1) || (u == 1 && v == 0) || (u == 1 && v == 2) || (u == 2 && v == 1)
  }

  lemma TrioEdges(ab: bool, bc: bool)
    ensures forall u: nat, v: nat :: Edge(GraphOf(Trio(ab, bc)), u, v) <==> TrioEdge(u, v)
  {
    var providers := Trio(ab, bc);
    GraphHasInjections(providers);
    hide GraphOf, Edge;
    forall u: nat, v: nat
      ensures Injects(providers, u, v) <==> TrioEdge(u, v)
    {
      if TrioEdge(u, v) {
        var i := if u == 1 && v == 2 then 1 else 0;
        assert providers[u].injections[i].name == providers[v].className;
      }
    }
  }

  lemma TrioInjections(ab: bool, bc: bool)
    ensures forall u: nat, v: nat :: TrioEdge(u, v) ==>
              (ForwardInjection(Trio(ab, bc), u, v) <==> if u == 2 || v == 2 then bc else ab)
  {
    var a, b, c, d := InjectionRef("B", ab, 1, 1), InjectionRef("A", ab, 1, 1), InjectionRef("C", bc, 1, 2),
      InjectionRef("B", bc, 1, 1);
    assert [b, c][..1] == [b] && [a][..0] == [] && [b][..0] == [] && [d][..0] == [];
    assert FindInjection([b], "C") == None && FindInjection([b], "A") == Some(b);
  }

  /** All three providers form one component. */
  lemma TrioComponent(ab: bool, bc: bool)
    ensures forall v: nat :: v < 3 ==> ClassOf(GraphOf(Trio(ab, bc)), v) == {0, 1, 2}
  {
    var g := GraphOf(Trio(ab, bc));
    TrioEdges(ab, bc);
    hide GraphOf, Edge, Reach;
    assert forall v :: v in g <==> v < 3 by {
      forall v
        ensures v in g <==> v < 3
      {
        GraphDomain(Trio(ab, bc), v);
      }
    }
    ReachEdge(g, 0, 1);
    ReachEdge(g, 1, 0);
    ReachEdge(g, 1, 2);
    ReachEdge(g, 2, 1);
    ReachTransitive(g, 0, 1, 2);
    ReachTransitive(g, 2, 1, 0);
    forall v: nat | v < 3
      ensures Mutual(g, v, v)
    {
      ReachSelf(g, v);
    }
    forall v: nat | v < 3
      ensures ClassOf(g, v) == {0, 1, 2}
    {
      assert Mutual(g, v, 0) && Mutual(g, v, 1) && Mutual(g, v, 2);
    }
  }

  /** The canonical cycle runs from A to B and back. */
  lemma TrioCanonical(ab: bool, bc: bool, c: seq<nat>)
    requires Canonical(GraphOf(Trio(ab, bc)), NatLess, c)
    ensures c == [0, 1]
  {
    var g := GraphOf(Trio(ab, bc));
    TrioEdges(ab, bc);
    GraphDomain(Trio(ab, bc), c[0]);
    TrioComponent(ab, bc);
    CanonicalIsSimple(Trio(ab, bc), c);
    hide LeastCycle, GraphOf, ClassOf;
    assert c[0] == 0;
    TrioSimple(g, c);
  }

  lemma TrioSimple(g: Graph<nat>, c: seq<nat>)
    requires forall u: nat, v: nat :: Edge(g, u, v) <==> TrioEdge(u, v)
    requires SimpleCycle(g, {0, 1, 2}, 0, c)
    ensures c == [0, 1]
  {
    hide Edge;
    assert Edge(g, c[|c| - 1], 0);
    assert c[|c| - 1] == 1;
    assert Edge(g, c[0], c[1]) && c[1] == 1;
  }

  lemma TrioPaths(ab: bool, bc: bool, paths: seq<seq<nat>>)
    requires IsReport(GraphOf(Trio(ab, bc)), NatLess, paths)
    ensures paths == [[0, 1]]
  {
    var g := GraphOf(Trio(ab, bc));
    TrioOnCycle(ab, bc);
    hide GraphOf, Canonical, OnCycle, Mutual;
    FirstsIncrease(g, paths);
    assert |paths| > 1 ==> paths[0][0] < paths[1][0];
    forall k | 0 <= k < |paths|
      ensures paths[k] == [0, 1]
    {
      assert Canonical(g, NatLess, paths[k]);
      TrioCanonical(ab, bc, paths[k]);
    }
  }

  lemma FirstsIncrease(g: Graph<nat>, paths: seq<seq<nat>>)
    requires IsReport(g, NatLess, paths)
    ensures forall k :: 0 <= k < |paths| ==> paths[k] != []
    ensures forall i, j :: 0 <= i < j < |paths| ==> paths[i][0] < paths[j][0]
  {
    hide LeastCycle, OnCycle, Mutual;
    forall i, j | 0 <= i < j < |paths|
      ensures paths[i][0] < paths[j][0]
    {
      assert NatLess(Firsts(paths)[i], Firsts(paths)[j]);
    }
  }

  lemma TrioForward(ab: bool, bc: bool)
    ensures HasForwardStep(Trio(ab, bc), [0, 1]) <==> ab
  {
    TrioInjections(ab, bc);
    hide ForwardInjection, Trio;
    assert TrioEdge(0, 1) && TrioEdge(1, 0);
    var c, closed := [0, 1], [0, 1, 0];
    assert c + [c[0]] == closed;
    assert ForwardInjection(Trio(ab, bc), c[0], closed[0 + 1]) <==> ab;
    assert ForwardInjection(Trio(ab, bc), c[1], closed[1 + 1]) <==> ab;
  }

  /** What is reported for the three providers: one cycle, whose flag is the flag of the first pair. */
  lemma TrioReport(ab: bool, bc: bool, cycles: seq<DiCycle>)
    requires IsCycleReport(Trio(ab, bc), cycles)
    ensures |cycles| == 1 && (cycles[0].hasForwardRef <==> ab)
  {
    hide IsReport, Describes, HasForwardStep, Trio;
    var paths :| Reports(Trio(ab, bc), paths, cycles);
    TrioPaths(ab, bc, paths);
    FlagIsForwardStep(Trio(ab, bc), paths[0], cycles[0]);
    TrioForward(ab, bc);
  }

  lemma TrioOnCycle(ab: bool, bc: bool)
    ensures 0 in GraphOf(Trio(ab, bc)) && OnCycle(GraphOf(Trio(ab, bc)), 0)
  {
    var g := GraphOf(Trio(ab, bc));
    GraphDomain(Trio(ab, bc), 0);
    TrioEdges(ab, bc);
    hide GraphOf, Reach, Edge;
    ReachEdge(g, 1, 0);
    assert Edge(g, 0, 1);
  }

  lemma TrioPlain(ab: bool)
    ensures PlainCycle(Trio(ab, false), 0, [1, 2])
  {
    var g, d := GraphOf(Trio(ab, false)), [1, 2];
    TrioEdges(ab, false);
    TrioInjections(ab, false);
    TrioComponent(ab, false);
    hide GraphOf, ClassOf, ForwardInjection, Edge;
    assert d + [1] == [1, 2, 1];
    assert TrioEdge(1, 2) && TrioEdge(2, 1);
    assert IsWalk(g, d);
  }

  /** A and B use forwardRef, B and C do not: the cycle of B and C has none, yet the flag of its component is set. */
  lemma PlainCycleIsHidden(cycles: seq<DiCycle>)
    requires IsCycleReport(Trio(true, false), cycles)
    ensures |cycles| == 1 && cycles[0].hasForwardRef && PlainCycle(Trio(true, false), 0, [1, 2])
  {
    TrioReport(true, false, cycles);
    TrioPlain(true);
  }

  lemma TrioInside()
    ensures InsideEdge(Trio(false, true), 0, 1, 2) && ForwardInjection(Trio(false, true), 1, 2)
  {
    hide GraphOf, ClassOf, ForwardInjection, Edge, Trio;
    TrioEdges(false, true);
    TrioInjections(false, true);
    TrioComponent(false, true);
    assert TrioEdge(1, 2);
  }

  /** B and C use forwardRef, A and B do not: the flag is not set although the component holds a forwardRef. */
  lemma ForwardRefIsMissed(cycles: seq<DiCycle>)
    requires IsCycleReport(Trio(false, true), cycles)
    ensures |cycles| == 1 && !cycles[0].hasForwardRef && ForwardInside(Trio(false, true), 0)
  {
    hide IsCycleReport, InsideEdge, ForwardInjection, Trio;
    TrioReport(false, true, cycles);
    TrioInside();
  }
}
