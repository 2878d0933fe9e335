/** The provider dependency cycles of a Nest application model. */
module ProviderCycles {
  import opened CycleReports
  import opened Graphs
  import opened Grouping
  import opened NestModel
  import opened Options
  import opened Orders
  import opened ProviderComponents
  import opened ProviderGraph
  import opened SimpleCycles
  import opened Texts
  import Tarjan

  // ---- the path of one cycle ----

  /** `rest` continues the path `pre` from its last node on and closes it at `canonical`. */
  ghost function Completed(pre: seq<nat>, rest: seq<nat>): seq<nat>
    requires |pre| > 0 && |rest| > 0
  {
    pre[..|pre| - 1] + rest[..|rest| - 1]
  }

  lemma ClosedByOne(pre: seq<nat>, current: nat, canonical: nat)
    requires |pre| > 0 && pre[|pre| - 1] == current
    ensures Completed(pre, [current, canonical]) == pre
  {
  }

  lemma CompletedLonger(pre: seq<nat>, current: nat, target: nat, rest: seq<nat>)
    requires |pre| > 0 && pre[|pre| - 1] == current && |rest| > 1 && rest[0] == target
    ensures Completed(pre, [current] + rest) == Completed(pre + [target], rest)
  {
  }

  class CyclePathSearch {
    const canonical: nat
    const members: set<nat>
    const adjacency: Adjacency
    var onPath: set<nat>

    ghost const graph: Graph<nat> := ToGraph(adjacency)

    constructor (canonical: nat, members: set<nat>, adjacency: Adjacency)
      ensures this.canonical == canonical && this.members == members && this.adjacency == adjacency
      ensures onPath == {canonical}
    {
      this.canonical, this.members, this.adjacency := canonical, members, adjacency;
      onPath := {canonical};
    }

    /** Search depth-first for the rest of a simple path back to `canonical`. */
    method Dfs(current: nat, ghost pre: seq<nat>) returns (r: Option<seq<nat>>)
      requires |pre| > 0 && pre[|pre| - 1] == current && SimplePath(graph, members, canonical, pre)
      requires onPath == set v | v in pre
      modifies this
      ensures onPath == old(onPath)
      ensures r.None? ==> NoneFrom(graph, members, canonical, pre)
      ensures r.Some? ==>
        && |r.value| > 1 && r.value[0] == current && r.value[|r.value| - 1] == canonical
        && FirstFrom(graph, members, canonical, pre, Completed(pre, r.value))
      decreases members - onPath
    {
      hide SimplePath, SimpleCycle, Exhausted, NoneFrom, FirstFrom, Completed;
      NothingTried(graph, members, canonical, pre);
      var edges := if current < |adjacency| then adjacency[current] else [];
      var i := 0;
      while i < |edges|
        invariant 0 <= i <= |edges| == |Succ(graph, current)| && onPath == old(onPath)
        invariant Exhausted(graph, members, canonical, pre, i)
      {
        var target := edges[i].target;
        assert target == Succ(graph, current)[i];
        if target in members {
          if target == canonical {
            CloseHere(graph, members, canonical, pre, i);
            ClosedByOne(pre, current, canonical);
            return Some([current, canonical]);
          }
          if target !in onPath {
            ExtendPath(graph, members, canonical, pre, target);
            onPath := onPath + {target};
            var rest := Dfs(target, pre + [target]);
            onPath := onPath - {target};
            if rest.Some? {
              TakeFound(graph, members, canonical, pre, i, Completed(pre + [target], rest.value));
              CompletedLonger(pre, current, target, rest.value);
              return Some([current] + rest.value);
            }
          }
        }
        SkipEdge(graph, members, canonical, pre, i);
        i := i + 1;
      }
      NothingFound(graph, members, canonical, pre);
      r := None;
    }
  }

  // ---- the report ----

  datatype DiCycle = DiCycle(
    path: seq<Provider>,
    pathText: string,
    closingEdge: InjectionRef,
    closingConsumer: Provider,
    hasForwardRef: bool)

  predicate NatLess(a: nat, b: nat) {
    a < b
  }

  ghost function GraphOf(providers: seq<Provider>): Graph<nat> {
    map v: nat | v < |providers| ::
      Targets(Sort(EdgeLess, SourceEdges(ClassNames(providers), providers[v].injections)))
  }

  predicate InRange(providers: seq<Provider>, p: seq<nat>) {
    forall i :: 0 <= i < |p| ==> p[i] < |providers|
  }

  function Entries(providers: seq<Provider>, p: seq<nat>): seq<Provider>
    requires InRange(providers, p)
  {
    seq(|p|, i requires 0 <= i < |p| => providers[p[i]])
  }

  /** The first constructor parameter of `u` typed with the class name of `v`. */
  function StepInjection(providers: seq<Provider>, u: nat, v: nat): Option<InjectionRef>
    requires u < |providers| && v < |providers|
  {
    FindInjection(providers[u].injections, providers[v].className)
  }

  /** What a reported cycle says about the simple cycle `c`. */
  ghost predicate Describes(providers: seq<Provider>, c: seq<nat>, cycle: DiCycle) {
    && c != [] && InRange(providers, c)
    && var closed := c + [c[0]];
    && cycle.path == Entries(providers, closed)
    && cycle.pathText == JoinTexts(ClassNames(cycle.path), " → ")
    && cycle.closingConsumer == providers[c[|c| - 1]]
    && StepInjection(providers, c[|c| - 1], c[0]) == Some(cycle.closingEdge)
    && (cycle.hasForwardRef <==> exists k: nat :: ForwardStep(providers, closed, k))
  }

  ghost predicate ForwardStep(providers: seq<Provider>, closed: seq<nat>, k: nat)
    requires InRange(providers, closed)
  {
    && k + 1 < |closed|
    && var step := StepInjection(providers, closed[k], closed[k + 1]);
    step.Some? && step.value.forwardRef
  }

  predicate HasSelfLoop(adjacency: Adjacency, members: seq<nat>) {
    exists i :: 0 <= i < |members| && members[i] < |adjacency|
                && FindEdge(adjacency[members[i]], members[i]).Some?
  }

  predicate ForwardOnPath(adjacency: Adjacency, path: seq<nat>) {
    exists k :: 0 <= k < |path| - 1 && ForwardEdge(adjacency, path[k], path[k + 1])
  }

  predicate ForwardEdge(adjacency: Adjacency, u: nat, v: nat) {
    u < |adjacency| && var edge := FindEdge(adjacency[u], v); edge.Some? && edge.value.injection.forwardRef
  }

  ghost predicate IsGroup(g: Graph<nat>, members: seq<nat>) {
    && members != [] && members[0] in g
    && (forall v: nat :: v in members <==> v in ClassOf(g, members[0]))
    && (forall i, j :: 0 <= i < j < |members| ==> members[i] < members[j])
  }

  lemma AdjacencyGraph(providers: seq<Provider>, adjacency: Adjacency)
    requires IsAdjacency(providers, adjacency)
    ensures ValidAdjacency(adjacency) && Closed(ToGraph(adjacency)) && ToGraph(adjacency) == GraphOf(providers)
    ensures forall v: nat :: v in ToGraph(adjacency) <==> v < |providers|
  {
    forall v, j | 0 <= v < |adjacency| && 0 <= j < |adjacency[v]|
      ensures adjacency[v][j].target < |adjacency|
    {
      AdjacencyExact(providers, adjacency, v, adjacency[v][j]);
    }
    forall u: nat, v: nat | Edge(ToGraph(adjacency), u, v)
      ensures v in ToGraph(adjacency)
    {
      GraphIsInjects(providers, adjacency, u, v);
    }
  }

  /** The test that precedes the path search finds out whether the component is cyclic. */
  lemma GroupOnCycle(g: Graph<nat>, adjacency: Adjacency, members: seq<nat>)
    requires g == ToGraph(adjacency) && Closed(g) && IsGroup(g, members)
    ensures OnCycle(g, members[0]) <==> |members| >= 2 || HasSelfLoop(adjacency, members)
  {
    var s := members[0];
    ClassOnCycle(g, s);
    assert Edge(g, s, s) <==> FindEdge(adjacency[s], s).Some? by {
      assert forall j :: 0 <= j < |adjacency[s]| ==> Succ(g, s)[j] == adjacency[s][j].target;
    }
    if |members| >= 2 {
      assert members[1] in members && members[1] != s;
    } else {
      assert members == [s];
    }
  }

  /** Along a cycle the adjacency entries and the constructor parameters tell the same. */
  lemma ForwardAgrees(providers: seq<Provider>, adjacency: Adjacency, closed: seq<nat>)
    requires IsAdjacency(providers, adjacency) && InRange(providers, closed)
    ensures ForwardOnPath(adjacency, closed) <==> exists k: nat :: ForwardStep(providers, closed, k)
  {
    forall k | 0 <= k < |closed| - 1
      ensures ForwardEdge(adjacency, closed[k], closed[k + 1]) <==> ForwardStep(providers, closed, k)
    {
      ChosenInjection(providers, adjacency, closed[k], closed[k + 1]);
    }
    if k: nat :| ForwardStep(providers, closed, k) {
      assert ForwardEdge(adjacency, closed[k], closed[k + 1]);
    }
  }

  ghost predicate HasClosing(providers: seq<Provider>, c: seq<nat>, s: nat) {
    && c != [] && c[0] == s && c[|c| - 1] < |providers| && s < |providers|
    && StepInjection(providers, c[|c| - 1], s).Some?
  }

  /** The last node of a cycle injects the first, so the closing edge has an injection. */
  lemma ClosingExists(providers: seq<Provider>, adjacency: Adjacency, members: set<nat>, s: nat, c: seq<nat>)
    requires IsAdjacency(providers, adjacency) && members <= ToGraph(adjacency).Keys
    requires SimpleCycle(ToGraph(adjacency), members, s, c)
    ensures InRange(providers, c + [s]) && HasClosing(providers, c, s)
  {
    GraphIsInjects(providers, adjacency, c[|c| - 1], s);
    forall i | 0 <= i < |c|
      ensures c[i] < |providers|
    {
      assert c[i] in c && c[i] in ToGraph(adjacency);
    }
  }

  /** The search for the cycle path, started at the canonical member with nothing else on the path. */
  method CyclePath(canonical: nat, members: set<nat>, adjacency: Adjacency) returns (r: Option<seq<nat>>)
    requires canonical in members
    ensures r.None? ==> NoneFrom(ToGraph(adjacency), members, canonical, [canonical])
    ensures r.Some? ==>
      && |r.value| > 1 && r.value[|r.value| - 1] == canonical
      && FirstFrom(ToGraph(adjacency), members, canonical, [canonical], r.value[..|r.value| - 1])
  {
    StartPath(ToGraph(adjacency), members, canonical);
    hide FirstFrom, NoneFrom, SimplePath;
    var search := new CyclePathSearch(canonical, members, adjacency);
    r := search.Dfs(canonical, [canonical]);
    if r.Some? {
      assert Completed([canonical], r.value) == r.value[..|r.value| - 1];
    }
  }

  lemma SmallestInGroup(g: Graph<nat>, members: seq<nat>)
    requires IsGroup(g, members)
    ensures forall v: nat :: v in ClassOf(g, members[0]) ==> v == members[0] || NatLess(members[0], v)
  {
    hide Reach;
    forall v: nat | v in ClassOf(g, members[0])
      ensures v == members[0] || NatLess(members[0], v)
    {
      assert v in members;
    }
  }

  /** What holds of the path found for a component. */
  lemma PathOfComponent(providers: seq<Provider>, adjacency: Adjacency, members: seq<nat>, c: seq<nat>)
    requires IsAdjacency(providers, adjacency) && IsGroup(ToGraph(adjacency), members)
    requires FirstFrom(ToGraph(adjacency), ClassOf(ToGraph(adjacency), members[0]), members[0], [members[0]], c)
    ensures c != [] && c[0] == members[0] && Canonical(ToGraph(adjacency), NatLess, c)
    ensures InRange(providers, c + [members[0]]) && HasClosing(providers, c, members[0])
  {
    hide Reach, FirstFrom, SimpleCycle, Canonical, IsAdjacency, Edge;
    var g, s := ToGraph(adjacency), members[0];
    SmallestInGroup(g, members);
    FirstIsCanonical(g, NatLess, s, c);
    ClosingExists(providers, adjacency, ClassOf(g, s), s, c);
  }

  /** Build the report of a path; nothing when its closing edge has no injection. */
  method DescribePath(providers: seq<Provider>, adjacency: Adjacency, indices: seq<nat>) returns (r: Option<DiCycle>)
    requires IsAdjacency(providers, adjacency) && |indices| > 1 && indices[0] == indices[|indices| - 1]
    requires InRange(providers, indices) && HasClosing(providers, indices[..|indices| - 1], indices[0])
    ensures r.Some? && Describes(providers, indices[..|indices| - 1], r.value)
  {
    hide IsAdjacency, ForwardOnPath, ForwardStep;
    ghost var c := indices[..|indices| - 1];
    assert indices == c + [c[0]];
    ForwardAgrees(providers, adjacency, indices);
    var consumer := providers[indices[|indices| - 2]];
    var closing := FindInjection(consumer.injections, providers[indices[0]].className);
    if closing.None? {
      return None;
    }
    var path := Entries(providers, indices);
    r := Some(DiCycle(path, JoinTexts(ClassNames(path), " → "), closing.value, consumer, ForwardOnPath(adjacency, indices)));
  }

  /** Build the report of one component, or nothing when the component is not cyclic. */
  method DescribeComponent(providers: seq<Provider>, adjacency: Adjacency, members: seq<nat>)
    returns (r: Option<DiCycle>, ghost c: seq<nat>)
    requires IsAdjacency(providers, adjacency) && IsGroup(ToGraph(adjacency), members)
    ensures r.Some? <==> OnCycle(ToGraph(adjacency), members[0])
    ensures r.Some? ==> c != [] && c[0] == members[0] && Canonical(ToGraph(adjacency), NatLess, c)
    ensures r.Some? ==> Describes(providers, c, r.value)
  {
    hide IsAdjacency, Canonical, OnCycle, FirstFrom, NoneFrom, HasSelfLoop, Edge, Reach, Describes, Closed,
      HasClosing, InRange, Mutual, ToGraph;
    ghost var g := ToGraph(adjacency);
    c := [];
    AdjacencyGraph(providers, adjacency);
    GroupOnCycle(g, adjacency, members);
    if |members| < 2 && !HasSelfLoop(adjacency, members) {
      return None, c;
    }
    var canonical := members[0];
    var memberSet := set v <- members;
    assert memberSet == ClassOf(g, canonical);
    SearchSucceeds(g, canonical);
    var indices := CyclePath(canonical, memberSet, adjacency);
    if indices.None? {
      return None, c;
    }
    c := indices.value[..|indices.value| - 1];
    PathOfComponent(providers, adjacency, members, c);
    assert indices.value == c + [canonical];
    r := DescribePath(providers, adjacency, indices.value);
  }

  // ---- all components ----

  predicate FirstLess(a: seq<nat>, b: seq<nat>) {
    a != [] && b != [] && a[0] < b[0]
  }

  /** The groups of the components, ordered by their first member. */
  ghost predicate AreGroups(g: Graph<nat>, groups: seq<seq<nat>>) {
    && (forall k :: 0 <= k < |groups| ==> IsGroup(g, groups[k]))
    && (forall j, k :: 0 <= j < k < |groups| ==> FirstLess(groups[j], groups[k]))
    && (forall v: nat :: v in g ==> exists k :: 0 <= k < |groups| && Mutual(g, groups[k][0], v))
  }

  method SortedComponents(ghost g: Graph<nat>, componentOf: seq<int>) returns (groups: seq<seq<nat>>)
    requires IsPartition(g, componentOf)
    ensures AreGroups(g, groups)
  {
    var order, byComponent := GroupPositions(componentOf);
    var components := seq(|order|, k requires 0 <= k < |order| => if order[k] in byComponent then byComponent[order[k]] else []);
    ComponentsAreGroups(g, componentOf, order, byComponent, components);
    groups := Sort(FirstLess, components);
    SortSorted(FirstLess, components);
  }

  lemma ComponentsAreGroups(g: Graph<nat>, componentOf: seq<int>, order: seq<int>, byComponent: map<int, seq<nat>>,
                            components: seq<seq<nat>>)
    requires IsPartition(g, componentOf) && IsGrouping(componentOf, order, byComponent)
    requires AreListed(order, byComponent, components)
    ensures AreGroups(g, components) && Sorted(FirstLess, components)
  {
    ComponentsOrdered(componentOf, order, byComponent, components);
    forall k | 0 <= k < |components|
      ensures IsGroup(g, components[k])
    {
      hide IsPartition;
      GroupOfComponent(g, componentOf, order[k], components[k]);
    }
    hide IsPartition, IsGrouping, IsGroup, Mutual;
    forall v: nat | v in g
      ensures exists k :: 0 <= k < |components| && Mutual(g, components[k][0], v)
    {
      var k := FindGroup(g, componentOf, order, byComponent, v);
      assert components[k] == byComponent[order[k]];
    }
  }

  ghost predicate AreListed(order: seq<int>, byComponent: map<int, seq<nat>>, components: seq<seq<nat>>) {
    && |components| == |order|
    && forall k :: 0 <= k < |order| ==> order[k] in byComponent && components[k] == byComponent[order[k]]
  }

  lemma ComponentsOrdered(componentOf: seq<int>, order: seq<int>, byComponent: map<int, seq<nat>>,
                          components: seq<seq<nat>>)
    requires IsGrouping(componentOf, order, byComponent) && AreListed(order, byComponent, components)
    ensures forall j, k :: 0 <= j < k < |components| ==> FirstLess(components[j], components[k])
    ensures Sorted(FirstLess, components)
  {
  }

  lemma FindGroup(g: Graph<nat>, componentOf: seq<int>, order: seq<int>, byComponent: map<int, seq<nat>>, v: nat)
    returns (k: nat)
    requires IsPartition(g, componentOf) && IsGrouping(componentOf, order, byComponent) && v in g
    ensures k < |order| && order[k] in byComponent && byComponent[order[k]] != []
    ensures Mutual(g, byComponent[order[k]][0], v)
  {
    hide Mutual;
    var component := componentOf[v];
    PositionsExact(componentOf, component);
    assert component in byComponent && component in order;
    k :| 0 <= k < |order| && order[k] == component;
    GroupOfComponent(g, componentOf, component, byComponent[component]);
  }

  lemma GroupOfComponent(g: Graph<nat>, componentOf: seq<int>, component: int, members: seq<nat>)
    requires IsPartition(g, componentOf) && members == Positions(componentOf, component) && members != []
    ensures IsGroup(g, members)
  {
    hide Reach;
    PositionsExact(componentOf, component);
    assert members[0] in members;
    forall v: nat
      ensures v in members <==> v in ClassOf(g, members[0])
    {
      assert v in g <==> v < |componentOf|;
    }
  }

  method FindComponents(adjacency: Adjacency) returns (groups: seq<seq<nat>>)
    requires ValidAdjacency(adjacency)
    ensures AreGroups(ToGraph(adjacency), groups)
  {
    hide AreGroups, IsPartition, Tarjan.Inv;
    var search := new ComponentSearch(adjacency);
    search.Run();
    groups := SortedComponents(ToGraph(adjacency), search.componentOf[..]);
  }

  /** The cycles reported for the first `i` groups. */
  ghost predicate ReportedUpTo(g: Graph<nat>, groups: seq<seq<nat>>, i: nat, paths: seq<seq<nat>>)
    requires i <= |groups| && forall k :: 0 <= k < |groups| ==> groups[k] != []
  {
    && (forall p :: 0 <= p < |paths| ==> paths[p] != [] && Canonical(g, NatLess, paths[p]))
    && (forall p, q :: 0 <= p < q < |paths| ==> paths[p][0] < paths[q][0])
    && (forall p, j :: 0 <= p < |paths| && i <= j < |groups| ==> paths[p][0] < groups[j][0])
    && (forall j :: 0 <= j < i && OnCycle(g, groups[j][0]) ==>
          exists p :: 0 <= p < |paths| && paths[p][0] == groups[j][0])
  }

  /** `paths` are the canonical cycles of the provider graph, and `cycles` describes them one by one. */
  ghost predicate Reports(providers: seq<Provider>, paths: seq<seq<nat>>, cycles: seq<DiCycle>) {
    && |paths| == |cycles| && IsReport(GraphOf(providers), NatLess, paths)
    && forall k :: 0 <= k < |cycles| ==> Describes(providers, paths[k], cycles[k])
  }

  /** One description per cyclic component, ordered by the position of the canonical member. */
  ghost predicate IsCycleReport(providers: seq<Provider>, cycles: seq<DiCycle>) {
    exists paths :: Reports(providers, paths, cycles)
  }

  method FindProviderCycles(model: AppModel) returns (cycles: seq<DiCycle>)
    ensures IsCycleReport(model.providers, cycles)
  {
    hide Canonical, OnCycle, IsGroup, AreGroups, ReportedUpTo, Describes, IsAdjacency, ValidAdjacency;
    var providers := model.providers;
    var adjacency := BuildAdjacency(providers);
    AdjacencyGraph(providers, adjacency);
    ghost var g := ToGraph(adjacency);
    var groups := FindComponents(adjacency);
    GroupsNonEmpty(g, groups);
    cycles := [];
    ghost var paths := [];
    for i := 0 to |groups|
      invariant |paths| == |cycles| && ReportedUpTo(g, groups, i, paths)
      invariant forall k :: 0 <= k < |cycles| ==> Describes(providers, paths[k], cycles[k])
    {
      var cycle, path := DescribeComponent(providers, adjacency, groups[i]);
      if cycle.Some? {
        ReportMore(g, groups, i, paths, path);
        cycles, paths := cycles + [cycle.value], paths + [path];
      } else {
        ReportSkip(g, groups, i, paths);
      }
    }
    ReportComplete(g, groups, paths);
    assert Reports(providers, paths, cycles);
  }

  lemma GroupsNonEmpty(g: Graph<nat>, groups: seq<seq<nat>>)
    requires AreGroups(g, groups)
    ensures forall k :: 0 <= k < |groups| ==> groups[k] != [] && IsGroup(g, groups[k])
    ensures ReportedUpTo(g, groups, 0, [])
  {
  }

  lemma ReportMore(g: Graph<nat>, groups: seq<seq<nat>>, i: nat, paths: seq<seq<nat>>, path: seq<nat>)
    requires AreGroups(g, groups) && i < |groups| && forall k :: 0 <= k < |groups| ==> groups[k] != []
    requires ReportedUpTo(g, groups, i, paths)
    requires path != [] && path[0] == groups[i][0] && Canonical(g, NatLess, path)
    ensures ReportedUpTo(g, groups, i + 1, paths + [path])
  {
    hide Canonical, OnCycle, IsGroup, Mutual;
    var more := paths + [path];
    forall j | 0 <= j < i + 1 && OnCycle(g, groups[j][0])
      ensures exists p :: 0 <= p < |more| && more[p][0] == groups[j][0]
    {
      if j == i {
        assert more[|paths|][0] == groups[j][0];
      } else {
        var p :| 0 <= p < |paths| && paths[p][0] == groups[j][0];
        assert more[p][0] == groups[j][0];
      }
    }
    assert forall j :: i + 1 <= j < |groups| ==> FirstLess(groups[i], groups[j]);
  }

  lemma ReportSkip(g: Graph<nat>, groups: seq<seq<nat>>, i: nat, paths: seq<seq<nat>>)
    requires i < |groups| && forall k :: 0 <= k < |groups| ==> groups[k] != []
    requires ReportedUpTo(g, groups, i, paths) && !OnCycle(g, groups[i][0])
    ensures ReportedUpTo(g, groups, i + 1, paths)
  {
    hide Canonical, OnCycle;
  }

  lemma GroupStart(g: Graph<nat>, members: seq<nat>)
    requires IsGroup(g, members)
    ensures members != [] && members[0] in g
  {
  }

  lemma ReportComplete(g: Graph<nat>, groups: seq<seq<nat>>, paths: seq<seq<nat>>)
    requires Closed(g) && AreGroups(g, groups) && forall k :: 0 <= k < |groups| ==> groups[k] != []
    requires ReportedUpTo(g, groups, |groups|, paths)
    ensures IsReport(g, NatLess, paths)
  {
    hide Canonical, OnCycle, Mutual, Closed, IsGroup, Edge;
    forall v: nat | v in g && OnCycle(g, v)
      ensures exists p :: 0 <= p < |paths| && Mutual(g, paths[p][0], v)
    {
      var k :| 0 <= k < |groups| && Mutual(g, groups[k][0], v);
      GroupStart(g, groups[k]);
      OnCycleInClass(g, groups[k][0], v);
      var p :| 0 <= p < |paths| && paths[p][0] == groups[k][0];
    }
  }

  /** The report depends on the model alone, whatever order the search takes. */
  lemma ReportDetermined(providers: seq<Provider>, a: seq<DiCycle>, b: seq<DiCycle>)
    requires IsCycleReport(providers, a) && IsCycleReport(providers, b)
    ensures a == b
  {
    var cs, ds :| Reports(providers, cs, a) && Reports(providers, ds, b);
    ReportUnique(GraphOf(providers), NatLess, cs, ds);
    hide IsReport;
    forall k | 0 <= k < |a|
      ensures a[k] == b[k]
    {
      assert Describes(providers, cs[k], a[k]) && Describes(providers, ds[k], b[k]);
    }
  }

  // ---- what a report reads like ----

  /** The parameter at `j` is the first one of that type. */
  predicate FirstOfType(injections: seq<InjectionRef>, j: nat, name: string) {
    j < |injections| && injections[j].name == name && forall i :: 0 <= i < j ==> injections[i].name != name
  }

  /** `injection` is the first parameter with which the consumer injects a class of that name. */
  ghost predicate FirstInjection(consumer: Provider, name: string, injection: InjectionRef) {
    exists j: nat :: FirstOfType(consumer.injections, j, name) && consumer.injections[j] == injection
  }

  lemma FindIsFirst(consumer: Provider, name: string, injection: InjectionRef)
    ensures FindInjection(consumer.injections, name) == Some(injection) <==> FirstInjection(consumer, name, injection)
  {
    var found := FindInjection(consumer.injections, name);
    if found.Some? {
      var i :| 0 <= i < |consumer.injections| && consumer.injections[i] == found.value && found.value.name == name
               && forall j :: 0 <= j < i ==> consumer.injections[j].name != name;
      assert FirstOfType(consumer.injections, i, name);
    }
  }

  lemma StepExists(providers: seq<Provider>, c: seq<nat>, i: nat)
    requires Canonical(GraphOf(providers), NatLess, c) && i < |c| && InRange(providers, c)
    ensures StepInjection(providers, c[i], (c + [c[0]])[i + 1]).Some?
  {
    hide Before, Reach;
    var g := GraphOf(providers);
    var adjacency := seq(|providers|, u requires 0 <= u < |providers| =>
      Sort(EdgeLess, SourceEdges(ClassNames(providers), providers[u].injections)));
    assert IsAdjacency(providers, adjacency);
    AdjacencyGraph(providers, adjacency);
    hide IsAdjacency, GraphOf;
    assert SimpleCycle(g, ClassOf(g, c[0]), c[0], c);
    assert Edge(g, c[i], (c + [c[0]])[i + 1]);
    GraphIsInjects(providers, adjacency, c[i], (c + [c[0]])[i + 1]);
  }

  /**
   * A closed path on which each provider injects the next; the last consumer before it closes, and the first parameter
   * with which that consumer injects the first provider.
   */
  ghost predicate IsClosedPath(providers: seq<Provider>, cycle: DiCycle) {
    var n := |cycle.path| - 1;
    && n >= 1 && cycle.path[n] == cycle.path[0]
    && (forall i: nat :: i < n ==> cycle.path[i] in providers && InjectsNextAt(cycle.path, i))
    && cycle.closingConsumer == cycle.path[n - 1]
    && FirstInjection(cycle.closingConsumer, cycle.path[0].className, cycle.closingEdge)
  }

  ghost predicate InjectsNext(consumer: Provider, next: Provider) {
    exists i :: 0 <= i < |consumer.injections| && consumer.injections[i].name == next.className
  }

  ghost predicate InjectsNextAt(path: seq<Provider>, i: nat) {
    i + 1 < |path| && InjectsNext(path[i], path[i + 1])
  }

  /** The first parameter of one of the steps carries forwardRef. */
  ghost predicate SomeStepForwards(cycle: DiCycle) {
    exists i: nat :: ForwardsNextAt(cycle.path, i)
  }

  ghost predicate ForwardsNextAt(path: seq<Provider>, i: nat) {
    i + 1 < |path| && StepForwards(path[i], path[i + 1])
  }

  ghost predicate StepForwards(consumer: Provider, next: Provider) {
    exists injection :: FirstInjection(consumer, next.className, injection) && injection.forwardRef
  }

  lemma StepReads(providers: seq<Provider>, u: nat, v: nat)
    requires u < |providers| && v < |providers|
    ensures var step := StepInjection(providers, u, v);
            && (step.Some? <==> InjectsNext(providers[u], providers[v]))
            && (step.Some? ==> FirstInjection(providers[u], providers[v].className, step.value))
            && (step.Some? && step.value.forwardRef <==> StepForwards(providers[u], providers[v]))
  {
    var step := StepInjection(providers, u, v);
    if step.Some? {
      FindIsFirst(providers[u], providers[v].className, step.value);
    }
    forall injection
      ensures FirstInjection(providers[u], providers[v].className, injection) <==> step == Some(injection)
    {
      FindIsFirst(providers[u], providers[v].className, injection);
    }
    hide FirstInjection;
  }

  /** What is reported of a cycle, in terms of the providers alone. */
  lemma ReportReads(providers: seq<Provider>, cycles: seq<DiCycle>, k: nat)
    requires IsCycleReport(providers, cycles) && k < |cycles|
    ensures IsClosedPath(providers, cycles[k])
    ensures cycles[k].hasForwardRef <==> SomeStepForwards(cycles[k])
    ensures cycles[k].pathText
            == JoinTexts(seq(|cycles[k].path|, i requires 0 <= i < |cycles[k].path| => cycles[k].path[i].className), " → ")
  {
    var paths :| Reports(providers, paths, cycles);
    hide Canonical, Describes;
    assert Canonical(GraphOf(providers), NatLess, paths[k]) && Describes(providers, paths[k], cycles[k]);
    DescriptionReads(providers, paths[k], cycles[k]);
  }

  lemma DescriptionReads(providers: seq<Provider>, c: seq<nat>, cycle: DiCycle)
    requires Canonical(GraphOf(providers), NatLess, c) && Describes(providers, c, cycle)
    ensures IsClosedPath(providers, cycle)
    ensures cycle.hasForwardRef <==> SomeStepForwards(cycle)
    ensures cycle.pathText
            == JoinTexts(seq(|cycle.path|, i requires 0 <= i < |cycle.path| => cycle.path[i].className), " → ")
  {
    hide Canonical, StepInjection, InjectsNext, StepForwards, FirstInjection, JoinTexts;
    hide InjectsNextAt, ForwardsNextAt, ForwardStep, GraphOf;
    var n := |c|;
    forall i: nat | i < n
      ensures cycle.path[i] in providers && InjectsNextAt(cycle.path, i)
    {
      PathStep(providers, c, cycle, i);
    }
    forall i: nat
      ensures ForwardsNextAt(cycle.path, i) <==> InRange(providers, c + [c[0]]) && ForwardStep(providers, c + [c[0]], i)
    {
      PathStep(providers, c, cycle, i);
    }
    LastStep(providers, c, cycle);
    assert ClassNames(cycle.path) == seq(|cycle.path|, i requires 0 <= i < |cycle.path| => cycle.path[i].className);
  }

  lemma PathStep(providers: seq<Provider>, c: seq<nat>, cycle: DiCycle, i: nat)
    requires Canonical(GraphOf(providers), NatLess, c) && Describes(providers, c, cycle)
    ensures i < |c| ==> cycle.path[i] in providers && InjectsNextAt(cycle.path, i)
    ensures ForwardsNextAt(cycle.path, i) <==> InRange(providers, c + [c[0]]) && ForwardStep(providers, c + [c[0]], i)
  {
    hide Canonical, StepInjection, InjectsNext, StepForwards, FirstInjection, JoinTexts, GraphOf;
    var closed := c + [c[0]];
    if i < |c| {
      StepExists(providers, c, i);
      StepReads(providers, closed[i], closed[i + 1]);
      assert cycle.path[i] == providers[closed[i]] && cycle.path[i + 1] == providers[closed[i + 1]];
    }
  }

  lemma LastStep(providers: seq<Provider>, c: seq<nat>, cycle: DiCycle)
    requires Canonical(GraphOf(providers), NatLess, c) && Describes(providers, c, cycle)
    ensures |cycle.path| == |c| + 1 >= 2 && cycle.path[|c|] == cycle.path[0]
    ensures cycle.closingConsumer == cycle.path[|c| - 1]
    ensures FirstInjection(cycle.closingConsumer, cycle.path[0].className, cycle.closingEdge)
  {
    hide Canonical, StepInjection, InjectsNext, StepForwards, FirstInjection, JoinTexts, GraphOf;
    StepReads(providers, c[|c| - 1], c[0]);
  }
}
