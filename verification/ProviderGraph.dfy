/** The provider graph: who injects whom, in which order the edges are walked. */
module ProviderGraph {
  import opened Graphs
  import opened Grouping
  import opened NestModel
  import opened Options
  import opened Orders
  import opened ProviderComponents
  import opened SimpleCycles

  // ---- the edges ----

  function ClassNames(providers: seq<Provider>): seq<string> {
    seq(|providers|, i requires 0 <= i < |providers| => providers[i].className)
  }

  /** Provider `u` has a constructor parameter typed with the class name of provider `v`. */
  ghost predicate Injects(providers: seq<Provider>, u: nat, v: nat) {
    && u < |providers| && v < |providers|
    && exists i :: 0 <= i < |providers[u].injections| && providers[u].injections[i].name == providers[v].className
  }

  function EdgesTo(injection: InjectionRef, targets: seq<nat>): seq<InjectionEdge> {
    seq(|targets|, i requires 0 <= i < |targets| => InjectionEdge(injection, targets[i]))
  }

  /** The edges of one provider in the order of its constructor parameters. */
  function SourceEdges(names: seq<string>, injections: seq<InjectionRef>): seq<InjectionEdge> {
    if injections == [] then []
    else
      var last := injections[|injections| - 1];
      SourceEdges(names, injections[..|injections| - 1]) + EdgesTo(last, Positions(names, last.name))
  }

  predicate EdgeLess(a: InjectionEdge, b: InjectionEdge) {
    StringLess(a.injection.name, b.injection.name) || (a.injection.name == b.injection.name && a.target < b.target)
  }

  ghost predicate IsAdjacency(providers: seq<Provider>, adjacency: Adjacency) {
    && |adjacency| == |providers|
    && forall v :: 0 <= v < |providers| ==>
      adjacency[v] == Sort(EdgeLess, SourceEdges(ClassNames(providers), providers[v].injections))
  }

  /** The edges of one provider, before they are sorted. */
  method CollectEdges(names: seq<string>, byClassName: map<string, seq<nat>>, injections: seq<InjectionRef>)
    returns (edges: seq<InjectionEdge>)
    requires forall name :: Positions(names, name) == if name in byClassName then byClassName[name] else []
    ensures edges == SourceEdges(names, injections)
  {
    hide Positions;
    edges := [];
    for i := 0 to |injections|
      invariant edges == SourceEdges(names, injections[..i])
    {
      var injection := injections[i];
      var targets := if injection.name in byClassName then byClassName[injection.name] else [];
      assert injections[..i + 1][..i] == injections[..i];
      edges := edges + EdgesTo(injection, targets);
    }
    assert injections[..|injections|] == injections;
  }

  method BuildAdjacency(providers: seq<Provider>) returns (adjacency: Adjacency)
    ensures IsAdjacency(providers, adjacency)
  {
    hide Positions, Sort, SourceEdges, EdgeLess;
    var names := ClassNames(providers);
    var order, byClassName := GroupPositions(names);
    adjacency := [];
    for v := 0 to |providers|
      invariant |adjacency| == v
      invariant forall u :: 0 <= u < v ==> adjacency[u] == Sort(EdgeLess, SourceEdges(names, providers[u].injections))
    {
      var edges := CollectEdges(names, byClassName, providers[v].injections);
      adjacency := adjacency + [Sort(EdgeLess, edges)];
    }
  }

  lemma EdgeLessIsWeakOrder()
    ensures WeakOrder(EdgeLess)
  {
    forall a: InjectionEdge, b: InjectionEdge
      ensures !EdgeLess(a, a)
      ensures EdgeLess(a, b) || EdgeLess(b, a) || (a.injection.name == b.injection.name && a.target == b.target)
    {
      StringLessTotal(a.injection.name, b.injection.name);
    }
    forall a: InjectionEdge, b: InjectionEdge, c: InjectionEdge | EdgeLess(a, b) && EdgeLess(b, c)
      ensures EdgeLess(a, c)
    {
      if StringLess(a.injection.name, b.injection.name) && StringLess(b.injection.name, c.injection.name) {
        StringLessTransitive(a.injection.name, b.injection.name, c.injection.name);
      }
    }
  }

  lemma {:induction false} SourceEdgesExact(names: seq<string>, injections: seq<InjectionRef>, e: InjectionEdge)
    ensures e in SourceEdges(names, injections)
            <==> e.injection in injections && e.target < |names| && names[e.target] == e.injection.name
  {
    if injections != [] {
      var init, last := injections[..|injections| - 1], injections[|injections| - 1];
      SourceEdgesExact(names, init, e);
      PositionsExact(names, last.name);
      assert injections == init + [last];
      var targets := Positions(names, last.name);
      if e.injection == last && e.target in targets {
        var i :| 0 <= i < |targets| && targets[i] == e.target;
        assert EdgesTo(last, targets)[i] == e;
      }
    }
  }

  /** The adjacency lists hold the injections of the model and nothing else. */
  lemma AdjacencyExact(providers: seq<Provider>, adjacency: Adjacency, u: nat, e: InjectionEdge)
    requires IsAdjacency(providers, adjacency) && u < |providers|
    ensures e in adjacency[u]
            <==> e.injection in providers[u].injections && e.target < |providers|
                 && providers[e.target].className == e.injection.name
  {
    var source := SourceEdges(ClassNames(providers), providers[u].injections);
    EdgeLessIsWeakOrder();
    SortIsStable(EdgeLess, source);
    SourceEdgesExact(ClassNames(providers), providers[u].injections, e);
    assert e in source <==> e in multiset(source);
    assert e in adjacency[u] <==> e in multiset(adjacency[u]);
  }

  /** The graph that is searched has an edge exactly where one provider injects another. */
  lemma GraphIsInjects(providers: seq<Provider>, adjacency: Adjacency, u: nat, v: nat)
    requires IsAdjacency(providers, adjacency)
    ensures Edge(ToGraph(adjacency), u, v) <==> Injects(providers, u, v)
  {
    if Edge(ToGraph(adjacency), u, v) {
      var j :| 0 <= j < |adjacency[u]| && adjacency[u][j].target == v;
      AdjacencyExact(providers, adjacency, u, adjacency[u][j]);
      var i :| 0 <= i < |providers[u].injections| && providers[u].injections[i] == adjacency[u][j].injection;
    }
    if Injects(providers, u, v) {
      var i :| 0 <= i < |providers[u].injections| && providers[u].injections[i].name == providers[v].className;
      var e := InjectionEdge(providers[u].injections[i], v);
      AdjacencyExact(providers, adjacency, u, e);
      var j :| 0 <= j < |adjacency[u]| && adjacency[u][j] == e;
      assert Targets(adjacency[u])[j] == v;
    }
  }

  // ---- which injection an edge stands for ----

  /** The first injection of a class by its name. */
  function FindInjection(injections: seq<InjectionRef>, name: string): (r: Option<InjectionRef>)
    ensures r.Some? <==> exists i :: 0 <= i < |injections| && injections[i].name == name
    ensures r.Some? ==> exists i :: 0 <= i < |injections| && injections[i] == r.value && r.value.name == name
                                    && forall j :: 0 <= j < i ==> injections[j].name != name
  {
    if injections == [] then None
    else
      var init, last := injections[..|injections| - 1], injections[|injections| - 1];
      var found := FindInjection(init, name);
      if found.Some? then
        assert forall i :: 0 <= i < |init| ==> injections[i] == init[i];
        found
      else
        assert forall i :: 0 <= i < |init| ==> injections[i] == init[i];
        if last.name == name then Some(last) else None
  }

  /** The first adjacency entry that leads to `target`. */
  function FindEdge(edges: seq<InjectionEdge>, target: nat): (r: Option<InjectionEdge>)
    ensures r.Some? <==> exists i :: 0 <= i < |edges| && edges[i].target == target
    ensures r.Some? ==> exists i :: 0 <= i < |edges| && edges[i] == r.value && r.value.target == target
                                    && forall j :: 0 <= j < i ==> edges[j].target != target
  {
    if edges == [] then None
    else
      var init, last := edges[..|edges| - 1], edges[|edges| - 1];
      var found := FindEdge(init, target);
      assert forall i :: 0 <= i < |init| ==> edges[i] == init[i];
      if found.Some? then found
      else if last.target == target then Some(last) else None
  }

  /** Among edges that tie with `k` the search for `k`'s target finds the first. */
  lemma {:induction false} FindIsFirstTie(names: seq<string>, edges: seq<InjectionEdge>, k: InjectionEdge)
    requires k.target < |names| && names[k.target] == k.injection.name
    requires forall e :: e in edges ==> e.target < |names| && names[e.target] == e.injection.name
    ensures FindEdge(edges, k.target).Some? <==> Ties(EdgeLess, k, edges) != []
    ensures FindEdge(edges, k.target).Some? ==> FindEdge(edges, k.target).value == Ties(EdgeLess, k, edges)[0]
  {
    if edges != [] {
      var init, last := edges[..|edges| - 1], edges[|edges| - 1];
      FindIsFirstTie(names, init, k);
      assert last in edges;
      StringLessTotal(k.injection.name, last.injection.name);
    }
  }

  /** The first source edge that ties with `k` carries the first injection of that name. */
  lemma {:induction false} FirstSourceTie(names: seq<string>, injections: seq<InjectionRef>, k: InjectionEdge)
    requires k.target < |names| && names[k.target] == k.injection.name
    ensures var ties, found := Ties(EdgeLess, k, SourceEdges(names, injections)), FindInjection(injections, k.injection.name);
            && (found.Some? <==> ties != [])
            && (found.Some? ==> ties[0] == InjectionEdge(found.value, k.target))
  {
    if injections != [] {
      var init, last := injections[..|injections| - 1], injections[|injections| - 1];
      FirstSourceTie(names, init, k);
      var tail := EdgesTo(last, Positions(names, last.name));
      TiesAppend(EdgeLess, k, SourceEdges(names, init), tail);
      TiesOfOne(names, last, k);
    }
  }

  lemma TiesOfOne(names: seq<string>, injection: InjectionRef, k: InjectionEdge)
    requires k.target < |names| && names[k.target] == k.injection.name
    ensures var ties := Ties(EdgeLess, k, EdgesTo(injection, Positions(names, injection.name)));
            && (ties != [] <==> injection.name == k.injection.name)
            && (ties != [] ==> ties[0] == InjectionEdge(injection, k.target))
  {
    var targets := Positions(names, injection.name);
    var edges := EdgesTo(injection, targets);
    var ties := Ties(EdgeLess, k, edges);
    PositionsExact(names, injection.name);
    StringLessTotal(k.injection.name, injection.name);
    StringLessTotal(injection.name, k.injection.name);
    if ties != [] {
      TiesOnlyTied(EdgeLess, k, edges, ties[0]);
    }
    if injection.name == k.injection.name {
      var i :| 0 <= i < |targets| && targets[i] == k.target;
      assert edges[i] == InjectionEdge(injection, k.target);
      TiesComplete(EdgeLess, k, edges, edges[i]);
    }
  }

  /** The adjacency entry chosen for an edge carries the first constructor parameter of that type. */
  lemma ChosenInjection(providers: seq<Provider>, adjacency: Adjacency, u: nat, v: nat)
    requires IsAdjacency(providers, adjacency) && u < |providers| && v < |providers|
    ensures var edge, found := FindEdge(adjacency[u], v), FindInjection(providers[u].injections, providers[v].className);
            && (edge.Some? <==> found.Some?)
            && (edge.Some? ==> edge.value.injection == found.value)
  {
    var names, injections := ClassNames(providers), providers[u].injections;
    var source := SourceEdges(names, injections);
    var k := InjectionEdge(InjectionRef(names[v], false, 0, 0), v);
    EdgeLessIsWeakOrder();
    SortIsStable(EdgeLess, source);
    assert Ties(EdgeLess, k, adjacency[u]) == Ties(EdgeLess, k, source);
    forall e | e in adjacency[u]
      ensures e.target < |names| && names[e.target] == e.injection.name
    {
      AdjacencyExact(providers, adjacency, u, e);
    }
    FindIsFirstTie(names, adjacency[u], k);
    FirstSourceTie(names, injections, k);
  }

  // ---- the order of nodes behind the order of edges ----

  /** Providers by class name, lexicographically, then by position in the model. */
  ghost predicate NodeLess(providers: seq<Provider>, u: nat, v: nat)
    requires u < |providers| && v < |providers|
  {
    Precedes(providers[u].className, providers[v].className)
    || (providers[u].className == providers[v].className && u < v)
  }

  /** The edges of a provider are walked in the order of the injected providers. */
  lemma EdgesFollowNodes(providers: seq<Provider>, adjacency: Adjacency, u: nat, x: nat, y: nat)
    requires IsAdjacency(providers, adjacency) && u < |providers|
    requires Injects(providers, u, x) && Injects(providers, u, y)
    ensures Earlier(ToGraph(adjacency), u, x, y) <==> NodeLess(providers, x, y)
  {
    var g := ToGraph(adjacency);
    GraphIsInjects(providers, adjacency, u, x);
    GraphIsInjects(providers, adjacency, u, y);
    var edges := adjacency[u];
    EdgeLessIsWeakOrder();
    SortIsStable(EdgeLess, SourceEdges(ClassNames(providers), providers[u].injections));
    var i, j := FirstAt(Succ(g, u), x), FirstAt(Succ(g, u), y);
    AdjacencyExact(providers, adjacency, u, edges[i]);
    AdjacencyExact(providers, adjacency, u, edges[j]);
    StringLessTotal(providers[x].className, providers[y].className);
    StringLessIsLexicographic(providers[x].className, providers[y].className);
    hide Precedes, StringLess;
    assert i < j ==> !EdgeLess(edges[j], edges[i]);
    assert j < i ==> !EdgeLess(edges[i], edges[j]);
  }
}
