/** The recursive component search over the import graph and the canonical chain of each component. */
module ImportCycles {
  import opened CycleReports
  import opened Graphs
  import opened Orders
  import opened SimpleCycles
  import opened Tarjan

  type Edges = Graph<string>

  /** A closed component: its members are exactly the nodes that carry its number. */
  ghost predicate HoldsComponent(comp: map<string, nat>, component: seq<string>) {
    && |component| > 1 && Distinct(component)
    && component[0] in comp
    && forall v :: v in component <==> v in comp && comp[v] == comp[component[0]]
  }

  /** `components` lists the closed components of two or more nodes. */
  ghost predicate Lists(comp: map<string, nat>, components: seq<seq<string>>) {
    && (forall k :: 0 <= k < |components| ==> HoldsComponent(comp, components[k]))
    && (forall j, k :: 0 <= j < k < |components| ==> comp[components[j][0]] < comp[components[k][0]])
    && (forall u, v :: u in comp && v in comp && u != v && comp[u] == comp[v] ==>
          exists k :: 0 <= k < |components| && u in components[k])
  }

  /** Discovery numbers are never changed or taken back. */
  ghost predicate Extends(before: Search<string>, after: Search<string>) {
    forall v :: v in before.index ==> v in after.index && after.index[v] == before.index[v]
  }

  /** The frame of `node` is on top and has walked `i` edges. */
  ghost predicate AtEdge(s: Search<string>, node: string, i: nat) {
    |s.call| > 0 && s.call[|s.call| - 1] == node && node in s.pos && s.pos[node] == i
  }

  /** The search from `node` is over: either its component was closed or its frame waits for its parent. */
  ghost predicate Returned(g: Edges, before: Search<string>, after: Search<string>, node: string) {
    && node in after.index && node in after.low && after.index[node] == before.next
    && Extends(before, after)
    && if node in after.on
       then after.call == before.call + [node] && after.pos == before.pos[node := |Succ(g, node)|]
            && after.low[node] < after.index[node]
       else after.call == before.call && after.pos == before.pos && after.low[node] == after.index[node]
  }

  /** The parent takes over the `low` of a returned child, whose frame is then dropped. */
  ghost function AfterChild(s: Search<string>, node: string, next: string): Search<string>
    requires node in s.pos && next in s.low
    requires next in s.on ==> |s.call| > 0 && node != s.call[|s.call| - 1]
  {
    var l := LowerTo(s, node, s.low[next]);
    Advance(if next in s.on then Retire(l) else l, node)
  }

  /** With the child accounted for the parent goes on where it was, one edge further. */
  ghost predicate Resumed(g: Edges, before: Search<string>, s: Search<string>, node: string, next: string, i: nat) {
    && node in s.low && node in s.pos && next in s.low
    && (next in s.on ==> |s.call| > 0 && node != s.call[|s.call| - 1])
    && var t := AfterChild(s, node, next);
    && Inv(g, t) && t.call == before.call && t.pos == before.pos[node := i + 1]
    && t.index == s.index && t.comp == s.comp && t.on == s.on && t.stack == s.stack && t.next == s.next
    && t.low == LowerTo(s, node, s.low[next]).low
    && Extends(before, t)
  }

  /** The child waits on the stack: its `low` is handed down and its frame dropped. */
  lemma AfterWaiting(g: Edges, before: Search<string>, s: Search<string>, node: string, next: string, i: nat)
    requires AtEdge(before, node, i) && i < |Succ(g, node)| && next == Succ(g, node)[i] && next !in before.index
    requires Returned(g, before, s, next) && Inv(g, before) && Inv(g, s) && next in s.on
    ensures Resumed(g, before, s, node, next, i)
  {
    hide Inv;
    LowOfLive(g, before, node);
    LowOfLive(g, s, node);
    LowOfLive(g, s, next);
    HandDown(g, s, node, next);
    var l := LowerTo(s, node, s.low[next]);
    assert Finished(g, l, next);
    ReturnInv(g, l, next);
    AdvanceInv(g, Retire(l), node);
    assert s.call[..|s.call| - 1] == before.call;
    NotLive(g, before, next);
    assert (before.pos[next := |Succ(g, next)|] - {next}) == before.pos;
  }

  /** The child's component is closed: nothing is handed down. */
  lemma AfterClosed(g: Edges, before: Search<string>, s: Search<string>, node: string, next: string, i: nat)
    requires AtEdge(before, node, i) && i < |Succ(g, node)| && next == Succ(g, node)[i] && next !in before.index
    requires Returned(g, before, s, next) && Inv(g, before) && Inv(g, s) && next !in s.on
    ensures Resumed(g, before, s, node, next, i)
  {
    hide Inv;
    LowOfLive(g, before, node);
    LowOfLive(g, s, node);
    assert LowerTo(s, node, s.low[next]) == s;
    AdvanceInv(g, s, node);
  }

  lemma AfterChildInv(g: Edges, before: Search<string>, s: Search<string>, node: string, next: string, i: nat)
    requires AtEdge(before, node, i) && i < |Succ(g, node)| && next == Succ(g, node)[i] && next !in before.index
    requires Returned(g, before, s, next) && Inv(g, before) && Inv(g, s)
    ensures Resumed(g, before, s, node, next, i)
  {
    hide Inv, Returned, Resumed, AtEdge;
    if next in s.on {
      AfterWaiting(g, before, s, node, next, i);
    } else {
      AfterClosed(g, before, s, node, next, i);
    }
  }

  lemma NotLive(g: Edges, s: Search<string>, v: string)
    requires Inv(g, s) && v !in s.index
    ensures v !in s.pos
  {
  }

  class CycleFinder {
    const edges: Edges
    var indexOf: map<string, nat>
    var low: map<string, nat>
    var onStack: set<string>
    var stack: seq<string>
    var components: seq<seq<string>>
    var counter: nat
    ghost var view: Search<string>

    ghost predicate Represents()
      reads this
    {
      && indexOf == view.index && low == view.low && onStack == view.on && stack == view.stack && counter == view.next
    }

    ghost predicate Valid()
      reads this
    {
      Closed(edges) && Represents() && Inv(edges, view) && Lists(view.comp, components)
    }

    constructor (edges: Edges)
      requires Closed(edges)
      ensures Valid() && this.edges == edges && view == Start()
    {
      this.edges := edges;
      indexOf, low, onStack, stack, components, counter := map[], map[], {}, [], [], 0;
      view := Start();
      new;
      StartInv(edges);
    }

    /** Lower `low` of the node to `x` unless it is smaller already. */
    method SetMin(node: string, x: nat)
      requires Represents() && node in low
      modifies this`low, this`view
      ensures Represents() && view == LowerTo(old(view), node, x)
    {
      var own := low[node];
      low := low[node := if own <= x then own else x];
      if x < own {
        view := Lower(view, node, x);
      }
    }
  
    /** Walk one out-edge of the node on top. */
    method WalkEdge(node: string, i: nat)
      requires i < |Succ(edges, node)| && AtEdge(view, node, i)
      requires Valid()
      modifies this
      ensures Valid() && Extends(old(view), view)
      ensures view.call == old(view).call && view.pos == old(view).pos[node := i + 1]
      decreases edges.Keys - indexOf.Keys, 1
    {
      hide Inv, Lists, Extends, Closed, Returned, AfterChild;
      var next := Succ(edges, node)[i];
      ghost var before := view;
      EdgeTarget(node, i);
      LowOfLive(edges, view, node);
      if next !in indexOf {
        StrongConnect(next);
        AfterChildInv(edges, before, view, node, next, i);
        ghost var t := AfterChild(view, node, next);
        SetMin(node, low[next]);
        view := t;
      } else if next in onStack {
        ReachSelf(edges, next);
        WalkBack(edges, before, node, next, next);
        SetMin(node, indexOf[next]);
        view := Advance(view, node);
        ExtendsSame(before, before, view);
      } else {
        WalkToClosed(edges, before, node, next);
        view := Advance(view, node);
        ExtendsSame(before, before, view);
      }
    }

    lemma EdgeTarget(node: string, i: nat)
      requires Valid() && i < |Succ(edges, node)|
      ensures Succ(edges, node)[i] in edges && Edge(edges, node, Succ(edges, node)[i])
    {
      hide Inv, Lists;
      assert Edge(edges, node, Succ(edges, node)[i]);
    }

    /** Number a node and put it on the stack. */
    method Open(node: string)
      requires node in edges && node !in indexOf
      requires view.call != [] ==> Edge(edges, view.call[|view.call| - 1], node)
      requires Valid()
      modifies this
      ensures Valid() && view == Discover(old(view), node)
    {
      hide Inv, Lists, Closed;
      DiscoverInv(edges, view, node);
      indexOf := indexOf[node := counter];
      low := low[node := counter];
      counter := counter + 1;
      stack := stack + [node];
      onStack := onStack + {node};
      view := Discover(view, node);
    }

    /** Search depth-first from an undiscovered node. */
    method StrongConnect(node: string)
      requires node in edges && node !in indexOf
      requires view.call != [] ==> Edge(edges, view.call[|view.call| - 1], node)
      requires Valid()
      modifies this
      ensures Valid() && Returned(edges, old(view), view, node)
      decreases edges.Keys - indexOf.Keys, 0
    {
      hide Inv, Lists, Extends, Closed, Returned;
      ghost var before := view;
      NotLive(edges, before, node);
      Open(node);
      ExtendsSame(view, view, view);
      FewerLeft(before, node);
      WalkEdges(node);
      ExtendsDiscover(before, view, node);
      Leave(before, node);
    }

    /** Walk all out-edges of the node on top. */
    method WalkEdges(node: string)
      requires AtEdge(view, node, 0)
      requires Valid()
      modifies this
      ensures Valid() && Extends(old(view), view)
      ensures view.call == old(view).call && view.pos == old(view).pos[node := |Succ(edges, node)|]
      decreases edges.Keys - indexOf.Keys, 2
    {
      hide Inv, Lists, Extends, Closed;
      ghost var begun := view;
      var nexts := Succ(edges, node);
      ExtendsSame(begun, begun, begun);
      var i := 0;
      while i < |nexts|
        invariant 0 <= i <= |nexts| && Valid()
        invariant view.call == begun.call && view.pos == begun.pos[node := i]
        invariant Extends(begun, view)
      {
        NoneForgotten(begun);
        ghost var during := view;
        WalkEdge(node, i);
        ExtendsTwice(begun, during, view);
        i := i + 1;
      }
    }

    lemma NoneForgotten(before: Search<string>)
      requires Extends(before, view) && indexOf == view.index
      ensures edges.Keys - indexOf.Keys <= edges.Keys - before.index.Keys
    {
    }

    lemma FewerLeft(before: Search<string>, node: string)
      requires Extends(Discover(before, node), view) && indexOf == view.index
      requires node in edges && node !in before.index
      ensures edges.Keys - indexOf.Keys < edges.Keys - before.index.Keys
    {
      assert node in Discover(before, node).index;
      assert node in edges.Keys - before.index.Keys && node !in edges.Keys - indexOf.Keys;
      forall v | v in before.index
        ensures v in indexOf
      {
        assert v in Discover(before, node).index;
      }
    }

    /** The node on top has walked all its edges; if it is the root of its component, close that. */
    method Leave(ghost before: Search<string>, node: string)
      requires node in view.index && view.index[node] == before.next && Extends(before, view)
      requires view.call == before.call + [node] && view.pos == before.pos[node := |Succ(edges, node)|]
      requires Valid() && node !in before.pos
      modifies this
      ensures Valid() && Returned(edges, before, view, node)
    {
      hide Inv, Lists, Extends, Closed, Returned, Members;
      LowOfLive(edges, view, node);
      NotClosedReturns(edges, before, view, node);
      if low[node] != indexOf[node] {
        return;
      }
      StackOf(edges, view, node);
      var component := PopComponent(node);
      ghost var k := |stack|;
      CloseInv(edges, view, k);
      ListsClose(edges, view, k, component, components);
      ClosedReturns(edges, before, view, k, node);
      if |component| > 1 {
        components := components + [component];
      }
      view := Close(view, k);
    }

    /** Start a search from every file that is still undiscovered. */
    method Run(files: seq<string>)
      requires Valid() && view == Start() && forall f :: f in files <==> f in edges
      modifies this
      ensures AreClasses(edges, components)
    {
      hide Inv, Lists, Extends, Closed, Returned;
      for i := 0 to |files|
        invariant Valid() && view.call == []
        invariant forall j :: 0 <= j < i ==> files[j] in view.index
      {
        ghost var before := view;
        if files[i] !in indexOf {
          StrongConnect(files[i]);
          OutermostCloses(edges, before, view, files[i]);
        }
      }
      ClassesListed(edges, view, components, files);
    }

    method PopComponent(node: string) returns (component: seq<string>)
      requires Represents() && Distinct(view.stack) && node in view.stack
      modifies this`stack, this`onStack
      ensures |stack| < |view.stack| && view.stack[|stack|] == node && PoppedTo(component)
    {
      hide Distinct, Members;
      component := [];
      PoppedNothing(view);
      while |stack| > 0
        invariant PoppedTo(component) && node in stack
        decreases |stack|
      {
        ghost var k: nat := |stack| - 1;
        var member := stack[|stack| - 1];
        MemberAdded(view, k);
        DistinctAppend(component, member);
        stack := stack[..|stack| - 1];
        onStack := onStack - {member};
        component := component + [member];
        assert view.on - Members(view, k) == view.on - Members(view, k + 1) - {member};
        if member == node {
          break;
        }
      }
    }

    ghost predicate PoppedTo(component: seq<string>)
      reads this
    {
      && |stack| <= |view.stack| && stack == view.stack[..|stack|] && onStack == view.on - Members(view, |stack|)
      && Distinct(component) && Holds(component, Members(view, |stack|)) && |component| == |view.stack| - |stack|
    }
  }

  /** The first member of each class, and every class of two or more nodes exactly once. */
  ghost predicate AreClasses(g: Edges, components: seq<seq<string>>) {
    && (forall k :: 0 <= k < |components| ==> IsClass(g, components[k]))
    && (forall j, k :: 0 <= j < k < |components| ==> !Mutual(g, components[j][0], components[k][0]))
    && (forall u, v :: u in g && v in ClassOf(g, u) && u != v ==> exists k :: 0 <= k < |components| && u in components[k])
  }

  ghost predicate IsClass(g: Edges, component: seq<string>) {
    && |component| > 1 && Distinct(component) && component[0] in g
    && forall v :: v in component <==> v in ClassOf(g, component[0])
  }

  /** A search that was started on an empty call stack closes its component. */
  lemma OutermostCloses(g: Edges, before: Search<string>, after: Search<string>, node: string)
    requires Returned(g, before, after, node) && before.call == [] && Inv(g, after)
    ensures after.call == [] && node in after.index
    ensures forall v :: v in before.index ==> v in after.index
  {
    hide Inv;
    if node in after.on {
      OutermostIsRoot(g, after);
    }
  }

  lemma ClassesListed(g: Edges, s: Search<string>, components: seq<seq<string>>, files: seq<string>)
    requires Inv(g, s) && s.call == [] && Lists(s.comp, components) && Closed(g)
    requires forall f :: f in files <==> f in g
    requires forall j :: 0 <= j < |files| ==> files[j] in s.index
    ensures AreClasses(g, components)
  {
    NothingLeftOnStack(g, s);
    assert s.comp.Keys == g.Keys && Components(g, s.comp) by {
      hide Frontier, LiveReach, LowSound, LowRetired, LowEdges, LowUnder, Stacks, Components;
      forall f | f in g
        ensures f in s.comp
      {
        assert f in files;
      }
    }
    hide Inv;
    ClassesOfNumbers(g, s.comp, components);
  }

  lemma ClassesOfNumbers(g: Edges, comp: map<string, nat>, components: seq<seq<string>>)
    requires Components(g, comp) && comp.Keys == g.Keys && Lists(comp, components)
    ensures AreClasses(g, components)
  {
    hide Reach;
    forall k | 0 <= k < |components|
      ensures IsClass(g, components[k])
    {
      assert HoldsComponent(comp, components[k]);
    }
    forall u, v | u in g && v in ClassOf(g, u) && u != v
      ensures exists k :: 0 <= k < |components| && u in components[k]
    {
      assert comp[u] == comp[v];
    }
  }

  lemma PoppedNothing(s: Search<string>)
    ensures s.on - Members(s, |s.stack|) == s.on && Members(s, |s.stack|) == {}
    ensures s.stack[..|s.stack|] == s.stack && Distinct<string>([]) && Holds<string>([], {})
  {
  }

  lemma DistinctAppend(q: seq<string>, v: string)
    requires Distinct(q)
    ensures v !in q ==> Distinct(q + [v])
  {
  }

  lemma ExtendsSame(a: Search<string>, b: Search<string>, c: Search<string>)
    requires c.index == b.index
    ensures Extends(a, b) ==> Extends(a, c)
    ensures a.index == b.index ==> Extends(a, c)
  {
  }

  lemma ExtendsTwice(a: Search<string>, b: Search<string>, c: Search<string>)
    requires Extends(a, b) && Extends(b, c)
    ensures Extends(a, c)
  {
  }

  lemma ExtendsDiscover(a: Search<string>, b: Search<string>, node: string)
    requires Extends(Discover(a, node), b) && node !in a.index
    ensures Extends(a, b) && node in b.index && b.index[node] == a.next
  {
    assert node in Discover(a, node).index;
    assert forall v :: v in a.index ==> v in Discover(a, node).index;
  }

  lemma StackOf(g: Edges, s: Search<string>, v: string)
    requires Inv(g, s) && v in s.on
    ensures v in s.stack && Distinct(s.stack)
  {
  }

  lemma NotClosedReturns(g: Edges, before: Search<string>, s: Search<string>, node: string)
    requires node in s.index && s.index[node] == before.next && Extends(before, s) && node in s.on && node in s.low
    requires s.call == before.call + [node] && s.pos == before.pos[node := |Succ(g, node)|]
    ensures s.low[node] < s.index[node] ==> Returned(g, before, s, node)
  {
    hide Extends;
  }

  lemma ClosedReturns(g: Edges, before: Search<string>, s: Search<string>, k: nat, node: string)
    requires node in s.index && s.index[node] == before.next && Extends(before, s) && node !in before.pos
    requires s.call == before.call + [node] && s.pos == before.pos[node := |Succ(g, node)|]
    requires AtRoot(g, s, k)
    ensures Returned(g, before, Close(s, k), node)
  {
    ExtendsSame(before, s, Close(s, k));
    hide Extends;
    assert node == s.stack[k..][0];
    assert node in Members(s, k);
  }

  lemma ListsClose(g: Edges, s: Search<string>, k: nat, component: seq<string>, components: seq<seq<string>>)
    requires Lists(s.comp, components) && AtRoot(g, s, k) && Inv(g, s)
    requires Distinct(component) && Holds(component, Members(s, k)) && |component| == |s.stack| - k
    ensures Lists(Close(s, k).comp, if |component| > 1 then components + [component] else components)
  {
    hide Lists, Members;
    ClosedNumbers(g, s, k);
    assert component != [];
    ListsMore(s.comp, Close(s, k).comp, Members(s, k), s.nextComp, component, components);
  }

  /** `comp'` numbers `members` with the new number `c`. */
  ghost predicate NumbersMore(comp: map<string, nat>, comp': map<string, nat>, members: set<string>, c: nat) {
    && (forall v :: v in comp ==> v !in members && comp[v] < c)
    && (forall v :: v in comp' <==> v in comp || v in members)
    && (forall v :: v in comp ==> comp'[v] == comp[v])
    && (forall v :: v in members ==> comp'[v] == c)
  }

  lemma ClosedNumbers(g: Edges, s: Search<string>, k: nat)
    requires AtRoot(g, s, k) && Inv(g, s)
    ensures NumbersMore(s.comp, Close(s, k).comp, Members(s, k), s.nextComp)
  {
    hide Frontier, LiveReach, LowSound, LowRetired, LowEdges, LowUnder, Components, Members, Ascending, Holds;
    MembersAbove(g, s, k);
  }

  lemma ListsMore(comp: map<string, nat>, comp': map<string, nat>, members: set<string>, c: nat,
                  component: seq<string>, components: seq<seq<string>>)
    requires Lists(comp, components) && NumbersMore(comp, comp', members, c)
    requires Distinct(component) && Holds(component, members) && component != []
    ensures Lists(comp', if |component| > 1 then components + [component] else components)
  {
    hide HoldsComponent, Holds, Distinct, Lists;
    var more := if |component| > 1 then components + [component] else components;
    OlderListed(comp, comp', members, c, components);
    NewHolds(comp, comp', members, c, component);
    NewIsLast(comp', members, c, component);
    forall u, v | u in comp' && v in comp' && u != v && comp'[u] == comp'[v]
      ensures InSome(more, u)
    {
      PairListed(comp, comp', members, c, component, components, u, v);
    }
    hide NumbersMore, InSome;
    AreLists(comp', component, components, c);
  }

  ghost predicate InSome(components: seq<seq<string>>, u: string) {
    exists j :: 0 <= j < |components| && u in components[j]
  }

  lemma AreLists(comp: map<string, nat>, component: seq<string>, components: seq<seq<string>>, c: nat)
    requires component != [] && component[0] in comp && comp[component[0]] == c
    requires |component| > 1 ==> HoldsComponent(comp, component)
    requires forall j :: 0 <= j < |components| ==> HoldsComponent(comp, components[j]) && comp[components[j][0]] < c
    requires forall j, k | 0 <= j < k < |components|
               && HoldsComponent(comp, components[j]) && HoldsComponent(comp, components[k])
             :: comp[components[j][0]] < comp[components[k][0]]
    requires forall u, v :: u in comp && v in comp && u != v && comp[u] == comp[v] ==>
               InSome(if |component| > 1 then components + [component] else components, u)
    ensures Lists(comp, if |component| > 1 then components + [component] else components)
  {
    var more := if |component| > 1 then components + [component] else components;
    assert forall j :: 0 <= j < |more| ==> HoldsComponent(comp, more[j]);
    forall j, k | 0 <= j < k < |more|
      ensures comp[more[j][0]] < comp[more[k][0]]
    {
      assert more[j] == components[j];
    }
    hide HoldsComponent;
  }

  /** The components listed before stay listed, in order, below the new number. */
  lemma OlderListed(comp: map<string, nat>, comp': map<string, nat>, members: set<string>, c: nat,
                    components: seq<seq<string>>)
    requires Lists(comp, components) && NumbersMore(comp, comp', members, c)
    ensures forall j :: 0 <= j < |components| ==> HoldsComponent(comp', components[j]) && comp'[components[j][0]] < c
    ensures forall j, k :: 0 <= j < k < |components| ==> comp'[components[j][0]] < comp'[components[k][0]]
  {
    forall j | 0 <= j < |components|
      ensures HoldsComponent(comp', components[j]) && comp'[components[j][0]] < c
      ensures components[j] != [] && components[j][0] in comp && comp'[components[j][0]] == comp[components[j][0]]
    {
      HoldsStill(comp, comp', members, c, components[j]);
    }
    hide HoldsComponent, NumbersMore;
  }

  lemma NewIsLast(comp': map<string, nat>, members: set<string>, c: nat, component: seq<string>)
    requires Holds(component, members) && component != [] && forall v :: v in members ==> v in comp' && comp'[v] == c
    ensures component[0] in comp' && comp'[component[0]] == c
  {
    assert component[0] in component;
  }

  lemma HoldsStill(comp: map<string, nat>, comp': map<string, nat>, members: set<string>, c: nat, listed: seq<string>)
    requires NumbersMore(comp, comp', members, c) && HoldsComponent(comp, listed)
    ensures HoldsComponent(comp', listed)
    ensures comp'[listed[0]] == comp[listed[0]] < c
  {
  }

  lemma NewHolds(comp: map<string, nat>, comp': map<string, nat>, members: set<string>, c: nat, component: seq<string>)
    requires NumbersMore(comp, comp', members, c)
    requires Distinct(component) && Holds(component, members) && component != []
    ensures |component| > 1 ==> HoldsComponent(comp', component)
  {
    assert component[0] in component;
  }

  lemma PairListed(comp: map<string, nat>, comp': map<string, nat>, members: set<string>, c: nat,
                   component: seq<string>, components: seq<seq<string>>, u: string, v: string)
    requires Lists(comp, components) && NumbersMore(comp, comp', members, c) && Holds(component, members)
    requires u in comp' && v in comp' && u != v && comp'[u] == comp'[v]
    ensures InSome(if |component| > 1 then components + [component] else components, u)
  {
    var more := if |component| > 1 then components + [component] else components;
    hide HoldsComponent;
    if u in members {
      assert u in component && v in component;
      TwoMembers(component, u, v);
      assert u in more[|components|];
    } else {
      var j :| 0 <= j < |components| && u in components[j];
      assert u in more[j];
    }
  }

  lemma TwoMembers(q: seq<string>, u: string, v: string)
    requires u in q && v in q && u != v
    ensures |q| > 1
  {
  }

  // ---- the canonical chain of one component ----

  class ChainSearch {
    const start: string
    const component: set<string>
    const edges: Edges
    var path: seq<string>

    constructor (start: string, component: set<string>, edges: Edges)
      ensures this.start == start && this.component == component && this.edges == edges && path == [start]
    {
      this.start, this.component, this.edges := start, component, edges;
      path := [start];
    }

    /** Extend `path` depth-first until it can be closed; undo the extension otherwise. */
    method Visit(node: string) returns (closed: bool)
      requires path != [] && path[|path| - 1] == node && SimplePath(edges, component, start, path)
      modifies this
      ensures closed ==> FirstFrom(edges, component, start, old(path), path)
      ensures !closed ==> path == old(path) && NoneFrom(edges, component, start, path)
      decreases component - set v <- path
    {
      hide SimplePath, SimpleCycle, Exhausted, NoneFrom, FirstFrom;
      ghost var pre := path;
      NothingTried(edges, component, start, pre);
      var nexts := Succ(edges, node);
      var i := 0;
      while i < |nexts|
        invariant 0 <= i <= |nexts| && path == pre
        invariant Exhausted(edges, component, start, pre, i)
      {
        var next := nexts[i];
        if next == start {
          CloseHere(edges, component, start, pre, i);
          return true;
        }
        if next in component && next !in path {
          ExtendPath(edges, component, start, pre, next);
          path := path + [next];
          var found := Visit(next);
          if found {
            TakeFound(edges, component, start, pre, i, path);
            return true;
          }
          path := path[..|path| - 1];
        }
        SkipEdge(edges, component, start, pre, i);
        i := i + 1;
      }
      NothingFound(edges, component, start, pre);
      closed := false;
    }
  }

  /** `chain` is the canonical cycle of the component of its first node, closed. */
  ghost predicate IsChain(g: Edges, chain: seq<string>) {
    && |chain| > 1 && chain[|chain| - 1] == chain[0]
    && Canonical(g, StringLess, chain[..|chain| - 1])
  }

  method CanonicalChain(members: seq<string>, edges: Edges) returns (chain: seq<string>)
    requires Closed(edges) && IsClass(edges, members)
    ensures IsChain(edges, chain) && chain != [] && chain[0] in members
  {
    hide SimplePath, NoneFrom, FirstFrom, Canonical, Reach, Increasing, Closed, OnCycle;
    var component := set v <- members;
    var sorted := Sort(StringLess, members);
    SmallestMember(edges, members, sorted);
    var start := sorted[0];
    assert component == ClassOf(edges, start);
    StartPath(edges, component, start);
    SearchSucceeds(edges, start);
    var search := new ChainSearch(start, component, edges);
    var _ := search.Visit(start);
    chain := search.path + [start];
    FirstIsCanonical(edges, StringLess, start, search.path);
    assert chain[..|chain| - 1] == search.path;
  }

  lemma SmallestMember(g: Edges, members: seq<string>, sorted: seq<string>)
    requires Closed(g) && IsClass(g, members) && sorted == Sort(StringLess, members)
    ensures sorted != [] && sorted[0] in g && sorted[0] in members && OnCycle(g, sorted[0])
    ensures forall v :: v in members <==> v in ClassOf(g, sorted[0])
    ensures forall v :: v in ClassOf(g, sorted[0]) ==> v == sorted[0] || StringLess(sorted[0], v)
  {
    hide Reach, Closed, Edge;
    SortStrings(members);
    assert members[0] in members && members[0] in sorted;
    var s := sorted[0];
    assert s in sorted && s in members;
    SameClass(g, members[0], s);
    ClassOnCycle(g, s);
    var u := if members[0] == s then members[1] else members[0];
    assert u in members && u in ClassOf(g, s) && u != s;
    forall v | v in ClassOf(g, s)
      ensures v == s || StringLess(s, v)
    {
      assert v in sorted;
      var i :| 0 <= i < |sorted| && sorted[i] == v;
    }
  }

  // ---- all chains ----

  function FirstOf(chain: seq<string>): string {
    if chain == [] then "" else chain[0]
  }

  predicate ChainLess(a: seq<string>, b: seq<string>) {
    StringLess(FirstOf(a), FirstOf(b))
  }

  /** The canonical chains of all components, ordered by their first members. */
  ghost predicate AreChains(g: Edges, chains: seq<seq<string>>) {
    && (forall k :: 0 <= k < |chains| ==> IsChain(g, chains[k]))
    && IsReport(g, StringLess, Opened(chains))
  }

  /** The chains without their repeated last node. */
  ghost function Opened(chains: seq<seq<string>>): seq<seq<string>> {
    seq(|chains|, k requires 0 <= k < |chains| => if chains[k] == [] then [] else chains[k][..|chains[k]| - 1])
  }

  ghost predicate NoSelfEdges(g: Edges) {
    forall v :: !Edge(g, v, v)
  }

  method FindCycleChains(files: seq<string>, edges: Edges) returns (chains: seq<seq<string>>)
    requires Closed(edges) && NoSelfEdges(edges) && forall f :: f in files <==> f in edges
    ensures AreChains(edges, chains)
  {
    hide AreClasses, IsClass, IsChain, ChainsOf, AreChains, Closed, NoSelfEdges, Inv, Lists;
    var finder := new CycleFinder(edges);
    finder.Run(files);
    var components := finder.components;
    chains := [];
    ChainsOfNone(edges);
    for i := 0 to |components|
      invariant |chains| == i && ChainsOf(edges, components[..i], chains)
    {
      ClassAt(edges, components, i);
      var chain := CanonicalChain(components[i], edges);
      ChainsOfMore(edges, components, i, chains, chain);
      chains := chains + [chain];
    }
    assert components[..|components|] == components;
    ChainsReport(edges, components, chains);
    chains := Sort(ChainLess, chains);
  }

  lemma ClassAt(g: Edges, components: seq<seq<string>>, i: nat)
    requires AreClasses(g, components) && i < |components|
    ensures IsClass(g, components[i])
  {
  }

  lemma ChainsOfNone(g: Edges)
    ensures ChainsOf(g, [], [])
  {
  }

  lemma ChainsOfMore(g: Edges, components: seq<seq<string>>, i: nat, chains: seq<seq<string>>, chain: seq<string>)
    requires i < |components| && ChainsOf(g, components[..i], chains)
    requires IsChain(g, chain) && chain != [] && chain[0] in components[i]
    ensures ChainsOf(g, components[..i + 1], chains + [chain])
  {
    hide Canonical;
  }

  /** `chains` holds a chain of each listed component, in any order. */
  ghost predicate ChainsOf(g: Edges, components: seq<seq<string>>, chains: seq<seq<string>>) {
    && |chains| == |components|
    && forall k :: 0 <= k < |chains| ==> IsChain(g, chains[k]) && |chains[k]| > 1 && chains[k][0] in components[k]
  }

  lemma ChainsReport(g: Edges, components: seq<seq<string>>, chains: seq<seq<string>>)
    requires Closed(g) && NoSelfEdges(g) && AreClasses(g, components) && ChainsOf(g, components, chains)
    ensures AreChains(g, Sort(ChainLess, chains))
  {
    hide Closed, NoSelfEdges, IsChain, Mutual, WeakOrder, Sorted, AreClasses, OnCycle, Canonical, IsClass, Sort, Ties,
      ChainLess, StringLess;
    var sorted := Sort(ChainLess, chains);
    ChainLessIsWeakOrder();
    SortIsStable(ChainLess, chains);
    SameElements(chains, sorted);
    ChainsApart(g, components, chains);
    DistinctPermutation(chains, sorted);
    SortedIncreasing(ChainLess, sorted);
    forall k | 0 <= k < |sorted|
      ensures IsChain(g, sorted[k]) && |sorted[k]| > 1
    {
      assert sorted[k] in chains;
    }
    OpenedChains(g, sorted);
    forall v | v in g && OnCycle(g, v)
      ensures exists k :: 0 <= k < |Opened(sorted)| && Mutual(g, Opened(sorted)[k][0], v)
    {
      var j := ChainOnCycle(g, components, chains, v);
      assert chains[j] in sorted;
      var k :| 0 <= k < |sorted| && sorted[k] == chains[j];
      assert Opened(sorted)[k][0] == chains[j][0];
    }
  }

  lemma ChainLessIsWeakOrder()
    ensures WeakOrder(ChainLess)
  {
    StringLessIsTotal();
    forall a: seq<string>, b: seq<string>, c: seq<string>
      ensures !ChainLess(a, a)
      ensures ChainLess(a, b) && ChainLess(b, c) ==> ChainLess(a, c)
      ensures ChainLess(a, c) ==> ChainLess(a, b) || ChainLess(b, c)
    {
    }
  }

  /** Chains of different components start differently. */
  lemma ChainsApart(g: Edges, components: seq<seq<string>>, chains: seq<seq<string>>)
    requires AreClasses(g, components) && ChainsOf(g, components, chains)
    ensures forall i, j :: 0 <= i < j < |chains| ==> chains[i] != chains[j]
    ensures forall a, b :: a in chains && b in chains ==> a == b || ChainLess(a, b) || ChainLess(b, a)
  {
    hide Reach, IsChain;
    forall i, j | 0 <= i < j < |chains|
      ensures chains[i][0] != chains[j][0]
    {
      assert IsClass(g, components[i]) && IsClass(g, components[j]);
      if chains[i][0] == chains[j][0] {
        MutualThrough(g, components[i][0], chains[i][0], components[j][0]);
      }
    }
    StringLessIsTotal();
    hide AreClasses, WeakOrder;
  }

  lemma MutualThrough(g: Edges, u: string, v: string, w: string)
    requires Mutual(g, u, v) && Mutual(g, w, v)
    ensures Mutual(g, u, w)
  {
    hide Reach;
    ReachTransitive(g, u, v, w);
    ReachTransitive(g, w, v, u);
  }

  lemma OpenedChains(g: Edges, chains: seq<seq<string>>)
    requires forall k :: 0 <= k < |chains| ==> IsChain(g, chains[k]) && |chains[k]| > 1
    requires Increasing(ChainLess, chains)
    ensures var cs := Opened(chains);
            && (forall k :: 0 <= k < |cs| ==> cs[k] != [] && Canonical(g, StringLess, cs[k]) && cs[k][0] == chains[k][0])
            && Increasing(StringLess, Firsts(cs))
  {
    hide Canonical;
  }

  /** Without self-edges a node on a cycle has company, so its component is listed. */
  lemma ChainOnCycle(g: Edges, components: seq<seq<string>>, chains: seq<seq<string>>, v: string) returns (j: nat)
    requires Closed(g) && NoSelfEdges(g) && AreClasses(g, components) && ChainsOf(g, components, chains)
    requires v in g && OnCycle(g, v)
    ensures j < |chains| && chains[j] != [] && Mutual(g, chains[j][0], v)
  {
    hide Reach, IsChain, Closed;
    ClassOnCycle(g, v);
    var u :| u in ClassOf(g, v) && u != v;
    j :| 0 <= j < |components| && v in components[j];
    assert IsClass(g, components[j]);
    MutualThrough(g, chains[j][0], components[j][0], v);
  }

  /** The reported chains are determined by the graph. */
  lemma ChainsDetermined(g: Edges, a: seq<seq<string>>, b: seq<seq<string>>)
    requires AreChains(g, a) && AreChains(g, b)
    ensures a == b
  {
    hide IsReport, Canonical, WeakOrder;
    StringLessIsTotal();
    ReportUnique(g, StringLess, Opened(a), Opened(b));
    assert |a| == |Opened(a)| == |Opened(b)| == |b|;
    forall k | 0 <= k < |a|
      ensures a[k] == b[k]
    {
      assert IsChain(g, a[k]) && IsChain(g, b[k]);
      assert Opened(a)[k] == Opened(b)[k];
      assert a[k] == Opened(a)[k] + [a[k][|a[k]| - 1]] && b[k] == Opened(b)[k] + [b[k][|b[k]| - 1]];
    }
  }

  /** No chain is reported exactly when the import graph is acyclic. */
  lemma NoChainsIffAcyclic(g: Edges, chains: seq<seq<string>>)
    requires AreChains(g, chains)
    ensures chains == [] <==> forall v :: v in g ==> !OnCycle(g, v)
  {
    EmptyReport(g, StringLess, Opened(chains));
    hide IsReport, OnCycle;
    assert |Opened(chains)| == |chains|;
  }

  /** What a chain is, step by step: a simple closed walk over import edges inside one component. */
  lemma ChainIsSimpleCycle(g: Edges, chain: seq<string>)
    requires IsChain(g, chain) && NoSelfEdges(g)
    ensures |chain| > 2 && Distinct(chain[..|chain| - 1])
    ensures forall i :: 0 < i < |chain| ==> Edge(g, chain[i - 1], chain[i])
    ensures forall i :: 0 <= i < |chain| ==> Mutual(g, chain[0], chain[i])
    ensures forall v :: v in g && Mutual(g, chain[0], v) ==> v == chain[0] || Precedes(chain[0], v)
  {
    hide Reach, Before, StringLess, Precedes;
    forall v | v in ClassOf(g, chain[0]) && v != chain[0]
      ensures Precedes(chain[0], v)
    {
      StringLessIsLexicographic(chain[0], v);
    }
    var c := chain[..|chain| - 1];
    assert SimpleCycle(g, ClassOf(g, c[0]), c[0], c);
    assert Edge(g, c[|c| - 1], chain[0]);
    ReachSelf(g, c[0]);
    forall i | 0 <= i < |c|
      ensures c[i] in ClassOf(g, c[0])
    {
      assert c[i] in c;
    }
  }

  /** The chains come in lexicographic order of their first members. */
  lemma ChainsInOrder(g: Edges, chains: seq<seq<string>>, i: nat, j: nat)
    requires AreChains(g, chains) && i < j < |chains|
    ensures chains[i] != [] && chains[j] != [] && Precedes(chains[i][0], chains[j][0])
  {
    hide Canonical, OnCycle;
    assert IsChain(g, chains[i]) && IsChain(g, chains[j]);
    var firsts := Firsts(Opened(chains));
    assert StringLess(firsts[i], firsts[j]);
    StringLessIsLexicographic(firsts[i], firsts[j]);
  }
}
