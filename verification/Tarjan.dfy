/**
 * The invariant shared by the two strongly-connected-component searches.  A
 * `Search` value is a snapshot of the mutable state of either of them.
 */
module Tarjan {
  import opened Graphs

  datatype Search<N(==)> = Search(
    index: map<N, nat>,   // discovery number of every discovered node
    low: map<N, nat>,
    on: set<N>,           // the nodes on `stack`
    stack: seq<N>,
    comp: map<N, nat>,    // component number of every closed node
    call: seq<N>,         // nodes whose frame is live, outermost first
    pos: map<N, nat>,     // how many edges each live frame has consumed
    next: nat,
    nextComp: nat)

  /** The number of out-edges of a discovered node that were already walked. */
  ghost function Walked<N>(g: Graph<N>, pos: map<N, nat>, v: N): nat {
    if v in pos then pos[v] else |Succ(g, v)|
  }

  ghost predicate Domains<N(!new)>(g: Graph<N>, s: Search<N>) {
    && s.index.Keys == s.low.Keys
    && s.index.Keys <= g.Keys
    && s.on == s.index.Keys - s.comp.Keys
    && s.comp.Keys <= s.index.Keys
    && s.pos.Keys <= s.on
    && (forall v :: v in s.pos ==> s.pos[v] <= |Succ(g, v)|)
    && (forall v :: v in s.index ==> s.index[v] < s.next)
    && (forall v :: v in s.comp ==> s.comp[v] < s.nextComp)
  }

  ghost predicate Ascending<N>(index: map<N, nat>, q: seq<N>) {
    && (forall i :: 0 <= i < |q| ==> q[i] in index)
    && (forall i, j :: 0 <= i < j < |q| ==> index[q[i]] < index[q[j]])
  }

  ghost predicate Holds<N(!new)>(q: seq<N>, nodes: set<N>) {
    forall v :: v in q <==> v in nodes
  }

  /** Both stacks hold exactly their nodes, in discovery order. */
  ghost predicate Stacks<N(!new)>(s: Search<N>) {
    && Ascending(s.index, s.stack) && Holds(s.stack, s.on)
    && Ascending(s.index, s.call) && Holds(s.call, s.pos.Keys)
  }

  /** Walked edges lead to discovered nodes. */
  ghost predicate Frontier<N(!new)>(g: Graph<N>, index: map<N, nat>, pos: map<N, nat>) {
    forall v, j :: v in index && 0 <= j < Walked(g, pos, v) && j < |Succ(g, v)| ==> Succ(g, v)[j] in index
  }

  /** A live frame reaches everything above it on the stack. */
  ghost predicate LiveReach<N(!new)>(g: Graph<N>, index: map<N, nat>, on: set<N>, live: set<N>)
    requires live <= on <= index.Keys
  {
    forall c, w :: c in live && w in on && index[c] <= index[w] ==> Reach(g, c, w)
  }

  /** `low[v]` names an on-stack node that `v` reaches. */
  ghost predicate HasWitness<N(!new)>(g: Graph<N>, index: map<N, nat>, on: set<N>, v: N, x: nat)
    requires on <= index.Keys
  {
    exists w :: w in on && index[w] == x && Reach(g, v, w)
  }

  /** `low` is never too small: it always names a reachable on-stack node. */
  ghost predicate LowSound<N(!new)>(g: Graph<N>, index: map<N, nat>, low: map<N, nat>, on: set<N>)
    requires on <= index.Keys == low.Keys
  {
    forall v {:trigger low[v]} :: v in on ==> low[v] <= index[v] && HasWitness(g, index, on, v, low[v])
  }

  /** A node whose frame is gone but that is still on the stack is not the root of its component. */
  ghost predicate LowRetired<N(!new)>(index: map<N, nat>, low: map<N, nat>, on: set<N>, live: set<N>)
    requires on <= index.Keys == low.Keys
  {
    forall v :: v in on && v !in live ==> low[v] < index[v]
  }

  /** `low` is never too large: it accounts for every walked edge that stays on the stack. */
  ghost predicate LowEdges<N(!new)>(g: Graph<N>, index: map<N, nat>, low: map<N, nat>, on: set<N>, pos: map<N, nat>)
    requires on <= index.Keys == low.Keys
  {
    forall v, j :: v in on && 0 <= j < Walked(g, pos, v) && j < |Succ(g, v)| && Succ(g, v)[j] in on
      ==> low[v] <= index[Succ(g, v)[j]]
  }

  /** The innermost live frame that `w` was discovered under is the one at position `i`. */
  ghost predicate Under<N>(index: map<N, nat>, on: set<N>, call: seq<N>, i: nat, w: N)
    requires i < |call| && on <= index.Keys && Ascending(index, call)
  {
    w in on && index[call[i]] <= index[w] && (i + 1 < |call| ==> index[w] < index[call[i + 1]])
  }

  /** `low` of a live frame accounts for the nodes already finished under it. */
  ghost predicate LowUnder<N(!new)>(index: map<N, nat>, low: map<N, nat>, on: set<N>, call: seq<N>)
    requires on <= index.Keys == low.Keys && Ascending(index, call)
  {
    forall i, w :: 0 <= i < |call| && Under(index, on, call, i, w) ==> low[call[i]] <= low[w]
  }

  /** Closed nodes share a component number exactly when they reach each other; no edge leaves them. */
  ghost predicate Components<N(!new)>(g: Graph<N>, comp: map<N, nat>) {
    && (forall u, v :: u in comp && v in comp ==> (comp[u] == comp[v] <==> Mutual(g, u, v)))
    && ClosedUnderEdges(g, comp.Keys)
  }

  ghost predicate Inv<N(!new)>(g: Graph<N>, s: Search<N>) {
    && Domains(g, s)
    && Stacks(s)
    && Frontier(g, s.index, s.pos)
    && LiveReach(g, s.index, s.on, s.pos.Keys)
    && LowSound(g, s.index, s.low, s.on)
    && LowRetired(s.index, s.low, s.on, s.pos.Keys)
    && LowEdges(g, s.index, s.low, s.on, s.pos)
    && LowUnder(s.index, s.low, s.on, s.call)
    && Components(g, s.comp)
  }

  // ---- the steps ----

  function Start<N>(): Search<N> {
    Search(map[], map[], {}, [], map[], [], map[], 0, 0)
  }

  /** Number a node and open its frame. */
  function Discover<N>(s: Search<N>, v: N): Search<N> {
    s.(index := s.index[v := s.next], low := s.low[v := s.next], on := s.on + {v}, stack := s.stack + [v],
       call := s.call + [v], pos := s.pos[v := 0], next := s.next + 1)
  }

  /** Count one more edge of a live frame as walked. */
  function Advance<N>(s: Search<N>, v: N): Search<N>
    requires v in s.pos
  {
    s.(pos := s.pos[v := s.pos[v] + 1])
  }

  function Lower<N>(s: Search<N>, v: N, x: nat): Search<N> {
    s.(low := s.low[v := x])
  }

  /** Drop the top frame and leave its node on the stack. */
  function Retire<N>(s: Search<N>): Search<N>
    requires |s.call| > 0
  {
    var v := s.call[|s.call| - 1];
    s.(call := s.call[..|s.call| - 1], pos := s.pos - {v})
  }

  function Members<N>(s: Search<N>, k: nat): set<N>
    requires k <= |s.stack|
  {
    set w | w in s.stack[k..]
  }

  /** Drop the top frame and close the stack from position `k` on as one component. */
  function Close<N>(s: Search<N>, k: nat): Search<N>
    requires k <= |s.stack| && |s.call| > 0
  {
    var v := s.call[|s.call| - 1];
    s.(on := s.on - Members(s, k), stack := s.stack[..k],
       comp := s.comp + (map w | w in Members(s, k) :: s.nextComp),
       call := s.call[..|s.call| - 1], pos := s.pos - {v}, nextComp := s.nextComp + 1)
  }

  // ---- each step keeps the invariant ----

  lemma StartInv<N(!new)>(g: Graph<N>)
    ensures Inv(g, Start<N>())
  {
  }

  lemma DiscoverInv<N(!new)>(g: Graph<N>, s: Search<N>, v: N)
    requires Inv(g, s) && v in g && v !in s.index
    requires |s.call| > 0 ==> Edge(g, s.call[|s.call| - 1], v)
    ensures Inv(g, Discover(s, v))
  {
    hide Domains, Ascending, Holds, Frontier, LiveReach, LowSound, LowEdges, LowUnder, Components;
    DiscoverDomains(g, s, v);
    DiscoverStacks(g, s, v);
    DiscoverEdges(g, s, v);
    DiscoverLiveReach(g, s, v);
    DiscoverLowSound(g, s.index, s.low, s.on, v, s.next);
    DiscoverLowUnder(g, s, v);
  }

  lemma DiscoverDomains<N(!new)>(g: Graph<N>, s: Search<N>, v: N)
    requires Domains(g, s) && v in g && v !in s.index
    ensures Domains(g, Discover(s, v)) && s.on <= s.index.Keys == s.low.Keys
  {
  }

  lemma DiscoverStacks<N(!new)>(g: Graph<N>, s: Search<N>, v: N)
    requires Domains(g, s) && Stacks(s) && v !in s.index
    ensures Stacks(Discover(s, v))
  {
  }

  lemma DiscoverLiveReach<N(!new)>(g: Graph<N>, s: Search<N>, v: N)
    requires Domains(g, s) && Stacks(s) && LiveReach(g, s.index, s.on, s.pos.Keys) && v !in s.index
    requires |s.call| > 0 ==> Edge(g, s.call[|s.call| - 1], v)
    ensures var t := Discover(s, v); t.pos.Keys <= t.on <= t.index.Keys && LiveReach(g, t.index, t.on, t.pos.Keys)
  {
    ReachSelf(g, v);
    forall c | c in s.pos
      ensures Reach(g, c, v)
    {
      var top := s.call[|s.call| - 1];
      assert c in s.call && top in s.call;
      assert Reach(g, c, top);
      ReachThenEdge(g, c, top, v);
    }
  }

  lemma DiscoverLowSound<N(!new)>(g: Graph<N>, index: map<N, nat>, low: map<N, nat>, on: set<N>, v: N, x: nat)
    requires on <= index.Keys == low.Keys && LowSound(g, index, low, on) && v !in index
    ensures on + {v} <= index[v := x].Keys == low[v := x].Keys
    ensures LowSound(g, index[v := x], low[v := x], on + {v})
  {
    hide HasWitness;
    forall u | u in on
      ensures HasWitness(g, index[v := x], on + {v}, u, low[u])
    {
      WitnessKept(g, index, on, u, low[u], v, x);
    }
    ReachSelf(g, v);
    WitnessIs(g, index[v := x], on + {v}, v, v);
  }

  lemma WitnessKept<N(!new)>(g: Graph<N>, index: map<N, nat>, on: set<N>, u: N, y: nat, v: N, x: nat)
    requires on <= index.Keys && HasWitness(g, index, on, u, y) && v !in index
    ensures on + {v} <= index[v := x].Keys && HasWitness(g, index[v := x], on + {v}, u, y)
  {
    var w :| w in on && index[w] == y && Reach(g, u, w);
    assert w in on + {v} && index[v := x][w] == y;
  }

  lemma DiscoverEdges<N(!new)>(g: Graph<N>, s: Search<N>, v: N)
    requires Domains(g, s) && Frontier(g, s.index, s.pos) && LowEdges(g, s.index, s.low, s.on, s.pos) && v !in s.index
    ensures var t := Discover(s, v);
            && t.on <= t.index.Keys == t.low.Keys
            && Frontier(g, t.index, t.pos) && LowEdges(g, t.index, t.low, t.on, t.pos)
  {
    var t := Discover(s, v);
    forall u, j | u in t.index && 0 <= j < Walked(g, t.pos, u) && j < |Succ(g, u)|
      ensures Succ(g, u)[j] in t.index
      ensures u in t.on && Succ(g, u)[j] in t.on ==> t.low[u] <= t.index[Succ(g, u)[j]]
    {
      assert Walked(g, t.pos, u) == Walked(g, s.pos, u);
      assert Succ(g, u)[j] in s.index;
    }
  }

  lemma DiscoverLowUnder<N(!new)>(g: Graph<N>, s: Search<N>, v: N)
    requires Domains(g, s) && Stacks(s) && LowUnder(s.index, s.low, s.on, s.call) && v !in s.index
    ensures var t := Discover(s, v);
            && t.on <= t.index.Keys == t.low.Keys && Ascending(t.index, t.call)
            && LowUnder(t.index, t.low, t.on, t.call)
  {
    DiscoverStacks(g, s, v);
    var t := Discover(s, v);
    forall i, w | 0 <= i < |t.call| && Under(t.index, t.on, t.call, i, w)
      ensures t.low[t.call[i]] <= t.low[w]
    {
      if i < |s.call| {
        assert t.index[t.call[|s.call|]] == s.next;
        assert w != v;
        assert Under(s.index, s.on, s.call, i, w);
      } else {
        assert w == v;
      }
    }
  }

  lemma AdvanceInv<N(!new)>(g: Graph<N>, s: Search<N>, v: N)
    requires Inv(g, s) && v in s.pos && s.pos[v] < |Succ(g, v)|
    requires var y := Succ(g, v)[s.pos[v]]; y in s.index && (y in s.on && v in s.low ==> s.low[v] <= s.index[y])
    ensures Inv(g, Advance(s, v))
  {
    hide Domains, Ascending, Holds, Frontier, LiveReach, LowSound, LowRetired, LowEdges, LowUnder, Components;
    AdvanceDomains(g, s, v);
    AdvanceEdges(g, s, v);
  }

  lemma AdvanceDomains<N(!new)>(g: Graph<N>, s: Search<N>, v: N)
    requires Domains(g, s) && v in s.pos && s.pos[v] < |Succ(g, v)|
    ensures Domains(g, Advance(s, v)) && Advance(s, v).pos.Keys == s.pos.Keys && v in s.low
  {
  }

  lemma AdvanceEdges<N(!new)>(g: Graph<N>, s: Search<N>, v: N)
    requires Domains(g, s) && Frontier(g, s.index, s.pos) && LowEdges(g, s.index, s.low, s.on, s.pos)
    requires v in s.pos && s.pos[v] < |Succ(g, v)|
    requires var y := Succ(g, v)[s.pos[v]]; y in s.index && (y in s.on ==> s.low[v] <= s.index[y])
    ensures var t := Advance(s, v);
            Frontier(g, t.index, t.pos) && LowEdges(g, t.index, t.low, t.on, t.pos)
  {
    var t := Advance(s, v);
    forall u, j | u in t.index && 0 <= j < Walked(g, t.pos, u) && j < |Succ(g, u)|
      ensures Succ(g, u)[j] in t.index
      ensures u in t.on && Succ(g, u)[j] in t.on ==> t.low[u] <= t.index[Succ(g, u)[j]]
    {
      if u != v || j != s.pos[v] {
        assert j < Walked(g, s.pos, u);
      }
    }
  }

  lemma LowerInv<N(!new)>(g: Graph<N>, s: Search<N>, v: N, w: N)
    requires Inv(g, s) && v in s.pos && w in s.on && Reach(g, v, w)
    requires v in s.low && w in s.index && s.index[w] <= s.low[v]
    ensures Inv(g, Lower(s, v, s.index[w]))
  {
    hide Domains, Ascending, Holds, Frontier, LiveReach, LowSound, LowRetired, LowEdges, LowUnder, Components;
    LowerDomains(g, s, v, s.index[w]);
    LowerEdges(g, s, v, s.index[w]);
    LowerUnder(s.index, s.low, s.on, s.call, v, s.index[w]);
    LowerLowSound(g, s.index, s.low, s.on, v, w);
  }

  lemma LowerDomains<N(!new)>(g: Graph<N>, s: Search<N>, v: N, x: nat)
    requires Domains(g, s) && Holds(s.call, s.pos.Keys) && v in s.pos
    ensures Domains(g, Lower(s, v, x)) && v in s.call && v in s.on
    ensures s.on <= s.index.Keys == s.low.Keys
  {
  }

  lemma LowerEdges<N(!new)>(g: Graph<N>, s: Search<N>, v: N, x: nat)
    requires Domains(g, s) && LowEdges(g, s.index, s.low, s.on, s.pos) && LowRetired(s.index, s.low, s.on, s.pos.Keys)
    requires v in s.pos && v in s.low && x <= s.low[v]
    ensures var low := s.low[v := x];
            && s.index.Keys == low.Keys
            && LowEdges(g, s.index, low, s.on, s.pos) && LowRetired(s.index, low, s.on, s.pos.Keys)
  {
  }

  lemma LowerUnder<N(!new)>(index: map<N, nat>, low: map<N, nat>, on: set<N>, call: seq<N>, v: N, x: nat)
    requires on <= index.Keys == low.Keys && Ascending(index, call) && LowUnder(index, low, on, call)
    requires v in call && x <= low[v]
    ensures index.Keys == low[v := x].Keys && LowUnder(index, low[v := x], on, call)
  {
    var j :| 0 <= j < |call| && call[j] == v;
    forall i, w | 0 <= i < |call| && Under(index, on, call, i, w)
      ensures low[v := x][call[i]] <= low[v := x][w]
    {
      if i < j {
        assert index[call[i]] < index[call[i + 1]] <= index[v];
        assert w != v;
      } else if j < i {
        assert w != v;
      }
    }
  }

  lemma LowerLowSound<N(!new)>(g: Graph<N>, index: map<N, nat>, low: map<N, nat>, on: set<N>, v: N, w: N)
    requires on <= index.Keys == low.Keys && LowSound(g, index, low, on) && w in on && Reach(g, v, w)
    requires v in on && index[w] <= low[v]
    ensures index.Keys == low[v := index[w]].Keys && LowSound(g, index, low[v := index[w]], on)
  {
    hide HasWitness;
    WitnessIs(g, index, on, v, w);
    assert low[v] <= index[v];
  }

  lemma WitnessIs<N(!new)>(g: Graph<N>, index: map<N, nat>, on: set<N>, v: N, w: N)
    requires on <= index.Keys && w in on && Reach(g, v, w)
    ensures HasWitness(g, index, on, v, index[w])
  {
  }

  lemma RetireInv<N(!new)>(g: Graph<N>, s: Search<N>)
    requires Inv(g, s) && |s.call| >= 2
    requires var v, p := s.call[|s.call| - 1], s.call[|s.call| - 2];
             && v in s.pos && s.pos[v] == |Succ(g, v)|
             && v in s.index && v in s.low && p in s.low && s.low[v] < s.index[v] && s.low[p] <= s.low[v]
    ensures Inv(g, Retire(s))
  {
    hide Domains, Ascending, Holds, Frontier, LiveReach, LowSound, LowRetired, LowEdges, LowUnder, Components;
    RetireStacks(s);
    RetireUnder(g, s);
    RetireEdges(g, s);
    RetireDomains(g, s);
  }

  lemma RetireDomains<N(!new)>(g: Graph<N>, s: Search<N>)
    requires Domains(g, s) && LiveReach(g, s.index, s.on, s.pos.Keys) && LowRetired(s.index, s.low, s.on, s.pos.Keys)
    requires |s.call| > 0
    requires var v := s.call[|s.call| - 1]; v in s.index && v in s.low && s.low[v] < s.index[v]
    ensures var t := Retire(s);
            && Domains(g, t) && LiveReach(g, t.index, t.on, t.pos.Keys)
            && LowRetired(t.index, t.low, t.on, t.pos.Keys)
  {
  }

  lemma AscendingPrefix<N>(index: map<N, nat>, q: seq<N>, k: nat)
    requires Ascending(index, q) && k <= |q|
    ensures Ascending(index, q[..k])
  {
  }

  lemma RetireStacks<N(!new)>(s: Search<N>)
    requires Stacks(s) && |s.call| > 0
    ensures Stacks(Retire(s))
  {
    var t, v := Retire(s), s.call[|s.call| - 1];
    assert s.call == t.call + [v];
    forall u | u in t.call
      ensures u != v
    {
      assert s.index[u] < s.index[v];
    }
  }

  lemma RetireEdges<N(!new)>(g: Graph<N>, s: Search<N>)
    requires Domains(g, s) && Frontier(g, s.index, s.pos) && LowEdges(g, s.index, s.low, s.on, s.pos) && |s.call| > 0
    requires var v := s.call[|s.call| - 1]; v in s.pos && s.pos[v] == |Succ(g, v)|
    ensures var t := Retire(s);
            Frontier(g, t.index, t.pos) && LowEdges(g, t.index, t.low, t.on, t.pos)
  {
    var t := Retire(s);
    assert forall u :: Walked(g, t.pos, u) == Walked(g, s.pos, u);
  }

  lemma RetireUnder<N(!new)>(g: Graph<N>, s: Search<N>)
    requires Domains(g, s) && Stacks(s) && LowUnder(s.index, s.low, s.on, s.call) && |s.call| >= 2
    requires var v, p := s.call[|s.call| - 1], s.call[|s.call| - 2]; v in s.low && p in s.low && s.low[p] <= s.low[v]
    ensures var t := Retire(s); Ascending(t.index, t.call) && LowUnder(t.index, t.low, t.on, t.call)
  {
    hide Holds;
    var t := Retire(s);
    AscendingPrefix(s.index, s.call, |s.call| - 1);
    forall i, w | 0 <= i < |t.call| && Under(t.index, t.on, t.call, i, w)
      ensures t.low[t.call[i]] <= t.low[w]
    {
      assert t.call[i] == s.call[i];
      if i + 1 < |t.call| || s.index[w] < s.index[s.call[i + 1]] {
        assert Under(s.index, s.on, s.call, i, w);
      } else {
        assert Under(s.index, s.on, s.call, i + 1, w);
      }
    }
  }

  /** The top frame is finished and is the root of its component, at position `k` of the stack. */
  ghost predicate AtRoot<N(!new)>(g: Graph<N>, s: Search<N>, k: nat) {
    && |s.call| > 0 && k < |s.stack|
    && var v := s.call[|s.call| - 1];
    && s.stack[k] == v && v in s.pos && s.pos[v] == |Succ(g, v)|
    && v in s.index && v in s.low && s.low[v] == s.index[v]
  }

  /** The members of the closing component are the on-stack nodes discovered from its root on. */
  ghost predicate Split<N(!new)>(s: Search<N>, k: nat)
    requires k < |s.stack|
  {
    var v := s.stack[k];
    && Members(s, k) <= s.on <= s.index.Keys == s.low.Keys
    && v in Members(s, k)
    && forall w :: w in s.on ==> (w in Members(s, k) <==> s.index[v] <= s.index[w])
  }

  lemma CloseInv<N(!new)>(g: Graph<N>, s: Search<N>, k: nat)
    requires Inv(g, s) && AtRoot(g, s, k)
    ensures Inv(g, Close(s, k))
  {
    MembersAbove(g, s, k);
    hide Domains, Ascending, Holds, Frontier, LiveReach, LowSound, LowRetired, LowEdges, LowUnder, Components,
      Split, Members;
    CloseDomains(g, s, k);
    CloseStacks(g, s, k);
    CloseEdges(g, s, k);
    CloseLows(g, s, k);
    CloseLowSound(g, s, k);
    CloseUnder(g, s, k);
    CloseComponents(g, s, k);
  }

  lemma MembersAbove<N(!new)>(g: Graph<N>, s: Search<N>, k: nat)
    requires Domains(g, s) && Stacks(s) && AtRoot(g, s, k)
    ensures Split(s, k)
  {
    assert s.stack[k..][0] == s.stack[k];
    forall w | w in s.on
      ensures w in Members(s, k) <==> s.index[s.stack[k]] <= s.index[w]
    {
      assert w in s.stack;
      var i :| 0 <= i < |s.stack| && s.stack[i] == w;
      if i >= k {
        assert s.stack[k..][i - k] == w;
      }
    }
  }

  /** Of the live frames only the top one is in the closing component. */
  lemma LiveBelowTop<N(!new)>(s: Search<N>, c: N)
    requires Ascending(s.index, s.call) && Holds(s.call, s.pos.Keys) && c in s.pos
    ensures |s.call| > 0
    ensures var v := s.call[|s.call| - 1]; c in s.index && v in s.index && (c == v || s.index[c] < s.index[v])
  {
    assert c in s.call;
  }

  lemma CloseDomains<N(!new)>(g: Graph<N>, s: Search<N>, k: nat)
    requires Domains(g, s) && Stacks(s) && AtRoot(g, s, k) && Split(s, k)
    ensures Domains(g, Close(s, k))
  {
    hide Members, Ascending, Holds;
    CloseLive(g, s, k);
    ExtendedKeys(s.comp, Members(s, k), s.nextComp);
    var t := Close(s, k);
    assert t.on == t.index.Keys - t.comp.Keys;
    assert forall v :: v in t.pos ==> t.pos[v] == s.pos[v];
  }

  lemma ExtendedKeys<N(!new)>(comp: map<N, nat>, members: set<N>, c: nat)
    requires forall v :: v in comp ==> comp[v] < c
    ensures var comp' := comp + (map w | w in members :: c);
            comp'.Keys == comp.Keys + members && forall v :: v in comp' ==> comp'[v] < c + 1
  {
  }

  lemma CloseLive<N(!new)>(g: Graph<N>, s: Search<N>, k: nat)
    requires Domains(g, s) && Stacks(s) && AtRoot(g, s, k) && Split(s, k)
    ensures Close(s, k).pos.Keys <= Close(s, k).on
  {
    hide Members, Ascending, Holds;
    forall c | c in s.pos && c != s.stack[k]
      ensures c !in Members(s, k)
    {
      LiveBelowTop(s, c);
    }
  }

  lemma CloseStacks<N(!new)>(g: Graph<N>, s: Search<N>, k: nat)
    requires Stacks(s) && AtRoot(g, s, k) && Split(s, k)
    ensures Stacks(Close(s, k))
  {
    RetireStacks(s);
    PrefixHolds(s.index, s.stack, s.on, k);
  }

  lemma PrefixHolds<N(!new)>(index: map<N, nat>, q: seq<N>, nodes: set<N>, k: nat)
    requires Ascending(index, q) && Holds(q, nodes) && k <= |q|
    ensures Ascending(index, q[..k]) && Holds(q[..k], nodes - (set w | w in q[k..]))
  {
    forall v | v in q[..k]
      ensures v !in q[k..]
    {
    }
    assert q == q[..k] + q[k..];
  }

  lemma CloseEdges<N(!new)>(g: Graph<N>, s: Search<N>, k: nat)
    requires Domains(g, s) && Frontier(g, s.index, s.pos) && LowEdges(g, s.index, s.low, s.on, s.pos)
    requires AtRoot(g, s, k)
    ensures var t := Close(s, k);
            && t.on <= t.index.Keys == t.low.Keys
            && Frontier(g, t.index, t.pos) && LowEdges(g, t.index, t.low, t.on, t.pos)
  {
    hide Members;
    RetireEdges(g, s);
  }

  lemma CloseLows<N(!new)>(g: Graph<N>, s: Search<N>, k: nat)
    requires AtRoot(g, s, k) && Split(s, k) && s.pos.Keys <= s.on
    requires LiveReach(g, s.index, s.on, s.pos.Keys) && LowRetired(s.index, s.low, s.on, s.pos.Keys)
    requires Close(s, k).pos.Keys <= Close(s, k).on
    ensures var t := Close(s, k);
            LiveReach(g, t.index, t.on, t.pos.Keys) && LowRetired(t.index, t.low, t.on, t.pos.Keys)
  {
    hide Members;
  }

  lemma CloseLowSound<N(!new)>(g: Graph<N>, s: Search<N>, k: nat)
    requires AtRoot(g, s, k) && Split(s, k) && LowSound(g, s.index, s.low, s.on)
    ensures var t := Close(s, k); t.on <= t.index.Keys == t.low.Keys && LowSound(g, t.index, t.low, t.on)
  {
    hide Members, HasWitness;
    var t := Close(s, k);
    forall u | u in t.on
      ensures t.low[u] <= t.index[u] && HasWitness(g, t.index, t.on, u, t.low[u])
    {
      var w := WitnessOf(g, s.index, s.low, s.on, u);
      assert w in t.on;
      WitnessIs(g, t.index, t.on, u, w);
    }
  }

  lemma WitnessOf<N(!new)>(g: Graph<N>, index: map<N, nat>, low: map<N, nat>, on: set<N>, u: N) returns (w: N)
    requires on <= index.Keys == low.Keys && LowSound(g, index, low, on) && u in on
    ensures w in on && index[w] == low[u] <= index[u] && Reach(g, u, w)
  {
    assert low[u] <= index[u];
    w :| w in on && index[w] == low[u] && Reach(g, u, w);
  }

  lemma CloseUnder<N(!new)>(g: Graph<N>, s: Search<N>, k: nat)
    requires AtRoot(g, s, k) && Split(s, k) && Ascending(s.index, s.call) && LowUnder(s.index, s.low, s.on, s.call)
    ensures var t := Close(s, k);
            && t.on <= t.index.Keys == t.low.Keys && Ascending(t.index, t.call)
            && LowUnder(t.index, t.low, t.on, t.call)
  {
    hide Members;
    var t := Close(s, k);
    forall i, w | 0 <= i < |t.call| && Under(t.index, t.on, t.call, i, w)
      ensures t.low[t.call[i]] <= t.low[w]
    {
      assert t.call[i] == s.call[i];
      assert Under(s.index, s.on, s.call, i, w);
    }
  }

  /** From every member of the closing component `low` leads back down to its root. */
  lemma {:induction false} MembersReachRoot<N(!new)>(g: Graph<N>, s: Search<N>, k: nat, w: N)
    requires Domains(g, s) && Stacks(s) && AtRoot(g, s, k) && Split(s, k) && w in Members(s, k)
    requires LowSound(g, s.index, s.low, s.on) && LowRetired(s.index, s.low, s.on, s.pos.Keys)
    requires LowUnder(s.index, s.low, s.on, s.call)
    ensures Reach(g, w, s.stack[k])
    decreases s.index[w]
  {
    hide Members, HasWitness, LowSound, LowRetired, LowUnder, Ascending, Holds;
    var v := s.stack[k];
    if w == v {
      ReachSelf(g, v);
    } else {
      RootIsLowest(g, s, k, w);
      var x := WitnessOf(g, s.index, s.low, s.on, w);
      MembersReachRoot(g, s, k, x);
      ReachTransitive(g, w, x, v);
    }
  }

  lemma RootIsLowest<N(!new)>(g: Graph<N>, s: Search<N>, k: nat, w: N)
    requires Domains(g, s) && Stacks(s) && AtRoot(g, s, k) && Split(s, k) && w in Members(s, k)
    requires LowRetired(s.index, s.low, s.on, s.pos.Keys) && LowUnder(s.index, s.low, s.on, s.call)
    ensures s.index[s.stack[k]] <= s.low[w] && Walked(g, s.pos, w) == |Succ(g, w)|
    ensures w != s.stack[k] ==> s.low[w] < s.index[w]
  {
    assert Under(s.index, s.on, s.call, |s.call| - 1, w);
    hide Members, Ascending, Holds;
    if w in s.pos {
      LiveBelowTop(s, w);
    }
  }

  /** Every edge of a member leads to a member or to a node that was closed before. */
  lemma MemberEdges<N(!new)>(g: Graph<N>, s: Search<N>, k: nat, w: N, y: N)
    requires Domains(g, s) && Stacks(s) && AtRoot(g, s, k) && Split(s, k) && w in Members(s, k)
    requires Frontier(g, s.index, s.pos) && LowEdges(g, s.index, s.low, s.on, s.pos)
    requires LowRetired(s.index, s.low, s.on, s.pos.Keys) && LowUnder(s.index, s.low, s.on, s.call)
    requires Edge(g, w, y)
    ensures y in s.comp || y in Members(s, k)
  {
    hide Members, Ascending, Holds, LowRetired, LowUnder;
    RootIsLowest(g, s, k, w);
    var j :| 0 <= j < |Succ(g, w)| && Succ(g, w)[j] == y;
    assert j < Walked(g, s.pos, w);
    assert y in s.index;
  }

  lemma CloseComponents<N(!new)>(g: Graph<N>, s: Search<N>, k: nat)
    requires Inv(g, s) && AtRoot(g, s, k) && Split(s, k)
    ensures Components(g, Close(s, k).comp)
  {
    hide Members, Frontier, LowSound, LowRetired, LowEdges, LowUnder, Ascending, Holds;
    var t, v := Close(s, k), s.stack[k];
    var c := t.comp;
    forall u, y | u in c && Edge(g, u, y)
      ensures y in c
    {
      if u in Members(s, k) {
        MemberEdges(g, s, k, u, y);
      }
    }
    forall u | u in Members(s, k)
      ensures Mutual(g, u, v)
    {
      assert Reach(g, v, u);
      MembersReachRoot(g, s, k, u);
    }
    forall u, w | u in c && w in c
      ensures c[u] == c[w] <==> Mutual(g, u, w)
    {
      CloseMutual(g, s, k, u, w);
    }
  }

  lemma CloseMutual<N(!new)>(g: Graph<N>, s: Search<N>, k: nat, u: N, w: N)
    requires Domains(g, s) && k < |s.stack| && |s.call| > 0 && Components(g, s.comp) && Split(s, k)
    requires forall x :: x in Members(s, k) ==> Mutual(g, x, s.stack[k])
    requires u in Close(s, k).comp && w in Close(s, k).comp
    ensures Close(s, k).comp[u] == Close(s, k).comp[w] <==> Mutual(g, u, w)
  {
    hide Members, Reach;
    var v := s.stack[k];
    if u in Members(s, k) && w in Members(s, k) {
      ReachTransitive(g, u, v, w);
      ReachTransitive(g, w, v, u);
    } else if u in Members(s, k) && Reach(g, w, u) {
      ReachStaysInside(g, s.comp.Keys, w, u);
    } else if w in Members(s, k) && Reach(g, u, w) {
      ReachStaysInside(g, s.comp.Keys, u, w);
    }
  }

  lemma MemberAdded<N(!new)>(s: Search<N>, k: nat)
    requires k < |s.stack| && Distinct(s.stack)
    ensures Members(s, k) == Members(s, k + 1) + {s.stack[k]} && s.stack[k] !in Members(s, k + 1)
  {
    var v, rest := s.stack[k], s.stack[k + 1..];
    assert s.stack[k..] == [v] + rest;
    forall i | 0 <= i < |rest|
      ensures rest[i] != v
    {
      assert rest[i] == s.stack[k + 1 + i];
    }
  }

  // ---- the program's moves ----

  /** The `low` of `v` becomes `x` if that is smaller. */
  function LowerTo<N>(s: Search<N>, v: N, x: nat): (t: Search<N>)
    ensures t.pos == s.pos
  {
    if v in s.low && x < s.low[v] then Lower(s, v, x) else s
  }

  /** The top frame `u` is about to walk its next edge, to `v`. */
  ghost predicate NextEdge<N(!new)>(g: Graph<N>, s: Search<N>, u: N, v: N) {
    && |s.call| > 0 && u == s.call[|s.call| - 1]
    && u in s.pos && s.pos[u] < |Succ(g, u)| && v == Succ(g, u)[s.pos[u]]
  }

  lemma WalkToNew<N(!new)>(g: Graph<N>, s: Search<N>, u: N, v: N)
    requires NextEdge(g, s, u, v) && v !in s.index && v in g && Inv(g, s)
    ensures Inv(g, Discover(Advance(s, u), v))
  {
    hide Inv;
    DiscoverInv(g, s, v);
    LowOfLive(g, s, u);
    var t := Discover(s, v);
    AdvanceInv(g, t, u);
    assert s.pos[v := 0][u := s.pos[u] + 1] == s.pos[u := s.pos[u] + 1][v := 0];
  }

  lemma LowOfLive<N(!new)>(g: Graph<N>, s: Search<N>, u: N)
    requires u in s.pos && Inv(g, s)
    ensures u in s.on && u in s.index && u in s.low && s.low[u] <= s.index[u] < s.next
  {
    hide HasWitness;
    assert s.low[u] <= s.index[u];
  }

  lemma WalkToClosed<N(!new)>(g: Graph<N>, s: Search<N>, u: N, v: N)
    requires Inv(g, s) && NextEdge(g, s, u, v) && v in s.index && v !in s.on
    ensures Inv(g, Advance(s, u))
  {
    AdvanceInv(g, s, u);
  }

  /** A back edge to `v` may lower `low[u]` to the number of any `w` that is not after `v`. */
  lemma WalkBack<N(!new)>(g: Graph<N>, s: Search<N>, u: N, v: N, w: N)
    requires NextEdge(g, s, u, v) && v in s.on && w in s.on && Reach(g, v, w)
    requires w in s.index && v in s.index && s.index[w] <= s.index[v] && Inv(g, s)
    ensures Inv(g, Advance(LowerTo(s, u, s.index[w]), u))
  {
    hide Inv;
    ReachEdge(g, u, v);
    ReachTransitive(g, u, v, w);
    LowOfLive(g, s, u);
    if s.index[w] < s.low[u] {
      LowerInv(g, s, u, w);
    }
    AdvanceInv(g, LowerTo(s, u, s.index[w]), u);
  }

  /** A finished child hands its `low` to the frame below it. */
  lemma HandDown<N(!new)>(g: Graph<N>, s: Search<N>, p: N, v: N)
    requires p in s.pos && v in s.on && p in s.index && v in s.index && s.index[p] <= s.index[v]
    requires v in s.low && Inv(g, s)
    ensures Inv(g, LowerTo(s, p, s.low[v]))
  {
    hide Inv, Reach;
    var w := WitnessBelow(g, s, v);
    assert Reach(g, p, v) by { LiveReaches(g, s, p, v); }
    if p in s.low && s.low[v] < s.low[p] {
      ReachTransitive(g, p, v, w);
      LowerInv(g, s, p, w);
    }
  }

  lemma LiveReaches<N(!new)>(g: Graph<N>, s: Search<N>, p: N, v: N)
    requires p in s.pos && v in s.on && p in s.index && v in s.index && s.index[p] <= s.index[v]
    requires Inv(g, s)
    ensures Reach(g, p, v)
  {
    hide LowSound, LowRetired, LowEdges, LowUnder, Frontier, Stacks, Components, Reach;
  }

  /** The on-stack node that `low[v]` names. */
  lemma WitnessBelow<N(!new)>(g: Graph<N>, s: Search<N>, v: N) returns (w: N)
    requires v in s.on && Inv(g, s)
    ensures v in s.index && v in s.low && w in s.on && w in s.index
    ensures s.index[w] == s.low[v] <= s.index[v] && Reach(g, v, w)
  {
    hide LowSound, LowRetired, LowEdges, LowUnder, Frontier, LiveReach, Stacks, Components, Reach, HasWitness;
    w := WitnessOf(g, s.index, s.low, s.on, v);
  }

  /** The top frame has walked every edge and its `low` has been handed down. */
  ghost predicate Finished<N(!new)>(g: Graph<N>, s: Search<N>, v: N) {
    && |s.call| > 0 && v == s.call[|s.call| - 1]
    && v in s.pos && s.pos[v] == |Succ(g, v)| && v in s.index && v in s.low
    && (|s.call| > 1 ==> var p := s.call[|s.call| - 2]; p in s.low && s.low[p] <= s.low[v])
  }

  lemma ReturnInv<N(!new)>(g: Graph<N>, s: Search<N>, v: N)
    requires Finished(g, s, v) && Inv(g, s)
    ensures s.low[v] != s.index[v] ==> Inv(g, Retire(s))
    ensures forall k :: s.low[v] == s.index[v] && 0 <= k < |s.stack| && s.stack[k] == v ==> Inv(g, Close(s, k))
  {
    hide Inv;
    LowOfLive(g, s, v);
    if s.low[v] != s.index[v] {
      if |s.call| == 1 {
        OutermostIsRoot(g, s);
      }
      RetireInv(g, s);
    } else {
      forall k | 0 <= k < |s.stack| && s.stack[k] == v
        ensures Inv(g, Close(s, k))
      {
        CloseInv(g, s, k);
      }
    }
  }

  // ---- what the finished search has computed ----

  /** With no live frame left the stack is empty: every discovered node is closed. */
  lemma NothingLeftOnStack<N(!new)>(g: Graph<N>, s: Search<N>)
    requires Inv(g, s) && s.call == []
    ensures s.stack == [] && s.comp.Keys == s.index.Keys
  {
    hide LiveReach, Frontier, LowEdges, LowUnder, Components, HasWitness, LowSound;
    assert s.pos.Keys == {};
    if s.stack != [] {
      var w := WitnessOf(g, s.index, s.low, s.on, s.stack[0]);
      assert false;
    }
    assert s.on == {};
    forall v | v in s.index
      ensures v in s.comp
    {
      assert v !in s.on;
    }
  }

  /** The outermost frame never retires: its node is always the root of its component. */
  lemma OutermostIsRoot<N(!new)>(g: Graph<N>, s: Search<N>)
    requires Inv(g, s) && |s.call| == 1
    ensures s.call[0] in s.low && s.call[0] in s.index && s.low[s.call[0]] == s.index[s.call[0]]
  {
    hide LiveReach, Frontier, LowEdges, LowUnder, Components, HasWitness, LowSound;
    var v := s.call[0];
    assert v in s.pos && v in s.on && v in s.stack;
    var b := s.stack[0];
    var x := WitnessOf(g, s.index, s.low, s.on, b);
    assert x in s.stack;
    assert b in s.call;
    var w := WitnessOf(g, s.index, s.low, s.on, v);
    assert w in s.stack;
  }
}
