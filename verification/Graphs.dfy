/** Directed graphs with ordered adjacency lists, walks and reachability. */
module Graphs {

  /** The out-edges of every node, in the order in which the program walks them. */
  type Graph<N(==)> = map<N, seq<N>>

  function Succ<N>(g: Graph<N>, u: N): seq<N> {
    if u in g then g[u] else []
  }

  ghost predicate Edge<N>(g: Graph<N>, u: N, v: N) {
    v in Succ(g, u)
  }

  /** Every edge leads to a node of the graph. */
  ghost predicate Closed<N(!new)>(g: Graph<N>) {
    forall u, v :: Edge(g, u, v) ==> v in g
  }

  ghost predicate IsWalk<N>(g: Graph<N>, p: seq<N>) {
    |p| > 0 && forall i :: 0 < i < |p| ==> Edge(g, p[i - 1], p[i])
  }

  ghost predicate WalkFromTo<N>(g: Graph<N>, p: seq<N>, u: N, v: N) {
    IsWalk(g, p) && p[0] == u && p[|p| - 1] == v
  }

  /** `v` can be reached from `u` by following zero or more edges. */
  ghost predicate Reach<N(!new)>(g: Graph<N>, u: N, v: N) {
    exists p :: WalkFromTo(g, p, u, v)
  }

  ghost predicate Mutual<N(!new)>(g: Graph<N>, u: N, v: N) {
    Reach(g, u, v) && Reach(g, v, u)
  }

  lemma ReachSelf<N(!new)>(g: Graph<N>, u: N)
    ensures Reach(g, u, u)
  {
    assert WalkFromTo(g, [u], u, u);
  }

  lemma ReachTransitive<N(!new)>(g: Graph<N>, u: N, v: N, w: N)
    requires Reach(g, u, v) && Reach(g, v, w)
    ensures Reach(g, u, w)
  {
    var p :| WalkFromTo(g, p, u, v);
    var q :| WalkFromTo(g, q, v, w);
    var r := p + q[1..];
    forall i | 0 < i < |r|
      ensures Edge(g, r[i - 1], r[i])
    {
      if i >= |p| {
        assert r[i] == q[i - |p| + 1] && r[i - 1] == q[i - |p|];
      }
    }
    assert WalkFromTo(g, r, u, w);
  }

  lemma ReachEdge<N(!new)>(g: Graph<N>, u: N, v: N)
    requires Edge(g, u, v)
    ensures Reach(g, u, v)
  {
    assert WalkFromTo(g, [u, v], u, v);
  }

  lemma ReachThenEdge<N(!new)>(g: Graph<N>, u: N, v: N, w: N)
    requires Reach(g, u, v) && Edge(g, v, w)
    ensures Reach(g, u, w)
  {
    ReachEdge(g, v, w);
    ReachTransitive(g, u, v, w);
  }

  ghost predicate Distinct<N>(q: seq<N>) {
    forall i, j :: 0 <= i < j < |q| ==> q[i] != q[j]
  }

  ghost predicate ClosedUnderEdges<N(!new)>(g: Graph<N>, s: set<N>) {
    forall u, v :: u in s && Edge(g, u, v) ==> v in s
  }

  /** A walk never leaves a set that no edge leaves. */
  lemma {:induction false} WalkStaysInside<N(!new)>(g: Graph<N>, s: set<N>, p: seq<N>, i: nat)
    requires ClosedUnderEdges(g, s) && IsWalk(g, p) && p[0] in s && i < |p|
    ensures p[i] in s
  {
    if i > 0 {
      WalkStaysInside(g, s, p, i - 1);
      assert Edge(g, p[i - 1], p[i]);
    }
  }

  lemma ReachStaysInside<N(!new)>(g: Graph<N>, s: set<N>, u: N, v: N)
    requires ClosedUnderEdges(g, s) && u in s && Reach(g, u, v)
    ensures v in s
  {
    var p :| WalkFromTo(g, p, u, v);
    WalkStaysInside(g, s, p, |p| - 1);
  }
}
