/**
 * Simple cycles through a fixed node inside a component, the order in which a depth-first search
 * over ordered edges meets them, and the reason why that search is exhaustive.  A cycle is written
 * without repeating its first node at the end.
 */
module SimpleCycles {
  import opened Graphs

  ghost predicate SimplePath<N(!new)>(g: Graph<N>, members: set<N>, start: N, p: seq<N>) {
    IsWalk(g, p) && p[0] == start && Distinct(p) && forall v :: v in p ==> v in members
  }

  ghost predicate SimpleCycle<N(!new)>(g: Graph<N>, members: set<N>, start: N, c: seq<N>) {
    SimplePath(g, members, start, c) && Edge(g, c[|c| - 1], start)
  }

  /** The position at which `x` is first met in `q`. */
  ghost function FirstAt<N>(q: seq<N>, x: N): (i: nat)
    requires x in q
    ensures i < |q| && q[i] == x && x !in q[..i]
  {
    if q[0] == x then 0
    else
      assert q == [q[0]] + q[1..];
      var i := 1 + FirstAt(q[1..], x);
      assert q[..i] == [q[0]] + q[1..][..i - 1];
      i
  }

  /** Among the out-edges of `u` the one to `x` is walked before any to `y`. */
  ghost predicate Earlier<N>(g: Graph<N>, u: N, x: N, y: N) {
    Edge(g, u, x) && Edge(g, u, y) && FirstAt(Succ(g, u), x) < FirstAt(Succ(g, u), y)
  }

  /** The closed walks of `c` and `d` agree up to `k` and `c` takes the earlier edge there. */
  ghost predicate Parts<N>(g: Graph<N>, start: N, c: seq<N>, d: seq<N>, k: nat) {
    var cc, dd := c + [start], d + [start];
    0 < k < |cc| && k < |dd| && cc[..k] == dd[..k] && Earlier(g, cc[k - 1], cc[k], dd[k])
  }

  /** `c` is lexicographically before `d` in the order of edges. */
  ghost predicate Before<N(!new)>(g: Graph<N>, start: N, c: seq<N>, d: seq<N>) {
    exists k :: Parts(g, start, c, d, k)
  }

  ghost predicate LeastCycle<N(!new)>(g: Graph<N>, members: set<N>, start: N, c: seq<N>) {
    && SimpleCycle(g, members, start, c)
    && forall d :: SimpleCycle(g, members, start, d) ==> d == c || Before(g, start, c, d)
  }

  lemma LeastCycleUnique<N(!new)>(g: Graph<N>, members: set<N>, start: N, c: seq<N>, d: seq<N>)
    requires LeastCycle(g, members, start, c) && LeastCycle(g, members, start, d)
    ensures c == d
  {
    if c != d {
      BeforeIsOneWay(g, start, c, d);
    }
  }

  lemma BeforeIsOneWay<N(!new)>(g: Graph<N>, start: N, c: seq<N>, d: seq<N>)
    requires Before(g, start, c, d)
    ensures !Before(g, start, d, c)
  {
    var k :| Parts(g, start, c, d, k);
    forall l
      ensures !Parts(g, start, d, c, l)
    {
      PartsOnce(g, start, c, d, k, l);
    }
  }

  lemma PartsOnce<N(!new)>(g: Graph<N>, start: N, c: seq<N>, d: seq<N>, k: nat, l: nat)
    requires Parts(g, start, c, d, k)
    ensures !Parts(g, start, d, c, l)
  {
    var cc, dd := c + [start], d + [start];
    if l < k {
      AgreeBelow(cc, dd, k, l);
    } else if k < l <= |cc| && l <= |dd| && cc[..l] == dd[..l] {
      AgreeBelow(cc, dd, l, k);
    }
  }

  lemma AgreeBelow<N>(p: seq<N>, q: seq<N>, k: nat, l: nat)
    requires l < k <= |p| && k <= |q| && p[..k] == q[..k]
    ensures p[l] == q[l]
  {
    assert p[l] == p[..k][l] && q[l] == q[..k][l];
  }

  // ---- the search ----

  /** Some simple cycle extends `pre`, or is `pre` itself, and takes the node `x` next. */
  ghost predicate Through<N(!new)>(g: Graph<N>, members: set<N>, start: N, pre: seq<N>, d: seq<N>, x: N) {
    SimpleCycle(g, members, start, d) && pre <= d && (d + [start])[|pre|] == x
  }

  /** No simple cycle extends `pre` over one of the first `i` edges of its last node. */
  ghost predicate Exhausted<N(!new)>(g: Graph<N>, members: set<N>, start: N, pre: seq<N>, i: nat)
    requires |pre| > 0 && i <= |Succ(g, pre[|pre| - 1])|
  {
    forall d, x :: Through(g, members, start, pre, d, x) ==> x !in Succ(g, pre[|pre| - 1])[..i]
  }

  /** `c` is the first simple cycle that extends `pre`. */
  ghost predicate FirstFrom<N(!new)>(g: Graph<N>, members: set<N>, start: N, pre: seq<N>, c: seq<N>) {
    && SimpleCycle(g, members, start, c) && pre <= c
    && forall d :: SimpleCycle(g, members, start, d) && pre <= d ==> d == c || Before(g, start, c, d)
  }

  ghost predicate NoneFrom<N(!new)>(g: Graph<N>, members: set<N>, start: N, pre: seq<N>) {
    forall d :: SimpleCycle(g, members, start, d) ==> !(pre <= d)
  }

  /** The node after `pre` on a cycle is a successor of the last node of `pre`. */
  lemma NextIsEdge<N(!new)>(g: Graph<N>, members: set<N>, start: N, pre: seq<N>, d: seq<N>)
    requires |pre| > 0 && SimpleCycle(g, members, start, d) && pre <= d
    ensures Edge(g, pre[|pre| - 1], (d + [start])[|pre|])
    ensures |d| > |pre| ==> (d + [start])[|pre|] in members && (d + [start])[|pre|] !in pre
    ensures |d| == |pre| ==> d == pre
    ensures Through(g, members, start, pre, d, (d + [start])[|pre|])
  {
    assert pre[|pre| - 1] == d[|pre| - 1];
    if |d| > |pre| {
      assert Edge(g, d[|pre| - 1], d[|pre|]);
      assert d[|pre|] in d;
    }
  }

  lemma ExtendPrefix<N>(pre: seq<N>, d: seq<N>)
    requires pre <= d && |d| > |pre|
    ensures pre + [d[|pre|]] <= d
  {
    assert d[..|pre| + 1] == pre + [d[|pre|]];
  }

  lemma SkipEdge<N(!new)>(g: Graph<N>, members: set<N>, start: N, pre: seq<N>, i: nat)
    requires |pre| > 0 && i < |Succ(g, pre[|pre| - 1])| && Exhausted(g, members, start, pre, i)
    requires var x := Succ(g, pre[|pre| - 1])[i];
             x != start && (x !in members || x in pre || NoneFrom(g, members, start, pre + [x]))
    ensures Exhausted(g, members, start, pre, i + 1)
  {
    var s := Succ(g, pre[|pre| - 1]);
    forall d, y | Through(g, members, start, pre, d, y)
      ensures y !in s[..i + 1]
    {
      NextIsEdge(g, members, start, pre, d);
      assert y !in s[..i];
      assert s[..i + 1] == s[..i] + [s[i]];
      hide SimpleCycle;
      if y == s[i] && |d| > |pre| {
        ExtendPrefix(pre, d);
      }
    }
  }

  lemma StartPath<N(!new)>(g: Graph<N>, members: set<N>, s: N)
    requires s in members
    ensures SimplePath(g, members, s, [s])
  {
  }

  lemma NothingTried<N(!new)>(g: Graph<N>, members: set<N>, start: N, pre: seq<N>)
    requires SimplePath(g, members, start, pre)
    ensures Exhausted(g, members, start, pre, 0) && start in pre && start in members
  {
  }

  lemma ExtendPath<N(!new)>(g: Graph<N>, members: set<N>, start: N, pre: seq<N>, x: N)
    requires SimplePath(g, members, start, pre) && Edge(g, pre[|pre| - 1], x) && x in members && x !in pre
    ensures SimplePath(g, members, start, pre + [x])
    ensures (set v | v in pre + [x]) == (set v | v in pre) + {x}
  {
  }

  lemma CloseHere<N(!new)>(g: Graph<N>, members: set<N>, start: N, pre: seq<N>, i: nat)
    requires SimplePath(g, members, start, pre)
    requires i < |Succ(g, pre[|pre| - 1])| && Exhausted(g, members, start, pre, i)
    requires Succ(g, pre[|pre| - 1])[i] == start
    ensures FirstFrom(g, members, start, pre, pre)
  {
    assert SimpleCycle(g, members, start, pre);
    var s := Succ(g, pre[|pre| - 1]);
    assert Through(g, members, start, pre, pre, start);
    forall d | SimpleCycle(g, members, start, d) && pre <= d && d != pre
      ensures Before(g, start, pre, d)
    {
      PartsHere(g, members, start, pre, pre, d, i);
    }
  }

  /** Two cycles that extend `pre` part there when they take different edges. */
  lemma PartsHere<N(!new)>(g: Graph<N>, members: set<N>, start: N, pre: seq<N>, c: seq<N>, d: seq<N>, i: nat)
    requires |pre| > 0 && SimpleCycle(g, members, start, c) && SimpleCycle(g, members, start, d) && pre <= c && pre <= d
    requires i < |Succ(g, pre[|pre| - 1])| && Exhausted(g, members, start, pre, i)
    requires (c + [start])[|pre|] == Succ(g, pre[|pre| - 1])[i]
    requires (d + [start])[|pre|] != (c + [start])[|pre|]
    ensures Before(g, start, c, d)
  {
    var k, s := |pre|, Succ(g, pre[|pre| - 1]);
    var x, y := (c + [start])[k], (d + [start])[k];
    NextIsEdge(g, members, start, pre, c);
    NextIsEdge(g, members, start, pre, d);
    assert Through(g, members, start, pre, c, x) && Through(g, members, start, pre, d, y);
    FirstNotBefore(s, y, i);
    FirstNotAfter(s, x, i);
    assert (c + [start])[..k] == pre == (d + [start])[..k];
    assert Parts(g, start, c, d, k);
  }

  lemma FirstNotBefore<N>(q: seq<N>, x: N, i: nat)
    requires x in q && i <= |q| && x !in q[..i]
    ensures FirstAt(q, x) >= i
  {
  }

  lemma FirstNotAfter<N>(q: seq<N>, x: N, i: nat)
    requires i < |q| && q[i] == x
    ensures FirstAt(q, x) <= i
  {
  }

  lemma TakeFound<N(!new)>(g: Graph<N>, members: set<N>, start: N, pre: seq<N>, i: nat, c: seq<N>)
    requires SimplePath(g, members, start, pre)
    requires i < |Succ(g, pre[|pre| - 1])| && Exhausted(g, members, start, pre, i)
    requires FirstFrom(g, members, start, pre + [Succ(g, pre[|pre| - 1])[i]], c)
    ensures FirstFrom(g, members, start, pre, c)
  {
    var x := Succ(g, pre[|pre| - 1])[i];
    assert pre + [x] <= c;
    assert c[|pre|] == x && c[..|pre|] == pre;
    forall d | SimpleCycle(g, members, start, d) && pre <= d && d != c
      ensures Before(g, start, c, d)
    {
      NextIsEdge(g, members, start, pre, d);
      if (d + [start])[|pre|] != x {
        PartsHere(g, members, start, pre, c, d, i);
      } else if |d| > |pre| {
        ExtendPrefix(pre, d);
      }
    }
  }

  lemma NothingFound<N(!new)>(g: Graph<N>, members: set<N>, start: N, pre: seq<N>)
    requires |pre| > 0 && Exhausted(g, members, start, pre, |Succ(g, pre[|pre| - 1])|)
    ensures NoneFrom(g, members, start, pre)
  {
    var s := Succ(g, pre[|pre| - 1]);
    assert s[..|s|] == s;
    forall d | SimpleCycle(g, members, start, d)
      ensures !(pre <= d)
    {
      if pre <= d {
        NextIsEdge(g, members, start, pre, d);
      }
    }
  }

  // ---- a strongly connected component always has a cycle through each of its nodes ----

  /** Any walk can be shortened to one without repetitions. */
  lemma {:induction false} Shorten<N(!new)>(g: Graph<N>, p: seq<N>, u: N, v: N) returns (q: seq<N>)
    requires WalkFromTo(g, p, u, v)
    ensures WalkFromTo(g, q, u, v) && Distinct(q)
    decreases |p|
  {
    q := p;
    if !Distinct(p) {
      var i, j :| 0 <= i < j < |p| && p[i] == p[j];
      var r := p[..i] + p[j..];
      forall k | 0 < k < |r|
        ensures Edge(g, r[k - 1], r[k])
      {
        if k < i {
          assert r[k] == p[k] && r[k - 1] == p[k - 1];
        } else if k == i {
          assert r[k] == p[j] == p[i] && r[k - 1] == p[i - 1];
        } else {
          assert r[k] == p[k - i + j] && r[k - 1] == p[k - i + j - 1];
        }
      }
      q := Shorten(g, r, u, v);
    }
  }

  /** `members` is the set of all nodes that `start` reaches and that reach it. */
  ghost predicate IsComponent<N(!new)>(g: Graph<N>, members: set<N>, start: N) {
    forall v :: v in members <==> Mutual(g, start, v)
  }

  lemma CycleExists<N(!new)>(g: Graph<N>, members: set<N>, start: N)
    requires IsComponent(g, members, start)
    requires Edge(g, start, start) || exists v :: v in members && v != start
    ensures exists c :: SimpleCycle(g, members, start, c)
  {
    ReachSelf(g, start);
    if Edge(g, start, start) {
      assert SimpleCycle(g, members, start, [start]);
    } else {
      var v :| v in members && v != start;
      var p :| WalkFromTo(g, p, start, v);
      var u := p[1];
      assert Edge(g, start, u) && u != start;
      assert WalkFromTo(g, p[1..], u, v);
      ReachTransitive(g, u, v, start);
      CycleOverEdge(g, members, start, u);
    }
  }

  lemma CycleOverEdge<N(!new)>(g: Graph<N>, members: set<N>, start: N, u: N)
    requires IsComponent(g, members, start) && Edge(g, start, u) && u != start && Reach(g, u, start)
    ensures exists c :: SimpleCycle(g, members, start, c)
  {
    var p :| WalkFromTo(g, p, u, start);
    var q := Shorten(g, p, u, start);
    var c := [start] + q[..|q| - 1];
    forall i | 0 < i < |c|
      ensures Edge(g, c[i - 1], c[i])
    {
      if i > 1 {
        assert c[i - 1] == q[i - 2] && c[i] == q[i - 1];
      }
    }
    forall x | x in c
      ensures x in members
    {
      if x != start {
        var i :| 0 <= i < |q| && q[i] == x;
        assert WalkFromTo(g, q[..i + 1], u, x);
        assert WalkFromTo(g, q[i..], x, start);
        ReachEdge(g, start, u);
        ReachTransitive(g, start, u, x);
      } else {
        ReachSelf(g, start);
      }
    }
    assert c[|c| - 1] == q[|q| - 2];
    assert SimpleCycle(g, members, start, c);
  }
}
