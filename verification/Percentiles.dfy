/** Exact nearest-rank percentiles. */
module Percentiles {
  import opened Orders

  ghost predicate Ascending(s: seq<int>) {
    forall i, j :: 0 <= i <= j < |s| ==> s[i] <= s[j]
  }

  function Clamp(rank: int, n: nat): int {
    var atLeastOne := if rank < 1 then 1 else rank;
    if n < atLeastOne then n else atLeastOne
  }

  /** `p` per cent of `n`, rounded up. */
  function Rank(p: nat, n: nat): nat {
    (p * n + 99) / 100
  }

  function NearestRank(sorted: seq<int>, p: nat): int {
    var at := Clamp(Rank(p, |sorted|), |sorted|) - 1;
    if 0 <= at < |sorted| then sorted[at] else 0
  }

  /** How many samples are at most `v`. */
  ghost function CountAtMost(s: seq<int>, v: int): nat {
    if s == [] then 0 else CountAtMost(s[..|s| - 1], v) + if s[|s| - 1] <= v then 1 else 0
  }

  lemma {:induction false} CountBelow(s: seq<int>, v: int, k: nat)
    requires Ascending(s) && k <= |s|
    requires forall i :: 0 <= i < k ==> s[i] <= v
    requires forall i :: k <= i < |s| ==> v < s[i]
    ensures CountAtMost(s, v) == k
  {
    if s != [] {
      CountBelow(s[..|s| - 1], v, if k == |s| then k - 1 else k);
    }
  }

  /** Between the sample before the rank and the one at the rank: what the count at the boundary is. */
  lemma {:induction false} BoundaryExists(s: seq<int>, v: int) returns (k: nat)
    requires Ascending(s)
    ensures k <= |s| && (forall i :: 0 <= i < k ==> s[i] <= v) && (forall i :: k <= i < |s| ==> v < s[i])
  {
    k := 0;
    while k < |s| && s[k] <= v
      invariant k <= |s| && forall i :: 0 <= i < k ==> s[i] <= v
    {
      k := k + 1;
    }
  }

  lemma RankBounds(p: nat, n: nat)
    requires 0 < p <= 100 && n > 0
    ensures 1 <= Rank(p, n) <= n && 100 * (Rank(p, n) - 1) < p * n <= 100 * Rank(p, n)
  {
    assert 0 < p * n <= 100 * n by {
      Products(p, n);
    }
  }

  lemma Products(p: nat, n: nat)
    requires 0 < p <= 100 && n > 0
    ensures 0 < p * n <= 100 * n
  {
  }

  /**
   * The nearest rank is a sample, at least `p` per cent of the samples are at most that, and for
   * nothing smaller this holds.
   */
  lemma NearestRankIsLeast(s: seq<int>, p: nat)
    requires Ascending(s) && s != [] && 0 < p <= 100
    ensures NearestRank(s, p) in s
    ensures p * |s| <= 100 * CountAtMost(s, NearestRank(s, p))
    ensures forall x :: x < NearestRank(s, p) ==> 100 * CountAtMost(s, x) < p * |s|
  {
    var r, v := Rank(p, |s|), NearestRank(s, p);
    RankBounds(p, |s|);
    assert v == s[r - 1];
    var k := BoundaryExists(s, v);
    CountBelow(s, v, k);
    assert r <= k;
    forall x | x < v
      ensures 100 * CountAtMost(s, x) < p * |s|
    {
      var j := BoundaryExists(s, x);
      CountBelow(s, x, j);
      assert j <= r - 1;
    }
  }

  /** A higher percentile is not smaller. */
  lemma NearestRankMonotone(s: seq<int>, p: nat, q: nat)
    requires Ascending(s) && s != [] && 0 < p <= q <= 100
    ensures NearestRank(s, p) <= NearestRank(s, q) <= s[|s| - 1]
  {
    RankBounds(p, |s|);
    RankBounds(q, |s|);
    ShareMonotone(p, q, |s|);
    hide Rank;
    assert Rank(p, |s|) <= Rank(q, |s|);
  }

  lemma ShareMonotone(p: nat, q: nat, n: nat)
    requires p <= q
    ensures Rank(p, n) <= Rank(q, n)
  {
    var a, b := p * n, q * n;
    assert a <= b by {
      assert b == a + (q - p) * n;
    }
  }

  predicate Less(a: int, b: int) {
    a < b
  }

  lemma SortedIsAscending(s: seq<int>)
    ensures Ascending(Sort(Less, s)) && multiset(Sort(Less, s)) == multiset(s)
  {
    SortIsStable(Less, s);
  }

  /** Samples that tie are equal, so the ties are as many copies as there are. */
  lemma {:induction false} TiesAreCopies(s: seq<int>, k: int)
    ensures |Ties(Less, k, s)| == multiset(s)[k]
    ensures forall i :: 0 <= i < |Ties(Less, k, s)| ==> Ties(Less, k, s)[i] == k
  {
    if s != [] {
      TiesAreCopies(s[..|s| - 1], k);
      assert s == s[..|s| - 1] + [s[|s| - 1]];
    }
  }

  /** Reordered samples sort to the same list. */
  lemma SortedSamples(a: seq<int>, b: seq<int>)
    requires multiset(a) == multiset(b)
    ensures Sort(Less, a) == Sort(Less, b)
  {
    IntsAreOrdered();
    SortIsStable(Less, a);
    SortIsStable(Less, b);
    hide Ties, Sort, WeakOrder, Sorted;
    forall k
      ensures Ties(Less, k, Sort(Less, a)) == Ties(Less, k, Sort(Less, b))
    {
      TiesAreCopies(Sort(Less, a), k);
      TiesAreCopies(Sort(Less, b), k);
    }
    StableSortUnique(Less, Sort(Less, a), Sort(Less, b));
  }

  lemma IntsAreOrdered()
    ensures WeakOrder(Less)
  {
  }
}
