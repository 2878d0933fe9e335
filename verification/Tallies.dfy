/** Sums, selections and first appearances over event lists, and how they behave under reordering. */
module Tallies {
  import opened Graphs

  function SumBy<E>(s: seq<E>, f: E -> int): int {
    if s == [] then 0 else SumBy(s[..|s| - 1], f) + f(s[|s| - 1])
  }

  /** The events whose key is `k`, in order. */
  function Select<E, K(==)>(s: seq<E>, key: E -> K, k: K): seq<E> {
    if s == [] then []
    else
      var rest, last := Select(s[..|s| - 1], key, k), s[|s| - 1];
      if key(last) == k then rest + [last] else rest
  }

  /** The keys of the events in order of first appearance. */
  function FirstSeen<E, K(==)>(s: seq<E>, key: E -> K): seq<K> {
    if s == [] then []
    else
      var rest, k := FirstSeen(s[..|s| - 1], key), key(s[|s| - 1]);
      if k in rest then rest else rest + [k]
  }

  lemma {:induction false} FirstSeenExact<E, K(!new)>(s: seq<E>, key: E -> K)
    ensures Distinct(FirstSeen(s, key))
    ensures forall k :: k in FirstSeen(s, key) <==> Select(s, key, k) != []
  {
    if s != [] {
      FirstSeenExact(s[..|s| - 1], key);
    }
  }

  lemma {:induction false} SelectExact<E, K>(s: seq<E>, key: E -> K, k: K)
    ensures forall e :: e in Select(s, key, k) <==> e in s && key(e) == k
    ensures forall e :: multiset(Select(s, key, k))[e] == if key(e) == k then multiset(s)[e] else 0
  {
    if s != [] {
      SelectExact(s[..|s| - 1], key, k);
      assert s == s[..|s| - 1] + [s[|s| - 1]];
    }
  }

  /** The keys that are seen are the keys that occur. */
  lemma KeysOccur<E, K(!new)>(s: seq<E>, key: E -> K)
    ensures forall k :: k in FirstSeen(s, key) <==> exists e :: e in s && key(e) == k
  {
    FirstSeenExact(s, key);
    forall k
      ensures k in FirstSeen(s, key) <==> exists e :: e in s && key(e) == k
    {
      SelectExact(s, key, k);
      var selected := Select(s, key, k);
      if selected != [] {
        assert selected[0] in selected;
      }
    }
  }

  lemma {:induction false} SumAppend<E>(a: seq<E>, b: seq<E>, f: E -> int)
    ensures SumBy(a + b, f) == SumBy(a, f) + SumBy(b, f)
  {
    if b == [] {
      assert a + b == a;
    } else {
      SumAppend(a, b[..|b| - 1], f);
      assert (a + b)[..|a + b| - 1] == a + b[..|b| - 1];
    }
  }

  lemma {:induction false} SelectAppend<E, K>(a: seq<E>, b: seq<E>, key: E -> K, k: K)
    ensures Select(a + b, key, k) == Select(a, key, k) + Select(b, key, k)
  {
    if b == [] {
      assert a + b == a;
    } else {
      SelectAppend(a, b[..|b| - 1], key, k);
      assert (a + b)[..|a + b| - 1] == a + b[..|b| - 1];
    }
  }

  lemma TakeOut<E>(b: seq<E>, i: nat)
    requires i < |b|
    ensures multiset(b[..i] + b[i + 1..]) == multiset(b) - multiset{b[i]}
  {
    assert b == b[..i] + [b[i]] + b[i + 1..];
  }

  lemma SumPush<E>(s: seq<E>, x: E, f: E -> int)
    ensures SumBy(s + [x], f) == SumBy(s, f) + f(x)
  {
    assert (s + [x])[..|s|] == s;
  }

  lemma SumOne<E>(x: E, f: E -> int)
    ensures SumBy([x], f) == f(x)
  {
  }

  lemma {:induction false} SumUpdate<E>(s: seq<E>, i: nat, x: E, f: E -> int)
    requires i < |s|
    ensures SumBy(s[i := x], f) == SumBy(s, f) - f(s[i]) + f(x)
  {
    var last := |s| - 1;
    if i == last {
      assert s[i := x][..last] == s[..last];
    } else {
      SumUpdate(s[..last], i, x, f);
      assert s[i := x][..last] == s[..last][i := x];
    }
  }

  lemma SumTakeOut<E>(b: seq<E>, i: nat, f: E -> int)
    requires i < |b|
    ensures SumBy(b, f) == SumBy(b[..i] + b[i + 1..], f) + f(b[i])
  {
    hide SumBy;
    var p, x, q := b[..i], b[i], b[i + 1..];
    SumAppend(p, q, f);
    SumAppend(p + [x], q, f);
    SumAppend(p, [x], f);
    SumOne(x, f);
    assert b == p + [x] + q;
  }

  /** The last element of a list occurs in a reordering, and without it the rests are reorderings. */
  lemma SameRest<E>(p: seq<E>, q: seq<E>) returns (i: nat)
    requires multiset(p) == multiset(q) && p != []
    ensures i < |q| && q[i] == p[|p| - 1] && multiset(p[..|p| - 1]) == multiset(q[..i] + q[i + 1..])
  {
    var n := |p| - 1;
    assert p[n] in multiset(q);
    i :| 0 <= i < |q| && q[i] == p[n];
    TakeOut(p, n);
    TakeOut(q, i);
    assert p[..n] + p[n + 1..] == p[..n];
  }

  /** A sum does not depend on the order of its terms. */
  lemma {:induction false} SumPermutation<E>(a: seq<E>, b: seq<E>, f: E -> int)
    requires multiset(a) == multiset(b)
    ensures SumBy(a, f) == SumBy(b, f)
    decreases |a|
  {
    hide SumBy;
    if a == [] {
      assert |b| == |multiset(b)| == 0;
      assert a == b;
    } else {
      var n := |a| - 1;
      var i := SameRest(a, b);
      SumPermutation(a[..n], b[..i] + b[i + 1..], f);
      SumTakeOut(a, n, f);
      SumTakeOut(b, i, f);
      assert a[..n] + a[n + 1..] == a[..n];
    }
  }

  /** Raising the term of one key raises the sum by as much. */
  lemma {:induction false} SumBump<K>(keys: seq<K>, before: K -> int, after: K -> int, k: K, d: int)
    requires Distinct(keys)
    requires forall j :: j in keys ==> after(j) == before(j) + if j == k then d else 0
    ensures SumBy(keys, after) == SumBy(keys, before) + if k in keys then d else 0
  {
    if keys != [] {
      var init, last := keys[..|keys| - 1], keys[|keys| - 1];
      assert keys == init + [last];
      assert last !in init;
      SumBump(init, before, after, k, d);
    }
  }

  lemma SelectionSum<E, K>(s: seq<E>, key: E -> K, k: K, f: E -> int)
    requires s != []
    ensures var init, last := s[..|s| - 1], s[|s| - 1];
            SumBy(Select(s, key, k), f) == SumBy(Select(init, key, k), f) + if k == key(last) then f(last) else 0
  {
    var init, last := s[..|s| - 1], s[|s| - 1];
    SumPush(Select(init, key, k), last, f);
  }

  /** One more event of key `k`: the key may be new, its term grows by `d`. */
  lemma SumMoreKeys<K>(keys: seq<K>, more: seq<K>, before: K -> int, after: K -> int, k: K, d: int)
    requires Distinct(more) && more == if k in keys then keys else keys + [k]
    requires k !in keys ==> before(k) == 0
    requires forall j :: after(j) == before(j) + if j == k then d else 0
    ensures SumBy(more, after) == SumBy(keys, before) + d
  {
    SumBump(more, before, after, k, d);
    if k !in keys {
      SumPush(keys, k, before);
    }
  }

  /** What is summed per group and then over the groups is the sum over all events. */
  lemma {:induction false} GroupsConserve<E, K>(s: seq<E>, key: E -> K, f: E -> int)
    ensures SumBy(FirstSeen(s, key), k => SumBy(Select(s, key, k), f)) == SumBy(s, f)
  {
    if s != [] {
      var init, last := s[..|s| - 1], s[|s| - 1];
      var keys, k := FirstSeen(init, key), key(last);
      assert FirstSeen(s, key) == if k in keys then keys else keys + [k];
      assert SumBy(s, f) == SumBy(init, f) + f(last);
      GroupsConserve(init, key, f);
      DistinctKeys(s, key);
      if k !in keys {
        NoneSelected(init, key, k);
      }
      assert k !in keys ==> SumBy(Select(init, key, k), f) == 0;
      hide Select, Distinct, SumBy, FirstSeen;
      forall j
        ensures SumBy(Select(s, key, j), f) == SumBy(Select(init, key, j), f) + if j == k then f(last) else 0
      {
        SelectionSum(s, key, j, f);
      }
      SumMoreKeys(keys, FirstSeen(s, key), j => SumBy(Select(init, key, j), f), j => SumBy(Select(s, key, j), f),
        k, f(last));
    }
  }

  lemma {:induction false} DistinctKeys<E, K>(s: seq<E>, key: E -> K)
    ensures Distinct(FirstSeen(s, key))
  {
    if s != [] {
      DistinctKeys(s[..|s| - 1], key);
    }
  }

  lemma {:induction false} NoneSelected<E, K>(s: seq<E>, key: E -> K, k: K)
    requires k !in FirstSeen(s, key)
    ensures Select(s, key, k) == []
  {
    if s != [] {
      NoneSelected(s[..|s| - 1], key, k);
    }
  }

  lemma SelectReordered<E, K>(a: seq<E>, b: seq<E>, key: E -> K, k: K)
    requires multiset(a) == multiset(b)
    ensures multiset(Select(a, key, k)) == multiset(Select(b, key, k))
  {
    SelectExact(a, key, k);
    SelectExact(b, key, k);
    var p, q := multiset(Select(a, key, k)), multiset(Select(b, key, k));
    SameCounts(p, q);
  }

  lemma SameCounts<E>(p: multiset<E>, q: multiset<E>)
    requires forall e :: p[e] == q[e]
    ensures p == q
  {
  }

  /** Selections of reordered events are reorderings of each other, over the same keys. */
  lemma SelectPermutation<E, K(!new)>(a: seq<E>, b: seq<E>, key: E -> K)
    requires multiset(a) == multiset(b)
    ensures forall k :: multiset(Select(a, key, k)) == multiset(Select(b, key, k))
    ensures forall k :: k in FirstSeen(a, key) <==> k in FirstSeen(b, key)
  {
    FirstSeenExact(a, key);
    FirstSeenExact(b, key);
    hide Select, FirstSeen;
    forall k
      ensures multiset(Select(a, key, k)) == multiset(Select(b, key, k))
      ensures k in FirstSeen(a, key) <==> k in FirstSeen(b, key)
    {
      SelectReordered(a, b, key, k);
      assert |multiset(Select(a, key, k))| == |Select(a, key, k)|;
      assert |multiset(Select(b, key, k))| == |Select(b, key, k)|;
    }
  }

  // ---- mapped lists ----

  function MapSeq<A, B>(s: seq<A>, f: A -> B): seq<B> {
    seq(|s|, i requires 0 <= i < |s| => f(s[i]))
  }

  lemma MapTakeOut<A, B>(s: seq<A>, i: nat, f: A -> B)
    requires i < |s|
    ensures multiset(MapSeq(s, f)) == multiset(MapSeq(s[..i] + s[i + 1..], f)) + multiset{f(s[i])}
  {
    var d := MapSeq(s, f);
    TakeOut(d, i);
    assert MapSeq(s[..i] + s[i + 1..], f) == d[..i] + d[i + 1..];
    assert d[i] in multiset(d);
  }

  /** Mapping reordered lists gives reordered lists. */
  lemma {:induction false} MapPermutation<A, B>(p: seq<A>, q: seq<A>, f: A -> B)
    requires multiset(p) == multiset(q)
    ensures multiset(MapSeq(p, f)) == multiset(MapSeq(q, f))
    decreases |p|
  {
    hide MapSeq;
    if p == [] {
      assert |q| == |multiset(q)| == 0;
      assert p == q;
    } else {
      var n := |p| - 1;
      var i := SameRest(p, q);
      MapPermutation(p[..n], q[..i] + q[i + 1..], f);
      MapTakeOut(p, n, f);
      MapTakeOut(q, i, f);
      assert p[..n] + p[n + 1..] == p[..n];
    }
  }

  lemma {:induction false} SumOfMap<A, B>(s: seq<A>, f: A -> B, g: B -> int)
    ensures SumBy(MapSeq(s, f), g) == SumBy(s, a => g(f(a)))
  {
    if s != [] {
      SumOfMap(s[..|s| - 1], f, g);
      assert MapSeq(s, f)[..|s| - 1] == MapSeq(s[..|s| - 1], f);
    }
  }

  /** Lists without repetitions that have the same elements are reorderings of each other. */
  lemma {:induction false} DistinctSameElements<T(!new)>(p: seq<T>, q: seq<T>)
    requires Distinct(p) && Distinct(q) && forall x :: x in p <==> x in q
    ensures multiset(p) == multiset(q)
  {
    forall x
      ensures multiset(p)[x] == multiset(q)[x]
    {
      CountInDistinct(p, x);
      CountInDistinct(q, x);
      assert x in p <==> x in q;
    }
    SameCounts(multiset(p), multiset(q));
  }

  lemma {:induction false} CountInDistinct<T>(p: seq<T>, x: T)
    requires Distinct(p)
    ensures multiset(p)[x] == if x in p then 1 else 0
  {
    if p != [] {
      CountInDistinct(p[..|p| - 1], x);
      assert p == p[..|p| - 1] + [p[|p| - 1]];
    }
  }

  // ---- maxima ----

  function MaxBy<E>(s: seq<E>, f: E -> int): int
    requires s != []
  {
    if |s| == 1 then f(s[0])
    else
      var rest, last := MaxBy(s[..|s| - 1], f), f(s[|s| - 1]);
      if rest < last then last else rest
  }

  lemma {:induction false} MaxExact<E>(s: seq<E>, f: E -> int)
    requires s != []
    ensures exists e :: e in s && f(e) == MaxBy(s, f)
    ensures forall e :: e in s ==> f(e) <= MaxBy(s, f)
  {
    assert s == s[..|s| - 1] + [s[|s| - 1]];
    if |s| > 1 {
      MaxExact(s[..|s| - 1], f);
    }
  }

  lemma MaxPermutation<E>(a: seq<E>, b: seq<E>, f: E -> int)
    requires a != [] && b != [] && multiset(a) == multiset(b)
    ensures MaxBy(a, f) == MaxBy(b, f)
  {
    MaxExact(a, f);
    MaxExact(b, f);
    forall e
      ensures e in a <==> e in b
    {
      assert e in a <==> e in multiset(a);
      assert e in b <==> e in multiset(b);
    }
  }
}
