/** The order of strings and the stable sort that the program applies to its lists. */
module Orders {

  // ---- strings ----

  /** `a` comes before `b` in the order of the language's `<` on strings. */
  predicate StringLess(a: string, b: string) {
    if b == [] then false
    else if a == [] then true
    else a[0] < b[0] || (a[0] == b[0] && StringLess(a[1..], b[1..]))
  }

  lemma {:induction false} StringLessTotal(a: string, b: string)
    ensures !StringLess(a, a)
    ensures StringLess(a, b) || a == b || StringLess(b, a)
    ensures !(StringLess(a, b) && StringLess(b, a))
  {
    if a != [] {
      StringLessTotal(a[1..], if b == [] then [] else b[1..]);
    }
    if a != [] && b != [] && a[0] == b[0] && a[1..] == b[1..] {
      assert a == [a[0]] + a[1..] && b == [b[0]] + b[1..];
    }
  }

  lemma {:induction false} StringLessTransitive(a: string, b: string, c: string)
    requires StringLess(a, b) && StringLess(b, c)
    ensures StringLess(a, c)
  {
    if a != [] && a[0] == b[0] == c[0] {
      StringLessTransitive(a[1..], b[1..], c[1..]);
    }
  }

  /** Lexicographic order: after a common part `a` ends, or continues with a smaller character. */
  ghost predicate Precedes(a: string, b: string) {
    exists k :: 0 <= k <= |a| && k < |b| && a[..k] == b[..k] && (k == |a| || a[k] < b[k])
  }

  lemma {:induction false} PrecedesFrom(a: string, b: string, k: nat)
    requires k <= |a| && k < |b| && a[..k] == b[..k] && (k == |a| || a[k] < b[k])
    ensures StringLess(a, b)
  {
    if k > 0 {
      assert a[..k][0] == b[..k][0];
      assert a[1..][..k - 1] == a[..k][1..] && b[1..][..k - 1] == b[..k][1..];
      PrecedesFrom(a[1..], b[1..], k - 1);
    }
  }

  lemma {:induction false} LessParts(a: string, b: string) returns (k: nat)
    requires StringLess(a, b)
    ensures k <= |a| && k < |b| && a[..k] == b[..k] && (k == |a| || a[k] < b[k])
  {
    k := 0;
    if a != [] && a[0] == b[0] {
      var j := LessParts(a[1..], b[1..]);
      k := j + 1;
      assert a[..k] == [a[0]] + a[1..][..j] && b[..k] == [b[0]] + b[1..][..j];
    }
  }

  /** The order of strings is the lexicographic one. */
  lemma StringLessIsLexicographic(a: string, b: string)
    ensures StringLess(a, b) <==> Precedes(a, b)
  {
    if StringLess(a, b) {
      var k := LessParts(a, b);
    }
    if k :| 0 <= k <= |a| && k < |b| && a[..k] == b[..k] && (k == |a| || a[k] < b[k]) {
      PrecedesFrom(a, b, k);
    }
  }

  // ---- comparators ----

  /** A comparator whose ties are consistent: what a stable sort needs for a defined result. */
  ghost predicate WeakOrder<T(!new)>(less: (T, T) -> bool) {
    && (forall a :: !less(a, a))
    && (forall a, b, c :: less(a, b) && less(b, c) ==> less(a, c))
    && (forall a, b, c :: less(a, c) ==> less(a, b) || less(b, c))
  }

  ghost predicate Sorted<T>(less: (T, T) -> bool, s: seq<T>) {
    forall i, j :: 0 <= i < j < |s| ==> !less(s[j], s[i])
  }

  /** Every element is strictly before every later one. */
  ghost predicate Increasing<T>(less: (T, T) -> bool, s: seq<T>) {
    forall i, j :: 0 <= i < j < |s| ==> less(s[i], s[j])
  }

  // ---- the stable sort ----

  /** Put `x` into a sorted list behind everything that is not greater. */
  function Insert<T>(less: (T, T) -> bool, s: seq<T>, x: T): seq<T> {
    if s == [] || !less(x, s[|s| - 1]) then s + [x]
    else Insert(less, s[..|s| - 1], x) + [s[|s| - 1]]
  }

  function InsertAll<T>(less: (T, T) -> bool, s: seq<T>, xs: seq<T>): seq<T> {
    if xs == [] then s else Insert(less, InsertAll(less, s, xs[..|xs| - 1]), xs[|xs| - 1])
  }

  function Sort<T>(less: (T, T) -> bool, xs: seq<T>): seq<T> {
    InsertAll(less, [], xs)
  }

  /** The elements that tie with `k`, in order. */
  function Ties<T>(less: (T, T) -> bool, k: T, s: seq<T>): seq<T> {
    if s == [] then []
    else
      var rest := Ties(less, k, s[..|s| - 1]);
      var x := s[|s| - 1];
      if less(x, k) || less(k, x) then rest else rest + [x]
  }

  lemma {:induction false} InsertMultiset<T>(less: (T, T) -> bool, s: seq<T>, x: T)
    ensures multiset(Insert(less, s, x)) == multiset(s) + multiset{x}
  {
    if s != [] && less(x, s[|s| - 1]) {
      InsertMultiset(less, s[..|s| - 1], x);
      assert s == s[..|s| - 1] + [s[|s| - 1]];
    }
  }

  lemma {:induction false} InsertSorted<T(!new)>(less: (T, T) -> bool, s: seq<T>, x: T)
    requires WeakOrder(less) && Sorted(less, s)
    ensures Sorted(less, Insert(less, s, x))
    ensures forall y :: y in Insert(less, s, x) ==> y in s || y == x
  {
    if s == [] {
    } else {
      var init, last := s[..|s| - 1], s[|s| - 1];
      assert s == init + [last];
      if less(x, last) {
        InsertSorted(less, init, x);
        forall y | y in Insert(less, init, x)
          ensures !less(last, y)
        {
          if y in init {
            var i :| 0 <= i < |init| && init[i] == y;
            assert s[i] == y;
          }
        }
      } else {
        forall i | 0 <= i < |s|
          ensures !less(x, s[i])
        {
          assert i < |s| - 1 ==> !less(last, s[i]);
        }
      }
    }
  }

  lemma {:induction false} InsertTies<T(!new)>(less: (T, T) -> bool, s: seq<T>, x: T, k: T)
    requires WeakOrder(less) && Sorted(less, s)
    ensures Ties(less, k, Insert(less, s, x)) == Ties(less, k, s + [x])
  {
    assert (s + [x])[..|s|] == s;
    if s != [] && less(x, s[|s| - 1]) {
      var init, last := s[..|s| - 1], s[|s| - 1];
      InsertTies(less, init, x, k);
      assert (init + [x])[..|init|] == init;
      assert (Insert(less, init, x) + [last])[..|Insert(less, init, x)|] == Insert(less, init, x);
    }
  }

  lemma {:induction false} TiesAppend<T>(less: (T, T) -> bool, k: T, a: seq<T>, b: seq<T>)
    ensures Ties(less, k, a + b) == Ties(less, k, a) + Ties(less, k, b)
  {
    if b == [] {
      assert a + b == a;
    } else {
      TiesAppend(less, k, a, b[..|b| - 1]);
      assert (a + b)[..|a + b| - 1] == a + b[..|b| - 1];
    }
  }

  /** `Sort` returns a sorted permutation in which tied elements keep their order. */
  lemma {:induction false} SortIsStable<T(!new)>(less: (T, T) -> bool, xs: seq<T>)
    requires WeakOrder(less)
    ensures Sorted(less, Sort(less, xs)) && multiset(Sort(less, xs)) == multiset(xs)
    ensures forall k :: Ties(less, k, Sort(less, xs)) == Ties(less, k, xs)
  {
    if xs != [] {
      var init, last := xs[..|xs| - 1], xs[|xs| - 1];
      SortIsStable(less, init);
      InsertSorted(less, Sort(less, init), last);
      InsertMultiset(less, Sort(less, init), last);
      assert xs == init + [last];
      forall k
        ensures Ties(less, k, Sort(less, xs)) == Ties(less, k, xs)
      {
        InsertTies(less, Sort(less, init), last, k);
        TiesAppend(less, k, Sort(less, init), [last]);
        TiesAppend(less, k, init, [last]);
      }
    }
  }

  lemma {:induction false} TiesOnlyTied<T>(less: (T, T) -> bool, k: T, s: seq<T>, x: T)
    requires x in Ties(less, k, s)
    ensures x in s && !less(x, k) && !less(k, x)
  {
    if s != [] {
      assert s == s[..|s| - 1] + [s[|s| - 1]];
      if x in Ties(less, k, s[..|s| - 1]) {
        TiesOnlyTied(less, k, s[..|s| - 1], x);
      }
    }
  }

  lemma {:induction false} TiesComplete<T>(less: (T, T) -> bool, k: T, s: seq<T>, x: T)
    requires x in s && !less(x, k) && !less(k, x)
    ensures x in Ties(less, k, s)
  {
    var init := s[..|s| - 1];
    assert s == init + [s[|s| - 1]];
    if x in init {
      TiesComplete(less, k, init, x);
    }
  }

  /**
   * Sortedness and the order of ties leave one list only, so the result of a stable sort does
   * not depend on the algorithm.
   */
  lemma {:induction false} StableSortUnique<T(!new)>(less: (T, T) -> bool, a: seq<T>, b: seq<T>)
    requires WeakOrder(less) && Sorted(less, a) && Sorted(less, b)
    requires forall k :: Ties(less, k, a) == Ties(less, k, b)
    ensures a == b
  {
    if a == [] || b == [] {
      if b != [] {
        TiesComplete(less, b[0], b, b[0]);
      } else if a != [] {
        TiesComplete(less, a[0], a, a[0]);
      }
    } else {
      LastIsSame(less, a, b);
      var a', b', x := a[..|a| - 1], b[..|b| - 1], a[|a| - 1];
      forall k
        ensures Ties(less, k, a') == Ties(less, k, b')
      {
        assert Ties(less, k, a) == Ties(less, k, b);
        if !less(x, k) && !less(k, x) {
          SameInit(Ties(less, k, a'), Ties(less, k, b'), x);
        }
      }
      StableSortUnique(less, a', b');
      assert a == a' + [x] && b == b' + [x];
    }
  }

  lemma SameInit<T>(p: seq<T>, q: seq<T>, x: T)
    requires p + [x] == q + [x]
    ensures p == q
  {
    assert p == (p + [x])[..|p|] && q == (q + [x])[..|q|];
  }

  /** The last element of a sorted list is not before any other. */
  lemma LastIsGreatest<T(!new)>(less: (T, T) -> bool, s: seq<T>, x: T)
    requires WeakOrder(less) && Sorted(less, s) && x in s
    ensures !less(s[|s| - 1], x)
  {
    var i :| 0 <= i < |s| && s[i] == x;
    assert !less(x, x);
  }

  /** With equal ties the last element of one list is in the other, and so not after that one's last. */
  lemma LastNotAfter<T(!new)>(less: (T, T) -> bool, a: seq<T>, b: seq<T>)
    requires WeakOrder(less) && Sorted(less, b) && a != [] && b != []
    requires Ties(less, a[|a| - 1], a) == Ties(less, a[|a| - 1], b)
    ensures !less(b[|b| - 1], a[|a| - 1])
  {
    var x := a[|a| - 1];
    assert !less(x, x);
    hide WeakOrder, Sorted, Ties;
    TiesComplete(less, x, a, x);
    TiesOnlyTied(less, x, b, x);
    LastIsGreatest(less, b, x);
  }

  lemma LastIsSame<T(!new)>(less: (T, T) -> bool, a: seq<T>, b: seq<T>)
    requires WeakOrder(less) && Sorted(less, a) && Sorted(less, b) && a != [] && b != []
    requires forall k :: Ties(less, k, a) == Ties(less, k, b)
    ensures a[|a| - 1] == b[|b| - 1]
  {
    var x, y := a[|a| - 1], b[|b| - 1];
    assert !less(x, x);
    assert Ties(less, x, a) == Ties(less, x, b) && Ties(less, y, a) == Ties(less, y, b);
    hide WeakOrder, Sorted, Ties;
    LastNotAfter(less, a, b);
    LastNotAfter(less, b, a);
    LastTie(less, x, a);
    LastTie(less, x, b);
    var p, q := Ties(less, x, a), Ties(less, x, b);
    assert p[|p| - 1] == x && q[|q| - 1] == y;
  }

  lemma LastTie<T>(less: (T, T) -> bool, k: T, s: seq<T>)
    requires s != [] && !less(s[|s| - 1], k) && !less(k, s[|s| - 1])
    ensures Ties(less, k, s) == Ties(less, k, s[..|s| - 1]) + [s[|s| - 1]]
  {
  }

  /** Sorting a list that is sorted already changes nothing. */
  lemma {:induction false} SortSorted<T(!new)>(less: (T, T) -> bool, s: seq<T>)
    requires Sorted(less, s)
    ensures Sort(less, s) == s
  {
    if s != [] {
      var init := s[..|s| - 1];
      SortSorted(less, init);
      assert s == init + [s[|s| - 1]];
    }
  }

  lemma {:induction false} InsertAllAppend<T>(less: (T, T) -> bool, s: seq<T>, xs: seq<T>, ys: seq<T>)
    ensures InsertAll(less, s, xs + ys) == InsertAll(less, InsertAll(less, s, xs), ys)
  {
    if ys == [] {
      assert xs + ys == xs;
    } else {
      InsertAllAppend(less, s, xs, ys[..|ys| - 1]);
      assert (xs + ys)[..|xs + ys| - 1] == xs + ys[..|ys| - 1];
    }
  }

  /** Sorting in two rounds is the same as sorting everything once. */
  lemma SortTwice<T(!new)>(less: (T, T) -> bool, a: seq<T>, b: seq<T>)
    requires WeakOrder(less)
    ensures Sort(less, Sort(less, a) + b) == Sort(less, a + b)
  {
    SortIsStable(less, a);
    SortSorted(less, Sort(less, a));
    InsertAllAppend(less, [], Sort(less, a), b);
    InsertAllAppend(less, [], a, b);
  }

  /** A sorted list without repetitions whose elements never tie is strictly increasing. */
  lemma SortedIncreasing<T(!new)>(less: (T, T) -> bool, s: seq<T>)
    requires Sorted(less, s)
    requires forall i, j :: 0 <= i < j < |s| ==> s[i] != s[j]
    requires forall a, b :: a in s && b in s ==> a == b || less(a, b) || less(b, a)
    ensures Increasing(less, s)
  {
  }

  /** Permutations share whether elements repeat. */
  lemma {:induction false} DistinctPermutation<T>(a: seq<T>, b: seq<T>)
    requires multiset(a) == multiset(b) && forall i, j :: 0 <= i < j < |a| ==> a[i] != a[j]
    ensures forall i, j :: 0 <= i < j < |b| ==> b[i] != b[j]
  {
    forall x
      ensures multiset(a)[x] <= 1
    {
      CountOfDistinct(a, x);
    }
    forall i, j | 0 <= i < j < |b|
      ensures b[i] != b[j]
    {
      assert b == b[..i] + [b[i]] + b[i + 1..j] + [b[j]] + b[j + 1..];
      assert multiset(b)[b[i]] <= 1;
    }
  }

  lemma {:induction false} CountOfDistinct<T>(a: seq<T>, x: T)
    requires forall i, j :: 0 <= i < j < |a| ==> a[i] != a[j]
    ensures multiset(a)[x] <= 1
  {
    if a != [] {
      CountOfDistinct(a[..|a| - 1], x);
      assert a == a[..|a| - 1] + [a[|a| - 1]];
    }
  }

  lemma StringLessIsTotal()
    ensures WeakOrder(StringLess) && forall a, b :: a == b || StringLess(a, b) || StringLess(b, a)
  {
    forall a: string, b: string
      ensures !StringLess(a, a) && (StringLess(a, b) || a == b || StringLess(b, a))
    {
      StringLessTotal(a, b);
    }
    forall a: string, b: string, c: string | StringLess(a, b) && StringLess(b, c)
      ensures StringLess(a, c)
    {
      StringLessTransitive(a, b, c);
    }
  }

  /** Sorting distinct strings gives the one increasing list of them. */
  lemma SortStrings(q: seq<string>)
    requires forall i, j :: 0 <= i < j < |q| ==> q[i] != q[j]
    ensures Increasing(StringLess, Sort(StringLess, q)) && forall x :: x in Sort(StringLess, q) <==> x in q
  {
    StringLessIsTotal();
    SortIsStable(StringLess, q);
    DistinctPermutation(q, Sort(StringLess, q));
    SameElements(q, Sort(StringLess, q));
    SortedIncreasing(StringLess, Sort(StringLess, q));
  }

  lemma SameElements<T>(a: seq<T>, b: seq<T>)
    requires multiset(a) == multiset(b)
    ensures forall x :: x in a <==> x in b
  {
    assert forall x :: x in a <==> x in multiset(a);
    assert forall x :: x in b <==> x in multiset(b);
  }

  /** A strictly increasing list is determined by its elements. */
  lemma {:induction false} IncreasingSame<T(!new)>(less: (T, T) -> bool, p: seq<T>, q: seq<T>)
    requires WeakOrder(less) && Increasing(less, p) && Increasing(less, q)
    requires forall x :: x in p <==> x in q
    ensures p == q
  {
    if p == [] && q != [] {
      FirstIsIn(q);
    } else if q == [] && p != [] {
      FirstIsIn(p);
    } else if p != [] {
      SameLast(less, p, q);
      var p', q' := p[..|p| - 1], q[..|q| - 1];
      assert p == p' + [p[|p| - 1]] && q == q' + [q[|q| - 1]];
      forall x
        ensures x in p' <==> x in q'
      {
        LastIsNew(less, p);
        LastIsNew(less, q);
        assert x in p <==> x in q;
      }
      IncreasingSame(less, p', q');
    }
  }

  lemma FirstIsIn<T>(p: seq<T>)
    requires p != []
    ensures p[0] in p
  {
  }

  lemma LastIsNew<T(!new)>(less: (T, T) -> bool, p: seq<T>)
    requires WeakOrder(less) && Increasing(less, p) && p != []
    ensures p[|p| - 1] !in p[..|p| - 1]
  {
  }

  lemma SameLast<T(!new)>(less: (T, T) -> bool, p: seq<T>, q: seq<T>)
    requires WeakOrder(less) && Increasing(less, p) && Increasing(less, q) && p != [] && q != []
    requires forall x :: x in p <==> x in q
    ensures p[|p| - 1] == q[|q| - 1]
  {
    var x, y := p[|p| - 1], q[|q| - 1];
    assert x in q && y in p;
    var i :| 0 <= i < |q| && q[i] == x;
    var j :| 0 <= j < |p| && p[j] == y;
    assert i == |q| - 1 || less(x, y);
    assert j == |p| - 1 || less(y, x);
    assert !less(x, x) && (less(x, y) && less(y, x) ==> less(x, x));
  }

  // ---- orders built from fields ----

  function ByInt<T>(f: T -> int): (T, T) -> bool {
    (a, b) => f(a) < f(b)
  }

  function ByString<T>(f: T -> string): (T, T) -> bool {
    (a, b) => StringLess(f(a), f(b))
  }

  /** First by `p`, ties by `q`. */
  function Then<T>(p: (T, T) -> bool, q: (T, T) -> bool): (T, T) -> bool {
    (a, b) => p(a, b) || (!p(b, a) && q(a, b))
  }

  ghost predicate Tied<T>(less: (T, T) -> bool, a: T, b: T) {
    !less(a, b) && !less(b, a)
  }

  lemma ByIntOrder<T(!new)>(f: T -> int)
    ensures WeakOrder(ByInt(f)) && forall a, b :: Tied(ByInt(f), a, b) <==> f(a) == f(b)
  {
  }

  lemma ByStringOrder<T(!new)>(f: T -> string)
    ensures WeakOrder(ByString(f)) && forall a, b :: Tied(ByString(f), a, b) <==> f(a) == f(b)
  {
    StringLessIsTotal();
  }

  lemma ThenOrder<T(!new)>(p: (T, T) -> bool, q: (T, T) -> bool)
    requires WeakOrder(p) && WeakOrder(q)
    ensures WeakOrder(Then(p, q)) && forall a, b :: Tied(Then(p, q), a, b) <==> Tied(p, a, b) && Tied(q, a, b)
  {
  }
}
