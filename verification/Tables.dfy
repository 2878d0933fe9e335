/** Grouped tables: one row per key, conservation of sums, and independence of the order of events. */
module Tables {
  import opened Orders
  import opened Tallies

  /** One row per key, in order of first appearance of the keys. */
  function Table<E, K(==), R>(events: seq<E>, key: E -> K, row: (seq<E>, K) -> R): seq<R> {
    RowsOf(FirstSeen(events, key), events, key, row)
  }

  function RowsOf<E, K(==), R>(keys: seq<K>, events: seq<E>, key: E -> K, row: (seq<E>, K) -> R): seq<R> {
    seq(|keys|, i requires 0 <= i < |keys| => row(Select(events, key, keys[i]), keys[i]))
  }

  lemma TableAt<E, K, R>(events: seq<E>, key: E -> K, row: (seq<E>, K) -> R)
    ensures |Table(events, key, row)| == |FirstSeen(events, key)|
    ensures forall i :: 0 <= i < |Table(events, key, row)| ==>
      var k := FirstSeen(events, key)[i]; Table(events, key, row)[i] == row(Select(events, key, k), k)
  {
  }

  /** `first` and `add` build the row of a key event by event. */
  ghost predicate Builds<E(!new), K(!new), R>(key: E -> K, row: (seq<E>, K) -> R, first: E -> R, add: (R, E) -> R) {
    && (forall e :: first(e) == row([e], key(e)))
    && (forall sel, e :: sel != [] ==> add(row(sel, key(e)), e) == row(sel + [e], key(e)))
  }

  /** The aggregation loop: a map of groups that is updated in place, event by event. */
  method Aggregate<E(!new), K(==, !new), R>(events: seq<E>, key: E -> K, first: E -> R, add: (R, E) -> R,
                                            ghost row: (seq<E>, K) -> R) returns (rows: seq<R>)
    requires Builds(key, row, first, add)
    ensures rows == Table(events, key, row)
  {
    var order: seq<K>, groups: map<K, R> := [], map[];
    for i := 0 to |events|
      invariant order == FirstSeen(events[..i], key)
      invariant forall k :: k in groups <==> k in order
      invariant forall k :: k in groups ==> groups[k] == row(Select(events[..i], key, k), k)
    {
      var e := events[i];
      var k := key(e);
      assert events[..i + 1][..i] == events[..i];
      FirstSeenExact(events[..i], key);
      if k !in groups {
        order := order + [k];
        groups := groups[k := first(e)];
        assert Select(events[..i + 1], key, k) == [e];
      } else {
        groups := groups[k := add(groups[k], e)];
      }
    }
    assert events[..|events|] == events;
    rows := seq(|order|, i requires 0 <= i < |order| && order[i] in groups => groups[order[i]]);
  }

  lemma {:induction false} RowsSum<E, K, R>(keys: seq<K>, events: seq<E>, key: E -> K, row: (seq<E>, K) -> R,
                                            g: R -> int, f: E -> int)
    requires forall i :: 0 <= i < |keys| ==>
      g(row(Select(events, key, keys[i]), keys[i])) == SumBy(Select(events, key, keys[i]), f)
    ensures SumBy(RowsOf(keys, events, key, row), g) == SumBy(keys, k => SumBy(Select(events, key, k), f))
  {
    if keys != [] {
      var init := keys[..|keys| - 1];
      RowsSum(init, events, key, row, g, f);
      assert RowsOf(keys, events, key, row)[..|keys| - 1] == RowsOf(init, events, key, row);
    }
  }

  /** A column that sums `f` over each group sums to `f` over all events. */
  lemma TableConserves<E, K(!new), R>(events: seq<E>, key: E -> K, row: (seq<E>, K) -> R, g: R -> int, f: E -> int)
    requires forall k :: g(row(Select(events, key, k), k)) == SumBy(Select(events, key, k), f)
    ensures SumBy(Table(events, key, row), g) == SumBy(events, f)
  {
    RowsSum(FirstSeen(events, key), events, key, row, g, f);
    GroupsConserve(events, key, f);
  }

  /** Sorting keeps the sum of a column. */
  lemma SortedSum<R(!new)>(less: (R, R) -> bool, rows: seq<R>, g: R -> int)
    requires WeakOrder(less)
    ensures SumBy(Sort(less, rows), g) == SumBy(rows, g)
  {
    SortIsStable(less, rows);
    SumPermutation(Sort(less, rows), rows, g);
  }

  /** Rows of different keys never tie. */
  ghost predicate Separates<E, K(!new), R>(events: seq<E>, key: E -> K, row: (seq<E>, K) -> R, less: (R, R) -> bool) {
    forall j, k :: j in FirstSeen(events, key) && k in FirstSeen(events, key) && j != k ==>
      !Tied(less, row(Select(events, key, j), j), row(Select(events, key, k), k))
  }

  ghost predicate RowFor<E, K, R>(events: seq<E>, key: E -> K, row: (seq<E>, K) -> R, k: K, r: R) {
    k in FirstSeen(events, key) && r == row(Select(events, key, k), k)
  }

  lemma TableRows<E, K(!new), R>(events: seq<E>, key: E -> K, row: (seq<E>, K) -> R, r: R)
    ensures r in Table(events, key, row) <==> exists k :: RowFor(events, key, row, k, r)
  {
    var keys, rows := FirstSeen(events, key), Table(events, key, row);
    if r in rows {
      var i :| 0 <= i < |keys| && rows[i] == r;
      assert RowFor(events, key, row, keys[i], r);
    }
    if k :| RowFor(events, key, row, k, r) {
      var i :| 0 <= i < |keys| && keys[i] == k;
      assert rows[i] == r;
    }
  }

  /** The sorted table lists its rows in strictly increasing order. */
  lemma SortedTable<E, K(!new), R(!new)>(events: seq<E>, key: E -> K, row: (seq<E>, K) -> R, less: (R, R) -> bool)
    requires WeakOrder(less) && Separates(events, key, row, less)
    ensures Increasing(less, Sort(less, Table(events, key, row)))
    ensures forall r :: r in Sort(less, Table(events, key, row)) <==> r in Table(events, key, row)
  {
    var keys, rows := FirstSeen(events, key), Table(events, key, row);
    FirstSeenExact(events, key);
    SortIsStable(less, rows);
    SameElements(rows, Sort(less, rows));
    assert forall a :: !less(a, a);
    hide WeakOrder, Sorted;
    forall i, j | 0 <= i < j < |rows|
      ensures rows[i] != rows[j] && !Tied(less, rows[i], rows[j])
    {
      assert keys[i] in keys && keys[j] in keys;
    }
    DistinctPermutation(rows, Sort(less, rows));
    NeverTied(less, rows);
    SortedIncreasing(less, Sort(less, rows));
  }

  lemma NeverTied<R>(less: (R, R) -> bool, rows: seq<R>)
    requires forall i, j :: 0 <= i < j < |rows| ==> !Tied(less, rows[i], rows[j])
    ensures forall a, b :: a in rows && b in rows ==> a == b || less(a, b) || less(b, a)
  {
  }

  /** Reordered events give the same sorted table. */
  lemma TableOrderFree<E, K(!new), R(!new)>(a: seq<E>, b: seq<E>, key: E -> K, row: (seq<E>, K) -> R,
                                            less: (R, R) -> bool)
    requires WeakOrder(less) && multiset(a) == multiset(b)
    requires Separates(a, key, row, less)
    requires forall k :: k in FirstSeen(a, key) ==> row(Select(a, key, k), k) == row(Select(b, key, k), k)
    ensures Sort(less, Table(a, key, row)) == Sort(less, Table(b, key, row))
  {
    hide Sort, Table, Select, FirstSeen, WeakOrder;
    SelectPermutation(a, b, key);
    SortedTable(a, key, row, less);
    SortedTable(b, key, row, less);
    SameRows(a, b, key, row);
    IncreasingSame(less, Sort(less, Table(a, key, row)), Sort(less, Table(b, key, row)));
  }

  lemma SameRows<E, K(!new), R(!new)>(a: seq<E>, b: seq<E>, key: E -> K, row: (seq<E>, K) -> R)
    requires forall k :: k in FirstSeen(a, key) <==> k in FirstSeen(b, key)
    requires forall k :: k in FirstSeen(a, key) ==> row(Select(a, key, k), k) == row(Select(b, key, k), k)
    ensures forall r :: r in Table(a, key, row) <==> r in Table(b, key, row)
  {
    hide Table, Select, FirstSeen;
    forall r
      ensures r in Table(a, key, row) <==> r in Table(b, key, row)
    {
      TableRows(a, key, row, r);
      TableRows(b, key, row, r);
      if k :| RowFor(a, key, row, k, r) {
        assert RowFor(b, key, row, k, r);
      }
      if k :| RowFor(b, key, row, k, r) {
        assert RowFor(a, key, row, k, r);
      }
    }
  }

  // ---- when the order of events does show ----

  /** The table of two events of different keys. */
  lemma TableOfTwo<E, K, R>(e: E, f: E, key: E -> K, row: (seq<E>, K) -> R)
    requires key(e) != key(f)
    ensures Table([e, f], key, row) == [row([e], key(e)), row([f], key(f))]
  {
    TakeLast([e], f);
    TakeLast([], e);
    assert [e, f] == [e] + [f] && [e] == [] + [e];
    assert FirstSeen([e], key) == [key(e)];
    assert FirstSeen([e, f], key) == [key(e), key(f)];
    SelectOne(e, key, key(e));
    SelectOne(e, key, key(f));
    assert Select([e, f], key, key(e)) == [e];
    assert Select([e, f], key, key(f)) == [f];
    TableAt([e, f], key, row);
  }

  lemma TakeLast<E>(s: seq<E>, x: E)
    ensures (s + [x])[..|s + [x]| - 1] == s
  {
  }

  lemma SelectOne<E, K>(e: E, key: E -> K, k: K)
    ensures Select([e], key, k) == if key(e) == k then [e] else []
  {
    assert [e][..0] == [];
  }

  /** Two tied rows stay in the order in which their events came. */
  lemma TwoTiedRows<E, K, R>(e: E, f: E, key: E -> K, row: (seq<E>, K) -> R, less: (R, R) -> bool)
    requires key(e) != key(f) && !less(row([f], key(f)), row([e], key(e)))
    ensures Sort(less, Table([e, f], key, row)) == [row([e], key(e)), row([f], key(f))]
  {
    TableOfTwo(e, f, key, row);
    hide Table;
    var p, q := row([e], key(e)), row([f], key(f));
    TakeLast([p], q);
    TakeLast([], p);
    assert [p, q] == [p] + [q] && [p] == [] + [p];
    assert InsertAll(less, [], [p]) == [p];
  }

  lemma {:induction false} TiesHead<R>(less: (R, R) -> bool, k: R, s: seq<R>)
    requires s != [] && Tied(less, s[0], k)
    ensures Ties(less, k, s) != [] && Ties(less, k, s)[0] == s[0]
  {
    if |s| > 1 {
      TiesHead(less, k, s[..|s| - 1]);
    }
  }

  lemma {:induction false} FirstSeenHead<E, K>(s: seq<E>, key: E -> K)
    requires s != []
    ensures FirstSeen(s, key) != [] && FirstSeen(s, key)[0] == key(s[0])
  {
    if |s| > 1 {
      FirstSeenHead(s[..|s| - 1], key);
    }
  }

  lemma {:induction false} KeyOccurs<E, K>(s: seq<E>, key: E -> K, k: K) returns (i: nat)
    requires k in FirstSeen(s, key)
    ensures i < |s| && key(s[i]) == k
  {
    i := |s| - 1;
    if key(s[i]) != k {
      i := KeyOccurs(s[..i], key, k);
    }
  }

  /** Some reordering of the events shows the key `k` first. */
  lemma BringForward<E, K(!new)>(s: seq<E>, key: E -> K, k: K) returns (t: seq<E>)
    requires k in FirstSeen(s, key)
    ensures multiset(t) == multiset(s) && t != [] && key(t[0]) == k
  {
    hide FirstSeen;
    var i := KeyOccurs(s, key, k);
    var rest := s[..i] + s[i + 1..];
    TakeOut(s, i);
    assert s[i] in multiset(s);
    t := [s[i]] + rest;
    assert multiset(t) == multiset{s[i]} + multiset(rest);
  }

  /** A row depends on the events of its key, not on their order, and tells its key. */
  ghost predicate RowsTell<E(!new), K(!new), R>(row: (seq<E>, K) -> R) {
    && (forall p, q, k :: multiset(p) == multiset(q) ==> row(p, k) == row(q, k))
    && (forall p, q, j, k :: j != k ==> row(p, j) != row(q, k))
  }

  /** With the key `k` brought forward its row leads the rows it ties with. */
  lemma LeadsTies<E(!new), K(!new), R(!new)>(a: seq<E>, b: seq<E>, key: E -> K, row: (seq<E>, K) -> R,
                                            less: (R, R) -> bool, k: K, r: R)
    requires WeakOrder(less) && RowsTell(row) && multiset(a) == multiset(b) && b != [] && key(b[0]) == k
    requires Tied(less, row(Select(a, key, k), k), r)
    ensures var ties := Ties(less, r, Sort(less, Table(b, key, row)));
            ties != [] && ties[0] == row(Select(a, key, k), k)
  {
    FirstSeenHead(b, key);
    TableAt(b, key, row);
    SelectReordered(a, b, key, k);
    var rows := Table(b, key, row);
    assert rows[0] == row(Select(a, key, k), k);
    hide Table, RowsTell;
    TiesHead(less, r, rows);
    SortIsStable(less, rows);
  }

  /** The sorted table forgets the order of the events exactly when rows of different keys never tie. */
  lemma OrderFreeExactly<E(!new), K(!new), R(!new)>(a: seq<E>, key: E -> K, row: (seq<E>, K) -> R,
                                                    less: (R, R) -> bool)
    requires WeakOrder(less) && RowsTell(row)
    ensures (forall b :: multiset(b) == multiset(a) ==>
               Sort(less, Table(b, key, row)) == Sort(less, Table(a, key, row)))
            <==> Separates(a, key, row, less)
  {
    if Separates(a, key, row, less) {
      forall b | multiset(b) == multiset(a)
        ensures Sort(less, Table(b, key, row)) == Sort(less, Table(a, key, row))
      {
        SelectPermutation(a, b, key);
        TableOrderFree(a, b, key, row, less);
      }
    } else {
      var j, k :| j in FirstSeen(a, key) && k in FirstSeen(a, key) && j != k
                  && Tied(less, row(Select(a, key, j), j), row(Select(a, key, k), k));
      var p, q := row(Select(a, key, j), j), row(Select(a, key, k), k);
      var b := BringForward(a, key, j);
      var c := BringForward(a, key, k);
      assert Tied(less, q, q) && p != q;
      LeadsTies(a, b, key, row, less, j, q);
      LeadsTies(a, c, key, row, less, k, q);
      assert Sort(less, Table(b, key, row)) != Sort(less, Table(c, key, row));
    }
  }
}
