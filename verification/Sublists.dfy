/** What is left of a list when only some of its elements are kept, told by counting along the list. */
module Sublists {

  /** One more element: kept ones are counted. */
  predicate Counts<T>(whole: seq<T>, keep: T -> bool, before: seq<nat>, k: nat)
    requires k < |whole| && |before| == |whole| + 1
  {
    before[k + 1] == before[k] + if keep(whole[k]) then 1 else 0
  }

  /** `before[k]` of the first `k` elements are kept, and a kept element stands behind the kept ones before it. */
  ghost predicate Picks<T>(whole: seq<T>, part: seq<T>, keep: T -> bool, before: seq<nat>) {
    && |before| == |whole| + 1 && before[0] == 0 && before[|whole|] == |part|
    && (forall k :: 0 <= k < |whole| ==> Counts(whole, keep, before, k))
    && forall k :: 0 <= k < |whole| && keep(whole[k]) ==> before[k] < |part| && part[before[k]] == whole[k]
  }

  /** `part` consists of exactly the kept elements of `whole`, each as often as there and in the same order. */
  ghost predicate Keeps<T>(whole: seq<T>, part: seq<T>, keep: T -> bool) {
    exists before: seq<nat> :: Picks(whole, part, keep, before)
  }

  lemma KeepsNone<T>(keep: T -> bool)
    ensures Keeps([], [], keep)
  {
    var before: seq<nat> := [0];
    assert Picks([], [], keep, before);
  }

  lemma KeepsStep<T>(whole: seq<T>, part: seq<T>, keep: T -> bool, last: T)
    requires Keeps(whole, part, keep)
    ensures Keeps(whole + [last], if keep(last) then part + [last] else part, keep)
  {
    var before: seq<nat> :| Picks(whole, part, keep, before);
    var longer: seq<nat> := before + [if keep(last) then |part| + 1 else |part|];
    var all, kept := whole + [last], if keep(last) then part + [last] else part;
    forall k | 0 <= k < |all|
      ensures Counts(all, keep, longer, k)
      ensures keep(all[k]) ==> longer[k] < |kept| && kept[longer[k]] == all[k]
    {
      if k < |whole| {
        assert Counts(whole, keep, before, k);
      }
    }
    assert Picks(all, kept, keep, longer);
  }

  /** Conversely, the last element can be taken off. */
  lemma KeepsBack<T>(whole: seq<T>, part: seq<T>, keep: T -> bool, last: T) returns (rest: seq<T>)
    requires Keeps(whole + [last], part, keep)
    ensures Keeps(whole, rest, keep)
    ensures part == if keep(last) then rest + [last] else rest
  {
    var n, all := |whole|, whole + [last];
    var before: seq<nat> :| Picks(all, part, keep, before);
    assert Counts(all, keep, before, n) && all[n] == last;
    rest := part[..before[n]];
    CountsUp(all, keep, before, n);
    var shorter := before[..n + 1];
    forall k | 0 <= k < n
      ensures Counts(whole, keep, shorter, k)
      ensures keep(whole[k]) ==> shorter[k] < |rest| && rest[shorter[k]] == whole[k]
    {
      assert Counts(all, keep, before, k) && all[k] == whole[k];
    }
    assert Picks(whole, rest, keep, shorter);
  }

  lemma {:induction false} CountsUp<T>(whole: seq<T>, keep: T -> bool, before: seq<nat>, n: nat)
    requires n <= |whole| && |before| == |whole| + 1
    requires forall k :: 0 <= k < |whole| ==> Counts(whole, keep, before, k)
    ensures forall k :: 0 <= k < n && keep(whole[k]) ==> before[k] < before[n]
    ensures forall k :: 0 <= k < n ==> before[k] <= before[n]
  {
    if n > 0 {
      CountsUp(whole, keep, before, n - 1);
      assert Counts(whole, keep, before, n - 1);
    }
  }

  /** There is only one such list. */
  lemma {:induction false} KeepsUnique<T>(whole: seq<T>, a: seq<T>, b: seq<T>, keep: T -> bool)
    requires Keeps(whole, a, keep) && Keeps(whole, b, keep)
    ensures a == b
  {
    if whole == [] {
      KeepsNothing(a, keep);
      KeepsNothing(b, keep);
    } else {
      var n := |whole| - 1;
      assert whole == whole[..n] + [whole[n]];
      hide Keeps;
      var p := KeepsBack(whole[..n], a, keep, whole[n]);
      var q := KeepsBack(whole[..n], b, keep, whole[n]);
      KeepsUnique(whole[..n], p, q, keep);
    }
  }

  lemma KeepsNothing<T>(part: seq<T>, keep: T -> bool)
    requires Keeps([], part, keep)
    ensures part == []
  {
  }

  /** An element is left exactly if it was there and is kept. */
  lemma {:induction false} KeptMember<T>(whole: seq<T>, part: seq<T>, keep: T -> bool, x: T)
    requires Keeps(whole, part, keep)
    ensures x in part <==> x in whole && keep(x)
  {
    if whole == [] {
      KeepsNothing(part, keep);
    } else {
      var n := |whole| - 1;
      assert whole == whole[..n] + [whole[n]];
      hide Keeps;
      var rest := KeepsBack(whole[..n], part, keep, whole[n]);
      KeptMember(whole[..n], rest, keep, x);
    }
  }
}
