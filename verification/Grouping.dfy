/** Grouping the positions of a list by a key, in order of first appearance. */
module Grouping {

  function Positions<K(==)>(keys: seq<K>, key: K): seq<nat> {
    if keys == [] then []
    else
      var rest := Positions(keys[..|keys| - 1], key);
      if keys[|keys| - 1] == key then rest + [|keys| - 1] else rest
  }

  lemma {:induction false} PositionsMembers<K>(keys: seq<K>, key: K)
    ensures forall i: nat :: i in Positions(keys, key) <==> i < |keys| && keys[i] == key
  {
    if keys != [] {
      var n := |keys| - 1;
      var init, last := keys[..n], keys[n];
      var rest := Positions(init, key);
      PositionsMembers(init, key);
      assert Positions(keys, key) == if last == key then rest + [n] else rest;
      hide Positions;
      forall i: nat
        ensures i in Positions(keys, key) <==> i < |keys| && keys[i] == key
      {
        assert i in rest + [n] <==> i in rest || i == n;
        assert i < n ==> init[i] == keys[i];
      }
    }
  }

  lemma {:induction false} PositionsAscend<K>(keys: seq<K>, key: K)
    ensures forall i, j :: 0 <= i < j < |Positions(keys, key)| ==> Positions(keys, key)[i] < Positions(keys, key)[j]
  {
    if keys != [] {
      var n := |keys| - 1;
      var rest := Positions(keys[..n], key);
      PositionsAscend(keys[..n], key);
      PositionsMembers(keys[..n], key);
      assert Positions(keys, key) == if keys[n] == key then rest + [n] else rest;
      hide Positions;
      forall i | 0 <= i < |rest|
        ensures rest[i] < n
      {
        assert rest[i] in rest;
      }
    }
  }

  lemma PositionsExact<K>(keys: seq<K>, key: K)
    ensures forall i: nat :: i in Positions(keys, key) <==> i < |keys| && keys[i] == key
    ensures forall i, j :: 0 <= i < j < |Positions(keys, key)| ==> Positions(keys, key)[i] < Positions(keys, key)[j]
  {
    hide Positions;
    PositionsMembers(keys, key);
    PositionsAscend(keys, key);
  }

  /** `groups` maps every key to its positions; `order` lists the keys by first appearance. */
  ghost predicate IsGrouping<K(!new)>(keys: seq<K>, order: seq<K>, groups: map<K, seq<nat>>) {
    && (forall k :: k in groups <==> k in order)
    && (forall k :: k in groups ==> groups[k] == Positions(keys, k) && groups[k] != [])
    && (forall k :: k !in groups ==> Positions(keys, k) == [])
    && (forall i, j :: 0 <= i < j < |order| ==> groups[order[i]][0] < groups[order[j]][0])
  }

  method GroupPositions<K(==, !new)>(keys: seq<K>) returns (order: seq<K>, groups: map<K, seq<nat>>)
    ensures IsGrouping(keys, order, groups)
  {
    order, groups := [], map[];
    for i := 0 to |keys|
      invariant IsGrouping(keys[..i], order, groups)
    {
      var key := keys[i];
      GroupOneMore(keys[..i], key, order, groups);
      assert keys[..i + 1] == keys[..i] + [key];
      if key in groups {
        groups := groups[key := groups[key] + [i]];
      } else {
        order := order + [key];
        groups := groups[key := [i]];
      }
    }
    assert keys[..|keys|] == keys;
  }

  lemma GroupOneMore<K(!new)>(keys: seq<K>, key: K, order: seq<K>, groups: map<K, seq<nat>>)
    requires IsGrouping(keys, order, groups)
    ensures key in groups ==> IsGrouping(keys + [key], order, groups[key := groups[key] + [|keys|]])
    ensures key !in groups ==> IsGrouping(keys + [key], order + [key], groups[key := [|keys|]])
  {
    var more := keys + [key];
    assert more[..|more| - 1] == keys;
    assert Positions(more, key) == Positions(keys, key) + [|keys|];
    assert forall k :: k != key ==> Positions(more, k) == Positions(keys, k);
    forall k | k in groups
      ensures groups[k][0] < |keys|
    {
      PositionsExact(keys, k);
      assert groups[k][0] in groups[k];
    }
  }
}
