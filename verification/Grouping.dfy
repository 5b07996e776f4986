/** The jobs' grouping loop: rows into one list per key, in order of arrival. */
module Grouping {
  ghost predicate Distinct<X>(xs: seq<X>) {
    forall i, j :: 0 <= i < j < |xs| ==> xs[i] != xs[j]
  }

  /** The values paired with one key, in order. */
  function GroupOf<K(==), V>(pairs: seq<(K, V)>, key: K): seq<V> {
    if pairs == [] then []
    else
      var n := |pairs| - 1;
      var rest := GroupOf(pairs[..n], key);
      if pairs[n].0 == key then rest + [pairs[n].1] else rest
  }

  /** One non-empty group for each key in use. */
  method GroupByKey<K(==), V>(pairs: seq<(K, V)>) returns (groups: map<K, seq<V>>)
    ensures forall k :: k in groups <==> GroupOf(pairs, k) != []
    ensures forall k :: k in groups ==> groups[k] == GroupOf(pairs, k)
  {
    groups := map[];
    for i := 0 to |pairs|
      invariant forall k :: k in groups <==> GroupOf(pairs[..i], k) != []
      invariant forall k :: k in groups ==> groups[k] == GroupOf(pairs[..i], k)
    {
      var (key, value) := pairs[i];
      assert pairs[..i + 1][..i] == pairs[..i];
      var list := if key in groups then groups[key] else [];
      groups := groups[key := list + [value]];
    }
    assert pairs[..|pairs|] == pairs;
  }

  lemma {:induction false} GroupIsExact<K, V>(pairs: seq<(K, V)>, key: K)
    ensures forall v :: v in GroupOf(pairs, key) <==> (key, v) in pairs
  {
    if pairs != [] {
      var n := |pairs| - 1;
      GroupIsExact(pairs[..n], key);
      assert pairs == pairs[..n] + [pairs[n]];
    }
  }

  /** A value that comes up with one key only lands in exactly one group, that of its key. */
  lemma OneGroupEach<K, V>(pairs: seq<(K, V)>, pair: (K, V), key: K)
    requires pair in pairs
    requires forall other :: other in pairs && other.1 == pair.1 ==> other == pair
    ensures pair.1 in GroupOf(pairs, key) <==> key == pair.0
  {
    GroupIsExact(pairs, key);
  }

  /** Listed once among the pairs, listed once in its group. */
  lemma {:induction false} GroupIsDistinct<K, V>(pairs: seq<(K, V)>, key: K)
    requires Distinct(pairs)
    ensures Distinct(GroupOf(pairs, key))
  {
    if pairs != [] {
      var n := |pairs| - 1;
      GroupIsDistinct(pairs[..n], key);
      GroupIsExact(pairs[..n], key);
      assert pairs[n] !in pairs[..n];
    }
  }
}
