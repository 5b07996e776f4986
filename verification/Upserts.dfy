/**
  `INSERT ... ON CONFLICT DO UPDATE`: a table is a map, and a statement replaces the rows
  whose keys it computes.
 */
module Upserts {
  /** The table after the first `n` of the batches. */
  function Merge<K, V>(table: map<K, V>, batches: seq<map<K, V>>, n: nat): map<K, V>
    requires n <= |batches|
  {
    if n == 0 then table else Merge(table, batches, n - 1) + batches[n - 1]
  }

  /**
    Once a batch has written `value` under `key` and no later one writes anything else
    there, that is what the table holds.
   */
  lemma {:induction false} LastWriteStays<K, V>(
    table: map<K, V>, batches: seq<map<K, V>>, n: nat, key: K, value: V, at: nat)
    requires at < n <= |batches| && key in batches[at] && batches[at][key] == value
    requires forall i :: at < i < n && key in batches[i] ==> batches[i][key] == value
    ensures key in Merge(table, batches, n) && Merge(table, batches, n)[key] == value
  {
    if at < n - 1 {
      LastWriteStays(table, batches, n - 1, key, value, at);
    }
  }

  /** A key that no batch holds is left as it was. */
  lemma {:induction false} MergeAvoids<K, V>(table: map<K, V>, batches: seq<map<K, V>>, n: nat, key: K)
    requires n <= |batches| && forall i :: 0 <= i < n ==> key !in batches[i]
    ensures key in Merge(table, batches, n) <==> key in table
    ensures key in table ==> Merge(table, batches, n)[key] == table[key]
  {
    if n > 0 {
      MergeAvoids(table, batches, n - 1, key);
    }
  }

  /** Running one list of batches after another. */
  lemma MergeOfBoth<K, V>(table: map<K, V>, a: seq<map<K, V>>, b: seq<map<K, V>>, both: seq<map<K, V>>)
    requires both == a + b
    ensures Merge(table, both, |both|) == Merge(Merge(table, a, |a|), b, |b|)
  {
    assert |both| == |a| + |b|;
    MergeAppend(table, a, b, |b|);
  }

  lemma {:induction false} MergeAppend<K, V>(table: map<K, V>, a: seq<map<K, V>>, b: seq<map<K, V>>, n: nat)
    requires n <= |b|
    ensures Merge(table, a + b, |a| + n) == Merge(Merge(table, a, |a|), b, n)
  {
    if n == 0 {
      MergePrefix(table, a, b, |a|);
    } else {
      MergeAppend(table, a, b, n - 1);
      assert (a + b)[|a| + n - 1] == b[n - 1];
    }
  }

  lemma {:induction false} MergePrefix<K, V>(table: map<K, V>, a: seq<map<K, V>>, b: seq<map<K, V>>, n: nat)
    requires n <= |a|
    ensures Merge(table, a + b, n) == Merge(table, a, n)
  {
    if n > 0 {
      MergePrefix(table, a, b, n - 1);
    }
  }

  /** One row for each of the listed groups. */
  function Batch<G, K, V>(groups: seq<G>, keyOf: G -> K, rowOf: G -> V): map<K, V> {
    if groups == [] then map[]
    else
      var n := |groups| - 1;
      Batch(groups[..n], keyOf, rowOf)[keyOf(groups[n]) := rowOf(groups[n])]
  }

  lemma {:induction false} BatchIsExact<G(!new), K, V>(groups: seq<G>, keyOf: G -> K, rowOf: G -> V, g: G)
    requires forall a: G, b: G :: keyOf(a) == keyOf(b) ==> a == b
    ensures keyOf(g) in Batch(groups, keyOf, rowOf) <==> g in groups
    ensures g in groups ==> Batch(groups, keyOf, rowOf)[keyOf(g)] == rowOf(g)
  {
    if groups != [] {
      var n := |groups| - 1;
      BatchIsExact(groups[..n], keyOf, rowOf, g);
      assert groups == groups[..n] + [groups[n]];
    }
  }

  lemma {:induction false} BatchAvoids<G, K, V>(groups: seq<G>, keyOf: G -> K, rowOf: G -> V, key: K)
    requires forall i :: 0 <= i < |groups| ==> keyOf(groups[i]) != key
    ensures key !in Batch(groups, keyOf, rowOf)
  {
    if groups != [] {
      BatchAvoids(groups[..|groups| - 1], keyOf, rowOf, key);
    }
  }

  /** The rows of several owners, one after another. */
  function Union<E, K, V>(owners: seq<E>, rowsOf: E -> map<K, V>): map<K, V> {
    if owners == [] then map[]
    else Union(owners[..|owners| - 1], rowsOf) + rowsOf(owners[|owners| - 1])
  }

  /** If every key belongs to one owner, the union holds exactly what its owners have. */
  lemma {:induction false} UnionIsExact<E(!new), K(!new), V>(
    owners: seq<E>, rowsOf: E -> map<K, V>, ownerOf: K -> E, key: K)
    requires forall e: E, k: K :: k in rowsOf(e) ==> ownerOf(k) == e
    ensures key in Union(owners, rowsOf) <==> ownerOf(key) in owners && key in rowsOf(ownerOf(key))
    ensures key in Union(owners, rowsOf) ==> Union(owners, rowsOf)[key] == rowsOf(ownerOf(key))[key]
  {
    if owners != [] {
      var n := |owners| - 1;
      UnionIsExact(owners[..n], rowsOf, ownerOf, key);
      assert owners == owners[..n] + [owners[n]];
    }
  }

  /** The two tables agree under a key. */
  predicate AgreeAt<K, V(==)>(a: map<K, V>, b: map<K, V>, key: K) {
    (key in a <==> key in b) && (key in a ==> a[key] == b[key])
  }

  lemma AgreeThrough<K, V>(a: map<K, V>, b: map<K, V>, c: map<K, V>, key: K)
    requires AgreeAt(a, b, key) && AgreeAt(b, c, key)
    ensures AgreeAt(a, c, key)
  {
  }

  lemma {:induction false} AgreeAlong<K, V>(tables: seq<map<K, V>>, key: K, n: nat)
    requires n < |tables| && forall i {:trigger tables[i]} :: 0 < i <= n ==> AgreeAt(tables[i], tables[i - 1], key)
    ensures AgreeAt(tables[n], tables[0], key)
  {
    if n > 0 {
      AgreeAlong(tables, key, n - 1);
      AgreeThrough(tables[n], tables[n - 1], tables[0], key);
    }
  }

  /** How many of the batches come before the first that is not accepted. */
  function Accepted<K, V>(batches: seq<map<K, V>>, accepts: map<K, V> -> bool): (n: nat)
    ensures n <= |batches|
    ensures forall i :: 0 <= i < n ==> accepts(batches[i])
    ensures n < |batches| ==> !accepts(batches[n])
  {
    if batches == [] || !accepts(batches[0]) then 0 else 1 + Accepted(batches[1..], accepts)
  }

  lemma {:induction false} AcceptedAtMost<K, V>(batches: seq<map<K, V>>, accepts: map<K, V> -> bool, n: nat)
    requires n < |batches| && !accepts(batches[n])
    requires forall i :: 0 <= i < n ==> accepts(batches[i])
    ensures Accepted(batches, accepts) == n
  {
    if n > 0 {
      AcceptedAtMost(batches[1..], accepts, n - 1);
    }
  }
}
