/** Small helpers that several modules share. */
module Basics {
  /** The source's `null` and `undefined` values. */
  datatype Option<+T> = None | Some(value: T)

  function Min(a: int, b: int): int { if a <= b then a else b }

  function Max(a: int, b: int): int { if a >= b then a else b }

  function Without<X>(xs: seq<X>, i: nat): seq<X>
    requires i < |xs|
  {
    xs[..i] + xs[i + 1..]
  }

  /** How many of the first `n` indices have the property; see `NumberIsCardinality`. */
  ghost function Number(n: nat, has: int -> bool): nat {
    if n == 0 then 0 else Number(n - 1, has) + if has(n - 1) then 1 else 0
  }

  lemma {:induction false} NumberIsCardinality(n: nat, has: int -> bool)
    ensures Number(n, has) == |set i | 0 <= i < n && has(i)|
  {
    if n > 0 {
      NumberIsCardinality(n - 1, has);
      var before, now := set i | 0 <= i < n - 1 && has(i), set i | 0 <= i < n && has(i);
      assert n - 1 !in before;
      assert now == before + if has(n - 1) then {n - 1} else {};
    }
  }

  /** Counting from index 1 on, and index 0 apart. */
  lemma {:induction false} NumberFromOne(n: nat, has: int -> bool, later: int -> bool)
    requires forall i :: 0 <= i < n ==> later(i) == has(i + 1)
    ensures Number(n + 1, has) == (if has(0) then 1 else 0) + Number(n, later)
  {
    if n > 0 {
      NumberFromOne(n - 1, has, later);
      assert later(n - 1) == has(n - 1 + 1);
    }
  }
}
