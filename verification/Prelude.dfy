/** Shared vocabulary: optional values, sequences, and sums over finite maps from indices. */
module Prelude {

  datatype Option<+T> = None | Some(value: T)

  datatype Result<+T, +E> = Ok(value: T) | Err(error: E)

  function Min(a: int, b: int): int {
    if a < b then a else b
  }

  predicate Distinct<T(==)>(s: seq<T>) {
    forall i, j :: 0 <= i < j < |s| ==> s[i] != s[j]
  }

  lemma DistinctSnoc<T>(s: seq<T>, x: T)
    ensures Distinct(s + [x]) <==> Distinct(s) && x !in s
  {
    var r := s + [x];
    assert r[|s|] == x && forall i :: 0 <= i < |s| ==> r[i] == s[i];
    assert x in s ==> exists i :: 0 <= i < |s| && r[i] == r[|s|];
  }

  lemma NonemptyHasMember<T>(s: seq<T>)
    ensures s != [] ==> exists x :: x in s
  {
    if s != [] {
      assert s[0] in s;
    }
  }

  lemma Associative<T>(a: seq<T>, b: seq<T>, c: seq<T>)
    ensures (a + b) + c == a + (b + c)
  {
  }

  function Lookup<K, V>(m: map<K, V>, k: K): Option<V> {
    if k in m then Some(m[k]) else None
  }

  /** The total weight of the entries of m at indices below n. */
  function SumOver<V>(m: map<nat, V>, weight: V -> nat, n: nat): nat {
    if n == 0 then 0
    else SumOver(m, weight, n - 1) + if n - 1 in m then weight(m[n - 1]) else 0
  }

  lemma {:induction false} SumOverAdd<V>(m: map<nat, V>, i: nat, v: V, weight: V -> nat, n: nat)
    requires i !in m
    ensures SumOver(m[i := v], weight, n) == SumOver(m, weight, n) + if i < n then weight(v) else 0
  {
    if n == 0 {
    } else {
      SumOverAdd(m, i, v, weight, n - 1);
    }
  }

  /** Three weights that split 1 between them split the number of indices between them. */
  lemma {:induction false} SumOverPartition<V>(m: map<nat, V>, w1: V -> nat, w2: V -> nat, w3: V -> nat, n: nat)
    requires forall i :: 0 <= i < n ==> i in m && w1(m[i]) + w2(m[i]) + w3(m[i]) == 1
    ensures SumOver(m, w1, n) + SumOver(m, w2, n) + SumOver(m, w3, n) == n
  {
    if n == 0 {
    } else {
      SumOverPartition(m, w1, w2, w3, n - 1);
    }
  }

  /** A sum is zero exactly when every entry weighs nothing. */
  lemma {:induction false} SumOverZero<V>(m: map<nat, V>, weight: V -> nat, n: nat)
    ensures SumOver(m, weight, n) == 0 <==> forall i :: 0 <= i < n && i in m ==> weight(m[i]) == 0
  {
    if n == 0 {
    } else {
      SumOverZero(m, weight, n - 1);
    }
  }
}
