/** Insertion sort under any order, and what a sorted sequence is. */
module Sorting {

  /** Every earlier element stands in the relation to every later one. */
  predicate Chain<T>(s: seq<T>, before: (T, T) -> bool) {
    forall i, j :: 0 <= i < j < |s| ==> before(s[i], s[j])
  }

  ghost predicate Transitive<T(!new)>(before: (T, T) -> bool) {
    forall a, b, c :: before(a, b) && before(b, c) ==> before(a, c)
  }

  /** Any two elements at different places can be put one way round. */
  predicate Connected<T>(s: seq<T>, before: (T, T) -> bool) {
    forall i, j :: 0 <= i < j < |s| ==> before(s[i], s[j]) || before(s[j], s[i])
  }

  function Insert<T>(x: T, s: seq<T>, before: (T, T) -> bool): seq<T> {
    if s == [] || before(x, s[0]) then [x] + s else [s[0]] + Insert(x, s[1..], before)
  }

  function SortBy<T>(s: seq<T>, before: (T, T) -> bool): seq<T> {
    if s == [] then [] else Insert(s[0], SortBy(s[1..], before), before)
  }

  lemma ChainCons<T>(x: T, s: seq<T>, before: (T, T) -> bool)
    requires Chain(s, before) && forall y :: y in s ==> before(x, y)
    ensures Chain([x] + s, before)
  {
    var r := [x] + s;
    forall i, j | 0 <= i < j < |r|
      ensures before(r[i], r[j])
    {
      assert r[j] == s[j - 1] && (i > 0 ==> r[i] == s[i - 1]);
    }
  }

  lemma {:induction false} InsertMembers<T>(x: T, s: seq<T>, before: (T, T) -> bool)
    ensures multiset(Insert(x, s, before)) == multiset{x} + multiset(s)
    ensures forall y :: y in Insert(x, s, before) <==> y == x || y in s
  {
    if s == [] || before(x, s[0]) {
    } else {
      InsertMembers(x, s[1..], before);
      assert s == [s[0]] + s[1..];
    }
  }

  lemma {:induction false} InsertChains<T(!new)>(x: T, s: seq<T>, before: (T, T) -> bool)
    requires Transitive(before) && Chain(s, before) && forall y :: y in s ==> before(x, y) || before(y, x)
    ensures Chain(Insert(x, s, before), before)
  {
    if s == [] {
    } else if before(x, s[0]) {
      forall y | y in s
        ensures before(x, y)
      {
        var j :| 0 <= j < |s| && s[j] == y;
      }
      ChainCons(x, s, before);
    } else {
      assert s[0] in s && before(s[0], x);
      InsertChains(x, s[1..], before);
      InsertMembers(x, s[1..], before);
      forall y | y in Insert(x, s[1..], before)
        ensures before(s[0], y)
      {
        if y in s[1..] {
          var j :| 0 <= j < |s[1..]| && s[1..][j] == y;
          assert s[j + 1] == y;
        }
      }
      ChainCons(s[0], Insert(x, s[1..], before), before);
    }
  }

  /** The result is ordered and has the same elements. */
  lemma {:induction false} SortByOrders<T(!new)>(s: seq<T>, before: (T, T) -> bool)
    requires Transitive(before) && Connected(s, before)
    ensures Chain(SortBy(s, before), before)
    ensures multiset(SortBy(s, before)) == multiset(s)
    ensures forall y :: y in SortBy(s, before) <==> y in s
  {
    if s == [] {
    } else {
      var rest := SortBy(s[1..], before);
      SortByOrders(s[1..], before);
      forall y | y in rest
        ensures before(s[0], y) || before(y, s[0])
      {
        var j :| 0 <= j < |s[1..]| && s[1..][j] == y;
        assert s[j + 1] == y;
      }
      InsertChains(s[0], rest, before);
      InsertMembers(s[0], rest, before);
      assert s == [s[0]] + s[1..];
    }
  }
}
