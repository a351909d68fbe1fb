/** Strings as the scripts use them: sorting, joining lines, decimal numerals, unique splitting. */
module Strings {
  import opened Sorting

  // ----- order and sorting

  /** The order of Array.prototype.sort on strings. */
  predicate LexLe(a: string, b: string) {
    a == [] || (b != [] && (a[0] < b[0] || (a[0] == b[0] && LexLe(a[1..], b[1..]))))
  }

  lemma {:induction false} LexTotal(a: string, b: string)
    ensures LexLe(a, b) || LexLe(b, a)
    ensures LexLe(a, b) && LexLe(b, a) ==> a == b
  {
    if a != [] && b != [] && a[0] == b[0] {
      LexTotal(a[1..], b[1..]);
      assert a == [a[0]] + a[1..] && b == [b[0]] + b[1..];
    }
  }

  lemma {:induction false} LexTransitive(a: string, b: string, c: string)
    requires LexLe(a, b) && LexLe(b, c)
    ensures LexLe(a, c)
  {
    if a != [] && a[0] == b[0] && b[0] == c[0] {
      LexTransitive(a[1..], b[1..], c[1..]);
    }
  }

  /** The first place where two strings differ decides, and a string comes before its extensions. */
  predicate DiffersAt(a: string, b: string, k: nat) {
    k < |a| && k < |b| && a[..k] == b[..k] && a[k] < b[k]
  }

  lemma {:induction false} LexIff(a: string, b: string)
    ensures LexLe(a, b) <==> a <= b || exists k: nat :: DiffersAt(a, b, k)
  {
    if a == "" {
    } else if b == "" {
    } else if a[0] != b[0] {
      assert a[0] < b[0] ==> DiffersAt(a, b, 0);
      assert forall k: nat :: DiffersAt(a, b, k) ==> k == 0 || a[..k][0] == b[..k][0];
    } else {
      LexIff(a[1..], b[1..]);
      assert a == [a[0]] + a[1..] && b == [b[0]] + b[1..];
      LexShift(a, b);
    }
  }

  lemma LexShift(a: string, b: string)
    requires a != "" && b != "" && a[0] == b[0]
    ensures (exists k: nat :: DiffersAt(a, b, k)) <==> exists k: nat :: DiffersAt(a[1..], b[1..], k)
  {
    if k: nat :| DiffersAt(a, b, k) {
      assert a[1..][..k - 1] == a[..k][1..] && b[1..][..k - 1] == b[..k][1..];
      assert DiffersAt(a[1..], b[1..], k - 1);
    }
    if k: nat :| DiffersAt(a[1..], b[1..], k) {
      assert a[..k + 1] == [a[0]] + a[1..][..k] && b[..k + 1] == [b[0]] + b[1..][..k];
      assert DiffersAt(a, b, k + 1);
    }
  }

  predicate Sorted(s: seq<string>) {
    Chain(s, LexLe)
  }

  /** files.sort() */
  function Sort(s: seq<string>): seq<string> {
    SortBy(s, LexLe)
  }

  lemma {:induction false} LexReflexive(a: string)
    ensures LexLe(a, a)
  {
    if a != [] {
      LexReflexive(a[1..]);
    }
  }

  lemma SortSorts(s: seq<string>)
    ensures Sorted(Sort(s)) && multiset(Sort(s)) == multiset(s)
    ensures forall x :: x in Sort(s) <==> x in s
  {
    forall a: string, b: string, c: string | LexLe(a, b) && LexLe(b, c)
      ensures LexLe(a, c)
    {
      LexTransitive(a, b, c);
    }
    forall i, j | 0 <= i < j < |s|
      ensures LexLe(s[i], s[j]) || LexLe(s[j], s[i])
    {
      LexTotal(s[i], s[j]);
    }
    SortByOrders(s, LexLe);
  }

  lemma SortedHead(s: seq<string>, x: string)
    requires Sorted(s) && x in s
    ensures LexLe(s[0], x)
  {
    var i :| 0 <= i < |s| && s[i] == x;
    LexReflexive(x);
  }

  lemma SameHead(s: seq<string>, t: seq<string>)
    requires Sorted(s) && Sorted(t) && s != [] && multiset(s) == multiset(t)
    ensures t != [] && s[0] == t[0]
  {
    assert s[0] in multiset(t);
    assert t[0] in multiset(s);
    SortedHead(s, t[0]);
    SortedHead(t, s[0]);
    LexTotal(s[0], t[0]);
  }

  /** There is only one way to sort. */
  lemma {:induction false} SortedUnique(s: seq<string>, t: seq<string>)
    requires Sorted(s) && Sorted(t) && multiset(s) == multiset(t)
    ensures s == t
  {
    if s == [] {
      assert |multiset(t)| == |t|;
    } else {
      SameHead(s, t);
      assert s == [s[0]] + s[1..] && t == [t[0]] + t[1..];
      assert multiset(s[1..]) == multiset(s) - multiset{s[0]};
      assert multiset(t[1..]) == multiset(t) - multiset{t[0]};
      SortedUnique(s[1..], t[1..]);
    }
  }

  /** Sorting leaves a sorted list alone. */
  lemma SortOfSorted(s: seq<string>)
    requires Sorted(s)
    ensures Sort(s) == s
  {
    SortSorts(s);
    SortedUnique(Sort(s), s);
  }

  lemma SortIgnoresOrder(s: seq<string>, t: seq<string>)
    requires multiset(s) == multiset(t)
    ensures Sort(s) == Sort(t)
  {
    SortSorts(s);
    SortSorts(t);
    SortedUnique(Sort(s), Sort(t));
  }

  // ----- splitting at a separator

  /** Text without the separator can only be cut off at its first occurrence. */
  lemma SplitFirst(u: string, v: string, u': string, v': string, sep: char)
    requires sep !in u && sep !in u' && u + [sep] + v == u' + [sep] + v'
    ensures u == u' && v == v'
  {
    var w, w' := u + [sep] + v, u' + [sep] + v';
    assert w[|u|] == sep && w'[|u'|] == sep;
    assert forall i :: 0 <= i < |u| ==> w[i] == u[i];
    assert forall i :: 0 <= i < |u'| ==> w'[i] == u'[i];
    assert |u| == |u'|;
    assert u == w[..|u|] && u' == w'[..|u'|] && v == w[|u| + 1..] && v' == w'[|u'| + 1..];
  }

  /** And at its last occurrence when what follows is free of it. */
  lemma SplitLast(u: string, v: string, u': string, v': string, sep: char)
    requires sep !in v && sep !in v' && u + [sep] + v == u' + [sep] + v'
    ensures u == u' && v == v'
  {
    var w, w' := u + [sep] + v, u' + [sep] + v';
    assert w[|u|] == sep && w'[|u'|] == sep;
    assert forall i :: |u| < i < |w| ==> w[i] == v[i - |u| - 1];
    assert forall i :: |u'| < i < |w'| ==> w'[i] == v'[i - |u'| - 1];
    assert |u| == |u'|;
    assert u == w[..|u|] && u' == w'[..|u'|] && v == w[|u| + 1..] && v' == w'[|u'| + 1..];
  }

  // ----- splitting at every separator

  /** s.split(sep) for a class of separators. */
  function SplitBy(s: string, sep: char -> bool): (parts: seq<string>)
    ensures parts != []
  {
    if s == "" then [""]
    else
      var rest := SplitBy(s[1..], sep);
      if sep(s[0]) then [""] + rest else [[s[0]] + rest[0]] + rest[1..]
  }

  predicate IsSlash(c: char) {
    c == '/'
  }

  function PathSegments(path: string): (parts: seq<string>)
    ensures parts != []
  {
    SplitBy(path, IsSlash)
  }

  // ----- lines

  /** parts.join('\n') */
  function JoinLines(parts: seq<string>): string {
    if parts == [] then "" else if |parts| == 1 then parts[0] else parts[0] + "\n" + JoinLines(parts[1..])
  }

  predicate OneLine(s: string) {
    '\n' !in s
  }

  /** Joining nonempty lines leaves visible whether there was none, one, or more. */
  lemma JoinShape(a: seq<string>)
    requires forall x :: x in a ==> OneLine(x) && x != ""
    ensures JoinLines(a) == "" <==> a == []
    ensures OneLine(JoinLines(a)) <==> |a| <= 1
  {
    if a != [] {
      assert a[0] in a;
      if |a| > 1 {
        assert (a[0] + "\n" + JoinLines(a[1..]))[|a[0]|] == '\n';
      }
    }
  }

  lemma {:induction false} JoinInjective(a: seq<string>, b: seq<string>)
    requires forall x :: x in a ==> OneLine(x) && x != ""
    requires forall x :: x in b ==> OneLine(x) && x != ""
    requires JoinLines(a) == JoinLines(b)
    ensures a == b
  {
    JoinShape(a);
    JoinShape(b);
    if |a| > 1 {
      assert a[0] in a && b[0] in b;
      SplitFirst(a[0], JoinLines(a[1..]), b[0], JoinLines(b[1..]), '\n');
      JoinInjective(a[1..], b[1..]);
      assert a == [a[0]] + a[1..] && b == [b[0]] + b[1..];
    }
  }

  // ----- decimal numerals

  predicate IsDigit(c: char) {
    '0' <= c <= '9'
  }

  predicate AllDigits(s: string) {
    forall i :: 0 <= i < |s| ==> IsDigit(s[i])
  }

  function DigitChar(d: nat): (c: char)
    requires d < 10
    ensures IsDigit(c) && DigitValue(c) == d
  {
    '0' + d as char
  }

  function DigitValue(c: char): nat
    requires IsDigit(c)
  {
    c as nat - '0' as nat
  }

  /** How a natural number prints. */
  function Digits(n: nat): string {
    if n < 10 then [DigitChar(n)] else Digits(n / 10) + [DigitChar(n % 10)]
  }

  /** Number(s) for a string of digits. */
  function Value(s: string): nat
    requires AllDigits(s)
  {
    if s == [] then 0 else Value(s[..|s| - 1]) * 10 + DigitValue(s[|s| - 1])
  }

  lemma {:induction false} DigitsValue(n: nat)
    ensures Digits(n) != "" && AllDigits(Digits(n)) && Value(Digits(n)) == n
  {
    if n < 10 {
      assert Digits(n)[..0] == [];
    } else {
      DigitsValue(n / 10);
      assert Digits(n)[..|Digits(n)| - 1] == Digits(n / 10);
    }
  }

  /** A number prints without leading zeros. */
  lemma {:induction false} NoLeadingZero(n: nat)
    ensures |Digits(n)| >= 1 && (Digits(n)[0] == '0' <==> n == 0)
  {
    if n >= 10 {
      NoLeadingZero(n / 10);
    }
  }

  lemma DigitsInjective(m: nat, n: nat)
    requires Digits(m) == Digits(n)
    ensures m == n
  {
    DigitsValue(m);
    DigitsValue(n);
  }
}
