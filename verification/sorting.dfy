/** Ordering for the `ORDER BY` and `sort_values` clauses of the dashboard: a generic
    insertion sort over a caller-supplied "may come first" relation, and SQLite's
    BINARY string order. */
module Sorting {

  /** `le` relates every two elements of `xs`, one way or the other. */
  ghost predicate TotalOn<T>(le: (T, T) -> bool, xs: seq<T>)
  {
    forall a, b :: a in xs && b in xs ==> le(a, b) || le(b, a)
  }

  ghost predicate TransitiveOn<T>(le: (T, T) -> bool, xs: seq<T>)
  {
    forall a, b, c :: a in xs && b in xs && c in xs && le(a, b) && le(b, c) ==> le(a, c)
  }

  /** Every element may come before every later one. */
  ghost predicate Sorted<T>(s: seq<T>, le: (T, T) -> bool)
  {
    forall i, j :: 0 <= i < j < |s| ==> le(s[i], s[j])
  }

  predicate Distinct<T(==)>(s: seq<T>)
  {
    forall i, j :: 0 <= i < j < |s| ==> s[i] != s[j]
  }

  /** Puts `x` before the first element it may precede. */
  function Insert<T(==)>(x: T, ys: seq<T>, le: (T, T) -> bool): (r: seq<T>)
    ensures multiset(r) == multiset(ys) + multiset{x}
  {
    if ys == [] || le(x, ys[0]) then
      [x] + ys
    else
      assert ys == [ys[0]] + ys[1..];
      [ys[0]] + Insert(x, ys[1..], le)
  }

  /** Insertion sort: a permutation of `xs`. */
  function SortBy<T(==)>(xs: seq<T>, le: (T, T) -> bool): (r: seq<T>)
    ensures multiset(r) == multiset(xs)
  {
    if xs == [] then
      []
    else
      assert xs == [xs[0]] + xs[1..];
      Insert(xs[0], SortBy(xs[1..], le), le)
  }

  lemma {:induction false} InsertSorted<T>(x: T, ys: seq<T>, le: (T, T) -> bool)
    requires Sorted(ys, le)
    requires TotalOn(le, [x] + ys) && TransitiveOn(le, [x] + ys)
    ensures Sorted(Insert(x, ys, le), le)
  {
    var r := Insert(x, ys, le);
    if ys == [] {
    } else if le(x, ys[0]) {
      forall j | 1 <= j < |r|
        ensures le(x, r[j])
      {
        assert r[j] == ys[j - 1];
        if j > 1 {
          assert le(ys[0], ys[j - 1]);
        }
      }
    } else {
      var rest := Insert(x, ys[1..], le);
      forall z | z in [x] + ys[1..]
        ensures z in [x] + ys
      {
      }
      InsertSorted(x, ys[1..], le);
      assert le(ys[0], x);
      forall k | 0 <= k < |rest|
        ensures le(ys[0], rest[k])
      {
        assert rest[k] in multiset(rest);
        if rest[k] != x {
          assert rest[k] in ys[1..];
          var m :| 0 <= m < |ys[1..]| && ys[1..][m] == rest[k];
          assert ys[m + 1] == rest[k];
        }
      }
      assert r == [ys[0]] + rest;
    }
  }

  /** With a total and transitive relation, the sort puts every element before each later one. */
  lemma {:induction false} SortBySorted<T>(xs: seq<T>, le: (T, T) -> bool)
    requires TotalOn(le, xs) && TransitiveOn(le, xs)
    ensures Sorted(SortBy(xs, le), le)
  {
    if xs != [] {
      var rest := SortBy(xs[1..], le);
      SortBySorted(xs[1..], le);
      forall z | z in [xs[0]] + rest
        ensures z in xs
      {
        assert z in multiset([xs[0]] + rest);
      }
      InsertSorted(xs[0], rest, le);
    }
  }

  lemma {:induction false} InsertDistinct<T>(x: T, ys: seq<T>, le: (T, T) -> bool)
    requires Distinct(ys) && x !in ys
    ensures Distinct(Insert(x, ys, le))
  {
    if ys != [] && !le(x, ys[0]) {
      var rest := Insert(x, ys[1..], le);
      InsertDistinct(x, ys[1..], le);
      assert ys[0] !in ys[1..];
      assert ys[0] !in multiset(rest);
      assert Insert(x, ys, le) == [ys[0]] + rest;
    }
  }

  /** Sorting never makes two positions hold the same element. */
  lemma {:induction false} SortByDistinct<T>(xs: seq<T>, le: (T, T) -> bool)
    requires Distinct(xs)
    ensures Distinct(SortBy(xs, le))
  {
    if xs != [] {
      SortByDistinct(xs[1..], le);
      assert xs[0] !in xs[1..];
      assert xs[0] !in multiset(SortBy(xs[1..], le));
      InsertDistinct(xs[0], SortBy(xs[1..], le), le);
    }
  }

  /** SQLite's BINARY collation on text: code point by code point, a proper prefix first. */
  predicate StrLe(a: string, b: string): (r: bool)
    ensures a <= b ==> r
    ensures b < a ==> !r
  {
    a == [] || (b != [] && (a[0] < b[0] || (a[0] == b[0] && StrLe(a[1..], b[1..]))))
  }

  lemma {:induction false} StrLeTotal(a: string, b: string)
    ensures StrLe(a, b) || StrLe(b, a)
  {
    if a != [] && b != [] && a[0] == b[0] {
      StrLeTotal(a[1..], b[1..]);
    }
  }

  lemma {:induction false} StrLeTransitive(a: string, b: string, c: string)
    requires StrLe(a, b) && StrLe(b, c)
    ensures StrLe(a, c)
  {
    if a != [] && b != [] && c != [] && a[0] == b[0] == c[0] {
      StrLeTransitive(a[1..], b[1..], c[1..]);
    }
  }

  lemma {:induction false} StrLeAntisymmetric(a: string, b: string)
    requires StrLe(a, b) && StrLe(b, a)
    ensures a == b
  {
    if a != [] && b != [] {
      StrLeAntisymmetric(a[1..], b[1..]);
      assert a == [a[0]] + a[1..] && b == [b[0]] + b[1..];
    }
  }
}
