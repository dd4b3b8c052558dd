/** `GROUP BY` over the canonical table with exact means: a group keeps COUNT(*) and
    SUM(salary), means are compared by cross-multiplication, and SQLite's
    `ROUND(AVG(salary), 0)` is rounding half away from zero of the exact quotient. */
module Grouping {
  import opened Sorting
  import opened CleanAndLoad

  /** One group: its key, COUNT(*) and SUM(salary); the mean salary is `total / count`. */
  datatype Group<K> = Group(key: K, count: nat, total: int)

  /** Number of rows whose key is `k`. */
  function CountOf<K(==)>(rows: seq<CanonRow>, key: CanonRow -> K, k: K): nat
  {
    if rows == [] then 0 else (if key(rows[0]) == k then 1 else 0) + CountOf(rows[1..], key, k)
  }

  /** Sum of the salaries of the rows whose key is `k`. */
  function SumOf<K(==)>(rows: seq<CanonRow>, key: CanonRow -> K, k: K): int
  {
    if rows == [] then 0 else (if key(rows[0]) == k then rows[0].salary else 0) + SumOf(rows[1..], key, k)
  }

  /** The key values that occur in the table. */
  function KeysIn<K>(rows: seq<CanonRow>, key: CanonRow -> K): set<K>
  {
    set r | r in rows :: key(r)
  }

  function KeysOf<K>(gs: seq<Group<K>>): set<K>
  {
    set g | g in gs :: g.key
  }

  lemma {:induction false} CountPositive<K>(rows: seq<CanonRow>, key: CanonRow -> K, k: K)
    ensures CountOf(rows, key, k) > 0 <==> k in KeysIn(rows, key)
  {
    if rows != [] {
      CountPositive(rows[1..], key, k);
      assert KeysIn(rows, key) == {key(rows[0])} + KeysIn(rows[1..], key) by {
        assert forall r :: r in rows <==> r == rows[0] || r in rows[1..];
      }
    }
  }

  /** Each key of the table once. */
  function DistinctKeys<K(==)>(rows: seq<CanonRow>, key: CanonRow -> K): (ks: seq<K>)
    ensures Distinct(ks)
    ensures (set k | k in ks) == KeysIn(rows, key)
  {
    if rows == [] then
      []
    else
      var rest := DistinctKeys(rows[1..], key);
      var k := key(rows[0]);
      assert KeysIn(rows, key) == {k} + KeysIn(rows[1..], key) by {
        assert forall r :: r in rows <==> r == rows[0] || r in rows[1..];
      }
      if k in rest then rest else [k] + rest
  }

  /** Every group of `gs` is a group of `rows` by `key` (its count and salary sum are
      those of the rows with its key, and it has rows), and no key is there twice. */
  ghost predicate GroupsOf<K>(gs: seq<Group<K>>, rows: seq<CanonRow>, key: CanonRow -> K)
  {
    && (forall i :: 0 <= i < |gs| ==>
          && gs[i].count == CountOf(rows, key, gs[i].key)
          && gs[i].count > 0
          && gs[i].total == SumOf(rows, key, gs[i].key))
    && (forall i, j :: 0 <= i < j < |gs| ==> gs[i].key != gs[j].key)
  }

  /** `gs` is the result of grouping `rows` by `key`: the groups of every key that occurs. */
  ghost predicate IsGrouping<K>(gs: seq<Group<K>>, rows: seq<CanonRow>, key: CanonRow -> K)
  {
    GroupsOf(gs, rows, key) && KeysOf(gs) == KeysIn(rows, key)
  }

  /** `GROUP BY key` with COUNT(*) and SUM(salary), groups in no promised order. */
  function GroupBy<K(==)>(rows: seq<CanonRow>, key: CanonRow -> K): (gs: seq<Group<K>>)
    ensures IsGrouping(gs, rows, key)
  {
    var ks := DistinctKeys(rows, key);
    var gs := seq(|ks|, i requires 0 <= i < |ks| => Group(ks[i], CountOf(rows, key, ks[i]), SumOf(rows, key, ks[i])));
    assert forall i :: 0 <= i < |gs| ==> gs[i].key == ks[i];
    assert KeysOf(gs) == (set k | k in ks) by {
      forall k | k in ks
        ensures k in KeysOf(gs)
      {
        var i :| 0 <= i < |ks| && ks[i] == k;
        assert gs[i] in gs;
      }
    }
    assert forall i :: 0 <= i < |gs| ==> gs[i].count > 0 by {
      forall i | 0 <= i < |gs|
        ensures gs[i].count > 0
      {
        CountPositive(rows, key, ks[i]);
      }
    }
    gs
  }

  /** Distinct keys: the number of groups is the number of keys. */
  lemma {:induction false} KeyCount<K>(gs: seq<Group<K>>)
    requires forall i, j :: 0 <= i < j < |gs| ==> gs[i].key != gs[j].key
    ensures |KeysOf(gs)| == |gs|
  {
    if gs != [] {
      KeyCount(gs[1..]);
      assert KeysOf(gs) == {gs[0].key} + KeysOf(gs[1..]) by {
        assert forall g :: g in gs ==> g == gs[0] || g in gs[1..];
      }
      assert gs[0].key !in KeysOf(gs[1..]) by {
        forall g | g in gs[1..]
          ensures g.key != gs[0].key
        {
          var i :| 0 <= i < |gs[1..]| && gs[1..][i] == g;
          assert gs[i + 1] == g;
        }
      }
    }
  }

  lemma SubsetSize<T>(a: set<T>, b: set<T>)
    requires a <= b
    ensures |a| <= |b|
  {
    assert b == a + (b - a);
  }

  /** A grouping has one group per distinct key value of the table. */
  lemma GroupingSize<K>(gs: seq<Group<K>>, rows: seq<CanonRow>, key: CanonRow -> K)
    requires IsGrouping(gs, rows, key)
    ensures |gs| == |KeysIn(rows, key)|
  {
    KeyCount(gs);
  }

  /** Distinct keys make distinct groups. */
  lemma GroupingDistinct<K>(gs: seq<Group<K>>, rows: seq<CanonRow>, key: CanonRow -> K)
    requires IsGrouping(gs, rows, key)
    ensures Distinct(gs)
  {
  }

  /** Any selection of groups, without repeated elements and in any order, keeps the
      groups' properties. */
  lemma GroupsOfSubset<K>(xs: seq<Group<K>>, r: seq<Group<K>>, rows: seq<CanonRow>, key: CanonRow -> K)
    requires GroupsOf(xs, rows, key)
    requires forall g :: g in r ==> g in xs
    requires Distinct(r)
    ensures GroupsOf(r, rows, key)
  {
    forall i | 0 <= i < |r|
      ensures r[i].count == CountOf(rows, key, r[i].key) && r[i].count > 0 && r[i].total == SumOf(rows, key, r[i].key)
    {
      assert r[i] in r;
      var p :| 0 <= p < |xs| && xs[p] == r[i];
    }
    forall i, j | 0 <= i < j < |r|
      ensures r[i].key != r[j].key
    {
      assert r[i] in r && r[j] in r;
      var p :| 0 <= p < |xs| && xs[p] == r[i];
      var q :| 0 <= q < |xs| && xs[q] == r[j];
      assert r[i] != r[j];
      assert p != q;
    }
  }

  /** Any reordering of a grouping without repeated elements is a grouping again. */
  lemma GroupingPermuted<K>(xs: seq<Group<K>>, r: seq<Group<K>>, rows: seq<CanonRow>, key: CanonRow -> K)
    requires IsGrouping(xs, rows, key)
    requires multiset(r) == multiset(xs)
    requires Distinct(r)
    ensures IsGrouping(r, rows, key)
  {
    assert forall g :: g in r <==> g in xs by {
      forall g
        ensures g in r <==> g in xs
      {
        assert g in r <==> g in multiset(r);
        assert g in xs <==> g in multiset(xs);
      }
    }
    assert KeysOf(r) == KeysOf(xs);
    GroupsOfSubset(xs, r, rows, key);
  }

  /** The sum of `f` over a sequence. */
  function SumBy<T>(s: seq<T>, f: T -> int): int
  {
    if s == [] then 0 else f(s[0]) + SumBy(s[1..], f)
  }

  function GroupCount<K>(g: Group<K>): int
  {
    g.count
  }

  /** Sum of the counts of the given keys. */
  function CountSum<K(==)>(rows: seq<CanonRow>, key: CanonRow -> K, ks: seq<K>): int
  {
    if ks == [] then 0 else CountOf(rows, key, ks[0]) + CountSum(rows, key, ks[1..])
  }

  /** How many times `x` occurs in `ks`. */
  function Occurrences<K(==)>(ks: seq<K>, x: K): nat
  {
    if ks == [] then 0 else (if ks[0] == x then 1 else 0) + Occurrences(ks[1..], x)
  }

  lemma {:induction false} OccursOnce<K>(ks: seq<K>, x: K)
    requires Distinct(ks) && x in ks
    ensures Occurrences(ks, x) == 1
  {
    if ks[0] != x {
      OccursOnce(ks[1..], x);
    } else {
      OccursNever(ks[1..], x);
    }
  }

  lemma {:induction false} OccursNever<K>(ks: seq<K>, x: K)
    requires x !in ks
    ensures Occurrences(ks, x) == 0
  {
    if ks != [] {
      OccursNever(ks[1..], x);
    }
  }

  lemma {:induction false} CountSumCons<K>(h: CanonRow, t: seq<CanonRow>, key: CanonRow -> K, ks: seq<K>)
    ensures CountSum([h] + t, key, ks) == CountSum(t, key, ks) + Occurrences(ks, key(h))
  {
    assert ([h] + t)[1..] == t;
    if ks != [] {
      CountSumCons(h, t, key, ks[1..]);
    }
  }

  lemma {:induction false} CountSumEmpty<K>(key: CanonRow -> K, ks: seq<K>)
    ensures CountSum([], key, ks) == 0
  {
    if ks != [] {
      CountSumEmpty(key, ks[1..]);
    }
  }

  /** Every row lands in exactly one of any list of distinct keys covering the table. */
  lemma {:induction false} CountSumCovers<K>(rows: seq<CanonRow>, key: CanonRow -> K, ks: seq<K>)
    requires Distinct(ks)
    requires forall r :: r in rows ==> key(r) in ks
    ensures CountSum(rows, key, ks) == |rows|
  {
    if rows == [] {
      CountSumEmpty(key, ks);
    } else {
      var h, t := rows[0], rows[1..];
      assert rows == [h] + t;
      CountSumCovers(t, key, ks);
      CountSumCons(h, t, key, ks);
      OccursOnce(ks, key(h));
    }
  }

  function GroupKeys<K>(gs: seq<Group<K>>): (ks: seq<K>)
    ensures |ks| == |gs| && forall i :: 0 <= i < |gs| ==> ks[i] == gs[i].key
  {
    seq(|gs|, i requires 0 <= i < |gs| => gs[i].key)
  }

  lemma {:induction false} GroupCountsAreCountSum<K>(gs: seq<Group<K>>, rows: seq<CanonRow>, key: CanonRow -> K)
    requires forall i :: 0 <= i < |gs| ==> gs[i].count == CountOf(rows, key, gs[i].key)
    ensures SumBy(gs, GroupCount) == CountSum(rows, key, GroupKeys(gs))
  {
    if gs != [] {
      GroupCountsAreCountSum(gs[1..], rows, key);
      assert GroupKeys(gs)[1..] == GroupKeys(gs[1..]);
    }
  }

  /** The group counts of any grouping add up to the number of rows. */
  lemma GroupCountsSum<K>(gs: seq<Group<K>>, rows: seq<CanonRow>, key: CanonRow -> K)
    requires IsGrouping(gs, rows, key)
    ensures SumBy(gs, GroupCount) == |rows|
  {
    var ks := GroupKeys(gs);
    GroupCountsAreCountSum(gs, rows, key);
    forall r | r in rows
      ensures key(r) in ks
    {
      assert key(r) in KeysIn(rows, key);
      assert key(r) in KeysOf(gs);
      var g :| g in gs && g.key == key(r);
      var i :| 0 <= i < |gs| && gs[i] == g;
      assert ks[i] == key(r);
    }
    CountSumCovers(rows, key, ks);
  }

  /** The exact mean of `a` is at least that of `b` (both counts positive). */
  predicate MeanAtLeast<K>(a: Group<K>, b: Group<K>)
  {
    a.total * b.count >= b.total * a.count
  }

  lemma MulMonotone(x: int, y: int, z: int)
    requires x >= y && z >= 0
    ensures x * z >= y * z
  {
  }

  lemma MeanAtLeastTransitive<K>(a: Group<K>, b: Group<K>, c: Group<K>)
    requires a.count > 0 && b.count > 0 && c.count > 0
    requires MeanAtLeast(a, b) && MeanAtLeast(b, c)
    ensures MeanAtLeast(a, c)
  {
    MulMonotone(a.total * b.count, b.total * a.count, c.count);
    MulMonotone(b.total * c.count, c.total * b.count, a.count);
    assert a.total * b.count * c.count >= b.total * a.count * c.count;
    assert b.total * c.count * a.count >= c.total * b.count * a.count;
    assert b.count * (a.total * c.count) >= b.count * (c.total * a.count);
    if a.total * c.count < c.total * a.count {
      MulMonotone(c.total * a.count, a.total * c.count + 1, b.count);
      assert false;
    }
  }

  /** Comparing exact means is a total preorder on groups with rows in them. */
  lemma MeanOrderIsTotalPreorder<K>(gs: seq<Group<K>>)
    requires forall i :: 0 <= i < |gs| ==> gs[i].count > 0
    ensures TotalOn(MeanAtLeast, gs) && TransitiveOn(MeanAtLeast, gs)
  {
    forall a, b, c | a in gs && b in gs && c in gs && MeanAtLeast(a, b) && MeanAtLeast(b, c)
      ensures MeanAtLeast(a, c)
    {
      MeanAtLeastTransitive(a, b, c);
    }
  }

  /** SQLite's `ROUND(AVG(salary), 0)` on exact arithmetic: the integer nearest to
      `total / count`, a half rounded away from zero. */
  function RoundHalfAway(total: int, count: nat): (r: int)
    requires count > 0
    ensures total >= 0 ==> r >= 0 && count * (2 * r - 1) <= 2 * total < count * (2 * r + 1)
    ensures total < 0 ==> r <= 0 && count * (2 * r - 1) < 2 * total <= count * (2 * r + 1)
  {
    if total >= 0 then
      HalfUpBounds(total, count);
      (2 * total + count) / (2 * count)
    else
      HalfUpBounds(-total, count);
      -((-2 * total + count) / (2 * count))
  }

  /** `(2t + c) div 2c` is `t / c` rounded half up, for a non-negative `t`. */
  lemma HalfUpBounds(t: nat, c: nat)
    requires c > 0
    ensures var q := (2 * t + c) / (2 * c);
            q >= 0 && c * (2 * q - 1) <= 2 * t < c * (2 * q + 1)
  {
    var q := (2 * t + c) / (2 * c);
    DivBounds(2 * t + c, 2 * c);
    assert q * (2 * c) == c * (2 * q);
    assert (q + 1) * (2 * c) == c * (2 * q + 2);
  }

  /** Halves go away from zero, and an exact mean is returned as it is. */
  lemma RoundingExamples()
    ensures RoundHalfAway(450000, 3) == 150000
    ensures RoundHalfAway(3, 2) == 2
    ensures RoundHalfAway(-3, 2) == -2
    ensures RoundHalfAway(4, 3) == 1
  {
  }

  /** The rounded mean of a group; 0 for a group without rows, which groupings never hold. */
  function Avg<K>(g: Group<K>): (r: int)
    ensures g.count > 0 ==> -(g.count as int) <= 2 * (g.count * r) - 2 * g.total <= g.count
  {
    if g.count == 0 then 0 else RoundHalfAway(g.total, g.count)
  }

  /** One output row of `SELECT key, COUNT(*), ROUND(AVG(salary), 0) ... GROUP BY key`. */
  datatype AvgRow<K> = AvgRow(key: K, jobCount: nat, avgSalary: int)

  function AvgRowCount<K>(a: AvgRow<K>): int
  {
    a.jobCount
  }

  /** The SELECT list applied to each group in turn. */
  function Averages<K>(gs: seq<Group<K>>): (rs: seq<AvgRow<K>>)
    ensures |rs| == |gs|
    ensures forall i :: 0 <= i < |gs| ==>
              rs[i].key == gs[i].key && rs[i].jobCount == gs[i].count && rs[i].avgSalary == Avg(gs[i])
  {
    seq(|gs|, i requires 0 <= i < |gs| => AvgRow(gs[i].key, gs[i].count, Avg(gs[i])))
  }

  lemma {:induction false} AveragesKeepCounts<K>(gs: seq<Group<K>>)
    ensures SumBy(Averages(gs), AvgRowCount) == SumBy(gs, GroupCount)
  {
    if gs != [] {
      AveragesKeepCounts(gs[1..]);
      assert Averages(gs)[1..] == Averages(gs[1..]);
    }
  }

  /** `rs` holds, for some of the keys of the table, each once, the count and the rounded
      mean salary of that key's rows. */
  ghost predicate AvgRowsOf<K>(rs: seq<AvgRow<K>>, rows: seq<CanonRow>, key: CanonRow -> K)
  {
    && (forall i :: 0 <= i < |rs| ==>
          && rs[i].jobCount == CountOf(rows, key, rs[i].key)
          && rs[i].jobCount > 0
          && rs[i].avgSalary == RoundHalfAway(SumOf(rows, key, rs[i].key), rs[i].jobCount))
    && (forall i, j :: 0 <= i < j < |rs| ==> rs[i].key != rs[j].key)
  }

  function AvgKeys<K>(rs: seq<AvgRow<K>>): set<K>
  {
    set a | a in rs :: a.key
  }

  /** Turning groups into output rows keeps what the groups say about the table. */
  lemma AveragesOfGroups<K>(gs: seq<Group<K>>, rows: seq<CanonRow>, key: CanonRow -> K)
    requires GroupsOf(gs, rows, key)
    ensures AvgRowsOf(Averages(gs), rows, key)
    ensures AvgKeys(Averages(gs)) == KeysOf(gs)
    ensures IsGrouping(gs, rows, key) ==> SumBy(Averages(gs), AvgRowCount) == |rows|
  {
    var rs := Averages(gs);
    assert AvgKeys(rs) == KeysOf(gs) by {
      forall k
        ensures k in AvgKeys(rs) <==> k in KeysOf(gs)
      {
        if k in AvgKeys(rs) {
          var a :| a in rs && a.key == k;
          var i :| 0 <= i < |rs| && rs[i] == a;
          assert gs[i] in gs;
        }
        if k in KeysOf(gs) {
          var g :| g in gs && g.key == k;
          var i :| 0 <= i < |gs| && gs[i] == g;
          assert rs[i] in rs;
        }
      }
    }
    AveragesKeepCounts(gs);
    if IsGrouping(gs, rows, key) {
      GroupCountsSum(gs, rows, key);
    }
  }
}
