/** The aggregate views of the dashboard. The sidebar filter and the three pandas
    group-bys see only the selected rows; the six SQL queries read the whole `jobs`
    table and ignore the selection. */
module Dashboard {
  import opened Sorting
  import opened CleanAndLoad
  import opened Grouping

  /** The sidebar choice: the selected years and experience levels. */
  datatype Selection = Selection(years: set<int>, levels: set<string>)

  predicate Selected(row: CanonRow, sel: Selection)
  {
    row.year in sel.years && row.experienceLevel in sel.levels
  }

  /** `a` is `b` with some elements left out, the rest in their original order. */
  ghost predicate SubsequenceOf<T>(a: seq<T>, b: seq<T>)
    decreases |b|
  {
    if a == [] then true
    else if b == [] then false
    else (a[0] == b[0] && SubsequenceOf(a[1..], b[1..])) || SubsequenceOf(a, b[1..])
  }

  /** `filtered_df`: the rows whose year and level are both selected, in table order. */
  function Filter(rows: seq<CanonRow>, sel: Selection): (r: seq<CanonRow>)
    ensures forall x :: x in r <==> x in rows && Selected(x, sel)
    ensures SubsequenceOf(r, rows)
  {
    if rows == [] then
      []
    else
      var rest := Filter(rows[1..], sel);
      assert forall x :: x in rows <==> x == rows[0] || x in rows[1..];
      if Selected(rows[0], sel) then [rows[0]] + rest else rest
  }

  lemma {:induction false} FilterAppend(a: seq<CanonRow>, b: seq<CanonRow>, sel: Selection)
    ensures Filter(a + b, sel) == Filter(a, sel) + Filter(b, sel)
  {
    if a != [] {
      assert (a + b)[1..] == a[1..] + b;
      FilterAppend(a[1..], b, sel);
    } else {
      assert a + b == b;
    }
  }

  lemma {:induction false} FilterKeepsAll(rows: seq<CanonRow>, sel: Selection)
    requires forall x :: x in rows ==> Selected(x, sel)
    ensures Filter(rows, sel) == rows
  {
    if rows != [] {
      assert forall x :: x in rows[1..] ==> x in rows;
      FilterKeepsAll(rows[1..], sel);
    }
  }

  /** The sidebar defaults: every year and every level present in the table. */
  function DefaultSelection(rows: seq<CanonRow>): (sel: Selection)
    ensures forall x :: x in rows ==> Selected(x, sel)
    ensures forall y :: y in sel.years ==> exists x :: x in rows && x.year == y
    ensures forall l :: l in sel.levels ==> exists x :: x in rows && x.experienceLevel == l
  {
    Selection(set r | r in rows :: r.year, set r | r in rows :: r.experienceLevel)
  }

  /** With the default selection the filter keeps the whole table. */
  lemma FilterDefaultIsIdentity(rows: seq<CanonRow>)
    ensures Filter(rows, DefaultSelection(rows)) == rows
  {
    FilterKeepsAll(rows, DefaultSelection(rows));
  }

  /** Number of selected rows whose key is `k`, and the sum of their salaries. */
  function CountSelected<K(==)>(rows: seq<CanonRow>, sel: Selection, key: CanonRow -> K, k: K): nat
  {
    if rows == [] then 0
    else (if Selected(rows[0], sel) && key(rows[0]) == k then 1 else 0) + CountSelected(rows[1..], sel, key, k)
  }

  function SumSelected<K(==)>(rows: seq<CanonRow>, sel: Selection, key: CanonRow -> K, k: K): int
  {
    if rows == [] then 0
    else (if Selected(rows[0], sel) && key(rows[0]) == k then rows[0].salary else 0) + SumSelected(rows[1..], sel, key, k)
  }

  /** Grouping the filtered rows counts and sums exactly the selected rows of each key. */
  lemma {:induction false} FilterThenAggregate<K>(rows: seq<CanonRow>, sel: Selection, key: CanonRow -> K, k: K)
    ensures CountOf(Filter(rows, sel), key, k) == CountSelected(rows, sel, key, k)
    ensures SumOf(Filter(rows, sel), key, k) == SumSelected(rows, sel, key, k)
  {
    if rows != [] {
      FilterThenAggregate(rows[1..], sel, key, k);
      var rest := Filter(rows[1..], sel);
      if Selected(rows[0], sel) {
        assert ([rows[0]] + rest)[1..] == rest;
      }
    }
  }

  function YearKey(r: CanonRow): int { r.year }

  function LevelKey(r: CanonRow): string { r.experienceLevel }

  function SizeKey(r: CanonRow): string { r.companySize }

  function LocationKey(r: CanonRow): string { r.companyLocation }

  /** A group with the smaller year may come first. */
  predicate YearFirst(a: Group<int>, b: Group<int>)
  {
    a.key <= b.key
  }

  /** `salary_trend`: mean salary per year, years ascending. */
  function SalaryTrend(rows: seq<CanonRow>): (r: seq<Group<int>>)
    ensures IsGrouping(r, rows, YearKey)
    ensures forall i, j :: 0 <= i < j < |r| ==> r[i].key < r[j].key
  {
    var gs := GroupBy(rows, YearKey);
    var r := SortBy(gs, YearFirst);
    SortBySorted(gs, YearFirst);
    GroupingDistinct(gs, rows, YearKey);
    SortByDistinct(gs, YearFirst);
    GroupingPermuted(gs, r, rows, YearKey);
    assert forall i, j :: 0 <= i < j < |r| ==> YearFirst(r[i], r[j]);
    r
  }

  /** Salaries 100000, 150000 and 200000, all in 2023, give one point: 2023 with mean 150000. */
  lemma SalaryTrendExample(rows: seq<CanonRow>)
    requires |rows| == 3 && forall x :: x in rows ==> x.year == 2023
    requires rows[0].salary == 100000 && rows[1].salary == 150000 && rows[2].salary == 200000
    ensures |SalaryTrend(rows)| == 1
    ensures SalaryTrend(rows)[0].key == 2023
    ensures SalaryTrend(rows)[0].total == 150000 * SalaryTrend(rows)[0].count
  {
    var r := SalaryTrend(rows);
    assert KeysIn(rows, YearKey) == {2023} by {
      assert YearKey(rows[0]) == 2023;
    }
    assert 2023 in KeysOf(r);
    assert forall g :: g in r ==> g.key == 2023 by {
      forall g | g in r
        ensures g.key == 2023
      {
        assert g.key in KeysOf(r);
      }
    }
    GroupingSize(r, rows, YearKey);
    assert rows[0] in rows && rows[1] in rows && rows[2] in rows;
    assert rows[1..][1..][1..] == [];
    assert CountOf(rows[2..], YearKey, 2023) == 1 && SumOf(rows[2..], YearKey, 2023) == 200000 by {
      assert rows[2..][1..] == [];
    }
    assert rows[1..][1..] == rows[2..];
    assert CountOf(rows, YearKey, 2023) == 3;
    assert SumOf(rows, YearKey, 2023) == 450000;
  }

  /** `groupby(key)["salary"].mean().sort_values(ascending=False)`: exact mean salary per
      key, the means non-increasing along the result. */
  function MeanView<K(==)>(rows: seq<CanonRow>, key: CanonRow -> K): (r: seq<Group<K>>)
    ensures IsGrouping(r, rows, key)
    ensures forall i, j :: 0 <= i < j < |r| ==> r[i].total * r[j].count >= r[j].total * r[i].count
  {
    var gs := GroupBy(rows, key);
    var r := SortBy(gs, MeanAtLeast);
    MeanOrderIsTotalPreorder(gs);
    SortBySorted(gs, MeanAtLeast);
    GroupingDistinct(gs, rows, key);
    SortByDistinct(gs, MeanAtLeast);
    GroupingPermuted(gs, r, rows, key);
    assert forall i, j :: 0 <= i < j < |r| ==> MeanAtLeast(r[i], r[j]);
    r
  }

  /** `salary_exp`: mean salary per experience level. */
  function SalaryByExperience(rows: seq<CanonRow>): (r: seq<Group<string>>)
    ensures IsGrouping(r, rows, LevelKey)
    ensures forall i, j :: 0 <= i < j < |r| ==> r[i].total * r[j].count >= r[j].total * r[i].count
  {
    MeanView(rows, LevelKey)
  }

  /** `salary_size`: mean salary per company size. */
  function SalaryBySize(rows: seq<CanonRow>): (r: seq<Group<string>>)
    ensures IsGrouping(r, rows, SizeKey)
    ensures forall i, j :: 0 <= i < j < |r| ==> r[i].total * r[j].count >= r[j].total * r[i].count
  {
    MeanView(rows, SizeKey)
  }

  /** Filtering before grouping: restricted to one level, the experience view holds at most
      that level, with the count and salary sum of exactly that level's selected rows. */
  lemma FilteredExperienceMean(rows: seq<CanonRow>, years: set<int>, level: string)
    ensures var sel := Selection(years, {level});
            var r := SalaryByExperience(Filter(rows, sel));
            && |r| <= 1
            && forall g :: g in r ==>
                 && g.key == level
                 && g.count == CountSelected(rows, sel, LevelKey, level)
                 && g.total == SumSelected(rows, sel, LevelKey, level)
  {
    var sel := Selection(years, {level});
    var f := Filter(rows, sel);
    var r := SalaryByExperience(f);
    forall g | g in r
      ensures g.key == level
    {
      assert g.key in KeysOf(r);
      assert g.key in KeysIn(f, LevelKey);
    }
    KeyCount(r);
    SubsetSize(KeysOf(r), {level});
    FilterThenAggregate(rows, sel, LevelKey, level);
  }

  /** A group whose rounded mean is at least the other's may come first. */
  predicate AvgAtLeast<K>(a: Group<K>, b: Group<K>)
  {
    Avg(a) >= Avg(b)
  }

  /** Groups ordered by non-increasing rounded mean, as output rows. */
  function ByAvgDesc<K(==)>(gs: seq<Group<K>>, rows: seq<CanonRow>, key: CanonRow -> K): (r: seq<AvgRow<K>>)
    requires GroupsOf(gs, rows, key)
    ensures AvgRowsOf(r, rows, key)
    ensures AvgKeys(r) == KeysOf(gs)
    ensures IsGrouping(gs, rows, key) ==> SumBy(r, AvgRowCount) == |rows|
    ensures forall i, j :: 0 <= i < j < |r| ==> r[i].avgSalary >= r[j].avgSalary
  {
    var sorted := SortBy(gs, AvgAtLeast);
    SortedByAvg(gs, rows, key);
    AveragesOfGroups(sorted, rows, key);
    Averages(sorted)
  }

  /** Sorting groups by rounded mean keeps them a grouping of the same keys. */
  lemma SortedByAvg<K>(gs: seq<Group<K>>, rows: seq<CanonRow>, key: CanonRow -> K)
    requires GroupsOf(gs, rows, key)
    ensures var sorted := SortBy(gs, AvgAtLeast);
            && GroupsOf(sorted, rows, key)
            && KeysOf(sorted) == KeysOf(gs)
            && (IsGrouping(gs, rows, key) ==> IsGrouping(sorted, rows, key))
            && forall i, j :: 0 <= i < j < |sorted| ==> Avg(sorted[i]) >= Avg(sorted[j])
  {
    var sorted := SortBy(gs, AvgAtLeast);
    SortBySorted(gs, AvgAtLeast);
    SortByDistinct(gs, AvgAtLeast);
    assert forall g :: g in sorted ==> g in gs by {
      forall g | g in sorted
        ensures g in gs
      {
        assert g in multiset(sorted);
      }
    }
    assert forall g :: g in gs ==> g in sorted by {
      forall g | g in gs
        ensures g in sorted
      {
        assert g in multiset(gs);
      }
    }
    GroupsOfSubset(gs, sorted, rows, key);
    if IsGrouping(gs, rows, key) {
      GroupingPermuted(gs, sorted, rows, key);
    }
  }

  /** `SELECT key, COUNT(*), ROUND(AVG(salary), 0) AS avg_salary FROM jobs GROUP BY key
      ORDER BY avg_salary DESC`. */
  function AvgView<K(==)>(table: seq<CanonRow>, key: CanonRow -> K): (r: seq<AvgRow<K>>)
    ensures AvgRowsOf(r, table, key)
    ensures AvgKeys(r) == KeysIn(table, key)
    ensures SumBy(r, AvgRowCount) == |table|
    ensures forall i, j :: 0 <= i < j < |r| ==> r[i].avgSalary >= r[j].avgSalary
  {
    ByAvgDesc(GroupBy(table, key), table, key)
  }

  /** `df_exp`: count and rounded mean salary per experience level, over the whole table. */
  function ExperienceSummary(table: seq<CanonRow>): (r: seq<AvgRow<string>>)
    ensures AvgRowsOf(r, table, LevelKey)
    ensures AvgKeys(r) == KeysIn(table, LevelKey)
    ensures SumBy(r, AvgRowCount) == |table|
    ensures forall i, j :: 0 <= i < j < |r| ==> r[i].avgSalary >= r[j].avgSalary
  {
    AvgView(table, LevelKey)
  }

  /** `df_size`: count and rounded mean salary per company size, over the whole table. */
  function SizeSummary(table: seq<CanonRow>): (r: seq<AvgRow<string>>)
    ensures AvgRowsOf(r, table, SizeKey)
    ensures AvgKeys(r) == KeysIn(table, SizeKey)
    ensures SumBy(r, AvgRowCount) == |table|
    ensures forall i, j :: 0 <= i < j < |r| ==> r[i].avgSalary >= r[j].avgSalary
  {
    AvgView(table, SizeKey)
  }

  /** The two grouping columns of the experience-over-time query. */
  datatype YearLevel = YearLevel(year: int, level: string)

  function YearLevelKey(r: CanonRow): YearLevel
  {
    YearLevel(r.year, r.experienceLevel)
  }

  /** `ORDER BY experience_level, year`, strictly. */
  predicate LevelThenYearBefore(a: YearLevel, b: YearLevel)
  {
    (a.level != b.level && StrLe(a.level, b.level)) || (a.level == b.level && a.year < b.year)
  }

  /** `ORDER BY experience_level, year` as a "may come first" relation on groups. */
  predicate LevelThenYear(a: Group<YearLevel>, b: Group<YearLevel>)
  {
    a.key == b.key || LevelThenYearBefore(a.key, b.key)
  }

  lemma LevelThenYearIsTotalPreorder(gs: seq<Group<YearLevel>>)
    ensures TotalOn(LevelThenYear, gs) && TransitiveOn(LevelThenYear, gs)
  {
    forall a, b | a in gs && b in gs
      ensures LevelThenYear(a, b) || LevelThenYear(b, a)
    {
      StrLeTotal(a.key.level, b.key.level);
    }
    forall a, b, c | a in gs && b in gs && c in gs && LevelThenYear(a, b) && LevelThenYear(b, c)
      ensures LevelThenYear(a, c)
    {
      if a.key != b.key && b.key != c.key && a.key.level != c.key.level {
        if a.key.level != b.key.level && b.key.level != c.key.level {
          StrLeTransitive(a.key.level, b.key.level, c.key.level);
        }
      } else if a.key != b.key && b.key != c.key && a.key.level == c.key.level && a.key.level != b.key.level {
        StrLeAntisymmetric(a.key.level, b.key.level);
      }
    }
  }

  /** `df_exp_time`: rounded mean salary per (year, experience level) pair, over the whole
      table, strictly ordered by level and then year. */
  function ExperienceOverTime(table: seq<CanonRow>): (r: seq<AvgRow<YearLevel>>)
    ensures AvgRowsOf(r, table, YearLevelKey)
    ensures AvgKeys(r) == KeysIn(table, YearLevelKey)
    ensures forall i, j :: 0 <= i < j < |r| ==> LevelThenYearBefore(r[i].key, r[j].key)
  {
    var gs := GroupBy(table, YearLevelKey);
    var sorted := SortBy(gs, LevelThenYear);
    LevelThenYearIsTotalPreorder(gs);
    SortBySorted(gs, LevelThenYear);
    GroupingDistinct(gs, table, YearLevelKey);
    SortByDistinct(gs, LevelThenYear);
    GroupingPermuted(gs, sorted, table, YearLevelKey);
    AveragesOfGroups(sorted, table, YearLevelKey);
    assert forall i, j :: 0 <= i < j < |sorted| ==> LevelThenYear(sorted[i], sorted[j]);
    Averages(sorted)
  }

  /** One output row of the top-locations query. */
  datatype LocationCount = LocationCount(location: string, jobCount: nat)

  function Locations(r: seq<LocationCount>): set<string>
  {
    set x | x in r :: x.location
  }

  /** A group with at least as many rows may come first. */
  predicate CountAtLeast(a: Group<string>, b: Group<string>)
  {
    a.count >= b.count
  }

  /** The first `n` groups as output rows. */
  function FirstLocations(sorted: seq<Group<string>>, n: nat): (r: seq<LocationCount>)
    requires n <= |sorted|
    ensures |r| == n
    ensures forall i :: 0 <= i < n ==> r[i] == LocationCount(sorted[i].key, sorted[i].count)
    ensures forall i :: 0 <= i < n ==> sorted[i].key in Locations(r)
  {
    var r := seq(n, i requires 0 <= i < n => LocationCount(sorted[i].key, sorted[i].count));
    assert forall i :: 0 <= i < n ==> r[i] in r;
    r
  }

  /** The first ten groups of a count-sorted grouping are the top-locations rows: counts
      non-increasing, and a location left out has no more rows than the tenth. */
  lemma TopOfSorted(sorted: seq<Group<string>>, table: seq<CanonRow>, n: nat)
    requires IsGrouping(sorted, table, LocationKey)
    requires Sorted(sorted, CountAtLeast)
    requires n == if |sorted| < 10 then |sorted| else 10
    ensures var r := FirstLocations(sorted, n);
            && (forall i :: 0 <= i < |r| ==> r[i].jobCount == CountOf(table, LocationKey, r[i].location) > 0)
            && (forall i, j :: 0 <= i < j < |r| ==> r[i].location != r[j].location)
            && (forall i, j :: 0 <= i < j < |r| ==> r[i].jobCount >= r[j].jobCount)
            && (forall loc :: loc in KeysIn(table, LocationKey) && loc !in Locations(r) ==>
                  |r| == 10 && CountOf(table, LocationKey, loc) <= r[9].jobCount)
  {
    var r := FirstLocations(sorted, n);
    assert forall i, j :: 0 <= i < j < n ==> CountAtLeast(sorted[i], sorted[j]);
    forall loc | loc in KeysIn(table, LocationKey) && loc !in Locations(r)
      ensures |r| == 10 && CountOf(table, LocationKey, loc) <= r[9].jobCount
    {
      assert loc in KeysOf(sorted);
      var g :| g in sorted && g.key == loc;
      var p :| 0 <= p < |sorted| && sorted[p] == g;
      assert p >= n;
      assert CountAtLeast(sorted[9], sorted[p]);
    }
  }

  /** `df_locations`: the ten company locations with the most rows, over the whole table. */
  function TopLocations(table: seq<CanonRow>): (r: seq<LocationCount>)
    ensures |r| <= 10
    ensures forall i :: 0 <= i < |r| ==> r[i].jobCount == CountOf(table, LocationKey, r[i].location) > 0
    ensures forall i, j :: 0 <= i < j < |r| ==> r[i].location != r[j].location
    ensures forall i, j :: 0 <= i < j < |r| ==> r[i].jobCount >= r[j].jobCount
    ensures forall loc :: loc in KeysIn(table, LocationKey) && loc !in Locations(r) ==>
              |r| == 10 && CountOf(table, LocationKey, loc) <= r[9].jobCount
  {
    var gs := GroupBy(table, LocationKey);
    var sorted := SortBy(gs, CountAtLeast);
    SortBySorted(gs, CountAtLeast);
    GroupingDistinct(gs, table, LocationKey);
    SortByDistinct(gs, CountAtLeast);
    GroupingPermuted(gs, sorted, table, LocationKey);
    var n := if |sorted| < 10 then |sorted| else 10;
    TopOfSorted(sorted, table, n);
    FirstLocations(sorted, n)
  }

  /** The HAVING clause on groups: those with at least `min` rows, in the same order. */
  function Having<K(==)>(gs: seq<Group<K>>, min: nat): (r: seq<Group<K>>)
    ensures forall g :: g in r ==> g in gs && g.count >= min
    ensures forall g :: g in gs && g.count >= min ==> g in r
    ensures Distinct(gs) ==> Distinct(r)
  {
    if gs == [] then
      []
    else
      var rest := Having(gs[1..], min);
      assert forall g :: g in gs ==> g == gs[0] || g in gs[1..];
      if gs[0].count >= min then
        assert Distinct(gs) ==> gs[0] !in gs[1..] && Distinct(gs[1..]);
        [gs[0]] + rest
      else
        assert Distinct(gs) ==> Distinct(gs[1..]);
        rest
  }

  /** The minimum number of postings a location needs in the location-salary query. */
  const MinPostings: nat := 50

  /** `df_loc_salary`: count and rounded mean salary per company location with at least 50
      rows, over the whole table, by non-increasing rounded mean. */
  function LocationSalary(table: seq<CanonRow>): (r: seq<AvgRow<string>>)
    ensures AvgRowsOf(r, table, LocationKey)
    ensures forall loc :: loc in AvgKeys(r) <==> CountOf(table, LocationKey, loc) >= MinPostings
    ensures forall i, j :: 0 <= i < j < |r| ==> r[i].avgSalary >= r[j].avgSalary
  {
    var gs := GroupBy(table, LocationKey);
    var kept := Having(gs, MinPostings);
    GroupingDistinct(gs, table, LocationKey);
    GroupsOfSubset(gs, kept, table, LocationKey);
    var r := ByAvgDesc(kept, table, LocationKey);
    assert forall loc :: loc in KeysOf(kept) <==> CountOf(table, LocationKey, loc) >= MinPostings by {
      forall loc
        ensures loc in KeysOf(kept) <==> CountOf(table, LocationKey, loc) >= MinPostings
      {
        if CountOf(table, LocationKey, loc) >= MinPostings {
          CountPositive(table, LocationKey, loc);
          assert loc in KeysOf(gs);
          var g :| g in gs && g.key == loc;
          var p :| 0 <= p < |gs| && gs[p] == g;
          assert g in kept;
        }
        if loc in KeysOf(kept) {
          var g :| g in kept && g.key == loc;
          var p :| 0 <= p < |gs| && gs[p] == g;
        }
      }
    }
    r
  }

  /** The CASE expression of the remote-work query: exact string comparison, no trimming
      and no case folding. */
  function WorkType(r: CanonRow): (w: string)
    ensures w == "Same country" <==> r.employeeResidence == r.companyLocation
    ensures w == "Different country" <==> r.employeeResidence != r.companyLocation
  {
    if r.employeeResidence == r.companyLocation then "Same country" else "Different country"
  }

  /** Number of rows whose employee lives in the company's country. */
  function SameCountryCount(rows: seq<CanonRow>): nat
  {
    if rows == [] then 0
    else (if rows[0].employeeResidence == rows[0].companyLocation then 1 else 0) + SameCountryCount(rows[1..])
  }

  lemma {:induction false} SameCountryCounted(rows: seq<CanonRow>)
    ensures CountOf(rows, WorkType, "Same country") == SameCountryCount(rows)
    ensures CountOf(rows, WorkType, "Different country") == |rows| - SameCountryCount(rows)
  {
    if rows != [] {
      SameCountryCounted(rows[1..]);
    }
  }

  /** Grouping by work type yields at most the two classes, with the counts of
      same-country and different-country rows. */
  lemma RemoteGroups(table: seq<CanonRow>)
    ensures var gs := GroupBy(table, WorkType);
            && |gs| <= 2
            && KeysOf(gs) <= {"Same country", "Different country"}
            && (forall i :: 0 <= i < |gs| && gs[i].key == "Same country" ==> gs[i].count == SameCountryCount(table))
            && (forall i :: 0 <= i < |gs| && gs[i].key == "Different country" ==>
                  gs[i].count == |table| - SameCountryCount(table))
  {
    var gs := GroupBy(table, WorkType);
    assert KeysIn(table, WorkType) <= {"Same country", "Different country"};
    KeyCount(gs);
    SubsetSize(KeysOf(gs), {"Same country", "Different country"});
    SameCountryCounted(table);
  }

  /** `df_remote`: count and rounded mean salary of same-country and different-country
      rows, over the whole table, in no promised order. */
  function RemoteComparison(table: seq<CanonRow>): (r: seq<AvgRow<string>>)
    ensures AvgRowsOf(r, table, WorkType)
    ensures AvgKeys(r) == KeysIn(table, WorkType)
    ensures AvgKeys(r) <= {"Same country", "Different country"}
    ensures |r| <= 2
    ensures SumBy(r, AvgRowCount) == |table|
    ensures forall i :: 0 <= i < |r| && r[i].key == "Same country" ==> r[i].jobCount == SameCountryCount(table)
    ensures forall i :: 0 <= i < |r| && r[i].key == "Different country" ==>
              r[i].jobCount == |table| - SameCountryCount(table)
  {
    var gs := GroupBy(table, WorkType);
    AveragesOfGroups(gs, table, WorkType);
    RemoteGroups(table);
    Averages(gs)
  }

  /** Everything the dashboard shows, for one table and one sidebar selection. */
  datatype Views = Views(
    trend: seq<Group<int>>,
    byExperience: seq<Group<string>>,
    bySize: seq<Group<string>>,
    experienceSummary: seq<AvgRow<string>>,
    experienceOverTime: seq<AvgRow<YearLevel>>,
    sizeSummary: seq<AvgRow<string>>,
    topLocations: seq<LocationCount>,
    locationSalary: seq<AvgRow<string>>,
    remote: seq<AvgRow<string>>)

  /** One page: the pandas views over the filtered rows, the SQL views over the table. */
  function Render(table: seq<CanonRow>, sel: Selection): (v: Views)
    ensures SumBy(v.trend, GroupCount) == |Filter(table, sel)|
    ensures SumBy(v.byExperience, GroupCount) == |Filter(table, sel)|
    ensures SumBy(v.bySize, GroupCount) == |Filter(table, sel)|
    ensures SumBy(v.experienceSummary, AvgRowCount) == |table|
    ensures SumBy(v.sizeSummary, AvgRowCount) == |table|
    ensures SumBy(v.remote, AvgRowCount) == |table|
  {
    var f := Filter(table, sel);
    var v := Views(
      SalaryTrend(f), SalaryByExperience(f), SalaryBySize(f),
      ExperienceSummary(table), ExperienceOverTime(table), SizeSummary(table),
      TopLocations(table), LocationSalary(table), RemoteComparison(table));
    GroupCountsSum(v.trend, f, YearKey);
    GroupCountsSum(v.byExperience, f, LevelKey);
    GroupCountsSum(v.bySize, f, SizeKey);
    v
  }

  /** The selection changes only the pandas views; the SQL views stay the same. */
  lemma SqlViewsIgnoreSelection(table: seq<CanonRow>, s1: Selection, s2: Selection)
    ensures var v1, v2 := Render(table, s1), Render(table, s2);
            && v1.experienceSummary == v2.experienceSummary
            && v1.experienceOverTime == v2.experienceOverTime
            && v1.sizeSummary == v2.sizeSummary
            && v1.topLocations == v2.topLocations
            && v1.locationSalary == v2.locationSalary
            && v1.remote == v2.remote
  {
  }

  /** With the default selection the pandas views see the whole table. */
  lemma DefaultSelectionSeesTable(table: seq<CanonRow>)
    ensures var v := Render(table, DefaultSelection(table));
            && v.trend == SalaryTrend(table)
            && v.byExperience == SalaryByExperience(table)
            && v.bySize == SalaryBySize(table)
  {
    FilterDefaultIsIdentity(table);
  }
}
