/** The clean-and-load script: one raw CSV row becomes one canonical `jobs` row, and a
    successful run replaces the whole `jobs` table. */
module CleanAndLoad {
  import opened Wrappers
  import opened AsciiText
  import opened Normalize

  /** One cell of a numeric column as pandas holds it after reading the CSV: a finite
      number, written exactly as `units / 10^places`, or text pandas could not read as a
      number (which also makes the whole column text). A missing cell is `None`. */
  datatype Cell = Number(units: int, places: nat) | Text(text: string)

  /** One row of `data/raw_jobs.csv`, the columns the script reads. */
  datatype RawRow = RawRow(
    workYear: int,
    jobTitle: Option<string>,
    experienceLevel: Option<string>,
    salaryInUsd: Option<Cell>,
    employeeResidence: Option<string>,
    companyLocation: Option<string>,
    companySize: Option<string>,
    remoteRatio: Option<Cell>)

  /** One row of the canonical `jobs` table. */
  datatype CanonRow = CanonRow(
    jobId: int,
    year: int,
    title: string,
    experienceLevel: string,
    salary: int,
    employeeResidence: string,
    companyLocation: string,
    companySize: string,
    remoteRatio: int)

  /** The two ways `astype(int)` aborts the script; the salary column is converted first. */
  datatype LoadError = SalaryNotNumeric | RemoteRatioNotNumeric

  function Pow10(n: nat): (r: nat)
    ensures r >= 1
  {
    if n == 0 then 1 else 10 * Pow10(n - 1)
  }

  /** `astype(int)` on one cell: a number is truncated toward zero; a missing (NaN) or
      non-numeric cell cannot be converted. */
  function AsInt(cell: Option<Cell>): (r: Option<int>)
    ensures r.Some? <==> cell.Some? && cell.value.Number?
    ensures r.Some? ==>
              var u, p := cell.value.units, Pow10(cell.value.places);
              && (u >= 0 ==> 0 <= r.value && r.value * p <= u < (r.value + 1) * p)
              && (u < 0 ==> r.value <= 0 && (-r.value) * p <= -u < (-r.value + 1) * p)
  {
    match cell
    case None => None
    case Some(Text(_)) => None
    case Some(Number(u, places)) =>
      var p := Pow10(places);
      if u >= 0 then
        DivBounds(u, p);
        Some(u / p)
      else
        var q := (-u) / p;
        DivBounds(-u, p);
        assert -(-q) == q;
        Some(-q)
  }

  /** Integer division of a non-negative number rounds down. */
  lemma DivBounds(u: int, p: int)
    requires u >= 0 && p >= 1
    ensures 0 <= (u / p) * p <= u < (u / p + 1) * p
  {
    var q := u / p;
    assert u == q * p + u % p;
    assert (q + 1) * p == q * p + p;
  }

  /** `astype(int)` on a whole column: every cell converted, or nothing. */
  function CoerceColumn(cells: seq<Option<Cell>>): (r: Option<seq<int>>)
    ensures r.Some? <==> forall i :: 0 <= i < |cells| ==> AsInt(cells[i]).Some?
    ensures r.Some? ==>
              && |r.value| == |cells|
              && forall i :: 0 <= i < |cells| ==> AsInt(cells[i]) == Some(r.value[i])
  {
    if cells == [] then
      Some([])
    else
      match (AsInt(cells[0]), CoerceColumn(cells[1..]))
      case (Some(v), Some(vs)) =>
        assert forall i :: 1 <= i < |cells| ==> cells[i] == cells[1..][i - 1];
        Some([v] + vs)
      case (None, _) => None
      case (_, None) =>
        assert forall i :: 0 <= i < |cells| - 1 ==> cells[1..][i] == cells[i + 1];
        None
  }

  function SalaryColumn(raws: seq<RawRow>): seq<Option<Cell>>
  {
    seq(|raws|, i requires 0 <= i < |raws| => raws[i].salaryInUsd)
  }

  function RemoteRatioColumn(raws: seq<RawRow>): seq<Option<Cell>>
  {
    seq(|raws|, i requires 0 <= i < |raws| => raws[i].remoteRatio)
  }

  /** Whether `astype(int)` accepts a cell. */
  predicate Numeric(cell: Option<Cell>)
  {
    AsInt(cell).Some?
  }

  /** The canonical row `row` is the one the script builds for raw row number `i`. */
  ghost predicate CanonicalFor(row: CanonRow, i: nat, raw: RawRow)
  {
    && row.jobId == i
    && row.year == raw.workYear
    && row.title == NormalizeTitle(raw.jobTitle)
    && row.experienceLevel == NormalizeExperience(raw.experienceLevel)
    && AsInt(raw.salaryInUsd) == Some(row.salary)
    && row.employeeResidence == FillUnknown(raw.employeeResidence)
    && row.companyLocation == FillUnknown(raw.companyLocation)
    && row.companySize == FillUnknown(raw.companySize)
    && AsInt(raw.remoteRatio) == Some(row.remoteRatio)
  }

  /** The data frame built at lines 39-49: column by column, so a bad salary anywhere
      is reported before a bad remote ratio anywhere. */
  function Transform(raws: seq<RawRow>): (r: Result<seq<CanonRow>, LoadError>)
    ensures r.Success? <==>
              forall i :: 0 <= i < |raws| ==> Numeric(raws[i].salaryInUsd) && Numeric(raws[i].remoteRatio)
    ensures r == Failure(SalaryNotNumeric) <==> exists i :: 0 <= i < |raws| && !Numeric(raws[i].salaryInUsd)
    ensures r.Success? ==>
              && |r.value| == |raws|
              && forall i :: 0 <= i < |raws| ==> CanonicalFor(r.value[i], i, raws[i])
  {
    var salaries := CoerceColumn(SalaryColumn(raws));
    var ratios := CoerceColumn(RemoteRatioColumn(raws));
    assert forall i :: 0 <= i < |raws| ==> SalaryColumn(raws)[i] == raws[i].salaryInUsd;
    assert forall i :: 0 <= i < |raws| ==> RemoteRatioColumn(raws)[i] == raws[i].remoteRatio;
    if salaries.None? then
      Failure(SalaryNotNumeric)
    else if ratios.None? then
      Failure(RemoteRatioNotNumeric)
    else
      Success(seq(|raws|, i requires 0 <= i < |raws| =>
        CanonRow(
          i,
          raws[i].workYear,
          NormalizeTitle(raws[i].jobTitle),
          NormalizeExperience(raws[i].experienceLevel),
          salaries.value[i],
          FillUnknown(raws[i].employeeResidence),
          FillUnknown(raws[i].companyLocation),
          FillUnknown(raws[i].companySize),
          ratios.value[i])))
  }

  /** Truncation toward zero, not flooring: 1234.56 becomes 1234 and -1234.56 becomes -1234. */
  lemma TruncationExample()
    ensures AsInt(Some(Number(123456, 2))) == Some(1234)
    ensures AsInt(Some(Number(-123456, 2))) == Some(-1234)
    ensures AsInt(Some(Text("n/a"))) == None
    ensures AsInt(None) == None
  {
    assert Pow10(2) == 100;
  }

  /** Exactly one canonical row fits a raw row at a given position. */
  lemma CanonicalForUnique(a: CanonRow, b: CanonRow, i: nat, raw: RawRow)
    requires CanonicalFor(a, i, raw) && CanonicalFor(b, i, raw)
    ensures a == b
  {
  }

  /** Every row of a successful transformation meets the canonical schema: a level from
      the closed set, and a trimmed title in title case. */
  lemma TransformWellFormed(raws: seq<RawRow>)
    requires Transform(raws).Success?
    ensures forall row :: row in Transform(raws).value ==>
              row.experienceLevel in Levels && Trimmed(row.title) && TitleCased(row.title)
  {
    var rows := Transform(raws).value;
    forall row | row in rows
      ensures row.experienceLevel in Levels && Trimmed(row.title) && TitleCased(row.title)
    {
      var i :| 0 <= i < |rows| && rows[i] == row;
      assert CanonicalFor(row, i, raws[i]);
    }
  }

  /** The `job_id` values present in a table. */
  function JobIds(rows: seq<CanonRow>): set<int>
  {
    set row | row in rows :: row.jobId
  }

  /** The ids of N loaded rows are exactly 0 .. N-1, each used once, in input order. */
  lemma JobIdsContiguous(raws: seq<RawRow>)
    requires Transform(raws).Success?
    ensures var rows := Transform(raws).value;
            && (forall id :: id in JobIds(rows) <==> 0 <= id < |raws|)
            && forall i, j :: 0 <= i < j < |rows| ==> rows[i].jobId < rows[j].jobId
  {
    var rows := Transform(raws).value;
    assert forall i :: 0 <= i < |rows| ==> CanonicalFor(rows[i], i, raws[i]);
    forall id | 0 <= id < |raws|
      ensures id in JobIds(rows)
    {
      assert rows[id].jobId == id;
    }
  }

  /** A missing location, residence or company size reads `Unknown`; a present one is
      copied verbatim, whitespace and case included. */
  lemma MissingStringsBecomeUnknown(raws: seq<RawRow>, i: nat)
    requires Transform(raws).Success? && i < |raws|
    ensures var row, raw := Transform(raws).value[i], raws[i];
            && (raw.employeeResidence.None? ==> row.employeeResidence == "Unknown")
            && (raw.employeeResidence.Some? ==> row.employeeResidence == raw.employeeResidence.value)
            && (raw.companyLocation.None? ==> row.companyLocation == "Unknown")
            && (raw.companyLocation.Some? ==> row.companyLocation == raw.companyLocation.value)
            && (raw.companySize.None? ==> row.companySize == "Unknown")
            && (raw.companySize.Some? ==> row.companySize == raw.companySize.value)
  {
    assert CanonicalFor(Transform(raws).value[i], i, raws[i]);
  }

  /** The SQLite database as far as the script sees it: the `jobs` table, absent before
      the first load. */
  datatype Store = Store(jobs: Option<seq<CanonRow>>)

  /** What a run reports: the number of rows loaded, or the error that aborted it. */
  datatype LoadReport = Loaded(count: nat) | Aborted(error: LoadError)

  /** One run of `main`: build the canonical frame, then write it with
      `if_exists="replace"`. A conversion error aborts before the write. */
  function Load(store: Store, raws: seq<RawRow>): (r: (Store, LoadReport))
    ensures r.1.Aborted? ==> r.0 == store
    ensures r.1.Loaded? <==>
              forall i :: 0 <= i < |raws| ==> Numeric(raws[i].salaryInUsd) && Numeric(raws[i].remoteRatio)
    ensures r.1.Loaded? ==>
              && r.1.count == |raws|
              && r.0.jobs.Some?
              && |r.0.jobs.value| == |raws|
              && forall i :: 0 <= i < |raws| ==> CanonicalFor(r.0.jobs.value[i], i, raws[i])
  {
    match Transform(raws)
    case Failure(e) => (store, Aborted(e))
    case Success(rows) => (Store(Some(rows)), Loaded(|rows|))
  }

  /** Full replace: after a successful load the table holds exactly the new rows, whatever
      the store held before, including the rows of any earlier load. */
  lemma LoadReplaces(s1: Store, s2: Store, raws: seq<RawRow>)
    requires Load(s1, raws).1.Loaded?
    ensures Load(s1, raws).0 == Load(s2, raws).0
  {
    var t1, t2 := Load(s1, raws).0.jobs.value, Load(s2, raws).0.jobs.value;
    forall i | 0 <= i < |raws|
      ensures t1[i] == t2[i]
    {
      CanonicalForUnique(t1[i], t2[i], i, raws[i]);
    }
  }

  /** Loading A and then B leaves exactly B's rows when B loads, and A's table when B aborts. */
  lemma LoadTwice(s: Store, a: seq<RawRow>, b: seq<RawRow>)
    ensures var after := Load(Load(s, a).0, b);
            && (after.1.Loaded? ==> after.0 == Load(Store(None), b).0)
            && (after.1.Aborted? ==> after.0 == Load(s, a).0)
  {
    var after := Load(Load(s, a).0, b);
    if after.1.Loaded? {
      LoadReplaces(Load(s, a).0, Store(None), b);
    }
  }
}
