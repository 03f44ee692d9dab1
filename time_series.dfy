/** The data-shaping half of `plot_time_series` (dash/deck.py, lines
    12-34): monthly totals, the month axis extended six months forward, and
    the index vectors handed to and requested from the linear trend fit. */
module TimeSeries {
  import opened Wrappers
  import opened Months
  import opened Orders
  import opened Grouping
  import opened Claims
  import Preprocessing

  /** Every date in the table is a real calendar month. */
  predicate ValidRows(rows: seq<Row>) {
    forall i :: 0 <= i < |rows| ==> Valid(rows[i].month)
  }

  /** The table `plot_time_series` receives from the preprocessing step
      holds only real calendar months. */
  lemma PreprocessedRowsValid(raw: seq<RawRow>)
    ensures Preprocessing.Preprocess(raw).Ok? ==> ValidRows(Preprocessing.Preprocess(raw).value)
  {
  }

  /** The distinct months that have at least one row. */
  function MonthsOf(rows: seq<Row>): set<YearMonth> {
    set x | x in rows :: x.month
  }

  /** The MONTH column. */
  function MonthColumn(rows: seq<Row>): (r: seq<YearMonth>)
    ensures |r| == |rows| && forall i :: 0 <= i < |rows| ==> r[i] == rows[i].month
    ensures Elems(r) == MonthsOf(rows)
  {
    var r := seq(|rows|, i requires 0 <= i < |rows| => rows[i].month);
    assert forall i :: 0 <= i < |rows| ==> r[i] in Elems(r);
    r
  }

  /** The (MONTH, PAID_AMOUNT) entries of the table. */
  function MonthEntries(rows: seq<Row>): (r: seq<(YearMonth, int)>)
    ensures |r| == |rows| && forall i :: 0 <= i < |rows| ==> r[i] == (rows[i].month, rows[i].amount)
    ensures Keys(r) == MonthColumn(rows)
  {
    seq(|rows|, i requires 0 <= i < |rows| => (rows[i].month, rows[i].amount))
  }

  /** Sum of PAID_AMOUNT over the whole table. */
  function TotalAmount(rows: seq<Row>): int {
    Sum(MonthEntries(rows))
  }

  /** Line 12, `df.groupby('MONTH', as_index=False)['PAID_AMOUNT'].sum()`:
      one entry per month that has rows, months ascending, each the sum of
      that month's amounts. */
  function MonthlyTotals(rows: seq<Row>): (ts: seq<(YearMonth, int)>)
    ensures StrictlySorted(Keys(ts), MonthLess)
    ensures Elems(Keys(ts)) == MonthsOf(rows)
    ensures forall i :: 0 <= i < |ts| ==> ts[i].1 == SumOf(MonthEntries(rows), ts[i].0)
  {
    MonthLessIsTotal();
    GroupBySum(MonthEntries(rows), MonthLess)
  }

  /** The monthly totals add up to the total amount, refunds included, and
      there are exactly as many as there are distinct months. */
  lemma MonthlyTotalsSum(rows: seq<Row>)
    ensures Sum(MonthlyTotals(rows)) == TotalAmount(rows)
    ensures |MonthlyTotals(rows)| == |MonthsOf(rows)|
  {
    MonthLessIsTotal();
    GroupBySumTotal(MonthEntries(rows), MonthLess);
    var ks := Keys(MonthlyTotals(rows));
    StrictlySortedNoDup(ks, MonthLess);
    NoDupCard(ks);
  }

  /** Line 18, `periods[-1]` where `periods` is `df['MONTH'].unique()`:
      the last month in first-seen order. On an empty table the index
      lookup fails. */
  function LastPeriod(rows: seq<Row>): (r: Result<YearMonth, Error>)
    ensures r.Err? <==> rows == []
    ensures r.Err? ==> r.error == NoPeriods
    ensures r.Ok? ==> r.value in MonthsOf(rows)
  {
    var u := Unique(MonthColumn(rows));
    ElemsEmpty(u);
    ElemsEmpty(MonthColumn(rows));
    if u == [] then Err(NoPeriods)
    else
      assert u[|u| - 1] in Elems(u);
      Ok(u[|u| - 1])
  }

  /** When the sheet lists its rows in chronological order, the last
      first-seen month is the latest month. */
  lemma LastPeriodOfChronologicalSheet(rows: seq<Row>)
    requires rows != []
    requires forall i, j :: 0 <= i < j < |rows| ==> rows[i].month == rows[j].month || MonthLess(rows[i].month, rows[j].month)
    ensures LastPeriod(rows) == Ok(rows[|rows| - 1].month)
    ensures forall m :: m in MonthsOf(rows) ==> m == LastPeriod(rows).value || MonthLess(m, LastPeriod(rows).value)
  {
    MonthLessIsTotal();
    var col := MonthColumn(rows);
    assert NonDecreasing(col, MonthLess);
    UniqueOfSorted(col, MonthLess);
    forall m | m in MonthsOf(rows) ensures m == rows[|rows| - 1].month || MonthLess(m, rows[|rows| - 1].month) {
      var i :| 0 <= i < |rows| && rows[i].month == m;
      assert i < |rows| - 1 ==> (rows[i].month == rows[|rows| - 1].month || MonthLess(rows[i].month, rows[|rows| - 1].month));
    }
  }

  /** Lines 17-20, `pd.date_range(start=P, end=P + 6 months, freq='M') +
      1 day`: the month ends that fall between the first of P and the first
      of P + 6 are those of P, P + 1, ..., P + 5; one day later each is the
      first of the following month. */
  function Projection(p: YearMonth): (r: seq<YearMonth>)
    requires Valid(p)
    ensures |r| == 6
  {
    seq(6, i requires 0 <= i < 6 => Next(AddMonths(p, i)))
  }

  /** The projection is the six months after P, in order, the year rolling
      over after December. */
  lemma ProjectionMonths(p: YearMonth)
    requires Valid(p)
    ensures StrictlySorted(Projection(p), MonthLess)
    ensures forall i :: 0 <= i < 6 ==> Valid(Projection(p)[i]) && MonthLess(p, Projection(p)[i])
    ensures forall i :: 0 <= i < 6 && p.month + i + 1 <= 12 ==> Projection(p)[i] == YearMonth(p.year, p.month + i + 1)
    ensures forall i :: 0 <= i < 6 && p.month + i + 1 > 12 ==> Projection(p)[i] == YearMonth(p.year + 1, p.month + i + 1 - 12)
  {
    var r := Projection(p);
    forall i | 0 <= i < 6
      ensures r[i] == AddMonths(p, i + 1) && MonthLess(p, r[i])
      ensures p.month + i + 1 <= 12 ==> r[i] == YearMonth(p.year, p.month + i + 1)
      ensures p.month + i + 1 > 12 ==> r[i] == YearMonth(p.year + 1, p.month + i + 1 - 12)
    {
      AddMonthsWithinYear(p, i + 1);
      AddMonthsIncreasing(p, 0, i + 1);
    }
    forall i, j | 0 <= i < j < 6 ensures MonthLess(r[i], r[j]) {
      AddMonthsIncreasing(p, i + 1, j + 1);
    }
  }

  /** Line 21, `periods.union(projection)`: the observed and projected
      months, ascending and without repeats. */
  function ForecastAxis(rows: seq<Row>): (r: Result<seq<YearMonth>, Error>)
    requires ValidRows(rows)
    ensures r.Err? <==> rows == []
    ensures r.Ok? ==> LastPeriod(rows).Ok? && StrictlySorted(r.value, MonthLess)
    ensures r.Ok? ==> Elems(r.value) == MonthsOf(rows) + Elems(Projection(LastPeriod(rows).value))
  {
    match LastPeriod(rows)
    case Err(e) => Err(e)
    case Ok(p) =>
      MonthLessIsTotal();
      var all := MonthColumn(rows) + Projection(p);
      assert Elems(all) == Elems(MonthColumn(rows)) + Elems(Projection(p));
      assert Valid(p) by {
        var i :| 0 <= i < |rows| && rows[i].month == p;
      }
      Ok(SortedKeys(all, MonthLess))
  }

  /** When P is the latest month (as in a chronological sheet), the axis is
      the months of the totals followed by the six projected months, so it
      has exactly as many entries as the prediction vector. */
  lemma ForecastAxisOfLatest(rows: seq<Row>)
    requires ValidRows(rows) && rows != []
    requires forall m :: m in MonthsOf(rows) ==> m == LastPeriod(rows).value || MonthLess(m, LastPeriod(rows).value)
    ensures ForecastAxis(rows).value == Keys(MonthlyTotals(rows)) + Projection(LastPeriod(rows).value)
    ensures |ForecastAxis(rows).value| == |MonthlyTotals(rows)| + 6
  {
    MonthLessIsTotal();
    var p := LastPeriod(rows).value;
    assert Valid(p) by {
      var i :| 0 <= i < |rows| && rows[i].month == p;
    }
    var ks := Keys(MonthlyTotals(rows));
    var proj := Projection(p);
    ProjectionMonths(p);
    var c := ks + proj;
    forall i, j | 0 <= i < j < |c| ensures MonthLess(c[i], c[j]) {
      if j >= |ks| && i < |ks| {
        assert ks[i] in Elems(ks);
        assert ks[i] == p || MonthLess(ks[i], p);
        assert MonthLess(p, proj[j - |ks|]);
      }
    }
    assert Elems(c) == Elems(ks) + Elems(proj);
    SortedUnique(c, ForecastAxis(rows).value, MonthLess);
  }

  // ---------------------------------------------------------------------
  // Lines 23-34: what the trend fit is given and asked for
  // ---------------------------------------------------------------------

  /** `range(lo, hi)` */
  function Range(lo: int, hi: int): (r: seq<int>)
    ensures |r| == (if lo < hi then hi - lo else 0)
    ensures forall i :: 0 <= i < |r| ==> r[i] == lo + i
  {
    if lo < hi then seq(hi - lo, i requires 0 <= i < hi - lo => lo + i) else []
  }

  /** statsmodels' test for a column that already is a constant: all its
      values equal (`np.ptp(x) == 0`) and none of them zero. */
  predicate IsConstantColumn(xs: seq<int>) {
    forall i :: 0 <= i < |xs| ==> xs[i] == xs[0] && xs[0] != 0
  }

  /** `sm.add_constant(X)` with its default `has_constant='skip'`: each
      regressor gets the constant 1 in front of it, unless X already is a
      constant column, which comes back as it is, one value per row. numpy
      rejects an empty X, and line 18 fails before one could be built. */
  function AddConstant(xs: seq<int>): (r: seq<seq<int>>)
    requires xs != []
    ensures |r| == |xs|
    ensures IsConstantColumn(xs) ==> forall i :: 0 <= i < |xs| ==> r[i] == [xs[i]]
    ensures !IsConstantColumn(xs) ==> forall i :: 0 <= i < |xs| ==> r[i] == [1, xs[i]]
  {
    if IsConstantColumn(xs) then seq(|xs|, i requires 0 <= i < |xs| => [xs[i]])
    else seq(|xs|, i requires 0 <= i < |xs| => [1, xs[i]])
  }

  /** The regressor `range(1, n + 1)` counts as a constant exactly when it
      is the single value 1, so only a one-month table loses its constant. */
  lemma IndicesConstantIffSingle(n: int)
    requires n >= 1
    ensures IsConstantColumn(Range(1, n + 1)) <==> n == 1
  {
    if n > 1 {
      assert Range(1, n + 1)[1] != Range(1, n + 1)[0];
    }
  }

  /** `s.loc[:last]` on a default integer index 0, 1, ...: last-based,
      so the row labelled `last` is included. */
  function LocUpTo<T>(s: seq<T>, last: int): (r: seq<T>)
    ensures r <= s
    ensures |r| == if last < 0 then 0 else if last + 1 < |s| then last + 1 else |s|
  {
    s[..if last < 0 then 0 else if last + 1 < |s| then last + 1 else |s|]
  }

  /** With `adj_size = real_size - 1`, the last-inclusive slice keeps all
      `real_size` rows: the last month is not held out of the fit. */
  lemma LocUpToLastKeepsAll<T>(s: seq<T>)
    ensures LocUpTo(s, |s| - 1) == s
  {
  }

  /** The data of one OLS fit: the training design matrix, the training
      targets, and the design matrix of the requested predictions, one row
      of regressor values per observation. */
  datatype FitInputs = FitInputs(exog: seq<seq<int>>, endog: seq<int>, predictExog: seq<seq<int>>)

  /** Lines 23-34 on the monthly totals (never empty here: line 18 has
      already failed on an empty table). The prediction matrix always has
      two columns; when the training matrix has one, `results.predict`
      fails. */
  function TrendInputs(ts: seq<(YearMonth, int)>): (r: Result<FitInputs, Error>)
    requires ts != []
    ensures r.Err? <==> |ts| == 1
    ensures r.Err? ==> r.error == PredictShape(1, 2)
    ensures r.Ok? ==> |r.value.endog| == |r.value.exog| == |ts|
    ensures r.Ok? ==> forall i :: 0 <= i < |ts| ==> r.value.endog[i] == ts[i].1 && r.value.exog[i] == [1, i + 1]
    ensures r.Ok? ==> |r.value.predictExog| == |ts| + 6
    ensures r.Ok? ==> forall i :: 0 <= i < |ts| + 6 ==> r.value.predictExog[i] == [1, i + 1]
    ensures r.Ok? ==> r.value.exog <= r.value.predictExog
  {
    var realSize := |ts|;
    var adjSize := realSize - 1;
    var predictSize := realSize + 6;
    var y := LocUpTo(ts, adjSize);
    var x := AddConstant(Range(1, adjSize + 2));
    var px := seq(predictSize, i requires 0 <= i < predictSize => [1, i + 1]);
    IndicesConstantIffSingle(realSize);
    if |x[0]| != |px[0]| then Err(PredictShape(|x[0]|, |px[0]|))
    else Ok(FitInputs(x, seq(|y|, i requires 0 <= i < |y| => y[i].1), px))
  }

  /** What `plot_time_series` computes before drawing. */
  datatype TimeSeriesView = TimeSeriesView(totals: seq<(YearMonth, int)>, axis: seq<YearMonth>, fit: FitInputs)

  function PlotTimeSeries(rows: seq<Row>): (r: Result<TimeSeriesView, Error>)
    requires ValidRows(rows)
    ensures r.Err? <==> |MonthsOf(rows)| <= 1
    ensures rows == [] ==> r == Err(NoPeriods)
    ensures |MonthsOf(rows)| == 1 ==> r == Err(PredictShape(1, 2))
    ensures r.Ok? ==> r.value.totals == MonthlyTotals(rows) && ForecastAxis(rows) == Ok(r.value.axis)
    ensures r.Ok? ==> |r.value.fit.endog| == |r.value.totals| && |r.value.fit.predictExog| == |r.value.totals| + 6
    ensures r.Ok? ==> r.value.totals != [] && TrendInputs(r.value.totals) == Ok(r.value.fit)
  {
    assert rows != [] ==> rows[0].month in MonthsOf(rows);
    match ForecastAxis(rows)
    case Err(e) => Err(e)
    case Ok(axis) =>
      var ts := MonthlyTotals(rows);
      MonthlyTotalsSum(rows);
      match TrendInputs(ts)
      case Err(e) => Err(e)
      case Ok(fit) => Ok(TimeSeriesView(ts, axis, fit))
  }
}
