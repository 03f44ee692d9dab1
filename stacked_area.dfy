/** The data-shaping half of `plot_stacked_area` (dash/deck.py, lines
    53-62): payer-by-month sums, the list of payers, and each payer's
    series of monthly sums. */
module StackedArea {
  import opened Months
  import opened Orders
  import opened Grouping
  import opened Claims

  /** The ((PAYER, MONTH), PAID_AMOUNT) entries of the table. */
  function PayerMonthEntries(rows: seq<Row>): (r: seq<((string, YearMonth), int)>)
    ensures |r| == |rows|
    ensures forall i :: 0 <= i < |rows| ==> r[i] == ((rows[i].payer, rows[i].month), rows[i].amount)
    ensures Elems(Keys(r)) == set x | x in rows :: (x.payer, x.month)
  {
    var r := seq(|rows|, i requires 0 <= i < |rows| => ((rows[i].payer, rows[i].month), rows[i].amount));
    assert forall i :: 0 <= i < |rows| ==> Keys(r)[i] in Elems(Keys(r));
    r
  }

  /** Line 53, `df.groupby(['PAYER', 'MONTH'], as_index=False)['PAID_AMOUNT'].sum()`:
      one entry per (payer, month) pair that has rows, ordered by payer and
      then month, each the sum of that pair's amounts. */
  function PayersByMonths(rows: seq<Row>): (r: seq<((string, YearMonth), int)>)
    ensures StrictlySorted(Keys(r), Lex(StrLess, MonthLess))
    ensures Elems(Keys(r)) == set x | x in rows :: (x.payer, x.month)
    ensures forall i :: 0 <= i < |r| ==> r[i].1 == SumOf(PayerMonthEntries(rows), r[i].0)
  {
    StrLessIsTotal();
    MonthLessIsTotal();
    LexIsTotal(StrLess, MonthLess);
    GroupBySum(PayerMonthEntries(rows), Lex(StrLess, MonthLess))
  }

  /** The PAYER column of the grouped table. */
  function PayerColumn(pm: seq<((string, YearMonth), int)>): (r: seq<string>)
    ensures |r| == |pm| && forall i :: 0 <= i < |pm| ==> r[i] == pm[i].0.0
  {
    seq(|pm|, i requires 0 <= i < |pm| => pm[i].0.0)
  }

  /** Line 55, `payers_by_months['PAYER'].unique().tolist()`: every payer
      of the table exactly once, in ascending order. */
  function PayerLabels(rows: seq<Row>): (r: seq<string>)
    ensures StrictlySorted(r, StrLess)
    ensures Elems(r) == set x | x in rows :: x.payer
  {
    var pm := PayersByMonths(rows);
    var col := PayerColumn(pm);
    StrLessIsTotal();
    MonthLessIsTotal();
    PayerColumnSorted(pm);
    UniqueOfSorted(col, StrLess);
    assert Elems(col) == set x | x in rows :: x.payer by {
      forall q | q in Elems(col) ensures q in set x | x in rows :: x.payer {
        var i :| 0 <= i < |col| && col[i] == q;
        assert Keys(pm)[i] in Elems(Keys(pm));
      }
      forall x | x in rows ensures x.payer in Elems(col) {
        assert (x.payer, x.month) in Elems(Keys(pm));
        var i :| 0 <= i < |pm| && Keys(pm)[i] == (x.payer, x.month);
        assert col[i] == x.payer;
      }
    }
    Unique(col)
  }

  /** A table sorted by (payer, month) has its payers in ascending order. */
  lemma PayerColumnSorted(pm: seq<((string, YearMonth), int)>)
    requires StrictlySorted(Keys(pm), Lex(StrLess, MonthLess))
    ensures NonDecreasing(PayerColumn(pm), StrLess)
  {
    var lex := Lex(StrLess, MonthLess);
    forall i, j | 0 <= i < j < |pm| ensures pm[i].0.0 == pm[j].0.0 || StrLess(pm[i].0.0, pm[j].0.0) {
      assert lex(Keys(pm)[i], Keys(pm)[j]);
    }
  }

  /** The months in which `payer` has rows. */
  function PayerMonths(rows: seq<Row>, payer: string): set<YearMonth> {
    set x | x in rows && x.payer == payer :: x.month
  }

  /** The mask `payers_by_months['PAYER'] == payer`. */
  function IsPayer(payer: string): (((string, YearMonth), int)) -> bool {
    (e: ((string, YearMonth), int)) => e.0.0 == payer
  }

  /** Line 62, the rows of `payer` in the grouped table, sorted by MONTH,
      as (month, sum) pairs; `.tolist()` takes the sums. One value per
      month in which the payer has rows, months ascending, each the sum of
      the payer's rows in that month. Absent months get no value. */
  function PayerSeries(rows: seq<Row>, payer: string): (r: seq<(YearMonth, int)>)
    ensures StrictlySorted(Keys(r), MonthLess)
    ensures Elems(Keys(r)) == PayerMonths(rows, payer)
    ensures forall i :: 0 <= i < |r| ==> r[i].1 == SumOf(PayerMonthEntries(rows), (payer, r[i].0))
  {
    var pm := PayersByMonths(rows);
    var sel := Filter(pm, IsPayer(payer));
    var r := seq(|sel|, i requires 0 <= i < |sel| => (sel[i].0.1, sel[i].1));
    SelectionOfPayer(pm, payer);
    PayerSeriesSorted(pm, payer, r);
    PayerSeriesMonths(rows, payer, pm, r);
    r
  }

  /** The selected entries are entries of the grouped table, of this payer. */
  lemma SelectionOfPayer(pm: seq<((string, YearMonth), int)>, payer: string)
    ensures forall i :: 0 <= i < |Filter(pm, IsPayer(payer))| ==>
      Filter(pm, IsPayer(payer))[i].0.0 == payer && Filter(pm, IsPayer(payer))[i] in pm
  {
    var sel := Filter(pm, IsPayer(payer));
    forall i | 0 <= i < |sel| ensures sel[i].0.0 == payer && sel[i] in pm {
      assert sel[i] in sel;
    }
  }

  lemma PayerSeriesSorted(pm: seq<((string, YearMonth), int)>, payer: string, r: seq<(YearMonth, int)>)
    requires StrictlySorted(Keys(pm), Lex(StrLess, MonthLess))
    requires |r| == |Filter(pm, IsPayer(payer))|
    requires forall i :: 0 <= i < |r| ==> r[i] == (Filter(pm, IsPayer(payer))[i].0.1, Filter(pm, IsPayer(payer))[i].1)
    ensures StrictlySorted(Keys(r), MonthLess)
  {
    var sel := Filter(pm, IsPayer(payer));
    var lex := Lex(StrLess, MonthLess);
    StrLessIsTotal();
    MonthLessIsTotal();
    LexIsTotal(StrLess, MonthLess);
    KeyLessFacts(pm, lex);
    FilterSorted(pm, IsPayer(payer), KeyLess(lex));
    KeyLessFacts(sel, lex);
    SelectionOfPayer(pm, payer);
    StrLessIrreflexive(payer);
    forall i, j | 0 <= i < j < |r| ensures MonthLess(r[i].0, r[j].0) {
      assert lex(Keys(sel)[i], Keys(sel)[j]);
    }
  }

  lemma PayerSeriesMonths(rows: seq<Row>, payer: string, pm: seq<((string, YearMonth), int)>, r: seq<(YearMonth, int)>)
    requires pm == PayersByMonths(rows)
    requires |r| == |Filter(pm, IsPayer(payer))|
    requires forall i :: 0 <= i < |r| ==> r[i] == (Filter(pm, IsPayer(payer))[i].0.1, Filter(pm, IsPayer(payer))[i].1)
    ensures Elems(Keys(r)) == PayerMonths(rows, payer)
    ensures forall i :: 0 <= i < |r| ==> r[i].1 == SumOf(PayerMonthEntries(rows), (payer, r[i].0))
  {
    var sel := Filter(pm, IsPayer(payer));
    SelectionOfPayer(pm, payer);
    SelectedSums(rows, payer, pm, sel, r);
    SelectedMonths(Elems(Keys(pm)), payer, pm, sel, r);
  }

  lemma SelectedSums(rows: seq<Row>, payer: string, pm: seq<((string, YearMonth), int)>,
                     sel: seq<((string, YearMonth), int)>, r: seq<(YearMonth, int)>)
    requires forall i :: 0 <= i < |pm| ==> pm[i].1 == SumOf(PayerMonthEntries(rows), pm[i].0)
    requires forall i :: 0 <= i < |sel| ==> sel[i].0.0 == payer && sel[i] in pm
    requires |r| == |sel| && forall i :: 0 <= i < |r| ==> r[i] == (sel[i].0.1, sel[i].1)
    ensures forall i :: 0 <= i < |r| ==> r[i].1 == SumOf(PayerMonthEntries(rows), (payer, r[i].0))
  {
    forall i | 0 <= i < |r| ensures r[i].1 == SumOf(PayerMonthEntries(rows), (payer, r[i].0)) {
      var k :| 0 <= k < |pm| && pm[k] == sel[i];
    }
  }

  lemma SelectedMonths(keys: set<(string, YearMonth)>, payer: string, pm: seq<((string, YearMonth), int)>,
                       sel: seq<((string, YearMonth), int)>, r: seq<(YearMonth, int)>)
    requires keys == Elems(Keys(pm))
    requires sel == Filter(pm, IsPayer(payer))
    requires |r| == |sel| && forall i :: 0 <= i < |r| ==> r[i] == (sel[i].0.1, sel[i].1)
    ensures Elems(Keys(r)) == set k | k in keys && k.0 == payer :: k.1
  {
    forall m | m in (set k | k in keys && k.0 == payer :: k.1) ensures m in Elems(Keys(r)) {
      var k :| 0 <= k < |pm| && Keys(pm)[k] == (payer, m);
      assert pm[k] in sel;
      var i :| 0 <= i < |sel| && sel[i] == pm[k];
      assert Keys(r)[i] == m;
    }
    forall m | m in Elems(Keys(r)) ensures m in set k | k in keys && k.0 == payer :: k.1 {
      var i :| 0 <= i < |r| && Keys(r)[i] == m;
      assert sel[i] in sel;
      var k :| 0 <= k < |pm| && pm[k] == sel[i];
      assert Keys(pm)[k] in keys;
    }
  }

  /** The series is not padded: it is exactly as long as the number of
      months in which the payer has rows. */
  lemma PayerSeriesLength(rows: seq<Row>, payer: string)
    ensures |PayerSeries(rows, payer)| == |PayerMonths(rows, payer)|
  {
    var ks := Keys(PayerSeries(rows, payer));
    MonthLessIsTotal();
    StrictlySortedNoDup(ks, MonthLess);
    NoDupCard(ks);
  }

  /** Any month-sorted sequence of the payer's monthly sums is this one,
      so the `sort_values(by='MONTH')` has exactly one possible outcome. */
  lemma PayerSeriesDetermined(rows: seq<Row>, payer: string, s: seq<(YearMonth, int)>)
    requires StrictlySorted(Keys(s), MonthLess)
    requires Elems(Keys(s)) == PayerMonths(rows, payer)
    requires forall i :: 0 <= i < |s| ==> s[i].1 == SumOf(PayerMonthEntries(rows), (payer, s[i].0))
    ensures s == PayerSeries(rows, payer)
  {
    var r := PayerSeries(rows, payer);
    MonthLessIsTotal();
    SortedUnique(Keys(s), Keys(r), MonthLess);
    assert forall i :: 0 <= i < |s| ==> s[i] == (Keys(s)[i], s[i].1);
  }
}
