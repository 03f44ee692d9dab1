/** The data-shaping half of `plot_bar` (dash/deck.py, lines 87-98): the
    year/month window, the ten specialties with the largest sums in the
    reference year, and the (year, specialty) sums of those specialties
    over the window, largest first. */
module Bar {
  import opened Wrappers
  import opened Orders
  import opened Grouping
  import opened Claims

  /** The defaults of `plot_bar`'s parameters, and the size of the top list. */
  const DefaultLastYear: int := 2020
  const DefaultLastMonths: int := 6
  const TopCount: nat := 10

  /** A row of `df_slice` with its added YEAR column. */
  datatype SliceRow = SliceRow(year: int, row: Row)

  /** The mask of lines 88-89. */
  predicate InWindow(r: Row, lastYear: int, lastMonths: int) {
    r.month.year >= lastYear - 1 && r.month.month <= lastMonths
  }

  /** Lines 87-90: the rows from `lastYear - 1` on whose month-of-year is
      at most `lastMonths`, each with YEAR set to the year of its MONTH. */
  function Window(rows: seq<Row>, lastYear: int, lastMonths: int): (r: seq<SliceRow>)
    ensures |r| <= |rows|
    ensures forall x :: x in r <==> x.row in rows && InWindow(x.row, lastYear, lastMonths) && x.year == x.row.month.year
  {
    if rows == [] then []
    else
      assert rows == [rows[0]] + rows[1..];
      (if InWindow(rows[0], lastYear, lastMonths) then [SliceRow(rows[0].month.year, rows[0])] else [])
      + Window(rows[1..], lastYear, lastMonths)
  }

  /** The window keeps the rows' order: it acts on each part of the table
      separately. */
  lemma {:induction false} WindowKeepsOrder(a: seq<Row>, b: seq<Row>, lastYear: int, lastMonths: int)
    ensures Window(a + b, lastYear, lastMonths) == Window(a, lastYear, lastMonths) + Window(b, lastYear, lastMonths)
  {
    if a == [] {
      assert a + b == b;
    } else {
      assert (a + b)[0] == a[0];
      assert (a + b)[1..] == a[1..] + b;
      WindowKeepsOrder(a[1..], b, lastYear, lastMonths);
    }
  }

  // ---------------------------------------------------------------------
  // Lines 92-93: the top list
  // ---------------------------------------------------------------------

  /** The specialties with rows of YEAR `lastYear` in the window. Rows
      without a string specialty are dropped, as `groupby` drops NaN keys. */
  function ReferenceSpecialties(slice: seq<SliceRow>, lastYear: int): set<string> {
    set x | x in slice && x.year == lastYear && x.row.specialty.Some? :: x.row.specialty.value
  }

  /** The mask `df_slice['YEAR'] == last_year`, together with the rows
      `groupby` drops for having no specialty. */
  function IsReference(lastYear: int): SliceRow -> bool {
    (x: SliceRow) => x.year == lastYear && x.row.specialty.Some?
  }

  /** The (CLAIM_SPECIALTY, PAID_AMOUNT) entries of the window's rows of
      YEAR `lastYear`: one per such row, in order, carrying its amount. */
  function ReferenceEntries(slice: seq<SliceRow>, lastYear: int): (r: seq<(string, int)>)
    ensures |r| == |Filter(slice, IsReference(lastYear))|
    ensures forall i :: 0 <= i < |r| ==>
      var x := Filter(slice, IsReference(lastYear))[i];
      r[i] == (x.row.specialty.value, x.row.amount)
    ensures Elems(Keys(r)) == ReferenceSpecialties(slice, lastYear)
  {
    var sel := Filter(slice, IsReference(lastYear));
    var r := seq(|sel|, i requires 0 <= i < |sel| => (sel[i].row.specialty.value, sel[i].row.amount));
    assert Elems(Keys(r)) == ReferenceSpecialties(slice, lastYear) by {
      forall k | k in Elems(Keys(r)) ensures k in ReferenceSpecialties(slice, lastYear) {
        var i :| 0 <= i < |r| && Keys(r)[i] == k;
        assert sel[i] in sel;
      }
      forall k | k in ReferenceSpecialties(slice, lastYear) ensures k in Elems(Keys(r)) {
        var x :| x in slice && x.year == lastYear && x.row.specialty == Some(k);
        assert x in sel;
        var i :| 0 <= i < |sel| && sel[i] == x;
        assert Keys(r)[i] == k;
      }
    }
    r
  }

  /** `groupby(['CLAIM_SPECIALTY'])['PAID_AMOUNT'].sum()` on the rows of
      `lastYear`. */
  function SpecialtySums(slice: seq<SliceRow>, lastYear: int): (g: seq<(string, int)>)
    ensures DistinctKeys(g)
    ensures Elems(Keys(g)) == ReferenceSpecialties(slice, lastYear)
    ensures forall i :: 0 <= i < |g| ==> g[i].1 == SumOf(ReferenceEntries(slice, lastYear), g[i].0)
  {
    StrLessIsTotal();
    var g := GroupBySum(ReferenceEntries(slice, lastYear), StrLess);
    SortedKeysDistinct(g, StrLess);
    g
  }

  /** What the top list promises: at most ten distinct specialties of the
      reference year, each with its sum, largest first, and no specialty
      left out has a larger sum than any kept one. */
  ghost predicate IsTopList(t: seq<(string, int)>, slice: seq<SliceRow>, lastYear: int) {
    IsTopOf(t, ReferenceSpecialties(slice, lastYear), ReferenceEntries(slice, lastYear))
  }

  ghost predicate IsTopOf(t: seq<(string, int)>, ref: set<string>, entries: seq<(string, int)>) {
    && |t| == (if |ref| < TopCount then |ref| else TopCount)
    && DistinctKeys(t)
    && Descending(t)
    && (forall e :: e in t ==> e.0 in ref && e.1 == SumOf(entries, e.0))
    && (forall e, s :: e in t && s in ref && s !in Elems(Keys(t)) ==> e.1 >= SumOf(entries, s))
  }

  lemma TopOfSorted(g: seq<(string, int)>, ref: set<string>, entries: seq<(string, int)>, s: seq<(string, int)>)
    requires DistinctKeys(g) && Elems(Keys(g)) == ref
    requires forall i :: 0 <= i < |g| ==> g[i].1 == SumOf(entries, g[i].0)
    requires multiset(s) == multiset(g) && Descending(s)
    ensures IsTopOf(Take(s, TopCount), ref, entries)
  {
    var t := Take(s, TopCount);
    TopN(g, s, TopCount);
    assert NoDup(Keys(g));
    NoDupCard(Keys(g));
    assert |s| == |multiset(s)| == |multiset(g)| == |g| == |ref|;
    forall e | e in t ensures e.0 in ref && e.1 == SumOf(entries, e.0) {
      var i :| 0 <= i < |g| && g[i] == e;
      assert Keys(g)[i] in Elems(Keys(g));
    }
    forall e, q | e in t && q in ref && q !in Elems(Keys(t))
      ensures e.1 >= SumOf(entries, q)
    {
      var i :| 0 <= i < |g| && Keys(g)[i] == q;
      assert g[i] in g;
    }
  }

  /** Whatever order the sort gives to equal sums, the first ten entries
      form a top list. */
  lemma TopListAnyTieOrder(slice: seq<SliceRow>, lastYear: int, s: seq<(string, int)>)
    requires multiset(s) == multiset(SpecialtySums(slice, lastYear)) && Descending(s)
    ensures IsTopList(Take(s, TopCount), slice, lastYear)
  {
    TopOfSorted(SpecialtySums(slice, lastYear), ReferenceSpecialties(slice, lastYear), ReferenceEntries(slice, lastYear), s);
  }

  /** Line 93: sort by sum, descending, and keep the first ten. */
  function TopSpecialties(slice: seq<SliceRow>, lastYear: int): (t: seq<(string, int)>)
    ensures IsTopList(t, slice, lastYear)
  {
    var s := SortDesc(SpecialtySums(slice, lastYear));
    TopListAnyTieOrder(slice, lastYear, s);
    Take(s, TopCount)
  }

  // ---------------------------------------------------------------------
  // Lines 95-98: the comparison
  // ---------------------------------------------------------------------

  /** The (YEAR, CLAIM_SPECIALTY) pairs of the window's rows whose
      specialty is in `top`. A row without a specialty never qualifies:
      `top` comes out of a `groupby`, which dropped missing keys. */
  function ComparisonKeys(slice: seq<SliceRow>, top: seq<string>): set<(int, string)> {
    set x | x in slice && x.row.specialty.Some? && x.row.specialty.value in top :: (x.year, x.row.specialty.value)
  }

  /** The mask `df_slice['CLAIM_SPECIALTY'].isin(top)`. */
  function InTop(top: seq<string>): SliceRow -> bool {
    (x: SliceRow) => x.row.specialty.Some? && x.row.specialty.value in top
  }

  /** The ((YEAR, CLAIM_SPECIALTY), PAID_AMOUNT) entries of those rows: one
      per such row, in order, carrying its amount. */
  function ComparisonEntries(slice: seq<SliceRow>, top: seq<string>): (r: seq<((int, string), int)>)
    ensures |r| == |Filter(slice, InTop(top))|
    ensures forall i :: 0 <= i < |r| ==>
      var x := Filter(slice, InTop(top))[i];
      r[i] == ((x.year, x.row.specialty.value), x.row.amount)
    ensures Elems(Keys(r)) == ComparisonKeys(slice, top)
  {
    var sel := Filter(slice, InTop(top));
    var r := seq(|sel|, i requires 0 <= i < |sel| => ((sel[i].year, sel[i].row.specialty.value), sel[i].row.amount));
    assert Elems(Keys(r)) == ComparisonKeys(slice, top) by {
      forall k | k in Elems(Keys(r)) ensures k in ComparisonKeys(slice, top) {
        var i :| 0 <= i < |r| && Keys(r)[i] == k;
        assert sel[i] in sel;
      }
      forall k | k in ComparisonKeys(slice, top) ensures k in Elems(Keys(r)) {
        var x :| x in slice && x.row.specialty.Some? && x.row.specialty.value in top && (x.year, x.row.specialty.value) == k;
        assert x in sel;
        var i :| 0 <= i < |sel| && sel[i] == x;
        assert Keys(r)[i] == k;
      }
    }
    r
  }

  /** What the comparison promises: one entry per (year, specialty) pair
      that occurs among the kept rows, each the sum of those rows, largest
      first. */
  ghost predicate IsComparison(c: seq<((int, string), int)>, slice: seq<SliceRow>, top: seq<string>) {
    && DistinctKeys(c)
    && Descending(c)
    && Elems(Keys(c)) == ComparisonKeys(slice, top)
    && (forall e :: e in c ==> e.1 == SumOf(ComparisonEntries(slice, top), e.0))
  }

  /** `groupby(['YEAR', 'CLAIM_SPECIALTY'])['PAID_AMOUNT'].sum()` */
  function YearSpecialtySums(slice: seq<SliceRow>, top: seq<string>): (g: seq<((int, string), int)>)
    ensures DistinctKeys(g)
    ensures Elems(Keys(g)) == ComparisonKeys(slice, top)
    ensures forall i :: 0 <= i < |g| ==> g[i].1 == SumOf(ComparisonEntries(slice, top), g[i].0)
  {
    IntLessIsTotal();
    StrLessIsTotal();
    LexIsTotal(IntLess, StrLess);
    var g := GroupBySum(ComparisonEntries(slice, top), Lex(IntLess, StrLess));
    SortedKeysDistinct(g, Lex(IntLess, StrLess));
    g
  }

  lemma PermutedGroups<K>(g: seq<(K, int)>, keys: set<K>, entries: seq<(K, int)>, c: seq<(K, int)>)
    requires DistinctKeys(g) && Elems(Keys(g)) == keys
    requires forall i :: 0 <= i < |g| ==> g[i].1 == SumOf(entries, g[i].0)
    requires multiset(c) == multiset(g)
    ensures DistinctKeys(c) && Elems(Keys(c)) == keys
    ensures forall e :: e in c ==> e.1 == SumOf(entries, e.0)
  {
    PermutationDistinctKeys(g, c);
    forall e | e in c ensures e.1 == SumOf(entries, e.0) {
      assert e in multiset(g);
    }
    forall k | k in Elems(Keys(c)) ensures k in Elems(Keys(g)) {
      var i :| 0 <= i < |c| && Keys(c)[i] == k;
      assert c[i] in multiset(g);
      var j :| 0 <= j < |g| && g[j] == c[i];
      assert Keys(g)[j] == k;
    }
    forall k | k in Elems(Keys(g)) ensures k in Elems(Keys(c)) {
      var j :| 0 <= j < |g| && Keys(g)[j] == k;
      assert g[j] in multiset(c);
      var i :| 0 <= i < |c| && c[i] == g[j];
      assert Keys(c)[i] == k;
    }
  }

  /** Whatever order the sort gives to equal sums, the result is a
      comparison. */
  lemma ComparisonAnyTieOrder(slice: seq<SliceRow>, top: seq<string>, c: seq<((int, string), int)>)
    requires multiset(c) == multiset(YearSpecialtySums(slice, top)) && Descending(c)
    ensures IsComparison(c, slice, top)
  {
    PermutedGroups(YearSpecialtySums(slice, top), ComparisonKeys(slice, top), ComparisonEntries(slice, top), c);
  }

  /** Line 98: the grouped sums, sorted by sum, descending. */
  function Comparison(slice: seq<SliceRow>, top: seq<string>): (c: seq<((int, string), int)>)
    ensures IsComparison(c, slice, top)
  {
    var c := SortDesc(YearSpecialtySums(slice, top));
    ComparisonAnyTieOrder(slice, top, c);
    c
  }

  /** Lines 87-98 together. On an empty table, `apply` at line 88 calls
      its lambda on nothing and returns the empty column with its date
      type unchanged, and comparing that column with an int raises. */
  function PlotBar(rows: seq<Row>, lastYear: int, lastMonths: int): (r: Result<seq<((int, string), int)>, Error>)
    ensures r.Err? <==> rows == []
    ensures r.Err? ==> r.error == DateComparison
    ensures r.Ok? ==> IsComparison(r.value, Window(rows, lastYear, lastMonths), Keys(TopSpecialties(Window(rows, lastYear, lastMonths), lastYear)))
  {
    if rows == [] then Err(DateComparison)
    else
      var slice := Window(rows, lastYear, lastMonths);
      Ok(Comparison(slice, Keys(TopSpecialties(slice, lastYear))))
  }

  /** Every entry of the chart is for a specialty of the top list and a
      year of a row in the window, from `lastYear - 1` on. */
  lemma PlotBarKeys(rows: seq<Row>, lastYear: int, lastMonths: int)
    requires rows != []
    ensures forall e :: e in PlotBar(rows, lastYear, lastMonths).value ==>
      && e.0.1 in Elems(Keys(TopSpecialties(Window(rows, lastYear, lastMonths), lastYear)))
      && e.0.0 >= lastYear - 1
      && exists x :: x in Window(rows, lastYear, lastMonths) && x.year == e.0.0 && x.row.specialty == Some(e.0.1)
  {
    var slice := Window(rows, lastYear, lastMonths);
    var top := Keys(TopSpecialties(slice, lastYear));
    var c := PlotBar(rows, lastYear, lastMonths).value;
    forall e | e in c
      ensures e.0.1 in Elems(top) && e.0.0 >= lastYear - 1
      ensures exists x :: x in slice && x.year == e.0.0 && x.row.specialty == Some(e.0.1)
    {
      var i :| 0 <= i < |c| && c[i] == e;
      assert Keys(c)[i] in Elems(Keys(c));
    }
  }

  /** The dashboard's own call `plot_bar(data)` (dash/main.py, line 31):
      every bar is for a year from 2019 on, and stands for rows of that
      year and specialty dated no later than June. */
  lemma DefaultPlotBar(rows: seq<Row>)
    requires rows != []
    ensures forall e :: e in PlotBar(rows, DefaultLastYear, DefaultLastMonths).value ==>
      && e.0.0 >= 2019
      && exists x :: x in rows && x.month.year == e.0.0 && x.month.month <= 6 && x.specialty == Some(e.0.1)
  {
    var slice := Window(rows, DefaultLastYear, DefaultLastMonths);
    PlotBarKeys(rows, DefaultLastYear, DefaultLastMonths);
    forall e | e in PlotBar(rows, DefaultLastYear, DefaultLastMonths).value
      ensures exists x :: x in rows && x.month.year == e.0.0 && x.month.month <= 6 && x.specialty == Some(e.0.1)
    {
      var y :| y in slice && y.year == e.0.0 && y.row.specialty == Some(e.0.1);
      assert y.row in rows;
    }
  }

  /** On a non-empty table, a reference year without rows gives an empty
      top list and an empty chart, not an error. */
  lemma EmptyReferenceYear(rows: seq<Row>, lastYear: int, lastMonths: int)
    requires rows != []
    requires ReferenceSpecialties(Window(rows, lastYear, lastMonths), lastYear) == {}
    ensures TopSpecialties(Window(rows, lastYear, lastMonths), lastYear) == []
    ensures PlotBar(rows, lastYear, lastMonths) == Ok([])
  {
    var slice := Window(rows, lastYear, lastMonths);
    var c := PlotBar(rows, lastYear, lastMonths).value;
    assert ComparisonKeys(slice, []) == {};
    ElemsEmpty(Keys(c));
  }
}
