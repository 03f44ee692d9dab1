/** Calendar months as (year, month-of-year) pairs, standing for the
    first-of-month dates the dashboard works with. */
module Months {

  datatype YearMonth = YearMonth(year: int, month: int)

  /** A real calendar month: month-of-year between 1 and 12. */
  predicate Valid(m: YearMonth) {
    1 <= m.month <= 12
  }

  /** Chronological order: earlier year, or same year and earlier month. */
  predicate MonthLess(a: YearMonth, b: YearMonth) {
    a.year < b.year || (a.year == b.year && a.month < b.month)
  }

  /** The month after `m`; December rolls over into January of the next year. */
  function Next(m: YearMonth): (r: YearMonth)
    requires Valid(m)
    ensures Valid(r) && MonthLess(m, r)
    ensures m.month < 12 ==> r.year == m.year && r.month == m.month + 1
    ensures m.month == 12 ==> r.year == m.year + 1 && r.month == 1
  {
    if m.month == 12 then YearMonth(m.year + 1, 1) else YearMonth(m.year, m.month + 1)
  }

  /** `m` moved `k` calendar months forward (a month offset of `k`). */
  function AddMonths(m: YearMonth, k: nat): (r: YearMonth)
    requires Valid(m)
    ensures Valid(r)
  {
    if k == 0 then m else Next(AddMonths(m, k - 1))
  }

  /** Up to a year ahead, a month offset stays in the same year while the
      month-of-year does not pass 12 and otherwise rolls over once. */
  lemma {:induction false} AddMonthsWithinYear(m: YearMonth, k: nat)
    requires Valid(m) && k <= 12
    ensures m.month + k <= 12 ==> AddMonths(m, k) == YearMonth(m.year, m.month + k)
    ensures m.month + k > 12 ==> AddMonths(m, k) == YearMonth(m.year + 1, m.month + k - 12)
  {
    if k > 0 {
      AddMonthsWithinYear(m, k - 1);
    }
  }

  /** Offsets are strictly increasing: a larger offset gives a later month. */
  lemma {:induction false} AddMonthsIncreasing(m: YearMonth, j: nat, k: nat)
    requires Valid(m) && j < k
    ensures MonthLess(AddMonths(m, j), AddMonths(m, k))
  {
    if j < k - 1 {
      AddMonthsIncreasing(m, j, k - 1);
    }
  }
}
