/** The rows of the claims sheet. Columns the dashboard does not read are
    left out; MONTH, PAYER, CLAIM_SPECIALTY and PAID_AMOUNT are kept. */
module Claims {
  import opened Wrappers
  import opened Months

  /** A row as loaded: MONTH is still the integer code YYYYMM. The
      specialty is `None` for any cell that is not a string (an empty cell,
      which pandas reads as NaN, or a number). */
  datatype RawRow = RawRow(code: int, payer: string, specialty: Option<string>, amount: int)

  /** A row after preprocessing: MONTH is a first-of-month date, held as
      its (year, month) pair, and the specialty has been normalised.
      Amounts are signed: refunds are negative. */
  datatype Row = Row(month: YearMonth, payer: string, specialty: Option<string>, amount: int)

  datatype Error =
    | InvalidPeriod(code: int)  // pandas' to_datetime rejects a MONTH code
    | NoPeriods                 // `periods[-1]` on an empty table
    | PredictShape(params: int, columns: int)
      // `results.predict` given rows of `columns` values for a fit of `params` parameters
    | DateComparison
      // an empty MONTH column, still of date type after `apply`, compared with an int
}
