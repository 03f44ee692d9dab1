/** The module-level clean-up of the loaded sheet (dash/main.py, lines
    20-24): drop two known-bad periods, upper-case specialty labels, and
    turn the integer MONTH codes into first-of-month dates. */
module Preprocessing {
  import opened Wrappers
  import opened Months
  import opened Grouping
  import opened Claims

  // ---------------------------------------------------------------------
  // Line 20: the period blacklist
  // ---------------------------------------------------------------------

  /** The two MONTH codes the dashboard treats as bad data. */
  const Blacklist: set<int> := {201900, 202007}

  predicate NotBlacklisted(r: RawRow) {
    r.code !in Blacklist
  }

  /** `data[~data['MONTH'].isin([201900, 202007])]` */
  function DropBlacklisted(rows: seq<RawRow>): (r: seq<RawRow>)
    ensures forall x :: x in r <==> x in rows && x.code !in Blacklist
    ensures (forall i :: 0 <= i < |rows| ==> rows[i].code !in Blacklist) ==> r == rows
  {
    FilterAll(rows, NotBlacklisted);
    Filter(rows, NotBlacklisted)
  }

  /** Every row with another code is kept as often as it occurs; no
      blacklisted row survives. */
  lemma DropBlacklistedCount(rows: seq<RawRow>, x: RawRow)
    ensures multiset(DropBlacklisted(rows))[x] == if x.code in Blacklist then 0 else multiset(rows)[x]
  {
    FilterCount(rows, NotBlacklisted, x);
  }

  /** The filter keeps the original row order: it acts on each part of the
      sheet separately. */
  lemma DropBlacklistedKeepsOrder(a: seq<RawRow>, b: seq<RawRow>)
    ensures DropBlacklisted(a + b) == DropBlacklisted(a) + DropBlacklisted(b)
  {
    FilterConcat(a, b, NotBlacklisted);
  }

  // ---------------------------------------------------------------------
  // Lines 22-23: CLAIM_SPECIALTY normalisation
  // ---------------------------------------------------------------------

  predicate IsLower(c: char) {
    'a' <= c <= 'z'
  }

  /** `str.upper()` on one character, for ASCII letters. */
  function UpperChar(c: char): (u: char)
    ensures !IsLower(u)
    ensures IsLower(c) ==> u as int == c as int - 32
    ensures !IsLower(c) ==> u == c
  {
    if IsLower(c) then (c as int - 32) as char else c
  }

  function Upper(s: string): (r: string)
    ensures |r| == |s| && forall i :: 0 <= i < |s| ==> r[i] == UpperChar(s[i])
  {
    seq(|s|, i requires 0 <= i < |s| => UpperChar(s[i]))
  }

  /** `lambda x: x.upper() if isinstance(x, str) else float('nan')` */
  function NormalizeSpecialty(c: Option<string>): (r: Option<string>)
    ensures r.Some? <==> c.Some?
    ensures r.Some? ==> forall i :: 0 <= i < |r.value| ==> !IsLower(r.value[i])
    ensures r.Some? ==> |r.value| == |c.value|
    ensures c.Some? ==> r == Some(Upper(c.value))
  {
    match c
    case Some(s) => Some(Upper(s))
    case None => None
  }

  /** Upper-casing an upper-case label changes nothing. */
  lemma NormalizeSpecialtyIdempotent(c: Option<string>)
    ensures NormalizeSpecialty(NormalizeSpecialty(c)) == NormalizeSpecialty(c)
  {
    if c.Some? {
      assert Upper(Upper(c.value)) == Upper(c.value);
    }
  }

  /** Two characters that are the same letter in either case, or equal. */
  predicate SameLetter(c: char, d: char) {
    c == d
    || (IsLower(c) && d as int == c as int - 32)
    || (IsLower(d) && c as int == d as int - 32)
  }

  /** Equal up to the case of ASCII letters. */
  predicate SameIgnoringCase(a: string, b: string) {
    |a| == |b| && forall i :: 0 <= i < |a| ==> SameLetter(a[i], b[i])
  }

  /** Two labels end up the same exactly when they differ only in letter
      case: this is what merges "Cardiology" with "CARDIOLOGY". */
  lemma NormalizeMergesCaseVariants(a: string, b: string)
    ensures NormalizeSpecialty(Some(a)) == NormalizeSpecialty(Some(b)) <==> SameIgnoringCase(a, b)
  {
    if SameIgnoringCase(a, b) {
      assert Upper(a) == Upper(b) by {
        forall i | 0 <= i < |a| ensures UpperChar(a[i]) == UpperChar(b[i]) {
          assert SameLetter(a[i], b[i]);
        }
      }
    }
    if Upper(a) == Upper(b) {
      forall i | 0 <= i < |a| ensures SameLetter(a[i], b[i]) {
        assert UpperChar(a[i]) == Upper(a)[i] == Upper(b)[i] == UpperChar(b[i]);
      }
    }
  }

  /** `data['CLAIM_SPECIALTY'] = data['CLAIM_SPECIALTY'].apply(...)` */
  function NormalizeSpecialties(rows: seq<RawRow>): (r: seq<RawRow>)
    ensures |r| == |rows|
    ensures forall i :: 0 <= i < |rows| ==>
      r[i] == rows[i].(specialty := NormalizeSpecialty(rows[i].specialty))
  {
    seq(|rows|, i requires 0 <= i < |rows| => rows[i].(specialty := NormalizeSpecialty(rows[i].specialty)))
  }

  lemma NormalizeSpecialtiesIdempotent(rows: seq<RawRow>)
    ensures NormalizeSpecialties(NormalizeSpecialties(rows)) == NormalizeSpecialties(rows)
  {
    forall i | 0 <= i < |rows| ensures NormalizeSpecialties(NormalizeSpecialties(rows))[i] == NormalizeSpecialties(rows)[i] {
      NormalizeSpecialtyIdempotent(rows[i].specialty);
    }
  }

  /** The distinct string labels of a sheet. */
  function Labels(rows: seq<RawRow>): set<string> {
    set r | r in rows && r.specialty.Some? :: r.specialty.value
  }

  lemma {:induction false} ImageNoLarger(s: set<string>)
    ensures |set x | x in s :: Upper(x)| <= |s|
  {
    if s != {} {
      var x :| x in s;
      ImageNoLarger(s - {x});
      assert (set y | y in s :: Upper(y)) == (set y | y in s - {x} :: Upper(y)) + {Upper(x)};
    }
  }

  /** Normalisation never increases the number of distinct labels. */
  lemma NormalizeReducesLabels(rows: seq<RawRow>)
    ensures |Labels(NormalizeSpecialties(rows))| <= |Labels(rows)|
  {
    var n := NormalizeSpecialties(rows);
    assert Labels(n) == set x | x in Labels(rows) :: Upper(x) by {
      forall l | l in Labels(n) ensures l in set x | x in Labels(rows) :: Upper(x) {
        var i :| 0 <= i < |n| && n[i].specialty == Some(l);
        assert rows[i] in rows;
      }
      forall l | l in Labels(rows) ensures Upper(l) in Labels(n) {
        var i :| 0 <= i < |rows| && rows[i].specialty == Some(l);
        assert n[i] in n;
      }
    }
    ImageNoLarger(Labels(rows));
  }

  // ---------------------------------------------------------------------
  // Line 24: pd.to_datetime(data['MONTH'], format='%Y%m')
  // ---------------------------------------------------------------------

  /** The first and last month whose first day pandas' nanosecond
      timestamps can hold (they span 1677-09-21 to 2262-04-11). */
  const FirstCode: int := 167710
  const LastCode: int := 226204

  /** A six-digit code whose last two digits are a month of the year, and
      whose first day is within the timestamp range. */
  predicate ValidCode(code: int) {
    FirstCode <= code <= LastCode && 1 <= code % 100 <= 12
  }

  /** The integer code of a month, as the sheet writes it. */
  function Code(m: YearMonth): int {
    m.year * 100 + m.month
  }

  /** Parse YYYYMM into the first of that month, or reject the code. */
  function ParseMonth(code: int): (r: Result<YearMonth, Error>)
    ensures r.Ok? <==> ValidCode(code)
    ensures r.Ok? ==> Valid(r.value) && Code(r.value) == code && 1677 <= r.value.year <= 2262
    ensures r.Err? ==> r.error == InvalidPeriod(code)
  {
    if ValidCode(code) then Ok(YearMonth(code / 100, code % 100)) else Err(InvalidPeriod(code))
  }

  /** Every real month from October 1677 to April 2262 parses back from
      its code. */
  lemma ParseMonthRoundTrip(m: YearMonth)
    requires Valid(m) && FirstCode <= Code(m) <= LastCode
    ensures ParseMonth(Code(m)) == Ok(m)
  {
  }

  /** Codes of well-formed months outside the timestamp range are rejected,
      as pandas rejects them as out of bounds. */
  lemma OutOfBoundsRejected()
    ensures ParseMonth(100001).Err? && ParseMonth(999912).Err?
    ensures ParseMonth(167709).Err? && ParseMonth(167710).Ok?
    ensures ParseMonth(226204).Ok? && ParseMonth(226205).Err?
  {
  }

  /** The whole MONTH column: fails on the first code that does not parse. */
  function ParseMonths(rows: seq<RawRow>): (r: Result<seq<Row>, Error>)
    ensures r.Ok? <==> forall i :: 0 <= i < |rows| ==> ValidCode(rows[i].code)
    ensures r.Ok? ==> |r.value| == |rows| && forall i :: 0 <= i < |rows| ==>
      && Valid(r.value[i].month) && Code(r.value[i].month) == rows[i].code
      && r.value[i].payer == rows[i].payer
      && r.value[i].specialty == rows[i].specialty
      && r.value[i].amount == rows[i].amount
    ensures r.Err? ==> exists i :: (0 <= i < |rows| && !ValidCode(rows[i].code)
                                    && r.error == InvalidPeriod(rows[i].code)
                                    && forall j :: 0 <= j < i ==> ValidCode(rows[j].code))
  {
    if rows == [] then Ok([])
    else
      var x := rows[0];
      match ParseMonth(x.code)
      case Err(e) => Err(e)
      case Ok(m) =>
        match ParseMonths(rows[1..])
        case Err(e) =>
          var i :| 0 <= i < |rows[1..]| && !ValidCode(rows[1..][i].code)
            && e == InvalidPeriod(rows[1..][i].code)
            && forall j :: 0 <= j < i ==> ValidCode(rows[1..][j].code);
          assert !ValidCode(rows[i + 1].code) && forall j :: 0 <= j < i + 1 ==> ValidCode(rows[j].code);
          Err(e)
        case Ok(tail) =>
          Ok([Row(m, x.payer, x.specialty, x.amount)] + tail)
  }

  /** Lines 20-24 in order: blacklist, then labels, then dates. */
  function Preprocess(rows: seq<RawRow>): (r: Result<seq<Row>, Error>)
    ensures r.Ok? <==> forall x :: x in rows && x.code !in Blacklist ==> ValidCode(x.code)
    ensures r.Ok? ==> |r.value| == |DropBlacklisted(rows)|
    ensures r.Ok? ==> forall i :: 0 <= i < |r.value| ==>
      var x := DropBlacklisted(rows)[i];
      && Valid(r.value[i].month) && Code(r.value[i].month) == x.code
      && r.value[i].payer == x.payer
      && r.value[i].specialty == NormalizeSpecialty(x.specialty)
      && r.value[i].amount == x.amount
  {
    var kept := DropBlacklisted(rows);
    var r := ParseMonths(NormalizeSpecialties(kept));
    assert (forall i :: 0 <= i < |kept| ==> ValidCode(kept[i].code))
      <==> (forall x :: x in rows && x.code !in Blacklist ==> ValidCode(x.code));
    r
  }

  /** The blacklist is applied before parsing, so the malformed code 201900
      (month 00) never reaches the parser: a sheet whose only bad code is
      201900 is accepted, although the code itself does not parse. */
  lemma BlacklistShieldsParser(rows: seq<RawRow>)
    requires forall x :: x in rows ==> ValidCode(x.code) || x.code == 201900
    ensures ParseMonth(201900).Err?
    ensures Preprocess(rows).Ok?
  {
  }
}
