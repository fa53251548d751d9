/**
 * `_parse_date` (Task2/order_processor.py): `datetime.strptime(s, "%Y-%m-%d")`.
 * The year is exactly four digits; the month is `1[0-2]`, `0[1-9]` or a
 * single digit `[1-9]`; the day is `3[01]`, `[12]d`, `0[1-9]`, `[1-9]` or a
 * space and `[1-9]`; the whole string must be consumed; and the result must
 * be a real calendar day in a year from 1 on.
 */
module OrderDates {
  import opened Wrappers
  import opened Numerals
  import opened PyStr

  datatype Date = Date(year: nat, month: nat, day: nat)

  predicate IsLeap(year: nat)
  {
    year % 4 == 0 && (year % 100 != 0 || year % 400 == 0)
  }

  function DaysInMonth(year: nat, month: nat): nat
    requires 1 <= month <= 12
  {
    if month == 2 then (if IsLeap(year) then 29 else 28)
    else if month == 4 || month == 6 || month == 9 || month == 11 then 30
    else 31
  }

  /** A day `datetime` can represent: years 1 to 9999, a real month and a real day of it. */
  predicate IsCalendarDate(d: Date)
  {
    1 <= d.year <= 9999 && 1 <= d.month <= 12 && 1 <= d.day <= DaysInMonth(d.year, d.month)
  }

  predicate InRange(c: char, lo: char, hi: char)
  {
    lo <= c <= hi
  }

  /** The `%m` field: `1[0-2]`, `0[1-9]` or `[1-9]`. */
  function MonthField(t: string): (r: Option<nat>)
    ensures r.Some? ==> 1 <= r.value <= 12
  {
    if |t| == 1 && InRange(t[0], '1', '9') then Some(DigitValue(t[0]))
    else if |t| == 2 && t[0] == '1' && InRange(t[1], '0', '2') then Some(10 + DigitValue(t[1]))
    else if |t| == 2 && t[0] == '0' && InRange(t[1], '1', '9') then Some(DigitValue(t[1]))
    else None
  }

  /** The `%d` field: `3[01]`, `[12]d`, `0[1-9]`, `[1-9]` or a space and `[1-9]`. */
  function DayField(t: string): (r: Option<nat>)
    ensures r.Some? ==> 1 <= r.value <= 31
  {
    if |t| == 1 && InRange(t[0], '1', '9') then Some(DigitValue(t[0]))
    else if |t| == 2 && t[0] == '3' && InRange(t[1], '0', '1') then Some(30 + DigitValue(t[1]))
    else if |t| == 2 && InRange(t[0], '1', '2') && IsDigit(t[1]) then Some(10 * DigitValue(t[0]) + DigitValue(t[1]))
    else if |t| == 2 && (t[0] == '0' || t[0] == ' ') && InRange(t[1], '1', '9') then Some(DigitValue(t[1]))
    else None
  }

  /**
   * `_parse_date`: None where `strptime` raises `ValueError`. Every date
   * it returns is a calendar date.
   */
  function ParseDate(s: string): (r: Option<Date>)
    ensures r.Some? ==> IsCalendarDate(r.value)
  {
    if |s| < 5 || !AllDigits(s[..4]) || s[4] != '-' then None
    else
      var rest := s[5..];
      var dash := Find(rest, '-');
      if dash == |rest| then None
      else FieldsToDate(DigitsValue(s[..4]), MonthField(rest[..dash]), DayField(rest[dash + 1..]))
  }

  /** The checks `strptime` makes once the fields are read: a year from 1 on and a day the month has. */
  function FieldsToDate(year: nat, month: Option<nat>, day: Option<nat>): (r: Option<Date>)
    ensures r.Some? ==> IsCalendarDate(r.value)
  {
    match (month, day)
    case (Some(m), Some(d)) =>
      if 1 <= year <= 9999 && 1 <= m <= 12 && 1 <= d <= DaysInMonth(year, m) then Some(Date(year, m, d)) else None
    case _ => None
  }

  /** A string of the shape `YYYY-<month>-<day>` is read field by field. */
  lemma ParseDateFields(y: string, m: string, d: string)
    requires |y| == 4 && AllDigits(y) && '-' !in m
    ensures ParseDate(y + "-" + m + "-" + d) == FieldsToDate(DigitsValue(y), MonthField(m), DayField(d))
  {
    var rest := m + "-" + d;
    var s := y + "-" + m + "-" + d;
    assert s == y + ("-" + rest);
    assert s[..4] == y && s[4] == '-' && s[5..] == rest;
    FindAfterFree(m, '-', d);
    assert rest[..|m|] == m && rest[|m| + 1..] == d;
  }

  /** The value of a two-digit string. */
  lemma TwoDigits(t: string)
    requires |t| == 2 && AllDigits(t)
    ensures DigitsValue(t) == 10 * DigitValue(t[0]) + DigitValue(t[1])
  {
    assert t[..1][..0] == [];
  }

  /** A zero-padded month reads back as itself. */
  lemma MonthFieldPadded(t: string)
    requires |t| == 2 && AllDigits(t) && 1 <= DigitsValue(t) <= 12
    ensures MonthField(t) == Some(DigitsValue(t))
  {
    TwoDigits(t);
  }

  /** A zero-padded day reads back as itself. */
  lemma DayFieldPadded(t: string)
    requires |t| == 2 && AllDigits(t) && 1 <= DigitsValue(t) <= 31
    ensures DayField(t) == Some(DigitsValue(t))
  {
    TwoDigits(t);
  }

  /** `YYYY-MM-DD` with zero padding, the form `date.isoformat()` writes. */
  function FormatDate(d: Date): (s: string)
    requires IsCalendarDate(d)
    ensures |s| == 10 && s[4] == '-' && s[7] == '-'
  {
    assert Pow10(4) == 10000 && Pow10(2) == 100 by {
      assert Pow10(4) == 10 * Pow10(3) == 100 * Pow10(2) == 1000 * Pow10(1);
    }
    Padded(d.year, 4) + "-" + Padded(d.month, 2) + "-" + Padded(d.day, 2)
  }

  /** Every calendar date reads back from its ISO form. */
  lemma DateRoundTrip(d: Date)
    requires IsCalendarDate(d)
    ensures ParseDate(FormatDate(d)) == Some(d)
  {
    var y, m, dd := Padded(d.year, 4), Padded(d.month, 2), Padded(d.day, 2);
    NoDashInDigits(m);
    ParseDateFields(y, m, dd);
    MonthFieldPadded(m);
    DayFieldPadded(dd);
  }

  /** The ISO form is digits and dashes, with a digit at each end. */
  lemma FormatDatePlain(d: Date)
    requires IsCalendarDate(d)
    ensures var s := FormatDate(d);
      IsDigit(s[0]) && IsDigit(s[9]) && forall i :: 0 <= i < |s| ==> IsDigit(s[i]) || s[i] == '-'
  {
    var y, m, dd := Padded(d.year, 4), Padded(d.month, 2), Padded(d.day, 2);
    var s := FormatDate(d);
    assert s == y + "-" + m + "-" + dd;
    assert forall i :: 0 <= i < 4 ==> s[i] == y[i];
    assert forall i :: 5 <= i < 7 ==> s[i] == m[i - 5];
    assert forall i :: 8 <= i < 10 ==> s[i] == dd[i - 8];
  }

  lemma NoDashInDigits(s: string)
    requires AllDigits(s)
    ensures '-' !in s
  {
  }

  /** The value of a four-digit year. */
  lemma FourDigits(t: string)
    requires |t| == 4 && AllDigits(t)
    ensures DigitsValue(t) == 1000 * DigitValue(t[0]) + 100 * DigitValue(t[1]) + 10 * DigitValue(t[2]) + DigitValue(t[3])
  {
    assert DigitsValue(t) == DigitsValue(t[..3]) * 10 + DigitValue(t[3]);
    assert t[..3][..2] == t[..2] && t[..3][2] == t[2];
    assert DigitsValue(t[..3]) == DigitsValue(t[..2]) * 10 + DigitValue(t[2]);
    assert t[..2][..1] == t[..1] && t[..2][1] == t[1];
    assert DigitsValue(t[..2]) == DigitsValue(t[..1]) * 10 + DigitValue(t[1]);
    assert t[..1][..0] == [] && t[..1][0] == t[0];
    assert DigitsValue(t[..1]) == DigitValue(t[0]);
  }

  /** Single-digit months and days are accepted, although they are not ISO 8601. */
  lemma ShortFieldsAccepted()
    ensures ParseDate("2024-3-5") == Some(Date(2024, 3, 5))
  {
    assert "2024-3-5" == "2024" + "-" + "3" + "-" + "5";
    ParseDateFields("2024", "3", "5");
    FourDigits("2024");
    assert DigitsValue("2024") == 2024;
    assert MonthField("3") == Some(3);
    assert DayField("5") == Some(5);
  }

  /** A day the month does not have is refused: 2023 is not a leap year. */
  lemma ImpossibleDayRefused()
    ensures ParseDate("2023-02-29") == None
  {
    assert "2023-02-29" == "2023" + "-" + "02" + "-" + "29";
    ParseDateFields("2023", "02", "29");
    FourDigits("2023");
    assert DigitsValue("2023") == 2023;
    assert !IsLeap(2023) && DaysInMonth(2023, 2) == 28;
    assert MonthField("02") == Some(2);
    assert DayField("29") == Some(29);
  }

  /** A 29th of February is accepted in a leap year. */
  lemma LeapDayAccepted()
    ensures ParseDate("2024-02-29") == Some(Date(2024, 2, 29))
  {
    assert "2024-02-29" == "2024" + "-" + "02" + "-" + "29";
    ParseDateFields("2024", "02", "29");
    FourDigits("2024");
    assert DigitsValue("2024") == 2024;
    assert MonthField("02") == Some(2);
    assert DayField("29") == Some(29);
  }
}
