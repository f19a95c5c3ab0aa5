/** Calendar dates as the program stores them (`datetime` values at midnight),
    their ordering, and `datetime.strptime(s, "%Y-%m-%d")`, which the diary
    sync uses to turn a scraped date string back into a date. */
module Dates {
  import opened Wrappers
  import opened Text

  datatype Date = Date(year: int, month: int, day: int)

  /** `datetime.min`, the key a missing date sorts under. */
  const MinDate := Date(1, 1, 1)

  /** Python's `a < b` on datetimes: year, then month, then day. */
  predicate Before(a: Date, b: Date) {
    || a.year < b.year
    || (a.year == b.year && a.month < b.month)
    || (a.year == b.year && a.month == b.month && a.day < b.day)
  }

  predicate NotAfter(a: Date, b: Date) {
    !Before(b, a)
  }

  predicate IsLeapYear(y: int) {
    y % 4 == 0 && (y % 100 != 0 || y % 400 == 0)
  }

  function DaysInMonth(y: int, m: int): (n: int)
    requires 1 <= m <= 12
    ensures 28 <= n <= 31
  {
    if m == 2 then (if IsLeapYear(y) then 29 else 28)
    else if m == 4 || m == 6 || m == 9 || m == 11 then 30
    else 31
  }

  /** The dates `datetime(year, month, day)` accepts. */
  predicate IsValid(d: Date) {
    1 <= d.year <= 9999 && 1 <= d.month <= 12 && 1 <= d.day <= DaysInMonth(d.year, d.month)
  }

  // ---------------------------------------------------------------------------
  // strptime(s, "%Y-%m-%d")
  //
  // The format compiles to the regular expression
  //   (\d\d\d\d)-(1[0-2]|0[1-9]|[1-9])-(3[01]|[12]\d|0[1-9]|[1-9]| [1-9])
  // which is matched at the start of the string; text left over after the
  // match is an error, and so is a date `datetime` rejects. For this pattern
  // the first alternative that matches is also the only one that can lead to
  // a full match, so the fields below are parsed without backtracking.
  // ---------------------------------------------------------------------------

  /** `\d\d\d\d-`: the year and the text after its dash. */
  function ParseYearField(s: string): (r: Option<(int, string)>)
    ensures r.Some? ==> 0 <= r.value.0 <= 9999 && 5 <= |s| && r.value.1 == s[5..]
  {
    if |s| >= 5 && AllDigits(s[..4]) && s[4] == '-' then
      var y := DigitsValue(s[..4]);
      assert y <= 9999 by {
        DigitsValueBound(s[..4]);
        assert Pow10(4) == 10000;
      }
      Some((y, s[5..]))
    else None
  }

  /** `(1[0-2]|0[1-9]|[1-9])-`: the month and the text after its dash. */
  function ParseMonthField(t: string): (r: Option<(int, string)>)
    ensures r.Some? ==> 1 <= r.value.0 <= 12
  {
    if |t| >= 2 && t[0] == '1' && '0' <= t[1] <= '2' then
      // falling back to `[1-9]` would need t[1] == '-'
      if |t| >= 3 && t[2] == '-' then Some((10 + DigitValue(t[1]), t[3..])) else None
    else if |t| >= 2 && t[0] == '0' && '1' <= t[1] <= '9' then
      if |t| >= 3 && t[2] == '-' then Some((DigitValue(t[1]), t[3..])) else None
    else if |t| >= 1 && '1' <= t[0] <= '9' then
      if |t| >= 2 && t[1] == '-' then Some((DigitValue(t[0]), t[2..])) else None
    else None
  }

  /** `(3[01]|[12]\d|0[1-9]|[1-9]| [1-9])` followed by the end of the string. */
  function ParseDayField(t: string): (r: Option<int>)
    ensures r.Some? ==> 1 <= r.value <= 31
  {
    if |t| == 2 && t[0] == '3' && (t[1] == '0' || t[1] == '1') then Some(30 + DigitValue(t[1]))
    else if |t| == 2 && (t[0] == '1' || t[0] == '2') && IsDigit(t[1]) then
      Some(10 * DigitValue(t[0]) + DigitValue(t[1]))
    else if |t| == 2 && (t[0] == '0' || t[0] == ' ') && '1' <= t[1] <= '9' then Some(DigitValue(t[1]))
    else if |t| == 1 && '1' <= t[0] <= '9' then Some(DigitValue(t[0]))
    else None
  }

  /** `datetime.strptime(s, "%Y-%m-%d")`, with None for the ValueError. */
  function ParseIsoDate(s: string): (r: Option<Date>)
    ensures r.Some? ==> IsValid(r.value)
  {
    match ParseYearField(s)
    case None => None
    case Some((y, afterYear)) =>
      match ParseMonthField(afterYear)
      case None => None
      case Some((m, afterMonth)) =>
        match ParseDayField(afterMonth)
        case None => None
        case Some(d) =>
          if 1 <= y && d <= DaysInMonth(y, m) then Some(Date(y, m, d)) else None
  }

  // ---------------------------------------------------------------------------
  // The fields read back what `f"{y}-{m:02d}-{d:02d}"` writes
  // ---------------------------------------------------------------------------

  /** The year field accepts `str(y)` exactly when it has four digits. */
  lemma YearFieldReadsBack(y: int, rest: string)
    ensures ParseYearField(IntToString(y) + "-" + rest)
         == (if 1000 <= y <= 9999 then Some((y, rest)) else None)
  {
    var s := IntToString(y) + "-" + rest;
    if y < 0 {
      assert s[0] == '-';
      assert |s| >= 5 ==> !AllDigits(s[..4]);
    } else {
      var ys := NatToString(y);
      FourDigits(y);
      if |ys| <= 3 {
        assert s[|ys|] == '-';
        assert |s| >= 5 ==> s[..4][|ys|] == '-';
      } else if |ys| == 4 {
        assert s[..4] == ys;
        assert s[4] == '-';
        assert s[5..] == rest;
        NatToStringRoundTrip(y);
      } else {
        assert s[4] == ys[4];
      }
    }
  }

  /** The month field accepts `f"{m:02d}"` exactly when m is a month number. */
  lemma MonthFieldReadsBack(m: int, rest: string)
    ensures ParseMonthField(Pad2(m) + "-" + rest)
         == (if 1 <= m <= 12 then Some((m, rest)) else None)
  {
    var t := Pad2(m) + "-" + rest;
    if m < 0 {
      assert t[0] == '-';
    } else if m < 10 {
      assert NatToString(m) == [DigitChar(m)];
      assert t[0] == '0' && t[1] == DigitChar(m) && t[2] == '-';
      assert t[3..] == rest;
    } else if m < 100 {
      assert NatToString(m) == [DigitChar(m / 10), DigitChar(m % 10)];
      assert t[0] == DigitChar(m / 10) && t[1] == DigitChar(m % 10) && t[2] == '-';
      assert t[3..] == rest;
    } else {
      NatToStringLength(m, 2);
      assert Pow10(2) == 100;
      var ms := NatToString(m);
      assert |ms| >= 3;
      assert t[0] == ms[0] && t[1] == ms[1] && t[2] == ms[2];
    }
  }

  /** The day field accepts `f"{d:02d}"` exactly when 1 <= d <= 31. */
  lemma DayFieldReadsBack(d: int)
    ensures ParseDayField(Pad2(d)) == (if 1 <= d <= 31 then Some(d) else None)
  {
    var t := Pad2(d);
    if d < 0 {
      assert t[0] == '-';
    } else if d < 10 {
      assert NatToString(d) == [DigitChar(d)];
      assert t == ['0', DigitChar(d)];
    } else if d < 100 {
      assert NatToString(d) == [DigitChar(d / 10), DigitChar(d % 10)];
    } else {
      NatToStringLength(d, 2);
      assert Pow10(2) == 100;
    }
  }
}
