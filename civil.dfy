/**
 * Proleptic Gregorian calendar dates, standing in for Python's `datetime`,
 * `timedelta(days=n)`, `calendar.monthrange` and `strptime(s, '%Y-%m-%d')`.
 * Dates are compared chronologically, as `datetime` objects are.
 */
module Civil {
  import opened Wrappers
  import opened Text

  datatype Date = Date(year: int, month: int, day: int)

  /** The Gregorian leap-year rule. */
  predicate IsLeap(y: int) {
    y % 4 == 0 && (y % 100 != 0 || y % 400 == 0)
  }

  /** `calendar.monthrange(y, m)[1]`. */
  function DaysInMonth(y: int, m: int): (r: int)
    requires 1 <= m <= 12
    ensures 28 <= r <= 31
    ensures m == 2 ==> (r == 29 <==> IsLeap(y))
  {
    if m == 2 then (if IsLeap(y) then 29 else 28)
    else if m == 4 || m == 6 || m == 9 || m == 11 then 30
    else 31
  }

  /** A date `datetime` can represent (the upper year limit 9999 is not modelled). */
  predicate Valid(d: Date) {
    1 <= d.year && 1 <= d.month <= 12 && 1 <= d.day <= DaysInMonth(d.year, d.month)
  }

  /** Chronological order. */
  predicate Before(a: Date, b: Date) {
    a.year < b.year
    || (a.year == b.year && a.month < b.month)
    || (a.year == b.year && a.month == b.month && a.day < b.day)
  }

  predicate NotAfter(a: Date, b: Date) {
    a == b || Before(a, b)
  }

  /** The last day of the date's month. */
  function LastOfMonth(d: Date): Date
    requires Valid(d)
  {
    Date(d.year, d.month, DaysInMonth(d.year, d.month))
  }

  /** `d + timedelta(days=1)`. */
  function NextDay(d: Date): (r: Date)
    requires Valid(d)
    ensures Valid(r) && Before(d, r)
  {
    if d.day < DaysInMonth(d.year, d.month) then Date(d.year, d.month, d.day + 1)
    else if d.month < 12 then Date(d.year, d.month + 1, 1)
    else Date(d.year + 1, 1, 1)
  }

  /** `d + timedelta(days=n)`. */
  function AddDays(d: Date, n: nat): (r: Date)
    requires Valid(d)
    ensures Valid(r)
    decreases n
  {
    if n == 0 then d else AddDays(NextDay(d), n - 1)
  }

  /** Days in all years before `y`. */
  function DaysBeforeYear(y: int): int
    requires 1 <= y
  {
    var p := y - 1;
    365 * p + p / 4 - p / 100 + p / 400
  }

  /** Days in the months of year `y` before month `m`. */
  function DaysBeforeMonth(y: int, m: int): (r: int)
    requires 1 <= m <= 12
    ensures r >= 0
  {
    if m == 1 then 0 else DaysBeforeMonth(y, m - 1) + DaysInMonth(y, m - 1)
  }

  /** The date's day number, counted from 1 January of year 1 (`date.toordinal()`). */
  function Ordinal(d: Date): int
    requires Valid(d)
  {
    DaysBeforeYear(d.year) + DaysBeforeMonth(d.year, d.month) + d.day
  }

  lemma DivStep4(y: int)
    ensures y / 4 - (y - 1) / 4 == if y % 4 == 0 then 1 else 0
  {
  }

  lemma DivStep100(y: int)
    ensures y / 100 - (y - 1) / 100 == if y % 100 == 0 then 1 else 0
  {
  }

  lemma DivStep400(y: int)
    ensures y / 400 - (y - 1) / 400 == if y % 400 == 0 then 1 else 0
  {
  }

  lemma YearLength(y: int)
    requires 1 <= y
    ensures DaysBeforeYear(y + 1) == DaysBeforeYear(y) + (if IsLeap(y) then 366 else 365)
  {
    DivStep4(y);
    DivStep100(y);
    DivStep400(y);
    if y % 400 == 0 {
      CenturyOfQuadricentennial(y);
      LeapOfCentury(y);
    } else if y % 100 == 0 {
      LeapOfCentury(y);
    }
  }

  lemma CenturyOfQuadricentennial(y: int)
    requires y % 400 == 0
    ensures y % 100 == 0
  {
    var k := y / 400;
    assert y == 100 * (4 * k);
  }

  lemma LeapOfCentury(y: int)
    requires y % 100 == 0
    ensures y % 4 == 0
  {
    var k := y / 100;
    assert y == 4 * (25 * k);
  }

  lemma DaysBeforeDecember(y: int)
    ensures DaysBeforeMonth(y, 12) + DaysInMonth(y, 12) == (if IsLeap(y) then 366 else 365)
  {
    var feb := DaysInMonth(y, 2);
    assert DaysBeforeMonth(y, 2) == 31;
    assert DaysBeforeMonth(y, 3) == 31 + feb;
    assert DaysBeforeMonth(y, 4) == 62 + feb;
    assert DaysBeforeMonth(y, 5) == 92 + feb;
    assert DaysBeforeMonth(y, 6) == 123 + feb;
    assert DaysBeforeMonth(y, 7) == 153 + feb;
    assert DaysBeforeMonth(y, 8) == 184 + feb;
    assert DaysBeforeMonth(y, 9) == 215 + feb;
    assert DaysBeforeMonth(y, 10) == 245 + feb;
    assert DaysBeforeMonth(y, 11) == 276 + feb;
    assert DaysBeforeMonth(y, 12) == 306 + feb;
  }

  lemma {:induction false} DaysBeforeMonthMonotone(y: int, m: int, n: int)
    requires 1 <= m < n <= 12
    ensures DaysBeforeMonth(y, m) + DaysInMonth(y, m) <= DaysBeforeMonth(y, n)
    decreases n - m
  {
    if m + 1 < n {
      DaysBeforeMonthMonotone(y, m + 1, n);
    }
  }

  /** Stepping one day forward adds one to the day number. */
  lemma OrdinalNextDay(d: Date)
    requires Valid(d)
    ensures Ordinal(NextDay(d)) == Ordinal(d) + 1
  {
    if d.day == DaysInMonth(d.year, d.month) && d.month == 12 {
      YearLength(d.year);
      DaysBeforeDecember(d.year);
    }
  }

  /** `d + timedelta(days=n)` is `n` day numbers later. */
  lemma {:induction false} OrdinalAddDays(d: Date, n: nat)
    requires Valid(d)
    ensures Ordinal(AddDays(d, n)) == Ordinal(d) + n
    decreases n
  {
    if n > 0 {
      OrdinalNextDay(d);
      OrdinalAddDays(NextDay(d), n - 1);
    }
  }

  lemma {:induction false} DaysBeforeYearMonotone(y: int, z: int)
    requires 1 <= y < z
    ensures DaysBeforeYear(y) + 365 <= DaysBeforeYear(z)
    decreases z - y
  {
    YearLength(y);
    if y + 1 < z {
      DaysBeforeYearMonotone(y + 1, z);
    }
  }

  /** Chronological order is the order of day numbers. */
  lemma OrdinalOrder(a: Date, b: Date)
    requires Valid(a) && Valid(b)
    ensures Before(a, b) <==> Ordinal(a) < Ordinal(b)
    ensures a == b <==> Ordinal(a) == Ordinal(b)
  {
    if a.year < b.year {
      DaysBeforeYearMonotone(a.year, b.year);
      YearLength(a.year);
      DaysBeforeDecember(a.year);
      if a.month < 12 {
        DaysBeforeMonthMonotone(a.year, a.month, 12);
      }
    } else if b.year < a.year {
      DaysBeforeYearMonotone(b.year, a.year);
      YearLength(b.year);
      DaysBeforeDecember(b.year);
      if b.month < 12 {
        DaysBeforeMonthMonotone(b.year, b.month, 12);
      }
    } else if a.month < b.month {
      DaysBeforeMonthMonotone(a.year, a.month, b.month);
    } else if b.month < a.month {
      DaysBeforeMonthMonotone(b.year, b.month, a.month);
    }
  }

  /** Adding fewer days than remain in the month stays in the month. */
  lemma {:induction false} AddDaysWithinMonth(d: Date, n: nat)
    requires Valid(d) && d.day + n <= DaysInMonth(d.year, d.month)
    ensures AddDays(d, n) == Date(d.year, d.month, d.day + n)
    decreases n
  {
    if n > 0 {
      AddDaysWithinMonth(NextDay(d), n - 1);
    }
  }

  /**
   * `d + timedelta(days=monthrange(y, m)[1] - d.day)` is the last day of the month,
   * and the day after it is the first day of the next month.
   */
  lemma MonthEnd(d: Date, n: nat)
    requires Valid(d) && n == DaysInMonth(d.year, d.month) - d.day
    ensures AddDays(d, n) == LastOfMonth(d)
    ensures NextDay(LastOfMonth(d)) ==
      if d.month < 12 then Date(d.year, d.month + 1, 1) else Date(d.year + 1, 1, 1)
  {
    AddDaysWithinMonth(d, n);
  }

  /** A `%m` field: "1".."9", "01".."09" or "10".."12". */
  function ParseMonthField(s: string): (r: Option<int>)
    ensures r.Some? ==> 1 <= r.value <= 12
  {
    if |s| == 1 && '1' <= s[0] <= '9' then Some(DigitValue(s[0]))
    else if |s| == 2 && s[0] == '0' && '1' <= s[1] <= '9' then Some(DigitValue(s[1]))
    else if |s| == 2 && s[0] == '1' && '0' <= s[1] <= '2' then Some(10 + DigitValue(s[1]))
    else None
  }

  /** A `%d` field: "1".."9", " 1".." 9", "01".."09", "10".."29", "30" or "31". */
  function ParseDayField(s: string): (r: Option<int>)
    ensures r.Some? ==> 1 <= r.value <= 31
  {
    if |s| == 1 && '1' <= s[0] <= '9' then Some(DigitValue(s[0]))
    else if |s| == 2 && (s[0] == '0' || s[0] == ' ') && '1' <= s[1] <= '9' then Some(DigitValue(s[1]))
    else if |s| == 2 && (s[0] == '1' || s[0] == '2') && IsDigit(s[1]) then
      Some(10 * DigitValue(s[0]) + DigitValue(s[1]))
    else if |s| == 2 && s[0] == '3' && (s[1] == '0' || s[1] == '1') then Some(30 + DigitValue(s[1]))
    else None
  }

  /**
   * `datetime.strptime(s, '%Y-%m-%d')`: a four-digit year, a dash, a month field, a
   * dash and a day field, all of `s`, naming an existing date; `None` where Python
   * raises ValueError.
   */
  function ParseIsoDate(s: string): (r: Option<Date>)
    ensures r.Some? ==> Valid(r.value)
  {
    if |s| < 8 || !AllDigits(s[..4]) || s[4] != '-' then None
    else
      var rest := s[5..];
      match IndexOfChar(rest, '-')
      case None => None
      case Some(k) =>
        var m := ParseMonthField(rest[..k]);
        var dd := ParseDayField(rest[k + 1..]);
        if m.None? || dd.None? then None
        else
          var d := Date(DigitsValue(s[..4]), m.value, dd.value);
          if Valid(d) then Some(d) else None
  }

  /** A number written with at least `width` digits, zero-padded on the left. */
  function PadNat(n: nat, width: nat): (r: string)
    ensures AllDigits(r) && |r| >= width
    decreases width
  {
    var s := NatToString(n);
    DigitsOfNat(n);
    if |s| >= width then s else "0" + PadNat(n, width - 1)
  }

  /** `d.strftime('%Y-%m-%d')` for a four-digit year. */
  function FormatIsoDate(d: Date): string
    requires Valid(d) && d.year <= 9999
  {
    PadNat(d.year, 4) + "-" + PadNat(d.month, 2) + "-" + PadNat(d.day, 2)
  }

  lemma TwoDigits(n: nat)
    requires 1 <= n <= 31
    ensures PadNat(n, 2) == [DigitChar(n / 10), DigitChar(n % 10)]
  {
    if n < 10 {
      assert NatToString(n) == [DigitChar(n)];
      assert PadNat(n, 1) == [DigitChar(n)];
      assert DigitChar(0) == '0';
    } else {
      assert NatToString(n / 10) == [DigitChar(n / 10)];
    }
  }

  lemma MonthFieldOfPad(n: nat)
    requires 1 <= n <= 12
    ensures ParseMonthField(PadNat(n, 2)) == Some(n as int)
  {
    TwoDigits(n);
  }

  lemma DayFieldOfPad(n: nat)
    requires 1 <= n <= 31
    ensures ParseDayField(PadNat(n, 2)) == Some(n as int)
  {
    TwoDigits(n);
  }

  lemma FourDigits(n: nat)
    requires 1000 <= n <= 9999
    ensures PadNat(n, 4) == NatToString(n) && |NatToString(n)| == 4
  {
    assert NatToString(n / 1000) == [DigitChar(n / 1000)];
    assert (n / 10) / 10 == n / 100 && (n / 100) / 10 == n / 1000;
    assert |NatToString(n / 100)| == 2;
    assert |NatToString(n / 10)| == 3;
  }

  /** Parsing what `strftime('%Y-%m-%d')` wrote gives the date back. */
  lemma ParseFormatIsoDate(d: Date)
    requires Valid(d) && 1000 <= d.year <= 9999
    ensures ParseIsoDate(FormatIsoDate(d)) == Some(d)
  {
    FourDigits(d.year);
    DigitsOfNat(d.year);
    TwoDigits(d.month);
    TwoDigits(d.day);
    MonthFieldOfPad(d.month);
    DayFieldOfPad(d.day);
    ParseIsoParts(PadNat(d.year, 4), PadNat(d.month, 2), PadNat(d.day, 2), d);
  }

  /** A four-digit year, a two-character month field and a day field, joined by dashes, parse back. */
  lemma ParseIsoParts(y: string, m: string, dd: string, d: Date)
    requires Valid(d) && |y| == 4 && AllDigits(y) && DigitsValue(y) == d.year
    requires |m| == 2 && AllDigits(m) && ParseMonthField(m) == Some(d.month)
    requires |dd| == 2 && ParseDayField(dd) == Some(d.day)
    ensures ParseIsoDate(y + "-" + m + "-" + dd) == Some(d)
  {
    var s := y + "-" + m + "-" + dd;
    assert s[..4] == y;
    assert s[4] == '-';
    var rest := s[5..];
    assert rest == m + "-" + dd;
    assert IsDigit(m[0]) && IsDigit(m[1]);
    assert IndexOfChar(rest, '-') == Some(2);
    assert rest[..2] == m && rest[3..] == dd;
  }
}
