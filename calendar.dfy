/**
 * The proleptic Gregorian calendar of .NET's DateTime (the four-century,
 * century, four-year and single-year split of the day number) and the
 * "dd.MM.yyyy HH:mm" text the windows show, with ':' as the time separator.
 */
module Calendar {
  import opened Clock

  datatype CivilDate = CivilDate(year: int, month: int, day: int)

  const DaysPer400Years: int := 146097
  const DaysPer100Years: int := 36524
  const DaysPer4Years: int := 1461
  const DaysPerYear: int := 365

  predicate IsLeap(year: int) {
    year % 4 == 0 && (year % 100 != 0 || year % 400 == 0)
  }

  /** Days before the first of `month` (1-based) in a year. */
  function DaysBeforeMonth(month: int, leap: bool): (r: int)
    requires 1 <= month <= 13
    ensures 0 <= r <= 366
  {
    var common :=
      if month == 1 then 0 else if month == 2 then 31 else if month == 3 then 59
      else if month == 4 then 90 else if month == 5 then 120 else if month == 6 then 151
      else if month == 7 then 181 else if month == 8 then 212 else if month == 9 then 243
      else if month == 10 then 273 else if month == 11 then 304 else if month == 12 then 334
      else 365;
    common + (if leap && month >= 3 then 1 else 0)
  }

  function DaysInMonth(month: int, leap: bool): int
    requires 1 <= month <= 12
  {
    DaysBeforeMonth(month + 1, leap) - DaysBeforeMonth(month, leap)
  }

  /** The month a 0-based day of the year falls in, searching from `month` up. */
  function MonthOf(dayOfYear: int, leap: bool, month: int): (m: int)
    requires 1 <= month <= 12 && DaysBeforeMonth(month, leap) <= dayOfYear < DaysBeforeMonth(13, leap)
    ensures month <= m <= 12
    ensures DaysBeforeMonth(m, leap) <= dayOfYear < DaysBeforeMonth(m + 1, leap)
    decreases 12 - month
  {
    if dayOfYear < DaysBeforeMonth(month + 1, leap) then month else MonthOf(dayOfYear, leap, month + 1)
  }

  /** The split of a day number into the year and the 0-based day of the year, as .NET computes it. */
  datatype YearSplit = YearSplit(y400: int, y100: int, y4: int, y1: int, dayOfYear: int)

  function SplitYears(n: int): (r: YearSplit)
    requires n >= 0
    ensures 0 <= r.y100 <= 3 && 0 <= r.y4 <= 24 && 0 <= r.y1 <= 3 && r.y400 >= 0
    ensures n == r.y400 * DaysPer400Years + r.y100 * DaysPer100Years + r.y4 * DaysPer4Years + r.y1 * DaysPerYear + r.dayOfYear
    ensures 0 <= r.dayOfYear < (if r.y1 == 3 && (r.y4 != 24 || r.y100 == 3) then 366 else 365)
  {
    var y400 := n / DaysPer400Years;
    var r400 := n % DaysPer400Years;
    var y100 := if r400 / DaysPer100Years == 4 then 3 else r400 / DaysPer100Years;
    var r100 := r400 - y100 * DaysPer100Years;
    var y4 := r100 / DaysPer4Years;
    var r4 := r100 % DaysPer4Years;
    var y1 := if r4 / DaysPerYear == 4 then 3 else r4 / DaysPerYear;
    YearSplit(y400, y100, y4, y1, r4 - y1 * DaysPerYear)
  }

  /** The leap flag of the split is the Gregorian rule for the year it yields. */
  lemma SplitLeap(s: YearSplit)
    requires 0 <= s.y100 <= 3 && 0 <= s.y4 <= 24 && 0 <= s.y1 <= 3 && s.y400 >= 0
    ensures IsLeap(400 * s.y400 + 100 * s.y100 + 4 * s.y4 + s.y1 + 1)
        == (s.y1 == 3 && (s.y4 != 24 || s.y100 == 3))
  {
    var year := 400 * s.y400 + 100 * s.y100 + 4 * s.y4 + s.y1 + 1;
    var c := 4 * s.y400 + s.y100;
    var q := 25 * c + s.y4;
    assert year == 4 * q + s.y1 + 1;
    assert year % 4 == 0 <==> s.y1 == 3;
    if s.y1 == 3 {
      assert year == 4 * (q + 1);
      assert year == 100 * c + 4 * (s.y4 + 1);
      assert year % 100 == 0 <==> s.y4 == 24;
      if s.y4 == 24 {
        assert year == 400 * s.y400 + 100 * (s.y100 + 1);
        assert year % 400 == 0 <==> s.y100 == 3;
      }
    }
  }

  /** The calendar date of day number `n` (0 is 0001-01-01). */
  function CivilFromDays(n: int): (r: CivilDate)
    requires n >= 0
    ensures 1 <= r.year && 1 <= r.month <= 12 && 1 <= r.day <= DaysInMonth(r.month, IsLeap(r.year))
  {
    DateOfSplit(SplitYears(n))
  }

  /** The date a split names: its year, and the month and day of its day of the year. */
  function DateOfSplit(s: YearSplit): (r: CivilDate)
    requires 0 <= s.y100 <= 3 && 0 <= s.y4 <= 24 && 0 <= s.y1 <= 3 && s.y400 >= 0
    requires 0 <= s.dayOfYear < (if s.y1 == 3 && (s.y4 != 24 || s.y100 == 3) then 366 else 365)
    ensures 1 <= r.year && 1 <= r.month <= 12 && 1 <= r.day <= DaysInMonth(r.month, IsLeap(r.year))
  {
    var year := YearOf(s);
    var md := MonthAndDay(s.dayOfYear, IsLeap(year));
    CivilDate(year, md.0, md.1)
  }

  /** The year a split names; a leap year exactly when the split allows a 366th day. */
  function YearOf(s: YearSplit): (year: int)
    requires 0 <= s.y100 <= 3 && 0 <= s.y4 <= 24 && 0 <= s.y1 <= 3 && s.y400 >= 0
    ensures 1 <= year
    ensures IsLeap(year) == (s.y1 == 3 && (s.y4 != 24 || s.y100 == 3))
  {
    SplitLeap(s);
    400 * s.y400 + 100 * s.y100 + 4 * s.y4 + s.y1 + 1
  }

  /** The month and the 1-based day of the month of a 0-based day of the year. */
  function MonthAndDay(dayOfYear: int, leap: bool): (r: (int, int))
    requires 0 <= dayOfYear < (if leap then 366 else 365)
    ensures 1 <= r.0 <= 12 && 1 <= r.1 <= DaysInMonth(r.0, leap)
    ensures DaysBeforeMonth(r.0, leap) + r.1 - 1 == dayOfYear
  {
    var m := MonthOf(dayOfYear, leap, 1);
    (m, dayOfYear - DaysBeforeMonth(m, leap) + 1)
  }

  /** Every moment before the end of the DateTime range falls in years 1 to 9999. */
  lemma CivilYearInRange(n: int)
    requires 0 <= n < TimeLimit / SecondsPerDay
    ensures CivilFromDays(n).year <= 9999
  {
    var s := SplitYears(n);
    assert n < 3652059;
    assert s.y400 <= 24;
    if s.y400 == 24 {
      assert n - 24 * DaysPer400Years < 146097 - 38;
    }
  }

  /** The character of a decimal digit. */
  function Digit(d: int): (c: char)
    requires 0 <= d <= 9
    ensures '0' <= c <= '9' && DigitValue(c) == d
  {
    ('0' as int + d) as char
  }

  function DigitValue(c: char): int {
    c as int - '0' as int
  }

  function Pow10(width: nat): (r: int)
    ensures r >= 1
  {
    if width == 0 then 1 else 10 * Pow10(width - 1)
  }

  /** The number a string of decimal digits spells, most significant digit first. */
  function DigitsValue(s: string): int {
    if s == [] then 0 else 10 * DigitsValue(s[..|s| - 1]) + DigitValue(s[|s| - 1])
  }

  /** `n` in `width` decimal digits, with leading zeros: the digits spell the last `width` digits of `n`. */
  function Padded(n: int, width: nat): (r: string)
    requires n >= 0
    ensures |r| == width
    ensures forall i :: 0 <= i < |r| ==> '0' <= r[i] <= '9'
    ensures DigitsValue(r) == n % Pow10(width)
  {
    if width == 0 then []
    else
      var front := Padded(n / 10, width - 1);
      var r := front + [Digit(n % 10)];
      assert r[..|r| - 1] == front;
      LastDigits(n, Pow10(width - 1));
      r
  }

  /** Euclidean division is unique: a quotient and a remainder in range are the ones `/` and `%` give. */
  lemma DivUnique(n: int, m: int, q: int, r: int)
    requires m > 0 && 0 <= r < m && n == q * m + r
    ensures n / m == q && n % m == r
  {
    var q2, r2 := n / m, n % m;
    var k := q - q2;
    assert k * m == r2 - r by {
      assert n == q2 * m + r2;
      assert q * m - q2 * m == k * m;
    }
    if k >= 1 {
      AtLeastOnce(k, m);
    } else if k <= -1 {
      AtLeastOnce(-k, m);
    }
  }

  lemma {:induction false} AtLeastOnce(k: int, m: int)
    requires k >= 1 && m > 0
    ensures k * m >= m
    decreases k
  {
    if k > 1 {
      AtLeastOnce(k - 1, m);
      assert k * m == (k - 1) * m + m;
    }
  }

  lemma LastDigits(n: int, p: int)
    requires n >= 0 && p >= 1
    ensures 10 * ((n / 10) % p) + n % 10 == n % (10 * p)
  {
    var q, a := n / 10, (n / 10) / p;
    var b := q % p;
    assert n == (10 * p) * a + (10 * b + n % 10) by {
      assert n == 10 * q + n % 10;
      assert q == p * a + b;
    }
    DivUnique(n, 10 * p, a, 10 * b + n % 10);
  }

  /** The "dd.MM.yyyy HH:mm" text of a moment. */
  function Format(t: Time): (r: string)
    requires 0 <= t
  {
    var c := CivilFromDays(t / SecondsPerDay);
    var secs := t % SecondsPerDay;
    FieldsText(c.day, c.month, c.year, secs / SecondsPerHour, secs % SecondsPerHour / 60)
  }

  /** Five numbers written as "dd.MM.yyyy HH:mm", each zero-padded to its width. */
  function FieldsText(day: nat, month: nat, year: nat, hour: nat, minute: nat): string {
    Padded(day, 2) + "." + Padded(month, 2) + "." + Padded(year, 4) + " " + Padded(hour, 2) + ":" + Padded(minute, 2)
  }

  /** Numbers that fit their widths come out in full, each in its own slice. */
  lemma FieldsSpelled(day: nat, month: nat, year: nat, hour: nat, minute: nat)
    requires day < 100 && month < 100 && year < 10000 && hour < 100 && minute < 100
    ensures var f := FieldsText(day, month, year, hour, minute);
      && |f| == 16
      && f[2] == '.' && f[5] == '.' && f[10] == ' ' && f[13] == ':'
      && DigitsValue(f[0..2]) == day && DigitsValue(f[3..5]) == month && DigitsValue(f[6..10]) == year
      && DigitsValue(f[11..13]) == hour && DigitsValue(f[14..16]) == minute
  {
    PaddedFits(day, 2);
    PaddedFits(month, 2);
    PaddedFits(year, 4);
    PaddedFits(hour, 2);
    PaddedFits(minute, 2);
    Layout(Padded(day, 2), Padded(month, 2), Padded(year, 4), Padded(hour, 2), Padded(minute, 2));
  }

  /** The minute of the hour of a moment. */
  function Minute(t: Time): (m: int)
    ensures 0 <= m < 60
  {
    (t % SecondsPerDay) % SecondsPerHour / 60
  }

  /**
   * Within the DateTime range every field is written in full: the text is 16
   * characters, the separators sit in place, and its fields spell the day,
   * month and year of the moment's calendar date and its hour and minute.
   */
  lemma FormatShape(t: Time)
    requires 0 <= t < TimeLimit
    ensures var f, c := Format(t), CivilFromDays(t / SecondsPerDay);
      && |f| == 16
      && f[2] == '.' && f[5] == '.' && f[10] == ' ' && f[13] == ':'
      && DigitsValue(f[0..2]) == c.day && DigitsValue(f[3..5]) == c.month
      && DigitsValue(f[6..10]) == c.year
      && DigitsValue(f[11..13]) == Hour(t) && DigitsValue(f[14..16]) == Minute(t)
  {
    var n := t / SecondsPerDay;
    assert 0 <= n < TimeLimit / SecondsPerDay;
    CivilYearInRange(n);
    var c := CivilFromDays(n);
    MonthLength(c.month, IsLeap(c.year));
    assert Format(t) == FieldsText(c.day, c.month, c.year, Hour(t), Minute(t));
    FieldsSpelled(c.day, c.month, c.year, Hour(t), Minute(t));
  }

  /** The date a "dd.MM.yyyy HH:mm" text shows. */
  function ShownDate(f: string): CivilDate
    requires |f| == 16
  {
    CivilDate(DigitsValue(f[6..10]), DigitsValue(f[3..5]), DigitsValue(f[0..2]))
  }

  /** The seconds since midnight of the hour and minute a "dd.MM.yyyy HH:mm" text shows. */
  function ShownTimeOfDay(f: string): int
    requires |f| == 16
  {
    DigitsValue(f[11..13]) * SecondsPerHour + DigitsValue(f[14..16]) * 60
  }

  /**
   * The text names the moment to the minute: the date it shows is a real date
   * whose day number is the moment's day, and the hour and minute it shows
   * start the minute of the day that contains the moment.
   */
  lemma FormatNamesMinute(t: Time)
    requires 0 <= t < TimeLimit
    ensures |Format(t)| == 16
    ensures ValidDate(ShownDate(Format(t)))
    ensures DaysFromCivil(ShownDate(Format(t))) == t / SecondsPerDay
    ensures ShownTimeOfDay(Format(t)) <= t % SecondsPerDay < ShownTimeOfDay(Format(t)) + 60
  {
    var f, n := Format(t), t / SecondsPerDay;
    FormatShape(t);
    DaysOfCivil(n);
    assert ShownDate(f) == CivilFromDays(n);
    var secs := t % SecondsPerDay;
    var rest := secs % SecondsPerHour;
    assert secs == Hour(t) * SecondsPerHour + rest;
    assert rest == Minute(t) * 60 + rest % 60;
    assert ShownTimeOfDay(f) == Hour(t) * SecondsPerHour + Minute(t) * 60;
  }

  /** A number of at most `width` digits is spelled in full. */
  lemma PaddedFits(n: int, width: nat)
    requires 0 <= n < (if width == 2 then 100 else if width == 4 then 10000 else 1)
    ensures DigitsValue(Padded(n, width)) == n
  {
    assert Pow10(0) == 1 && Pow10(1) == 10 && Pow10(2) == 100 && Pow10(3) == 1000 && Pow10(4) == 10000;
    if width == 2 || width == 4 {
      DivUnique(n, Pow10(width), 0, n);
    }
  }

  lemma MonthLength(month: int, leap: bool)
    requires 1 <= month <= 12
    ensures DaysInMonth(month, leap) <= 31
  {
  }

  lemma Layout(day: string, month: string, year: string, hour: string, minute: string)
    requires |day| == 2 && |month| == 2 && |year| == 4 && |hour| == 2 && |minute| == 2
    ensures var r := day + "." + month + "." + year + " " + hour + ":" + minute;
      && |r| == 16 && r[2] == '.' && r[5] == '.' && r[10] == ' ' && r[13] == ':'
      && r[0..2] == day && r[3..5] == month && r[6..10] == year && r[11..13] == hour && r[14..16] == minute
  {
  }

  /** A calendar date that exists: a year from 1 on, a month and a day of that month. */
  predicate ValidDate(c: CivilDate) {
    1 <= c.year && 1 <= c.month <= 12 && 1 <= c.day <= DaysInMonth(c.month, IsLeap(c.year))
  }

  /** The day number of 1 January of `year`: 365 days a year plus the leap days before it. */
  function DaysBeforeYear(year: int): int
    requires 1 <= year
  {
    var y := year - 1;
    y * DaysPerYear + y / 4 - y / 100 + y / 400
  }

  /** The day number of a calendar date, counted the other way round from the year, month and day. */
  function DaysFromCivil(c: CivilDate): int
    requires 1 <= c.year && 1 <= c.month <= 12
  {
    DaysBeforeYear(c.year) + DaysBeforeMonth(c.month, IsLeap(c.year)) + c.day - 1
  }

  /** The days before the start of a split's year. */
  lemma DaysBeforeSplitYear(s: YearSplit)
    requires 0 <= s.y100 <= 3 && 0 <= s.y4 <= 24 && 0 <= s.y1 <= 3 && s.y400 >= 0
    ensures DaysBeforeYear(YearOf(s))
      == s.y400 * DaysPer400Years + s.y100 * DaysPer100Years + s.y4 * DaysPer4Years + s.y1 * DaysPerYear
  {
    DaysBeforeParts(s.y400, s.y100, s.y4, s.y1);
  }

  lemma DaysBeforeParts(a: int, b: int, q: int, d: int)
    requires a >= 0 && 0 <= b <= 3 && 0 <= q <= 24 && 0 <= d <= 3
    ensures DaysBeforeYear(400 * a + 100 * b + 4 * q + d + 1)
      == a * DaysPer400Years + b * DaysPer100Years + q * DaysPer4Years + d * DaysPerYear
  {
    var y := 400 * a + 100 * b + 4 * q + d;
    DivUnique(y, 4, 100 * a + 25 * b + q, d);
    DivUnique(y, 100, 4 * a + b, 4 * q + d);
    DivUnique(y, 400, a, 100 * b + 4 * q + d);
    assert DaysBeforeYear(y + 1) == y * DaysPerYear + (100 * a + 25 * b + q) - (4 * a + b) + a;
  }

  /** Every day number is the day number of the date the calendar gives it. */
  lemma {:induction false} DaysOfCivil(n: int)
    requires n >= 0
    ensures DaysFromCivil(CivilFromDays(n)) == n
  {
    var s := SplitYears(n);
    DaysBeforeSplitYear(s);
  }

  lemma MonthsIncrease(i: int, j: int, leap: bool)
    requires 1 <= i <= j <= 13
    ensures DaysBeforeMonth(i, leap) <= DaysBeforeMonth(j, leap)
    decreases j - i
  {
    if i < j {
      MonthsIncrease(i + 1, j, leap);
    }
  }

  /** The month search finds the one month whose days contain the day of the year. */
  lemma MonthOfUnique(dayOfYear: int, leap: bool, m: int)
    requires 1 <= m <= 12 && DaysBeforeMonth(m, leap) <= dayOfYear < DaysBeforeMonth(m + 1, leap)
    ensures MonthOf(dayOfYear, leap, 1) == m
  {
    var k := MonthOf(dayOfYear, leap, 1);
    if k < m {
      MonthsIncrease(k + 1, m, leap);
    } else if m < k {
      MonthsIncrease(m + 1, k, leap);
    }
  }

  /** The split of a day number built from cycles, years and a day of the year of the right length gives them back. */
  lemma SplitOfParts(n: int, a: int, b: int, q: int, d: int, doy: int)
    requires a >= 0 && 0 <= b <= 3 && 0 <= q <= 24 && 0 <= d <= 3
    requires 0 <= doy < (if d == 3 && (q != 24 || b == 3) then 366 else 365)
    requires n == a * DaysPer400Years + b * DaysPer100Years + q * DaysPer4Years + d * DaysPerYear + doy
    ensures n >= 0 && SplitYears(n) == YearSplit(a, b, q, d, doy)
  {
    var r4 := d * DaysPerYear + doy;
    var r100 := q * DaysPer4Years + r4;
    var rest := b * DaysPer100Years + r100;
    DivUnique(n, DaysPer400Years, a, rest);
    if b < 3 || r100 < DaysPer100Years {
      DivUnique(rest, DaysPer100Years, b, r100);
    } else {
      DivUnique(rest, DaysPer100Years, 4, r100 - DaysPer100Years);
    }
    DivUnique(r100, DaysPer4Years, q, r4);
    if d < 3 || doy < DaysPerYear {
      DivUnique(r4, DaysPerYear, d, doy);
    } else {
      DivUnique(r4, DaysPerYear, 4, doy - DaysPerYear);
    }
  }

  /** A year from 1 on, with a day of that year, split into its 400/100/4/1-year periods. */
  lemma SplitOfYear(year: int, doy: int) returns (s: YearSplit)
    requires 1 <= year
    ensures 0 <= s.y100 <= 3 && 0 <= s.y4 <= 24 && 0 <= s.y1 <= 3 && s.y400 >= 0
    ensures s.dayOfYear == doy && YearOf(s) == year
  {
    var y := year - 1;
    var a, r400 := y / 400, y % 400;
    var b, r100 := r400 / 100, r400 % 100;
    var q, d := r100 / 4, r100 % 4;
    assert y == 400 * a + 100 * b + 4 * q + d;
    s := YearSplit(a, b, q, d, doy);
  }

  lemma CivilOfSplit(s: YearSplit, c: CivilDate)
    requires 0 <= s.y100 <= 3 && 0 <= s.y4 <= 24 && 0 <= s.y1 <= 3 && s.y400 >= 0
    requires ValidDate(c) && YearOf(s) == c.year
    requires s.dayOfYear == DaysBeforeMonth(c.month, IsLeap(c.year)) + c.day - 1
    requires 0 <= s.dayOfYear < (if s.y1 == 3 && (s.y4 != 24 || s.y100 == 3) then 366 else 365)
    requires MonthOf(s.dayOfYear, IsLeap(c.year), 1) == c.month
    ensures DateOfSplit(s) == c
  {
    assert MonthAndDay(s.dayOfYear, IsLeap(c.year)) == (c.month, c.day);
  }

  lemma DaysOfSplitDate(s: YearSplit, c: CivilDate)
    requires 0 <= s.y100 <= 3 && 0 <= s.y4 <= 24 && 0 <= s.y1 <= 3 && s.y400 >= 0
    requires 1 <= c.month <= 12 && YearOf(s) == c.year
    requires s.dayOfYear == DaysBeforeMonth(c.month, IsLeap(c.year)) + c.day - 1
    ensures DaysFromCivil(c)
      == s.y400 * DaysPer400Years + s.y100 * DaysPer100Years + s.y4 * DaysPer4Years + s.y1 * DaysPerYear + s.dayOfYear
  {
    DaysBeforeSplitYear(s);
  }

  lemma CivilFromSplit(n: int, s: YearSplit)
    requires n >= 0 && SplitYears(n) == s
    ensures CivilFromDays(n) == DateOfSplit(s)
  {
  }

  /** Every valid date is the date of its own day number: together with DaysOfCivil, the calendar is a bijection. */
  lemma CivilOfDays(c: CivilDate)
    requires ValidDate(c)
    ensures DaysFromCivil(c) >= 0 && CivilFromDays(DaysFromCivil(c)) == c
  {
    var leap := IsLeap(c.year);
    var doy := DaysBeforeMonth(c.month, leap) + c.day - 1;
    MonthsIncrease(c.month + 1, 13, leap);
    var s := SplitOfYear(c.year, doy);
    DaysOfSplitDate(s, c);
    SplitOfParts(DaysFromCivil(c), s.y400, s.y100, s.y4, s.y1, doy);
    MonthOfUnique(doy, leap, c.month);
    CivilOfSplit(s, c);
    CivilFromSplit(DaysFromCivil(c), s);
  }

  /** The "not executed" sentinel is midnight of 1 January 1900, and SQL Server's smallest datetime is 1 January 1753. */
  lemma SentinelDate()
    ensures CivilFromDays(DefaultExecutionTime / SecondsPerDay) == CivilDate(1900, 1, 1)
    ensures CivilFromDays(SqlMinDate / SecondsPerDay) == CivilDate(1753, 1, 1)
  {
    DivUnique(DefaultExecutionTime, SecondsPerDay, 693595, 0);
    DivUnique(SqlMinDate, SecondsPerDay, 639905, 0);
    DaysBeforeParts(4, 2, 24, 3);
    DaysBeforeParts(4, 1, 13, 0);
    assert DaysFromCivil(CivilDate(1900, 1, 1)) == 693595;
    assert DaysFromCivil(CivilDate(1753, 1, 1)) == 639905;
    CivilOfDays(CivilDate(1900, 1, 1));
    CivilOfDays(CivilDate(1753, 1, 1));
  }
}
