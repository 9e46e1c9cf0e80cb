/** The proleptic Gregorian calendar of Go's time package in one fixed-offset zone.
    An instant is the number of whole local seconds since 0001-01-01 00:00:00. */
module Calendar {

  datatype Date = Date(year: int, month: int, day: int)

  predicate Leap(y: int) {
    y % 4 == 0 && (y % 100 != 0 || y % 400 == 0)
  }

  function DaysInMonth(y: int, m: int): (n: int)
    ensures 28 <= n <= 31
  {
    if m == 2 then (if Leap(y) then 29 else 28)
    else if m == 4 || m == 6 || m == 9 || m == 11 then 30
    else 31
  }

  predicate ValidDate(d: Date) {
    1 <= d.month <= 12 && 1 <= d.day <= DaysInMonth(d.year, d.month)
  }

  ghost predicate Before(a: Date, b: Date) {
    a.year < b.year || (a.year == b.year && (a.month < b.month || (a.month == b.month && a.day < b.day)))
  }

  function DaysBeforeYear(y: int): int {
    365 * (y - 1) + (y - 1) / 4 - (y - 1) / 100 + (y - 1) / 400
  }

  function DaysBeforeMonth(y: int, m: int): int
    requires 1 <= m <= 13
    decreases m
  {
    if m == 1 then 0 else DaysBeforeMonth(y, m - 1) + DaysInMonth(y, m - 1)
  }

  /** Days from 0001-01-01 to the first of the month. */
  function MonthStart(y: int, m: int): int
    requires 1 <= m <= 13
  {
    DaysBeforeYear(y) + DaysBeforeMonth(y, m)
  }

  function DayNumber(d: Date): int
    requires 1 <= d.month <= 12
  {
    MonthStart(d.year, d.month) + d.day - 1
  }

  function NextDate(d: Date): (n: Date)
    requires ValidDate(d)
    ensures ValidDate(n)
  {
    if d.day < DaysInMonth(d.year, d.month) then d.(day := d.day + 1)
    else if d.month < 12 then Date(d.year, d.month + 1, 1)
    else Date(d.year + 1, 1, 1)
  }

  function PreviousDate(d: Date): (p: Date)
    requires ValidDate(d)
    ensures ValidDate(p)
  {
    if d.day > 1 then d.(day := d.day - 1)
    else if d.month > 1 then Date(d.year, d.month - 1, DaysInMonth(d.year, d.month - 1))
    else Date(d.year - 1, 12, 31)
  }

  /** The date of a day number, counted day by day from the epoch. */
  function DateOf(k: int): (d: Date)
    ensures ValidDate(d)
    decreases if k >= 0 then k else -k
  {
    if k == 0 then Date(1, 1, 1)
    else if k > 0 then NextDate(DateOf(k - 1))
    else PreviousDate(DateOf(k + 1))
  }

  function Year(n: int): int { DateOf(n / 86400).year }
  function Month(n: int): int { DateOf(n / 86400).month }
  function Day(n: int): int { DateOf(n / 86400).day }
  function Hour(n: int): int { n % 86400 / 3600 }
  function Minute(n: int): int { n % 3600 / 60 }
  function Second(n: int): int { n % 60 }

  /** 0001-01-01 was a Monday; Sunday is 0. */
  function WeekdayOf(k: int): int { (k + 1) % 7 }
  function Weekday(n: int): int { WeekdayOf(n / 86400) }

  /** time.Date: out-of-range fields carry into the larger ones. */
  function DateTime(y: int, m: int, d: int, h: int, mi: int, s: int): int {
    (MonthStart(y + (m - 1) / 12, (m - 1) % 12 + 1) + d - 1) * 86400 + h * 3600 + mi * 60 + s
  }

  lemma FourYearStep(y: int)
    ensures y / 4 == (y - 1) / 4 + (if y % 4 == 0 then 1 else 0)
  {
  }

  lemma CenturyStep(y: int)
    ensures y / 100 == (y - 1) / 100 + (if y % 100 == 0 then 1 else 0)
    ensures y / 400 == (y - 1) / 400 + (if y % 400 == 0 then 1 else 0)
    ensures (y % 100 == 0 ==> y % 4 == 0) && (y % 400 == 0 ==> y % 100 == 0)
  {
  }

  lemma YearLength(y: int)
    ensures DaysBeforeYear(y + 1) == DaysBeforeYear(y) + (if Leap(y) then 366 else 365)
  {
    FourYearStep(y);
    CenturyStep(y);
  }

  lemma MonthsOfYear(y: int)
    ensures DaysBeforeMonth(y, 13) == if Leap(y) then 366 else 365
    ensures MonthStart(y, 13) == MonthStart(y + 1, 1)
  {
    YearLength(y);
    assert DaysBeforeMonth(y, 5) == DaysBeforeMonth(y, 3) + 61;
    assert DaysBeforeMonth(y, 9) == DaysBeforeMonth(y, 5) + 123;
    assert DaysBeforeMonth(y, 13) == DaysBeforeMonth(y, 9) + 122;
  }

  lemma {:induction false} MonthOrder(y: int, m: int, n: int)
    requires 1 <= m < n <= 13
    ensures MonthStart(y, m) + DaysInMonth(y, m) <= MonthStart(y, n)
    decreases n
  {
    if m + 1 < n {
      MonthOrder(y, m, n - 1);
    }
  }

  lemma {:induction false} YearOrder(y: int, z: int)
    requires y < z
    ensures MonthStart(y, 13) <= MonthStart(z, 1)
    decreases z - y
  {
    MonthsOfYear(y);
    if y + 1 < z {
      MonthOrder(y + 1, 1, 13);
      YearOrder(y + 1, z);
    }
  }

  /** Day numbers order dates lexicographically. */
  lemma DayNumberMonotone(a: Date, b: Date)
    requires ValidDate(a) && ValidDate(b) && Before(a, b)
    ensures DayNumber(a) < DayNumber(b)
  {
    if a.year < b.year {
      YearOrder(a.year, b.year);
      MonthOrder(a.year, a.month, 13);
      if 1 < b.month { MonthOrder(b.year, 1, b.month); }
    } else if a.month < b.month {
      MonthOrder(a.year, a.month, b.month);
    }
  }

  lemma DayNumberOfNext(d: Date)
    requires ValidDate(d)
    ensures DayNumber(NextDate(d)) == DayNumber(d) + 1
  {
    hide DaysBeforeYear, Leap;
    MonthsOfYear(d.year);
  }

  lemma DayNumberOfPrevious(d: Date)
    requires ValidDate(d)
    ensures DayNumber(PreviousDate(d)) == DayNumber(d) - 1
  {
    hide DaysBeforeYear, Leap;
    MonthsOfYear(d.year - 1);
  }

  /** Day numbers in closed form, counting years from March: no table of month lengths is involved. */
  lemma DayNumberClosed(d: Date)
    requires ValidDate(d)
    ensures var y := if d.month <= 2 then d.year - 1 else d.year;
            DayNumber(d) == 365 * y + y / 4 - y / 100 + y / 400 + (153 * ((d.month + 9) % 12) + 2) / 5 + d.day - 307
  {
    var y, m := d.year, d.month;
    YearLength(y);
    hide Leap;
    var february := if Leap(y) then 29 else 28;
    assert DaysBeforeMonth(y, 4) == 62 + february;
    assert DaysBeforeMonth(y, 7) == 153 + february;
    assert DaysBeforeMonth(y, 10) == 245 + february;
  }

  /** DateOf and DayNumber are inverse: every day has exactly one valid date. */
  lemma {:induction false} DayNumberOfDate(k: int)
    ensures DayNumber(DateOf(k)) == k
    decreases if k >= 0 then k else -k
  {
    if k > 0 {
      DayNumberOfDate(k - 1);
      DayNumberOfNext(DateOf(k - 1));
    } else if k < 0 {
      DayNumberOfDate(k + 1);
      DayNumberOfPrevious(DateOf(k + 1));
    }
  }

  lemma DateOfDayNumber(d: Date)
    requires ValidDate(d)
    ensures DateOf(DayNumber(d)) == d
  {
    var e := DateOf(DayNumber(d));
    DayNumberOfDate(DayNumber(d));
    if e != d {
      if Before(d, e) { DayNumberMonotone(d, e); } else { DayNumberMonotone(e, d); }
    }
  }

  /** Later days have later dates. */
  lemma DateOfMonotone(j: int, k: int)
    requires j <= k
    ensures DateOf(j) == DateOf(k) || Before(DateOf(j), DateOf(k))
  {
    DayNumberOfDate(j);
    DayNumberOfDate(k);
    if Before(DateOf(k), DateOf(j)) {
      DayNumberMonotone(DateOf(k), DateOf(j));
    }
  }

  lemma ClockSplit(n: int, k: int, h: int, mi: int, s: int)
    requires n == k * 86400 + (h * 3600 + mi * 60 + s)
    requires 0 <= h < 24 && 0 <= mi < 60 && 0 <= s < 60
    ensures n / 86400 == k && Hour(n) == h && Minute(n) == mi && Second(n) == s
  {
    var r := h * 3600 + mi * 60 + s;
    assert n / 86400 == k && n % 86400 == r;
    HourSplit(r, h, mi * 60 + s);
    HourSplit(n, k * 24 + h, mi * 60 + s);
    MinuteSplit(mi * 60 + s, mi, s);
    MinuteSplit(n, k * 1440 + h * 60 + mi, s);
  }

  /** Reading back the fields of an instant built from in-range fields. */
  lemma FieldsOfDateTime(y: int, m: int, d: int, h: int, mi: int, s: int)
    requires ValidDate(Date(y, m, d)) && 0 <= h < 24 && 0 <= mi < 60 && 0 <= s < 60
    ensures var n := DateTime(y, m, d, h, mi, s);
            Year(n) == y && Month(n) == m && Day(n) == d && Hour(n) == h && Minute(n) == mi && Second(n) == s
  {
    var n := DateTime(y, m, d, h, mi, s);
    var k := DayNumber(Date(y, m, d));
    assert (m - 1) % 12 + 1 == m && (m - 1) / 12 == 0;
    assert n == k * 86400 + (h * 3600 + mi * 60 + s);
    ClockSplit(n, k, h, mi, s);
    DateOfDayNumber(Date(y, m, d));
  }

  /** Moving the day field of an instant and replacing its clock. */
  lemma DateTimeFrom(n: int, d: int, h: int, mi: int, s: int)
    ensures DateTime(Year(n), Month(n), d, h, mi, s)
         == (n / 86400 + d - Day(n)) * 86400 + h * 3600 + mi * 60 + s
  {
    hide DateOf, MonthStart;
    DayNumberOfDate(n / 86400);
    var date := DateOf(n / 86400);
    assert 1 <= date.month <= 12;
    assert (date.month - 1) % 12 + 1 == date.month && (date.month - 1) / 12 == 0;
  }

  /** An instant is the sum of its fields. */
  lemma InstantOfFields(n: int)
    ensures DateTime(Year(n), Month(n), Day(n), Hour(n), Minute(n), Second(n)) == n
    ensures 0 <= Hour(n) < 24 && 0 <= Minute(n) < 60 && 0 <= Second(n) < 60
  {
    DateTimeFrom(n, Day(n), Hour(n), Minute(n), Second(n));
    ClockFields(n);
  }

  lemma HourSplit(n: int, q: int, r: int)
    requires n == q * 3600 + r && 0 <= r < 3600
    ensures n / 3600 == q && n % 3600 == r
  {
  }

  lemma MinuteSplit(n: int, q: int, r: int)
    requires n == q * 60 + r && 0 <= r < 60
    ensures n / 60 == q && n % 60 == r
  {
  }

  lemma ClockFields(n: int)
    ensures n == n / 86400 * 86400 + Hour(n) * 3600 + Minute(n) * 60 + Second(n)
    ensures 0 <= Hour(n) < 24 && 0 <= Minute(n) < 60 && 0 <= Second(n) < 60
  {
    var r := n % 86400;
    HourSplit(n, n / 86400 * 24 + r / 3600, r % 3600);
    MinuteSplit(n, n / 3600 * 60 + n % 3600 / 60, n % 3600 % 60);
  }

  /** Within a day the clock fields grow lexicographically. */
  lemma ClockOrder(n: int, k: int)
    requires n <= k < (n / 86400 + 1) * 86400
    ensures k / 86400 == n / 86400 && Hour(n) <= Hour(k) < 24
    ensures k < n / 86400 * 86400 + (Hour(n) + 1) * 3600 ==> Hour(k) == Hour(n) && Minute(n) <= Minute(k) < 60
    ensures k < n / 86400 * 86400 + Hour(n) * 3600 + (Minute(n) + 1) * 60 ==>
              Hour(k) == Hour(n) && Minute(k) == Minute(n) && Second(n) <= Second(k) < 60
    ensures k >= n / 86400 * 86400 + Hour(k) * 3600 + Minute(k) * 60
  {
    assert k / 86400 == n / 86400;
    ClockFields(n);
    ClockFields(k);
  }

  lemma FirstOfMonth(y: int, m: int)
    requires 1 <= m <= 13
    ensures DateTime(y, m, 1, 0, 0, 0) == MonthStart(y, m) * 86400
  {
    MonthsOfYear(y);
  }

  /** Between an instant and the first of a later month of its year, only the months in between occur. */
  lemma MonthSpan(n: int, m: int, target: int)
    requires Month(n) < target <= 13
    requires n <= m < DateTime(Year(n), target, 1, 0, 0, 0)
    ensures Year(m) == Year(n) && Month(n) <= Month(m) < target
  {
    hide DateOf, DaysBeforeYear, DaysBeforeMonth, DateTime;
    DateOfMonotone(n / 86400, m / 86400);
    var y := Year(n);
    MonthsOfYear(y);
    FirstOfMonth(y, target);
    assert m / 86400 < MonthStart(y, target);
    DayNumberOfDate(m / 86400);
    var d := DateOf(m / 86400);
    if d.year > y {
      YearOrder(y, d.year);
      if target < 13 { MonthOrder(y, target, 13); }
      if 1 < d.month { MonthOrder(d.year, 1, d.month); }
    } else if d.month >= target {
      if target < d.month { MonthOrder(y, target, d.month); }
    }
  }

  /** The first of a later month of the same year, or of the next year, lies ahead. */
  lemma MonthAhead(n: int, target: int)
    requires Month(n) < target <= 13
    ensures n < DateTime(Year(n), target, 1, 0, 0, 0)
    ensures target == 13 ==> DateTime(Year(n), 13, 1, 0, 0, 0) == DateTime(Year(n) + 1, 1, 1, 0, 0, 0)
  {
    var y := Year(n);
    MonthsOfYear(y);
    DayNumberOfDate(n / 86400);
    MonthOrder(y, Month(n), target);
    FirstOfMonth(y, target);
    assert n < (n / 86400 + 1) * 86400;
  }

  /** A year has begun exactly when its first second has been reached. */
  lemma YearReached(n: int, y: int)
    ensures Year(n) >= y <==> n >= DateTime(y, 1, 1, 0, 0, 0)
  {
    hide DateOf, DateTime, DaysBeforeYear, DaysBeforeMonth, DaysInMonth;
    var d := DateOf(n / 86400);
    FirstOfMonth(y, 1);
    DayNumberOfDate(n / 86400);
    if 1 < d.month { MonthOrder(d.year, 1, d.month); }
    if d.year > y {
      YearOrder(y, d.year);
      MonthOrder(y, 1, 13);
    } else if d.year < y {
      YearOrder(d.year, y);
      MonthOrder(d.year, d.month, 13);
    }
  }
}
