/** What the search and the parser promise together. */
module CronLaws {
  import opened Common
  import opened Calendar
  import opened Words
  import opened Cron
  import opened CronParse

  const NANOS := 1_000_000_000

  /** Next returns the least matching second strictly after t; it finds nothing exactly when there
      is none up to the end of the fourth year after the first candidate's. */
  lemma NextIsLeast(c: CronExpr, t: int)
    ensures forall m :: NextFiring(c, t) == Some(m) <==>
              && m * NANOS > t && Matches(c, m)
              && Year(m) <= Year(FirstCandidate(t)) + 4
              && forall k :: k * NANOS > t && k < m ==> !Matches(c, k)
    ensures NextFiring(c, t) == None <==>
              forall k :: k * NANOS > t && Year(k) <= Year(FirstCandidate(t)) + 4 ==> !Matches(c, k)
  {
    hide Matches, DateTime, Year, FirstMatch;
    var first, limit := FirstCandidate(t), Horizon(t);
    var lastYear := Year(first) + 4;
    YearReached(first, lastYear + 1);
    forall k ensures k * NANOS > t <==> k >= first {}
    forall k ensures Year(k) <= lastYear <==> k < limit {
      YearReached(k, lastYear + 1);
    }
    forall k | first <= k < limit
      ensures NextFiring(c, t).Some? ==>
                var m := NextFiring(c, t).value;
                first <= m < limit && Matches(c, m) && (k < m ==> !Matches(c, k))
      ensures NextFiring(c, t).None? ==> !Matches(c, k)
    {
      FirstMatchIsLeast(c, first, limit, k);
    }
    FirstMatchIsLeast(c, first, limit, first);
  }

  /** Calling Next again and again, each time from the last firing. */
  ghost function Firings(c: CronExpr, t: int, count: nat): seq<int>
    decreases count
  {
    if count == 0 then []
    else match NextFiring(c, t)
         case None => []
         case Some(m) => [m] + Firings(c, m * NANOS, count - 1)
  }

  lemma NextFound(c: CronExpr, t: int, m: int)
    requires NextFiring(c, t) == Some(m)
    ensures m * NANOS > t && Matches(c, m)
    ensures forall k :: k * NANOS > t && Matches(c, k) ==> k >= m
  {
    hide Matches, NextFiring;
    NextIsLeast(c, t);
  }

  /** The firings are increasing matches after t, and no match up to the last one is missing;
      the enumeration only stops early where Next finds nothing. */
  lemma {:induction false} FiringsEnumerate(c: CronExpr, t: int, count: nat)
    ensures var f := Firings(c, t, count);
            && (forall i :: 0 <= i < |f| ==> f[i] * NANOS > t && Matches(c, f[i]))
            && (forall i, j :: 0 <= i < j < |f| ==> f[i] < f[j])
            && (forall k :: f != [] && k * NANOS > t && k <= f[|f| - 1] && Matches(c, k) ==> k in f)
            && (|f| < count ==> NextFiring(c, if f == [] then t else f[|f| - 1] * NANOS) == None)
    decreases count
  {
    hide Matches, NextFiring;
    var f := Firings(c, t, count);
    if f != [] {
      var m := f[0];
      NextFound(c, t, m);
      FiringsEnumerate(c, m * NANOS, count - 1);
      var rest := Firings(c, m * NANOS, count - 1);
      forall k | k * NANOS > t && k <= f[|f| - 1] && Matches(c, k) ensures k in f {
        assert k >= m;
        if k > m {
          assert rest != [] && f[|f| - 1] == rest[|rest| - 1];
          assert k in rest;
        }
      }
    }
  }

  /** The expressions that MakeCronWithTraits returns for the built-in tables. */
  ghost predicate Parsed(c: CronExpr) {
    BuiltIn(c.traits) && Parses(c.expression, c.traits, c)
  }

  /** Tables whose fields do not reach beyond the calendar. */
  predicate FitsCalendar(t: Traits) {
    && t.minMonths <= t.maxMonths <= t.minMonths + 11
    && t.minHours <= t.maxHours <= 23 && t.minMinutes <= t.maxMinutes <= 59 && t.minSeconds <= t.maxSeconds <= 59
  }

  /** Over the built-in tables, and parsed over any table that fits the calendar, Next is exact. */
  lemma NextIsExact(c: CronExpr)
    requires BuiltIn(c.traits) || (FitsCalendar(c.traits) && Parses(c.expression, c.traits, c))
    ensures Jumpable(c)
  {
    if !BuiltIn(c.traits) {
      NothingBeyond(c, 0);
      NothingBeyond(c, 1);
      NothingBeyond(c, 2);
      NothingBeyond(c, 4);
    }
  }

  lemma NothingBeyond(c: CronExpr, k: nat)
    requires Parses(c.expression, c.traits, c) && k < 6
    requires var (_, lo, hi, _) := FieldSpecs(Fields(c.expression, ""), c.traits)[k]; lo <= hi
    ensures var (_, lo, hi, _) := FieldSpecs(Fields(c.expression, ""), c.traits)[k];
            forall i :: i > hi - lo ==> !IsSet(Word(c, k), i)
  {
    hide Fields, IsSet, PartsValues, Substitute, Split;
    var (text, lo, hi, names) := FieldSpecs(Fields(c.expression, ""), c.traits)[k];
    PartsValuesInRange(Split(Substitute(text, names), ','), lo, hi);
    forall i | i > hi - lo ensures !IsSet(Word(c, k), i) {
      assert i + lo !in FieldValues(text, lo, hi, names).value;
    }
  }

  /** The calendar fields of an instant, in the table's numbering. */
  function Now(n: int, t: Traits): (now: seq<int>)
    ensures |now| == 6
  {
    [Second(n), Minute(n), Hour(n), Day(n), Month(n) - 1 + t.minMonths, Weekday(n) + t.minDOW]
  }

  /** A value is among those that a field's text lists. */
  predicate Lists(spec: (string, int, int, seq<string>), v: int) {
    var values := FieldValues(spec.0, spec.1, spec.2, spec.3); values.Some? && v in values.value
  }

  /** An expression fires at an instant exactly when, in its table's numbering, every calendar
      field is among the values its text lists. */
  lemma FiresWhenListed(c: CronExpr, n: int)
    requires Parsed(c)
    ensures var specs := FieldSpecs(Fields(c.expression, ""), c.traits);
            Matches(c, n) <==> forall k :: 0 <= k < 6 ==> Lists(specs[k], Now(n, c.traits)[k])
  {
    hide FieldValues, Fields, Wildcard, IsSet, Pow2, Year, Month, Day, Hour, Minute, Second, Weekday, DateOf;
    var specs := FieldSpecs(Fields(c.expression, ""), c.traits);
    var now := Now(n, c.traits);
    FieldRanges(n);
    forall k | 0 <= k < 6 ensures IsSet(Word(c, k), now[k] - specs[k].1) <==> Lists(specs[k], now[k]) {
      var (text, lo, hi, names) := specs[k];
      assert FieldValues(text, lo, hi, names).Some?;
      assert 0 <= now[k] - lo < 64;
    }
    WeekdayBit(c, n);
    assert IsSet(Word(c, 0), now[0] - specs[0].1) <==> SecondMatches(c, n);
    assert IsSet(Word(c, 1), now[1] - specs[1].1) <==> MinuteMatches(c, n);
    assert IsSet(Word(c, 2), now[2] - specs[2].1) <==> HourMatches(c, n);
    assert IsSet(Word(c, 4), now[4] - specs[4].1) <==> MonthMatches(c, n);
    assert IsSet(Word(c, 3), now[3] - specs[3].1) && IsSet(Word(c, 5), now[5] - specs[5].1) <==> DayMatches(c, n);
  }

  lemma FieldRanges(n: int)
    ensures 1 <= Month(n) <= 12 && 1 <= Day(n) <= 31 && 0 <= Weekday(n) < 7
    ensures 0 <= Hour(n) < 24 && 0 <= Minute(n) < 60 && 0 <= Second(n) < 60
  {
    ClockFields(n);
  }

  const WIDTHS := [60, 60, 24, 31, 12, 7]

  lemma WordWidth(c: CronExpr, k: nat)
    requires Parsed(c) && k < 6
    ensures 0 < Word(c, k) < Pow2(WIDTHS[k])
  {
    hide FieldValues, Represents, Pow2, Fields, Wildcard;
    var (text, lo, hi, names) := FieldSpecs(Fields(c.expression, ""), c.traits)[k];
    assert hi - lo + 1 == WIDTHS[k];
    ParsedWord(text, lo, hi, names, Word(c, k));
  }

  /** A nonempty word has a set bit within its width. */
  lemma SomeBit(bits: nat, width: nat) returns (i: nat)
    requires 0 < bits < Pow2(width) && width <= 64
    ensures i < width && IsSet(bits, i)
  {
    i := BitLength(bits) - 1;
    BitLengthBounds(bits);
    if width <= i { BelowPow2(bits, width, i); }
    AndPow2(bits, i);
  }

  lemma WeekdayBit(c: CronExpr, n: int)
    requires BuiltIn(c.traits)
    ensures CronDOW(c, n) - c.traits.minDOW == Weekday(n) && 0 <= Weekday(n) < 7
    ensures c.traits.minDOM == 1
    ensures c.traits.minHours == 0 && c.traits.minMinutes == 0 && c.traits.minSeconds == 0
  {
  }

  // When Next always finds a firing.

  /** The month, day of month and weekday of a date are allowed. */
  predicate DateMatches(c: CronExpr, d: Date)
    requires ValidDate(d)
  {
    IsSet(c.months, d.month - 1) && IsSet(c.daysOfMonth, d.day - 1) && IsSet(c.daysOfWeek, WeekdayOf(DayNumber(d)))
  }

  predicate DateWithin(c: CronExpr, d: Date, y: int) {
    ValidDate(d) && y < d.year <= y + 4 && DateMatches(c, d)
  }

  /** The last second of the year matches. */
  predicate EndMatches(c: CronExpr, y: int) {
    DateMatches(c, Date(y, 12, 31)) && IsSet(c.hours, 23) && IsSet(c.minutes, 59) && IsSet(c.seconds, 59)
  }

  /** Some date of the four years after y is allowed, or the last second of y matches. */
  ghost predicate YearCovered(c: CronExpr, y: int) {
    (exists d :: DateWithin(c, d, y)) || EndMatches(c, y)
  }

  /** A parsed expression is found from every time whose first candidate lies in a year exactly when that year is
      covered. */
  lemma YearFound(c: CronExpr, y: int)
    requires Parsed(c)
    ensures (forall t :: Year(FirstCandidate(t)) == y ==> NextFiring(c, t).Some?) <==> YearCovered(c, y)
  {
    hide NextFiring, YearCovered, Parses, BuiltIn, Year, FirstCandidate, DateTime;
    if YearCovered(c, y) {
      forall t | Year(FirstCandidate(t)) == y ensures NextFiring(c, t).Some? {
        CoveredFound(c, t);
      }
    }
    if forall t :: Year(FirstCandidate(t)) == y ==> NextFiring(c, t).Some? {
      var last := DateTime(y, 12, 31, 23, 59, 59);
      LastSecond(y);
      JustBefore(last);
      FoundCovered(c, y);
    }
  }

  /** A parsed expression is found from everywhere exactly when every year is covered. The calendar repeats itself
      after 400 years, so 400 years are enough to look at. */
  lemma AlwaysFound(c: CronExpr)
    requires Parsed(c)
    ensures (forall t :: NextFiring(c, t).Some?) <==> (forall y :: 0 <= y < 400 ==> YearCovered(c, y))
  {
    hide NextFiring, YearCovered, Parses, Year, FirstCandidate;
    if forall y :: 0 <= y < 400 ==> YearCovered(c, y) {
      forall t ensures NextFiring(c, t).Some? {
        var y := Year(FirstCandidate(t));
        assert y == y % 400 + y / 400 * 400;
        CoveredAgain(c, y % 400, y / 400);
        YearFound(c, y);
      }
    }
    if forall t :: NextFiring(c, t).Some? {
      forall y | 0 <= y < 400 ensures YearCovered(c, y) {
        YearFound(c, y);
      }
    }
  }

  lemma JustBefore(n: int)
    ensures FirstCandidate((n - 1) * NANOS) == n
  {
  }

  lemma CoveredFound(c: CronExpr, t: int)
    requires Parsed(c) && YearCovered(c, Year(FirstCandidate(t)))
    ensures NextFiring(c, t).Some?
  {
    hide Parses, NextFiring, DateWithin, EndMatches, DateOf;
    var y := Year(FirstCandidate(t));
    if EndMatches(c, y) {
      EndFound(c, t);
    } else {
      var d :| DateWithin(c, d, y);
      DateFound(c, t, d);
    }
  }

  lemma EndFound(c: CronExpr, t: int)
    requires BuiltIn(c.traits) && EndMatches(c, Year(FirstCandidate(t)))
    ensures NextFiring(c, t).Some?
  {
    hide IsSet, DateMatches, DateTime, DateOf, FirstMatch;
    var y := Year(FirstCandidate(t));
    var last := DateTime(y, 12, 31, 23, 59, 59);
    LastSecond(y);
    YearReached(FirstCandidate(t), y + 1);
    YearReached(last, y + 5);
    DateFires(c, Date(y, 12, 31), 23, 59, 59);
    FirstMatchIsLeast(c, FirstCandidate(t), Horizon(t), last);
  }

  lemma DateFound(c: CronExpr, t: int, d: Date)
    requires Parsed(c) && DateWithin(c, d, Year(FirstCandidate(t)))
    ensures NextFiring(c, t).Some?
  {
    hide Parses, IsSet, DateMatches, DateTime, DateOf, FirstMatch, Matches;
    var hour, minute, second := SomeClock(c);
    var n := DateTime(d.year, d.month, d.day, hour, minute, second);
    DateFires(c, d, hour, minute, second);
    YearReached(FirstCandidate(t), d.year);
    YearReached(n, d.year);
    YearReached(n, Year(FirstCandidate(t)) + 5);
    FirstMatchIsLeast(c, FirstCandidate(t), Horizon(t), n);
  }

  /** The second before a new year. */
  lemma LastSecond(y: int)
    ensures DateTime(y, 12, 31, 23, 59, 59) + 1 == DateTime(y + 1, 1, 1, 0, 0, 0)
    ensures Year(DateTime(y, 12, 31, 23, 59, 59)) == y
  {
    FieldsOfDateTime(y, 12, 31, 23, 59, 59);
    MonthsOfYear(y);
    assert MonthStart(y, 13) == MonthStart(y, 12) + 31;
  }

  /** Every parsed expression allows some time of day. */
  lemma SomeClock(c: CronExpr) returns (hour: int, minute: int, second: int)
    requires Parsed(c)
    ensures 0 <= hour < 24 && IsSet(c.hours, hour)
    ensures 0 <= minute < 60 && IsSet(c.minutes, minute)
    ensures 0 <= second < 60 && IsSet(c.seconds, second)
  {
    hide Parses, IsSet, Pow2;
    WordWidth(c, 0);
    WordWidth(c, 1);
    WordWidth(c, 2);
    second := SomeBit(c.seconds, 60);
    minute := SomeBit(c.minutes, 60);
    hour := SomeBit(c.hours, 24);
  }

  /** The date checks of an instant are about its date. */
  lemma SameDay(c: CronExpr, d: Date, n: int)
    requires BuiltIn(c.traits) && ValidDate(d) && n / 86400 == DayNumber(d)
    ensures MonthMatches(c, n) && DayMatches(c, n) <==> DateMatches(c, d)
  {
    hide IsSet, DateOf, DayNumber, BuiltIn;
    DateOfDayNumber(d);
    WeekdayBit(c, n);
  }

  lemma DateFires(c: CronExpr, d: Date, hour: int, minute: int, second: int)
    requires BuiltIn(c.traits) && ValidDate(d) && DateMatches(c, d)
    requires 0 <= hour < 24 && IsSet(c.hours, hour)
    requires 0 <= minute < 60 && IsSet(c.minutes, minute)
    requires 0 <= second < 60 && IsSet(c.seconds, second)
    ensures var n := DateTime(d.year, d.month, d.day, hour, minute, second); Matches(c, n) && Year(n) == d.year
  {
    hide BuiltIn, IsSet, DateTime, DateOf, MonthMatches, DayMatches, Hour, Minute, Second, DayNumber, DateMatches;
    var n := DateTime(d.year, d.month, d.day, hour, minute, second);
    FieldsOfDateTime(d.year, d.month, d.day, hour, minute, second);
    DayOf(d, hour, minute, second);
    SameDay(c, d, n);
    WeekdayBit(c, n);
  }

  lemma DayOf(d: Date, hour: int, minute: int, second: int)
    requires ValidDate(d) && 0 <= hour < 24 && 0 <= minute < 60 && 0 <= second < 60
    ensures DateTime(d.year, d.month, d.day, hour, minute, second) / 86400 == DayNumber(d)
  {
    ClockSplit(DateTime(d.year, d.month, d.day, hour, minute, second), DayNumber(d), hour, minute, second);
  }

  lemma FoundCovered(c: CronExpr, y: int)
    requires BuiltIn(c.traits) && NextFiring(c, (DateTime(y, 12, 31, 23, 59, 59) - 1) * NANOS).Some?
    ensures YearCovered(c, y)
  {
    hide BuiltIn, NextFiring, Matches, DateTime, DateOf, DateMatches, EndMatches;
    var last := DateTime(y, 12, 31, 23, 59, 59);
    var t := (last - 1) * NANOS;
    JustBefore(last);
    var m := NextFiring(c, t).value;
    NextIsLeast(c, t);
    LastSecond(y);
    if m > last {
      YearReached(m, y + 1);
      FoundOn(c, m, y);
    } else {
      FoundAtEnd(c, y);
    }
  }

  lemma FoundOn(c: CronExpr, m: int, y: int)
    requires BuiltIn(c.traits) && Matches(c, m) && y < Year(m) <= y + 4
    ensures YearCovered(c, y)
  {
    var d := DateOf(m / 86400);
    DayNumberOfDate(m / 86400);
    SameDay(c, d, m);
    hide BuiltIn, MonthMatches, DayMatches, HourMatches, MinuteMatches, SecondMatches, DateOf, DateMatches, EndMatches;
    assert DateWithin(c, d, y);
  }

  lemma FoundAtEnd(c: CronExpr, y: int)
    requires BuiltIn(c.traits) && Matches(c, DateTime(y, 12, 31, 23, 59, 59))
    ensures EndMatches(c, y)
  {
    var d, last := Date(y, 12, 31), DateTime(y, 12, 31, 23, 59, 59);
    DayOf(d, 23, 59, 59);
    SameDay(c, d, last);
    FieldsOfDateTime(y, 12, 31, 23, 59, 59);
    WeekdayBit(c, last);
    hide BuiltIn, IsSet, DateTime, DateOf, MonthMatches, DayMatches, DateMatches;
  }

  // The calendar repeats itself after 400 years, a whole number of weeks.

  const DAYS_IN_400_YEARS := 146097

  lemma {:induction false} LaterMonths(y: int, m: int)
    requires 1 <= m <= 13
    ensures DaysBeforeMonth(y + 400, m) == DaysBeforeMonth(y, m)
    decreases m
  {
    LaterYear(y);
    if m > 1 {
      LaterMonths(y, m - 1);
    }
  }

  lemma LaterYear(y: int)
    ensures Leap(y + 400) == Leap(y)
    ensures DaysBeforeYear(y + 400) == DaysBeforeYear(y) + DAYS_IN_400_YEARS
    ensures forall m :: DaysInMonth(y + 400, m) == DaysInMonth(y, m)
  {
    assert (y + 400) % 4 == y % 4 && (y + 400) % 100 == y % 100 && (y + 400) % 400 == y % 400;
  }

  lemma LaterDate(c: CronExpr, d: Date)
    requires ValidDate(d)
    ensures var e := d.(year := d.year + 400); ValidDate(e) && (DateMatches(c, e) <==> DateMatches(c, d))
  {
    hide IsSet, DaysInMonth, DaysBeforeYear, DaysBeforeMonth, WeekdayOf;
    LaterYear(d.year);
    LaterMonths(d.year, d.month);
    SameWeekday(DayNumber(d));
  }

  lemma SameWeekday(k: int)
    ensures WeekdayOf(k + DAYS_IN_400_YEARS) == WeekdayOf(k)
  {
    ModUnique(k + DAYS_IN_400_YEARS + 1, (k + 1) / 7 + 20871, 7, (k + 1) % 7);
  }

  lemma CoveredLater(c: CronExpr, y: int)
    ensures YearCovered(c, y + 400) <==> YearCovered(c, y)
  {
    hide DateMatches, IsSet;
    var later := y + 400;
    LaterDate(c, Date(y, 12, 31));
    assert Date(y, 12, 31).(year := y + 400) == Date(later, 12, 31);
    if d :| DateWithin(c, d, y) {
      LaterDate(c, d);
      assert DateWithin(c, d.(year := d.year + 400), later);
    }
    if e :| DateWithin(c, e, later) {
      var d := e.(year := e.year - 400);
      LaterYear(d.year);
      assert DaysInMonth(e.year, e.month) == DaysInMonth(d.year + 400, d.month) == DaysInMonth(d.year, d.month);
      LaterDate(c, d);
      assert d.(year := d.year + 400) == e;
      assert DateWithin(c, d, y);
    }
  }

  lemma {:induction false} CoveredAgain(c: CronExpr, y: int, k: int)
    ensures YearCovered(c, y + k * 400) <==> YearCovered(c, y)
    decreases if k >= 0 then k else -k
  {
    hide YearCovered;
    if k > 0 {
      CoveredAgain(c, y, k - 1);
      CoveredLater(c, y + (k - 1) * 400);
    } else if k < 0 {
      CoveredAgain(c, y, k + 1);
      CoveredLater(c, y + k * 400);
    }
  }

  /** The day occurs in the month every year. */
  predicate EveryYear(c: CronExpr, m: int, d: int) {
    1 <= m <= 12 && 1 <= d <= DaysInMonth(1, m) && IsSet(c.months, m - 1) && IsSet(c.daysOfMonth, d - 1)
  }

  /** With every weekday allowed, Next always finds a firing exactly when some allowed month has an allowed day
      that it has in every year; only 29 February alone is not enough. */
  lemma AlwaysFires(c: CronExpr)
    requires Parsed(c) && forall w :: 0 <= w < 7 ==> IsSet(c.daysOfWeek, w)
    ensures (forall t :: NextFiring(c, t).Some?) <==> exists m, d :: EveryYear(c, m, d)
  {
    hide NextFiring, YearCovered, Parses, IsSet, EveryYear;
    AlwaysFound(c);
    if m, d :| EveryYear(c, m, d) {
      forall y | 0 <= y < 400 ensures YearCovered(c, y) {
        CoveredByDay(c, m, d, y);
      }
    }
    if forall y :: 0 <= y < 400 ==> YearCovered(c, y) {
      assert YearCovered(c, 96);
      CoveredByCommonYear(c);
    }
  }

  lemma CoveredByDay(c: CronExpr, m: int, d: int, y: int)
    requires (forall w :: 0 <= w < 7 ==> IsSet(c.daysOfWeek, w)) && EveryYear(c, m, d)
    ensures YearCovered(c, y)
  {
    hide IsSet, EndMatches, DayNumber;
    assert DateWithin(c, Date(y + 1, m, d), y);
  }

  /** The years 97 to 100 have no 29 February. */
  lemma CoveredByCommonYear(c: CronExpr)
    requires YearCovered(c, 96)
    ensures exists m, d :: EveryYear(c, m, d)
  {
    hide IsSet, DayNumber;
    var date := Date(96, 12, 31);
    if !EndMatches(c, 96) {
      date :| DateWithin(c, date, 96);
    }
    assert EveryYear(c, date.month, date.day);
  }

  /** Not only leap days fall into gaps: from 2 January to the end of 2018 an expression for 1 January on a Monday
      finds nothing although it fires again in 2024. */
  lemma MondayGap(c: CronExpr, t: int)
    requires BuiltIn(c.traits)
    requires forall i :: IsSet(c.months, i) <==> i == 0
    requires forall i :: IsSet(c.daysOfMonth, i) <==> i == 0
    requires forall i :: IsSet(c.daysOfWeek, i) <==> i == 1
    requires IsSet(c.hours, 0) && IsSet(c.minutes, 0) && IsSet(c.seconds, 0)
    requires DateTime(2018, 1, 2, 0, 0, 0) <= FirstCandidate(t) < DateTime(2019, 1, 1, 0, 0, 0)
    ensures NextFiring(c, t) == None
    ensures Matches(c, DateTime(2024, 1, 1, 0, 0, 0))
  {
    hide IsSet, DateTime, Weekday, CronDOW, FirstMatch, DateOf;
    var first := FirstCandidate(t);
    YearReached(first, 2019);
    YearFrom2018(first);
    forall k | k * NANOS > t && Year(k) <= Year(first) + 4 ensures !Matches(c, k) {
      WeekdayBit(c, k);
      NoMonday(k);
    }
    NextIsLeast(c, t);
    var n := DateTime(2024, 1, 1, 0, 0, 0);
    FieldsOfDateTime(2024, 1, 1, 0, 0, 0);
    WeekdayBit(c, n);
    NewYear(2024);
  }

  lemma YearFrom2018(n: int)
    requires n >= DateTime(2018, 1, 2, 0, 0, 0)
    ensures Year(n) >= 2018
  {
    YearReached(n, 2018);
    NewYear(2018);
  }

  lemma NewYear(y: int)
    ensures DateTime(y, 1, 1, 0, 0, 0) == DaysBeforeYear(y) * 86400
    ensures Weekday(DateTime(y, 1, 1, 0, 0, 0)) == (DaysBeforeYear(y) + 1) % 7
    ensures DateTime(y, 1, 2, 0, 0, 0) == (DaysBeforeYear(y) + 1) * 86400
  {
    hide DaysBeforeYear;
    assert MonthStart(y, 1) == DaysBeforeYear(y);
  }

  lemma NoMonday(k: int)
    requires k >= DateTime(2018, 1, 2, 0, 0, 0) && Year(k) <= 2022
    ensures !(Month(k) == 1 && Day(k) == 1 && Weekday(k) == 1)
  {
    hide DateOf, DateTime;
    YearFrom2018(k);
    NewYear(2018);
    DayNumberOfDate(k / 86400);
    if Month(k) == 1 && Day(k) == 1 {
      var y := Year(k);
      assert k / 86400 == DaysBeforeYear(y);
      assert y != 2018;
      assert DaysBeforeYear(2019) == 737059 && DaysBeforeYear(2020) == 737424;
      assert DaysBeforeYear(2021) == 737790 && DaysBeforeYear(2022) == 738155;
    }
  }

  /** Around 2100, which is no leap year, an expression for 29 February finds nothing although it fires again in
      2104. */
  lemma LeapDayGap(c: CronExpr, t: int)
    requires BuiltIn(c.traits)
    requires forall i :: IsSet(c.months, i) <==> i == 1
    requires forall i :: IsSet(c.daysOfMonth, i) <==> i == 28
    requires forall w :: 0 <= w < 7 ==> IsSet(c.daysOfWeek, w)
    requires IsSet(c.hours, 0) && IsSet(c.minutes, 0) && IsSet(c.seconds, 0)
    requires DateTime(2096, 3, 1, 0, 0, 0) <= FirstCandidate(t) < DateTime(2100, 1, 1, 0, 0, 0)
    ensures NextFiring(c, t) == None
    ensures Matches(c, DateTime(2104, 2, 29, 0, 0, 0))
  {
    hide IsSet, DateTime, Weekday, CronDOW, FirstMatch, DateOf;
    var first := FirstCandidate(t);
    YearReached(first, 2100);
    YearReached(first, 2096);
    FirstOfMonth(2096, 3);
    FirstOfMonth(2096, 1);
    forall k | k * NANOS > t && Year(k) <= Year(first) + 4 ensures !Matches(c, k) {
      WeekdayBit(c, k);
      NoLeapDay(k);
    }
    NextIsLeast(c, t);
    var leap := DateTime(2104, 2, 29, 0, 0, 0);
    FieldsOfDateTime(2104, 2, 29, 0, 0, 0);
    WeekdayBit(c, leap);
  }

  /** The search does reach into the fourth year: in the rest of 2020 the same expression finds the next leap
      day. */
  lemma LeapDayFound(c: CronExpr, t: int)
    requires BuiltIn(c.traits)
    requires forall i :: IsSet(c.months, i) <==> i == 1
    requires forall i :: IsSet(c.daysOfMonth, i) <==> i == 28
    requires forall w :: 0 <= w < 7 ==> IsSet(c.daysOfWeek, w)
    requires IsSet(c.hours, 0) && IsSet(c.minutes, 0) && IsSet(c.seconds, 0)
    requires DateTime(2020, 3, 1, 0, 0, 0) <= FirstCandidate(t) < DateTime(2021, 1, 1, 0, 0, 0)
    ensures NextFiring(c, t) == Some(DateTime(2024, 2, 29, 0, 0, 0))
  {
    hide IsSet, DateTime, Weekday, CronDOW, FirstMatch, DateOf, Matches;
    var first, leap := FirstCandidate(t), DateTime(2024, 2, 29, 0, 0, 0);
    YearReached(first, 2021);
    YearReached(first, 2020);
    FirstOfMonth(2020, 3);
    FirstOfMonth(2020, 1);
    FieldsOfDateTime(2024, 2, 29, 0, 0, 0);
    YearReached(leap, 2021);
    LeapDayMatches(c, leap);
    forall k | k * NANOS > t && k < leap ensures !Matches(c, k) {
      BeforeLeapDay(k);
      NoMatchBefore(c, k);
    }
    NextIsLeast(c, t);
  }

  lemma LeapDayMatches(c: CronExpr, leap: int)
    requires BuiltIn(c.traits) && Month(leap) == 2 && Day(leap) == 29
    requires Hour(leap) == 0 && Minute(leap) == 0 && Second(leap) == 0
    requires IsSet(c.months, 1) && IsSet(c.daysOfMonth, 28) && forall w :: 0 <= w < 7 ==> IsSet(c.daysOfWeek, w)
    requires IsSet(c.hours, 0) && IsSet(c.minutes, 0) && IsSet(c.seconds, 0)
    ensures Matches(c, leap)
  {
    WeekdayBit(c, leap);
    hide IsSet, Month, Day, Hour, Minute, Second, Weekday, CronDOW, BuiltIn;
  }

  lemma NoMatchBefore(c: CronExpr, k: int)
    requires BuiltIn(c.traits) && !(Month(k) == 2 && Day(k) == 29)
    requires forall i :: IsSet(c.months, i) <==> i == 1
    requires forall i :: IsSet(c.daysOfMonth, i) <==> i == 28
    ensures !Matches(c, k)
  {
    hide IsSet, Month, Day, Hour, Minute, Second, Weekday, CronDOW;
  }

  lemma BeforeLeapDay(k: int)
    requires DateTime(2020, 3, 1, 0, 0, 0) <= k < DateTime(2024, 2, 29, 0, 0, 0)
    ensures !(Month(k) == 2 && Day(k) == 29)
  {
    hide DateOf, DateTime, MonthStart;
    var d := DateOf(k / 86400);
    var march, leap := Date(2020, 3, 1), Date(2024, 2, 29);
    FirstOfMonth(2020, 3);
    DayOf(leap, 0, 0, 0);
    DayNumberOfDate(k / 86400);
    assert k / 86400 >= MonthStart(2020, 3) == DayNumber(march);
    assert k / 86400 < DayNumber(leap) by {
      FieldsOfDateTime(2024, 2, 29, 0, 0, 0);
      ClockFields(DateTime(2024, 2, 29, 0, 0, 0));
    }
    if Before(d, march) {
      DayNumberMonotone(d, march);
    }
    if Before(leap, d) {
      DayNumberMonotone(leap, d);
    }
  }

  lemma NoLeapDay(k: int)
    requires k >= DateTime(2096, 3, 1, 0, 0, 0) && Year(k) < 2104
    ensures !(Month(k) == 2 && Day(k) == 29)
  {
    hide DateOf, DateTime, MonthStart;
    var d := DateOf(k / 86400);
    var march := Date(2096, 3, 1);
    FirstOfMonth(2096, 3);
    DayNumberOfDate(k / 86400);
    assert k / 86400 >= MonthStart(2096, 3) == DayNumber(march);
    if Before(d, march) {
      DayNumberMonotone(d, march);
    }
    assert d.year == 2096 ==> d.month >= 3;
  }

  // Equality and the printed bit sets.

  predicate Equal(a: CronExpr, b: CronExpr) {
    && a.seconds == b.seconds && a.minutes == b.minutes && a.hours == b.hours
    && a.daysOfMonth == b.daysOfMonth && a.months == b.months && a.daysOfWeek == b.daysOfWeek
  }

  function BitChar(bits: nat, i: int): char { if IsSet(bits, i) then '1' else '0' }

  function BitString(bits: nat, size: nat): string {
    seq(size, k requires 0 <= k < size => BitChar(bits, size - 1 - k))
  }

  method BitsetToString(bits: nat, size: nat) returns (s: string)
    ensures s == BitString(bits, size)
  {
    s := "";
    var i := size - 1;
    while i >= 0
      invariant -1 <= i < size
      invariant s == BitString(bits, size)[..size - 1 - i]
    {
      s := s + [BitChar(bits, i)];
      i := i - 1;
    }
  }

  function BitsetString(c: CronExpr): string {
    BitString(c.seconds, 60) + " " + BitString(c.minutes, 60) + " " + BitString(c.hours, 24) + " " +
    BitString(c.daysOfMonth, 31) + " " + BitString(c.months, 12) + " " + BitString(c.daysOfWeek, 7)
  }

  lemma BitStringInjective(a: nat, b: nat, size: nat)
    requires size <= 64 && a < Pow2(size) && b < Pow2(size)
    requires BitString(a, size) == BitString(b, size)
    ensures a == b
  {
    forall i: nat ensures Bit(a, i) <==> Bit(b, i) {
      if i < size {
        assert BitString(a, size)[size - 1 - i] == BitChar(a, i);
        assert BitString(b, size)[size - 1 - i] == BitChar(b, i);
        assert IsSet(a, i) <==> IsSet(b, i);
        AndPow2(a, i);
        AndPow2(b, i);
      } else {
        BelowPow2(a, size, i);
        BelowPow2(b, size, i);
      }
    }
    SameBits(a, b);
  }

  lemma SameLengthPrefix(a: string, b: string, x: string, y: string)
    requires |a| == |b| && a + x == b + y
    ensures a == b && x == y
  {
    assert a == (a + x)[..|a|] && b == (b + y)[..|a|];
    assert x == (a + x)[|a|..] && y == (b + y)[|a|..];
  }

  /** For parsed expressions, printing the same bits means being Equal, and conversely. */
  lemma BitsetStringFaithful(a: CronExpr, b: CronExpr)
    requires Parsed(a) && Parsed(b)
    ensures BitsetString(a) == BitsetString(b) <==> Equal(a, b)
  {
    hide Parsed, BitString, Pow2;
    if BitsetString(a) == BitsetString(b) {
      PrintedApart(a, b);
      forall k: nat | k < 6 ensures Word(a, k) == Word(b, k) {
        WordWidth(a, k);
        WordWidth(b, k);
        BitStringInjective(Word(a, k), Word(b, k), WIDTHS[k]);
      }
      assert Word(a, 0) == Word(b, 0) && Word(a, 1) == Word(b, 1) && Word(a, 2) == Word(b, 2);
      assert Word(a, 3) == Word(b, 3) && Word(a, 4) == Word(b, 4) && Word(a, 5) == Word(b, 5);
    }
  }

  lemma PrintedApart(a: CronExpr, b: CronExpr)
    requires BitsetString(a) == BitsetString(b)
    ensures forall k :: 0 <= k < 6 ==> BitString(Word(a, k), WIDTHS[k]) == BitString(Word(b, k), WIDTHS[k])
  {
    var ra5, rb5 := BitString(a.daysOfWeek, 7), BitString(b.daysOfWeek, 7);
    var ra4, rb4 := BitString(a.months, 12) + (" " + ra5), BitString(b.months, 12) + (" " + rb5);
    var ra3, rb3 := BitString(a.daysOfMonth, 31) + (" " + ra4), BitString(b.daysOfMonth, 31) + (" " + rb4);
    var ra2, rb2 := BitString(a.hours, 24) + (" " + ra3), BitString(b.hours, 24) + (" " + rb3);
    var ra1, rb1 := BitString(a.minutes, 60) + (" " + ra2), BitString(b.minutes, 60) + (" " + rb2);
    assert BitsetString(a) == BitString(a.seconds, 60) + (" " + ra1);
    assert BitsetString(b) == BitString(b.seconds, 60) + (" " + rb1);
    SameLengthPrefix(BitString(a.seconds, 60), BitString(b.seconds, 60), " " + ra1, " " + rb1);
    SameLengthPrefix(" ", " ", ra1, rb1);
    SameLengthPrefix(BitString(a.minutes, 60), BitString(b.minutes, 60), " " + ra2, " " + rb2);
    SameLengthPrefix(" ", " ", ra2, rb2);
    SameLengthPrefix(BitString(a.hours, 24), BitString(b.hours, 24), " " + ra3, " " + rb3);
    SameLengthPrefix(" ", " ", ra3, rb3);
    SameLengthPrefix(BitString(a.daysOfMonth, 31), BitString(b.daysOfMonth, 31), " " + ra4, " " + rb4);
    SameLengthPrefix(" ", " ", ra4, rb4);
    SameLengthPrefix(BitString(a.months, 12), BitString(b.months, 12), " " + ra5, " " + rb5);
    SameLengthPrefix(" ", " ", ra5, rb5);
  }

  /** Equal expressions fire at the same times, whichever built-in table each was parsed with. */
  lemma EqualFireAlike(a: CronExpr, b: CronExpr, t: int)
    requires BuiltIn(a.traits) && BuiltIn(b.traits) && Equal(a, b)
    ensures NextFiring(a, t) == NextFiring(b, t)
  {
    EqualMatches(a, b, FirstCandidate(t), Horizon(t));
  }

  lemma {:induction false} EqualMatches(a: CronExpr, b: CronExpr, n: int, limit: int)
    requires BuiltIn(a.traits) && BuiltIn(b.traits) && Equal(a, b)
    ensures FirstMatch(a, n, limit) == FirstMatch(b, n, limit)
    decreases limit - n
  {
    hide Matches, BuiltIn;
    if n < limit {
      EqualAt(a, b, n);
      EqualMatches(a, b, n + 1, limit);
    }
  }

  lemma EqualAt(a: CronExpr, b: CronExpr, n: int)
    requires BuiltIn(a.traits) && BuiltIn(b.traits) && Equal(a, b)
    ensures Matches(a, n) <==> Matches(b, n)
  {
    hide IsSet, Year, Month, Day, Hour, Minute, Second, Weekday, CronDOW, BuiltIn;
    WeekdayBit(a, n);
    WeekdayBit(b, n);
  }
}
