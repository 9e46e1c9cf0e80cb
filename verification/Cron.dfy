/** Six-field cron expressions and the search for the next firing time. */
module Cron {
  import opened Common
  import opened Calendar
  import opened Words

  datatype Traits = Traits(
    minSeconds: int, maxSeconds: int,
    minMinutes: int, maxMinutes: int,
    minHours: int, maxHours: int,
    minDOM: int, maxDOM: int,
    minMonths: int, maxMonths: int,
    minDOW: int, maxDOW: int,
    days: seq<string>, months: seq<string>)

  const DAYS := ["SUN", "MON", "TUE", "WED", "THU", "FRI", "SAT"]
  const MONTHS := ["JAN", "FEB", "MAR", "APR", "MAY", "JUN", "JUL", "AUG", "SEP", "OCT", "NOV", "DEC"]

  const STANDARD := Traits(0, 59, 0, 59, 0, 23, 1, 31, 1, 12, 0, 6, DAYS, ["NIL"] + MONTHS)
  const ORACLE := Traits(0, 59, 0, 59, 0, 23, 1, 31, 0, 11, 1, 7, ["NIL"] + DAYS, MONTHS)
  const QUARTZ := Traits(0, 59, 0, 59, 0, 23, 1, 31, 1, 12, 1, 7, ["NIL"] + DAYS, ["NIL"] + MONTHS)

  predicate BuiltIn(t: Traits) { t == STANDARD || t == ORACLE || t == QUARTZ }

  const CRON_MAX_YEARS_DIFF := 4
  const INVALID_INDEX := -1

  /** The bit sets are 64-bit words. */
  datatype CronExpr = CronExpr(
    seconds: nat, minutes: nat, hours: nat, daysOfMonth: nat, months: nat, daysOfWeek: nat,
    expression: string, traits: Traits)

  /** A shift by a negative or too large index yields an empty mask in Go. */
  predicate IsSet(bits: nat, index: int) {
    0 <= index < 64 && And(bits, Pow2(index)) != 0
  }

  method FindNextSetBit(bits: nat, current: int, max: int) returns (r: int)
    ensures r == INVALID_INDEX || (current < r < max && IsSet(bits, r))
    ensures Clear(bits, current + 1, if r == INVALID_INDEX then max else r)
  {
    var i := current + 1;
    while i < max
      invariant current < i
      invariant forall k :: current < k < i ==> !IsSet(bits, k)
    {
      if IsSet(bits, i) {
        return i;
      }
      i := i + 1;
    }
    return INVALID_INDEX;
  }

  function CronMonth(c: CronExpr, n: int): int { Month(n) - 1 + c.traits.minMonths }

  function CronDOW(c: CronExpr, n: int): int {
    if c.traits.minDOW == 1 then Weekday(n) + 1 else Weekday(n)
  }

  predicate MonthMatches(c: CronExpr, n: int) {
    IsSet(c.months, CronMonth(c, n) - c.traits.minMonths)
  }

  predicate DayMatches(c: CronExpr, n: int) {
    && IsSet(c.daysOfMonth, Day(n) - c.traits.minDOM)
    && IsSet(c.daysOfWeek, CronDOW(c, n) - c.traits.minDOW)
  }

  predicate HourMatches(c: CronExpr, n: int) { IsSet(c.hours, Hour(n) - c.traits.minHours) }
  predicate MinuteMatches(c: CronExpr, n: int) { IsSet(c.minutes, Minute(n) - c.traits.minMinutes) }
  predicate SecondMatches(c: CronExpr, n: int) { IsSet(c.seconds, Second(n) - c.traits.minSeconds) }

  /** The instant satisfies all six fields (day of month AND day of week). */
  predicate Matches(c: CronExpr, n: int) {
    MonthMatches(c, n) && DayMatches(c, n) && HourMatches(c, n) && MinuteMatches(c, n) && SecondMatches(c, n)
  }

  /** The reference: try every second in turn. */
  function FirstMatch(c: CronExpr, n: int, limit: int): Option<int>
    decreases limit - n
  {
    if n >= limit then None
    else if Matches(c, n) then Some(n)
    else FirstMatch(c, n + 1, limit)
  }

  lemma {:induction false} FirstMatchSkips(c: CronExpr, n: int, m: int, limit: int)
    requires n <= m <= limit
    requires forall k :: n <= k < m ==> !Matches(c, k)
    ensures m == limit ==> FirstMatch(c, n, limit) == None
    ensures m < limit && Matches(c, m) ==> FirstMatch(c, n, limit) == Some(m)
    decreases m - n
  {
    if n < m {
      FirstMatchSkips(c, n + 1, m, limit);
    }
  }

  /** What the reference finds is the least match of the range, and it finds one if there is one. */
  lemma {:induction false} FirstMatchIsLeast(c: CronExpr, n: int, limit: int, k: int)
    requires n <= k < limit
    ensures FirstMatch(c, n, limit).Some? ==>
              var m := FirstMatch(c, n, limit).value;
              n <= m < limit && Matches(c, m) && (k < m ==> !Matches(c, k))
    ensures FirstMatch(c, n, limit).None? ==> !Matches(c, k)
    decreases limit - n
  {
    if !Matches(c, n) && n + 1 < limit {
      FirstMatchIsLeast(c, n + 1, limit, if k == n then n + 1 else k);
    }
  }

  /** The first whole second after an instant given in nanoseconds. */
  function FirstCandidate(t: int): int { t / 1_000_000_000 + 1 }

  /** The search gives up at the start of the fifth year after the first candidate's. */
  function Horizon(t: int): int {
    DateTime(Year(FirstCandidate(t)) + CRON_MAX_YEARS_DIFF + 1, 1, 1, 0, 0, 0)
  }

  function NextFiring(c: CronExpr, t: int): Option<int> {
    FirstMatch(c, FirstCandidate(t), Horizon(t))
  }

  /** No index of the range is set. */
  ghost predicate Clear(bits: nat, from: int, to: int) {
    forall i :: from <= i < to ==> !IsSet(bits, i)
  }

  /** What the jumps rely on: no field reaches beyond the calendar, and no bit lies beyond its field. All words
      over the built-in tables are such, and so are all parsed ones over tables that fit the calendar. */
  ghost predicate Jumpable(c: CronExpr) {
    var t := c.traits;
    && t.maxMonths - t.minMonths <= 11 && t.maxHours <= 23 && t.maxMinutes <= 59 && t.maxSeconds <= 59
    && Clear(c.months, t.maxMonths - t.minMonths + 1, 12)
    && Clear(c.hours, t.maxHours - t.minHours + 1, 24 - t.minHours)
    && Clear(c.minutes, t.maxMinutes - t.minMinutes + 1, 60 - t.minMinutes)
    && Clear(c.seconds, t.maxSeconds - t.minSeconds + 1, 60 - t.minSeconds)
  }

  ghost predicate NoMatch(c: CronExpr, from: int, to: int) {
    forall k :: from <= k < to ==> !Matches(c, k)
  }

  /** No jump skips a match: one lemma per jump. */
  lemma MonthJump(c: CronExpr, n: int, target: int)
    requires Month(n) < target <= 13
    requires Clear(c.months, Month(n) - 1, target - 1)
    ensures NoMatch(c, n, DateTime(Year(n), target, 1, 0, 0, 0))
  {
    forall k | n <= k < DateTime(Year(n), target, 1, 0, 0, 0) ensures !Matches(c, k) {
      MonthSpan(n, k, target);
      assert !IsSet(c.months, Month(k) - 1);
    }
  }

  lemma DayJump(c: CronExpr, n: int)
    requires !DayMatches(c, n) || Clear(c.hours, Hour(n) - c.traits.minHours, 24 - c.traits.minHours)
    ensures NoMatch(c, n, DateTime(Year(n), Month(n), Day(n) + 1, 0, 0, 0))
  {
    DateTimeFrom(n, Day(n) + 1, 0, 0, 0);
    forall k | n <= k < (n / 86400 + 1) * 86400 ensures !Matches(c, k) {
      ClockOrder(n, k);
      assert DayMatches(c, k) == DayMatches(c, n);
    }
  }

  lemma HourJump(c: CronExpr, n: int, target: int)
    requires Hour(n) < target <= 24
    requires Clear(c.hours, Hour(n) - c.traits.minHours, target - c.traits.minHours)
          || (target == Hour(n) + 1 && Clear(c.minutes, Minute(n) - c.traits.minMinutes, 60 - c.traits.minMinutes))
    ensures NoMatch(c, n, DateTime(Year(n), Month(n), Day(n), target, 0, 0))
  {
    DateTimeFrom(n, Day(n), target, 0, 0);
    ClockFields(n);
    forall k | n <= k < n / 86400 * 86400 + target * 3600 ensures !Matches(c, k) {
      ClockOrder(n, k);
    }
  }

  lemma MinuteJump(c: CronExpr, n: int, target: int)
    requires Minute(n) < target <= 60
    requires Clear(c.minutes, Minute(n) - c.traits.minMinutes, target - c.traits.minMinutes)
          || (target == Minute(n) + 1 && Clear(c.seconds, Second(n) - c.traits.minSeconds, 60 - c.traits.minSeconds))
    ensures NoMatch(c, n, DateTime(Year(n), Month(n), Day(n), Hour(n), target, 0))
  {
    DateTimeFrom(n, Day(n), Hour(n), target, 0);
    ClockFields(n);
    forall k | n <= k < n / 86400 * 86400 + Hour(n) * 3600 + target * 60 ensures !Matches(c, k) {
      ClockOrder(n, k);
    }
  }

  lemma SecondJump(c: CronExpr, n: int, target: int)
    requires Second(n) < target < 60
    requires Clear(c.seconds, Second(n) - c.traits.minSeconds, target - c.traits.minSeconds)
    ensures NoMatch(c, n, DateTime(Year(n), Month(n), Day(n), Hour(n), Minute(n), target))
  {
    DateTimeFrom(n, Day(n), Hour(n), Minute(n), target);
    ClockFields(n);
    forall k | n <= k < n + target - Second(n) ensures !Matches(c, k) {
      MinuteSplit(k, n / 60, Second(n) + (k - n));
    }
  }

  /** Every jump goes forward, also one beyond the calendar. */
  lemma MonthForward(n: int, target: int)
    requires Month(n) < target
    ensures n < DateTime(Year(n), target, 1, 0, 0, 0)
  {
    hide DateTime, DateOf;
    if target <= 13 {
      MonthAhead(n, target);
    } else {
      var y := Year(n);
      var later, m := MonthCarried(y, target);
      FieldsOfDateTime(later, m, 1, 0, 0, 0);
      YearReached(n, y + 1);
      YearReached(DateTime(later, m, 1, 0, 0, 0), y + 1);
    }
  }

  lemma MonthCarried(y: int, target: int) returns (later: int, m: int)
    requires target > 13
    ensures later > y && 1 <= m <= 12 && DateTime(y, target, 1, 0, 0, 0) == DateTime(later, m, 1, 0, 0, 0)
  {
    hide MonthStart;
    later, m := y + (target - 1) / 12, (target - 1) % 12 + 1;
    assert (m - 1) / 12 == 0 && (m - 1) % 12 + 1 == m;
  }

  lemma ClockForward(n: int)
    ensures n < DateTime(Year(n), Month(n), Day(n) + 1, 0, 0, 0)
    ensures forall h :: h > Hour(n) ==> n < DateTime(Year(n), Month(n), Day(n), h, 0, 0)
    ensures forall m :: m > Minute(n) ==> n < DateTime(Year(n), Month(n), Day(n), Hour(n), m, 0)
    ensures forall s :: s > Second(n) ==> n < DateTime(Year(n), Month(n), Day(n), Hour(n), Minute(n), s)
  {
    hide DateTime, Year, Month, Day, Hour, Minute, Second;
    ClockFields(n);
    DateTimeFrom(n, Day(n) + 1, 0, 0, 0);
    forall h | h > Hour(n) ensures n < DateTime(Year(n), Month(n), Day(n), h, 0, 0) {
      DateTimeFrom(n, Day(n), h, 0, 0);
    }
    forall m | m > Minute(n) ensures n < DateTime(Year(n), Month(n), Day(n), Hour(n), m, 0) {
      DateTimeFrom(n, Day(n), Hour(n), m, 0);
    }
    forall s | s > Second(n) ensures n < DateTime(Year(n), Month(n), Day(n), Hour(n), Minute(n), s) {
      DateTimeFrom(n, Day(n), Hour(n), Minute(n), s);
    }
  }

  /** Where a pass of the search may move: nowhere, or forward, past instants that do not match. */
  ghost predicate Advances(c: CronExpr, n: int, m: int) {
    n <= m && (Jumpable(c) ==> NoMatch(c, n, m))
  }

  /** The month and day checks of one pass of the loop. */
  method CheckDate(c: CronExpr, n: int) returns (next: int)
    ensures Advances(c, n, next)
    ensures next == n ==> MonthMatches(c, n) && DayMatches(c, n)
  {
    hide DateTime, Year, Month, IsSet;
    var cronMonth := CronMonth(c, n);
    if !IsSet(c.months, cronMonth - c.traits.minMonths) {
      var nextMonthBit := FindNextSetBit(c.months, cronMonth - c.traits.minMonths, c.traits.maxMonths - c.traits.minMonths + 1);
      if nextMonthBit == INVALID_INDEX {
        NextYear(n);
        MonthForward(n, 13);
        if Jumpable(c) { MonthJump(c, n, 13); }
        return DateTime(Year(n) + 1, 1, 1, 0, 0, 0);
      }
      MonthForward(n, nextMonthBit + 1);
      if Jumpable(c) { MonthJump(c, n, nextMonthBit + 1); }
      return DateTime(Year(n), nextMonthBit + 1, 1, 0, 0, 0);
    }
    var dom, dow := Day(n), Weekday(n);
    var cronDOW := if c.traits.minDOW == 1 then dow + 1 else dow;
    var domMatch := IsSet(c.daysOfMonth, dom - c.traits.minDOM);
    var dowMatch := IsSet(c.daysOfWeek, cronDOW - c.traits.minDOW);
    if !domMatch || !dowMatch {
      ClockForward(n);
      DayJump(c, n);
      return DateTime(Year(n), Month(n), Day(n) + 1, 0, 0, 0);
    }
    return n;
  }

  lemma NextYear(n: int)
    ensures DateTime(Year(n), 13, 1, 0, 0, 0) == DateTime(Year(n) + 1, 1, 1, 0, 0, 0)
    ensures 1 <= Month(n) <= 12
  {
    MonthAhead(n, 13);
  }

  /** The hour check. */
  method CheckHour(c: CronExpr, n: int) returns (next: int)
    ensures Advances(c, n, next)
    ensures next == n ==> HourMatches(c, n)
  {
    hide DateTime, Year, Month, Day, Hour, IsSet, Matches;
    var hour := Hour(n);
    ClockFields(n);
    ClockForward(n);
    if !IsSet(c.hours, hour - c.traits.minHours) {
      var nextHour := FindNextSetBit(c.hours, hour - c.traits.minHours, c.traits.maxHours - c.traits.minHours + 1);
      if nextHour == INVALID_INDEX {
        if Jumpable(c) { DayJump(c, n); }
        return DateTime(Year(n), Month(n), Day(n) + 1, 0, 0, 0);
      }
      if Jumpable(c) { HourJump(c, n, nextHour + c.traits.minHours); }
      return DateTime(Year(n), Month(n), Day(n), nextHour + c.traits.minHours, 0, 0);
    }
    return n;
  }

  /** The minute check. */
  method CheckMinute(c: CronExpr, n: int) returns (next: int)
    ensures Advances(c, n, next)
    ensures next == n ==> MinuteMatches(c, n)
  {
    hide DateTime, Year, Month, Day, Hour, Minute, IsSet, Matches;
    var minute := Minute(n);
    ClockFields(n);
    ClockForward(n);
    if !IsSet(c.minutes, minute - c.traits.minMinutes) {
      var nextMinute := FindNextSetBit(c.minutes, minute - c.traits.minMinutes, c.traits.maxMinutes - c.traits.minMinutes + 1);
      if nextMinute == INVALID_INDEX {
        if Jumpable(c) { HourJump(c, n, Hour(n) + 1); }
        return DateTime(Year(n), Month(n), Day(n), Hour(n) + 1, 0, 0);
      }
      if Jumpable(c) { MinuteJump(c, n, nextMinute + c.traits.minMinutes); }
      return DateTime(Year(n), Month(n), Day(n), Hour(n), nextMinute + c.traits.minMinutes, 0);
    }
    return n;
  }

  /** The second check. */
  method CheckSecond(c: CronExpr, n: int) returns (next: int)
    ensures Advances(c, n, next)
    ensures next == n ==> SecondMatches(c, n)
  {
    hide DateTime, Year, Month, Day, Hour, Minute, Second, IsSet, Matches;
    var second := Second(n);
    ClockFields(n);
    ClockForward(n);
    if !IsSet(c.seconds, second - c.traits.minSeconds) {
      var nextSecond := FindNextSetBit(c.seconds, second - c.traits.minSeconds, c.traits.maxSeconds - c.traits.minSeconds + 1);
      if nextSecond == INVALID_INDEX {
        if Jumpable(c) { MinuteJump(c, n, Minute(n) + 1); }
        return DateTime(Year(n), Month(n), Day(n), Hour(n), Minute(n) + 1, 0);
      }
      if Jumpable(c) { SecondJump(c, n, nextSecond + c.traits.minSeconds); }
      return DateTime(Year(n), Month(n), Day(n), Hour(n), Minute(n), nextSecond + c.traits.minSeconds);
    }
    return n;
  }

  /** CronExpr.Next. With any table the search ends, and what it returns matches, lies after t and before the
      horizon; where the fields fit the calendar it is the least matching second. */
  method Next(c: CronExpr, t: int) returns (r: Option<int>)
    ensures r.Some? ==> r.value * 1_000_000_000 > t && r.value < Horizon(t) && Matches(c, r.value)
    ensures Jumpable(c) ==> r == NextFiring(c, t)
  {
    hide FirstMatch, Year, DateTime, MonthMatches, DayMatches, HourMatches, MinuteMatches, SecondMatches, Jumpable;
    var next := t / 1_000_000_000;
    if !(next * 1_000_000_000 > t) {
      next := next + 1;
    }
    ghost var first := next;
    assert first == FirstCandidate(t);
    var maxYear := Year(next) + CRON_MAX_YEARS_DIFF;
    ghost var limit := Horizon(t);
    YearReached(first, maxYear + 1);
    while true
      invariant Advances(c, first, next)
      decreases limit - next
    {
      YearReached(next, maxYear + 1);
      if Year(next) > maxYear {
        if Jumpable(c) { FirstMatchSkips(c, first, limit, limit); }
        return None;
      }
      var moved := CheckDate(c, next);
      if moved != next { next := moved; continue; }
      moved := CheckHour(c, next);
      if moved != next { next := moved; continue; }
      moved := CheckMinute(c, next);
      if moved != next { next := moved; continue; }
      moved := CheckSecond(c, next);
      if moved != next { next := moved; continue; }
      if Jumpable(c) { FirstMatchSkips(c, first, next, limit); }
      return Some(next);
    }
  }
}
