/**
 Quota periods on the UTC calendar, with `Date.UTC` and the UTC getters of section 21.4.1 of
 ECMA-262. Time values are integers of milliseconds; an out-of-range date is invalid.
 */
module PeriodCalendar {
  import opened Prelude
  import opened QuotaTypes

  const MS_PER_DAY := 86400000
  const MAX_TIME := 8640000000000000

  // ---------------------------------------------------------------------------------------------
  // Days, years and months
  // ---------------------------------------------------------------------------------------------

  /** Dafny's division rounds down for a positive divisor, as `floor` does. */
  function Day(t: int): int {
    t / MS_PER_DAY
  }

  function DayFromYear(y: int): int {
    365 * (y - 1970) + (y - 1969) / 4 - (y - 1901) / 100 + (y - 1601) / 400
  }

  predicate IsLeap(y: int) {
    y % 4 == 0 && (y % 100 != 0 || y % 400 == 0)
  }

  function DaysInYear(y: int): int {
    if IsLeap(y) then 366 else 365
  }

  lemma FourYears(y: int)
    ensures (y - 1968) / 4 == (y - 1969) / 4 + if y % 4 == 0 then 1 else 0
  {
  }

  lemma Centuries(y: int)
    ensures (y - 1900) / 100 == (y - 1901) / 100 + if y % 100 == 0 then 1 else 0
  {
  }

  lemma FourCenturies(y: int)
    ensures (y - 1600) / 400 == (y - 1601) / 400 + if y % 400 == 0 then 1 else 0
    ensures y % 400 == 0 ==> y % 100 == 0
    ensures y % 100 == 0 ==> y % 4 == 0
  {
  }

  lemma YearLength(y: int)
    ensures DayFromYear(y + 1) == DayFromYear(y) + DaysInYear(y)
  {
    FourYears(y);
    Centuries(y);
    FourCenturies(y);
  }

  lemma {:induction false} YearsApart(y: int, z: int)
    requires y <= z
    ensures DayFromYear(z) >= DayFromYear(y) + 365 * (z - y)
    decreases z - y
  {
    if y < z {
      YearLength(z - 1);
      YearsApart(y, z - 1);
    }
  }

  predicate InYear(y: int, day: int) {
    DayFromYear(y) <= day < DayFromYear(y + 1)
  }

  /** The year of a day: the largest one that has begun. */
  function YearOf(day: int): (y: int)
    ensures InYear(y, day)
  {
    assert DayFromYear(1970) == 0;
    if day < 0 then
      YearsApart(1970 + day / 365, 1970);
      YearFrom(day, 1970 + day / 365)
    else YearFrom(day, 1970)
  }

  function YearFrom(day: int, y: int): (r: int)
    requires DayFromYear(y) <= day
    ensures InYear(r, day)
    decreases day - DayFromYear(y)
  {
    YearLength(y);
    if day < DayFromYear(y + 1) then y else YearFrom(day, y + 1)
  }

  lemma YearUnique(y: int, day: int)
    requires InYear(y, day)
    ensures YearOf(day) == y
  {
    var r := YearOf(day);
    if r < y { YearsApart(r + 1, y); }
    if y < r { YearsApart(y + 1, r); }
  }

  const DAYS_BEFORE := [0, 31, 59, 90, 120, 151, 181, 212, 243, 273, 304, 334, 365]

  /** Days of the year before month `m`, 0 to 12. */
  function DaysBefore(y: int, m: int): int
    requires 0 <= m <= 12
  {
    DAYS_BEFORE[m] + if m >= 2 && IsLeap(y) then 1 else 0
  }

  predicate InMonth(y: int, m: int, dayInYear: int) {
    0 <= m < 12 && DaysBefore(y, m) <= dayInYear < DaysBefore(y, m + 1)
  }

  function MonthFrom(y: int, dayInYear: int, m: int): (r: int)
    requires 0 <= m < 12 && DaysBefore(y, m) <= dayInYear < DaysInYear(y)
    ensures InMonth(y, r, dayInYear)
    decreases 12 - m
  {
    if dayInYear < DaysBefore(y, m + 1) then m else MonthFrom(y, dayInYear, m + 1)
  }

  function MonthOf(day: int): (m: int)
    ensures InMonth(YearOf(day), m, day - DayFromYear(YearOf(day)))
  {
    YearLength(YearOf(day));
    MonthFrom(YearOf(day), day - DayFromYear(YearOf(day)), 0)
  }

  function DateOf(day: int): int {
    day - DayFromYear(YearOf(day)) - DaysBefore(YearOf(day), MonthOf(day)) + 1
  }

  lemma MonthsAscend(y: int, m: int, n: int)
    requires 0 <= m <= n <= 12
    ensures DaysBefore(y, m) <= DaysBefore(y, n)
  {
  }

  lemma MonthUnique(y: int, m: int, day: int)
    requires InYear(y, day) && InMonth(y, m, day - DayFromYear(y))
    ensures MonthOf(day) == m
  {
    YearUnique(y, day);
    var r := MonthOf(day);
    if r < m { MonthsAscend(y, r + 1, m); }
    if m < r { MonthsAscend(y, m + 1, r); }
  }

  /** MakeDay: a month outside 0 to 11 carries into the year. */
  function MakeDay(year: int, month: int, date: int): int {
    DayFromYear(year + month / 12) + DaysBefore(year + month / 12, month % 12) + date - 1
  }

  /** MakeDay finds the day the standard asks for: of that year and month, dated the first. */
  lemma MakeDayIsFirst(year: int, month: int)
    ensures var d := MakeDay(year, month, 1);
      YearOf(d) == year + month / 12 && MonthOf(d) == month % 12 && DateOf(d) == 1
  {
    var y, m := year + month / 12, month % 12;
    YearLength(y);
    MonthsAscend(y, m + 1, 12);
    assert DaysBefore(y, m) < DaysBefore(y, m + 1);
    YearUnique(y, MakeDay(year, month, 1));
    MonthUnique(y, m, MakeDay(year, month, 1));
  }

  lemma InRange(y: int, m: int, date: int)
    requires 0 <= m < 12
    ensures MakeDay(y, m, date) == DayFromYear(y) + DaysBefore(y, m) + date - 1
  {
  }

  /** The month after December is the next January. */
  lemma NextMonth(y: int, m: int)
    requires 0 <= m < 12
    ensures MakeDay(y, m + 1, 1) == DayFromYear(y) + DaysBefore(y, m + 1)
  {
    if m < 11 {
      InRange(y, m + 1, 1);
    } else {
      YearLength(y);
      assert (m + 1) / 12 == 1 && (m + 1) % 12 == 0;
    }
  }

  /** The getters take a day apart and MakeDay puts it together again. */
  lemma MakeDayOfGetters(day: int)
    ensures MakeDay(YearOf(day), MonthOf(day), DateOf(day)) == day
    ensures 1 <= DateOf(day)
  {
    InRange(YearOf(day), MonthOf(day), DateOf(day));
  }

  // ---------------------------------------------------------------------------------------------
  // Date objects
  // ---------------------------------------------------------------------------------------------

  datatype Bound = At(ms: int) | InvalidDate | Unbounded

  function TimeClip(t: int): Bound {
    if -MAX_TIME <= t <= MAX_TIME then At(t) else InvalidDate
  }

  /** Two-digit years mean the twentieth century. */
  predicate TwoDigit(y: int) {
    0 <= y <= 99
  }

  function DateUTC(year: int, month: int, date: int): Bound {
    TimeClip(MakeDay(if TwoDigit(year) then 1900 + year else year, month, date) * MS_PER_DAY)
  }

  datatype Period = Period(start: Bound, end: Bound)

  function PeriodOf(reset: ResetPeriod, now: int, subscriptionStart: Option<int>, subscriptionEnd: Option<int>): Period {
    var day := Day(now);
    match reset
    case Daily =>
      var start := DateUTC(YearOf(day), MonthOf(day), DateOf(day));
      Period(start, if start.At? then TimeClip(start.ms + MS_PER_DAY) else InvalidDate)
    case Monthly =>
      Period(DateUTC(YearOf(day), MonthOf(day), 1), DateUTC(YearOf(day), MonthOf(day) + 1, 1))
    case SubscriptionTerm =>
      if subscriptionStart.Some? then
        Period(At(subscriptionStart.value), if subscriptionEnd.Some? then At(subscriptionEnd.value) else Unbounded)
      else Period(At(0), Unbounded)
    case NoReset => Period(At(0), Unbounded)
  }

  // ---------------------------------------------------------------------------------------------
  // Tiling
  // ---------------------------------------------------------------------------------------------

  function Start(reset: ResetPeriod, now: int): Bound {
    PeriodOf(reset, now, None, None).start
  }

  /** The period contains `now`, all its instants share it, and the next begins where it ends. */
  ghost predicate Tiles(reset: ResetPeriod, now: int) {
    var p := PeriodOf(reset, now, None, None);
    && p.start.At? && p.end.At? && p.start.ms <= now < p.end.ms
    && (forall t | p.start.ms <= t < p.end.ms :: Start(reset, t) == p.start)
    && Start(reset, p.end.ms) == p.end
  }

  /** Where the calendar period of `now` ends: the next midnight, or the next first of a month. */
  function EndDay(reset: ResetPeriod, now: int): int {
    if reset.Daily? then Day(now) + 1 else MakeDay(YearOf(Day(now)), MonthOf(Day(now)) + 1, 1)
  }

  function FirstDay(reset: ResetPeriod, now: int): int {
    if reset.Daily? then Day(now) else MakeDay(YearOf(Day(now)), MonthOf(Day(now)), 1)
  }

  /** Neither end lies in the years 0 to 99 and both are representable dates. */
  predicate Representable(reset: ResetPeriod, now: int) {
    && !TwoDigit(YearOf(Day(now))) && !TwoDigit(YearOf(EndDay(reset, now)))
    && -MAX_TIME <= FirstDay(reset, now) * MS_PER_DAY && EndDay(reset, now) * MS_PER_DAY <= MAX_TIME
  }

  lemma DayBounds(t: int)
    ensures Day(t) * MS_PER_DAY <= t < (Day(t) + 1) * MS_PER_DAY
  {
  }

  lemma DayOfMidnight(d: int)
    ensures Day(d * MS_PER_DAY) == d
  {
  }

  lemma DayWithin(t: int, first: int, end: int)
    requires first * MS_PER_DAY <= t < end * MS_PER_DAY
    ensures first <= Day(t) < end
  {
    DayBounds(t);
  }

  /** The days of one month: those from its first up to the next month's first. */
  lemma SameMonth(now: int, day: int)
    requires FirstDay(Monthly, now) <= day < EndDay(Monthly, now)
    ensures YearOf(day) == YearOf(Day(now)) && MonthOf(day) == MonthOf(Day(now))
  {
    var y, m := YearOf(Day(now)), MonthOf(Day(now));
    NextFirst(now);
    YearLength(y);
    MonthsAscend(y, m + 1, 12);
    YearUnique(y, day);
    MonthUnique(y, m, day);
  }

  /** Past December the month carries into the next year. */
  lemma NextFirst(now: int)
    ensures var y, m := YearOf(Day(now)), MonthOf(Day(now));
      && FirstDay(Monthly, now) == DayFromYear(y) + DaysBefore(y, m)
      && EndDay(Monthly, now) == DayFromYear(y) + DaysBefore(y, m + 1)
      && FirstDay(Monthly, now) <= Day(now) < EndDay(Monthly, now)
  {
    var y, m := YearOf(Day(now)), MonthOf(Day(now));
    InRange(y, m, 1);
    NextMonth(y, m);
    assert InMonth(y, m, Day(now) - DayFromYear(y));
  }

  lemma Span(reset: ResetPeriod, now: int)
    requires reset.Daily? || reset.Monthly?
    ensures FirstDay(reset, now) <= Day(now) < EndDay(reset, now)
    ensures FirstDay(reset, now) * MS_PER_DAY <= now < EndDay(reset, now) * MS_PER_DAY
  {
    NextFirst(now);
    DayBounds(now);
  }

  /** Outside the two-digit years the period is the calendar's; inside them it begins centuries late. */
  lemma StartIs(reset: ResetPeriod, now: int)
    requires reset.Daily? || reset.Monthly?
    ensures !TwoDigit(YearOf(Day(now))) ==>
      PeriodOf(reset, now, None, None).start == TimeClip(FirstDay(reset, now) * MS_PER_DAY)
    ensures TwoDigit(YearOf(Day(now))) ==>
      PeriodOf(reset, now, None, None).start.At? ==> PeriodOf(reset, now, None, None).start.ms > now
  {
    var day := Day(now);
    var y := YearOf(day);
    MakeDayOfGetters(day);
    DayBounds(now);
    if TwoDigit(y) {
      YearsApart(y + 1, 1900 + y);
      assert MakeDay(1900 + y, MonthOf(day), 1) > day && MakeDay(1900 + y, MonthOf(day), DateOf(day)) > day;
    }
  }

  lemma EndIs(reset: ResetPeriod, now: int)
    requires (reset.Daily? || reset.Monthly?) && !TwoDigit(YearOf(Day(now)))
    requires -MAX_TIME <= FirstDay(reset, now) * MS_PER_DAY <= MAX_TIME
    ensures PeriodOf(reset, now, None, None).end == TimeClip(EndDay(reset, now) * MS_PER_DAY)
  {
    StartIs(reset, now);
  }

  /** Every day of a period has that period's first day, and its year is two-digit only if `now`'s is. */
  lemma SamePeriod(reset: ResetPeriod, now: int, t: int)
    requires reset.Daily? || reset.Monthly?
    requires FirstDay(reset, now) * MS_PER_DAY <= t < EndDay(reset, now) * MS_PER_DAY
    ensures FirstDay(reset, t) == FirstDay(reset, now) && YearOf(Day(t)) == YearOf(Day(now))
  {
    DayWithin(t, FirstDay(reset, now), EndDay(reset, now));
    if reset.Monthly? { SameMonth(now, Day(t)); }
  }

  /** The period that begins where this one ends begins on the next period's first day. */
  lemma NextBegins(reset: ResetPeriod, now: int)
    requires reset.Daily? || reset.Monthly?
    ensures FirstDay(reset, EndDay(reset, now) * MS_PER_DAY) == EndDay(reset, now)
    ensures Day(EndDay(reset, now) * MS_PER_DAY) == EndDay(reset, now)
  {
    DayOfMidnight(EndDay(reset, now));
    if reset.Monthly? {
      MakeDayIsFirst(YearOf(Day(now)), MonthOf(Day(now)) + 1);
      MakeDayOfGetters(EndDay(reset, now));
    }
  }

  lemma RepresentableTiles(reset: ResetPeriod, now: int)
    requires (reset.Daily? || reset.Monthly?) && -MAX_TIME <= now <= MAX_TIME && Representable(reset, now)
    ensures Tiles(reset, now)
  {
    Span(reset, now);
    StartIs(reset, now);
    EndIs(reset, now);
    var end := EndDay(reset, now) * MS_PER_DAY;
    forall t | FirstDay(reset, now) * MS_PER_DAY <= t < end
      ensures Start(reset, t) == PeriodOf(reset, now, None, None).start
    {
      SamePeriod(reset, now, t);
      StartIs(reset, t);
    }
    NextBegins(reset, now);
    StartIs(reset, end);
  }

  lemma TilesRepresentable(reset: ResetPeriod, now: int)
    requires (reset.Daily? || reset.Monthly?) && -MAX_TIME <= now <= MAX_TIME && Tiles(reset, now)
    ensures Representable(reset, now)
  {
    Span(reset, now);
    StartIs(reset, now);
    EndIs(reset, now);
    NextBegins(reset, now);
    StartIs(reset, EndDay(reset, now) * MS_PER_DAY);
  }

  /**
   DAILY and MONTHLY periods tile time exactly as long as neither end falls in the years 0 to 99,
   which `Date.UTC` moves to 1900-1999, and both ends are dates JavaScript can represent.
   */
  lemma TilingExactly(reset: ResetPeriod, now: int)
    requires (reset.Daily? || reset.Monthly?) && -MAX_TIME <= now <= MAX_TIME
    ensures Tiles(reset, now) <==> Representable(reset, now)
  {
    if Tiles(reset, now) { TilesRepresentable(reset, now); }
    if Representable(reset, now) { RepresentableTiles(reset, now); }
  }

  lemma YearAtLeast(day: int, y: int)
    ensures DayFromYear(y) <= day <==> y <= YearOf(day)
  {
    var r := YearOf(day);
    if r < y { YearsApart(r + 1, y); } else { YearsApart(y, r); }
  }

  lemma FirstOfYear(y: int)
    ensures YearOf(DayFromYear(y)) == y && MonthOf(DayFromYear(y)) == 0 && DateOf(DayFromYear(y)) == 1
  {
    YearLength(y);
    YearUnique(y, DayFromYear(y));
    MonthUnique(y, 0, DayFromYear(y));
  }

  /** On New Year's day of any year 0 to 99 the daily "current" period begins 1900 years later. */
  lemma TwoDigitYearFails(y: int, now: int)
    requires TwoDigit(y) && Day(now) == DayFromYear(y)
    ensures PeriodOf(Daily, now, None, None).start == TimeClip(DayFromYear(1900 + y) * MS_PER_DAY)
    ensures !Tiles(Daily, now)
  {
    FirstOfYear(y);
    InRange(1900 + y, 0, 1);
    StartIs(Daily, now);
  }

  lemma MonthWithinYear(y: int, m: int)
    requires 0 <= m <= 12
    ensures DayFromYear(y) <= DayFromYear(y) + DaysBefore(y, m) <= DayFromYear(y + 1)
  {
    YearLength(y);
    MonthsAscend(y, 0, m);
    MonthsAscend(y, m, 12);
  }

  lemma MonthlyWithinYear(now: int)
    ensures var y := YearOf(Day(now));
      DayFromYear(y) <= FirstDay(Monthly, now) && EndDay(Monthly, now) <= DayFromYear(y + 1)
  {
    var y, m := YearOf(Day(now)), MonthOf(Day(now));
    NextFirst(now);
    MonthWithinYear(y, m);
    MonthWithinYear(y, m + 1);
  }

  /** Every instant of the years 100 to 275759 is safe. */
  lemma TilesFromYear100(reset: ResetPeriod, now: int)
    requires (reset.Daily? || reset.Monthly?) && 100 <= YearOf(Day(now)) < 275760
    ensures Tiles(reset, now)
  {
    var y := YearOf(Day(now));
    if reset.Monthly? { MonthlyWithinYear(now); }
    Span(reset, now);
    YearAtLeast(EndDay(reset, now), y);
    LastYear(y);
    RepresentableTiles(reset, now);
  }

  lemma LastYear(y: int)
    requires 100 <= y < 275760
    ensures -MAX_TIME <= DayFromYear(y) * MS_PER_DAY <= DayFromYear(y + 1) * MS_PER_DAY <= MAX_TIME
  {
    YearsApart(100, y);
    YearsApart(y, y + 1);
    YearsApart(y + 1, 275760);
    assert DayFromYear(275760) * MS_PER_DAY <= MAX_TIME && -MAX_TIME <= DayFromYear(100) * MS_PER_DAY;
  }

  // ---------------------------------------------------------------------------------------------
  // The calendar and its periods, day by day
  // ---------------------------------------------------------------------------------------------

  function MonthLength(y: int, m: int): int {
    if m == 1 then (if y % 4 == 0 && (y % 100 != 0 || y % 400 == 0) then 29 else 28)
    else if m == 3 || m == 5 || m == 8 || m == 10 then 30
    else 31
  }

  lemma MonthHas(y: int, m: int)
    requires 0 <= m < 12
    ensures DaysBefore(y, m + 1) == DaysBefore(y, m) + MonthLength(y, m)
    ensures DaysBefore(y, 0) == 0 && DaysBefore(y, 12) == DaysInYear(y)
  {
  }

  lemma IsDate(day: int, y: int, m: int)
    requires InYear(y, day) && InMonth(y, m, day - DayFromYear(y))
    ensures YearOf(day) == y && MonthOf(day) == m && DateOf(day) == day - DayFromYear(y) - DaysBefore(y, m) + 1
  {
    YearUnique(y, day);
    MonthUnique(y, m, day);
  }

  lemma MonthInYear(y: int, m: int)
    requires 0 <= m < 12
    ensures 0 <= DaysBefore(y, m) < DaysBefore(y, m + 1) == DaysBefore(y, m) + MonthLength(y, m) <= DaysInYear(y)
    ensures DayFromYear(y + 1) == DayFromYear(y) + DaysInYear(y)
  {
    MonthHas(y, m);
    MonthsAscend(y, 0, m);
    MonthsAscend(y, m + 1, 12);
    YearLength(y);
  }

  /** Date `d` of a month is the day the getters read as that. */
  lemma DateIn(y: int, m: int, d: int)
    requires 0 <= m < 12 && 1 <= d <= MonthLength(y, m)
    ensures var day := DayFromYear(y) + DaysBefore(y, m) + d - 1;
      YearOf(day) == y && MonthOf(day) == m && DateOf(day) == d
  {
    MonthInYear(y, m);
    IsDate(DayFromYear(y) + DaysBefore(y, m) + d - 1, y, m);
  }

  lemma DateBounds(day: int)
    ensures var y, m, d := YearOf(day), MonthOf(day), DateOf(day);
      0 <= m < 12 && 1 <= d <= MonthLength(y, m) && day == DayFromYear(y) + DaysBefore(y, m) + d - 1
  {
    MonthInYear(YearOf(day), MonthOf(day));
  }

  /** Day 0 is 1 January 1970. */
  lemma EpochDay(day: int, y: int)
    requires day == 0 && y == 1970
    ensures YearOf(day) == y && MonthOf(day) == 0 && DateOf(day) == 1
  {
    YearZero(y);
    BeginsYear(day, y);
  }

  lemma YearZero(y: int)
    requires y == 1970
    ensures DayFromYear(y) == 0
  {
  }

  lemma BeginsYear(day: int, y: int)
    requires DayFromYear(y) == day
    ensures YearOf(day) == y && MonthOf(day) == 0 && DateOf(day) == 1
  {
    FirstOfYear(y);
  }

  lemma NewYear(y: int)
    ensures DayFromYear(y) + DaysBefore(y, 12) == DayFromYear(y + 1) + DaysBefore(y + 1, 0)
  {
    YearLength(y);
    MonthHas(y, 0);
    MonthHas(y + 1, 0);
  }

  /** From each day to the next the getters move as the Gregorian calendar does. */
  lemma CivilSuccessor(day: int)
    ensures var y, m, d := YearOf(day), MonthOf(day), DateOf(day);
      && 0 <= m < 12 && 1 <= d <= MonthLength(y, m)
      && (YearOf(day + 1), MonthOf(day + 1), DateOf(day + 1)) ==
           if d < MonthLength(y, m) then (y, m, d + 1) else if m < 11 then (y, m + 1, 1) else (y + 1, 0, 1)
  {
    DateBounds(day);
    DateAfter(day, YearOf(day), MonthOf(day), DateOf(day));
  }

  lemma DateAfter(day: int, y: int, m: int, d: int)
    requires 0 <= m < 12 && 1 <= d <= MonthLength(y, m) && day == DayFromYear(y) + DaysBefore(y, m) + d - 1
    ensures (YearOf(day + 1), MonthOf(day + 1), DateOf(day + 1)) ==
      if d < MonthLength(y, m) then (y, m, d + 1) else if m < 11 then (y, m + 1, 1) else (y + 1, 0, 1)
  {
    if d < MonthLength(y, m) {
      DateIn(y, m, d + 1);
    } else if m < 11 {
      NextMonthBegins(day, y, m);
    } else {
      NextYearBegins(day, y, m);
    }
  }

  lemma NextMonthBegins(day: int, y: int, m: int)
    requires 0 <= m < 11 && day == DayFromYear(y) + DaysBefore(y, m) + MonthLength(y, m) - 1
    ensures YearOf(day + 1) == y && MonthOf(day + 1) == m + 1 && DateOf(day + 1) == 1
  {
    MonthHas(y, m);
    MonthHasFirst(y, m + 1);
    DateIn(y, m + 1, 1);
  }

  lemma NextYearBegins(day: int, y: int, m: int)
    requires m == 11 && day == DayFromYear(y) + DaysBefore(y, m) + MonthLength(y, m) - 1
    ensures YearOf(day + 1) == y + 1 && MonthOf(day + 1) == 0 && DateOf(day + 1) == 1
  {
    MonthHas(y, m);
    NewYear(y);
    BeginsYear(day + 1, y + 1);
  }

  lemma MonthHasFirst(y: int, m: int)
    requires 0 <= m < 12
    ensures 1 <= MonthLength(y, m)
  {
  }

  /** A tiled DAILY period is one day from midnight; a MONTHLY one runs from the first midnight of the month to the next's. */
  lemma PeriodShape(reset: ResetPeriod, now: int)
    requires (reset.Daily? || reset.Monthly?) && -MAX_TIME <= now <= MAX_TIME && Representable(reset, now)
    ensures var p := PeriodOf(reset, now, None, None);
      && p.start.At? && p.end.At? && p.start.ms <= now < p.end.ms
      && p.start.ms == FirstDay(reset, now) * 86400000 && p.end.ms == EndDay(reset, now) * 86400000
  {
    Span(reset, now);
    StartIs(reset, now);
    EndIs(reset, now);
  }

  /** The days a period runs between: one day, or from the month's first to the next month's. */
  lemma PeriodDays(now: int)
    ensures FirstDay(Daily, now) <= now / 86400000 < EndDay(Daily, now) == FirstDay(Daily, now) + 1
    ensures var y, m := YearOf(Day(now)), MonthOf(Day(now));
      var first, next := FirstDay(Monthly, now), EndDay(Monthly, now);
      && YearOf(first) == y && MonthOf(first) == m && DateOf(first) == 1
      && DateOf(next) == 1 && (YearOf(next), MonthOf(next)) == if m < 11 then (y, m + 1) else (y + 1, 0)
  {
    DayBounds(now);
    FirstsOf(YearOf(Day(now)), MonthOf(Day(now)));
  }

  lemma FirstsOf(y: int, m: int)
    requires 0 <= m < 12
    ensures var first, next := MakeDay(y, m, 1), MakeDay(y, m + 1, 1);
      && YearOf(first) == y && MonthOf(first) == m && DateOf(first) == 1
      && DateOf(next) == 1 && (YearOf(next), MonthOf(next)) == if m < 11 then (y, m + 1) else (y + 1, 0)
  {
    MakeDayIsFirst(y, m);
    MakeDayIsFirst(y, m + 1);
    Carried(m);
  }

  lemma Carried(m: int)
    requires 0 <= m < 12
    ensures m / 12 == 0 && m % 12 == m
    ensures (m + 1) / 12 == (if m < 11 then 0 else 1) && (m + 1) % 12 == (if m < 11 then m + 1 else 0)
  {
  }
}
