/**
 The search for the next minute that a cron expression allows. An instant is a number of milliseconds
 since the epoch; a zone is a fixed offset in minutes, or None when the runtime does not know the name.
 */
module CronSearch {
  import opened Common
  import opened Calendar
  import opened CronFields
  import opened CronExpressions
  import opened MinuteSearch

  const MS_PER_MINUTE := 60000

  datatype DateParts = DateParts(minute: nat, hour: nat, dayOfMonth: nat, month: nat, dayOfWeek: nat)

  function ZonedDateParts(minute: int, offset: int): DateParts {
    var local := minute + offset;
    var date := DateOf(local / 1440);
    DateParts(local % 60, local / 60 % 24, date.day, date.month, WeekDay(local / 1440))
  }

  /** All five sets must hold, day of month and day of week included. */
  predicate MatchesCron(minute: int, c: ParsedCron, offset: int) {
    var parts := ZonedDateParts(minute, offset);
    && parts.minute in c.minute
    && parts.hour in c.hour
    && parts.dayOfMonth in c.dayOfMonth
    && parts.month in c.month
    && parts.dayOfWeek in c.dayOfWeek
  }

  function Matching(c: ParsedCron, offset: int): int -> bool {
    m => MatchesCron(m, c, offset)
  }

  function InstantOf(minute: Option<int>): Option<int> {
    match minute
    case None => None
    case Some(m) => Some(m * MS_PER_MINUTE)
  }

  /** The next run after an instant, as an instant. */
  function NextRun(c: ParsedCron, offset: int, from: int): Option<int> {
    InstantOf(Next(Matching(c, offset), from / MS_PER_MINUTE))
  }

  method SearchMinutes(matches: int -> bool, from: int) returns (r: Option<int>)
    ensures IsNext(matches, from, r)
  {
    var cursor := from + 1;
    for i := 0 to HORIZON
      invariant cursor == from + 1 + i
      invariant forall m :: from < m < cursor ==> !matches(m)
    {
      if matches(cursor) {
        return Some(cursor);
      }
      cursor := cursor + 1;
    }
    return None;
  }

  method ComputeNextRunAt(expression: string, zone: Option<int>, from: int)
    returns (r: Result<Option<int>, CronError>)
    ensures CronOf(expression).Err? ==> r == Err(CronOf(expression).error)
    ensures CronOf(expression).Ok? && zone.None? ==> r == Err(InvalidTimezone)
    ensures CronOf(expression).Ok? && zone.Some? ==> r == Ok(NextRun(CronOf(expression).value, zone.value, from))
  {
    var parsed :- ParseCronExpression(expression);
    if zone.None? {
      return Err(InvalidTimezone);
    }
    var matches := Matching(parsed, zone.value);
    var minute := SearchMinutes(matches, from / MS_PER_MINUTE);
    NextUnique(matches, from / MS_PER_MINUTE, minute);
    return Ok(InstantOf(minute));
  }

  lemma WholeMinuteAfter(from: int, m: int)
    ensures from / MS_PER_MINUTE < m <==> from < m * MS_PER_MINUTE
  {
  }

  /** A result is a whole minute strictly after the instant, matches, and no whole minute in between
      does; without a result, no whole minute in the horizon matches. */
  lemma NextRunIsLeast(c: ParsedCron, offset: int, from: int)
    ensures var r := NextRun(c, offset, from);
            && (r.None? ==> forall m :: from < m * MS_PER_MINUTE && m <= from / MS_PER_MINUTE + HORIZON
                              ==> !Matching(c, offset)(m))
            && (r.Some? ==> exists at :: r == Some(at * MS_PER_MINUTE) && r.value > from && Matching(c, offset)(at)
                              && forall m :: from < m * MS_PER_MINUTE && m < at ==> !Matching(c, offset)(m))
  {
    var matches, after := Matching(c, offset), from / MS_PER_MINUTE;
    var next := Next(matches, after);
    NextUnique(matches, after, next);
    forall m ensures after < m <==> from < m * MS_PER_MINUTE {
      WholeMinuteAfter(from, m);
    }
    if next.Some? {
      assert NextRun(c, offset, from) == Some(next.value * MS_PER_MINUTE);
    }
  }

  /** Every instant before the result gives the same result. */
  lemma SameUntilNextRun(c: ParsedCron, offset: int, from: int, later: int)
    requires NextRun(c, offset, from).Some? && from <= later < NextRun(c, offset, from).value
    ensures NextRun(c, offset, later) == NextRun(c, offset, from)
  {
    SameUntilNext(Matching(c, offset), from / MS_PER_MINUTE, later / MS_PER_MINUTE);
  }

  // ----- when the horizon is long enough -----

  predicate EveryWeekday(c: ParsedCron) {
    forall w: nat :: w <= 6 ==> w in c.dayOfWeek
  }

  predicate EveryDate(c: ParsedCron) {
    (forall d: nat :: 1 <= d <= 31 ==> d in c.dayOfMonth) && (forall m: nat :: 1 <= m <= 12 ==> m in c.month)
  }

  ghost predicate AdmitsYearlyDate(c: ParsedCron) {
    exists month: nat, day: nat :: month in c.month && day in c.dayOfMonth && YearlyDate(month, day)
  }

  lemma TimeOfDay(day: int, hour: nat, minute: nat)
    requires hour <= 23 && minute <= 59
    ensures var local := day * 1440 + hour * 60 + minute;
            local / 1440 == day && local / 60 % 24 == hour && local % 60 == minute
  {
    var local := day * 1440 + hour * 60 + minute;
    assert local / 60 == day * 24 + hour;
  }

  /** A minute on a given day and time of day. */
  lemma PartsOf(day: int, hour: nat, minute: nat, offset: int)
    requires hour <= 23 && minute <= 59
    ensures var parts := ZonedDateParts(day * 1440 + hour * 60 + minute - offset, offset);
            && parts.minute == minute && parts.hour == hour
            && parts.dayOfMonth == DateOf(day).day && parts.month == DateOf(day).month
            && parts.dayOfWeek == WeekDay(day)
  {
    TimeOfDay(day, hour, minute);
  }

  lemma FoundInHorizon(c: ParsedCron, offset: int, from: int, m: int)
    requires from / MS_PER_MINUTE < m <= from / MS_PER_MINUTE + HORIZON && MatchesCron(m, c, offset)
    ensures NextRun(c, offset, from).Some? && NextRun(c, offset, from).value <= m * MS_PER_MINUTE
  {
    var matches, after := Matching(c, offset), from / MS_PER_MINUTE;
    NextUnique(matches, after, Next(matches, after));
    assert matches(m);
  }

  /** A day on or after the start's day whose given time of day is not before the start. */
  function DayNotBefore(start: int, timeOfDay: nat): int {
    if start % 1440 <= timeOfDay then start / 1440 else start / 1440 + 1
  }

  lemma YearlyDateFound(c: ParsedCron, offset: int, from: int)
    requires WellFormed(c) && EveryWeekday(c) && AdmitsYearlyDate(c)
    ensures NextRun(c, offset, from).Some?
  {
    var month: nat, day: nat :| month in c.month && day in c.dayOfMonth && YearlyDate(month, day);
    var hour :| hour in c.hour;
    var minute :| minute in c.minute;
    var start := from / MS_PER_MINUTE + 1 + offset;
    var timeOfDay := hour * 60 + minute;
    var found := YearlyDateRecurs(DayNotBefore(start, timeOfDay), month, day);
    PartsOf(found, hour, minute, offset);
    var m := found * 1440 + timeOfDay - offset;
    assert WeekDay(found) in c.dayOfWeek;
    FoundInHorizon(c, offset, from, m);
  }

  lemma CommonYears(year: int, day: int)
    requires !LeapYear(year) && !LeapYear(year + 1)
    requires DayFromYear(year) <= day < DayFromYear(year) + 366
    ensures !LeapYear(DateOf(day).year)
  {
    YearLength(year);
    YearOfHolds(day);
    assert YearOf(day) == if day < DayFromYear(year + 1) then year else year + 1;
  }

  lemma CommonYearsMiss(c: ParsedCron, offset: int, year: int, m: int)
    requires !LeapYear(year) && !LeapYear(year + 1) && !AdmitsYearlyDate(c)
    requires DayFromYear(year) * 1440 <= m + offset < DayFromYear(year) * 1440 + HORIZON
    ensures !MatchesCron(m, c, offset)
  {
    var day := (m + offset) / 1440;
    CommonYears(year, day);
    DateOfDay(day);
    assert YearlyDate(DateOf(day).month, DateOf(day).day);
  }

  /** From the last minute before two common years, an expression without a yearly date finds nothing. */
  lemma NoYearlyDateMissed(c: ParsedCron, offset: int, year: int)
    requires !LeapYear(year) && !LeapYear(year + 1) && !AdmitsYearlyDate(c)
    ensures NextRun(c, offset, (DayFromYear(year) * 1440 - offset - 1) * MS_PER_MINUTE).None?
  {
    var after := DayFromYear(year) * 1440 - offset - 1;
    var matches := Matching(c, offset);
    forall m | after < m <= after + HORIZON ensures !matches(m) {
      CommonYearsMiss(c, offset, year, m);
    }
    NextUnique(matches, after, None);
    WholeMinutes(after);
  }

  lemma WholeMinutes(minute: int)
    ensures minute * MS_PER_MINUTE / MS_PER_MINUTE == minute
  {
  }

  /** With every weekday allowed, no start is left without a next run iff the expression admits a
      month and day that every year has. */
  lemma HorizonCompleteIff(c: ParsedCron, offset: int)
    requires WellFormed(c) && EveryWeekday(c)
    ensures (forall from :: NextRun(c, offset, from).Some?) <==> AdmitsYearlyDate(c)
  {
    if AdmitsYearlyDate(c) {
      forall from ensures NextRun(c, offset, from).Some? {
        YearlyDateFound(c, offset, from);
      }
    } else {
      NoYearlyDateMissed(c, offset, 2001);
    }
  }

  lemma WeekDayRecurs(from: int, weekDay: nat) returns (found: int)
    requires weekDay <= 6
    ensures from <= found < from + 7 && WeekDay(found) == weekDay
  {
    found := from + (weekDay - WeekDay(from)) % 7;
  }

  /** With every date allowed, the next run is at most seven days away. */
  lemma EveryDateWithinAWeek(c: ParsedCron, offset: int, from: int)
    requires WellFormed(c) && EveryDate(c)
    ensures NextRun(c, offset, from).Some?
    ensures NextRun(c, offset, from).value <= from + 7 * 1440 * MS_PER_MINUTE
  {
    var weekDay :| weekDay in c.dayOfWeek;
    var hour :| hour in c.hour;
    var minute :| minute in c.minute;
    var start := from / MS_PER_MINUTE + 1 + offset;
    var timeOfDay := hour * 60 + minute;
    var found := WeekDayRecurs(DayNotBefore(start, timeOfDay), weekDay);
    PartsOf(found, hour, minute, offset);
    DateOfDay(found);
    var m := found * 1440 + timeOfDay - offset;
    FoundInHorizon(c, offset, from, m);
    MinutesLater(from, m, 7 * 1440);
  }

  lemma MinutesLater(from: int, m: int, k: int)
    requires m <= from / MS_PER_MINUTE + k
    ensures m * MS_PER_MINUTE <= from + k * MS_PER_MINUTE
  {
  }
}
