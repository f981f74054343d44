/**
 When the search is complete, for any expression: weekdays, dates and 29 February included. Every start has a
 next run iff every 366 days in a row hold an admitted day, and that can be read off the 21 shapes that two
 years in a row can have.
 */
module Horizon {
  import opened Common
  import opened Calendar
  import opened CronExpressions
  import opened MinuteSearch
  import opened CronSearch

  /** The days whose date is admitted, whatever their weekday. */
  function Days(c: ParsedCron): int -> bool {
    day => DateOf(day).month in c.month && DateOf(day).day in c.dayOfMonth
  }

  /** One of the 366 days from `first` on has an admitted date and an admitted weekday. */
  ghost predicate WindowHit(days: int -> bool, weekDays: set<nat>, first: int) {
    exists day :: first <= day < first + 366 && days(day) && WeekDay(day) in weekDays
  }

  ghost predicate Hit(c: ParsedCron, first: int) {
    WindowHit(Days(c), c.dayOfWeek, first)
  }

  lemma DayInHorizon(after: int, offset: int, timeOfDay: nat, day: int)
    requires timeOfDay < 1440
    requires var first := DayNotBefore(after + 1 + offset, timeOfDay); first <= day < first + 366
    ensures after < day * 1440 + timeOfDay - offset <= after + HORIZON
  {
  }

  lemma MinuteAdmitted(c: ParsedCron, offset: int, hour: nat, minute: nat, m: int, day: int)
    requires hour in c.hour && minute in c.minute && hour <= 23 && minute <= 59
    requires DateOf(day).month in c.month && DateOf(day).day in c.dayOfMonth && WeekDay(day) in c.dayOfWeek
    requires m == day * 1440 + hour * 60 + minute - offset
    ensures MatchesCron(m, c, offset)
  {
    PartsOf(day, hour, minute, offset);
  }

  lemma DayFound(c: ParsedCron, offset: int, from: int, timeOfDay: nat, m: int, day: int)
    requires timeOfDay < 1440 && m == day * 1440 + timeOfDay - offset && MatchesCron(m, c, offset)
    requires var first := DayNotBefore(from / MS_PER_MINUTE + 1 + offset, timeOfDay); first <= day < first + 366
    ensures NextRun(c, offset, from).Some?
  {
    DayInHorizon(from / MS_PER_MINUTE, offset, timeOfDay, day);
    FoundInHorizon(c, offset, from, m);
  }

  lemma HitIsFound(c: ParsedCron, offset: int, from: int)
    requires WellFormed(c) && forall first :: Hit(c, first)
    ensures NextRun(c, offset, from).Some?
  {
    var hour :| hour in c.hour;
    var minute :| minute in c.minute;
    var timeOfDay := hour * 60 + minute;
    var first := DayNotBefore(from / MS_PER_MINUTE + 1 + offset, timeOfDay);
    assert Hit(c, first);
    var day :| first <= day < first + 366 && Days(c)(day) && WeekDay(day) in c.dayOfWeek;
    var m := day * 1440 + timeOfDay - offset;
    MinuteAdmitted(c, offset, hour, minute, m, day);
    DayFound(c, offset, from, timeOfDay, m, day);
  }

  lemma MissedDay(c: ParsedCron, offset: int, first: int, m: int)
    requires !Hit(c, first) && first * 1440 <= m + offset < first * 1440 + HORIZON
    ensures !MatchesCron(m, c, offset)
  {
    var day := (m + offset) / 1440;
    assert !(Days(c)(day) && WeekDay(day) in c.dayOfWeek);
  }

  lemma MissIsMissed(c: ParsedCron, offset: int, first: int)
    requires !Hit(c, first)
    ensures NextRun(c, offset, (first * 1440 - offset - 1) * MS_PER_MINUTE).None?
  {
    var after := first * 1440 - offset - 1;
    var matches := Matching(c, offset);
    forall m | after < m <= after + HORIZON ensures !matches(m) {
      MissedDay(c, offset, first, m);
    }
    NextUnique(matches, after, None);
    WholeMinutes(after);
  }

  /** Every start has a next run iff every 366 days in a row hold an admitted day. */
  lemma CompleteIffWindows(c: ParsedCron, offset: int)
    requires WellFormed(c)
    ensures (forall from :: NextRun(c, offset, from).Some?) <==> (forall first :: Hit(c, first))
  {
    if forall first :: Hit(c, first) {
      forall from ensures NextRun(c, offset, from).Some? {
        HitIsFound(c, offset, from);
      }
    } else {
      var first :| !Hit(c, first);
      MissIsMissed(c, offset, first);
    }
  }

  // ----- the shapes of two years in a row -----

  /** The weekday of 1 January, and whether the year and the one after it are leap years. */
  datatype Shape = Shape(weekDay: nat, leap: bool, nextLeap: bool)

  predicate Proper(shape: Shape) {
    shape.weekDay <= 6 && !(shape.leap && shape.nextLeap)
  }

  function Length(leap: bool): nat {
    if leap then 366 else 365
  }

  function ShapeOf(year: int): Shape {
    Shape(WeekDay(DayFromYear(year)), LeapYear(year), LeapYear(year + 1))
  }

  /** The days of a year, counted from 0, whose date is admitted. */
  function Dates(c: ParsedCron): (bool, nat) -> bool {
    (leap: bool, k: nat) =>
      k < Length(leap) && MonthFrom(k, leap, 1) in c.month && DayOfMonthAt(k, leap) in c.dayOfMonth
  }

  function DayOfMonthAt(k: nat, leap: bool): int {
    k - DaysBeforeMonth(MonthFrom(k, leap, 1), leap) + 1
  }

  /** The j-th day of two years of a shape is admitted. */
  predicate AdmitsAt(dates: (bool, nat) -> bool, weekDays: set<nat>, shape: Shape, j: nat) {
    && (shape.weekDay + j) % 7 in weekDays
    && if j < Length(shape.leap) then dates(shape.leap, j) else dates(shape.nextLeap, j - Length(shape.leap))
  }

  predicate HitFrom(dates: (bool, nat) -> bool, weekDays: set<nat>, shape: Shape, k: nat) {
    exists j: nat :: k <= j < k + 366 && AdmitsAt(dates, weekDays, shape, j)
  }

  /** From every day of the first year, one of the next 366 days is admitted. */
  predicate ShapeHit(dates: (bool, nat) -> bool, weekDays: set<nat>, shape: Shape) {
    forall k: nat :: k < Length(shape.leap) ==> HitFrom(dates, weekDays, shape, k)
  }

  /** A finite condition: 21 shapes, of at most 366 windows each. */
  predicate AllShapesHit(c: ParsedCron) {
    forall weekDay: nat, leap: bool, nextLeap: bool ::
      weekDay <= 6 && !(leap && nextLeap) ==> ShapeHit(Dates(c), c.dayOfWeek, Shape(weekDay, leap, nextLeap))
  }

  // ----- days by their place in a year, whatever the dates that are admitted -----

  /** From `start` on, days are admitted as the dates of a year are. */
  ghost predicate IsYear(days: int -> bool, dates: (bool, nat) -> bool, start: int, leap: bool) {
    forall k: nat :: k < Length(leap) ==> days(start + k) == dates(leap, k)
  }

  ghost predicate HasShape(days: int -> bool, dates: (bool, nat) -> bool, start: int, shape: Shape) {
    && shape.weekDay == WeekDay(start)
    && IsYear(days, dates, start, shape.leap) && IsYear(days, dates, start + Length(shape.leap), shape.nextLeap)
  }

  lemma TwoYears(days: int -> bool, dates: (bool, nat) -> bool, start: int, next: int, shape: Shape)
    requires shape.weekDay == WeekDay(start) && next == start + Length(shape.leap)
    requires IsYear(days, dates, start, shape.leap) && IsYear(days, dates, next, shape.nextLeap)
    ensures HasShape(days, dates, start, shape)
  {
  }

  lemma WeekShift(start: int, j: nat)
    ensures WeekDay(start + j) == (WeekDay(start) + j) % 7
  {
  }

  lemma AdmitsByShape(days: int -> bool, dates: (bool, nat) -> bool, weekDays: set<nat>, shape: Shape, start: int,
                      j: nat)
    requires j < Length(shape.leap) + Length(shape.nextLeap) && HasShape(days, dates, start, shape)
    ensures days(start + j) && WeekDay(start + j) in weekDays <==> AdmitsAt(dates, weekDays, shape, j)
  {
    var n := Length(shape.leap);
    WeekShift(start, j);
    if j < n {
      assert days(start + j) == dates(shape.leap, j);
    } else {
      assert days(start + n + (j - n)) == dates(shape.nextLeap, j - n);
      assert start + n + (j - n) == start + j;
    }
  }

  lemma WindowByShape(days: int -> bool, dates: (bool, nat) -> bool, weekDays: set<nat>, shape: Shape, start: int,
                      k: nat)
    requires Proper(shape) && HasShape(days, dates, start, shape) && k < Length(shape.leap)
    ensures WindowHit(days, weekDays, start + k) <==> HitFrom(dates, weekDays, shape, k)
  {
    if WindowHit(days, weekDays, start + k) {
      var day :| start + k <= day < start + k + 366 && days(day) && WeekDay(day) in weekDays;
      var j: nat := day - start;
      assert start + j == day;
      AdmitsByShape(days, dates, weekDays, shape, start, j);
      assert AdmitsAt(dates, weekDays, shape, j);
    }
    if HitFrom(dates, weekDays, shape, k) {
      var j: nat :| k <= j < k + 366 && AdmitsAt(dates, weekDays, shape, j);
      AdmitsByShape(days, dates, weekDays, shape, start, j);
      assert days(start + j) && WeekDay(start + j) in weekDays;
    }
  }

  // ----- the years of the calendar -----

  lemma YearIs(year: int, day: int)
    requires DayFromYear(year) <= day < DayFromYear(year) + DaysInYear(year)
    ensures YearOf(day) == year
  {
    YearOfHolds(day);
  }

  lemma PlaceInYear(year: int, start: int, leap: bool, k: nat) returns (month: nat, day: int)
    requires start == DayFromYear(year) && leap == LeapYear(year) && k < Length(leap)
    ensures month == MonthFrom(k, leap, 1) && day == DayOfMonthAt(k, leap)
    ensures DateOf(start + k).month == month && DateOf(start + k).day == day
  {
    YearIs(year, start + k);
    month, day := DateOf(start + k).month, DateOf(start + k).day;
  }

  lemma DaysHold(c: ParsedCron, day: int, month: nat, dayOfMonth: int)
    requires DateOf(day).month == month && DateOf(day).day == dayOfMonth
    ensures Days(c)(day) == (month in c.month && dayOfMonth in c.dayOfMonth)
  {
  }

  lemma DatesHold(c: ParsedCron, leap: bool, k: nat, month: nat, dayOfMonth: int)
    requires k < Length(leap) && month == MonthFrom(k, leap, 1) && dayOfMonth == DayOfMonthAt(k, leap)
    ensures Dates(c)(leap, k) == (month in c.month && dayOfMonth in c.dayOfMonth)
  {
  }

  lemma DayAgrees(c: ParsedCron, year: int, start: int, leap: bool, k: nat)
    requires start == DayFromYear(year) && leap == LeapYear(year) && k < Length(leap)
    ensures Days(c)(start + k) == Dates(c)(leap, k)
  {
    var month, dayOfMonth := PlaceInYear(year, start, leap, k);
    DaysHold(c, start + k, month, dayOfMonth);
    DatesHold(c, leap, k, month, dayOfMonth);
  }

  lemma YearAgrees(c: ParsedCron, year: int, start: int, leap: bool)
    requires start == DayFromYear(year) && leap == LeapYear(year)
    ensures IsYear(Days(c), Dates(c), start, leap)
  {
    forall k: nat | k < Length(leap) ensures Days(c)(start + k) == Dates(c)(leap, k) {
      DayAgrees(c, year, start, leap, k);
    }
  }

  lemma YearHasShape(c: ParsedCron, year: int)
    ensures HasShape(Days(c), Dates(c), DayFromYear(year), ShapeOf(year))
  {
    var start, next := DayFromYear(year), DayFromYear(year + 1);
    YearLength(year);
    YearAgrees(c, year, start, LeapYear(year));
    YearAgrees(c, year + 1, next, LeapYear(year + 1));
    TwoYears(Days(c), Dates(c), start, next, ShapeOf(year));
  }

  lemma ShapeIsProper(year: int)
    ensures Proper(ShapeOf(year))
  {
  }

  const PLAIN_YEARS := [2006, 2001, 2002, 2014, 2009, 2010, 2005]
  const YEARS_BEFORE_LEAP := [2023, 2007, 2019, 2003, 2015, 2027, 2011]
  const LEAP_YEARS := [2012, 2024, 2008, 2020, 2004, 2016, 2028]

  function FormulaShape(year: int): Shape {
    Shape(WeekDay(DayFromYearFormula(year)), LeapYear(year), LeapYear(year + 1))
  }

  lemma PlainYears(weekDay: nat)
    requires weekDay <= 6
    ensures FormulaShape(PLAIN_YEARS[weekDay]) == Shape(weekDay, false, false)
  {
  }

  lemma YearsBeforeLeap(weekDay: nat)
    requires weekDay <= 6
    ensures FormulaShape(YEARS_BEFORE_LEAP[weekDay]) == Shape(weekDay, false, true)
  {
  }

  lemma LeapYears(weekDay: nat)
    requires weekDay <= 6
    ensures FormulaShape(LEAP_YEARS[weekDay]) == Shape(weekDay, true, false)
  {
  }

  /** Every proper shape is the shape of some year. */
  lemma ShapeOccurs(shape: Shape) returns (year: int)
    requires Proper(shape)
    ensures ShapeOf(year) == shape
  {
    var weekDay := shape.weekDay;
    if shape.leap {
      year := LEAP_YEARS[weekDay];
      LeapYears(weekDay);
    } else if shape.nextLeap {
      year := YEARS_BEFORE_LEAP[weekDay];
      YearsBeforeLeap(weekDay);
    } else {
      year := PLAIN_YEARS[weekDay];
      PlainYears(weekDay);
    }
    FormulaHolds(year);
  }

  /** Every start has a next run iff, in each of the 21 shapes of two years in a row, every 366 days that begin
      in the first year hold an admitted date on an admitted weekday. */
  lemma CompleteIffShapes(c: ParsedCron, offset: int)
    requires WellFormed(c)
    ensures (forall from :: NextRun(c, offset, from).Some?) <==> AllShapesHit(c)
  {
    CompleteIffWindows(c, offset);
    if AllShapesHit(c) {
      forall first ensures Hit(c, first) {
        ShapesHitDay(c, first);
      }
    }
    if forall first :: Hit(c, first) {
      forall weekDay: nat, leap: bool, nextLeap: bool | weekDay <= 6 && !(leap && nextLeap)
        ensures ShapeHit(Dates(c), c.dayOfWeek, Shape(weekDay, leap, nextLeap))
      {
        WindowsHitShape(c, Shape(weekDay, leap, nextLeap));
      }
    }
  }

  lemma ShapesHitDay(c: ParsedCron, first: int)
    requires AllShapesHit(c)
    ensures Hit(c, first)
  {
    var year := YearOf(first);
    YearOfHolds(first);
    ShapeIsProper(year);
    YearHasShape(c, year);
    assert ShapeHit(Dates(c), c.dayOfWeek, ShapeOf(year));
    WindowByShape(Days(c), Dates(c), c.dayOfWeek, ShapeOf(year), DayFromYear(year), first - DayFromYear(year));
  }

  lemma WindowsHitShape(c: ParsedCron, shape: Shape)
    requires Proper(shape) && forall first :: Hit(c, first)
    ensures ShapeHit(Dates(c), c.dayOfWeek, shape)
  {
    var year := ShapeOccurs(shape);
    YearHasShape(c, year);
    forall k: nat | k < Length(shape.leap) ensures HitFrom(Dates(c), c.dayOfWeek, shape, k) {
      assert Hit(c, DayFromYear(year) + k);
      WindowByShape(Days(c), Dates(c), c.dayOfWeek, shape, DayFromYear(year), k);
    }
  }
}
