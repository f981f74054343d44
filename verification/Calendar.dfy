/**
 The proleptic Gregorian calendar on day numbers, as section 21.4.1 of ECMA-262 defines it:
 day 0 is Thursday, 1 January 1970. `/` and `%` on `int` floor for a positive divisor, which is
 what the standard asks for.
 */
module Calendar {

  datatype Date = Date(year: int, month: nat, day: nat)

  predicate LeapYear(y: int) {
    y % 4 == 0 && (y % 100 != 0 || y % 400 == 0)
  }

  function DaysInYear(y: int): int {
    if LeapYear(y) then 366 else 365
  }

  /** The day number of 1 January, counted year by year from 1970. */
  function DayFromYear(y: int): int
    decreases if y < 1970 then 1970 - y else y - 1970
  {
    if y == 1970 then 0
    else if y > 1970 then DayFromYear(y - 1) + DaysInYear(y - 1)
    else DayFromYear(y + 1) - DaysInYear(y)
  }

  function DaysInMonth(month: nat, leap: bool): nat {
    if month == 2 then (if leap then 29 else 28)
    else if month == 4 || month == 6 || month == 9 || month == 11 then 30
    else if 1 <= month <= 12 then 31
    else 0
  }

  function DaysBeforeMonth(month: nat, leap: bool): nat
  {
    if month <= 1 then 0 else DaysBeforeMonth(month - 1, leap) + DaysInMonth(month - 1, leap)
  }

  predicate ValidDate(d: Date) {
    1 <= d.month <= 12 && 1 <= d.day <= DaysInMonth(d.month, LeapYear(d.year))
  }

  function DayNumber(d: Date): int {
    DayFromYear(d.year) + DaysBeforeMonth(d.month, LeapYear(d.year)) + d.day - 1
  }

  /** The search for the year that holds a day, from any first guess. */
  function YearFrom(day: int, guess: int): (y: int)
    ensures DayFromYear(y) <= day < DayFromYear(y + 1)
    decreases if day < DayFromYear(guess) then DayFromYear(guess) - day
              else if day >= DayFromYear(guess + 1) then day - DayFromYear(guess + 1) + 1
              else 0
  {
    YearLength(guess - 1);
    YearLength(guess);
    YearLength(guess + 1);
    if day < DayFromYear(guess) then YearFrom(day, guess - 1)
    else if day >= DayFromYear(guess + 1) then YearFrom(day, guess + 1)
    else guess
  }

  function YearOf(day: int): int {
    YearFrom(day, 1970 + day / 366)
  }

  function MonthFrom(dayInYear: nat, leap: bool, month: nat): nat
    decreases 12 - month
  {
    if month >= 12 || dayInYear < DaysBeforeMonth(month + 1, leap) then month
    else MonthFrom(dayInYear, leap, month + 1)
  }

  function DateOf(day: int): Date {
    var y := YearOf(day);
    YearOfHolds(day);
    var dayInYear := day - DayFromYear(y);
    var m := MonthFrom(dayInYear, LeapYear(y), 1);
    MonthFromHolds(dayInYear, LeapYear(y), 1);
    Date(y, m, dayInYear - DaysBeforeMonth(m, LeapYear(y)) + 1)
  }

  /** Sunday is 0; day 0 is a Thursday. */
  function WeekDay(day: int): nat {
    (day + 4) % 7
  }

  lemma YearLength(y: int)
    ensures DayFromYear(y + 1) == DayFromYear(y) + DaysInYear(y)
  {
  }

  lemma EveryFourYears(y: int)
    ensures (y + 1 - 1969) / 4 - (y - 1969) / 4 == if y % 4 == 0 then 1 else 0
  {
  }

  lemma EveryCentury(y: int)
    ensures (y + 1 - 1901) / 100 - (y - 1901) / 100 == if y % 100 == 0 then 1 else 0
  {
  }

  lemma EveryFourCenturies(y: int)
    ensures (y + 1 - 1601) / 400 - (y - 1601) / 400 == if y % 400 == 0 then 1 else 0
  {
  }

  lemma LeapYearsNest(y: int)
    ensures y % 400 == 0 ==> y % 100 == 0
    ensures y % 100 == 0 ==> y % 4 == 0
  {
  }

  /** The closed form that the standard gives for `DayFromYear`. */
  function DayFromYearFormula(y: int): int {
    365 * (y - 1970) + (y - 1969) / 4 - (y - 1901) / 100 + (y - 1601) / 400
  }

  lemma FormulaStep(y: int)
    ensures DayFromYearFormula(y + 1) == DayFromYearFormula(y) + DaysInYear(y)
  {
    EveryFourYears(y);
    EveryCentury(y);
    EveryFourCenturies(y);
    LeapYearsNest(y);
  }

  lemma {:induction false} FormulaHolds(y: int)
    ensures DayFromYear(y) == DayFromYearFormula(y)
    decreases if y < 1970 then 1970 - y else y - 1970
  {
    if y > 1970 {
      FormulaHolds(y - 1);
      FormulaStep(y - 1);
    } else if y < 1970 {
      FormulaHolds(y + 1);
      FormulaStep(y);
    }
  }

  lemma {:induction false} YearsOrdered(y: int, z: int)
    requires y <= z
    ensures DayFromYear(y) <= DayFromYear(z)
    decreases z - y
  {
    if y < z {
      YearLength(y);
      YearsOrdered(y + 1, z);
    }
  }

  /** `YearOf` is the one year that holds the day. */
  lemma YearOfHolds(day: int)
    ensures DayFromYear(YearOf(day)) <= day < DayFromYear(YearOf(day)) + DaysInYear(YearOf(day))
    ensures forall y :: DayFromYear(y) <= day < DayFromYear(y) + DaysInYear(y) ==> y == YearOf(day)
  {
    var z := YearOf(day);
    YearLength(z);
    forall y | DayFromYear(y) <= day < DayFromYear(y) + DaysInYear(y) ensures y == z {
      YearLength(y);
      if y < z { YearsOrdered(y + 1, z); }
      if z < y { YearsOrdered(z + 1, y); }
    }
  }

  lemma {:induction false} MonthFromHolds(dayInYear: nat, leap: bool, month: nat)
    requires 1 <= month <= 12 && DaysBeforeMonth(month, leap) <= dayInYear < 365 + (if leap then 1 else 0)
    ensures var m := MonthFrom(dayInYear, leap, month);
            && month <= m <= 12
            && DaysBeforeMonth(m, leap) <= dayInYear < DaysBeforeMonth(m, leap) + DaysInMonth(m, leap)
    decreases 12 - month
  {
    MonthTable(leap);
    if month < 12 && dayInYear >= DaysBeforeMonth(month + 1, leap) {
      MonthFromHolds(dayInYear, leap, month + 1);
    }
  }

  lemma MonthTable(leap: bool)
    ensures DaysBeforeMonth(12, leap) + DaysInMonth(12, leap) == 365 + (if leap then 1 else 0)
  {
    var extra := if leap then 1 else 0;
    assert DaysBeforeMonth(2, leap) == 31;
    assert DaysBeforeMonth(3, leap) == 59 + extra;
    assert DaysBeforeMonth(5, leap) == 120 + extra;
    assert DaysBeforeMonth(7, leap) == 181 + extra;
    assert DaysBeforeMonth(9, leap) == 243 + extra;
    assert DaysBeforeMonth(11, leap) == 304 + extra;
  }

  /** The days before a month, in closed form: the table of MonthFromTime, which ends with month 13. */
  function DaysBeforeFormula(month: nat, leap: bool): int {
    (367 * month - 362) / 12 - (if month <= 2 then 0 else if leap then 1 else 2)
  }

  lemma MonthStep(month: nat, leap: bool)
    requires 1 <= month <= 12
    ensures DaysBeforeFormula(month + 1, leap) == DaysBeforeFormula(month, leap) + DaysInMonth(month, leap)
  {
  }

  lemma {:induction false} MonthFormulaHolds(month: nat, leap: bool)
    requires 1 <= month <= 13
    ensures DaysBeforeMonth(month, leap) == DaysBeforeFormula(month, leap)
    decreases month
  {
    if month > 1 {
      MonthFormulaHolds(month - 1, leap);
      MonthStep(month - 1, leap);
    }
  }

  /** The closed form of the first day of a month; month 13 is the next January. */
  function MonthStart(year: int, month: nat): int {
    DayFromYearFormula(year) + DaysBeforeFormula(month, LeapYear(year))
  }

  /** A date is valid iff its day lies between the closed forms of its month and the next; its day number is
      then given in closed form too. */
  lemma DayNumberFormula(d: Date)
    ensures ValidDate(d) <==>
            1 <= d.month <= 12 && 1 <= d.day && MonthStart(d.year, d.month) + d.day <= MonthStart(d.year, d.month + 1)
    ensures ValidDate(d) ==> DayNumber(d) == MonthStart(d.year, d.month) + d.day - 1
  {
    if 1 <= d.month <= 12 {
      MonthStep(d.month, LeapYear(d.year));
      MonthFormulaHolds(d.month, LeapYear(d.year));
      FormulaHolds(d.year);
    }
  }

  lemma {:induction false} MonthsOrdered(m: nat, n: nat, leap: bool)
    requires 1 <= m <= n
    ensures DaysBeforeMonth(m, leap) <= DaysBeforeMonth(n, leap)
    ensures m < n ==> DaysBeforeMonth(m, leap) + DaysInMonth(m, leap) <= DaysBeforeMonth(n, leap)
    decreases n
  {
    if m < n {
      MonthsOrdered(m, n - 1, leap);
    }
  }

  /** A day has one date, and the date is valid. */
  lemma DateOfDay(day: int)
    ensures ValidDate(DateOf(day)) && DayNumber(DateOf(day)) == day
  {
    YearOfHolds(day);
    MonthFromHolds(day - DayFromYear(YearOf(day)), LeapYear(YearOf(day)), 1);
  }

  /** A valid date is the date of its day number: the two directions are inverse. */
  lemma DayOfDate(d: Date)
    requires ValidDate(d)
    ensures DateOf(DayNumber(d)) == d
    ensures DayFromYear(d.year) <= DayNumber(d) < DayFromYear(d.year) + DaysInYear(d.year)
  {
    var leap := LeapYear(d.year);
    var day := DayNumber(d);
    MonthTable(leap);
    MonthsOrdered(d.month, 12, leap);
    YearOfHolds(day);
    DateOfDay(day);
    var e := DateOf(day);
    assert e.year == d.year;
    if e.month < d.month { MonthsOrdered(e.month, d.month, leap); }
    if d.month < e.month { MonthsOrdered(d.month, e.month, leap); }
  }

  /** A month and day that every year has: anything but 29 February. */
  predicate YearlyDate(month: nat, day: nat) {
    1 <= month <= 12 && 1 <= day <= DaysInMonth(month, false)
  }

  /** Within 366 days from any day on, every yearly date comes up. */
  lemma YearlyDateRecurs(from: int, month: nat, day: nat) returns (found: int)
    requires YearlyDate(month, day)
    ensures from <= found < from + 366
    ensures DateOf(found).month == month && DateOf(found).day == day
  {
    var y := YearOf(from);
    YearOfHolds(from);
    found := DayNumber(Date(y, month, day));
    DayOfDate(Date(y, month, day));
    if found < from {
      var again := DayNumber(Date(y + 1, month, day));
      DayOfDate(Date(y + 1, month, day));
      YearLength(y);
      YearGap(y, month, day);
      found := again;
    }
  }

  lemma {:induction false} LeapShift(month: nat)
    ensures DaysBeforeMonth(month, true) == DaysBeforeMonth(month, false) + (if month > 2 then 1 else 0)
  {
    if month > 0 { LeapShift(month - 1); }
  }

  lemma YearGap(y: int, month: nat, day: nat)
    ensures DayNumber(Date(y + 1, month, day)) - DayNumber(Date(y, month, day)) <= 366
  {
    YearLength(y);
    LeapShift(month);
    assert !(LeapYear(y) && LeapYear(y + 1));
  }
}
