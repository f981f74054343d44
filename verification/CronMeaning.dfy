/**
 The next run, from the text of the expression to the instant: the first minute after the start whose date, time
 of day and weekday the words of the expression name. Dates and weekdays are given in closed form.
 */
module CronMeaning {
  import opened Common
  import opened Text
  import opened Calendar
  import opened CronExpressions
  import opened CronText
  import opened MinuteSearch
  import opened CronSearch

  /** A minute of local time; `day` is the number of its day, 1 January 1970 is 0. */
  datatype Civil = Civil(day: int, year: int, month: nat, dayOfMonth: nat, hour: nat, minute: nat)

  /** A date that exists, and the closed form of its day number. */
  predicate IsDate(day: int, year: int, month: nat, dayOfMonth: nat) {
    && 1 <= month <= 12 && 1 <= dayOfMonth && MonthStart(year, month) + dayOfMonth <= MonthStart(year, month + 1)
    && day == MonthStart(year, month) + dayOfMonth - 1
  }

  predicate IsCivil(t: Civil) {
    IsDate(t.day, t.year, t.month, t.dayOfMonth) && t.hour <= 23 && t.minute <= 59
  }

  /** The first minute of 1970 has number 0. */
  function MinuteNumber(t: Civil): int {
    t.day * 1440 + t.hour * 60 + t.minute
  }

  /** Sunday is 0; 1 January 1970 was a Thursday. */
  function WeekDayOf(t: Civil): nat {
    (t.day + 4) % 7
  }

  lemma DateOfIsDate(day: int)
    ensures IsDate(day, DateOf(day).year, DateOf(day).month, DateOf(day).day)
  {
    DateOfDay(day);
    DayNumberFormula(DateOf(day));
  }

  lemma IsDateOf(day: int, year: int, month: nat, dayOfMonth: nat)
    requires IsDate(day, year, month, dayOfMonth)
    ensures DateOf(day) == Date(year, month, dayOfMonth)
  {
    DayNumberFormula(Date(year, month, dayOfMonth));
    DayOfDate(Date(year, month, dayOfMonth));
  }

  lemma MatchesAt(c: ParsedCron, offset: int, t: Civil)
    requires DateOf(t.day) == Date(t.year, t.month, t.dayOfMonth) && t.hour <= 23 && t.minute <= 59
    ensures MatchesCron(MinuteNumber(t) - offset, c, offset) <==>
            Admits(c, t.minute, t.hour, t.dayOfMonth, t.month, WeekDayOf(t))
  {
    PartsOf(t.day, t.hour, t.minute, offset);
  }

  /** An expression matches a minute iff its sets hold the minute's parts. */
  lemma MatchesIff(c: ParsedCron, offset: int, t: Civil)
    requires IsCivil(t)
    ensures MatchesCron(MinuteNumber(t) - offset, c, offset) <==>
            Admits(c, t.minute, t.hour, t.dayOfMonth, t.month, WeekDayOf(t))
  {
    IsDateOf(t.day, t.year, t.month, t.dayOfMonth);
    MatchesAt(c, offset, t);
  }

  lemma TimeParts(local: int)
    ensures local == local / 1440 * 1440 + local / 60 % 24 * 60 + local % 60
  {
    assert local / 60 / 24 == local / 1440;
  }

  /** Every minute has a date and a time of day. */
  lemma EveryMinute(local: int) returns (t: Civil)
    ensures IsCivil(t) && MinuteNumber(t) == local
  {
    var date := DateOf(local / 1440);
    DateOfIsDate(local / 1440);
    TimeParts(local);
    t := Civil(local / 1440, date.year, date.month, date.day, local / 60 % 24, local % 60);
  }

  /** With one month and one day of the month it matches minutes of that date only, in every year that has it. */
  lemma OneDate(c: ParsedCron, offset: int, month: nat, dayOfMonth: nat, t: Civil)
    requires c.month == {month} && c.dayOfMonth == {dayOfMonth} && IsCivil(t)
    ensures MatchesCron(MinuteNumber(t) - offset, c, offset) <==>
            && t.month == month && t.dayOfMonth == dayOfMonth
            && t.minute in c.minute && t.hour in c.hour && (t.day + 4) % 7 in c.dayOfWeek
  {
    MatchesIff(c, offset, t);
  }

  // ----- from the text to the next run -----

  /** The minutes that five words name. */
  ghost function Named(words: seq<string>): Civil -> bool
    requires |words| == 5
  {
    (t: Civil) => IsCivil(t) && WordsName(words, t.minute, t.hour, t.dayOfMonth, t.month, WeekDayOf(t))
  }

  /** A parsed expression admits what five words name. */
  ghost predicate Reads(c: ParsedCron, words: seq<string>)
    requires |words| == 5
  {
    forall minute, hour, day, month, weekDay ::
      Admits(c, minute, hour, day, month, weekDay) <==> WordsName(words, minute, hour, day, month, weekDay)
  }

  /** The minutes of local time whose numbers match. */
  ghost predicate SameMinutes(matches: int -> bool, named: Civil -> bool, offset: int) {
    forall t :: named(t) <==> IsCivil(t) && matches(MinuteNumber(t) - offset)
  }

  lemma NamedIffMatching(c: ParsedCron, words: seq<string>, offset: int, t: Civil)
    requires |words| == 5 && Reads(c, words) && IsCivil(t)
    ensures Named(words)(t) <==> Matching(c, offset)(MinuteNumber(t) - offset)
  {
    MatchesIff(c, offset, t);
  }

  lemma ReadsSame(c: ParsedCron, words: seq<string>, offset: int)
    requires |words| == 5 && Reads(c, words)
    ensures SameMinutes(Matching(c, offset), Named(words), offset)
  {
    forall t ensures Named(words)(t) <==> IsCivil(t) && Matching(c, offset)(MinuteNumber(t) - offset) {
      if IsCivil(t) {
        NamedIffMatching(c, words, offset, t);
      }
    }
  }

  /** A named minute starts at the instant. */
  ghost predicate NamedAt(named: Civil -> bool, offset: int, at: int) {
    exists t :: named(t) && at == (MinuteNumber(t) - offset) * 60000
  }

  lemma NamedAtMinute(matches: int -> bool, named: Civil -> bool, offset: int, at: int) returns (m: int)
    requires SameMinutes(matches, named, offset) && NamedAt(named, offset, at)
    ensures at == m * 60000 && matches(m)
  {
    var t :| named(t) && at == (MinuteNumber(t) - offset) * 60000;
    m := MinuteNumber(t) - offset;
  }

  lemma MinuteIsNamed(matches: int -> bool, named: Civil -> bool, offset: int, m: int)
    requires SameMinutes(matches, named, offset) && matches(m)
    ensures NamedAt(named, offset, m * 60000)
  {
    var t := EveryMinute(m + offset);
    assert named(t);
  }

  /** The first named minute after the start, if one lies in the 366 days that are searched. */
  ghost predicate IsNextRun(named: Civil -> bool, offset: int, from: int, r: Option<int>) {
    match r
    case Some(at) =>
      && NamedAt(named, offset, at) && from < at <= from + 527040 * 60000
      && forall other :: NamedAt(named, offset, other) && from < other ==> at <= other
    case None =>
      forall other :: NamedAt(named, offset, other) && from < other ==> other > from / 60000 * 60000 + 527040 * 60000
  }

  lemma NextInMinutes(matches: int -> bool, from: int)
    ensures match InstantOf(Next(matches, from / MS_PER_MINUTE))
            case Some(at) =>
              && at % 60000 == 0 && matches(at / 60000) && from < at <= from + 527040 * 60000
              && forall m :: matches(m) && from < m * 60000 ==> at <= m * 60000
            case None =>
              forall m :: matches(m) && from < m * 60000 ==> m * 60000 > from / 60000 * 60000 + 527040 * 60000
  {
    var next := Next(matches, from / MS_PER_MINUTE);
    NextUnique(matches, from / MS_PER_MINUTE, next);
    forall m ensures from / MS_PER_MINUTE < m <==> from < m * MS_PER_MINUTE {
      WholeMinuteAfter(from, m);
    }
  }

  lemma NextNamed(matches: int -> bool, named: Civil -> bool, offset: int, from: int)
    requires SameMinutes(matches, named, offset)
    ensures IsNextRun(named, offset, from, InstantOf(Next(matches, from / MS_PER_MINUTE)))
  {
    var r := InstantOf(Next(matches, from / MS_PER_MINUTE));
    NextInMinutes(matches, from);
    if r.Some? {
      MinuteIsNamed(matches, named, offset, r.value / 60000);
    }
    forall other | NamedAt(named, offset, other) && from < other
      ensures if r.Some? then r.value <= other else other > from / 60000 * 60000 + 527040 * 60000
    {
      var m := NamedAtMinute(matches, named, offset, other);
    }
  }

  /** The next run of an accepted text is the first minute after the start that its five words name, if one lies
      in the 366 days that are searched; otherwise there is none. */
  lemma NextRunMeaning(text: string, offset: int, from: int) returns (gaps: seq<string>, words: seq<string>)
    requires CronOf(text).Ok?
    ensures |gaps| == 6 && |words| == 5 && AllWords(words) && AreGaps(gaps) && text == Spread(gaps, words)
    ensures IsNextRun(Named(words), offset, from, NextRun(CronOf(text).value, offset, from))
  {
    gaps, words := EveryExpression(text);
    ExpressionMeaning(gaps, words);
    ReadsSame(CronOf(text).value, words, offset);
    NextNamed(Matching(CronOf(text).value, offset), Named(words), offset, from);
  }
}
