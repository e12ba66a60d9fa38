/** MonthDayTime: a yearly recurring instant of a time-zone rule, given by a date, by the last
    weekday of a month, or by the first weekday on or before/after a date. */
module MonthDayTimes {
  import opened Calendar

  datatype Zone = Utc | Standard | Local

  datatype Pattern =
    | MonthDay(month: int, day: int)
    | MonthLastDow(month: int, weekday: int)
    | OnOrBefore(month: int, day: int, weekday: int)
    | OnOrAfter(month: int, day: int, weekday: int)

  datatype MonthDayTime = MonthDayTime(pattern: Pattern, seconds: int, zone: Zone)
  {
    function Month(): int { pattern.month }

    function Day(): int { if pattern.MonthLastDow? then 31 else pattern.day }

    function ToSysDays(y: int): int
    {
      match pattern
      case MonthDay(m, d) => Calendar.ToDays(Ymd(y, m, d))
      case MonthLastDow(m, wd) => LastWeekdayOfMonth(y, m, wd)
      case OnOrBefore(m, d, wd) =>
        var x := Calendar.ToDays(Ymd(y, m, d));
        x - WeekdayDiff(WeekdayOf(x), wd)
      case OnOrAfter(m, d, wd) =>
        var x := Calendar.ToDays(Ymd(y, m, d));
        x + WeekdayDiff(wd, WeekdayOf(x))
    }

    function ToTimePoint(y: int): int { ToSysDays(y) * 86400 + seconds }

    /** The UTC instant, given the zone's offset and the saving in force just before. */
    function ToSys(y: int, offset: int, save: int): int
    {
      match zone
      case Utc => ToTimePoint(y)
      case Standard => ToTimePoint(y) - offset
      case Local => ToTimePoint(y) - (offset + save)
    }

    /** Replaces a weekday pattern by the date it resolves to in year y. */
    function Canonicalize(y: int): MonthDayTime
    {
      if pattern.MonthDay? then this
      else
        var ymd := Calendar.FromDays(ToSysDays(y));
        this.(pattern := MonthDay(ymd.month, ymd.day))
    }
  }

  function LastWeekdayOfMonth(y: int, m: int, wd: int): int
  {
    var d := Calendar.ToDays(Ymd(y, m, LastDay(y, m)));
    d - WeekdayDiff(WeekdayOf(d), wd)
  }

  // ---- what the patterns mean

  /** A difference of weekdays is a number of days to go on from the second to reach the first. */
  lemma WeekdayDiffCounts(x: int, y: int)
    requires 0 <= x < 7 && 0 <= y < 7
    ensures 0 <= WeekdayDiff(x, y) < 7 && (y + WeekdayDiff(x, y)) % 7 == x
  {
  }

  /** The weekday a given number of days later. */
  lemma WeekdayAfter(days: int, n: int)
    requires -13_000_050 <= days <= 13_000_050 && -50 <= n <= 50
    ensures WeekdayOf(days + n) == (WeekdayOf(days) + n) % 7 && 0 <= WeekdayOf(days) < 7
  {
    WeekdayCycle(days);
    WeekdayCycle(days + n);
  }

  /** Days of one month are as far apart as their numbers. */
  lemma SameMonth(x: Ymd, d: int)
    ensures Calendar.ToDays(x.(day := d)) == Calendar.ToDays(x) + d - x.day
  {
    hide Calendar.ToDays;
    ToDaysParts(x);
    ToDaysParts(x.(day := d));
    MarchDaySum(MarchYear(x), DayOfMarchYear(x.month, x.day));
    MarchDaySum(MarchYear(x), DayOfMarchYear(x.month, d));
  }

  lemma SameWeekday(a: int, b: int, n: int)
    requires 0 <= a < 7 && 0 <= b < 7 && (a + n) % 7 == (b + n) % 7
    ensures a == b
  {
  }

  /** The last such weekday of a month is one of its last seven days. */
  lemma AmongTheLast(y: int, m: int, wd: int)
    requires -32768 <= y <= 32767 && 1 <= m <= 12 && 0 <= wd < 7
    ensures var d := LastWeekdayOfMonth(y, m, wd);
            && WeekdayOf(d) == wd && -13_000_010 < d < 13_000_000
            && CivilOf(d) == Ymd(y, m, CivilOf(d).day) && LastDay(y, m) - 7 < CivilOf(d).day <= LastDay(y, m)
  {
    hide Calendar.ToDays, CivilOf, WeekdayOf, WeekdayDiff;
    var last := Ymd(y, m, LastDay(y, m));
    var e := Calendar.ToDays(last);
    ShortYearDays(last);
    WeekdayAfter(e, 0);
    var back := WeekdayDiff(WeekdayOf(e), wd);
    WeekdayDiffCounts(WeekdayOf(e), wd);
    WeekdayAfter(e - back, back);
    SameWeekday(WeekdayOf(e - back), wd, back);
    var x := last.(day := last.day - back);
    SameMonth(last, x.day);
    CivilRoundTrip(x);
  }

  /** The last such weekday of a month has that weekday, lies in the month, and no later one does. */
  lemma LastWeekday(y: int, m: int, wd: int)
    requires -32768 <= y <= 32767 && 1 <= m <= 12 && 0 <= wd < 7
    ensures var d := LastWeekdayOfMonth(y, m, wd);
            && WeekdayOf(d) == wd && CivilOf(d).year == y && CivilOf(d).month == m
            && CivilOf(d).day > LastDay(y, m) - 7
            && (forall later :: d < later && CivilOf(later).year == y && CivilOf(later).month == m
                                ==> WeekdayOf(later) != wd)
  {
    hide Calendar.ToDays, CivilOf, WeekdayOf, LastWeekdayOfMonth;
    var d := LastWeekdayOfMonth(y, m, wd);
    AmongTheLast(y, m, wd);
    forall later | d < later && CivilOf(later).year == y && CivilOf(later).month == m
      ensures WeekdayOf(later) != wd
    {
      DaysRoundTrip(d);
      DaysRoundTrip(later);
      SameMonth(CivilOf(d), CivilOf(later).day);
      assert CivilOf(later) == CivilOf(d).(day := CivilOf(later).day);
      WeekdayAfter(d, later - d);
    }
  }

  /** The day seven days after the last such weekday is in the next month. */
  lemma WeekAfterLastWeekday(y: int, m: int, wd: int)
    requires -32768 <= y <= 32767 && 1 <= m <= 12 && 0 <= wd < 7
    ensures CivilOf(LastWeekdayOfMonth(y, m, wd) + 7).month != m
  {
    hide Calendar.ToDays, CivilOf, WeekdayOf, LastWeekdayOfMonth;
    LastWeekday(y, m, wd);
    var d, last := LastWeekdayOfMonth(y, m, wd), Ymd(y, m, LastDay(y, m));
    DaysRoundTrip(d);
    SameMonth(last, CivilOf(d).day);
    assert CivilOf(d) == last.(day := CivilOf(d).day);
    ToDaysCountsDays(last);
    var n := NextDay(last);
    var x := n.(day := 7 - (last.day - CivilOf(d).day));
    SameMonth(n, x.day);
    CivilRoundTrip(x);
  }

  /** On or before a date: the day has the weekday asked for and lies at most six days before the date. */
  lemma OnOrBeforeMeans(t: MonthDayTime, y: int)
    requires t.pattern.OnOrBefore? && 0 <= t.pattern.weekday < 7
    requires Valid(Ymd(y, t.pattern.month, t.pattern.day)) && -32768 <= y <= 32767
    ensures var d, date := t.ToSysDays(y), Calendar.ToDays(Ymd(y, t.pattern.month, t.pattern.day));
            WeekdayOf(d) == t.pattern.weekday && date - 6 <= d <= date
  {
    hide Calendar.ToDays, WeekdayOf, WeekdayDiff;
    var date := Calendar.ToDays(Ymd(y, t.pattern.month, t.pattern.day));
    ShortYearDays(Ymd(y, t.pattern.month, t.pattern.day));
    WeekdayAfter(date, 0);
    WeekdayDiffCounts(WeekdayOf(date), t.pattern.weekday);
    WeekdayAfter(date, t.ToSysDays(y) - date);
  }

  /** On or after a date: the day has the weekday asked for and lies at most six days after the date. */
  lemma OnOrAfterMeans(t: MonthDayTime, y: int)
    requires t.pattern.OnOrAfter? && 0 <= t.pattern.weekday < 7
    requires Valid(Ymd(y, t.pattern.month, t.pattern.day)) && -32768 <= y <= 32767
    ensures var d, date := t.ToSysDays(y), Calendar.ToDays(Ymd(y, t.pattern.month, t.pattern.day));
            WeekdayOf(d) == t.pattern.weekday && date <= d <= date + 6
  {
    hide Calendar.ToDays, WeekdayOf, WeekdayDiff;
    var date := Calendar.ToDays(Ymd(y, t.pattern.month, t.pattern.day));
    ShortYearDays(Ymd(y, t.pattern.month, t.pattern.day));
    WeekdayAfter(date, 0);
    WeekdayDiffCounts(t.pattern.weekday, WeekdayOf(date));
    WeekdayAfter(date, t.ToSysDays(y) - date);
  }

  /** The month and day that rules are sorted by: of the last weekday of a month, its 31st. */
  lemma SortedBy(t: MonthDayTime, m: int, d: int, wd: int)
    ensures t.pattern == MonthLastDow(m, wd) ==> t.Month() == m && t.Day() == 31
    ensures t.pattern in {MonthDay(m, d), OnOrBefore(m, d, wd), OnOrAfter(m, d, wd)} ==> t.Month() == m && t.Day() == d
  {
  }

  /** A plain date is that date. */
  lemma DatesMean(t: MonthDayTime, y: int)
    requires t.pattern.MonthDay? && Valid(Ymd(y, t.pattern.month, t.pattern.day))
    ensures CivilOf(t.ToSysDays(y)) == Ymd(y, t.pattern.month, t.pattern.day)
  {
    hide Calendar.ToDays, CivilOf;
    CivilRoundTrip(Ymd(y, t.pattern.month, t.pattern.day));
  }

  /** The clock that a rule's time is read from: at the instant found, UTC, the zone's standard time or its wall clock
      shows the day of the pattern and the time of day. */
  lemma ToSysReadsItsClock(t: MonthDayTime, y: int, offset: int, save: int)
    ensures var clock := match t.zone case Utc => 0 case Standard => offset case Local => offset + save;
            t.ToSys(y, offset, save) + clock == t.ToSysDays(y) * 86400 + t.seconds
  {
    hide MonthDayTime.ToSysDays;
  }

  lemma DaysOf2021()
    ensures Calendar.ToDays(Ymd(2021, 10, 31)) == 18931 && Calendar.ToDays(Ymd(2021, 12, 30)) == 18991
  {
  }

  /** In 2021 the last Sunday of October is the 31st, where a pattern for it is frozen. */
  lemma LastSundayOfOctober()
    ensures var t := MonthDayTime(MonthLastDow(10, 0), 3600, Utc);
            CivilOf(t.ToSysDays(2021)) == Ymd(2021, 10, 31) && t.Canonicalize(2021).pattern == MonthDay(10, 31)
            && t.ToSys(2021, 3600, 3600) == 1635642000
  {
    var t := MonthDayTime(MonthLastDow(10, 0), 3600, Utc);
    hide Calendar.ToDays, CivilOf, WeekdayOf, LastWeekdayOfMonth, WeekdayDiff;
    var sunday := Ymd(2021, 10, 31);
    DaysOf2021();
    CivilRoundTrip(sunday);
    WeekdayCycle(18931);
    LastWeekday(2021, 10, 0);
    WeekAfterLastWeekday(2021, 10, 0);
    var d := LastWeekdayOfMonth(2021, 10, 0);
    DaysRoundTrip(d);
    SameMonth(sunday, CivilOf(d).day);
    assert CivilOf(d) == sunday.(day := CivilOf(d).day);
  }

  /** Moving a valid date to another year never yields the same day number, even when it moves
      29 February to a year without one. */
  lemma OtherYearOtherDay(x: Ymd, y: int)
    requires Valid(x) && y != x.year
    ensures Calendar.ToDays(x.(year := y)) != Calendar.ToDays(x)
  {
    hide Calendar.ToDays, CivilOf;
    var moved := x.(year := y);
    CivilRoundTrip(x);
    if Valid(moved) {
      CivilRoundTrip(moved);
    } else {
      var march1 := Ymd(y, 3, 1);
      CivilRoundTrip(march1);
      ToDaysParts(moved);
      ToDaysParts(march1);
      LongIsLeap(y - 1);
      NextMarchYear(y - 1);
      assert MarchDay(y - 1, 365) == MarchDay(y, 0) by { MarchDaySum(y - 1, 365); }
    }
  }

  /** Freezing a pattern in year y keeps the day it falls on in that year exactly when it falls in
      that year; a pattern that reaches over New Year loses its neighbouring year. */
  lemma CanonicalizeKeepsDay(t: MonthDayTime, y: int)
    requires !t.pattern.MonthDay?
    ensures t.Canonicalize(y).ToSysDays(y) == t.ToSysDays(y) <==> CivilOf(t.ToSysDays(y)).year == y
  {
    hide CivilOf, Calendar.ToDays, WeekdayOf, WeekdayDiff;
    var d := t.ToSysDays(y);
    var x := CivilOf(d);
    DaysRoundTrip(d);
    assert t.Canonicalize(y).ToSysDays(y) == Calendar.ToDays(x.(year := y));
    if x.year != y { OtherYearOtherDay(x, y); }
  }

  /** The first Saturday on or after 30 December is New Year's Day for 2021; frozen, it is a year too early. */
  lemma FrozenOverNewYear()
    ensures var t := MonthDayTime(OnOrAfter(12, 30, 6), 0, Utc);
            t.ToSysDays(2021) == Calendar.ToDays(Ymd(2022, 1, 1))
            && t.Canonicalize(2021).ToSysDays(2021) == Calendar.ToDays(Ymd(2021, 1, 1)) != t.ToSysDays(2021)
  {
    hide Calendar.ToDays, CivilOf, WeekdayOf, WeekdayDiff;
    var t := MonthDayTime(OnOrAfter(12, 30, 6), 0, Utc);
    DaysOf2021();
    ToDaysCountsDays(Ymd(2021, 12, 30));
    ToDaysCountsDays(Ymd(2021, 12, 31));
    OnOrAfterMeans(t, 2021);
    WeekdayCycle(t.ToSysDays(2021));
    CivilRoundTrip(Ymd(2022, 1, 1));
    CivilRoundTrip(Ymd(2021, 1, 1));
  }
}
