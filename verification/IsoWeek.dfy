/** ISO week dates (section 4.1.4 of ISO 8601:2004) as iso_week.h converts them to and from
    day counts.  Years are 16-bit shorts, weeks an unsigned char, and the arithmetic on weekdays
    is unsigned, all written out, because the round trips fail exactly where a year wraps. */
module IsoWeek {
  import opened Calendar

  datatype WeekDate = WeekDate(year: int, week: int, day: int)

  // ---- weekday: Monday is 1, Sunday is 7

  /** The remainder of C++, which takes the sign of the dividend. */
  function Rem(a: int, b: int): int
    requires b > 0
  {
    a - Quot(a, b) * b
  }

  function WeekdayFromDays(z: int): int
  {
    var c := if z >= -4 then Rem(z + 4, 7) else Rem(z + 5, 7) + 6;
    if c != 0 then c else 7
  }

  function WeekdayMinus(x: int, y: int): int
  {
    var diff := Unsigned(x - y);
    if diff <= 6 then diff else Unsigned(diff + 7)
  }

  const THU := 4
  const MON := 1

  // ---- conversions

  /** The last Thursday of December of year y. */
  function LastThursday(y: int): int
  {
    var d := ToDays(Ymd(y, 12, 31));
    d - WeekdayDiff(WeekdayOf(d), THU)
  }

  /** The Monday that opens ISO year y; date::year narrows y - 1 to a short. */
  function WeekStart(y: int): int { LastThursday(Short(y - 1)) + WeekdayDiff(MON, THU) }

  predicate IsLongYear(y: int) { LastThursday(y) - LastThursday(Short(y - 1)) != 7 * 52 }

  function WeeksInYear(y: int): int { if IsLongYear(y) then 53 else 52 }

  predicate Ok(w: WeekDate)
  {
    -32768 <= w.year <= 32767 && 1 <= w.week <= WeeksInYear(w.year) && 1 <= w.day <= 7
  }

  /** The unsigned week count minus one, read back as a signed 32-bit number of weeks. */
  function WeeksBefore(week: int): int
  {
    var u := Unsigned(week - 1);
    if u < 0x8000_0000 then u else u - 0x1_0000_0000
  }

  function ToSysDays(w: WeekDate): int
  {
    WeekStart(w.year) + 7 * WeeksBefore(w.week) + WeekdayMinus(w.day, MON)
  }

  function FromSysDays(d: int): WeekDate
  {
    var y0 := Calendar.FromDays(d + 3).year;
    var y := if d < WeekStart(y0) then Short(y0 - 1) else y0;
    WeekDate(y, Unsigned(Quot(d - WeekStart(y), 7) + 1) % 256, WeekdayFromDays(d))
  }

  // ---- the weeks themselves

  lemma WeekdayIs(z: int)
    ensures WeekdayFromDays(z) == (z + 3) % 7 + 1
  {
  }

  /** The Monday nearest to day j. */
  function MondayNear(j: int): int { j + 3 - (j - 1) % 7 }

  lemma MondayNearFacts(j: int, len: int)
    requires len == 365 || len == 366
    ensures j - 3 <= MondayNear(j) <= j + 3 && WeekdayFromDays(MondayNear(j)) == 1
    ensures MondayNear(j + len) - MondayNear(j) in {364, 371}
  {
    hide WeekdayFromDays;
    WeekdayIs(MondayNear(j));
    var q, w := (j - 1) / 7, (j - 1) % 7;
    assert MondayNear(j) == 7 * q + 4;
    assert MondayNear(j + len) == if w + len - 364 < 7 then 7 * (q + 52) + 4 else 7 * (q + 53) + 4;
  }

  lemma DaysSinceThursday(w: int)
    requires 0 <= w <= 6
    ensures WeekdayDiff(w, THU) == if w >= 4 then w - 4 else w + 3
  {
  }

  lemma LastThursdayNear(d: int)
    requires -0x8000_0000 <= d < 0x8000_0000 - 4
    ensures d - WeekdayDiff(WeekdayOf(d), THU) + 4 == MondayNear(d + 1)
  {
    hide WeekdayDiff, WeekdayOf;
    WeekdayCycle(d);
    var r := d % 7;
    assert (d + 4) % 7 == if r < 3 then r + 4 else r - 3;
    DaysSinceThursday((d + 4) % 7);
  }

  /** The Monday nearest to 1 January: the week that holds the first Thursday of the year. */
  function FirstMonday(y: int): int { MondayNear(YearStart(y)) }

  lemma LastThursdayIs(y: int)
    requires -32768 <= y <= 32767
    ensures LastThursday(y) + 4 == FirstMonday(y + 1)
  {
    hide YearStart, ToDays, WeekdayOf, WeekdayDiff, MondayNear;
    YearStartParts(y + 1);
    ShortYearDays(Ymd(y, 12, 31));
    LastThursdayNear(ToDays(Ymd(y, 12, 31)));
  }

  /** A short year y stands for itself, except that -32768 computes the start of 32768. */
  function Stands(y: int): int { if y == -32768 then 32768 else y }

  lemma WeekStartIs(y: int)
    requires -32768 <= y <= 32767
    ensures WeekStart(y) == FirstMonday(Stands(y))
  {
    hide LastThursday, FirstMonday;
    LastThursdayIs(Short(y - 1));
  }

  lemma FirstMondayFacts(y: int)
    ensures YearStart(y) - 3 <= FirstMonday(y) <= YearStart(y) + 3
    ensures WeekdayFromDays(FirstMonday(y)) == 1
    ensures FirstMonday(y + 1) - FirstMonday(y) in {364, 371}
  {
    hide YearStart, WeekdayFromDays, MondayNear;
    YearStartParts(y);
    MondayNearFacts(YearStart(y), YearStart(y + 1) - YearStart(y));
  }

  lemma FirstMondayMono(a: int, b: int)
    requires a < b
    ensures FirstMonday(b) >= FirstMonday(a) + 364
    decreases b - a
  {
    hide FirstMonday;
    FirstMondayFacts(a);
    if a + 1 < b { FirstMondayMono(a + 1, b); }
  }

  /** The ISO year of a day: the calendar year of d + 3, or the one before. */
  function IsoYear(d: int): int
  {
    var c := CivilOf(d + 3).year;
    if d < FirstMonday(c) then c - 1 else c
  }

  lemma IsoYearIs(d: int)
    ensures FirstMonday(IsoYear(d)) <= d < FirstMonday(IsoYear(d) + 1)
  {
    hide FirstMonday, CivilOf, YearStart;
    var c := CivilOf(d + 3).year;
    YearBounds(d + 3);
    FirstMondayFacts(c);
    FirstMondayFacts(c - 1);
    FirstMondayFacts(c + 1);
    YearStartParts(c - 1);
  }

  /** Days for which every year that from_days uses is one whose week start a short computes. */
  predicate Representable(d: int) { FirstMonday(-32767) <= d && d + 3 < YearStart(32769) }

  lemma RepresentableYears(d: int)
    requires Representable(d)
    ensures var c := CivilOf(d + 3).year;
            -32767 <= c <= 32768 && (c == -32767 ==> FirstMonday(c) <= d)
  {
    hide FirstMonday, CivilOf, YearStart;
    var c := CivilOf(d + 3).year;
    YearBounds(d + 3);
    FirstMondayFacts(-32767);
    if c + 1 <= -32767 { YearStartMono(c + 1, -32767); }
    if 32769 <= c { YearStartMono(32769, c); }
  }

  lemma FromSysDaysRight(d: int)
    requires Representable(d)
    ensures var w, y := FromSysDays(d), IsoYear(d);
            Stands(w.year) == y && -32768 <= w.year <= 32767
            && w.week == (d - FirstMonday(y)) / 7 + 1 && w.day == (d - FirstMonday(y)) % 7 + 1
            && 1 <= w.week <= 53
  {
    hide FirstMonday, CivilOf, YearStart, WeekStart, WeekdayFromDays;
    RepresentableYears(d);
    var c, y := CivilOf(d + 3).year, IsoYear(d);
    WeekStartIs(Short(c));
    WeekStartIs(Short(Short(c) - 1));
    IsoYearIs(d);
    FirstMondayFacts(y);
    WeekNumber(d, FirstMonday(y));
    hide Quot, Unsigned;
  }

  /** Weeks and weekdays counted from a Monday. */
  lemma WeekNumber(d: int, monday: int)
    requires monday <= d < monday + 371 && WeekdayFromDays(monday) == 1
    ensures Unsigned(Quot(d - monday, 7) + 1) % 256 == (d - monday) / 7 + 1 && 0 <= (d - monday) / 7 < 53
    ensures WeekdayFromDays(d) == (d - monday) % 7 + 1
  {
    hide WeekdayFromDays;
    WeekdayIs(d);
    WeekdayIs(monday);
  }

  lemma ToSysDaysRight(w: WeekDate)
    requires -32768 <= w.year <= 32767 && 1 <= w.week <= 255 && 1 <= w.day <= 7
    ensures ToSysDays(w) == FirstMonday(Stands(w.year)) + 7 * (w.week - 1) + w.day - 1
  {
    hide WeekStart, FirstMonday;
    WeekStartIs(w.year);
  }

  // ---- the round trips, with the exact conditions under which they hold

  lemma YearNear(d: int, s: int)
    requires FirstMonday(s) - 7 <= d <= FirstMonday(s) + 1784
    ensures s - 1 <= CivilOf(d + 3).year < s + 5
  {
    hide FirstMonday, CivilOf, YearStart;
    var c := CivilOf(d + 3).year;
    YearBounds(d + 3);
    FirstMondayFacts(s);
    if c < s - 1 { YearStartMono(c + 1, s - 1); YearStartMono(s - 1, s); }
    if s + 5 <= c { YearStartMono(s, s + 5); YearStartMono(s + 5, c); }
  }

  /** A wrapped year is nowhere near the year of the day. */
  lemma StoredYearIsFar(d: int)
    requires !Representable(d)
    ensures var s, c := Stands(FromSysDays(d).year), CivilOf(d + 3).year; !(s - 1 <= c < s + 5)
  {
    hide FirstMonday, CivilOf, YearStart, WeekStart, WeekdayFromDays, Quot, Unsigned, Representable;
    NotRepresentable(d);
    WeekStartIs(Short(CivilOf(d + 3).year));
  }

  /** The day of a week date is near the Monday of its year, whatever the week number. */
  lemma WeekIsNear(d: int)
    ensures var w := FromSysDays(d); FirstMonday(Stands(w.year)) - 7 <= ToSysDays(w) <= FirstMonday(Stands(w.year)) + 1784
  {
    hide FirstMonday, CivilOf, YearStart, WeekStart, WeekdayFromDays, Quot;
    WeekStartIs(FromSysDays(d).year);
    WeekdayIs(d);
  }

  /** A wrapped year puts the computed week at least a millennium away from the day. */
  lemma WrappedYearIsFar(d: int)
    requires !Representable(d)
    ensures ToSysDays(FromSysDays(d)) != d
  {
    hide FirstMonday, CivilOf, YearStart, ToSysDays, FromSysDays, Representable;
    StoredYearIsFar(d);
    WeekIsNear(d);
    if ToSysDays(FromSysDays(d)) == d { YearNear(d, Stands(FromSysDays(d).year)); }
  }

  lemma NotRepresentable(d: int)
    requires !Representable(d)
    ensures var c := CivilOf(d + 3).year; (c <= -32767 && d < FirstMonday(-32767)) || (c >= 32769 && FirstMonday(-32767) <= d)
  {
    hide FirstMonday, CivilOf, YearStart;
    var c := CivilOf(d + 3).year;
    YearBounds(d + 3);
    FirstMondayFacts(-32767);
    if c > -32767 { YearStartMono(-32766, c); YearStartMono(-32767, -32766); }
    if c <= 32768 { YearStartMono(c + 1, 32769); }
  }

  /** Converting a day to a week date and back gives the same day, exactly for representable days. */
  lemma DayRoundTrip(d: int)
    ensures ToSysDays(FromSysDays(d)) == d <==> Representable(d)
  {
    hide FirstMonday, CivilOf, YearStart, ToSysDays, FromSysDays;
    if Representable(d) {
      FromSysDaysRight(d);
      ToSysDaysRight(FromSysDays(d));
    } else {
      WrappedYearIsFar(d);
    }
  }

  lemma YearWeeks(y: int)
    requires -32767 <= y <= 32767
    ensures FirstMonday(y + 1) - FirstMonday(y) == 7 * WeeksInYear(y)
  {
    hide FirstMonday, LastThursday;
    LastThursdayIs(y);
    LastThursdayIs(y - 1);
    FirstMondayFacts(y);
  }

  /** A year has 53 weeks exactly when is_leap says so, for every year but the one whose predecessor wraps. */
  lemma LongYears(y: int)
    requires -32768 <= y <= 32767
    ensures FirstMonday(Stands(y) + 1) - FirstMonday(Stands(y)) == 7 * WeeksInYear(y) <==> y != -32768
  {
    hide FirstMonday, WeeksInYear;
    if y == -32768 { WrappedYear(); } else { YearWeeks(y); }
  }

  /** Year -32768 computes the weeks of 32768, a year of 52 weeks, but is_leap reports 53. */
  lemma WrappedYear()
    ensures WeeksInYear(-32768) == 53 && FirstMonday(32769) - FirstMonday(32768) == 364
    ensures FirstMonday(32769) == YearStart(32769) - 2
  {
    hide FirstMonday, YearStart, LastThursday;
    FirstMondaysOfWrappedYear();
    LastThursdayIs(-32768);
    LastThursdayIs(32767);
    FirstMondayMono(-32767, 32768);
    assert Short(-32768 - 1) == 32767;
  }

  lemma FirstMondaysOfWrappedYear()
    ensures FirstMonday(32768) == 11248738 && FirstMonday(32769) == 11249102 && YearStart(32769) == 11249104
  {
    YearStartOfWrappedYear();
    hide YearStart;
    YearStartParts(32768);
  }

  lemma YearStartOfWrappedYear()
    ensures YearStart(32768) == 11248738
  {
  }

  /** The week dates on which the round trip fails: the end of the year whose number wraps. */
  predicate Wrapped(w: WeekDate) { w.year == -32768 && (w.week == 53 || (w.week == 52 && w.day == 7)) }

  lemma WeekRepresentable(w: WeekDate)
    requires Ok(w)
    ensures FirstMonday(Stands(w.year)) <= ToSysDays(w)
    ensures w.year != -32768 ==> ToSysDays(w) < FirstMonday(Stands(w.year) + 1)
    ensures Representable(ToSysDays(w)) <==> !Wrapped(w)
  {
    hide FirstMonday, YearStart, ToSysDays, IsLongYear;
    var s := Stands(w.year);
    ToSysDaysRight(w);
    WrappedYear();
    if s != -32767 { FirstMondayMono(-32767, s); }
    if s != 32768 {
      YearWeeks(w.year);
      if s != 32767 { FirstMondayMono(s + 1, 32768); }
    }
  }

  /** Every ok() week date survives the trip to a day and back, except the eight wrapped ones. */
  lemma WeekRoundTrip(w: WeekDate)
    requires Ok(w)
    ensures FromSysDays(ToSysDays(w)) == w <==> !Wrapped(w)
  {
    hide FirstMonday, CivilOf, YearStart, ToSysDays, FromSysDays, IsLongYear, Representable;
    var d := ToSysDays(w);
    ToSysDaysRight(w);
    WeekRepresentable(w);
    DayRoundTrip(d);
    if !Wrapped(w) {
      FromSysDaysRight(d);
      SameIsoYear(w, d);
    }
  }

  lemma SameIsoYear(w: WeekDate, d: int)
    requires Ok(w) && !Wrapped(w) && d == ToSysDays(w)
    ensures IsoYear(d) == Stands(w.year)
  {
    hide FirstMonday, CivilOf, YearStart, ToSysDays, IsLongYear, IsoYear;
    var s := Stands(w.year);
    ToSysDaysRight(w);
    WeekRepresentable(w);
    WrappedYear();
    IsoYearIs(d);
    var y := IsoYear(d);
    if y + 1 < s { FirstMondayMono(y + 1, s); }
    if s + 1 < y { FirstMondayMono(s + 1, y); }
  }

  /** The Thursday of the week of d, given the Monday that opens the year and the next such Monday. */
  lemma ThursdayOf(d: int, start: int, monday: int, next: int)
    requires start - 3 <= monday <= start + 3 && monday <= d < next && next - monday in {364, 371}
    requires (monday + 3) % 7 == 0
    ensures var thursday := d - (d - monday) % 7 + 3;
            (thursday - start) / 7 == (d - monday) / 7 && (thursday + 3) % 7 == 3
            && start <= thursday <= next - 4
  {
    var k := (d - monday) / 7;
    assert d - (d - monday) % 7 == monday + 7 * k;
    assert 0 <= monday + 3 - start < 7;
  }

  /** The definition of the standard: a day belongs to the year of the Thursday of its week, and
      its week number counts the Thursdays of that year up to that one. */
  lemma FollowsTheStandard(d: int)
    requires Representable(d)
    ensures var w := FromSysDays(d);
            var thursday := d - w.day + THU;
            WeekdayFromDays(thursday) == THU && w.day == WeekdayFromDays(d)
            && CivilOf(thursday).year == Stands(w.year)
            && w.week == (thursday - YearStart(Stands(w.year))) / 7 + 1
  {
    hide FirstMonday, CivilOf, YearStart, WeekdayFromDays, FromSysDays;
    FromSysDaysRight(d);
    var y := IsoYear(d);
    IsoYearIs(d);
    FirstMondayFacts(y);
    FirstMondayFacts(y + 1);
    WeekdayIs(d);
    WeekdayIs(FirstMonday(y));
    ThursdayOf(d, YearStart(y), FirstMonday(y), FirstMonday(y + 1));
    var thursday := d - FromSysDays(d).day + THU;
    WeekdayIs(thursday);
    YearOfDay(y, thursday);
  }

  /** ok() holds for exactly the week dates of days, as far as they do not wrap. */
  lemma OkExact(w: WeekDate)
    requires !Wrapped(w)
    ensures Ok(w) <==> exists d :: Representable(d) && FromSysDays(d) == w
  {
    hide FirstMonday, YearStart, CivilOf, ToSysDays, FromSysDays, WeeksInYear, Representable, Stands;
    if Ok(w) {
      WeekRoundTrip(w);
      WeekRepresentable(w);
    } else if d :| Representable(d) && FromSysDays(d) == w {
      FromDayIsOk(d);
      assert false;
    }
  }

  lemma FromDayIsOk(d: int)
    requires Representable(d)
    ensures Ok(FromSysDays(d))
  {
    hide FirstMonday, YearStart, CivilOf, FromSysDays, WeeksInYear, Representable;
    var w, y := FromSysDays(d), IsoYear(d);
    FromSysDaysRight(d);
    IsoYearIs(d);
    LongYears(w.year);
    WrappedYear();
    FirstMondayFacts(y);
  }
}
