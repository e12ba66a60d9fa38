/** The proleptic Gregorian calendar as date.h computes it: a day count since
    1970-01-01, the year-month-day form, weekdays, and the last given weekday of a
    month.  The algorithms are stated on unbounded years first (ToDays, CivilOf);
    FromDays then stores the year in a `short`, as date::year does. */
module Calendar {

  /** C++ integer division, which truncates toward zero. */
  function Quot(a: int, b: int): int
    requires b > 0
  {
    if a >= 0 then a / b else -((-a) / b)
  }

  /** Conversion of an int to a 16-bit two's complement short. */
  function Short(y: int): (r: int)
    ensures -32768 <= r <= 32767 && (-32768 <= y <= 32767 ==> r == y)
    ensures exists k :: r == y + 65536 * k
  {
    var r := (y + 32768) % 65536 - 32768;
    assert r == y + 65536 * (-((y + 32768) / 65536));
    r
  }

  datatype Ymd = Ymd(year: int, month: int, day: int)

  predicate IsLeap(y: int) { y % 4 == 0 && (y % 100 != 0 || y % 400 == 0) }

  function LastDay(y: int, m: int): int
  {
    if m == 2 then (if IsLeap(y) then 29 else 28)
    else if m == 4 || m == 6 || m == 9 || m == 11 then 30
    else 31
  }

  predicate Valid(x: Ymd) { 1 <= x.month <= 12 && 1 <= x.day <= LastDay(x.year, x.month) }

  /** The calendar's own successor: the day after x. */
  function NextDay(x: Ymd): Ymd
  {
    if x.day < LastDay(x.year, x.month) then x.(day := x.day + 1)
    else if x.month < 12 then Ymd(x.year, x.month + 1, 1)
    else Ymd(x.year + 1, 1, 1)
  }

  // ---- year_month_day::to_days and from_days

  function DayOfMarchYear(m: int, d: int): int { (153 * (if m > 2 then m - 3 else m + 9) + 2) / 5 + d - 1 }

  function DaysBefore(yoe: int): int { 365 * yoe + yoe / 4 - yoe / 100 }

  function ToDays(x: Ymd): int
  {
    var y := x.year - (if x.month <= 2 then 1 else 0);
    var era := Quot(if y >= 0 then y else y - 399, 400);
    var yoe := y - era * 400;
    var doe := DaysBefore(yoe) + DayOfMarchYear(x.month, x.day);
    era * 146097 + doe - 719468
  }

  function YearOfEra(doe: int): int { (doe - doe / 1460 + doe / 36524 - doe / 146096) / 365 }

  /** The date of day doy of the March-based year y. */
  function MarchDate(y: int, doy: int): Ymd
  {
    var mp := (5 * doy + 2) / 153;
    var m := if mp < 10 then mp + 3 else mp - 9;
    Ymd(y + (if m <= 2 then 1 else 0), m, doy - (153 * mp + 2) / 5 + 1)
  }

  function CivilOf(days: int): Ymd
  {
    var z := days + 719468;
    var era := Quot(if z >= 0 then z else z - 146096, 146097);
    var doe := z - era * 146097;
    var yoe := YearOfEra(doe);
    MarchDate(yoe + era * 400, doe - DaysBefore(yoe))
  }

  /** The stored result: date::year narrows to a short. */
  function FromDays(days: int): Ymd
  {
    var x := CivilOf(days);
    x.(year := Short(x.year))
  }

  lemma QuotIsFloor(y: int)
    ensures Quot(if y >= 0 then y else y - 399, 400) == y / 400
    ensures Quot(if y >= 0 then y else y - 146096, 146097) == y / 146097
  {
  }

  /** Century, olympiad and year digits of a year of the 400-year era. */
  lemma EraDigits(yoe: int)
    requires 0 <= yoe < 400
    ensures var c, q, r := yoe / 100, yoe % 100 / 4, yoe % 4;
            yoe == 100 * c + 4 * q + r && 0 <= c < 4 && 0 <= q < 25 && 0 <= r < 4
            && DaysBefore(yoe) == 36524 * c + 1461 * q + 365 * r
  {
    var c, t := yoe / 100, yoe % 100;
    var q, r := t / 4, t % 4;
    assert yoe == 4 * (25 * c + q) + r;
    assert yoe / 4 == 25 * c + q;
  }

  /** The March-based year is leap when its last day is a 29 February. */
  predicate LongMarchYear(yoe: int) { (yoe + 1) % 4 == 0 && ((yoe + 1) % 100 != 0 || yoe == 399) }

  function DaysInMarchYear(yoe: int): int { if LongMarchYear(yoe) then 366 else 365 }

  /** The closed formula of from_days finds the year of every day of the era. */
  lemma YearOfEraExact(yoe: int, doy: int)
    requires 0 <= yoe < 400 && 0 <= doy < DaysInMarchYear(yoe)
    ensures var doe := DaysBefore(yoe) + doy; 0 <= doe < 146097 && YearOfEra(doe) == yoe
  {
    EraDigits(yoe);
    var c, q, r := yoe / 100, yoe % 100 / 4, yoe % 4;
    assert doy == 365 ==> r == 3 && (q < 24 || c == 3);
    YearFromDigits(c, q, r, doy);
    assert yoe == 100 * c + 4 * q + r;
    hide DaysBefore;
  }

  lemma YearFromDigits(c: int, q: int, r: int, doy: int)
    requires 0 <= c < 4 && 0 <= q < 25 && 0 <= r < 4 && 0 <= doy <= 365
    requires doy == 365 ==> r == 3 && (q < 24 || c == 3)
    ensures var doe := 36524 * c + 1461 * q + 365 * r + doy;
            0 <= doe < 146097 && YearOfEra(doe) == 100 * c + 4 * q + r
  {
    var doe := 36524 * c + 1461 * q + 365 * r + doy;
    var over := 24 * c + q + 365 * r + doy;
    assert doe == 1460 * (25 * c + q) + over;
    var delta := if over >= 1460 then 1 else 0;
    assert doe / 1460 == 25 * c + q + delta;
    assert doe / 36524 - doe / 146096 == c;
  }

  lemma YearOfEraRange(doe: int) returns (yoe: int, doy: int)
    requires 0 <= doe < 146097
    ensures 0 <= yoe < 400 && 0 <= doy < DaysInMarchYear(yoe)
    ensures doe == DaysBefore(yoe) + doy && YearOfEra(doe) == yoe
  {
    var c := if doe == 146096 then 3 else doe / 36524;
    var s := doe - 36524 * c;
    var q := s / 1461;
    var t := s - 1461 * q;
    var r := if t == 1460 then 3 else t / 365;
    yoe, doy := 100 * c + 4 * q + r, t - 365 * r;
    EraDigits(yoe);
    assert yoe / 100 == c && yoe % 100 / 4 == q && yoe % 4 == r;
    YearOfEraExact(yoe, doy);
  }

  lemma MonthOfDay(yoe: int, doy: int)
    requires 0 <= doy < DaysInMarchYear(yoe)
    ensures var mp := (5 * doy + 2) / 153;
            var d := doy - (153 * mp + 2) / 5 + 1;
            var m := if mp < 10 then mp + 3 else mp - 9;
            0 <= mp < 12 && 1 <= d && (m != 2 ==> d <= LastDay(1, m)) && (m == 2 ==> d <= DaysInMarchYear(yoe) - 337)
            && DayOfMarchYear(m, d) == doy
  {
  }

  lemma DayOfMonth(m: int, d: int)
    requires 1 <= m <= 12 && 1 <= d <= (if m == 2 then 29 else LastDay(1, m))
    ensures var doy := DayOfMarchYear(m, d);
            var mp := if m > 2 then m - 3 else m + 9;
            0 <= doy < 366 && (doy == 365 <==> m == 2 && d == 29)
            && (5 * doy + 2) / 153 == mp && doy - (153 * mp + 2) / 5 + 1 == d
  {
  }

  /** The March-based year y (starting in March of year y) is long exactly when year y + 1 is leap. */
  lemma LongIsLeap(y: int)
    ensures LongMarchYear(y % 400) <==> IsLeap(y + 1)
  {
    var e, r := y / 400, y % 400;
    Mod4(100 * e, r + 1);
    Mod100(4 * e, r + 1);
    Mod400(e, r + 1);
  }

  lemma Mod4(a: int, r: int)
    ensures (4 * a + r) % 4 == r % 4
  {
  }

  lemma Mod100(a: int, r: int)
    ensures (100 * a + r) % 100 == r % 100
  {
  }

  lemma Mod400(a: int, r: int)
    ensures (400 * a + r) % 400 == r % 400
  {
  }

  /** Day number of day doy of the March-based year y. */
  function MarchDay(y: int, doy: int): int { y / 400 * 146097 + DaysBefore(y % 400) + doy - 719468 }

  function MarchYear(x: Ymd): int { x.year - (if x.month <= 2 then 1 else 0) }

  lemma ToDaysParts(x: Ymd)
    ensures ToDays(x) == MarchDay(MarchYear(x), DayOfMarchYear(x.month, x.day))
  {
    QuotIsFloor(MarchYear(x));
  }

  lemma EraOfDay(era: int, doe: int)
    requires 0 <= doe < 146097
    ensures var z := era * 146097 + doe; Quot(if z >= 0 then z else z - 146096, 146097) == era
  {
  }

  lemma CivilOfParts(y: int, doy: int)
    requires 0 <= doy < DaysInMarchYear(y % 400)
    ensures CivilOf(MarchDay(y, doy)) == MarchDate(y, doy)
  {
    var era, yoe := y / 400, y % 400;
    var before := DaysBefore(yoe);
    YearOfEraExact(yoe, doy);
    EraOfDay(era, before + doy);
    CivilOfEra(era, yoe, before, doy);
  }

  lemma CivilOfEra(era: int, yoe: int, before: int, doy: int)
    requires before == DaysBefore(yoe) && 0 <= before + doy < 146097 && YearOfEra(before + doy) == yoe
    ensures CivilOf(era * 146097 + before + doy - 719468) == MarchDate(era * 400 + yoe, doy)
  {
    hide Quot, YearOfEra, DaysBefore, MarchDate;
    EraOfDay(era, before + doy);
  }

  lemma MarchDateValid(y: int, doy: int)
    requires 0 <= doy < DaysInMarchYear(y % 400)
    ensures var x := MarchDate(y, doy);
            Valid(x) && MarchYear(x) == y && DayOfMarchYear(x.month, x.day) == doy
  {
    MonthOfDay(y % 400, doy);
    LongIsLeap(y);
  }

  lemma ValidIsMarchDate(x: Ymd)
    requires Valid(x)
    ensures var y, doy := MarchYear(x), DayOfMarchYear(x.month, x.day);
            0 <= doy < DaysInMarchYear(y % 400) && MarchDate(y, doy) == x
  {
    DayOfMonth(x.month, x.day);
    LongIsLeap(MarchYear(x));
  }

  lemma DayIsMarchDay(days: int) returns (y: int, doy: int)
    ensures 0 <= doy < DaysInMarchYear(y % 400) && MarchDay(y, doy) == days
  {
    var z := days + 719468;
    var era, doe := z / 146097, z % 146097;
    var yoe, d := YearOfEraRange(doe);
    y, doy := yoe + era * 400, d;
    assert y / 400 == era && y % 400 == yoe;
  }

  /** from_days names a real date, and to_days takes it back to the same day. */
  lemma DaysRoundTrip(days: int)
    ensures Valid(CivilOf(days)) && ToDays(CivilOf(days)) == days
  {
    var y, doy := DayIsMarchDay(days);
    CivilOfParts(y, doy);
    MarchDateValid(y, doy);
    ToDaysParts(MarchDate(y, doy));
  }

  /** to_days followed by from_days returns every valid date unchanged. */
  lemma CivilRoundTrip(x: Ymd)
    requires Valid(x)
    ensures CivilOf(ToDays(x)) == x
  {
    ValidIsMarchDate(x);
    ToDaysParts(x);
    CivilOfParts(MarchYear(x), DayOfMarchYear(x.month, x.day));
  }

  lemma NextMarchYear(y: int)
    ensures MarchDay(y + 1, 0) == MarchDay(y, 0) + DaysInMarchYear(y % 400)
  {
    var era, yoe := y / 400, y % 400;
    NextYearOfEra(yoe);
    if yoe < 399 {
      assert (y + 1) / 400 == era && (y + 1) % 400 == yoe + 1;
    } else {
      assert (y + 1) / 400 == era + 1 && (y + 1) % 400 == 0;
    }
  }

  lemma NextYearOfEra(yoe: int)
    requires 0 <= yoe < 400
    ensures DaysBefore(yoe) + DaysInMarchYear(yoe) == if yoe < 399 then DaysBefore(yoe + 1) else 146097
  {
    NextQuarter(yoe);
    NextCentury(yoe);
    assert (yoe + 1) % 100 == 0 ==> (yoe + 1) % 4 == 0 by { Hundreds(yoe + 1); }
  }

  lemma NextQuarter(n: int)
    requires n >= 0
    ensures (n + 1) / 4 - n / 4 == if (n + 1) % 4 == 0 then 1 else 0
  {
  }

  lemma NextCentury(n: int)
    requires n >= 0
    ensures (n + 1) / 100 - n / 100 == if (n + 1) % 100 == 0 then 1 else 0
  {
  }

  lemma Hundreds(n: int)
    ensures n % 100 == 0 ==> n % 4 == 0
  {
    if n % 100 == 0 { assert n == 4 * (25 * (n / 100)); }
  }

  /** Within a March-based year the next date is the next day; after the last it is 1 March. */
  lemma NextInMarchYear(x: Ymd)
    requires Valid(x)
    ensures var n, y, doy := NextDay(x), MarchYear(x), DayOfMarchYear(x.month, x.day);
            Valid(n) && if doy + 1 < DaysInMarchYear(y % 400)
                        then MarchYear(n) == y && DayOfMarchYear(n.month, n.day) == doy + 1
                        else doy + 1 == DaysInMarchYear(y % 400) && n == Ymd(y + 1, 3, 1)
  {
    LongIsLeap(MarchYear(x));
    DayOfMonth(x.month, x.day);
  }

  /** The independent meaning of to_days: it counts calendar days from 1970-01-01. */
  lemma ToDaysCountsDays(x: Ymd)
    requires Valid(x)
    ensures Valid(NextDay(x)) && ToDays(NextDay(x)) == ToDays(x) + 1
  {
    hide ToDays, MarchDay, Valid, NextDay, MarchYear, DayOfMarchYear, DaysInMarchYear;
    var y, doy := MarchYear(x), DayOfMarchYear(x.month, x.day);
    ToDaysParts(x);
    ToDaysParts(NextDay(x));
    NextInMarchYear(x);
    MarchDaySum(y, doy);
    MarchDaySum(y, doy + 1);
    if doy + 1 >= DaysInMarchYear(y % 400) {
      NextMarchYear(y);
      assert ToDays(Ymd(y + 1, 3, 1)) == MarchDay(y + 1, 0) by { ToDaysParts(Ymd(y + 1, 3, 1)); MarchFirst(y + 1); }
    }
  }

  lemma MarchFirst(y: int)
    ensures MarchYear(Ymd(y, 3, 1)) == y && DayOfMarchYear(3, 1) == 0
  {
  }

  /** Day 0 is 1970-01-01. */
  lemma Epoch()
    ensures ToDays(Ymd(1970, 1, 1)) == 0 && CivilOf(0) == Ymd(1970, 1, 1)
  {
    assert ToDays(Ymd(1970, 1, 1)) == 0;
    hide ToDays, CivilOf;
    CivilRoundTrip(Ymd(1970, 1, 1));
  }

  /** Narrowing to a short loses nothing exactly for the years a short can hold. */
  lemma FromDaysExact(days: int)
    ensures FromDays(days) == CivilOf(days) <==> -32768 <= CivilOf(days).year <= 32767
    ensures ToDays(FromDays(days)) == days <==> -32768 <= CivilOf(days).year <= 32767
  {
    DaysRoundTrip(days);
    var x, f := CivilOf(days), FromDays(days);
    ToDaysParts(x);
    ToDaysParts(f);
    var k :| f.year == x.year + 65536 * k;
    EraDigits(MarchYear(x) % 400);
    EraDigits(MarchYear(f) % 400);
  }

  // ---- years

  /** The day number of 1 January. */
  function YearStart(y: int): int { ToDays(Ymd(y, 1, 1)) }

  lemma YearStartParts(y: int)
    ensures YearStart(y) == MarchDay(y - 1, 306)
    ensures ToDays(Ymd(y - 1, 12, 31)) == YearStart(y) - 1
    ensures YearStart(y + 1) - YearStart(y) == if IsLeap(y) then 366 else 365
  {
    hide MarchDay, DaysBefore, ToDays;
    ToDaysParts(Ymd(y, 1, 1));
    ToDaysParts(Ymd(y + 1, 1, 1));
    ToDaysParts(Ymd(y - 1, 12, 31));
    MarchDaySum(y - 1, 306);
    MarchDaySum(y - 1, 305);
    MarchDaySum(y, 306);
    NextMarchYear(y - 1);
    LongIsLeap(y - 1);
  }

  /** The year that from_days finds is the one whose first of January comes last before the day. */
  lemma YearBounds(days: int)
    ensures var y := CivilOf(days).year; YearStart(y) <= days < YearStart(y + 1)
  {
    hide MarchDay, YearStart, MarchDate, CivilOf, DaysBefore;
    var m, doy := DayIsMarchDay(days);
    CivilOfParts(m, doy);
    var y := CivilOf(days).year;
    assert y == m + (if doy < 306 then 0 else 1) by { YearOfMarchDate(m, doy); }
    YearStartParts(y);
    YearStartParts(y + 1);
    MarchDaySum(m, doy);
    MarchDaySum(m, 306);
    if doy < 306 {
      assert YearStart(y + 1) == MarchDay(m, 306);
      assert YearStart(y) <= MarchDay(m, 0) by { NextMarchYear(m - 1); MarchDaySum(m - 1, 306); }
    } else {
      assert YearStart(y) == MarchDay(m, 306);
      assert YearStart(y + 1) >= MarchDay(m, 0) + 366 by { NextMarchYear(m); MarchDaySum(m + 1, 306); }
    }
  }

  lemma MarchDaySum(y: int, doy: int)
    ensures MarchDay(y, doy) == MarchDay(y, 0) + doy
  {
  }

  lemma YearOfMarchDate(y: int, doy: int)
    requires 0 <= doy < 366
    ensures MarchDate(y, doy).year == y + (if doy < 306 then 0 else 1)
  {
  }

  lemma YearOfDay(y: int, days: int)
    requires YearStart(y) <= days < YearStart(y + 1)
    ensures CivilOf(days).year == y
  {
    var c := CivilOf(days).year;
    YearBounds(days);
    YearStartMono(c + 1, y);
    YearStartMono(y + 1, c);
  }

  lemma YearStartMono(a: int, b: int)
    ensures a <= b ==> YearStart(b) >= YearStart(a) + 365 * (b - a)
    decreases b - a
  {
    if a < b {
      YearStartMono(a + 1, b);
      YearStartParts(a);
    }
  }

  // ---- weekdays, in the encoding of date::weekday (Sunday is 0)

  function Unsigned(z: int): int { z % 0x1_0000_0000 }

  function WeekdayOf(z: int): int
  {
    if z >= -4 then Unsigned(Unsigned(z) + 4) % 7 else Unsigned(z) % 7
  }

  function WeekdayDiff(x: int, y: int): int
  {
    var wdu := x - y;
    wdu - Quot(if wdu >= 0 then wdu else wdu - 6, 7) * 7
  }

  /** For every int, the unsigned computation is the weekday cycle anchored at Thursday, 1970-01-01. */
  lemma WeekdayCycle(z: int)
    requires -0x8000_0000 <= z < 0x8000_0000
    ensures WeekdayOf(z) == (z + 4) % 7
  {
  }

  lemma ShortYearDays(x: Ymd)
    requires Valid(x) && -32768 <= x.year <= 32767
    ensures -13_000_000 < ToDays(x) < 13_000_000
  {
    ToDaysParts(x);
    DayOfMonth(x.month, x.day);
    EraDigits(MarchYear(x) % 400);
  }
}
