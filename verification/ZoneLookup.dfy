/** The offset in force at a UTC instant, found by walking the rules of the zone's current line. */
module ZoneLookup {
  import Abbreviations
  import opened Calendar
  import opened MonthDayTimes
  import opened RuleSplit
  import opened RuleWalk

  const YEAR_MIN := -32767

  function MinTime(): int { Calendar.ToDays(Ymd(YEAR_MIN, 1, 1)) * 86400 }

  function MaxTime(): int { Calendar.ToDays(Ymd(YEAR_MAX, 12, 31)) * 86400 }

  /** The timeline: from the first day of the least year to the last day of the greatest that a year can hold. */
  lemma TimeLine()
    ensures MinTime() % 86400 == 0 && CivilOf(MinTime() / 86400) == Ymd(-32767, 1, 1)
    ensures MaxTime() % 86400 == 0 && CivilOf(MaxTime() / 86400) == Ymd(32767, 12, 31)
  {
    hide CivilOf, Calendar.ToDays;
    CivilRoundTrip(Ymd(-32767, 1, 1));
    CivilRoundTrip(Ymd(32767, 12, 31));
  }

  datatype SysInfo = SysInfo(begin: int, end: int, offset: int, save: int, abbrev: string)

  /** One line of a zone: in force until an instant, with a fixed saving, none, or rules. */
  datatype Governed = FixedSave(save: int) | NoRule | Rules(first: Cursor, last: Cursor, initialSave: int, initialAbbrev: string)

  datatype Zonelet = Zonelet(gmtoff: int, line: Governed, until: int, format: string)

  // ---- the rule occurrences a line uses, in order

  /** A line's rules, the saving before the first of them, and the zone's offset. */
  datatype Schedule = Schedule(rules: seq<Rule>, ps: seq<Cursor>, offset: int, save: int, abbrev: string)
  {
    ghost predicate InTable() { forall i :: 0 <= i < |ps| ==> ps[i].At? && ps[i].rule < |rules| }

    function RuleOf(k: nat): Rule
      requires k < |ps| && ps[k].At? && ps[k].rule < |rules|
    {
      rules[ps[k].rule]
    }

    /** The saving in force just before occurrence k. */
    ghost function SaveBefore(k: nat): int
      requires k <= |ps| && InTable()
    {
      if k == 0 then save else RuleOf(k - 1).save
    }

    /** The instant of occurrence k. */
    ghost function Instant(k: nat): int
      requires k < |ps| && InTable()
    {
      RuleOf(k).at.ToSys(ps[k].year, offset, SaveBefore(k))
    }

    /** Later occurrences come at later instants. */
    ghost predicate Increasing()
      requires InTable()
    {
      forall i, j :: 0 <= i < j < |ps| ==> Instant(i) < Instant(j)
    }

    ghost function Begin(k: int): int
      requires -1 <= k < |ps| && InTable()
    {
      if k == -1 then MinTime() else Instant(k)
    }

    ghost function End(k: int): int
      requires -1 <= k < |ps| && InTable()
    {
      if k + 1 == |ps| then MaxTime() else Instant(k + 1)
    }

    /** The stretch that begins with occurrence k, or before them all when k is -1. */
    ghost function Stretch(k: int): SysInfo
      requires -1 <= k < |ps| && InTable()
    {
      SysInfo(Begin(k), End(k), 0, if k == -1 then save else RuleOf(k).save, if k == -1 then abbrev else RuleOf(k).abbrev)
    }

    /** Stretch k is the one an instant belongs to. */
    ghost predicate InStretch(k: int, t: int)
      requires InTable()
    {
      -1 <= k < |ps| && (k >= 0 ==> Instant(k) <= t) && (k + 1 < |ps| ==> t < Instant(k + 1))
    }
  }

  ghost predicate SpanOf(s: Schedule, first: nat, last: nat, line: Governed)
  {
    && line.Rules? && Block(s.rules, first, last) && Span(s.rules, first, last, line.first, line.last, s.ps)
    && s.save == line.initialSave && s.abbrev == line.initialAbbrev
    && s.InTable() && s.Increasing()
  }

  lemma {:induction false} SpanOrdered(rules: seq<Rule>, first: nat, last: nat, a: Cursor, b: Cursor, ps: seq<Cursor>, i: nat, j: nat)
    requires Span(rules, first, last, a, b, ps) && i < j < |ps|
    ensures Before(ps[i], ps[j])
    decreases j
  {
    assert Adjacent(rules, first, last, ps[j - 1], ps[j]);
    if i < j - 1 { SpanOrdered(rules, first, last, a, b, ps, i, j - 1); }
  }

  /** Occurrence n of a span: it is the first, or the last, only at the ends, and it has a
      predecessor in the table unless it is the first. */
  lemma OccurrenceAt(s: Schedule, first: nat, last: nat, line: Governed, n: nat)
    requires SpanOf(s, first, last, line) && n < |s.ps|
    ensures Occurs(s.rules, first, last, s.ps[n])
    ensures s.ps[n] == line.first <==> n == 0
    ensures s.ps[n] == line.last <==> n == |s.ps| - 1
    ensures n > 0 ==> s.ps[n] != At(first, s.rules[first].start)
  {
    if n > 0 {
      SpanOrdered(s.rules, first, last, line.first, line.last, s.ps, 0, n);
      assert Adjacent(s.rules, first, last, s.ps[n - 1], s.ps[n]);
      FirstIsInitial(s.rules, first, last, s.ps[n]);
    }
    if n < |s.ps| - 1 { SpanOrdered(s.rules, first, last, line.first, line.last, s.ps, n, |s.ps| - 1); }
  }

  lemma PreviousIs(s: Schedule, first: nat, last: nat, line: Governed, n: nat, q: Cursor)
    requires SpanOf(s, first, last, line) && 0 < n < |s.ps| && Adjacent(s.rules, first, last, q, s.ps[n])
    ensures q == s.ps[n - 1]
  {
    NextAndPreviousAreInverse(s.rules, first, last, s.ps[n - 1], s.ps[n], q);
  }

  lemma NextIs(s: Schedule, first: nat, last: nat, line: Governed, n: nat, q: Cursor)
    requires SpanOf(s, first, last, line) && n < |s.ps| - 1 && IsNext(s.rules, first, last, s.ps[n], q)
    ensures q == s.ps[n + 1]
  {
    assert Adjacent(s.rules, first, last, s.ps[n], s.ps[n + 1]);
    NextAndPreviousAreInverse(s.rules, first, last, s.ps[n], s.ps[n + 1], q);
  }

  /** find_rule for an instant given in UTC. */
  method FindRule(rules: seq<Rule>, ghost first: nat, ghost last: nat, line: Governed, y: int, offset: int,
                  query: MonthDayTime, ghost s: Schedule) returns (x: SysInfo)
    requires SpanOf(s, first, last, line) && s.rules == rules && s.offset == offset && query.zone == Utc
    ensures exists k :: s.InStretch(k, query.ToTimePoint(y)) && x == s.Stretch(k)
  {
    hide MonthDayTime.ToTimePoint, Adjacent, Block, IsNext, Occurs, MinTime, MaxTime;
    var r := line.first;
    x := SysInfo(MinTime(), MaxTime(), 0, line.initialSave, line.initialAbbrev);
    ghost var k := -1;
    ghost var t := query.ToTimePoint(y);
    ghost var n := 0;
    while r.At?
      invariant if r.At? then n < |s.ps| && r == s.ps[n] && x.save == s.SaveBefore(n) else s.ps == [] && n == 0
      invariant x == SysInfo(MinTime(), MaxTime(), 0, x.save, line.initialAbbrev) && (n == 0 ==> x.save == line.initialSave)
      invariant forall j :: 0 <= j < n && j < |s.ps| ==> s.Instant(j) < t
      decreases |s.ps| - n
    {
      OccurrenceAt(s, first, last, line, n);
      var tr := rules[r.rule].at.ToSys(r.year, offset, x.save);
      var tx := query.ToSys(y, offset, x.save);
      assert tx == t && tr == s.Instant(n);
      if tx <= tr || r == line.last {
        if tx < tr && r == line.first {
          x := x.(end := rules[r.rule].at.ToSys(r.year, offset, x.save));
          assert s.InStretch(-1, t) && x == s.Stretch(-1);
          return;
        }
        k := n;
        if tx < tr {
          r := FindPreviousRule(rules, first, last, r.rule, r.year);
          PreviousIs(s, first, last, line, n, r);
          k := n - 1;
          OccurrenceAt(s, first, last, line, k);
        }
        var prevSave := line.initialSave;
        if r != line.first {
          var before := FindPreviousRule(rules, first, last, r.rule, r.year);
          PreviousIs(s, first, last, line, k, before);
          prevSave := rules[before.rule].save;
        }
        x := x.(begin := rules[r.rule].at.ToSys(r.year, offset, prevSave), save := rules[r.rule].save,
                abbrev := rules[r.rule].abbrev);
        if r != line.last {
          var next := FindNextInTable(rules, first, last, r.rule, r.year);
          NextIs(s, first, last, line, k, next);
          x := x.(end := rules[next.rule].at.ToSys(next.year, offset, x.save));
        } else {
          x := x.(end := MaxTime());
        }
        assert s.InStretch(k, t) && x == s.Stretch(k);
        return;
      }
      x := x.(save := rules[r.rule].save);
      r := FindNextInTable(rules, first, last, r.rule, r.year);
      NextIs(s, first, last, line, n, r);
      n := n + 1;
    }
    assert s.InStretch(-1, t) && x == s.Stretch(-1);
  }

  // ---- the lines of a zone

  datatype Zone = Zone(lines: seq<Zonelet>)

  /** Lines end at increasing instants, and each rule line has its schedule. */
  ghost predicate ZoneOk(rules: seq<Rule>, z: Zone, scheds: seq<Schedule>)
  {
    && |scheds| == |z.lines|
    && (forall i, j :: 0 <= i < j < |z.lines| ==> z.lines[i].until < z.lines[j].until)
    && (forall i :: 0 <= i < |z.lines| && z.lines[i].line.Rules? ==>
          scheds[i].rules == rules && scheds[i].offset == z.lines[i].gmtoff
          && exists first: nat, last: nat :: SpanOf(scheds[i], first, last, z.lines[i].line))
  }

  /** The line in force at an instant: the first that ends after it. */
  ghost predicate LineAt(z: Zone, i: int, t: int)
  {
    0 <= i < |z.lines| && t < z.lines[i].until && forall j :: 0 <= j < i ==> z.lines[j].until <= t
  }

  ghost function LineBegin(z: Zone, i: int): int
    requires 0 <= i < |z.lines|
  {
    if i == 0 then MinTime() else z.lines[i - 1].until
  }

  /** What the zone answers at instant t. */
  ghost predicate Answer(z: Zone, scheds: seq<Schedule>, t: int, r: SysInfo)
    requires |scheds| == |z.lines|
  {
    exists i :: LineAt(z, i, t) && LineAnswer(z, scheds, i, t, r)
  }

  function AbbrevOf(n: Zonelet, letters: string, save: int): string
  {
    Abbreviations.FormatAbbrev(n.format, letters, n.gmtoff + save, save)
  }

  ghost predicate LineAnswer(z: Zone, scheds: seq<Schedule>, i: int, t: int, r: SysInfo)
    requires |scheds| == |z.lines| && 0 <= i < |z.lines|
  {
    var n := z.lines[i];
    match n.line
    case FixedSave(save) => r == SysInfo(LineBegin(z, i), n.until, n.gmtoff + save, save, AbbrevOf(n, "", save))
    case NoRule => r == SysInfo(LineBegin(z, i), n.until, n.gmtoff, 0, AbbrevOf(n, "", 0))
    case Rules(_, _, _, _) =>
      scheds[i].InTable() && exists k :: scheds[i].InStretch(k, t) && Clipped(z, scheds, i, k, r)
  }

  /** Stretch k of line i, cut at the line's own ends. */
  ghost predicate Clipped(z: Zone, scheds: seq<Schedule>, i: int, k: int, r: SysInfo)
    requires |scheds| == |z.lines| && 0 <= i < |z.lines| && scheds[i].InTable()
  {
    && -1 <= k < |scheds[i].ps|
    && var x := scheds[i].Stretch(k);
       r == SysInfo(if i > 0 then Max(x.begin, LineBegin(z, i)) else x.begin, Min(x.end, z.lines[i].until),
                    z.lines[i].gmtoff + x.save, x.save, AbbrevOf(z.lines[i], x.abbrev, x.save))
  }

  /** The offset of an answer is the line's own and the saving; a line with two names goes by the first in standard time
      and by the second with saving. */
  lemma TwoNames(z: Zone, scheds: seq<Schedule>, i: int, t: int, r: SysInfo, a: string, b: string)
    requires |scheds| == |z.lines| && 0 <= i < |z.lines| && LineAnswer(z, scheds, i, t, r)
    requires z.lines[i].format == a + "/" + b && '/' !in a && '%' !in a + b
    ensures r.offset == z.lines[i].gmtoff + r.save && r.abbrev == if r.save == 0 then a else b
  {
    hide Abbreviations.FormatAbbrev, Schedule.InStretch, Schedule.Stretch;
    forall letters, off, save
      ensures Abbreviations.FormatAbbrev(a + "/" + b, letters, off, save) == if save == 0 then a else b
    {
      Abbreviations.SlashFormat(a, b, letters, off, save);
    }
  }

  /** A line with a field for the letters has those of the rule in force, or the ones before its first rule. */
  lemma RuleLetters(z: Zone, scheds: seq<Schedule>, i: int, t: int, r: SysInfo, p: string, q: string)
    requires |scheds| == |z.lines| && 0 <= i < |z.lines| && LineAnswer(z, scheds, i, t, r) && z.lines[i].line.Rules?
    requires z.lines[i].format == p + "%s" + q
    requires forall j: nat :: j < |p| ==> !Abbreviations.IsAt(p + "%s" + q, "%s", j)
    ensures scheds[i].InTable()
    ensures exists k :: scheds[i].InStretch(k, t) && r.save == (if k == -1 then scheds[i].save else scheds[i].RuleOf(k).save)
                        && r.abbrev == p + (if k == -1 then scheds[i].abbrev else scheds[i].RuleOf(k).abbrev) + q
  {
    hide Abbreviations.FormatAbbrev, Abbreviations.IsAt, Schedule.InStretch, Schedule.Begin, Schedule.End, MinTime, LineBegin,
      Max, Min;
    var k :| scheds[i].InStretch(k, t) && Clipped(z, scheds, i, k, r);
    Abbreviations.LettersFormat(p, q, scheds[i].Stretch(k).abbrev, r.offset, r.save);
  }

  datatype Lookup = OutOfRange(year: int) | Found(info: SysInfo) | NoLine

  /** The year, date and time of day that a UTC query is turned into. */
  function Query(t: int): (int, MonthDayTime)
  {
    var days := t / 86400;
    var x := Calendar.FromDays(days);
    (x.year, MonthDayTime(MonthDay(x.month, x.day), t - days * 86400, Utc))
  }

  /** Years that survive being stored. */
  ghost predicate YearStored(t: int) { -32768 <= CivilOf(t / 86400).year <= 32767 }

  /** The instant that the rules are searched for. */
  function Seen(t: int): int { Query(t).1.ToTimePoint(Query(t).0) }

  /** The query stands for its instant exactly when the year is stored as it is. */
  lemma QueryIsInstant(t: int)
    ensures Seen(t) == t <==> YearStored(t)
  {
    hide CivilOf, Calendar.ToDays, Calendar.FromDays;
    FromDaysExact(t / 86400);
  }

  /** The query throws exactly for the years out of range, if and only if the year is stored as it is or wraps to
      the one stored year that is out of range. */
  lemma ThrowExact(t: int)
    ensures var y := CivilOf(t / 86400).year;
            (Query(t).0 < YEAR_MIN || Query(t).0 > YEAR_MAX <==> y < YEAR_MIN || y > YEAR_MAX)
            <==> (YearStored(t) || Query(t).0 == -32768)
  {
    hide CivilOf;
    FromDaysExact(t / 86400);
  }

  /** The first instant of year 32769 is taken for one of year -32767, and answered. */
  lemma WrappedQuery()
    ensures var t := Calendar.ToDays(Ymd(32769, 1, 1)) * 86400;
            Query(t).0 == YEAR_MIN && Seen(t) == MinTime() && CivilOf(t / 86400).year > YEAR_MAX
  {
    hide CivilOf, Calendar.ToDays;
    CivilRoundTrip(Ymd(32769, 1, 1));
  }

  /** get_info_impl for a UTC instant, once its line is known: find_rule, then clipping to the line. */
  method InfoFromLine(rules: seq<Rule>, z: Zone, i: nat, y: int, query: MonthDayTime, ghost scheds: seq<Schedule>)
      returns (x: SysInfo)
    requires ZoneOk(rules, z, scheds) && i < |z.lines| && query.zone == Utc
    ensures LineAnswer(z, scheds, i, query.ToTimePoint(y), x)
  {
    hide MinTime, MaxTime, MonthDayTime.ToTimePoint, SpanOf, Abbreviations.FormatAbbrev;
    ghost var t := query.ToTimePoint(y);
    var n := z.lines[i];
    var begin := if i > 0 then z.lines[i - 1].until else MinTime();
    match n.line {
      case FixedSave(save) =>
        x := SysInfo(begin, n.until, n.gmtoff + save, save, "");
        x := x.(abbrev := Abbreviations.FormatAbbrev(n.format, x.abbrev, x.offset, x.save));
      case NoRule =>
        x := SysInfo(begin, n.until, n.gmtoff, 0, "");
        x := x.(abbrev := Abbreviations.FormatAbbrev(n.format, x.abbrev, x.offset, x.save));
      case Rules(_, _, _, _) =>
        ghost var first: nat, last: nat :| SpanOf(scheds[i], first, last, n.line);
        x := FindRule(rules, first, last, n.line, y, n.gmtoff, query, scheds[i]);
        LineSchedule(rules, z, scheds, i);
        ghost var k :| scheds[i].InStretch(k, t) && x == scheds[i].Stretch(k);
        x := x.(offset := n.gmtoff + x.save);
        if i > 0 && x.begin < begin {
          x := x.(begin := begin);
        }
        if x.end > n.until {
          x := x.(end := n.until);
        }
        x := x.(abbrev := Abbreviations.FormatAbbrev(n.format, x.abbrev, x.offset, x.save));
        assert Clipped(z, scheds, i, k, x);
    }
  }

  /** get_info_impl for a UTC instant: upper_bound over the lines, then the line's own answer. */
  method GetInfo(rules: seq<Rule>, z: Zone, t: int, ghost scheds: seq<Schedule>) returns (r: Lookup)
    requires ZoneOk(rules, z, scheds)
    ensures r.OutOfRange? <==> Query(t).0 < YEAR_MIN || Query(t).0 > YEAR_MAX
    ensures r.NoLine? ==> forall i :: 0 <= i < |z.lines| ==> z.lines[i].until <= t
    ensures r.Found? ==> exists i :: LineAt(z, i, t) && LineAnswer(z, scheds, i, Seen(t), r.info)
    ensures r.Found? && YearStored(t) ==> Answer(z, scheds, t, r.info)
  {
    hide CivilOf, LineAnswer, Calendar.FromDays, MonthDayTime.ToTimePoint, YearStored;
    QueryIsInstant(t);
    var (y, query) := Query(t);
    if y < YEAR_MIN || y > YEAR_MAX {
      return OutOfRange(y);
    }
    var i := 0;
    while i < |z.lines| && z.lines[i].until <= t
      invariant 0 <= i <= |z.lines| && forall j :: 0 <= j < i ==> z.lines[j].until <= t
    {
      i := i + 1;
    }
    if i == |z.lines| {
      return NoLine;
    }
    assert LineAt(z, i, t);
    var x := InfoFromLine(rules, z, i, y, query, scheds);
    return Found(x);
  }

  // ---- the answers tile the timeline

  lemma StretchUnique(s: Schedule, j: int, k: int, t: int)
    requires s.InTable() && s.Increasing() && s.InStretch(j, t) && s.InStretch(k, t)
    ensures j == k
  {
  }

  lemma LineUnique(z: Zone, i: int, j: int, t: int)
    requires LineAt(z, i, t) && LineAt(z, j, t)
    ensures i == j
  {
  }

  /** The interval of an answer holds the instant it was asked for, and gives the same answer
      everywhere in it. */
  lemma SameThroughout(rules: seq<Rule>, z: Zone, scheds: seq<Schedule>, t: int, r: SysInfo, u: int)
    requires ZoneOk(rules, z, scheds) && Answer(z, scheds, t, r) && MinTime() <= t < MaxTime()
    ensures r.begin <= t < r.end
    ensures r.begin <= u < r.end ==> Answer(z, scheds, u, r)
  {
    hide MinTime, MaxTime, SpanOf;
    var i :| LineAt(z, i, t) && LineAnswer(z, scheds, i, t, r);
    if i > 0 { assert z.lines[i - 1].until <= t; }
    if r.begin <= u < r.end {
      assert LineAt(z, i, u) by {
        forall j | 0 <= j < i ensures z.lines[j].until <= u {
          if j < i - 1 { assert z.lines[j].until < z.lines[i - 1].until; }
        }
      }
      if z.lines[i].line.Rules? {
        var k :| scheds[i].InStretch(k, t) && Clipped(z, scheds, i, k, r);
        assert scheds[i].InStretch(k, u);
      }
      assert LineAnswer(z, scheds, i, u, r);
    }
  }

  lemma LineSchedule(rules: seq<Rule>, z: Zone, scheds: seq<Schedule>, i: nat)
    requires ZoneOk(rules, z, scheds) && i < |z.lines| && z.lines[i].line.Rules?
    ensures scheds[i].InTable() && scheds[i].Increasing()
  {
    var first: nat, last: nat :| SpanOf(scheds[i], first, last, z.lines[i].line);
  }

  /** There is one answer per instant. */
  lemma AnswerUnique(rules: seq<Rule>, z: Zone, scheds: seq<Schedule>, t: int, a: SysInfo, b: SysInfo)
    requires ZoneOk(rules, z, scheds) && Answer(z, scheds, t, a) && Answer(z, scheds, t, b)
    ensures a == b
  {
    hide MinTime, MaxTime, SpanOf;
    var i :| LineAt(z, i, t) && LineAnswer(z, scheds, i, t, a);
    var j :| LineAt(z, j, t) && LineAnswer(z, scheds, j, t, b);
    LineUnique(z, i, j, t);
    if z.lines[i].line.Rules? {
      var k :| scheds[i].InStretch(k, t) && Clipped(z, scheds, i, k, a);
      var l :| scheds[i].InStretch(l, t) && Clipped(z, scheds, i, l, b);
      LineSchedule(rules, z, scheds, i);
      StretchUnique(scheds[i], k, l, t);
    }
  }

  /** The end of an answer's interval is the beginning of the next answer's. */
  lemma NextBegins(rules: seq<Rule>, z: Zone, scheds: seq<Schedule>, t: int, a: SysInfo, b: SysInfo)
    requires ZoneOk(rules, z, scheds) && Answer(z, scheds, t, a) && MinTime() <= t < MaxTime()
    requires Answer(z, scheds, a.end, b) && a.end < MaxTime()
    ensures b.begin == a.end
  {
    SameThroughout(rules, z, scheds, t, a, t);
    SameThroughout(rules, z, scheds, a.end, b, a.end);
    if b.begin < a.end {
      var u := Max(b.begin, t);
      SameThroughout(rules, z, scheds, a.end, b, u);
      SameThroughout(rules, z, scheds, t, a, u);
      AnswerUnique(rules, z, scheds, u, a, b);
      assert false;
    }
  }
}
