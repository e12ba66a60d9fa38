/** Preparing the lines of a zone for lookup: which occurrences of its rules a line begins and ends with, and the
    saving in force before the first of them. */
module ZoneAdjust {
  import opened Basics
  import opened Calendar
  import opened MonthDayTimes
  import opened RuleSplit
  import opened RuleWalk
  import opened ZoneLookup

  // ---- MonthDayTime::compare

  function Sign(a: int, b: int): int { if a < b then -1 else if a == b then 0 else 1 }

  function Abs(x: int): int { if x < 0 then -x else x }

  function Compare(t: MonthDayTime, y: int, x: MonthDayTime, yx: int, offset: int, save: int): int
  {
    var tp0, tp1 := t.ToTimePoint(y), x.ToTimePoint(yx);
    if t.zone == x.zone then Sign(tp0, tp1)
    else
      var dp0, dp1 := t.ToSysDays(y), x.ToSysDays(yx);
      if Abs(dp0 - dp1) > 1 then (if dp0 < dp1 then -1 else 1)
      else if t.zone == Local then Sign(if x.zone == Utc then tp0 - save - offset else tp0 - save, tp1)
      else if t.zone == Standard then
        if x.zone == Local then Sign(tp0, tp1 - save) else Sign(tp0 - offset, tp1)
      else Sign(tp0, if x.zone == Local then tp1 - (offset + save) else tp1 - offset)
  }

  /** The comparison is that of the instants, except for dates of different clocks more than a day apart, which are
      compared as dates. */
  lemma CompareMeans(t: MonthDayTime, y: int, x: MonthDayTime, yx: int, offset: int, save: int)
    ensures var c, a, b := Compare(t, y, x, yx, offset, save), t.ToSys(y, offset, save), x.ToSys(yx, offset, save);
            var d, e := t.ToSysDays(y), x.ToSysDays(yx);
            if t.zone == x.zone || -1 <= d - e <= 1 then (c < 0 <==> a < b) && (c == 0 <==> a == b) && (c > 0 <==> a > b)
            else (c < 0 <==> d < e) && (c > 0 <==> d > e)
  {
    hide MonthDayTime.ToSysDays;
  }

  /** With times of day within a day and clocks less than a day from UTC and from each other, the comparison is that
      of the instants. */
  lemma CompareIsOfInstants(t: MonthDayTime, y: int, x: MonthDayTime, yx: int, offset: int, save: int)
    requires 0 <= t.seconds <= 86400 && 0 <= x.seconds <= 86400
    requires -86400 < offset < 86400 && -86400 < save < 86400 && -86400 < offset + save < 86400
    ensures Compare(t, y, x, yx, offset, save) == Sign(t.ToSys(y, offset, save), x.ToSys(yx, offset, save))
  {
    hide MonthDayTime.ToSysDays;
  }

  // ---- what a line starts with and ends with

  /** The end of a line in UTC, in standard time and in local time. */
  datatype End = End(utc: int, std: int, loc: int)

  predicate IsWalk(rules: seq<Rule>, ps: seq<Cursor>) { forall i :: 0 <= i < |ps| ==> ps[i].At? && ps[i].rule < |rules| }

  function RuleAt(rules: seq<Rule>, ps: seq<Cursor>, i: nat): Rule
    requires IsWalk(rules, ps) && i < |ps|
  {
    rules[ps[i].rule]
  }

  /** The saving in force before occurrence i, counting from none. */
  function SaveUpTo(rules: seq<Rule>, ps: seq<Cursor>, i: nat): int
    requires IsWalk(rules, ps) && i <= |ps|
  {
    if i == 0 then 0 else RuleAt(rules, ps, i - 1).save
  }

  /** Occurrence i comes before a line's end. */
  predicate BeforeUntil(rules: seq<Rule>, ps: seq<Cursor>, i: nat, until: MonthDayTime, y: int, offset: int)
    requires IsWalk(rules, ps) && i < |ps|
  {
    Compare(until, y, RuleAt(rules, ps, i).at, ps[i].year, offset, SaveUpTo(rules, ps, i)) > 0
  }

  /** Occurrence i has begun by the end of the line before. */
  predicate Begun(rules: seq<Rule>, ps: seq<Cursor>, i: nat, e: End)
    requires IsWalk(rules, ps) && i < |ps|
  {
    var tp := RuleAt(rules, ps, i).at.ToTimePoint(ps[i].year);
    match RuleAt(rules, ps, i).at.zone
    case Utc => e.utc >= tp
    case Standard => e.std >= tp
    case Local => e.loc >= tp
  }

  /** The scan for a line's end stops at occurrence k. */
  ghost predicate EndsAt(rules: seq<Rule>, ps: seq<Cursor>, k: nat, until: MonthDayTime, y: int, offset: int)
  {
    && IsWalk(rules, ps) && k <= |ps| && (forall i :: 0 <= i < k ==> BeforeUntil(rules, ps, i, until, y, offset))
    && (k < |ps| ==> !BeforeUntil(rules, ps, k, until, y, offset))
  }

  /** The scan for a line's beginning stops at occurrence j; the first line begins before all of them. */
  ghost predicate BeginsAt(rules: seq<Rule>, ps: seq<Cursor>, j: nat, before: Option<End>)
  {
    IsWalk(rules, ps) && j <= |ps| &&
    match before
    case None => j == 0
    case Some(e) => (forall i :: 0 <= i < j ==> Begun(rules, ps, i, e)) && (j < |ps| ==> !Begun(rules, ps, j, e))
  }

  /** The occurrence that a scan stopping at n has passed last. */
  function Passed(ps: seq<Cursor>, n: nat): Cursor
    requires n <= |ps|
  {
    if n == 0 then Null(YEAR_MIN) else ps[n - 1]
  }

  /** The line that adjust_infos makes when the scans stop at j and k. */
  function Adjusted(rules: seq<Rule>, ps: seq<Cursor>, j: nat, k: nat, std: string): Governed
    requires IsWalk(rules, ps) && ps != [] && j <= |ps| && k <= |ps|
  {
    if j == 0 then
      if k == 0 then Rules(Null(YEAR_MIN), Null(YEAR_MIN), 0, "") else Rules(ps[0], ps[k - 1], 0, std)
    else
      var r := RuleAt(rules, ps, j - 1);
      if j == k then Rules(Null(YEAR_MIN), Null(YEAR_MAX), r.save, r.abbrev)
      else if j < |ps| then Rules(ps[j], Passed(ps, k), r.save, r.abbrev)
      else if k > 0 then Rules(ps[0], ps[k - 1], r.save, std)
      else Rules(Null(YEAR_MAX), Null(YEAR_MIN), r.save, r.abbrev)
  }

  lemma WalkFacts(rules: seq<Rule>, first: nat, last: nat, ps: seq<Cursor>)
    requires Block(rules, first, last) && FullWalk(rules, first, last, ps)
    ensures IsWalk(rules, ps) && ps != [] && ps[0] == At(first, rules[first].start)
    ensures forall i :: 0 <= i < |ps| ==> Occurs(rules, first, last, ps[i])
  {
    hide IsNext, Block;
    WalkVisitsAll(rules, first, last, ps);
    forall i | 0 <= i < |ps|
      ensures Occurs(rules, first, last, ps[i])
    {
      assert ps[i] in ps;
    }
  }

  /** The next occurrence after number i of a walk is the next of the walk, or Null after its last. */
  lemma WalkNext(rules: seq<Rule>, first: nat, last: nat, ps: seq<Cursor>, i: nat, q: Cursor)
    requires Block(rules, first, last) && FullWalk(rules, first, last, ps) && i < |ps|
    requires IsNext(rules, first, last, ps[i], q)
    ensures q == if i + 1 < |ps| then ps[i + 1] else Null(YEAR_MAX)
  {
    hide Block;
    WalkFacts(rules, first, last, ps);
    if i + 1 < |ps| {
      assert IsNext(rules, first, last, ps[i], ps[i + 1]);
      NextAndPreviousAreInverse(rules, first, last, ps[i], ps[i + 1], q);
    }
  }

  /** find_rule_for_zone for the end of a line. */
  method FindRuleBefore(rules: seq<Rule>, first: nat, last: nat, until: MonthDayTime, y: int, offset: int, ghost ps: seq<Cursor>)
      returns (q: Cursor)
    requires Block(rules, first, last) && FullWalk(rules, first, last, ps)
    ensures exists k: nat :: EndsAt(rules, ps, k, until, y, offset) && q == Passed(ps, k)
  {
    hide Block, FullWalk, IsNext, Compare, Occurs;
    WalkFacts(rules, first, last, ps);
    var r, prevSave := At(first, rules[first].start), 0;
    q := Null(YEAR_MIN);
    ghost var k: nat := 0;
    while r.At?
      invariant k <= |ps| && q == Passed(ps, k) && r == (if k < |ps| then ps[k] else Null(YEAR_MAX))
      invariant prevSave == SaveUpTo(rules, ps, k)
      invariant forall i :: 0 <= i < k ==> BeforeUntil(rules, ps, i, until, y, offset)
      decreases |ps| - k
    {
      if Compare(until, y, rules[r.rule].at, r.year, offset, prevSave) <= 0 {
        assert EndsAt(rules, ps, k, until, y, offset);
        return;
      }
      q, prevSave := r, rules[r.rule].save;
      var next := FindNextRule(rules, first, last, r.rule, r.year);
      WalkNext(rules, first, last, ps, k, next);
      r, k := next, k + 1;
    }
    assert EndsAt(rules, ps, k, until, y, offset);
  }

  /** find_rule_for_zone for the beginning of a line. */
  method FindRuleBegun(rules: seq<Rule>, first: nat, last: nat, e: End, ghost ps: seq<Cursor>) returns (q: Cursor)
    requires Block(rules, first, last) && FullWalk(rules, first, last, ps)
    ensures exists j: nat :: BeginsAt(rules, ps, j, Some(e)) && q == Passed(ps, j)
  {
    hide Block, FullWalk, IsNext, Occurs, MonthDayTime.ToTimePoint;
    WalkFacts(rules, first, last, ps);
    var r := At(first, rules[first].start);
    q := Null(YEAR_MIN);
    ghost var j: nat := 0;
    while r.At?
      invariant j <= |ps| && q == Passed(ps, j) && r == (if j < |ps| then ps[j] else Null(YEAR_MAX))
      invariant forall i :: 0 <= i < j ==> Begun(rules, ps, i, e)
      decreases |ps| - j
    {
      var tp := rules[r.rule].at.ToTimePoint(r.year);
      var found := match rules[r.rule].at.zone
                   case Utc => e.utc < tp
                   case Standard => e.std < tp
                   case Local => e.loc < tp;
      if found {
        assert BeginsAt(rules, ps, j, Some(e));
        return;
      }
      q := r;
      var next := FindNextRule(rules, first, last, r.rule, r.year);
      WalkNext(rules, first, last, ps, j, next);
      r, j := next, j + 1;
    }
    assert BeginsAt(rules, ps, j, Some(e));
  }

  /** The first occurrence without saving. */
  ghost predicate FirstStd(rules: seq<Rule>, ps: seq<Cursor>, n: nat)
  {
    IsWalk(rules, ps) && n < |ps| && RuleAt(rules, ps, n).save == 0 && forall i :: 0 <= i < n ==> RuleAt(rules, ps, i).save != 0
  }

  /** find_first_std_rule: its abbreviation, or nothing where the source throws. */
  method FindFirstStd(rules: seq<Rule>, first: nat, last: nat, ghost ps: seq<Cursor>) returns (abbrev: Option<string>)
    requires Block(rules, first, last) && FullWalk(rules, first, last, ps)
    ensures abbrev.Some? ==> exists n: nat :: FirstStd(rules, ps, n) && abbrev.value == RuleAt(rules, ps, n).abbrev
    ensures abbrev.None? ==> IsWalk(rules, ps) && forall i :: 0 <= i < |ps| ==> RuleAt(rules, ps, i).save != 0
  {
    hide Block, FullWalk, IsNext, Occurs;
    WalkFacts(rules, first, last, ps);
    var r := At(first, rules[first].start);
    ghost var n: nat := 0;
    while rules[r.rule].save != 0
      invariant n < |ps| && r == ps[n] && forall i :: 0 <= i < n ==> RuleAt(rules, ps, i).save != 0
      decreases |ps| - n
    {
      var next := FindNextRule(rules, first, last, r.rule, r.year);
      WalkNext(rules, first, last, ps, n, next);
      if next.Null? {
        return None;
      }
      r, n := next, n + 1;
    }
    assert FirstStd(rules, ps, n);
    return Some(rules[r.rule].abbrev);
  }

  /** A line that starts with the first occurrence of the table takes its name until then from the first without saving. */
  predicate StartsTable(ps: seq<Cursor>, j: nat, k: nat) { (j == 0 && k > 0) || (j == |ps| && 0 < k < j) }

  ghost predicate StdAbbrev(rules: seq<Rule>, ps: seq<Cursor>, std: string)
  {
    exists n: nat :: FirstStd(rules, ps, n) && std == RuleAt(rules, ps, n).abbrev
  }

  /** What adjust_infos does with a line that has rules. */
  ghost predicate AdjustedBy(rules: seq<Rule>, ps: seq<Cursor>, j: nat, k: nat, std: string, until: MonthDayTime, y: int,
                             gmtoff: int, before: Option<End>, line: Governed, end: End)
  {
    && EndsAt(rules, ps, k, until, y, gmtoff) && BeginsAt(rules, ps, j, before) && ps != []
    && (StartsTable(ps, j, k) ==> StdAbbrev(rules, ps, std))
    && line == Adjusted(rules, ps, j, k, std) && end == EndOf(until, y, gmtoff, SaveUpTo(rules, ps, k))
  }

  /** A line with rules in adjust_infos; nothing where the source throws, for want of a rule without saving. */
  method AdjustRules(rules: seq<Rule>, first: nat, last: nat, until: MonthDayTime, y: int, gmtoff: int, before: Option<End>,
                     ghost ps: seq<Cursor>) returns (line: Option<Governed>, end: End)
    requires Block(rules, first, last) && FullWalk(rules, first, last, ps)
    ensures line.Some? ==>
              exists j: nat, k: nat, std :: AdjustedBy(rules, ps, j, k, std, until, y, gmtoff, before, line.value, end)
    ensures line.None? ==> IsWalk(rules, ps) && forall i :: 0 <= i < |ps| ==> RuleAt(rules, ps, i).save != 0
  {
    hide Block, FullWalk, IsNext, BeforeUntil, Begun, MonthDayTime.ToSys, Occurs;
    WalkFacts(rules, first, last, ps);
    var l := FindRuleBefore(rules, first, last, until, y, gmtoff, ps);
    ghost var k: nat :| EndsAt(rules, ps, k, until, y, gmtoff) && l == Passed(ps, k);
    end := EndOf(until, y, gmtoff, if l.At? then rules[l.rule].save else 0);
    var f, save, abbrev := Null(YEAR_MIN), 0, "";
    ghost var j: nat, std := 0, "";
    if before.Some? {
      f := FindRuleBegun(rules, first, last, before.value, ps);
      j :| BeginsAt(rules, ps, j, before) && f == Passed(ps, j);
      if f.At? {
        save, abbrev := rules[f.rule].save, rules[f.rule].abbrev;
        WalkDistinct(rules, first, last, ps, j, k);
        if f != l {
          var next := FindNextRule(rules, first, last, f.rule, f.year);
          WalkNext(rules, first, last, ps, j - 1, next);
          f := next;
        } else {
          f, l := Null(YEAR_MIN), Null(YEAR_MAX);
        }
      }
    }
    if f.Null? && l.At? {
      f := At(first, rules[first].start);
      var found := FindFirstStd(rules, first, last, ps);
      if found.None? {
        return None, end;
      }
      abbrev := found.value;
      std := abbrev;
    }
    line := Some(Rules(f, l, save, abbrev));
    assert line.value == Adjusted(rules, ps, j, k, std);
    assert StartsTable(ps, j, k) ==> StdAbbrev(rules, ps, std);
    assert AdjustedBy(rules, ps, j, k, std, until, y, gmtoff, before, line.value, end);
  }

  function EndOf(until: MonthDayTime, y: int, gmtoff: int, save: int): End
  {
    var utc := until.ToSys(y, gmtoff, save);
    End(utc, utc + gmtoff, utc + gmtoff + save)
  }

  /** A walk passes no occurrence twice. */
  lemma WalkDistinct(rules: seq<Rule>, first: nat, last: nat, ps: seq<Cursor>, j: nat, k: nat)
    requires Block(rules, first, last) && FullWalk(rules, first, last, ps) && j <= |ps| && k <= |ps|
    ensures Passed(ps, j) == Passed(ps, k) <==> j == k
  {
    hide Block, IsNext;
    WalkFacts(rules, first, last, ps);
    if 0 < j < k { WalkOrdered(rules, first, last, ps, j - 1, k - 1); }
    if 0 < k < j { WalkOrdered(rules, first, last, ps, k - 1, j - 1); }
  }

  // ---- when the lookup can use it

  lemma WalkSpan(rules: seq<Rule>, first: nat, last: nat, ps: seq<Cursor>, j: nat, k: nat)
    requires Block(rules, first, last) && FullWalk(rules, first, last, ps) && j < k <= |ps|
    ensures Span(rules, first, last, ps[j], ps[k - 1], ps[j..k])
  {
    hide Block, Adjacent;
    WalkFacts(rules, first, last, ps);
    forall i | 1 <= i < k - j
      ensures Adjacent(rules, first, last, ps[j..k][i - 1], ps[j..k][i])
    {
      assert IsNext(rules, first, last, ps[j + i - 1], ps[j + i]);
    }
  }

  /** The occurrences a line uses: those after the ones begun before it and before its end. A line that begins after
      all of its rules starts over. */
  lemma AdjustedSpan(rules: seq<Rule>, first: nat, last: nat, ps: seq<Cursor>, j: nat, k: nat, std: string)
    requires Block(rules, first, last) && FullWalk(rules, first, last, ps) && IsWalk(rules, ps) && j <= |ps| && k <= |ps|
    ensures var line := Adjusted(rules, ps, j, k, std);
            && (j <= k ==> Span(rules, first, last, line.first, line.last, ps[j..k]))
            && (j <= k ==> line.initialSave == SaveUpTo(rules, ps, j))
            && (j == |ps| && k < j ==> Span(rules, first, last, line.first, line.last, ps[..k]))
  {
    hide Block, IsNext;
    WalkFacts(rules, first, last, ps);
    if j < k { WalkSpan(rules, first, last, ps, j, k); }
    if 0 < k { WalkSpan(rules, first, last, ps, 0, k); }
    assert ps[0..k] == ps[..k] && ps[j..j] == [];
    hide Span, FullWalk;
    EmptySpans(rules, first, last);
  }

  /** What is in force before a line's first occurrence: the saving and name of the occurrence before it in the table.
      When there is none the saving is none; a line that starts with the table's first occurrence has the name of the
      first without saving, and a line without occurrences none. */
  lemma InitialNameAndSaving(rules: seq<Rule>, ps: seq<Cursor>, j: nat, k: nat, std: string, until: MonthDayTime, y: int,
                             gmtoff: int, before: Option<End>, line: Governed, end: End)
    requires AdjustedBy(rules, ps, j, k, std, until, y, gmtoff, before, line, end)
    ensures IsWalk(rules, ps) && line.Rules? && j <= |ps|
    ensures line.initialSave == if j == 0 then 0 else RuleAt(rules, ps, j - 1).save
    ensures if (j == 0 && k > 0) || (j == |ps| && 0 < k < j) then
              exists n: nat :: FirstStd(rules, ps, n) && line.initialAbbrev == RuleAt(rules, ps, n).abbrev
            else line.initialAbbrev == if j == 0 then "" else RuleAt(rules, ps, j - 1).abbrev
  {
  }

  /** An occurrence has begun by the end of the line before when its instant, with that line's last saving, has come. */
  lemma BegunIsOfInstants(rules: seq<Rule>, ps: seq<Cursor>, i: nat, until: MonthDayTime, y: int, gmtoff: int, save: int)
    requires IsWalk(rules, ps) && i < |ps|
    ensures Begun(rules, ps, i, EndOf(until, y, gmtoff, save))
            <==> RuleAt(rules, ps, i).at.ToSys(ps[i].year, gmtoff, save) <= until.ToSys(y, gmtoff, save)
  {
    hide MonthDayTime.ToTimePoint;
  }

  /** An occurrence comes before a line's end when its instant, with the saving before it, does. */
  lemma BeforeUntilIsOfInstants(rules: seq<Rule>, ps: seq<Cursor>, i: nat, until: MonthDayTime, y: int, gmtoff: int)
    requires IsWalk(rules, ps) && i < |ps|
    requires var save := if i == 0 then 0 else RuleAt(rules, ps, i - 1).save;
             -86400 < gmtoff < 86400 && -86400 < save < 86400 && -86400 < gmtoff + save < 86400
    requires 0 <= until.seconds <= 86400 && 0 <= RuleAt(rules, ps, i).at.seconds <= 86400
    ensures var save := if i == 0 then 0 else RuleAt(rules, ps, i - 1).save;
            BeforeUntil(rules, ps, i, until, y, gmtoff)
            <==> RuleAt(rules, ps, i).at.ToSys(ps[i].year, gmtoff, save) < until.ToSys(y, gmtoff, save)
  {
    hide MonthDayTime.ToSys, Compare;
    CompareIsOfInstants(until, y, RuleAt(rules, ps, i).at, ps[i].year, gmtoff, SaveUpTo(rules, ps, i));
  }

  lemma EmptySpans(rules: seq<Rule>, first: nat, last: nat)
    ensures forall y, b :: Span(rules, first, last, Null(y), b, [])
  {
  }

  /** The exact condition: the first and last rule of a line are the ends of a span if and only if its end comes no
      earlier among the occurrences than its beginning, or it begins after all of them. */
  lemma AdjustedExact(rules: seq<Rule>, first: nat, last: nat, ps: seq<Cursor>, j: nat, k: nat, std: string)
    requires Block(rules, first, last) && FullWalk(rules, first, last, ps) && IsWalk(rules, ps) && j <= |ps| && k <= |ps|
    ensures var line := Adjusted(rules, ps, j, k, std);
            (exists qs :: Span(rules, first, last, line.first, line.last, qs)) <==> j <= k || j == |ps|
  {
    hide Block, IsNext;
    var line := Adjusted(rules, ps, j, k, std);
    AdjustedSpan(rules, first, last, ps, j, k, std);
    if k < j < |ps| {
      WalkFacts(rules, first, last, ps);
      if qs :| Span(rules, first, last, line.first, line.last, qs) {
        if k > 0 { WalkOrdered(rules, first, last, ps, k - 1, j); }
        BackwardSpan(rules, first, last, ps[j], Passed(ps, k), qs);
        assert false;
      }
    }
  }

  lemma BackwardSpan(rules: seq<Rule>, first: nat, last: nat, a: Cursor, b: Cursor, qs: seq<Cursor>)
    requires a.At? && (b.At? ==> Before(b, a))
    ensures !Span(rules, first, last, a, b, qs)
  {
    if Span(rules, first, last, a, b, qs) {
      assert Occurs(rules, first, last, qs[|qs| - 1]);
      if |qs| > 1 { SpanOrdered(rules, first, last, a, b, qs, 0, |qs| - 1); }
    }
  }

  /** Only an occurrence that has begun by the end of the line before and yet does not come before the end of this
      one can upset a line. */
  lemma OutOfOrder(rules: seq<Rule>, ps: seq<Cursor>, j: nat, k: nat, until: MonthDayTime, y: int, gmtoff: int, e: End)
    requires EndsAt(rules, ps, k, until, y, gmtoff) && BeginsAt(rules, ps, j, Some(e))
    ensures k < j ==> k < |ps| && Begun(rules, ps, k, e) && !BeforeUntil(rules, ps, k, until, y, gmtoff)
  {
  }

  /** What the lookup takes for granted of a line's first and last rule and initial saving is what adjust_infos makes,
      if the line's beginning and end are in order and its instants increase. */
  lemma EstablishesSpan(rules: seq<Rule>, first: nat, last: nat, ps: seq<Cursor>, j: nat, k: nat, std: string, gmtoff: int)
    requires Block(rules, first, last) && FullWalk(rules, first, last, ps) && IsWalk(rules, ps) && j <= k <= |ps|
    ensures var line := Adjusted(rules, ps, j, k, std);
            var s := Schedule(rules, ps[j..k], gmtoff, line.initialSave, line.initialAbbrev);
            s.InTable() && (s.Increasing() ==> SpanOf(s, first, last, line))
            && (forall i: nat :: i <= k - j ==> s.SaveBefore(i) == SaveUpTo(rules, ps, j + i))
  {
    hide Block, FullWalk, Schedule.Increasing;
    AdjustedSpan(rules, first, last, ps, j, k, std);
    hide Span;
  }

  // ---- all lines of a zone

  /** What the text of a line says of its rules: nothing, a saving, or a name, whose rules are [first, last). */
  datatype Ruling = Unruled | OneSave(save: int) | Named(first: nat, last: nat)

  datatype RawLine = RawLine(gmtoff: int, ruling: Ruling, year: int, until: MonthDayTime, format: string)

  /** A line as adjust_infos leaves it, given the end of the line before. */
  ghost predicate Made(rules: seq<Rule>, raw: RawLine, before: Option<End>, line: Zonelet, end: End)
  {
    && line.gmtoff == raw.gmtoff && line.format == raw.format && line.until == end.utc
    && match raw.ruling
       case Unruled => line.line == NoRule && end == EndOf(raw.until, raw.year, raw.gmtoff, 0)
       case OneSave(save) => line.line == FixedSave(save) && end == EndOf(raw.until, raw.year, raw.gmtoff, save)
       case Named(first, last) =>
         exists ps, j: nat, k: nat, std :: MadeBy(rules, raw, first, last, before, line, end, ps, j, k, std)
  }

  ghost predicate MadeBy(rules: seq<Rule>, raw: RawLine, first: nat, last: nat, before: Option<End>, line: Zonelet, end: End,
                         ps: seq<Cursor>, j: nat, k: nat, std: string)
  {
    && Block(rules, first, last) && FullWalk(rules, first, last, ps)
    && AdjustedBy(rules, ps, j, k, std, raw.until, raw.year, raw.gmtoff, before, line.line, end)
  }

  function EndBefore(ends: seq<End>, i: nat): Option<End>
    requires i <= |ends|
  {
    if i == 0 then None else Some(ends[i - 1])
  }

  method AdjustLine(rules: seq<Rule>, raw: RawLine, before: Option<End>) returns (line: Option<Zonelet>, end: End)
    requires raw.ruling.Named? ==> Block(rules, raw.ruling.first, raw.ruling.last)
    ensures line.Some? ==> Made(rules, raw, before, line.value, end)
    ensures line.None? ==> raw.ruling.Named?
  {
    match raw.ruling {
      case Unruled =>
        end := EndOf(raw.until, raw.year, raw.gmtoff, 0);
        line := Some(Zonelet(raw.gmtoff, NoRule, end.utc, raw.format));
      case OneSave(save) =>
        end := EndOf(raw.until, raw.year, raw.gmtoff, save);
        line := Some(Zonelet(raw.gmtoff, FixedSave(save), end.utc, raw.format));
      case Named(first, last) =>
        hide Block, FullWalk, AdjustedBy;
        ghost var ps := FullWalkExists(rules, first, last);
        var governed;
        governed, end := AdjustRules(rules, first, last, raw.until, raw.year, raw.gmtoff, before, ps);
        if governed.None? {
          return None, end;
        }
        line := Some(Zonelet(raw.gmtoff, governed.value, end.utc, raw.format));
        ghost var j: nat, k: nat, std :|
          AdjustedBy(rules, ps, j, k, std, raw.until, raw.year, raw.gmtoff, before, governed.value, end);
        assert MadeBy(rules, raw, first, last, before, line.value, end, ps, j, k, std);
    }
  }

  /** adjust_infos: each line is made with the end of the one before it. */
  method AdjustInfos(rules: seq<Rule>, raws: seq<RawLine>) returns (lines: seq<Zonelet>, ends: seq<End>, ok: bool)
    requires forall i :: 0 <= i < |raws| && raws[i].ruling.Named? ==> Block(rules, raws[i].ruling.first, raws[i].ruling.last)
    ensures ok ==> |lines| == |raws| == |ends|
                   && forall i :: 0 <= i < |raws| ==> Made(rules, raws[i], EndBefore(ends, i), lines[i], ends[i])
    ensures (forall i :: 0 <= i < |raws| ==> !raws[i].ruling.Named?) ==> ok
  {
    hide Block, Made, EndBefore;
    lines, ends := [], [];
    for n := 0 to |raws|
      invariant |lines| == |ends| == n
      invariant forall i :: 0 <= i < n ==> Made(rules, raws[i], EndBefore(ends[..i], i), lines[i], ends[i])
    {
      var line, end := AdjustLine(rules, raws[n], if n == 0 then None else Some(ends[n - 1]));
      if line.None? {
        return lines, ends, false;
      }
      assert EndBefore(ends[..n], n) == if n == 0 then None else Some(ends[n - 1]) by { EndBeforeIs(ends, n); }
      assert forall i :: 0 <= i < n ==> (ends + [end])[..i] == ends[..i];
      assert (ends + [end])[..n] == ends[..n];
      lines, ends := lines + [line.value], ends + [end];
    }
    forall i | 0 <= i < |raws|
      ensures EndBefore(ends, i) == EndBefore(ends[..i], i)
    {
      EndBeforeIs(ends, i);
    }
    return lines, ends, true;
  }

  lemma EndBeforeIs(ends: seq<End>, i: nat)
    requires i <= |ends|
    ensures EndBefore(ends, i) == EndBefore(ends[..i], i) == if i == 0 then None else Some(ends[i - 1])
  {
  }

  /** A line whose beginning and end are in order, and whose occurrences come at increasing instants. */
  ghost predicate Sound(rules: seq<Rule>, raw: RawLine, before: Option<End>, line: Zonelet, end: End, s: Schedule)
  {
    raw.ruling.Named? ==>
      exists ps, j: nat, k: nat, std ::
        && MadeBy(rules, raw, raw.ruling.first, raw.ruling.last, before, line, end, ps, j, k, std) && j <= k <= |ps|
        && line.line.Rules?
        && s == Schedule(rules, ps[j..k], raw.gmtoff, line.line.initialSave, line.line.initialAbbrev)
        && s.InTable() && s.Increasing()
  }

  lemma SoundLine(rules: seq<Rule>, raw: RawLine, before: Option<End>, line: Zonelet, end: End, s: Schedule)
    requires Made(rules, raw, before, line, end) && Sound(rules, raw, before, line, end, s)
    ensures line.line.Rules? ==> s.rules == rules && s.offset == line.gmtoff
                                 && exists first: nat, last: nat :: SpanOf(s, first, last, line.line)
  {
    hide Block, FullWalk, Schedule.Increasing;
    if raw.ruling.Named? {
      var ps, j: nat, k: nat, std :|
        && MadeBy(rules, raw, raw.ruling.first, raw.ruling.last, before, line, end, ps, j, k, std) && j <= k <= |ps|
        && line.line.Rules?
        && s == Schedule(rules, ps[j..k], raw.gmtoff, line.line.initialSave, line.line.initialAbbrev)
        && s.InTable() && s.Increasing();
      EstablishesSpan(rules, raw.ruling.first, raw.ruling.last, ps, j, k, std, raw.gmtoff);
      assert SpanOf(s, raw.ruling.first, raw.ruling.last, line.line);
    }
  }

  /** The lines that adjust_infos makes are what lookups need, if the lines are sound and end one after the other. */
  lemma AdjustedZoneIsOk(rules: seq<Rule>, raws: seq<RawLine>, lines: seq<Zonelet>, ends: seq<End>, scheds: seq<Schedule>)
    requires |lines| == |raws| == |ends| == |scheds|
    requires forall i :: 0 <= i < |raws| ==> Made(rules, raws[i], EndBefore(ends, i), lines[i], ends[i])
    requires forall i :: 0 <= i < |raws| ==> Sound(rules, raws[i], EndBefore(ends, i), lines[i], ends[i], scheds[i])
    requires forall i, j :: 0 <= i < j < |ends| ==> ends[i].utc < ends[j].utc
    ensures ZoneOk(rules, Zone(lines), scheds)
  {
    hide Made, Sound, SpanOf, EndBefore;
    forall i | 0 <= i < |lines|
      ensures lines[i].until == ends[i].utc
      ensures lines[i].line.Rules? ==> scheds[i].rules == rules && scheds[i].offset == lines[i].gmtoff
                                       && exists first: nat, last: nat :: SpanOf(scheds[i], first, last, lines[i].line)
    {
      SoundLine(rules, raws[i], EndBefore(ends, i), lines[i], ends[i], scheds[i]);
      MadeUntil(rules, raws[i], EndBefore(ends, i), lines[i], ends[i]);
    }
  }

  lemma MadeUntil(rules: seq<Rule>, raw: RawLine, before: Option<End>, line: Zonelet, end: End)
    requires Made(rules, raw, before, line, end)
    ensures line.until == end.utc
  {
  }
}
