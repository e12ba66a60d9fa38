/** The rewriting of a sorted table of year-range rules into a normal form in which the year
    ranges of any two rules of a name are equal or disjoint. */
module RuleSplit {
  import Calendar
  import opened MonthDayTimes

  datatype Rule = Rule(name: string, start: int, end: int, at: MonthDayTime, save: int, abbrev: string)

  /** What a rule does in each of its years. */
  datatype Effect = Effect(at: MonthDayTime, save: int, abbrev: string)

  function EffectOf(r: Rule): Effect { Effect(r.at, r.save, r.abbrev) }

  // ---- operator< on rules

  predicate StringLess(a: string, b: string)
  {
    b != "" && (a == "" || a[0] < b[0] || (a[0] == b[0] && StringLess(a[1..], b[1..])))
  }

  predicate KeyLess(x: Rule, y: Rule)
  {
    if x.start != y.start then x.start < y.start
    else if x.at.Month() != y.at.Month() then x.at.Month() < y.at.Month()
    else if x.end != y.end then x.end < y.end
    else x.at.Day() < y.at.Day()
  }

  predicate Less(x: Rule, y: Rule)
  {
    StringLess(x.name, y.name) || (!StringLess(y.name, x.name) && KeyLess(x, y))
  }

  ghost predicate Sorted(s: seq<Rule>) { forall a, b :: 0 <= a < b < |s| ==> !Less(s[b], s[a]) }

  ghost predicate KeySorted(s: seq<Rule>) { forall a, b :: 0 <= a < b < |s| ==> !KeyLess(s[b], s[a]) }

  /** Rules of one name, none of whose ranges runs backwards. */
  ghost predicate Group(s: seq<Rule>, name: string)
  {
    forall r :: r in s ==> r.name == name && r.start <= r.end
  }

  lemma NameNotBeforeItself(name: string)
    ensures !StringLess(name, name)
  {
  }

  lemma SortedIsKeySorted(s: seq<Rule>, name: string)
    requires Group(s, name)
    ensures Sorted(s) <==> KeySorted(s)
  {
    NameNotBeforeItself(name);
    forall a, b | 0 <= a < b < |s|
      ensures Less(s[b], s[a]) <==> KeyLess(s[b], s[a])
    {
      assert s[a] in s && s[b] in s;
    }
  }

  /** The texts agree up to place k, where a ends or has the smaller character. */
  predicate DiffersAt(a: string, b: string, k: nat)
  {
    k <= |a| && k < |b| && a[..k] == b[..k] && (k == |a| || a[k] < b[k])
  }

  /** Texts are ordered as a dictionary orders them. */
  lemma {:induction false} StringLessMeans(a: string, b: string)
    ensures StringLess(a, b) <==> exists k: nat :: DiffersAt(a, b, k)
    ensures StringLess(a, b) || StringLess(b, a) || a == b
  {
    if b != "" && a == "" { assert DiffersAt(a, b, 0); }
    if b != "" && a != "" {
      if a[0] < b[0] { assert DiffersAt(a, b, 0); }
      StringLessMeans(a[1..], b[1..]);
      if a[0] == b[0] {
        if k: nat :| DiffersAt(a[1..], b[1..], k) { assert DiffersAt(a, b, k + 1); }
        if k: nat :| DiffersAt(a, b, k) { DiffersInTail(a, b, k); }
        assert a == [a[0]] + a[1..] && b == [b[0]] + b[1..];
      } else if k: nat :| DiffersAt(a, b, k) {
        SameFirst(a, b, k);
      }
    }
  }

  lemma DiffersInTail(a: string, b: string, k: nat)
    requires a != "" && b != "" && a[0] == b[0] && DiffersAt(a, b, k)
    ensures k > 0 && DiffersAt(a[1..], b[1..], k - 1)
  {
    assert k > 0 && a[1..][..k - 1] == a[..k][1..] && b[1..][..k - 1] == b[..k][1..];
  }

  lemma SameFirst(a: string, b: string, k: nat)
    requires a != "" && b != "" && DiffersAt(a, b, k)
    ensures k > 0 ==> a[0] == b[0]
  {
    if k > 0 { assert a[..k][0] == b[..k][0]; }
  }

  /** operator< orders by name, then by start year, month, end year and day. */
  lemma LessMeans(x: Rule, y: Rule)
    ensures Less(x, y) <==>
            || (exists k: nat :: DiffersAt(x.name, y.name, k))
            || (x.name == y.name &&
                (|| x.start < y.start
                 || (x.start == y.start && x.at.Month() < y.at.Month())
                 || (x.start == y.start && x.at.Month() == y.at.Month() && x.end < y.end)
                 || (x.start == y.start && x.at.Month() == y.at.Month() && x.end == y.end && x.at.Day() < y.at.Day())))
  {
    hide StringLess, DiffersAt;
    StringLessMeans(x.name, y.name);
    StringLessMeans(y.name, x.name);
    NameNotBeforeItself(x.name);
  }

  // ---- what the table means

  /** Two rules do the same when they come at the same time with the same saving and the same letters. */
  lemma SameEffect(x: Rule, y: Rule)
    ensures EffectOf(x) == EffectOf(y) <==> x.at == y.at && x.save == y.save && x.abbrev == y.abbrev
  {
  }

  ghost function InForce(s: seq<Rule>, year: int): multiset<Effect>
  {
    if s == [] then multiset{}
    else (if s[0].start <= year <= s[0].end then multiset{EffectOf(s[0])} else multiset{}) + InForce(s[1..], year)
  }

  /** The sum of the lengths of the ranges, less one each: the room left for splitting. */
  ghost function Slack(s: seq<Rule>): int
  {
    if s == [] then 0 else s[0].end - s[0].start + Slack(s[1..])
  }

  ghost predicate SameMeaning(s: seq<Rule>, t: seq<Rule>)
  {
    forall year :: InForce(s, year) == InForce(t, year)
  }

  predicate SameRange(x: Rule, y: Rule) { x.start == y.start && x.end == y.end }

  ghost predicate NormalForm(s: seq<Rule>)
  {
    forall a, b :: 0 <= a < b < |s| ==> SameRange(s[a], s[b]) || s[a].end < s[b].start
  }

  // ---- cutting one rule at the edges of another: the specification of split

  function Part(r: Rule, a: int, b: int): seq<Rule> { if a <= b then [r.(start := a, end := b)] else [] }

  function Min(a: int, b: int): int { if a < b then a else b }

  function Max(a: int, b: int): int { if a < b then b else a }

  /** r before q, r during q and r after q, leaving out what is empty. */
  function Cut(r: Rule, q: Rule): seq<Rule>
  {
    Part(r, r.start, Min(r.end, q.start - 1)) + Part(r, Max(r.start, q.start), Min(r.end, q.end))
    + Part(r, Max(r.start, q.end + 1), r.end)
  }

  predicate Overlaps(x: Rule, y: Rule)
    requires x.start <= y.start
  {
    if y.start > x.end then false else !SameRange(x, y)
  }

  /** The rules of a window other than its first and its k-th. */
  function Others(w: seq<Rule>, k: int): seq<Rule>
    requires 0 < k < |w|
  {
    w[1..k] + w[k + 1..]
  }

  /** vector::insert. */
  function Insert(s: seq<Rule>, k: int, r: Rule): (t: seq<Rule>)
    requires 0 <= k <= |s|
    ensures |t| == |s| + 1
  {
    s[..k] + [r] + s[k..]
  }

  // A table seen from rule i: what is before it, the rule, what lies between it and rule k, the
  // pieces that stand where rule k stood, the rest of the window, and what is after the window.

  ghost function Shape(before: seq<Rule>, x: Rule, p: seq<Rule>, m: seq<Rule>, rest: seq<Rule>): seq<Rule>
  {
    before + [x] + p + m + rest
  }

  lemma InsertMid(before: seq<Rule>, x: Rule, p: seq<Rule>, m: seq<Rule>, rest: seq<Rule>, j: nat, r: Rule)
    requires j <= |m|
    ensures Insert(Shape(before, x, p, m, rest), |before| + 1 + |p| + j, r)
            == Shape(before, x, p, m[..j] + [r] + m[j..], rest)
  {
    var a, b := before + [x] + p + m[..j], m[j..] + rest;
    assert Shape(before, x, p, m, rest) == a + b;
    assert Shape(before, x, p, m[..j] + [r] + m[j..], rest) == a + [r] + b;
  }

  lemma SetFirst(before: seq<Rule>, x: Rule, p: seq<Rule>, m: seq<Rule>, rest: seq<Rule>, r: Rule)
    ensures Shape(before, x, p, m, rest)[|before| := r] == Shape(before, r, p, m, rest)
  {
  }

  lemma SetMid(before: seq<Rule>, x: Rule, p: seq<Rule>, m: seq<Rule>, rest: seq<Rule>, j: nat, r: Rule)
    requires j < |m|
    ensures Shape(before, x, p, m, rest)[|before| + 1 + |p| + j := r] == Shape(before, x, p, m[j := r], rest)
  {
  }

  /** The rules that a split leaves in the place of rules x and y. */
  ghost function Pieces(x: Rule, y: Rule): (Rule, seq<Rule>)
  {
    if x.start == y.start then
      if y.end < x.end then (x.(end := y.end), [y, x.(start := y.end + 1)])
      else (x, [y.(end := x.end), y.(start := x.end + 1)])
    else
      (x.(end := y.start - 1),
       if y.end < x.end then [x.(start := y.start, end := y.end), y, x.(start := y.end + 1)]
       else if y.end > x.end then [x.(start := y.start), y.(end := x.end), y.(start := x.end + 1)]
       else [x.(start := y.start), y])
  }

  /** What the cuts of two overlapping rules are, in each of the five cases. */
  lemma CutCases(x: Rule, y: Rule)
    requires x.start <= x.end && y.start <= y.end && x.start <= y.start && Overlaps(x, y)
    ensures var (first, mid) := Pieces(x, y);
            |mid| >= 2 &&
            if x.start == y.start then
              if y.end < x.end then Cut(x, y) == [first] + mid[1..] && Cut(y, x) == mid[..1]
              else Cut(x, y) == [first] && Cut(y, x) == mid
            else if y.end > x.end then Cut(x, y) == [first] + mid[..1] && Cut(y, x) == mid[1..]
            else Cut(x, y) == [first] + mid[..1] + mid[2..] && Cut(y, x) == mid[1..2]
  {
  }

  lemma Regroup(f: seq<Rule>, m: seq<Rule>, a: seq<Rule>, b: seq<Rule>)
    requires |m| >= 2
    requires (a == f + m[1..] && b == m[..1]) || (a == f && b == m) || (a == f + m[..1] && b == m[1..])
          || (a == f + m[..1] + m[2..] && b == m[1..2])
    ensures multiset(f) + multiset(m) == multiset(a) + multiset(b)
  {
    assert m == m[..1] + m[1..];
    assert m == m[..1] + m[1..2] + m[2..];
  }

  /** The five ways to split are the cuts of each rule at the other's edges. */
  lemma CutPieces(x: Rule, y: Rule)
    requires x.start <= x.end && y.start <= y.end && x.start <= y.start && Overlaps(x, y)
    ensures var pieces := Pieces(x, y);
            |pieces.1| >= 2
            && multiset([pieces.0]) + multiset(pieces.1) == multiset(Cut(x, y)) + multiset(Cut(y, x))
  {
    hide Cut, Pieces;
    CutCases(x, y);
    Regroup([Pieces(x, y).0], Pieces(x, y).1, Cut(x, y), Cut(y, x));
  }

  /** The table after a split. */
  ghost function SplitResult(s: seq<Rule>, i: nat, k: nat): seq<Rule>
    requires i < k < |s|
  {
    var (first, mid) := Pieces(s[i], s[k]);
    Shape(s[..i], first, s[i + 1..k], mid, s[k + 1..])
  }

  /** A split changes nothing outside the window and, inside it, replaces the two rules by their cuts. */
  lemma SplitWindow(s: seq<Rule>, i: nat, k: nat, e: nat)
    requires i < k < e <= |s|
    requires s[i].start <= s[i].end && s[k].start <= s[k].end
    requires s[i].start <= s[k].start && Overlaps(s[i], s[k])
    ensures var t, w := SplitResult(s, i, k), s[i..e];
            var e' := e + |t| - |s|;
            e < e' && t[..i] == s[..i] && t[e'..] == s[e..]
            && multiset(t[i..e']) ==
                 multiset(Others(w, k - i)) + multiset(Cut(w[0], w[k - i])) + multiset(Cut(w[k - i], w[0]))
  {
    hide Overlaps, Cut, Pieces, Shape, Others;
    var (first, mid) := Pieces(s[i], s[k]);
    CutPieces(s[i], s[k]);
    ShapeWindow(s[..i], first, s[i + 1..k], mid, s[k + 1..e], s[e..]);
    assert s[k + 1..] == s[k + 1..e] + s[e..];
    OthersAre(s, i, k, e);
  }

  lemma OthersAre(s: seq<Rule>, i: nat, k: nat, e: nat)
    requires i < k < e <= |s|
    ensures Others(s[i..e], k - i) == s[i + 1..k] + s[k + 1..e]
  {
    assert forall j :: 1 <= j < k - i ==> s[i..e][j] == s[i + j];
  }

  lemma ShapeWindow(before: seq<Rule>, x: Rule, p: seq<Rule>, m: seq<Rule>, q: seq<Rule>, after: seq<Rule>)
    ensures var s, n := Shape(before, x, p, m, q + after), |before| + 1 + |p| + |m| + |q|;
            |s| == n + |after| && s[..|before|] == before && s[n..] == after
            && multiset(s[|before|..n]) == multiset(p + q) + (multiset([x]) + multiset(m))
  {
    var s, n := Shape(before, x, p, m, q + after), |before| + 1 + |p| + |m| + |q|;
    assert s[|before|..n] == [x] + p + m + q;
  }

  // ---- the statements of the five branches, executed on a sequence

  lemma SameStartShortK(s: seq<Rule>, i: nat, k: nat)
    requires i < k < |s| && s[i].start == s[k].start && s[k].end < s[i].end
    ensures var s1 := Insert(s, k + 1, s[i].(start := s[k].end + 1));
            s1[i := s1[i].(end := s1[k].end)] == SplitResult(s, i, k)
  {
    var x, y, p, before, rest := s[i], s[k], s[i + 1..k], s[..i], s[k + 1..];
    assert s == Shape(before, x, p, [y], rest);
    InsertMid(before, x, p, [y], rest, 1, x.(start := y.end + 1));
    SetFirst(before, x, p, Pieces(x, y).1, rest, x.(end := y.end));
  }

  lemma SameStartLongK(s: seq<Rule>, i: nat, k: nat)
    requires i < k < |s| && s[i].start == s[k].start && s[k].end >= s[i].end
    ensures var s1 := Insert(s, k + 1, s[k].(start := s[i].end + 1));
            s1[k := s1[k].(end := s1[i].end)] == SplitResult(s, i, k)
  {
    var x, y, p, before, rest := s[i], s[k], s[i + 1..k], s[..i], s[k + 1..];
    assert s == Shape(before, x, p, [y], rest);
    var tail := y.(start := x.end + 1);
    InsertMid(before, x, p, [y], rest, 1, tail);
    SetMid(before, x, p, [y, tail], rest, 0, y.(end := x.end));
  }

  lemma KInside(s: seq<Rule>, i: nat, k: nat)
    requires i < k < |s| && s[i].start != s[k].start && s[k].end < s[i].end
    ensures var s1 := Insert(s, k, s[i].(start := s[k].start, end := s[k].end));
            var s2 := Insert(s1, k + 2, s1[i].(start := s1[k + 1].end + 1));
            s2[i := s2[i].(end := s2[k + 1].start - 1)] == SplitResult(s, i, k)
  {
    var x, y, p, before, rest := s[i], s[k], s[i + 1..k], s[..i], s[k + 1..];
    assert s == Shape(before, x, p, [y], rest);
    var during := x.(start := y.start, end := y.end);
    InsertMid(before, x, p, [y], rest, 0, during);
    InsertMid(before, x, p, [during, y], rest, 2, x.(start := y.end + 1));
    SetFirst(before, x, p, Pieces(x, y).1, rest, x.(end := y.start - 1));
  }

  lemma KPastEnd(s: seq<Rule>, i: nat, k: nat)
    requires i < k < |s| && s[i].start != s[k].start && s[k].end > s[i].end
    ensures var s1 := Insert(s, k, s[i].(start := s[k].start));
            var s2 := Insert(s1, k + 2, s1[k + 1].(start := s1[i].end + 1));
            var s3 := s2[k + 1 := s2[k + 1].(end := s2[i].end)];
            s3[i := s3[i].(end := s3[k + 1].start - 1)] == SplitResult(s, i, k)
  {
    var x, y, p, before, rest := s[i], s[k], s[i + 1..k], s[..i], s[k + 1..];
    assert s == Shape(before, x, p, [y], rest);
    var during, tail := x.(start := y.start), y.(start := x.end + 1);
    InsertMid(before, x, p, [y], rest, 0, during);
    InsertMid(before, x, p, [during, y], rest, 2, tail);
    SetMid(before, x, p, [during, y, tail], rest, 1, y.(end := x.end));
    SetFirst(before, x, p, Pieces(x, y).1, rest, x.(end := y.start - 1));
  }

  lemma KSameEnd(s: seq<Rule>, i: nat, k: nat)
    requires i < k < |s| && s[i].start != s[k].start && s[k].end == s[i].end
    ensures var s1 := Insert(s, k, s[i].(start := s[k].start));
            s1[i := s1[i].(end := s1[k + 1].start - 1)] == SplitResult(s, i, k)
  {
    var x, y, p, before, rest := s[i], s[k], s[i + 1..k], s[..i], s[k + 1..];
    assert s == Shape(before, x, p, [y], rest);
    InsertMid(before, x, p, [y], rest, 0, x.(start := y.start));
    SetFirst(before, x, p, Pieces(x, y).1, rest, x.(end := y.start - 1));
  }

  // ---- totals over a table do not depend on its order

  lemma {:induction false} TotalsConcat(a: seq<Rule>, b: seq<Rule>, year: int)
    ensures InForce(a + b, year) == InForce(a, year) + InForce(b, year) && Slack(a + b) == Slack(a) + Slack(b)
  {
    if a == [] {
      assert a + b == b;
    } else {
      assert (a + b)[1..] == a[1..] + b;
      TotalsConcat(a[1..], b, year);
    }
  }

  lemma RemoveOne(s: seq<Rule>, k: nat, year: int)
    requires k < |s|
    ensures var c := s[..k] + s[k + 1..];
            multiset(c) == multiset(s) - multiset{s[k]} && |c| == |s| - 1
            && InForce(s, year) == InForce([s[k]], year) + InForce(c, year) && Slack(s) == Slack([s[k]]) + Slack(c)
  {
    assert s == s[..k] + ([s[k]] + s[k + 1..]);
    TotalsConcat(s[..k], [s[k]] + s[k + 1..], year);
    TotalsConcat([s[k]], s[k + 1..], year);
    TotalsConcat(s[..k], s[k + 1..], year);
  }

  lemma {:induction false} TotalsPermute(a: seq<Rule>, b: seq<Rule>, year: int)
    requires multiset(a) == multiset(b)
    ensures InForce(a, year) == InForce(b, year) && Slack(a) == Slack(b)
  {
    hide InForce, Slack;
    assert |multiset(a)| == |a| && |multiset(b)| == |b|;
    if a == [] {
      assert a == b;
    } else {
      assert a[0] in multiset(b);
      var k :| 0 <= k < |b| && b[k] == a[0];
      RemoveOne(a, 0, year);
      RemoveOne(b, k, year);
      TotalsPermute(a[..0] + a[1..], b[..k] + b[k + 1..], year);
    }
  }

  lemma PartTotals(r: Rule, a: int, b: int, year: int)
    ensures InForce(Part(r, a, b), year) == if a <= year <= b then multiset{EffectOf(r)} else multiset{}
    ensures Slack(Part(r, a, b)) == if a <= b then b - a else 0
  {
  }

  lemma OneTotals(r: Rule, year: int)
    ensures InForce([r], year) == if r.start <= year <= r.end then multiset{EffectOf(r)} else multiset{}
    ensures Slack([r]) == r.end - r.start
  {
  }

  /** Cutting a rule leaves its effect in every year, and uses up slack unless nothing is cut. */
  lemma CutTotals(r: Rule, q: Rule, year: int)
    requires r.start <= r.end && q.start <= q.end
    ensures InForce(Cut(r, q), year) == InForce([r], year)
    ensures Slack(Cut(r, q)) <= r.end - r.start
    ensures r.start < q.start <= r.end || r.start <= q.end < r.end ==> Slack(Cut(r, q)) < r.end - r.start
  {
    hide InForce, Slack, Part, EffectOf;
    var a, b, c := Part(r, r.start, Min(r.end, q.start - 1)), Part(r, Max(r.start, q.start), Min(r.end, q.end)),
                   Part(r, Max(r.start, q.end + 1), r.end);
    TotalsConcat(a + b, c, year);
    TotalsConcat(a, b, year);
    PartTotals(r, r.start, Min(r.end, q.start - 1), year);
    PartTotals(r, Max(r.start, q.start), Min(r.end, q.end), year);
    PartTotals(r, Max(r.start, q.end + 1), r.end, year);
    OneTotals(r, year);
  }

  lemma {:induction false} SlackNonNegative(s: seq<Rule>, name: string)
    requires Group(s, name)
    ensures Slack(s) >= 0
  {
    if s != [] {
      assert s[0] in s;
      SlackNonNegative(s[1..], name);
    }
  }

  // ---- sorting

  lemma {:induction false} CountBound(a: seq<Rule>, b: seq<Rule>)
    requires multiset(a) <= multiset(b)
    ensures |a| <= |b|
  {
    assert multiset(b) == multiset(a) + (multiset(b) - multiset(a));
    assert |multiset(a)| == |a| && |multiset(b)| == |b|;
  }

  predicate SameKey(x: Rule, y: Rule) { !KeyLess(x, y) && !KeyLess(y, x) }

  /** When no rule of `high` comes before a rule of `low`, a sorted arrangement of both begins with
      keys of `low`. */
  lemma LowFirst(s: seq<Rule>, low: seq<Rule>, high: seq<Rule>, l: nat) returns (a: Rule)
    requires KeySorted(s) && multiset(s) == multiset(low) + multiset(high) && l < |low|
    requires forall x, y :: x in low && y in high ==> !KeyLess(y, x)
    ensures l < |s| && a in low && SameKey(a, s[l])
  {
    assert |multiset(s)| == |s| && |multiset(low)| == |low| && |multiset(high)| == |high|;
    assert s[l] in multiset(s);
    if exists x :: x in low && SameKey(x, s[l]) {
      a :| a in low && SameKey(a, s[l]);
    } else {
      assert SameKey(s[l], s[l]);
      assert s[l] in multiset(high);
      assert s == s[..l] + s[l..];
      forall x | x in multiset(low)
        ensures multiset(low)[x] <= multiset(s[..l])[x]
      {
        if x in s[l..] {
          var m :| 0 <= m < |s[l..]| && s[l..][m] == x;
          assert s[l + m] == x && x in low && SameKey(x, s[l]);
          assert false;
        }
        assert x !in multiset(s[l..]);
        assert multiset(s)[x] == multiset(s[..l])[x] + multiset(s[l..])[x];
      }
      CountBound(low, s[..l]);
      assert false;
    }
  }

  // ---- the invariant of the two loops

  ghost predicate HasStart(g: seq<Rule>, year: int) { exists r :: r in g && r.start == year }

  predicate DayNotBefore(x: Rule, y: Rule)
  {
    x.at.Month() < y.at.Month() || (x.at.Month() == y.at.Month() && x.at.Day() <= y.at.Day())
  }

  /** No edge of y falls strictly inside x, and x comes first.  A rule y that starts with x may
      still reach beyond it, for now, because some rule starting right after x will cut it. */
  ghost predicate NoCut(x: Rule, y: Rule, g: seq<Rule>)
  {
    y.start > x.end
    || (y.start == x.start && DayNotBefore(x, y) && (y.end == x.end || (y.end > x.end && HasStart(g, x.end + 1))))
  }

  /** The first n rules have nothing left to cut them. */
  ghost predicate Settled(g: seq<Rule>, n: int)
  {
    forall j, l :: 0 <= j < n && j < l < |g| ==> NoCut(g[j], g[l], g)
  }

  /** Rule i has been compared with the rules before k. */
  ghost predicate Scanned(g: seq<Rule>, i: int, k: int)
  {
    forall l :: 0 <= i < l < k && l < |g| ==> NoCut(g[i], g[l], g)
  }

  lemma StartNotRemoved(r: Rule, q: Rule)
    requires r.start <= r.end && q.start <= q.end
    ensures HasStart(Cut(r, q), r.start)
  {
    assert Cut(r, q)[0].start == r.start && Cut(r, q)[0] in Cut(r, q);
  }

  /** What one piece of a cut can be. */
  ghost predicate Piece(z: Rule, r: Rule, q: Rule)
  {
    && r.start <= z.start <= z.end <= r.end && z == r.(start := z.start, end := z.end)
    && (z.start == r.start || z.start == q.start || z.start == q.end + 1)
    && (z.start == r.start ==>
          z.end == r.end || (q.start > r.start && z.end == q.start - 1) || (q.start <= r.start && z.end == q.end))
  }

  lemma PieceOf(z: Rule, r: Rule, q: Rule)
    requires z in Cut(r, q) && r.start <= r.end && q.start <= q.end
    ensures Piece(z, r, q)
  {
  }

  /** A settled rule stays settled against the pieces of later rules. */
  lemma PieceNoCut(x: Rule, r: Rule, q: Rule, z: Rule, g: seq<Rule>, g': seq<Rule>)
    requires x.start <= x.end && r.start <= r.end && q.start <= q.end
    requires NoCut(x, r, g) && NoCut(x, q, g) && Piece(z, r, q)
    requires forall year :: HasStart(g, year) ==> HasStart(g', year)
    ensures NoCut(x, z, g')
  {
  }

  /** The window after one split and sort: the other rules, and the pieces of the first and the k-th. */
  ghost predicate Resplit(w: seq<Rule>, k: int, w': seq<Rule>)
    requires 0 < k < |w|
  {
    multiset(w') == multiset(Others(w, k)) + multiset(Cut(w[0], w[k])) + multiset(Cut(w[k], w[0]))
  }

  lemma WindowElement(w: seq<Rule>, k: int, w': seq<Rule>, z: Rule)
    requires 0 < k < |w| && Resplit(w, k, w') && z in w'
    ensures z in Others(w, k) || z in Cut(w[0], w[k]) || z in Cut(w[k], w[0])
  {
    assert z in multiset(w');
  }

  lemma WindowParts(w: seq<Rule>, k: int)
    requires 0 < k < |w|
    ensures multiset(w) == multiset(Others(w, k)) + multiset{w[0]} + multiset{w[k]}
  {
    assert w == [w[0]] + w[1..k] + [w[k]] + w[k + 1..];
  }

  lemma StartsKept(w: seq<Rule>, k: int, w': seq<Rule>, name: string, year: int)
    requires 0 < k < |w| && Group(w, name) && Resplit(w, k, w') && HasStart(w, year)
    ensures HasStart(w', year)
  {
    hide Cut;
    var r :| r in w && r.start == year;
    WindowParts(w, k);
    assert r in multiset(w);
    if r in Others(w, k) {
      assert r in multiset(w');
    } else if r == w[0] {
      StartNotRemoved(w[0], w[k]);
      var z :| z in Cut(w[0], w[k]) && z.start == year;
      assert z in multiset(w');
    } else {
      StartNotRemoved(w[k], w[0]);
      var z :| z in Cut(w[k], w[0]) && z.start == year;
      assert z in multiset(w');
    }
  }

  lemma SplitKeepsGroup(w: seq<Rule>, k: int, w': seq<Rule>, name: string)
    requires 0 < k < |w| && Group(w, name) && Resplit(w, k, w')
    ensures Group(w', name)
  {
    forall z | z in w'
      ensures z.name == name && z.start <= z.end
    {
      WindowElement(w, k, w', z);
      if z in Cut(w[0], w[k]) { PieceOf(z, w[0], w[k]); }
      if z in Cut(w[k], w[0]) { PieceOf(z, w[k], w[0]); }
    }
  }

  /** Splitting and sorting the window changes neither the effects in any year, and uses up slack. */
  lemma SplitTotals(w: seq<Rule>, k: int, w': seq<Rule>, name: string, year: int)
    requires 0 < k < |w| && Group(w, name) && Resplit(w, k, w')
    requires w[0].start <= w[k].start && Overlaps(w[0], w[k])
    ensures InForce(w', year) == InForce(w, year) && Slack(w') < Slack(w)
  {
    hide InForce, Slack, Cut, Others;
    var x, y, rest := w[0], w[k], Others(w, k);
    WindowParts(w, k);
    ThreeTotals(w, rest, [x], [y], year);
    ThreeTotals(w', rest, Cut(x, y), Cut(y, x), year);
    CutTotals(x, y, year);
    CutTotals(y, x, year);
    OneTotals(x, year);
    OneTotals(y, year);
  }

  lemma ThreeTotals(s: seq<Rule>, a: seq<Rule>, b: seq<Rule>, c: seq<Rule>, year: int)
    requires multiset(s) == multiset(a) + multiset(b) + multiset(c)
    ensures InForce(s, year) == InForce(a, year) + InForce(b, year) + InForce(c, year)
    ensures Slack(s) == Slack(a) + Slack(b) + Slack(c)
  {
    hide InForce, Slack;
    TotalsPermute(s, a + b + c, year);
    TotalsConcat(a + b, c, year);
    TotalsConcat(a, b, year);
  }

  /** Everything the scan has passed starts with the first rule and reaches at least as far. */
  lemma PassedRules(w: seq<Rule>, k: int)
    requires 0 < k < |w| && KeySorted(w) && w[k].start <= w[0].end
    requires forall l :: 0 < l < k ==> NoCut(w[0], w[l], w)
    ensures forall l :: 0 < l < k ==> w[l].start == w[0].start && w[l].end >= w[0].end && DayNotBefore(w[0], w[l])
    ensures w[0].start <= w[k].start
  {
    assert !KeyLess(w[k], w[0]);
    forall l | 0 < l < k
      ensures w[l].start == w[0].start && w[l].end >= w[0].end && DayNotBefore(w[0], w[l])
    {
      assert !KeyLess(w[k], w[l]);
    }
  }

  /** The first rule after the sort: it has the end of the piece x1 of the old first rule, and is
      not after it in month and day. */
  lemma NewFirst(w': seq<Rule>, x1: Rule, a: Rule)
    requires KeySorted(w') && w' != [] && x1 in w' && SameKey(a, w'[0])
    requires a.start == x1.start && a.at.Month() >= x1.at.Month() && a.end >= x1.end
    ensures w'[0].start == x1.start && w'[0].end == x1.end && DayNotBefore(w'[0], x1)
  {
    var m :| 0 <= m < |w'| && w'[m] == x1;
    assert m > 0 ==> !KeyLess(w'[m], w'[0]);
  }

  lemma ScanStepSameStart(w: seq<Rule>, k: int, w': seq<Rule>, name: string)
    requires 0 < k < |w| && Group(w, name) && KeySorted(w) && KeySorted(w') && Resplit(w, k, w')
    requires w[0].start == w[k].start && w[0].end != w[k].end
    requires forall l :: 0 < l < k ==> NoCut(w[0], w[l], w)
    ensures forall l :: 0 < l <= k ==> l < |w'| && NoCut(w'[0], w'[l], w')
  {
    hide Cut, Others;
    var x, y := w[0], w[k];
    PassedRules(w, k);
    var end := Min(x.end, y.end);
    var x1, y1, extra := x.(end := end), y.(end := end), Extra(x, y);
    var low, high := [x1] + w[1..k] + [y1], w[k + 1..] + [extra];
    SameStartParts(w, k, w');
    assert x1 in low && extra in high;
    assert extra in multiset(w') && x1 in multiset(w');
    assert HasStart(w', end + 1);
    forall a, b | a in low && b in high
      ensures !KeyLess(b, a)
    {
      LowNotAfterHigh(w, k, a, b, extra);
    }
    var a0 := LowFirst(w', low, high, 0);
    LowElement(w, k, a0);
    NewFirst(w', x1, a0);
    forall l | 0 < l <= k
      ensures l < |w'| && NoCut(w'[0], w'[l], w')
    {
      var a := LowFirst(w', low, high, l);
      LowElement(w, k, a);
      KeyNoCut(x1, w'[0], a, w'[l], w');
    }
  }

  lemma KeyNoCut(x1: Rule, first: Rule, a: Rule, z: Rule, g: seq<Rule>)
    requires first.start == x1.start && first.end == x1.end && DayNotBefore(first, x1)
    requires SameKey(a, z) && !KeyLess(z, first) && HasStart(g, x1.end + 1)
    requires a.start == x1.start && a.end >= x1.end && (a.end > x1.end ==> DayNotBefore(x1, a))
    ensures NoCut(first, z, g)
  {
  }

  /** The piece that reaches beyond the shorter of two rules with the same start. */
  function Extra(x: Rule, y: Rule): Rule
  {
    if y.end < x.end then x.(start := y.end + 1) else y.(start := x.end + 1)
  }

  lemma SameStartCut(x: Rule, y: Rule)
    requires x.start == y.start && x.end != y.end && x.start <= x.end && y.start <= y.end
    ensures Cut(x, y) == if y.end < x.end then [x.(end := y.end), Extra(x, y)] else [x.(end := x.end)]
    ensures Cut(y, x) == if y.end < x.end then [y.(end := y.end)] else [y.(end := x.end), Extra(x, y)]
  {
  }

  lemma SameStartCuts(x: Rule, y: Rule)
    requires x.start == y.start && x.end != y.end && x.start <= x.end && y.start <= y.end
    ensures var end := Min(x.end, y.end);
            multiset(Cut(x, y)) + multiset(Cut(y, x))
              == multiset{x.(end := end)} + multiset{y.(end := end)} + multiset{Extra(x, y)}
  {
    hide Cut, Extra;
    SameStartCut(x, y);
  }

  lemma SameStartParts(w: seq<Rule>, k: int, w': seq<Rule>)
    requires 0 < k < |w| && Resplit(w, k, w')
    requires w[0].start == w[k].start && w[0].end != w[k].end && w[0].start <= w[0].end && w[k].start <= w[k].end
    ensures var x, y := w[0], w[k];
            var end := Min(x.end, y.end);
            multiset(w') == multiset([x.(end := end)] + w[1..k] + [y.(end := end)])
                            + multiset(w[k + 1..] + [Extra(x, y)])
  {
    hide Cut, Min, Extra;
    var x, y := w[0], w[k];
    var end := Min(x.end, y.end);
    SameStartCuts(x, y);
    var a, b, c := multiset{x.(end := end)}, multiset{y.(end := end)}, multiset{Extra(x, y)};
    var d, e := multiset(w[1..k]), multiset(w[k + 1..]);
    assert multiset(Others(w, k)) == d + e;
    assert multiset(w') == (d + e) + (a + b + c);
    assert multiset([x.(end := end)] + w[1..k] + [y.(end := end)]) == a + d + b;
    assert multiset(w[k + 1..] + [Extra(x, y)]) == e + c;
  }

  lemma LowElement(w: seq<Rule>, k: int, a: Rule)
    requires 0 < k < |w| && KeySorted(w) && w[0].start == w[k].start
    requires forall l :: 0 < l < k ==> w[l].start == w[0].start && w[l].end >= w[0].end && DayNotBefore(w[0], w[l])
    requires var end := Min(w[0].end, w[k].end);
             a in [w[0].(end := end)] + w[1..k] + [w[k].(end := end)]
    ensures var x, end := w[0], Min(w[0].end, w[k].end);
            a.start == x.start && a.at.Month() >= x.at.Month() && a.end >= end
            && (a.end > end ==> DayNotBefore(x, a))
  {
    assert !KeyLess(w[k], w[0]);
  }

  lemma LowNotAfterHigh(w: seq<Rule>, k: int, a: Rule, b: Rule, extra: Rule)
    requires 0 < k < |w| && KeySorted(w) && w[0].start == w[k].start && extra.start > w[0].start
    requires forall l :: 0 < l < k ==> w[l].start == w[0].start
    requires var end := Min(w[0].end, w[k].end);
             a in [w[0].(end := end)] + w[1..k] + [w[k].(end := end)]
    requires b in w[k + 1..] + [extra]
    ensures !KeyLess(b, a)
  {
    if b in w[k + 1..] {
      var n :| 0 <= n < |w[k + 1..]| && w[k + 1..][n] == b;
      assert w[k + 1 + n] == b;
      assert !KeyLess(b, w[0]) && !KeyLess(b, w[k]);
      if a in w[1..k] {
        var m :| 0 <= m < |w[1..k]| && w[1..k][m] == a;
        assert w[1 + m] == a && !KeyLess(b, w[1 + m]);
      }
    }
  }

  lemma ScanStepLaterStart(w: seq<Rule>, k: int, w': seq<Rule>, name: string)
    requires 0 < k < |w| && Group(w, name) && KeySorted(w) && KeySorted(w') && Resplit(w, k, w')
    requires w[0].start < w[k].start <= w[0].end && w' != []
    requires forall l :: 0 < l < k ==> NoCut(w[0], w[l], w)
    ensures forall l :: 0 < l < |w'| ==> NoCut(w'[0], w'[l], w')
  {
    var x, y := w[0], w[k];
    PassedRules(w, k);
    var x1 := x.(end := y.start - 1);
    LaterStartPieces(w, k, w', name);
    hide Cut, Others, HasStart, DayNotBefore, NoCut, Resplit, Group, KeySorted;
    forall z | z in w'
      ensures z == x1 || z.start >= y.start || (z.start == x.start && z.end > x1.end && DayNotBefore(x, z))
    {
      LaterStartElement(w, k, w', z);
    }
    LaterStartNoCuts(x, x1, w');
  }

  lemma LaterStartPieces(w: seq<Rule>, k: int, w': seq<Rule>, name: string)
    requires 0 < k < |w| && Group(w, name) && Resplit(w, k, w') && w[0].start < w[k].start <= w[0].end
    ensures w[0].(end := w[k].start - 1) in w' && HasStart(w', w[k].start)
    ensures w[0].start <= w[0].end && w[k].start <= w[k].end
  {
    assert w[0] in w && w[k] in w;
    FirstPiece(w[0], w[k]);
    StartNotRemoved(w[k], w[0]);
    hide Cut, Others, Resplit;
    PieceStays(w, k, w', w[0].(end := w[k].start - 1));
    var z :| z in Cut(w[k], w[0]) && z.start == w[k].start;
    PieceStays(w, k, w', z);
  }

  lemma PieceStays(w: seq<Rule>, k: int, w': seq<Rule>, z: Rule)
    requires 0 < k < |w| && Resplit(w, k, w') && (z in Cut(w[0], w[k]) || z in Cut(w[k], w[0]))
    ensures z in w'
  {
    hide Cut, Others;
    assert z in multiset(w');
  }

  lemma LaterStartNoCuts(x: Rule, x1: Rule, w': seq<Rule>)
    requires KeySorted(w') && x1 in w' && x1 == x.(end := x1.end) && x1.start <= x1.end && HasStart(w', x1.end + 1)
    requires forall z :: z in w' ==>
               z == x1 || z.start > x1.end || (z.start == x.start && z.end > x1.end && DayNotBefore(x, z))
    ensures forall l :: 0 < l < |w'| ==> NoCut(w'[0], w'[l], w')
  {
    var m :| 0 <= m < |w'| && w'[m] == x1;
    assert w'[0] in w' && (m > 0 ==> !KeyLess(w'[m], w'[0]));
    NewFirst(w', x1, w'[0]);
    forall l | 0 < l < |w'|
      ensures NoCut(w'[0], w'[l], w')
    {
      assert w'[l] in w' && !KeyLess(w'[l], w'[0]);
    }
  }

  lemma FirstPiece(x: Rule, y: Rule)
    requires x.start < y.start <= x.end
    ensures x.(end := y.start - 1) in Cut(x, y)
  {
    assert Cut(x, y)[0] == x.(end := y.start - 1);
  }

  lemma LaterStartElement(w: seq<Rule>, k: int, w': seq<Rule>, z: Rule)
    requires 0 < k < |w| && KeySorted(w) && Resplit(w, k, w') && z in w'
    requires w[0].start <= w[0].end && w[k].start <= w[k].end && w[0].start < w[k].start <= w[0].end
    requires forall l :: 0 < l < k ==> w[l].start == w[0].start && w[l].end >= w[0].end && DayNotBefore(w[0], w[l])
    ensures z == w[0].(end := w[k].start - 1) || z.start >= w[k].start
            || (z.start == w[0].start && z.end > w[k].start - 1 && DayNotBefore(w[0], z))
  {
    hide Cut;
    WindowElement(w, k, w', z);
    if z in w[1..k] {
      var m :| 0 <= m < |w[1..k]| && w[1..k][m] == z;
      assert w[1 + m] == z;
    } else if z in w[k + 1..] {
      var m :| 0 <= m < |w[k + 1..]| && w[k + 1..][m] == z;
      assert w[k + 1 + m] == z && !KeyLess(w[k + 1 + m], w[k]);
    } else if z in Cut(w[0], w[k]) {
      PieceOf(z, w[0], w[k]);
    } else {
      PieceOf(z, w[k], w[0]);
    }
  }

  lemma StartInSuffix(g: seq<Rule>, i: nat, year: int)
    requires i < |g| && KeySorted(g) && HasStart(g, year) && year > g[i].start
    ensures HasStart(g[i..], year)
  {
    var r :| r in g && r.start == year;
    var m :| 0 <= m < |g| && g[m] == r;
    assert g[i..][m - i] == r;
  }

  /** A table g' in which the window from rule i has been split at rule k and sorted. */
  ghost predicate Step(g: seq<Rule>, i: nat, k: nat, g': seq<Rule>)
  {
    && i < k < |g| && i <= |g'| && g'[..i] == g[..i]
    && g[i].start <= g[k].start && Overlaps(g[i], g[k])
    && KeySorted(g'[i..]) && Resplit(g[i..], k - i, g'[i..])
  }

  lemma StepStarts(g: seq<Rule>, i: nat, k: nat, g': seq<Rule>, name: string)
    requires Group(g, name) && Step(g, i, k, g')
    ensures forall year :: HasStart(g, year) ==> HasStart(g', year)
  {
    hide *;
    StepWindow(g, i, k, g', name);
    forall year | HasStart(g, year)
      ensures HasStart(g', year)
    {
      StartOfParts(g, i, year);
      StartOfParts(g', i, year);
      if HasStart(g[i..], year) { StartsKept(g[i..], k - i, g'[i..], name, year); }
    }
  }

  lemma StepWindow(g: seq<Rule>, i: nat, k: nat, g': seq<Rule>, name: string)
    requires Group(g, name) && Step(g, i, k, g')
    ensures i < k < |g| && i <= |g'| && g[..i] == g'[..i] && 0 < k - i < |g[i..]|
    ensures Group(g[i..], name) && Resplit(g[i..], k - i, g'[i..])
  {
    hide Resplit, KeySorted, Overlaps;
  }

  lemma StartOfParts(g: seq<Rule>, i: nat, year: int)
    requires i <= |g|
    ensures HasStart(g, year) <==> HasStart(g[..i], year) || HasStart(g[i..], year)
  {
    assert g == g[..i] + g[i..];
  }

  lemma OtherElement(g: seq<Rule>, i: nat, k: nat, z: Rule) returns (m: nat)
    requires i < k < |g| && z in Others(g[i..], k - i)
    ensures i < m < |g| && g[m] == z
  {
    var w := g[i..];
    if z in w[1..k - i] {
      var n :| 0 <= n < |w[1..k - i]| && w[1..k - i][n] == z;
      m := i + 1 + n;
    } else {
      var n :| 0 <= n < |w[k - i + 1..]| && w[k - i + 1..][n] == z;
      m := k + 1 + n;
    }
  }

  lemma StepRanges(g: seq<Rule>, i: nat, k: nat, name: string, j: nat)
    requires Group(g, name) && Settled(g, i) && j < i < k < |g|
    ensures NoCut(g[j], g[i], g) && NoCut(g[j], g[k], g)
    ensures g[j].start <= g[j].end && g[i].start <= g[i].end && g[k].start <= g[k].end
  {
    hide NoCut;
    assert g[j] in g && g[i] in g && g[k] in g;
  }

  lemma StepElement(g: seq<Rule>, i: nat, k: nat, g': seq<Rule>, name: string, j: nat, l: nat)
    requires Group(g, name) && Settled(g, i) && Step(g, i, k, g') && j < i <= l < |g'|
    requires forall year :: HasStart(g, year) ==> HasStart(g', year)
    ensures NoCut(g[j], g'[l], g')
  {
    hide Cut, Others, HasStart, Settled, KeySorted, Overlaps, NoCut, Piece, Group, Step, Resplit;
    StepWindow(g, i, k, g', name);
    StepRanges(g, i, k, name, j);
    var w, z := g[i..], g'[l];
    assert g'[i..][l - i] == z;
    WindowElement(w, k - i, g'[i..], z);
    if z in Others(w, k - i) {
      var m := OtherElement(g, i, k, z);
      SettledAt(g, i, j, m);
      NoCutKept(g[j], z, g, g');
    } else if z in Cut(w[0], w[k - i]) {
      PieceOf(z, g[i], g[k]);
      PieceNoCut(g[j], g[i], g[k], z, g, g');
    } else {
      PieceOf(z, g[k], g[i]);
      PieceNoCut(g[j], g[k], g[i], z, g, g');
    }
  }

  lemma NoCutKept(x: Rule, y: Rule, g: seq<Rule>, g': seq<Rule>)
    requires NoCut(x, y, g) && forall year :: HasStart(g, year) ==> HasStart(g', year)
    ensures NoCut(x, y, g')
  {
  }

  lemma SettledAt(g: seq<Rule>, n: nat, j: nat, l: nat)
    requires Settled(g, n) && j < n && j < l < |g|
    ensures NoCut(g[j], g[l], g)
  {
  }

  lemma StepSettled(g: seq<Rule>, i: nat, k: nat, g': seq<Rule>, name: string)
    requires Group(g, name) && KeySorted(g) && Settled(g, i) && Step(g, i, k, g')
    ensures Settled(g', i) && KeySorted(g')
  {
    hide Cut, Others, Resplit;
    StepStarts(g, i, k, g', name);
    forall j, l | 0 <= j < i && j < l < |g'|
      ensures NoCut(g'[j], g'[l], g') && g'[j] == g[j]
    {
      assert g'[..i][j] == g[..i][j];
      if l < i {
        assert g'[..i][l] == g[..i][l];
        assert NoCut(g[j], g[l], g);
      } else {
        StepElement(g, i, k, g', name, j, l);
      }
    }
    forall a, b | 0 <= a < b < |g'|
      ensures !KeyLess(g'[b], g'[a])
    {
      if a < i {
        assert NoCut(g'[a], g'[b], g');
        assert g[a] in g;
      } else {
        assert g'[i..][a - i] == g'[a] && g'[i..][b - i] == g'[b];
      }
    }
  }

  lemma StepScanned(g: seq<Rule>, i: nat, k: nat, g': seq<Rule>, name: string)
    requires Group(g, name) && KeySorted(g) && Scanned(g, i, k) && Step(g, i, k, g')
    ensures Scanned(g', i, k + 1)
  {
    hide Cut, Others, Resplit;
    var w, w', n := g[i..], g'[i..], k - i;
    forall l | 0 < l < n
      ensures NoCut(w[0], w[l], w)
    {
      assert NoCut(g[i], g[i + l], g);
      if w[l].start <= w[0].end && w[l].end > w[0].end { StartInSuffix(g, i, w[0].end + 1); }
    }
    assert g[i] in g && g[k] in g;
    assert HasStart(w, w[0].start);
    StartsKept(w, n, w', name, w[0].start);
    if w[0].start == w[n].start { ScanStepSameStart(w, n, w', name); }
    else { ScanStepLaterStart(w, n, w', name); }
    forall l | i < l < k + 1 && l < |g'|
      ensures NoCut(g'[i], g'[l], g')
    {
      assert NoCut(w'[0], w'[l - i], w');
    }
  }

  lemma StepMeaning(g: seq<Rule>, i: nat, k: nat, g': seq<Rule>, name: string)
    requires Group(g, name) && Step(g, i, k, g')
    ensures Group(g', name) && SameMeaning(g, g') && Slack(g') < Slack(g)
  {
    hide Cut, Others, Resplit, InForce, Slack;
    assert g == g[..i] + g[i..] && g' == g[..i] + g'[i..];
    SplitKeepsGroup(g[i..], k - i, g'[i..], name);
    forall year
      ensures InForce(g, year) == InForce(g', year) && Slack(g') < Slack(g)
    {
      SplitTotals(g[i..], k - i, g'[i..], name, year);
      TotalsConcat(g[..i], g[i..], year);
      TotalsConcat(g[..i], g'[i..], year);
    }
    assert InForce(g, 0) == InForce(g', 0);
  }

  /** A table whose rules are all settled but the last is in normal form. */
  lemma SettledIsNormal(g: seq<Rule>, name: string)
    requires Group(g, name) && KeySorted(g) && Settled(g, |g| - 1)
    ensures NormalForm(g)
  {
    forall a, b | 0 <= a < b < |g|
      ensures SameRange(g[a], g[b]) || g[a].end < g[b].start
    {
      assert NoCut(g[a], g[b], g);
      if g[b].start <= g[a].end && g[b].end > g[a].end {
        var r :| r in g && r.start == g[a].end + 1;
        var m :| 0 <= m < |g| && g[m] == r;
      }
    }
  }

  lemma KeyOrder(x: Rule, y: Rule, z: Rule)
    ensures KeyLess(x, y) ==> !KeyLess(y, x)
    ensures !KeyLess(y, x) && !KeyLess(z, y) ==> !KeyLess(z, x)
  {
  }

  lemma InsertAdds(t: seq<Rule>, at: nat, r: Rule)
    requires at <= |t|
    ensures multiset(Insert(t, at, r)) == multiset(t) + multiset{r}
  {
    assert t == t[..at] + t[at..];
  }

  lemma InsertionSorted(t: seq<Rule>, at: nat, r: Rule)
    requires KeySorted(t) && at <= |t|
    requires forall b :: at <= b < |t| ==> KeyLess(r, t[b])
    requires at > 0 ==> !KeyLess(r, t[at - 1])
    ensures KeySorted(Insert(t, at, r)) && multiset(Insert(t, at, r)) == multiset(t) + multiset{r}
  {
    hide KeyLess;
    InsertAdds(t, at, r);
    forall a, b | 0 <= a < b < |t| + 1
      ensures !KeyLess(Insert(t, at, r)[b], Insert(t, at, r)[a])
    {
      if b == at { KeyOrder(t[a], t[at - 1], r); }
      if a == at { KeyOrder(r, t[b - 1], r); }
    }
  }

  /** std::sort leaves rules with equal keys in any order; callers rely on this contract alone. */
  method StdSort(w: seq<Rule>, ghost name: string) returns (t: seq<Rule>)
    requires Group(w, name)
    ensures multiset(t) == multiset(w) && Sorted(t)
  {
    hide KeyLess, Sorted;
    t := [];
    var n := 0;
    while n < |w|
      invariant n <= |w| && multiset(t) == multiset(w[..n]) && KeySorted(t)
    {
      var at := |t|;
      while at > 0 && KeyLess(w[n], t[at - 1])
        invariant 0 <= at <= |t|
        invariant forall b :: at <= b < |t| ==> KeyLess(w[n], t[b])
      {
        at := at - 1;
      }
      InsertionSorted(t, at, w[n]);
      t := Insert(t, at, w[n]);
      assert w[..n + 1] == w[..n] + [w[n]];
      n := n + 1;
    }
    assert w[..n] == w;
    SameRulesSameGroup(t, w, name);
    SortedIsKeySorted(t, name);
  }

  lemma SameRulesSameGroup(t: seq<Rule>, w: seq<Rule>, name: string)
    requires multiset(t) == multiset(w) && Group(w, name)
    ensures Group(t, name)
  {
    forall r | r in t
      ensures r in w
    {
      assert r in multiset(t);
    }
  }

  lemma StartsInOrder(g: seq<Rule>, i: nat, k: nat)
    requires i < k < |g| && KeySorted(g)
    ensures g[i].start <= g[k].start
  {
    assert !KeyLess(g[k], g[i]);
  }

  lemma NoOverlapNoCut(g: seq<Rule>, i: nat, k: nat)
    requires i < k < |g| && KeySorted(g) && g[i].start <= g[k].start && !Overlaps(g[i], g[k])
    ensures Scanned(g, i, k) ==> Scanned(g, i, k + 1)
  {
    assert !KeyLess(g[k], g[i]);
  }

  lemma ScanStarts(g: seq<Rule>, i: nat)
    ensures Scanned(g, i, i + 1)
  {
  }

  lemma ScanSettles(g: seq<Rule>, i: nat)
    requires Settled(g, i) && Scanned(g, i, |g|)
    ensures Settled(g, i + 1)
  {
  }

  lemma SameMeaningTrans(a: seq<Rule>, b: seq<Rule>, c: seq<Rule>)
    requires SameMeaning(a, b) && SameMeaning(b, c)
    ensures SameMeaning(a, c)
  {
  }

  lemma StepAssembled(s: seq<Rule>, lo: nat, i: nat, e: nat, t: seq<Rule>, e': nat)
    requires lo <= i <= e <= |s| && i <= e' <= |t| && t[..i] == s[..i]
    ensures t[..lo] == s[..lo] && t[lo..e'][..i - lo] == s[lo..e][..i - lo] && t[lo..e'][i - lo..] == t[i..e']
  {
    assert t[..lo] == t[..i][..lo] && s[..lo] == s[..i][..lo];
    assert t[lo..e'][..i - lo] == t[..i][lo..] && s[lo..e][..i - lo] == s[..i][lo..];
  }

  class RuleTable {
    var rules: seq<Rule>

    constructor (rs: seq<Rule>)
      ensures rules == rs
    {
      rules := rs;
    }

    /** Cuts rules i and k at each other's edges, inserting the extra pieces beside rule k. */
    method Split(i: nat, k: nat, e: nat) returns (e': nat)
      requires i < k < e <= |rules|
      requires rules[i].start <= rules[k].start && Overlaps(rules[i], rules[k])
      modifies this
      ensures rules == SplitResult(old(rules), i, k) && e' == e + |rules| - |old(rules)|
    {
      hide Insert, SplitResult, Overlaps;
      var k := k;
      e' := e;
      if rules[i].start == rules[k].start {
        if rules[k].end < rules[i].end {
          SameStartShortK(rules, i, k);
          rules := Insert(rules, k + 1, rules[i].(start := rules[k].end + 1));
          e' := e' + 1;
          rules := rules[i := rules[i].(end := rules[k].end)];
        } else {
          SameStartLongK(rules, i, k);
          rules := Insert(rules, k + 1, rules[k].(start := rules[i].end + 1));
          e' := e' + 1;
          rules := rules[k := rules[k].(end := rules[i].end)];
        }
      } else {
        if rules[k].end < rules[i].end {
          KInside(rules, i, k);
          rules := Insert(rules, k, rules[i].(start := rules[k].start, end := rules[k].end));
          k := k + 1;
          rules := Insert(rules, k + 1, rules[i].(start := rules[k].end + 1));
          rules := rules[i := rules[i].(end := rules[k].start - 1)];
          e' := e' + 2;
        } else if rules[k].end > rules[i].end {
          KPastEnd(rules, i, k);
          rules := Insert(rules, k, rules[i].(start := rules[k].start));
          k := k + 1;
          rules := Insert(rules, k + 1, rules[k].(start := rules[i].end + 1));
          e' := e' + 2;
          rules := rules[k := rules[k].(end := rules[i].end)];
          rules := rules[i := rules[i].(end := rules[k].start - 1)];
        } else {
          KSameEnd(rules, i, k);
          rules := Insert(rules, k, rules[i].(start := rules[k].start));
          k := k + 1;
          e' := e' + 1;
          rules := rules[i := rules[i].(end := rules[k].start - 1)];
        }
      }
    }

    /** std::sort on a window: some sorted arrangement of its rules. */
    method Sort(i: nat, e: nat, ghost name: string)
      requires i <= e <= |rules| && Group(rules[i..e], name)
      modifies this
      ensures |rules| == |old(rules)| && rules[..i] == old(rules[..i]) && rules[e..] == old(rules[e..])
      ensures multiset(rules[i..e]) == multiset(old(rules[i..e])) && Sorted(rules[i..e])
    {
      var sorted := StdSort(rules[i..e], name);
      ghost var w := rules[i..e];
      assert |multiset(w)| == |w| && |multiset(sorted)| == |sorted|;
      rules := rules[..i] + sorted + rules[e..];
    }

    /** The body of the inner loop's conditional: split rules i and k, sort from i on. */
    method SplitAndSort(lo: nat, i: nat, k: nat, e: nat, ghost name: string) returns (e': nat)
      requires lo <= i < k < e <= |rules| && Group(rules[lo..e], name)
      requires rules[i].start <= rules[k].start && Overlaps(rules[i], rules[k])
      modifies this
      ensures e < e' <= |rules| && rules[..lo] == old(rules[..lo]) && rules[e'..] == old(rules[e..])
      ensures Step(old(rules[lo..e]), i - lo, k - lo, rules[lo..e'])
    {
      hide Overlaps, SplitResult, Cut, Others, Sorted, KeyLess;
      ghost var s, g := rules, rules[lo..e];
      assert g[i - lo] == s[i] && g[k - lo] == s[k] && s[i] in g && s[k] in g;
      assert g[i - lo..] == s[i..e];
      assert Group(s[i..e], name);
      SplitWindow(s, i, k, e);
      e' := Split(i, k, e);
      SplitKeepsGroup(s[i..e], k - i, rules[i..e'], name);
      ghost var w := rules[i..e'];
      Sort(i, e', name);
      SameRulesSameGroup(rules[i..e'], w, name);
      SortedIsKeySorted(rules[i..e'], name);
      StepAssembled(s, lo, i, e, rules, e');
    }

    /** What both loops keep of the window [lo, e) of one name: g0 is the window at the start. */
    ghost predicate Loop(lo: nat, i: nat, e: nat, name: string, g0: seq<Rule>)
      reads this
    {
      && lo <= i && lo <= e <= |rules|
      && Group(rules[lo..e], name) && KeySorted(rules[lo..e]) && Settled(rules[lo..e], i - lo)
      && SameMeaning(g0, rules[lo..e]) && Slack(rules[lo..e]) >= 0
    }

    /** The inner loop: e grows as rules are split, and k is not reset when the window is sorted again. */
    method ScanRule(lo: nat, i: nat, e0: nat, ghost name: string, ghost g0: seq<Rule>) returns (e: nat)
      requires Loop(lo, i, e0, name, g0) && i + 1 < e0
      modifies this
      ensures Loop(lo, i + 1, e, name, g0) && e0 <= e
      ensures rules[..lo] == old(rules[..lo]) && rules[e..] == old(rules[e0..])
      ensures Slack(rules[lo..e]) < old(Slack(rules[lo..e0])) || (Slack(rules[lo..e]) == old(Slack(rules[lo..e0])) && e == e0)
    {
      hide KeySorted, Overlaps, InForce, Slack, Settled, Scanned, Step, SameMeaning;
      e := e0;
      var k := i + 1;
      ScanStarts(rules[lo..e], i - lo);
      while k < e
        invariant i < k <= e && e0 <= e && Loop(lo, i, e, name, g0) && Scanned(rules[lo..e], i - lo, k - lo)
        invariant rules[..lo] == old(rules[..lo]) && rules[e..] == old(rules[e0..])
        invariant Slack(rules[lo..e]) < old(Slack(rules[lo..e0]))
                  || (Slack(rules[lo..e]) == old(Slack(rules[lo..e0])) && e == e0)
        decreases Slack(rules[lo..e]), e - k
      {
        ghost var g := rules[lo..e];
        assert g[i - lo] == rules[i] && g[k - lo] == rules[k];
        StartsInOrder(g, i - lo, k - lo);
        if Overlaps(rules[i], rules[k]) {
          e := SplitAndSort(lo, i, k, e, name);
          StepSettled(g, i - lo, k - lo, rules[lo..e], name);
          StepScanned(g, i - lo, k - lo, rules[lo..e], name);
          StepMeaning(g, i - lo, k - lo, rules[lo..e], name);
          SameMeaningTrans(g0, g, rules[lo..e]);
          SlackNonNegative(rules[lo..e], name);
        } else {
          NoOverlapNoCut(g, i - lo, k - lo);
        }
        k := k + 1;
      }
      ScanSettles(rules[lo..e], i - lo);
    }

    /** The outer loop: any window of one name, sorted and with no range running backwards, ends in
        normal form, still sorted, and with the same effects in force in every year. */
    method SplitAll(lo: nat, e0: nat, ghost name: string) returns (e: nat)
      requires lo <= e0 <= |rules| && Group(rules[lo..e0], name) && Sorted(rules[lo..e0])
      modifies this
      ensures e0 <= e <= |rules| && rules[..lo] == old(rules[..lo]) && rules[e..] == old(rules[e0..])
      ensures Group(rules[lo..e], name) && Sorted(rules[lo..e]) && NormalForm(rules[lo..e])
      ensures SameMeaning(old(rules[lo..e0]), rules[lo..e])
    {
      hide KeyLess, Sorted, InForce, Slack, NoCut, NormalForm;
      e := e0;
      var i := lo;
      ghost var g0 := rules[lo..e];
      SortedIsKeySorted(g0, name);
      SlackNonNegative(g0, name);
      while i + 1 < e
        invariant lo <= i && Loop(lo, i, e, name, g0) && e0 <= e && (i < e || (i == lo && e == lo))
        invariant rules[..lo] == old(rules[..lo]) && rules[e..] == old(rules[e0..])
        decreases Slack(rules[lo..e]), e - i
      {
        e := ScanRule(lo, i, e, name, g0);
        i := i + 1;
      }
      SettledIsNormal(rules[lo..e], name);
      SortedIsKeySorted(rules[lo..e], name);
    }

    /** split_overlaps on the window of one name: the loops above, then single-year rules get the
        date their weekday pattern resolves to. */
    method SplitOverlaps(i: nat, e0: nat, ghost name: string) returns (e: nat, ghost split: seq<Rule>)
      requires i <= e0 <= |rules| && Group(rules[i..e0], name) && Sorted(rules[i..e0])
      modifies this
      ensures e0 <= e <= |rules| && rules[..i] == old(rules[..i]) && rules[e..] == old(rules[e0..])
      ensures Group(split, name) && Sorted(split) && NormalForm(split) && SameMeaning(old(rules[i..e0]), split)
      ensures |split| == e - i && rules[i..e] == seq(e - i, n requires 0 <= n < |split| => Frozen(split[n]))
      ensures NormalForm(rules[i..e])
    {
      hide KeyLess, Sorted, InForce, NormalForm, MonthDayTime.Canonicalize;
      e := SplitAll(i, e0, name);
      split := rules[i..e];
      ghost var after := rules[e..];
      var j := i;
      while j < e
        invariant i <= j <= e <= |rules| && e - i == |split|
        invariant rules[..i] == old(rules[..i]) && rules[e..] == after
        invariant forall n :: i <= n < j ==> rules[n] == Frozen(split[n - i])
        invariant forall n :: j <= n < e ==> rules[n] == split[n - i]
      {
        if rules[j].start == rules[j].end {
          rules := rules[j := rules[j].(at := rules[j].at.Canonicalize(rules[j].start))];
        }
        j := j + 1;
      }
      FrozenNormal(split, rules[i..e]);
    }
  }

  lemma FrozenNormal(s: seq<Rule>, t: seq<Rule>)
    requires NormalForm(s) && |t| == |s| && forall n :: 0 <= n < |s| ==> t[n] == Frozen(s[n])
    ensures NormalForm(t)
  {
    hide MonthDayTime.Canonicalize;
    forall a, b | 0 <= a < b < |s|
      ensures SameRange(t[a], t[b]) || t[a].end < t[b].start
    {
      assert SameRange(s[a], s[b]) || s[a].end < s[b].start;
    }
  }

  /** A single-year rule with its date resolved; other rules as they are. */
  function Frozen(r: Rule): Rule
  {
    if r.start == r.end then r.(at := r.at.Canonicalize(r.start)) else r
  }

  /** A rule on the days of a year: when it starts, and what it does. */
  datatype Occasion = Occasion(day: int, seconds: int, zone: Zone, save: int, abbrev: string)

  function OccasionIn(r: Rule, year: int): Occasion
  {
    Occasion(r.at.ToSysDays(year), r.at.seconds, r.at.zone, r.save, r.abbrev)
  }

  /** The occasions of a year, in the order of the table. */
  function Occasions(s: seq<Rule>, year: int): seq<Occasion>
  {
    if s == [] then []
    else (if s[0].start <= year <= s[0].end then [OccasionIn(s[0], year)] else []) + Occasions(s[1..], year)
  }

  /** A single-year rule given by a weekday falls in its year. */
  predicate FallsInItsYear(r: Rule)
  {
    r.start == r.end && !r.at.pattern.MonthDay? ==> Calendar.CivilOf(r.at.ToSysDays(r.start)).year == r.start
  }

  predicate Keeps(r: Rule, year: int) { OccasionIn(Frozen(r), year) == OccasionIn(r, year) }

  lemma FrozenOccasion(r: Rule)
    ensures (forall year :: r.start <= year <= r.end ==> Keeps(r, year)) <==> FallsInItsYear(r)
  {
    hide MonthDayTime.ToSysDays, Calendar.CivilOf;
    if r.start == r.end && !r.at.pattern.MonthDay? {
      CanonicalizeKeepsDay(r.at, r.start);
      assert Keeps(r, r.start) <==> FallsInItsYear(r);
    }
  }

  lemma {:induction false} SameOccasions(s: seq<Rule>, t: seq<Rule>, year: int)
    requires |t| == |s| && forall n :: 0 <= n < |s| ==> t[n] == Frozen(s[n])
    ensures Occasions(s, year) == Occasions(t, year) <==>
            forall r :: r in s && r.start <= year <= r.end ==> Keeps(r, year)
  {
    if s != [] {
      hide OccasionIn, Frozen;
      var r, rest, restT := s[0], Occasions(s[1..], year), Occasions(t[1..], year);
      SameOccasions(s[1..], t[1..], year);
      assert t[0] == Frozen(r) && t[0].start == r.start && t[0].end == r.end by { FrozenRange(r); }
      assert forall x :: x in s <==> x == r || x in s[1..];
      if r.start <= year <= r.end {
        assert Occasions(s, year)[1..] == rest && Occasions(t, year)[1..] == restT;
      } else {
        assert Occasions(s, year) == rest && Occasions(t, year) == restT;
      }
    }
  }

  lemma FrozenRange(r: Rule)
    ensures Frozen(r).start == r.start && Frozen(r).end == r.end
  {
  }

  ghost predicate SameEveryYear(s: seq<Rule>, t: seq<Rule>) { forall year :: Occasions(s, year) == Occasions(t, year) }

  ghost predicate AllFall(s: seq<Rule>) { forall r :: r in s ==> FallsInItsYear(r) }

  lemma SameMeansFall(s: seq<Rule>, t: seq<Rule>, r: Rule)
    requires |t| == |s| && (forall n :: 0 <= n < |s| ==> t[n] == Frozen(s[n])) && SameEveryYear(s, t) && r in s
    ensures FallsInItsYear(r)
  {
    hide Occasions, OccasionIn, FallsInItsYear, Frozen, Keeps;
    forall year | r.start <= year <= r.end
      ensures Keeps(r, year)
    {
      assert Occasions(s, year) == Occasions(t, year);
      SameOccasions(s, t, year);
    }
    FrozenOccasion(r);
  }

  lemma FallMeansSame(s: seq<Rule>, t: seq<Rule>, year: int)
    requires |t| == |s| && (forall n :: 0 <= n < |s| ==> t[n] == Frozen(s[n])) && AllFall(s)
    ensures Occasions(s, year) == Occasions(t, year)
  {
    hide Occasions, OccasionIn, FallsInItsYear, Frozen, Keeps;
    forall r | r in s && r.start <= year <= r.end
      ensures Keeps(r, year)
    {
      FrozenOccasion(r);
    }
    SameOccasions(s, t, year);
  }

  /** Resolving the single-year rules keeps every occasion of every year exactly when each of them falls in its
      year. */
  lemma FrozenMeaning(s: seq<Rule>, t: seq<Rule>)
    requires |t| == |s| && forall n :: 0 <= n < |s| ==> t[n] == Frozen(s[n])
    ensures SameEveryYear(s, t) <==> AllFall(s)
  {
    hide Occasions, FallsInItsYear, Frozen;
    if SameEveryYear(s, t) {
      forall r | r in s ensures FallsInItsYear(r) { SameMeansFall(s, t, r); }
    }
    if AllFall(s) {
      forall year ensures Occasions(s, year) == Occasions(t, year) { FallMeansSame(s, t, year); }
    }
  }
}
