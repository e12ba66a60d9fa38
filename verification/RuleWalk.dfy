/** Walking a normal-form rule table through time: the rule in force after, or before, a given rule
    in a given year. */
module RuleWalk {
  import opened RuleSplit

  /** A rule and one of its years; find_next_rule answers Null after the last of them. */
  datatype Cursor = Null(year: int) | At(rule: nat, year: int)

  const YEAR_MAX := 32767

  /** Rules [first, last) are all the rules of one name, in normal form. */
  ghost predicate Block(rules: seq<Rule>, first: nat, last: nat)
  {
    && first < last <= |rules|
    && (forall a :: first <= a < last ==> rules[a].name == rules[first].name && rules[a].start <= rules[a].end)
    && (forall a, b :: first <= a < b < last ==> SameRange(rules[a], rules[b]) || rules[a].end < rules[b].start)
    && (first > 0 ==> rules[first - 1].name != rules[first].name)
    && (last < |rules| ==> rules[last].name != rules[first].name)
  }

  /** What split_overlaps establishes for the rules of a name makes them a block. */
  lemma NormalFormIsBlock(rules: seq<Rule>, first: nat, last: nat, name: string)
    requires first < last <= |rules| && Group(rules[first..last], name) && NormalForm(rules[first..last])
    requires first > 0 ==> rules[first - 1].name != name
    requires last < |rules| ==> rules[last].name != name
    ensures Block(rules, first, last)
  {
    var g := rules[first..last];
    forall a | first <= a < last
      ensures rules[a].name == name && rules[a].start <= rules[a].end
    {
      assert g[a - first] == rules[a] && g[a - first] in g;
    }
    forall a, b | first <= a < b < last
      ensures SameRange(rules[a], rules[b]) || rules[a].end < rules[b].start
    {
      assert g[a - first] == rules[a] && g[b - first] == rules[b];
    }
  }

  /** Cursor p is a rule of the block and one of its years. */
  ghost predicate Occurs(rules: seq<Rule>, first: nat, last: nat, p: Cursor)
  {
    p.At? && first <= p.rule < last <= |rules| && rules[p.rule].start <= p.year <= rules[p.rule].end
  }

  /** Chronological order: by year, and within a year by place in the table. */
  predicate Before(p: Cursor, q: Cursor)
  {
    p.At? && q.At? && (p.year < q.year || (p.year == q.year && p.rule < q.rule))
  }

  /** Nothing occurs between p and q. */
  ghost predicate Adjacent(rules: seq<Rule>, first: nat, last: nat, p: Cursor, q: Cursor)
  {
    && Occurs(rules, first, last, p) && Occurs(rules, first, last, q) && Before(p, q)
    && forall m :: Occurs(rules, first, last, m) ==> !(Before(p, m) && Before(m, q))
  }

  ghost predicate Final(rules: seq<Rule>, first: nat, last: nat, p: Cursor)
  {
    Occurs(rules, first, last, p) && forall m :: Occurs(rules, first, last, m) ==> !Before(p, m)
  }

  ghost predicate Initial(rules: seq<Rule>, first: nat, last: nat, p: Cursor)
  {
    Occurs(rules, first, last, p) && forall m :: Occurs(rules, first, last, m) ==> !Before(m, p)
  }

  /** The chronologically next rule, or Null after the last. */
  ghost predicate IsNext(rules: seq<Rule>, first: nat, last: nat, p: Cursor, q: Cursor)
  {
    if q.Null? then q.year == YEAR_MAX && Final(rules, first, last, p) else Adjacent(rules, first, last, p, q)
  }

  lemma NextYearOfOther(rules: seq<Rule>, first: nat, last: nat, r: nat, y: int)
    requires Block(rules, first, last) && Occurs(rules, first, last, At(r, y)) && y == rules[r].end
    ensures IsNext(rules, first, last, At(r, y),
                   if r == last - 1 then Null(YEAR_MAX)
                   else At(r + 1, if y == rules[r + 1].end then y else rules[r + 1].start))
  {
  }

  lemma NextYearOfRange(rules: seq<Rule>, first: nat, last: nat, r: nat, y: int, a: nat)
    requires Block(rules, first, last) && Occurs(rules, first, last, At(r, y)) && y < rules[r].end
    requires r == last - 1 || rules[r].end < rules[r + 1].end
    requires first <= a <= r && SameRange(rules[a], rules[r]) && (a == first || rules[a].start != rules[a - 1].start)
    ensures IsNext(rules, first, last, At(r, y), At(a, y + 1))
  {
  }

  lemma NextInYear(rules: seq<Rule>, first: nat, last: nat, r: nat, y: int)
    requires Block(rules, first, last) && Occurs(rules, first, last, At(r, y)) && y < rules[r].end
    requires r < last - 1 && rules[r].end >= rules[r + 1].end
    ensures IsNext(rules, first, last, At(r, y), At(r + 1, y))
  {
  }

  lemma NextExists(rules: seq<Rule>, first: nat, last: nat, r: nat, y: int) returns (q: Cursor)
    requires Block(rules, first, last) && Occurs(rules, first, last, At(r, y))
    ensures IsNext(rules, first, last, At(r, y), q)
  {
    if y == rules[r].end {
      NextYearOfOther(rules, first, last, r, y);
      q := if r == last - 1 then Null(YEAR_MAX) else At(r + 1, if y == rules[r + 1].end then y else rules[r + 1].start);
    } else if r == last - 1 || rules[r].end < rules[r + 1].end {
      var a := r;
      while a > first && rules[a].start == rules[a - 1].start
        invariant first <= a <= r && SameRange(rules[a], rules[r])
      {
        a := a - 1;
      }
      NextYearOfRange(rules, first, last, r, y, a);
      q := At(a, y + 1);
    } else {
      NextInYear(rules, first, last, r, y);
      q := At(r + 1, y);
    }
  }

  /** find_next_rule on an explicit range. */
  method FindNextRule(rules: seq<Rule>, first: nat, last: nat, r0: nat, y: int) returns (q: Cursor)
    requires Block(rules, first, last) && Occurs(rules, first, last, At(r0, y))
    ensures IsNext(rules, first, last, At(r0, y), q)
  {
    hide IsNext;
    var r := r0;
    if y == rules[r].end {
      NextYearOfOther(rules, first, last, r, y);
      if r == last - 1 {
        return Null(YEAR_MAX);
      }
      r := r + 1;
      if y == rules[r].end {
        return At(r, y);
      }
      return At(r, rules[r].start);
    }
    if r == last - 1 || rules[r].end < rules[r + 1].end {
      while r > first && rules[r].start == rules[r - 1].start
        invariant first <= r <= r0
        invariant SameRange(rules[r], rules[r0])
      {
        r := r - 1;
      }
      NextYearOfRange(rules, first, last, r0, y, r);
      return At(r, y + 1);
    }
    NextInYear(rules, first, last, r, y);
    r := r + 1;
    return At(r, y);
  }

  /** find_next_rule on the whole table, which finds the edges of the block by name. */
  method FindNextInTable(rules: seq<Rule>, ghost first: nat, ghost last: nat, r0: nat, y: int) returns (q: Cursor)
    requires Block(rules, first, last) && Occurs(rules, first, last, At(r0, y))
    ensures IsNext(rules, first, last, At(r0, y), q)
  {
    hide IsNext;
    var r := r0;
    assert r == |rules| - 1 || rules[r].name != rules[r + 1].name <==> r == last - 1;
    if y == rules[r].end {
      NextYearOfOther(rules, first, last, r, y);
      if r == |rules| - 1 || rules[r].name != rules[r + 1].name {
        return Null(YEAR_MAX);
      }
      r := r + 1;
      if y == rules[r].end {
        return At(r, y);
      }
      return At(r, rules[r].start);
    }
    if r == |rules| - 1 || rules[r].name != rules[r + 1].name || rules[r].end < rules[r + 1].end {
      while r > 0 && rules[r].name == rules[r - 1].name && rules[r].start == rules[r - 1].start
        invariant first <= r <= r0
        invariant SameRange(rules[r], rules[r0])
      {
        r := r - 1;
      }
      NextYearOfRange(rules, first, last, r0, y, r);
      return At(r, y + 1);
    }
    NextInYear(rules, first, last, r, y);
    r := r + 1;
    return At(r, y);
  }

  lemma PreviousYearOfOther(rules: seq<Rule>, first: nat, last: nat, r: nat, y: int)
    requires Block(rules, first, last) && Occurs(rules, first, last, At(r, y)) && y == rules[r].start && r > first
    ensures Adjacent(rules, first, last, At(r - 1, if y == rules[r - 1].start then y else rules[r - 1].end), At(r, y))
  {
  }

  lemma PreviousYearOfRange(rules: seq<Rule>, first: nat, last: nat, r: nat, y: int, b: nat)
    requires Block(rules, first, last) && Occurs(rules, first, last, At(r, y)) && y > rules[r].start
    requires r == first || rules[r - 1].start < rules[r].start
    requires r <= b < last && SameRange(rules[b], rules[r]) && (b == last - 1 || rules[b].start != rules[b + 1].start)
    ensures Adjacent(rules, first, last, At(b, y - 1), At(r, y))
  {
  }

  lemma PreviousInYear(rules: seq<Rule>, first: nat, last: nat, r: nat, y: int)
    requires Block(rules, first, last) && Occurs(rules, first, last, At(r, y)) && y > rules[r].start
    requires r > first && rules[r - 1].start >= rules[r].start
    ensures Adjacent(rules, first, last, At(r - 1, y), At(r, y))
  {
  }

  /** find_previous_rule; it ends the program when asked for the rule before the first. */
  method FindPreviousRule(rules: seq<Rule>, ghost first: nat, ghost last: nat, r0: nat, y: int) returns (q: Cursor)
    requires Block(rules, first, last) && Occurs(rules, first, last, At(r0, y))
    requires !(r0 == first && y == rules[first].start)
    ensures Adjacent(rules, first, last, q, At(r0, y))
  {
    hide Adjacent;
    var r := r0;
    assert r == 0 || rules[r].name != rules[r - 1].name <==> r == first;
    if y == rules[r].start {
      PreviousYearOfOther(rules, first, last, r, y);
      r := r - 1;
      if y == rules[r].start {
        return At(r, y);
      }
      return At(r, rules[r].end);
    }
    if r == 0 || rules[r].name != rules[r - 1].name || rules[r - 1].start < rules[r].start {
      while r < |rules| - 1 && rules[r].name == rules[r + 1].name && rules[r].start == rules[r + 1].start
        invariant r0 <= r < last
        invariant SameRange(rules[r], rules[r0])
      {
        r := r + 1;
      }
      PreviousYearOfRange(rules, first, last, r0, y, r);
      return At(r, y - 1);
    }
    PreviousInYear(rules, first, last, r, y);
    r := r - 1;
    return At(r, y);
  }

  /** The only cursor without a predecessor is the first rule's first year. */
  lemma FirstIsInitial(rules: seq<Rule>, first: nat, last: nat, p: Cursor)
    requires Block(rules, first, last) && Occurs(rules, first, last, p)
    ensures Initial(rules, first, last, p) <==> p == At(first, rules[first].start)
  {
    var f := At(first, rules[first].start);
    assert Occurs(rules, first, last, f);
    if p != f { assert Before(f, p); }
  }

  /** The next of the previous, and the previous of the next, are where one started. */
  lemma NextAndPreviousAreInverse(rules: seq<Rule>, first: nat, last: nat, p: Cursor, q: Cursor, r: Cursor)
    requires Adjacent(rules, first, last, p, q)
    ensures Adjacent(rules, first, last, p, r) ==> r == q
    ensures Adjacent(rules, first, last, r, q) ==> r == p
  {
  }

  /** A run of find_next_rule from the first rule's first year to Null. */
  ghost predicate FullWalk(rules: seq<Rule>, first: nat, last: nat, ps: seq<Cursor>)
    requires first < |rules|
  {
    && ps != [] && ps[0] == At(first, rules[first].start)
    && (forall i :: 1 <= i < |ps| ==> ps[i].At? && IsNext(rules, first, last, ps[i - 1], ps[i]))
    && IsNext(rules, first, last, ps[|ps| - 1], Null(YEAR_MAX))
  }

  lemma {:induction false} WalkOrdered(rules: seq<Rule>, first: nat, last: nat, ps: seq<Cursor>, i: nat, j: nat)
    requires first < |rules| && FullWalk(rules, first, last, ps) && i < j < |ps|
    ensures Before(ps[i], ps[j])
    decreases j
  {
    assert IsNext(rules, first, last, ps[j - 1], ps[j]);
    if i < j - 1 { WalkOrdered(rules, first, last, ps, i, j - 1); }
  }

  /** A full walk visits every year of every rule exactly once, in chronological order. */
  lemma WalkVisitsAll(rules: seq<Rule>, first: nat, last: nat, ps: seq<Cursor>)
    requires Block(rules, first, last) && FullWalk(rules, first, last, ps)
    ensures forall i, j :: 0 <= i < j < |ps| ==> Before(ps[i], ps[j])
    ensures forall p :: Occurs(rules, first, last, p) <==> p in ps
  {
    forall i, j | 0 <= i < j < |ps| ensures Before(ps[i], ps[j]) {
      WalkOrdered(rules, first, last, ps, i, j);
    }
    forall i | 0 <= i < |ps| ensures Occurs(rules, first, last, ps[i]) {
      if i < |ps| - 1 { assert IsNext(rules, first, last, ps[i], ps[i + 1]); }
    }
    forall p | Occurs(rules, first, last, p) ensures p in ps {
      FirstIsInitial(rules, first, last, ps[0]);
      var n := WalkFinds(rules, first, last, ps, p, |ps|);
    }
  }

  lemma {:induction false} WalkFinds(rules: seq<Rule>, first: nat, last: nat, ps: seq<Cursor>, p: Cursor, bound: nat)
      returns (n: nat)
    requires Block(rules, first, last) && FullWalk(rules, first, last, ps) && Occurs(rules, first, last, p)
    requires 0 < bound <= |ps| && (bound < |ps| ==> Before(p, ps[bound]))
    requires Initial(rules, first, last, ps[0])
    ensures n < |ps| && ps[n] == p
    decreases bound
  {
    n := bound - 1;
    if bound < |ps| { assert IsNext(rules, first, last, ps[n], ps[bound]); }
    if ps[n] != p {
      assert Occurs(rules, first, last, ps[n]);
      assert Before(p, ps[n]);
      n := WalkFinds(rules, first, last, ps, p, n);
    }
  }

  // ---- walks exist

  /** ps are the occurrences from cursor a to cursor b; none when a is Null. */
  ghost predicate Span(rules: seq<Rule>, first: nat, last: nat, a: Cursor, b: Cursor, ps: seq<Cursor>)
  {
    && (forall i :: 0 <= i < |ps| ==> Occurs(rules, first, last, ps[i]))
    && (forall i :: 1 <= i < |ps| ==> Adjacent(rules, first, last, ps[i - 1], ps[i]))
    && (if a.Null? then ps == [] else ps != [] && ps[0] == a && ps[|ps| - 1] == b)
  }

  /** Any two occurrences of a block, in order, are the ends of a span. */
  lemma {:induction false} SpanExists(rules: seq<Rule>, first: nat, last: nat, a: Cursor, b: Cursor) returns (ps: seq<Cursor>)
    requires Block(rules, first, last) && Occurs(rules, first, last, a) && Occurs(rules, first, last, b)
    requires a == b || Before(a, b)
    ensures Span(rules, first, last, a, b, ps)
    decreases b.year - a.year, last - a.rule
  {
    if a == b {
      ps := [a];
    } else {
      var q := NextExists(rules, first, last, a.rule, a.year);
      assert Occurs(rules, first, last, q) && (q == b || Before(q, b));
      var rest := SpanExists(rules, first, last, q, b);
      ps := [a] + rest;
      assert forall i :: 1 <= i < |ps| ==> ps[i] == rest[i - 1];
    }
  }

  /** The walk from the first rule's first year does reach Null: every block has a full walk. */
  lemma FullWalkExists(rules: seq<Rule>, first: nat, last: nat) returns (ps: seq<Cursor>)
    requires Block(rules, first, last)
    ensures FullWalk(rules, first, last, ps)
  {
    var a, b := At(first, rules[first].start), At(last - 1, rules[last - 1].end);
    assert Occurs(rules, first, last, a) && Occurs(rules, first, last, b);
    FirstIsInitial(rules, first, last, a);
    NextYearOfOther(rules, first, last, last - 1, rules[last - 1].end);
    ps := SpanExists(rules, first, last, a, b);
    forall i | 1 <= i < |ps|
      ensures ps[i].At? && IsNext(rules, first, last, ps[i - 1], ps[i])
    {
      assert Adjacent(rules, first, last, ps[i - 1], ps[i]);
    }
  }
}
