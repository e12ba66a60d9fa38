/** What is saved for a symbol once all its bars are there. */
module HistBars {
  /** A bar; its time is a key in the order of the time strings. */
  datatype Bar = Bar(time: int, row: string)

  ghost predicate Ascending(s: seq<Bar>) { forall i, j :: 0 <= i < j < |s| ==> s[i].time <= s[j].time }

  ghost predicate StrictlyAscending(s: seq<Bar>) { forall i, j :: 0 <= i < j < |s| ==> s[i].time < s[j].time }

  ghost predicate PartOf(a: seq<Bar>, b: seq<Bar>) { multiset(a) <= multiset(b) }

  ghost function TimesOf(s: seq<Bar>): set<int> { set x | x in s :: x.time }

  lemma TimesAppend(s: seq<Bar>, x: Bar)
    ensures TimesOf(s + [x]) == TimesOf(s) + {x.time}
  {
    assert forall y :: y in s + [x] <==> y in s || y == x;
  }

  function Insert(t: seq<Bar>, at: nat, x: Bar): (u: seq<Bar>)
    requires at <= |t|
    ensures |u| == |t| + 1 && forall b :: 0 <= b <= |t| ==> u[b] == if b < at then t[b] else if b == at then x else t[b - 1]
  {
    t[..at] + [x] + t[at..]
  }

  ghost predicate SameBars(a: seq<Bar>, b: seq<Bar>) { multiset(a) == multiset(b) }

  lemma SameBarsMeans(a: seq<Bar>, b: seq<Bar>)
    requires SameBars(a, b)
    ensures multiset(a) == multiset(b)
  {
  }

  lemma InsertAdds(t: seq<Bar>, data: seq<Bar>, n: nat, at: nat)
    requires at <= |t| && n < |data| && SameBars(t, data[..n])
    ensures SameBars(Insert(t, at, data[n]), data[..n + 1])
  {
    assert t == t[..at] + t[at..];
    assert data[..n + 1] == data[..n] + [data[n]];
  }

  lemma InsertKeeps(t: seq<Bar>, at: nat, x: Bar)
    requires Ascending(t) && at <= |t| && (at > 0 ==> t[at - 1].time <= x.time)
    requires forall b :: at <= b < |t| ==> x.time < t[b].time
    ensures Ascending(Insert(t, at, x))
  {
    var u := Insert(t, at, x);
    forall a, b | 0 <= a < b < |t| + 1
      ensures u[a].time <= u[b].time
    {
      if a < at == b { assert t[a].time <= t[at - 1].time; }
    }
  }

  /** A sort with std::sort's promise. */
  method SortBars(data: seq<Bar>) returns (t: seq<Bar>)
    ensures multiset(t) == multiset(data) && Ascending(t)
  {
    hide Ascending, SameBars, Insert;
    t := [];
    NoRows();
    for n := 0 to |data|
      invariant SameBars(t, data[..n]) && Ascending(t)
    {
      var at := |t|;
      while at > 0 && data[n].time < t[at - 1].time
        invariant 0 <= at <= |t|
        invariant forall b :: at <= b < |t| ==> data[n].time < t[b].time
      {
        at := at - 1;
      }
      InsertKeeps(t, at, data[n]);
      InsertAdds(t, data, n, at);
      t := Insert(t, at, data[n]);
    }
    assert data[..|data|] == data;
    SameBarsMeans(t, data);
  }

  lemma UniqueKeeps(rows: seq<Bar>, before: seq<Bar>, x: Bar)
    requires StrictlyAscending(rows) && PartOf(rows, before) && TimesOf(rows) == TimesOf(before)
    requires rows != [] ==> rows[|rows| - 1].time <= x.time
    ensures var now := if rows == [] || rows[|rows| - 1].time != x.time then rows + [x] else rows;
            StrictlyAscending(now) && PartOf(now, before + [x]) && TimesOf(now) == TimesOf(before + [x])
  {
    TimesAppend(before, x);
    TimesAppend(rows, x);
    if rows != [] { assert rows[|rows| - 1].time in TimesOf(rows); }
    hide TimesOf;
  }

  lemma Neighbours(t: seq<Bar>, n: nat)
    requires Ascending(t) && n < |t|
    ensures n > 0 ==> t[n - 1].time <= t[n].time
  {
  }

  /** std::unique: of neighbours with the same time the first one stays. */
  method UniqueBars(t: seq<Bar>) returns (rows: seq<Bar>)
    requires Ascending(t)
    ensures StrictlyAscending(rows) && TimesOf(rows) == TimesOf(t) && PartOf(rows, t)
  {
    hide TimesOf, StrictlyAscending, Ascending, PartOf;
    rows := [];
    NoRows();
    for n := 0 to |t|
      invariant StrictlyAscending(rows) && TimesOf(rows) == TimesOf(t[..n]) && PartOf(rows, t[..n])
      invariant if n == 0 then rows == [] else rows != [] && rows[|rows| - 1].time == t[n - 1].time
    {
      assert t[..n + 1] == t[..n] + [t[n]];
      Neighbours(t, n);
      UniqueKeeps(rows, t[..n], t[n]);
      if rows == [] || rows[|rows| - 1].time != t[n].time {
        rows := rows + [t[n]];
      }
    }
    assert t[..|t|] == t;
  }

  lemma NoRows()
    ensures Ascending([]) && StrictlyAscending([]) && PartOf([], []) && SameBars([], [])
  {
  }

  method MergeBars(data: seq<Bar>) returns (rows: seq<Bar>)
    ensures StrictlyAscending(rows) && TimesOf(rows) == TimesOf(data) && PartOf(rows, data)
  {
    var t := SortBars(data);
    SameTimes(t, data);
    rows := UniqueBars(t);
  }

  lemma SameTimes(a: seq<Bar>, b: seq<Bar>)
    requires multiset(a) == multiset(b)
    ensures TimesOf(a) == TimesOf(b)
  {
    assert forall x :: x in a <==> x in multiset(a);
    assert forall x :: x in b <==> x in multiset(b);
  }

  /** There is one ascending list of some bars. */
  lemma {:induction false} MergedRowsUnique(a: seq<Bar>, b: seq<Bar>)
    requires StrictlyAscending(a) && StrictlyAscending(b) && forall x :: x in a <==> x in b
    ensures a == b
    decreases |a|
  {
    if a != [] {
      assert a[0] in b;
    }
    if b != [] {
      SameHead(a, b);
      MergedRowsUnique(a[1..], b[1..]);
      assert a == [a[0]] + a[1..] && b == [b[0]] + b[1..];
    }
  }

  lemma SameHead(a: seq<Bar>, b: seq<Bar>)
    requires StrictlyAscending(a) && StrictlyAscending(b) && b != [] && forall x :: x in a <==> x in b
    ensures a != [] && a[0] == b[0]
    ensures StrictlyAscending(a[1..]) && StrictlyAscending(b[1..]) && forall x :: x in a[1..] <==> x in b[1..]
  {
    assert b[0] in a && a[0] in b;
    RestIn(a);
    RestIn(b);
  }

  lemma RestIn(a: seq<Bar>)
    requires StrictlyAscending(a) && a != []
    ensures StrictlyAscending(a[1..]) && forall x :: x in a[1..] <==> x in a && x != a[0]
  {
    forall x
      ensures x in a[1..] <==> x in a && x != a[0]
    {
      if x in a && x != a[0] {
        var i :| 0 <= i < |a| && a[i] == x;
        assert a[1..][i - 1] == x;
      }
    }
  }

  lemma MergedElements(rows: seq<Bar>, data: seq<Bar>)
    requires PartOf(rows, data) && TimesOf(rows) == TimesOf(data)
    requires forall x, y :: x in data && y in data && x.time == y.time ==> x == y
    ensures forall x :: x in rows <==> x in data
  {
    forall x
      ensures x in rows <==> x in data
    {
      assert x in rows <==> x in multiset(rows);
      assert x in data <==> x in multiset(data);
      if x in data {
        assert x.time in TimesOf(rows);
        var y :| y in rows && y.time == x.time;
        assert y in multiset(rows) && y in multiset(data);
      }
    }
  }

  /** What is saved does not depend on the order of arrival, nor on repeated bars, nor on the sort: two merges of
      the same bars are the same, when bars of one time are one bar. */
  lemma ArrivalOrderPlaysNoPart(data: seq<Bar>, other: seq<Bar>, rows: seq<Bar>, otherRows: seq<Bar>)
    requires forall x, y :: x in data && y in data && x.time == y.time ==> x == y
    requires forall x :: x in data <==> x in other
    requires StrictlyAscending(rows) && TimesOf(rows) == TimesOf(data) && PartOf(rows, data)
    requires StrictlyAscending(otherRows) && TimesOf(otherRows) == TimesOf(other) && PartOf(otherRows, other)
    ensures rows == otherRows
  {
    hide TimesOf, PartOf, StrictlyAscending;
    MergedElements(rows, data);
    MergedElements(otherRows, other);
    MergedRowsUnique(rows, otherRows);
  }
}
