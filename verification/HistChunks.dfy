/** Cutting a time range into requests for historical data. Times are seconds. */
module HistChunks {
  const DAY := 86400

  datatype Duration = Days(n: int) | Seconds(n: int)

  /** A request names the end of its stretch and its length. */
  datatype Chunk = Chunk(end: int, dur: Duration)

  function Length(d: Duration): int
  {
    match d
    case Days(n) => n * DAY
    case Seconds(n) => n
  }

  function Begin(c: Chunk): int { c.end - Length(c.dur) }

  /** The chunks cover [start, end) without gap or overlap. */
  ghost predicate Tiles(cs: seq<Chunk>, start: int, end: int)
  {
    && (if start >= end then cs == [] else cs != [] && Begin(cs[0]) == start && cs[|cs| - 1].end == end)
    && forall i :: 1 <= i < |cs| ==> Begin(cs[i]) == cs[i - 1].end
  }

  /** Full chunks come first; then at most one of fewer whole days, and at most one of seconds. */
  ghost predicate ShapedAt(cs: seq<Chunk>, i: int, days: int)
    requires 0 <= i < |cs|
  {
    match cs[i].dur
    case Days(n) => 1 <= n <= days && (n < days ==> i + 1 == |cs| || cs[i + 1].dur.Seconds?)
    case Seconds(n) => 0 < n < DAY && i + 1 == |cs|
  }

  ghost predicate Shaped(cs: seq<Chunk>, days: int) { forall i :: 0 <= i < |cs| ==> ShapedAt(cs, i, days) }

  method GenerateRequests(start: int, end: int, days: int) returns (cs: seq<Chunk>)
    requires days >= 1
    ensures Tiles(cs, start, end) && Shaped(cs, days)
    ensures start < end ==> (cs[|cs| - 1].dur.Seconds? <==> (end - start) % DAY != 0)
  {
    cs := [];
    var st := start;
    while st < end
      invariant cs == [] ==> st == start
      invariant cs != [] ==> st == cs[|cs| - 1].end <= end && Tiles(cs, start, st) && start < end
      invariant Shaped(cs, days) && forall i :: 0 <= i < |cs| && cs[i].dur.Seconds? ==> st == end
      invariant forall i :: 0 <= i < |cs| && cs[i].dur != Days(days) && st < end ==> i + 1 == |cs| && end - st < DAY
      invariant st < end ==> (end - st) % DAY == (end - start) % DAY
      invariant st == end && cs != [] ==> (cs[|cs| - 1].dur.Seconds? <==> (end - start) % DAY != 0)
      decreases end - st
    {
      var en := st + days * DAY;
      var dur: Duration;
      if en < end {
        dur := Days(days);
      } else if end - st >= DAY {
        var d := (end - st) / DAY;
        en := st + d * DAY;
        dur := Days(d);
      } else {
        dur := Seconds(end - st);
        en := end;
      }
      ghost var was := cs;
      cs := cs + [Chunk(en, dur)];
      forall i | 0 <= i < |was|
        ensures ShapedAt(cs, i, days)
      {
        assert ShapedAt(was, i, days);
      }
      st := en;
    }
  }

  lemma ShapedTail(cs: seq<Chunk>, start: int, end: int, days: int)
    requires cs != [] && Tiles(cs, start, end) && Shaped(cs, days)
    ensures Tiles(cs[1..], cs[0].end, end) && Shaped(cs[1..], days)
  {
    var rest := cs[1..];
    forall i | 0 <= i < |rest|
      ensures ShapedAt(rest, i, days)
    {
      assert ShapedAt(cs, i + 1, days);
    }
    forall i | 1 <= i < |rest|
      ensures Begin(rest[i]) == rest[i - 1].end
    {
      assert Begin(cs[i + 1]) == cs[i].end;
    }
    if rest != [] {
      assert Begin(cs[1]) == cs[0].end;
      StretchesForward(cs, start, end, days, 1);
    }
  }

  lemma {:induction false} StretchesForward(cs: seq<Chunk>, start: int, end: int, days: int, k: nat)
    requires cs != [] && Tiles(cs, start, end) && Shaped(cs, days) && k < |cs|
    ensures Begin(cs[k]) < end
    decreases |cs| - k
  {
    assert ShapedAt(cs, k, days);
    if k + 1 < |cs| {
      StretchesForward(cs, start, end, days, k + 1);
      assert Begin(cs[k + 1]) == cs[k].end;
    }
  }

  /** How far the first chunk reaches is forced by how much is left. */
  lemma FirstChunk(cs: seq<Chunk>, start: int, end: int, days: int)
    requires days >= 1 && cs != [] && Tiles(cs, start, end) && Shaped(cs, days)
    ensures cs[0].dur == if end - start >= days * DAY then Days(days)
                         else if end - start >= DAY then Days((end - start) / DAY) else Seconds(end - start)
  {
    StretchesForward(cs, start, end, days, 0);
    assert ShapedAt(cs, 0, days);
    if cs[0].dur.Days? {
      var n := cs[0].dur.n;
      if |cs| > 1 { StretchesForward(cs, start, end, days, 1); assert Begin(cs[1]) == cs[0].end; }
      if n < days && |cs| > 1 {
        assert ShapedAt(cs, 1, days) && cs[1].end == end;
        assert end - start == n * DAY + cs[1].dur.n;
      }
    }
  }

  /** Tiling and shape leave no choice: GenerateRequests returns the only such list. */
  lemma {:induction false} RequestsUnique(a: seq<Chunk>, b: seq<Chunk>, start: int, end: int, days: int)
    requires days >= 1 && Tiles(a, start, end) && Shaped(a, days) && Tiles(b, start, end) && Shaped(b, days)
    ensures a == b
    decreases |a|
  {
    if a != [] && b != [] {
      FirstChunk(a, start, end, days);
      FirstChunk(b, start, end, days);
      assert Begin(a[0]) == Begin(b[0]);
      ShapedTail(a, start, end, days);
      ShapedTail(b, start, end, days);
      RequestsUnique(a[1..], b[1..], a[0].end, end, days);
      assert a == [a[0]] + a[1..] && b == [b[0]] + b[1..];
    }
  }

  /** Five and a half days in requests of two days, from the given second on. */
  lemma FiveAndAHalfDays(cs: seq<Chunk>, start: int)
    requires Tiles(cs, start, start + 475200) && Shaped(cs, 2)
    ensures cs == [Chunk(start + 172800, Days(2)), Chunk(start + 345600, Days(2)), Chunk(start + 432000, Days(1)),
                   Chunk(start + 475200, Seconds(43200))]
  {
    RequestsUnique(cs, [Chunk(start + 172800, Days(2)), Chunk(start + 345600, Days(2)), Chunk(start + 432000, Days(1)),
                        Chunk(start + 475200, Seconds(43200))], start, start + 475200, 2);
  }
}
