/** A zone given as a table of transitions: which offset holds at a UTC instant, which UTC instants
    a local time stands for, and the conversions built on the answers. */
module Transitions {
  import opened Search
  import ZoneLookup

  type SysInfo = ZoneLookup.SysInfo

  const DAY := 86400

  datatype TimeType = TimeType(offset: int, abbrev: string, isDst: bool)

  datatype Transition = Transition(timepoint: int, info: TimeType)

  /** The table of a real zone: transitions more than two days apart, each moving the clock by at
      most a day, all before the last representable instant. */
  ghost predicate TableOk(ts: seq<Transition>)
  {
    && ts != []
    && (forall i :: 1 <= i < |ts| ==> ts[i].timepoint - ts[i - 1].timepoint > 2 * 86400)
    && (forall i :: 1 <= i < |ts| ==> -86400 <= ts[i].info.offset - ts[i - 1].info.offset <= 86400)
    && (forall i :: 0 <= i < |ts| ==> ts[i].timepoint < ZoneLookup.MaxTime())
  }

  /** The interval that ends at transition i; before the first transition its own type is used. The saving, a
      flag in the table, is given as a minute. */
  function LoadSysInfo(ts: seq<Transition>, i: nat): SysInfo
    requires ts != [] && i <= |ts|
  {
    var t := if i > 0 then ts[i - 1] else ts[0];
    var next := if i > 0 then i else 1;
    ZoneLookup.SysInfo(if i > 0 then t.timepoint else ZoneLookup.MinTime(),
                       if next < |ts| then ts[next].timepoint else ZoneLookup.MaxTime(),
                       t.info.offset, if t.info.isDst then 60 else 0, t.info.abbrev)
  }

  function Times(ts: seq<Transition>): seq<int> { seq(|ts|, i requires 0 <= i < |ts| => ts[i].timepoint) }

  function LocalTimes(ts: seq<Transition>): (keys: seq<int>)
    ensures |keys| == |ts|
  {
    seq(|ts|, i requires 0 <= i < |ts| => ts[i].timepoint + ts[i].info.offset)
  }

  /** get_info for a UTC instant. */
  function InfoAtUtc(ts: seq<Transition>, u: int): SysInfo
    requires ts != []
  {
    LoadSysInfo(ts, UpperBound(Times(ts), u))
  }

  datatype LocalInfo =
    | Unique(first: SysInfo)
    | Nonexistent(first: SysInfo, second: SysInfo)
    | Ambiguous(first: SysInfo, second: SysInfo)

  /** get_info for a local time. */
  function InfoAtLocal(ts: seq<Transition>, tp: int): LocalInfo
    requires ts != []
  {
    var tr := UpperBound(LocalTimes(ts), tp);
    var first := LoadSysInfo(ts, tr);
    var tps := tp - first.offset;
    if tps < first.begin + DAY && tr != 0 then
      var second := LoadSysInfo(ts, tr - 1);
      if tp - second.offset < second.end && first.end != second.end then Ambiguous(second, first) else Unique(first)
    else if tps >= first.end && tr != |ts| then
      var second := LoadSysInfo(ts, tr + 1);
      if tp - second.offset < second.begin then Nonexistent(first, second) else Unique(first)
    else Unique(first)
  }

  function ToLocal(ts: seq<Transition>, u: int): int
    requires ts != []
  {
    u + InfoAtUtc(ts, u).offset
  }

  datatype Choose = Earliest | Latest

  /** to_sys with a choice. */
  function ToSys(ts: seq<Transition>, tp: int, z: Choose): int
    requires ts != []
  {
    match InfoAtLocal(ts, tp)
    case Nonexistent(first, _) => first.end
    case Ambiguous(first, second) => if z == Latest then tp - second.offset else tp - first.offset
    case Unique(first) => tp - first.offset
  }

  datatype Strict = Instant(u: int) | NonexistentLocalTime(info: LocalInfo) | AmbiguousLocalTime(info: LocalInfo)

  /** to_sys without a choice, which throws unless the local time is unique. */
  function ToSysStrict(ts: seq<Transition>, tp: int): Strict
    requires ts != []
  {
    var i := InfoAtLocal(ts, tp);
    match i
    case Nonexistent(_, _) => NonexistentLocalTime(i)
    case Ambiguous(_, _) => AmbiguousLocalTime(i)
    case Unique(first) => Instant(tp - first.offset)
  }

  // ---- regions: transition k rules until transition k + 1, and transition 0 also before itself

  ghost predicate InRegion(ts: seq<Transition>, k: nat, u: int)
  {
    k < |ts| && (k > 0 ==> ts[k].timepoint <= u) && (k + 1 < |ts| ==> u < ts[k + 1].timepoint)
  }

  lemma {:induction false} InOrder(ts: seq<Transition>, i: nat, j: nat)
    requires TableOk(ts) && i < j < |ts|
    ensures ts[j].timepoint - ts[i].timepoint > 2 * DAY * (j - i)
    ensures ts[j].timepoint + ts[j].info.offset - (ts[i].timepoint + ts[i].info.offset) > DAY * (j - i)
    decreases j
  {
    if i < j - 1 { InOrder(ts, i, j - 1); }
  }

  lemma UtcIndex(ts: seq<Transition>, r: nat, u: int)
    requires TableOk(ts) && r <= |ts|
    requires r > 0 ==> ts[r - 1].timepoint <= u
    requires r < |ts| ==> u < ts[r].timepoint
    ensures UpperBound(Times(ts), u) == r
  {
    var i := UpperBound(Times(ts), u);
    assert i < |ts| ==> Times(ts)[i] == ts[i].timepoint;
    assert r < |ts| ==> Times(ts)[r] == ts[r].timepoint;
    if i < r - 1 { InOrder(ts, i, r - 1); }
  }

  lemma InfoAt(ts: seq<Transition>, r: nat, u: int)
    requires TableOk(ts) && r <= |ts|
    requires r > 0 ==> ts[r - 1].timepoint <= u
    requires r < |ts| ==> u < ts[r].timepoint
    ensures InfoAtUtc(ts, u) == LoadSysInfo(ts, r)
  {
    UtcIndex(ts, r, u);
  }

  /** The region of an instant has the offset that get_info reports. */
  lemma RegionOffset(ts: seq<Transition>, k: nat, u: int)
    requires TableOk(ts) && InRegion(ts, k, u)
    ensures InfoAtUtc(ts, u).offset == ts[k].info.offset
  {
    UtcIndex(ts, if k == 0 && u < ts[0].timepoint then 0 else k + 1, u);
  }

  /** An instant is answered with the type of its transition, and a minute of saving if and only if that is a
      daylight one. */
  lemma RegionInfo(ts: seq<Transition>, k: nat, u: int)
    requires TableOk(ts) && InRegion(ts, k, u)
    ensures var r := InfoAtUtc(ts, u);
            && TimeType(r.offset, r.abbrev, r.save != 0) == ts[k].info && r.save in {0, 60}
            && (k > 0 || ts[0].timepoint <= u ==> r.begin == ts[k].timepoint)
            && (k + 1 < |ts| ==> r.end == ts[if k == 0 && u < ts[0].timepoint then 1 else k + 1].timepoint)
  {
    UtcIndex(ts, if k == 0 && u < ts[0].timepoint then 0 else k + 1, u);
  }

  lemma SomeRegion(ts: seq<Transition>, u: int) returns (k: nat)
    requires TableOk(ts)
    ensures InRegion(ts, k, u)
  {
    var i := UpperBound(Times(ts), u);
    k := if i == 0 then 0 else i - 1;
    if i > 0 { assert Times(ts)[i - 1] <= u; }
    if i == 0 && |ts| > 1 { InOrder(ts, 0, 1); }
  }

  /** The only instant of region k that shows local time tp, if it lies in the region. */
  lemma Preimages(ts: seq<Transition>, tp: int, u: int)
    requires TableOk(ts)
    ensures ToLocal(ts, u) == tp <==> exists k :: 0 <= k < |ts| && u == tp - ts[k].info.offset && InRegion(ts, k, u)
  {
    var k := SomeRegion(ts, u);
    RegionOffset(ts, k, u);
    if ToLocal(ts, u) == tp { assert InRegion(ts, k, u); }
    if j :| 0 <= j < |ts| && u == tp - ts[j].info.offset && InRegion(ts, j, u) { RegionOffset(ts, j, u); }
  }

  /** The transition that the search on local times finds. */
  lemma LocalBound(ts: seq<Transition>, tp: int)
    ensures var tr := UpperBound(LocalTimes(ts), tp);
            tr <= |ts| && (tr < |ts| ==> tp < ts[tr].timepoint + ts[tr].info.offset)
            && (tr > 0 ==> ts[tr - 1].timepoint + ts[tr - 1].info.offset <= tp)
  {
    var tr := UpperBound(LocalTimes(ts), tp);
    assert tr > 0 ==> LocalTimes(ts)[tr - 1] <= tp;
  }

  /** Only two regions can show local time tp: the one that starts last at or before it on the local
      clock, and the one before that. */
  lemma RegionsNear(ts: seq<Transition>, tp: int, k: nat)
    requires TableOk(ts) && k < |ts| && InRegion(ts, k, tp - ts[k].info.offset)
    ensures var tr := UpperBound(LocalTimes(ts), tp);
            var c := if tr == 0 then 0 else tr - 1;
            k == c || k == c - 1
  {
    hide UpperBound, LocalTimes;
    var tr := UpperBound(LocalTimes(ts), tp);
    LocalBound(ts, tp);
    if tr > 0 && k >= tr { if k > tr { InOrder(ts, tr, k); } }
    if tr == 0 && k > 0 { InOrder(ts, 0, k); }
    if k + 2 < tr { InOrder(ts, k, k + 1); InOrder(ts, k + 1, tr - 1); }
  }

  /** The regions that can show tp, compared with the branches of the local lookup. */
  lemma CandidateRegions(ts: seq<Transition>, tp: int)
    requires TableOk(ts)
    ensures var tr := UpperBound(LocalTimes(ts), tp);
            var c := if tr == 0 then 0 else tr - 1;
            var here := tp - ts[c].info.offset;
            (tr > 0 ==> here >= ts[c].timepoint) && (tr == 0 ==> here < ts[0].timepoint)
            && (InRegion(ts, c, here) <==> !(c + 1 < |ts| && here >= ts[c + 1].timepoint))
            && (c + 1 < |ts| && here >= ts[c + 1].timepoint ==>
                  tr > 0 && here >= ts[c].timepoint + DAY && tp - ts[c + 1].info.offset < ts[c + 1].timepoint)
            && (c > 0 ==> tp - ts[c - 1].info.offset >= ts[c - 1].timepoint)
            && (c > 0 ==> (InRegion(ts, c - 1, tp - ts[c - 1].info.offset) <==>
                             tp - ts[c - 1].info.offset < ts[c].timepoint)
                          && (tp - ts[c - 1].info.offset < ts[c].timepoint ==> here < ts[c].timepoint + DAY))
  {
    hide UpperBound, LocalTimes;
    var tr := UpperBound(LocalTimes(ts), tp);
    LocalBound(ts, tp);
    if tr == 0 && |ts| > 1 { InOrder(ts, 0, 1); }
    if tr > 1 { InOrder(ts, tr - 2, tr - 1); }
  }

  /** The instants that show tp lie in the two candidate regions. */
  lemma ShowingInstants(ts: seq<Transition>, tp: int, u: int)
    requires TableOk(ts)
    ensures var tr := UpperBound(LocalTimes(ts), tp);
            var c := if tr == 0 then 0 else tr - 1;
            ToLocal(ts, u) == tp <==>
              (u == tp - ts[c].info.offset && InRegion(ts, c, u))
              || (c > 0 && u == tp - ts[c - 1].info.offset && InRegion(ts, c - 1, u))
  {
    hide ToLocal, InRegion, UpperBound, LocalTimes;
    Preimages(ts, tp, u);
    if k :| 0 <= k < |ts| && u == tp - ts[k].info.offset && InRegion(ts, k, u) { RegionsNear(ts, tp, k); }
  }

  /** The classification is exact: a local time is unique, ambiguous or nonexistent when one, two
      or no instants show it, and those instants are the ones the reported offsets give. */
  lemma Classification(ts: seq<Transition>, tp: int)
    requires TableOk(ts)
    ensures match InfoAtLocal(ts, tp)
            case Unique(first) => forall u :: ToLocal(ts, u) == tp <==> u == tp - first.offset
            case Ambiguous(first, second) =>
              tp - first.offset < tp - second.offset && first.end == second.begin
              && forall u :: ToLocal(ts, u) == tp <==> u == tp - first.offset || u == tp - second.offset
            case Nonexistent(first, second) => first.end == second.begin && forall u :: ToLocal(ts, u) != tp
  {
    hide ToLocal, ZoneLookup.MinTime, ZoneLookup.MaxTime, InRegion, UpperBound, LocalTimes;
    CandidateRegions(ts, tp);
    forall u
      ensures var tr := UpperBound(LocalTimes(ts), tp);
              var c := if tr == 0 then 0 else tr - 1;
              ToLocal(ts, u) == tp <==>
                (u == tp - ts[c].info.offset && InRegion(ts, c, u))
                || (c > 0 && u == tp - ts[c - 1].info.offset && InRegion(ts, c - 1, u))
    {
      ShowingInstants(ts, tp, u);
    }
  }

  lemma Spacing(ts: seq<Transition>, i: nat)
    requires TableOk(ts)
    ensures ts != [] && ts[0].timepoint < ZoneLookup.MaxTime()
    ensures 1 <= i < |ts| ==> ts[i].timepoint - ts[i - 1].timepoint > 2 * 86400
                              && -86400 <= ts[i].info.offset - ts[i - 1].info.offset <= 86400
  {
  }

  /** The infos reported for a local time are those get_info gives at the instants that show it. */
  lemma ReportedInfos(ts: seq<Transition>, tp: int)
    requires TableOk(ts)
    ensures match InfoAtLocal(ts, tp)
            case Unique(first) => first == InfoAtUtc(ts, tp - first.offset)
            case Ambiguous(first, second) =>
              first == InfoAtUtc(ts, tp - first.offset) && second == InfoAtUtc(ts, tp - second.offset)
            case Nonexistent(first, second) =>
              first == InfoAtUtc(ts, first.end - 1) && second == InfoAtUtc(ts, first.end)
  {
    hide ZoneLookup.MinTime, ZoneLookup.MaxTime, InfoAtUtc, Times, InRegion, UpperBound, LocalTimes, TableOk;
    LocalBound(ts, tp);
    var tr := UpperBound(LocalTimes(ts), tp);
    CandidateRegions(ts, tp);
    Spacing(ts, 1);
    Spacing(ts, tr);
    Spacing(ts, tr + 1);
    match InfoAtLocal(ts, tp) {
      case Unique(first) =>
        InfoAt(ts, tr, tp - first.offset);
      case Ambiguous(first, second) =>
        InfoAt(ts, tr - 1, tp - first.offset);
        InfoAt(ts, tr, tp - second.offset);
      case Nonexistent(first, second) =>
        InfoAt(ts, tr, first.end - 1);
        InfoAt(ts, tr + 1, first.end);
    }
  }

  /** to_local and to_sys agree on every instant. */
  lemma LocalRoundTrip(ts: seq<Transition>, u: int)
    requires TableOk(ts)
    ensures var tp := ToLocal(ts, u);
            var early, late := ToSys(ts, tp, Earliest), ToSys(ts, tp, Latest);
            match InfoAtLocal(ts, tp)
            case Unique(_) => early == late == u && ToSysStrict(ts, tp) == Instant(u)
            case Ambiguous(_, _) =>
              early < late && (u == early || u == late) && ToSysStrict(ts, tp).AmbiguousLocalTime?
              && ToLocal(ts, early) == tp && ToLocal(ts, late) == tp
              && forall v :: ToLocal(ts, v) == tp ==> early <= v <= late
            case Nonexistent(_, _) => false
  {
    hide InfoAtLocal, InfoAtUtc;
    Classification(ts, ToLocal(ts, u));
  }

  /** Transition i moves the local clock from tp or earlier to later than tp. */
  ghost predicate SkippedAt(ts: seq<Transition>, i: nat, tp: int)
  {
    1 <= i < |ts| && ts[i].timepoint + ts[i - 1].info.offset <= tp < ts[i].timepoint + ts[i].info.offset
  }

  /** A local time that the clock skips becomes the instant at which it is skipped. */
  lemma SkippedBecomesTransition(ts: seq<Transition>, tp: int, z: Choose)
    requires TableOk(ts)
    ensures var skipped := forall u :: ToLocal(ts, u) != tp;
            (skipped <==> InfoAtLocal(ts, tp).Nonexistent?) && (skipped <==> ToSysStrict(ts, tp).NonexistentLocalTime?)
            && (skipped ==> exists i :: 1 <= i < |ts| && SkippedAt(ts, i, tp) && ToSys(ts, tp, z) == ts[i].timepoint)
  {
    hide InfoAtUtc, ZoneLookup.MinTime, ZoneLookup.MaxTime, InRegion, ToLocal, UpperBound, LocalTimes;
    LocalBound(ts, tp);
    Classification(ts, tp);
    CandidateRegions(ts, tp);
    var tr := UpperBound(LocalTimes(ts), tp);
    match InfoAtLocal(ts, tp) {
      case Unique(first) => assert ToLocal(ts, tp - first.offset) == tp;
      case Ambiguous(first, second) => assert ToLocal(ts, tp - first.offset) == tp;
      case Nonexistent(first, second) =>
        assert SkippedAt(ts, tr, tp) && ToSys(ts, tp, z) == ts[tr].timepoint;
    }
  }

  // ---- the intervals of UTC queries

  /** The interval of an answer holds the instant asked for. */
  lemma InfoHolds(ts: seq<Transition>, u: int)
    requires TableOk(ts) && ZoneLookup.MinTime() <= u < ZoneLookup.MaxTime()
    ensures InfoAtUtc(ts, u).begin <= u < InfoAtUtc(ts, u).end
  {
    hide ZoneLookup.MinTime, ZoneLookup.MaxTime, UpperBound;
    UtcBound(ts, u);
    if |ts| > 1 { InOrder(ts, 0, 1); }
  }

  /** The transition that the search on instants finds. */
  lemma UtcBound(ts: seq<Transition>, u: int)
    ensures var r := UpperBound(Times(ts), u);
            r <= |ts| && (r < |ts| ==> u < ts[r].timepoint) && (r > 0 ==> ts[r - 1].timepoint <= u)
  {
    var r := UpperBound(Times(ts), u);
    assert r > 0 ==> Times(ts)[r - 1] <= u;
  }

  /** The end of an answer's interval is the begin of the next one. */
  lemma NextInfoBegins(ts: seq<Transition>, u: int)
    requires TableOk(ts) && InfoAtUtc(ts, u).end < ZoneLookup.MaxTime()
    ensures InfoAtUtc(ts, InfoAtUtc(ts, u).end).begin == InfoAtUtc(ts, u).end
  {
    hide ZoneLookup.MinTime, ZoneLookup.MaxTime, UpperBound, InfoAtUtc, Times;
    var r := UpperBound(Times(ts), u);
    UtcBound(ts, u);
    InfoAt(ts, r, u);
    var next := if r > 0 then r else 1;
    assert next < |ts|;
    if next + 1 < |ts| { InOrder(ts, next, next + 1); }
    InfoAt(ts, next + 1, ts[next].timepoint);
  }

  /** Every instant of an answer's interval gets the same answer. */
  ghost predicate Tiled(ts: seq<Transition>)
    requires ts != []
  {
    forall u, v :: ZoneLookup.MinTime() <= u < ZoneLookup.MaxTime() && InfoAtUtc(ts, u).begin <= v < InfoAtUtc(ts, u).end ==>
      InfoAtUtc(ts, v) == InfoAtUtc(ts, u)
  }

  /** The answers tile the timeline exactly when the table starts no later than it does: before the first transition
      the interval reaches beyond that transition. */
  lemma TiledExact(ts: seq<Transition>)
    requires TableOk(ts)
    ensures Tiled(ts) <==> ts[0].timepoint <= ZoneLookup.MinTime()
  {
    hide ZoneLookup.MinTime, ZoneLookup.MaxTime, UpperBound, InfoAtUtc, Times;
    if ts[0].timepoint <= ZoneLookup.MinTime() {
      forall u, v | ZoneLookup.MinTime() <= u < ZoneLookup.MaxTime() && InfoAtUtc(ts, u).begin <= v < InfoAtUtc(ts, u).end
        ensures InfoAtUtc(ts, v) == InfoAtUtc(ts, u)
      {
        var r := UpperBound(Times(ts), u);
        UtcBound(ts, u);
        InfoAt(ts, r, u);
        InfoAt(ts, r, v);
      }
    } else {
      var u, v := ZoneLookup.MinTime(), ts[0].timepoint;
      InfoAt(ts, 0, u);
      if |ts| > 1 { InOrder(ts, 0, 1); }
      InfoAt(ts, 1, v);
      assert InfoAtUtc(ts, u).begin <= v < InfoAtUtc(ts, u).end && InfoAtUtc(ts, v) != InfoAtUtc(ts, u);
    }
  }
}
