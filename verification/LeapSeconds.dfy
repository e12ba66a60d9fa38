/** utc_clock: counting leap seconds in and out.  Times are in ticks, k of them to the second;
    leap second dates are whole seconds. */
module LeapSeconds {
  import opened Search

  /** Leap second dates in ticks. */
  function Dates(leaps: seq<int>, k: int): seq<int>
  {
    seq(|leaps|, i requires 0 <= i < |leaps| => leaps[i] * k)
  }

  /** The number of leap seconds dated at or before t. */
  function Count(leaps: seq<int>, k: int, t: int): (n: nat)
    ensures n <= |leaps|
  {
    UpperBound(Dates(leaps, k), t)
  }

  function FromSys(leaps: seq<int>, k: int, st: int): int { st + Count(leaps, k, st) * k }

  /** Whether ut is inside an inserted second, and how many seconds have been inserted by then. */
  function IsLeapSecond(leaps: seq<int>, k: int, ut: int): (bool, int)
  {
    var ds := Count(leaps, k, ut);
    var tp := ut - ds * k;
    if ds > 0 && tp < leaps[ds - 1] * k then
      if tp >= (leaps[ds - 1] - 1) * k then (true, ds) else (false, ds - 1)
    else (false, ds)
  }

  function ToSys(leaps: seq<int>, k: int, ut: int): int
    requires k > 0
  {
    var (ls, ds) := IsLeapSecond(leaps, k, ut);
    var tp := ut - ds * k;
    if ls then tp / k * k + k - 1 else tp
  }

  ghost predicate Increasing(leaps: seq<int>) { forall i, j :: 0 <= i < j < |leaps| ==> leaps[i] < leaps[j] }

  /** Leap second c + 1 comes at least c + slack seconds after leap second c. */
  ghost predicate Spread(leaps: seq<int>, slack: int)
  {
    forall c :: 0 <= c < |leaps| - 1 ==> leaps[c + 1] - leaps[c] >= c + slack
  }

  ghost predicate InImage(leaps: seq<int>, k: int, u: int) { exists t :: FromSys(leaps, k, t) == u }

  lemma MulMono(a: int, b: int, k: int)
    requires k > 0
    ensures a <= b <==> a * k <= b * k
    ensures a < b <==> a * k < b * k
  {
    if a < b { assert (b - a) * k > 0; }
    if b < a { assert (a - b) * k > 0; }
  }

  lemma CountIs(leaps: seq<int>, k: int, t: int, n: nat)
    requires k > 0 && Increasing(leaps) && n <= |leaps|
    requires n > 0 ==> leaps[n - 1] * k <= t
    requires n < |leaps| ==> t < leaps[n] * k
    ensures Count(leaps, k, t) == n
  {
    var c := Count(leaps, k, t);
    assert c < |leaps| ==> Dates(leaps, k)[c] == leaps[c] * k;
    assert c > 0 ==> Dates(leaps, k)[c - 1] == leaps[c - 1] * k;
    if c < n { MulMono(leaps[c], leaps[n - 1], k); }
    if n < c { MulMono(leaps[n], leaps[c - 1], k); }
  }

  lemma CountBounds(leaps: seq<int>, k: int, t: int)
    ensures var n := Count(leaps, k, t);
            (n > 0 ==> leaps[n - 1] * k <= t) && (n < |leaps| ==> t < leaps[n] * k)
  {
    var n := Count(leaps, k, t);
    assert n < |leaps| ==> Dates(leaps, k)[n] == leaps[n] * k;
    assert n > 0 ==> Dates(leaps, k)[n - 1] == leaps[n - 1] * k;
  }

  lemma CountMono(leaps: seq<int>, k: int, a: int, b: int)
    requires k > 0 && Increasing(leaps) && a <= b
    ensures Count(leaps, k, a) <= Count(leaps, k, b)
  {
    hide Count;
    var m, n := Count(leaps, k, a), Count(leaps, k, b);
    CountBounds(leaps, k, a);
    CountBounds(leaps, k, b);
    if n < m { MulMono(leaps[n], leaps[m - 1], k); }
  }

  /** Later instants stay later. */
  lemma FromSysIncreasing(leaps: seq<int>, k: int, a: int, b: int)
    requires k > 0 && Increasing(leaps) && a < b
    ensures FromSys(leaps, k, a) < FromSys(leaps, k, b)
  {
    CountMono(leaps, k, a, b);
    MulMono(Count(leaps, k, a), Count(leaps, k, b), k);
  }

  /** The second that insertion c adds. */
  ghost predicate Inserted(leaps: seq<int>, k: int, c: nat, u: int)
  {
    c < |leaps| && (leaps[c] + c) * k <= u < (leaps[c] + c + 1) * k
  }

  /** from_sys skips exactly one second per leap second. */
  lemma SkippedSeconds(leaps: seq<int>, k: int, u: int)
    requires k > 0 && Increasing(leaps)
    ensures InImage(leaps, k, u) <==> forall c: nat :: !Inserted(leaps, k, c, u)
  {
    hide Count;
    if InImage(leaps, k, u) {
      var t :| FromSys(leaps, k, t) == u;
      var n := Count(leaps, k, t);
      CountBounds(leaps, k, t);
      forall c: nat | c < |leaps|
        ensures !Inserted(leaps, k, c, u)
      {
        if c < n { ShiftedOrder(leaps, k, c, n - 1); } else { ShiftedOrder(leaps, k, n, c); }
        Distribute(leaps, k, c);
        Distribute(leaps, k, if c < n then n - 1 else n);
      }
    } else {
      var n := FirstNotPassed(leaps, k, u, |leaps|);
      if n > 0 { Distribute(leaps, k, n - 1); }
      if n < |leaps| { Distribute(leaps, k, n); }
      if !Inserted(leaps, k, n, u) {
        CountIs(leaps, k, u - n * k, n);
        var image := FromSys(leaps, k, u - n * k);
      }
    }
  }

  lemma Distribute(leaps: seq<int>, k: int, c: nat)
    requires c < |leaps|
    ensures (leaps[c] + c) * k == leaps[c] * k + c * k && (leaps[c] + c + 1) * k == leaps[c] * k + c * k + k
    ensures (leaps[c] - 1) * k == leaps[c] * k - k && (c + 1) * k == c * k + k
  {
  }

  lemma ShiftedOrder(leaps: seq<int>, k: int, a: nat, b: nat)
    requires k > 0 && Increasing(leaps) && a <= b < |leaps|
    ensures (leaps[a] + a) * k <= (leaps[b] + b) * k
    ensures a < b ==> leaps[a] * k + k <= leaps[b] * k && a * k + k <= b * k
  {
    MulMono(leaps[a] + a, leaps[b] + b, k);
    if a < b { MulMono(leaps[a] + 1, leaps[b], k); MulMono(a + 1, b, k); }
  }

  /** How many insertions are over by u. */
  lemma {:induction false} FirstNotPassed(leaps: seq<int>, k: int, u: int, m: nat) returns (n: nat)
    requires k > 0 && m <= |leaps| && (m < |leaps| ==> u < (leaps[m] + m + 1) * k)
    ensures n <= m && (n < |leaps| ==> u < (leaps[n] + n + 1) * k)
    ensures n > 0 ==> (leaps[n - 1] + n) * k <= u
  {
    n := m;
    if m > 0 && u < (leaps[m - 1] + m) * k { n := FirstNotPassed(leaps, k, u, m - 1); }
  }

  /** Going to utc and back returns to t exactly when at most one insertion date was stepped over. */
  lemma BackFromUtc(leaps: seq<int>, k: int, t: int)
    requires k > 0 && Increasing(leaps)
    ensures var u, c := FromSys(leaps, k, t), Count(leaps, k, t);
            !IsLeapSecond(leaps, k, u).0 && (ToSys(leaps, k, u) == t <==> Count(leaps, k, u) <= c + 1)
  {
    hide Count;
    var u, c := FromSys(leaps, k, t), Count(leaps, k, t);
    var n := Count(leaps, k, u);
    MulMono(0, c, k);
    CountMono(leaps, k, t, u);
    CountBounds(leaps, k, t);
    CountBounds(leaps, k, u);
    if c < |leaps| { Distribute(leaps, k, c); }
    if c + 1 < n {
      ShiftedOrder(leaps, k, c, n - 1);
      Distribute(leaps, k, n - 1);
      MulMono(c + 1, n - 1, k);
    }
  }

  /** to_sys undoes from_sys at every instant, exactly when leap second c + 1 is at least c seconds
      after leap second c. */
  lemma UtcRoundTrip(leaps: seq<int>, k: int)
    requires k > 0 && Increasing(leaps)
    ensures (forall t :: ToSys(leaps, k, FromSys(leaps, k, t)) == t) <==> Spread(leaps, 0)
  {
    hide Count, ToSys, IsLeapSecond, FromSys;
    if Spread(leaps, 0) {
      forall t
        ensures ToSys(leaps, k, FromSys(leaps, k, t)) == t
      {
        BackFromUtc(leaps, k, t);
        SteppedOver(leaps, k, t);
      }
    } else {
      var c :| 0 <= c < |leaps| - 1 && leaps[c + 1] - leaps[c] < c;
      var t := leaps[c] * k - 1;
      BackFromUtc(leaps, k, t);
      CloseDates(leaps, k, c);
    }
  }

  lemma SteppedOver(leaps: seq<int>, k: int, t: int)
    requires k > 0 && Increasing(leaps) && Spread(leaps, 0)
    ensures Count(leaps, k, FromSys(leaps, k, t)) <= Count(leaps, k, t) + 1
  {
    hide Count;
    var u, c := FromSys(leaps, k, t), Count(leaps, k, t);
    var n := Count(leaps, k, u);
    CountBounds(leaps, k, t);
    CountBounds(leaps, k, u);
    if n > c + 1 {
      MulMono(leaps[c + 1], leaps[n - 1], k);
      MulMono(leaps[c] + c, leaps[c + 1], k);
      Distribute(leaps, k, c);
    }
  }

  lemma CloseDates(leaps: seq<int>, k: int, c: nat)
    requires k > 0 && Increasing(leaps) && c < |leaps| - 1 && leaps[c + 1] - leaps[c] < c
    ensures var t := leaps[c] * k - 1;
            Count(leaps, k, FromSys(leaps, k, t)) > Count(leaps, k, t) + 1
  {
    hide Count, Increasing;
    var t := leaps[c] * k - 1;
    JustBefore(leaps, k, c);
    var u := t + c * k;
    assert u >= leaps[c + 1] * k by {
      MulMono(leaps[c + 1] + 1, leaps[c] + c, k);
      Distribute(leaps, k, c);
      Distribute(leaps, k, c + 1);
    }
    PassedCount(leaps, k, u, c + 1);
  }

  lemma JustBefore(leaps: seq<int>, k: int, c: nat)
    requires k > 0 && Increasing(leaps) && c < |leaps|
    ensures Count(leaps, k, leaps[c] * k - 1) == c
  {
    if c > 0 { MulMono(leaps[c - 1] + 1, leaps[c], k); Distribute(leaps, k, c - 1); }
    CountIs(leaps, k, leaps[c] * k - 1, c);
  }

  lemma PassedCount(leaps: seq<int>, k: int, u: int, c: nat)
    requires k > 0 && Increasing(leaps) && c < |leaps| && leaps[c] * k <= u
    ensures Count(leaps, k, u) > c
  {
    hide Count;
    CountBounds(leaps, k, u);
    var n := Count(leaps, k, u);
    if n < c { MulMono(leaps[n], leaps[c], k); }
  }

  /** An inserted second is recognised exactly when it ends by the next leap second date, and then
      to_sys gives the last tick before its own date. */
  lemma InsertedSecond(leaps: seq<int>, k: int, c: nat, u: int)
    requires k > 0 && Increasing(leaps) && Inserted(leaps, k, c, u)
    ensures IsLeapSecond(leaps, k, u).0 <==> (c + 1 == |leaps| || u < leaps[c + 1] * k)
    ensures IsLeapSecond(leaps, k, u).0 ==> ToSys(leaps, k, u) == leaps[c] * k - 1
  {
    hide Count;
    var n := Count(leaps, k, u);
    Distribute(leaps, k, c);
    CountBounds(leaps, k, u);
    MulMono(0, c, k);
    if n <= c { if n < c { MulMono(leaps[n], leaps[c], k); } }
    assert n >= c + 1;
    if n == c + 1 {
      var tp := u - n * k;
      assert (leaps[c] - 1) * k <= tp < (leaps[c] - 1) * k + k;
      QuotientIs(tp, leaps[c] - 1, k);
    } else {
      MulMono(leaps[c + 1], leaps[n - 1], k);
      ShiftedOrder(leaps, k, c, n - 1);
      Distribute(leaps, k, n - 1);
      MulMono(c + 2, n, k);
      assert (c + 2) * k == c * k + k + k;
      assert n * k == (n - 1) * k + k;
    }
  }

  lemma QuotientIs(a: int, q: int, k: int)
    requires k > 0 && q * k <= a < q * k + k
    ensures a / k == q
  {
    var p := a / k;
    assert a == p * k + a % k;
    assert (p + 1) * k == p * k + k && (q + 1) * k == q * k + k;
    MulMono(p + 1, q, k);
    MulMono(q + 1, p, k);
  }

  /** is_leap_second marks exactly the seconds that from_sys skips, exactly when leap second c + 1 is
      more than c seconds after leap second c. */
  lemma LeapSecondsAreTheSkipped(leaps: seq<int>, k: int)
    requires k > 0 && Increasing(leaps)
    ensures (forall u :: IsLeapSecond(leaps, k, u).0 <==> !InImage(leaps, k, u)) <==> Spread(leaps, 1)
  {
    hide Count, IsLeapSecond, FromSys, ToSys, Inserted, InImage;
    if Spread(leaps, 1) {
      forall u
        ensures IsLeapSecond(leaps, k, u).0 <==> !InImage(leaps, k, u)
      {
        SkippedSeconds(leaps, k, u);
        if InImage(leaps, k, u) {
          ImageNotLeap(leaps, k, u);
        } else {
          var c: nat :| Inserted(leaps, k, c, u);
          InsertedBeforeNext(leaps, k, c, u);
          InsertedSecond(leaps, k, c, u);
        }
      }
    } else {
      var c :| 0 <= c < |leaps| - 1 && leaps[c + 1] - leaps[c] < c + 1;
      var u := (leaps[c] + c) * k;
      InsertedAfterNext(leaps, k, c);
      InsertedSecond(leaps, k, c, u);
      SkippedSeconds(leaps, k, u);
    }
  }

  lemma ImageNotLeap(leaps: seq<int>, k: int, u: int)
    requires k > 0 && Increasing(leaps) && InImage(leaps, k, u)
    ensures !IsLeapSecond(leaps, k, u).0
  {
    var t :| FromSys(leaps, k, t) == u;
    BackFromUtc(leaps, k, t);
  }

  lemma InsertedBeforeNext(leaps: seq<int>, k: int, c: nat, u: int)
    requires k > 0 && Spread(leaps, 1) && Inserted(leaps, k, c, u)
    ensures c + 1 == |leaps| || u < leaps[c + 1] * k
  {
    if c + 1 < |leaps| { MulMono(leaps[c] + c + 1, leaps[c + 1], k); }
  }

  lemma InsertedAfterNext(leaps: seq<int>, k: int, c: nat)
    requires k > 0 && c < |leaps| - 1 && leaps[c + 1] - leaps[c] < c + 1
    ensures Inserted(leaps, k, c, (leaps[c] + c) * k) && (leaps[c] + c) * k >= leaps[c + 1] * k
  {
    MulMono(leaps[c + 1], leaps[c] + c, k);
    Distribute(leaps, k, c);
  }

  /** Leap dates 0, 10, 20 and 21: an instant of the last second before 21 comes back a second early. */
  lemma CloseLeapSeconds()
    ensures var leaps := [0, 10, 20, 21];
            Increasing(leaps) && !Spread(leaps, 0) && FromSys(leaps, 1, 19) == 21 && ToSys(leaps, 1, 21) == 18
  {
    var leaps := [0, 10, 20, 21];
    CountIs(leaps, 1, 19, 2);
    CountIs(leaps, 1, 21, 4);
    hide Count;
    assert leaps[3] - leaps[2] == 1 < 2;
  }

  /** Leap dates 0, 10 and 11: the second that the one of 10 inserts is skipped, and not recognised. */
  lemma UnrecognisedLeapSecond()
    ensures var leaps := [0, 10, 11];
            Increasing(leaps) && Spread(leaps, 0) && !Spread(leaps, 1)
            && !InImage(leaps, 1, 11) && !IsLeapSecond(leaps, 1, 11).0
  {
    var leaps := [0, 10, 11];
    CountIs(leaps, 1, 11, 3);
    SkippedSeconds(leaps, 1, 11);
    hide Count, FromSys, InImage;
    assert Inserted(leaps, 1, 1, 11);
    assert leaps[2] - leaps[1] == 1 < 2;
  }
}
