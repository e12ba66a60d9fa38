/** The byte stream between the client and the server: every message is a payload behind a four-byte length. */
module Framing {
  import opened Basics

  const HEADER_LEN := 4
  const MAX_MSG_LEN := 0xFFFFFF

  /** htonl */
  function BigEndian(n: int): (h: seq<Byte>)
    requires 0 <= n < 0x1_0000_0000
    ensures |h| == HEADER_LEN
  {
    [n / 0x100_0000, n / 0x1_0000 % 0x100, n / 0x100 % 0x100, n % 0x100]
  }

  /** ntohl, read as a signed int. */
  function Int32(h: seq<Byte>): int
    requires |h| == HEADER_LEN
  {
    var a: int, b: int, c: int := h[0], h[1], h[2];
    var u := a * 0x100_0000 + b * 0x1_0000 + c * 0x100 + h[3];
    if u < 0x8000_0000 then u else u - 0x1_0000_0000
  }

  predicate Sendable(p: seq<Byte>) { 1 <= |p| <= MAX_MSG_LEN }

  /** What goes over the wire for a payload: one that is too long keeps the empty header. */
  function Frame(p: seq<Byte>): (f: seq<Byte>)
    ensures |f| == HEADER_LEN + |p|
  {
    (if |p| > MAX_MSG_LEN then [0, 0, 0, 0] else BigEndian(|p|)) + p
  }

  function Frames(ps: seq<seq<Byte>>): seq<Byte>
  {
    if ps == [] then [] else Frame(ps[0]) + Frames(ps[1..])
  }

  /** The payload at the front of a stream, if it is complete and its length is one that a reader takes. */
  function FirstFrame(s: seq<Byte>): (p: Option<seq<Byte>>)
    ensures p.Some? ==> Sendable(p.value) && |s| >= HEADER_LEN + |p.value|
  {
    if |s| < HEADER_LEN then None
    else
      var n := Int32(s[..HEADER_LEN]);
      if n <= 0 || n > MAX_MSG_LEN || |s| < HEADER_LEN + n then None else Some(s[HEADER_LEN..HEADER_LEN + n])
  }

  /** All payloads of a stream, up to the first that is not complete or that no reader takes. */
  function Payloads(s: seq<Byte>): seq<seq<Byte>>
  {
    match FirstFrame(s)
    case None => []
    case Some(p) => [p] + Payloads(s[HEADER_LEN + |p|..])
  }

  /** Any 32 bits are read back, as the signed int they stand for. */
  lemma LengthRoundTrip(n: int)
    requires 0 <= n < 4294967296
    ensures Int32(BigEndian(n)) == if n < 2147483648 then n else n - 4294967296
  {
    var u, v := n / 0x100, n / 0x1_0000;
    assert n == u * 0x100 + n % 0x100;
    assert u == v * 0x100 + u % 0x100 && v == u / 0x100;
    assert v == v / 0x100 * 0x100 + v % 0x100 && v / 0x100 == n / 0x100_0000;
  }

  /** A payload of three bytes on the wire, and one of 70000. */
  lemma FramesOnTheWire(p: seq<Byte>)
    ensures |p| == 3 ==> Frame(p) == [0, 0, 0, 3] + p
    ensures |p| == 70000 ==> Frame(p) == [0, 1, 17, 112] + p
    ensures |p| >= 16777216 ==> Frame(p) == [0, 0, 0, 0] + p
  {
  }

  /** Only one header stands for a length. */
  lemma HeaderRoundTrip(h: seq<Byte>)
    requires |h| == HEADER_LEN && 0 <= Int32(h) <= MAX_MSG_LEN
    ensures BigEndian(Int32(h)) == h
  {
    var b: int, c: int := h[1], h[2];
    var n := b * 0x1_0000 + c * 0x100 + h[3];
    assert h[0] == 0 && Int32(h) == n;
    assert n / 0x1_0000 == b && n / 0x100 == b * 0x100 + c;
  }

  lemma FirstOfFrame(p: seq<Byte>, rest: seq<Byte>)
    requires p != []
    ensures FirstFrame(Frame(p) + rest) == if Sendable(p) then Some(p) else None
  {
    var s := Frame(p) + rest;
    if Sendable(p) {
      LengthRoundTrip(|p|);
      assert s[..HEADER_LEN] == BigEndian(|p|);
      assert s[HEADER_LEN..HEADER_LEN + |p|] == p;
    } else {
      assert s[..HEADER_LEN] == [0, 0, 0, 0];
    }
  }

  lemma FrameOfFirst(s: seq<Byte>)
    requires FirstFrame(s).Some?
    ensures var p := FirstFrame(s).value; s == Frame(p) + s[HEADER_LEN + |p|..]
  {
    HeaderRoundTrip(s[..HEADER_LEN]);
  }

  lemma PayloadsOfFrame(p: seq<Byte>, rest: seq<Byte>)
    requires Sendable(p)
    ensures Payloads(Frame(p) + rest) == [p] + Payloads(rest)
  {
    hide FirstFrame, Frame;
    FirstOfFrame(p, rest);
    assert (Frame(p) + rest)[HEADER_LEN + |p|..] == rest;
  }

  lemma {:induction false} FramesConcat(a: seq<seq<Byte>>, b: seq<seq<Byte>>)
    ensures Frames(a + b) == Frames(a) + Frames(b)
  {
    hide Frame;
    if a == [] {
      assert a + b == b;
    } else {
      assert (a + b)[1..] == a[1..] + b;
      FramesConcat(a[1..], b);
      assert Frames(a + b) == Frame(a[0]) + Frames(a[1..] + b);
    }
  }

  lemma FramesCons(p: seq<Byte>, ps: seq<seq<Byte>>)
    ensures Frames([p] + ps) == Frame(p) + Frames(ps)
  {
    assert ([p] + ps)[1..] == ps;
  }

  lemma FramesOne(p: seq<Byte>)
    ensures Frames([p]) == Frame(p)
  {
    assert [p][1..] == [];
  }

  lemma PrefixOfRest(a: seq<Byte>, b: seq<Byte>, s: seq<Byte>, rest: seq<Byte>)
    requires s == a + rest && b <= rest
    ensures a + b <= s && s[|a + b|..] == rest[|b|..]
  {
    assert s == a + b + rest[|b|..];
  }

  /** A stream is the frames of its payloads, and a rest that does not start with a whole frame. */
  lemma {:induction false} PayloadsFill(s: seq<Byte>)
    ensures forall i :: 0 <= i < |Payloads(s)| ==> Sendable(Payloads(s)[i])
    ensures Frames(Payloads(s)) <= s && FirstFrame(s[|Frames(Payloads(s))|..]) == None
  {
    hide Frame;
    if FirstFrame(s).Some? {
      hide FirstFrame;
      var p, rest := FirstFrame(s).value, s[HEADER_LEN + |FirstFrame(s).value|..];
      FrameOfFirst(s);
      PayloadsFill(rest);
      FramesCons(p, Payloads(rest));
      assert Payloads(s) == [p] + Payloads(rest);
      hide Frames, Payloads;
      PrefixOfRest(Frame(p), Frames(Payloads(rest)), s, rest);
    }
  }

  /** How many of some frames lie wholly within the first k bytes. */
  function Whole(ps: seq<seq<Byte>>, k: nat): (n: nat)
    ensures n <= |ps|
  {
    if ps == [] || k < |Frame(ps[0])| then 0 else 1 + Whole(ps[1..], k - |Frame(ps[0])|)
  }

  lemma {:induction false} AllWhole(ps: seq<seq<Byte>>)
    ensures Whole(ps, |Frames(ps)|) == |ps|
  {
    if ps != [] { AllWhole(ps[1..]); }
  }

  /** Cut anywhere, a stream of sendable payloads yields those that arrived whole. */
  lemma {:induction false} CutStream(ps: seq<seq<Byte>>, k: nat)
    requires (forall i :: 0 <= i < |ps| ==> Sendable(ps[i])) && k <= |Frames(ps)|
    ensures Payloads(Frames(ps)[..k]) == ps[..Whole(ps, k)]
  {
    hide Frame, FirstFrame;
    if ps != [] {
      var p, f := ps[0], Frame(ps[0]);
      if |f| <= k {
        assert Frames(ps)[..k] == f + Frames(ps[1..])[..k - |f|];
        PayloadsOfFrame(p, Frames(ps[1..])[..k - |f|]);
        CutStream(ps[1..], k - |f|);
        assert ps[..Whole(ps, k)] == [p] + ps[1..][..Whole(ps[1..], k - |f|)];
      } else {
        CutFrame(p, k);
        assert Frames(ps)[..k] == f[..k];
      }
    }
  }

  lemma CutFrame(p: seq<Byte>, k: nat)
    requires Sendable(p) && k < |Frame(p)|
    ensures FirstFrame(Frame(p)[..k]) == None
  {
    if k >= HEADER_LEN {
      LengthRoundTrip(|p|);
      assert Frame(p)[..k][..HEADER_LEN] == BigEndian(|p|);
    }
  }

  /** Everything that was sent is read if and only if no payload is longer than the limit. */
  lemma {:induction false} AllReadIff(ps: seq<seq<Byte>>)
    requires forall i :: 0 <= i < |ps| ==> ps[i] != []
    ensures Payloads(Frames(ps)) == ps <==> forall i :: 0 <= i < |ps| ==> |ps[i]| <= MAX_MSG_LEN
  {
    if ps != [] {
      hide Frame, FirstFrame;
      FirstOfFrame(ps[0], Frames(ps[1..]));
      if Sendable(ps[0]) {
        PayloadsOfFrame(ps[0], Frames(ps[1..]));
        assert Payloads(Frames(ps)) == ps <==> Payloads(Frames(ps[1..])) == ps[1..];
        AllReadIff(ps[1..]);
        assert ps == [ps[0]] + ps[1..];
      }
    }
  }

  /** Sendable payloads whose frames start a stream of frames are the first payloads of the stream. */
  lemma {:induction false} FramesInjective(qs: seq<seq<Byte>>, ps: seq<seq<Byte>>)
    requires (forall i :: 0 <= i < |qs| ==> Sendable(qs[i])) && (forall i :: 0 <= i < |ps| ==> ps[i] != [])
    requires Frames(qs) <= Frames(ps)
    ensures qs <= ps
  {
    if qs != [] {
      assert |Frame(qs[0])| > 0;
      hide Frame, FirstFrame;
      var tail := Frames(ps)[|Frames(qs)|..];
      assert Frames(ps) == Frame(qs[0]) + (Frames(qs[1..]) + tail);
      FirstOfFrame(qs[0], Frames(qs[1..]) + tail);
      assert ps != [];
      FirstOfFrame(ps[0], Frames(ps[1..]));
      assert qs[0] == ps[0];
      assert Frames(ps[1..]) == Frames(qs[1..]) + tail by {
        assert Frames(ps)[|Frame(qs[0])|..] == Frames(ps[1..]) == Frames(qs[1..]) + tail;
      }
      FramesInjective(qs[1..], ps[1..]);
      assert qs == [qs[0]] + qs[1..] && ps == [ps[0]] + ps[1..];
    }
  }

  /** A payload of one byte more than the limit is not read, and neither is anything after it. */
  lemma TooLongStopsTheReader(later: seq<Byte>)
    ensures var p := seq(MAX_MSG_LEN + 1, i => 0); Payloads(Frame(p) + later) == []
  {
    hide Frame;
    FirstOfFrame(seq(MAX_MSG_LEN + 1, i => 0), later);
  }

  /** What a stream yields after some frames. */
  lemma {:induction false} PayloadsAfter(ds: seq<seq<Byte>>, rest: seq<Byte>)
    requires forall i :: 0 <= i < |ds| ==> Sendable(ds[i])
    ensures Payloads(Frames(ds) + rest) == ds + Payloads(rest)
  {
    hide Frame, FirstFrame;
    if ds == [] {
      assert Frames(ds) + rest == rest;
    } else {
      PayloadsAfter(ds[1..], rest);
      PayloadsOfFrame(ds[0], Frames(ds[1..]) + rest);
      assert Frames(ds) + rest == Frame(ds[0]) + (Frames(ds[1..]) + rest);
      assert ds == [ds[0]] + ds[1..];
    }
  }

  /** Bytes that start with their own length are a frame. */
  lemma BytesOfFrame(x: seq<Byte>)
    requires |x| >= HEADER_LEN && 1 <= Int32(x[..HEADER_LEN]) <= MAX_MSG_LEN && |x| == HEADER_LEN + Int32(x[..HEADER_LEN])
    ensures Sendable(x[HEADER_LEN..]) && Frame(x[HEADER_LEN..]) == x
  {
    HeaderRoundTrip(x[..HEADER_LEN]);
  }
}
