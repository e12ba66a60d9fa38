/** The base64 decoder, against the encoding of section 4 of RFC 4648. */
module Base64 {
  import opened Basics

  function Upper(): (s: string)
    ensures |s| == 26
  {
    "ABCDEFGHIJKLMNOPQRSTUVWXYZ"
  }

  function Lower(): (s: string)
    ensures |s| == 26
  {
    "abcdefghijklmnopqrstuvwxyz"
  }

  function Other(): (s: string)
    ensures |s| == 12
  {
    "0123456789+/"
  }

  function Alphabet(): (s: string)
    ensures |s| == 64
  {
    Upper() + Lower() + Other()
  }

  // ---- the encoding of the standard

  function CharOf(sextet: int): char
    requires 0 <= sextet < 64
  {
    Alphabet()[sextet]
  }

  /** The four sextets of three bytes. */
  function First(a: Byte): (n: int)
    ensures 0 <= n < 64
  {
    a / 4
  }

  function Second(a: Byte, b: Byte): (n: int)
    ensures 0 <= n < 64
  {
    a % 4 * 16 + b / 16
  }

  function Third(b: Byte, c: Byte): (n: int)
    ensures 0 <= n < 64
  {
    b % 16 * 4 + c / 64
  }

  function Fourth(c: Byte): (n: int)
    ensures 0 <= n < 64
  {
    c % 64
  }

  function Encode(bs: seq<Byte>): string
  {
    if bs == [] then []
    else if |bs| == 1 then [CharOf(First(bs[0])), CharOf(Second(bs[0], 0))] + "=="
    else if |bs| == 2 then [CharOf(First(bs[0])), CharOf(Second(bs[0], bs[1])), CharOf(Third(bs[1], 0))] + "="
    else EncodeGroup(bs[0], bs[1], bs[2]) + Encode(bs[3..])
  }

  function EncodeGroup(a: Byte, b: Byte, c: Byte): string
  {
    [CharOf(First(a)), CharOf(Second(a, b)), CharOf(Third(b, c)), CharOf(Fourth(c))]
  }

  // ---- the decoder

  predicate IsBase64(c: char)
  {
    'A' <= c <= 'Z' || 'a' <= c <= 'z' || '0' <= c <= '9' || c == '+' || c == '/'
  }

  /** The place of a character in the alphabet; npos, cut to a byte, for any other. */
  function Sextet(c: char): Byte
  {
    if 'A' <= c <= 'Z' then c as int - 65
    else if 'a' <= c <= 'z' then c as int - 71
    else if '0' <= c <= '9' then c as int + 4
    else if c == '+' then 62
    else if c == '/' then 63
    else 255
  }

  lemma UpperPlaces(n: int)
    requires 0 <= n < 26
    ensures Upper()[n] as int == 65 + n
  {
    assert n in {0, 1, 2, 3, 4, 5, 6, 7, 8, 9, 10, 11, 12, 13, 14, 15, 16, 17, 18, 19, 20, 21, 22, 23, 24, 25};
  }

  lemma LowerPlaces(n: int)
    requires 0 <= n < 26
    ensures Lower()[n] as int == 97 + n
  {
    assert n in {0, 1, 2, 3, 4, 5, 6, 7, 8, 9, 10, 11, 12, 13, 14, 15, 16, 17, 18, 19, 20, 21, 22, 23, 24, 25};
  }

  lemma OtherPlaces(n: int)
    requires 0 <= n < 12
    ensures Other()[n] == if n < 10 then (48 + n) as char else if n == 10 then '+' else '/'
  {
    assert n in {0, 1, 2, 3, 4, 5, 6, 7, 8, 9, 10, 11};
  }

  /** The alphabet by ranges of characters. */
  lemma CharByRange(n: int)
    requires 0 <= n < 64
    ensures CharOf(n) as int == if n < 26 then 65 + n else if n < 52 then 71 + n else if n < 62 then n - 4
                                else if n == 62 then 43 else 47
  {
    hide Upper, Lower, Other;
    if n < 26 {
      UpperPlaces(n);
    } else if n < 52 {
      LowerPlaces(n - 26);
    } else {
      OtherPlaces(n - 52);
    }
  }

  lemma AlphabetPlaces(n: int)
    requires 0 <= n < 64
    ensures IsBase64(CharOf(n)) && Sextet(CharOf(n)) == n
  {
    hide CharOf;
    CharByRange(n);
  }

  lemma PlacesInAlphabet(c: char)
    ensures IsBase64(c) <==> Sextet(c) != 255
    ensures Sextet(c) != 255 ==> Sextet(c) < 64 && CharOf(Sextet(c)) == c
  {
    hide CharOf;
    if Sextet(c) < 64 { CharByRange(Sextet(c)); }
  }

  function MixFirst(p: int, q: int): Byte { (p * 4 + q / 16 % 4) % 0x100 }

  function MixSecond(q: int, r: int): Byte { (q % 16 * 16 + r / 4 % 16) % 0x100 }

  function MixThird(r: int, t: int): Byte { (r % 4 * 64 + t) % 0x100 }

  /** Three bytes from four characters; bytes wrap around. */
  function MixChars(p: char, q: char, r: char, t: char): (m: seq<Byte>)
    ensures |m| == 3
  {
    [MixFirst(Sextet(p), Sextet(q)), MixSecond(Sextet(q), Sextet(r)), MixThird(Sextet(r), Sextet(t))]
  }

  /** The characters up to the first that is not in the alphabet. */
  function Usable(s: string): (p: string)
    ensures p <= s && (forall i :: 0 <= i < |p| ==> IsBase64(p[i])) && (|p| < |s| ==> !IsBase64(s[|p|]))
  {
    if s == [] || !IsBase64(s[0]) then [] else [s[0]] + Usable(s[1..])
  }

  /** Groups of four, then what a shorter last group holds, filled up with zero characters. */
  function DecodeChars(p: string): seq<Byte>
  {
    if |p| >= 4 then MixChars(p[0], p[1], p[2], p[3]) + DecodeChars(p[4..])
    else if |p| == 3 then MixChars(p[0], p[1], p[2], '\0')[..2]
    else if |p| == 2 then MixChars(p[0], p[1], '\0', '\0')[..1]
    else []
  }

  function Decoded(s: string): seq<Byte> { DecodeChars(Usable(s)) }

  // ---- the round trip

  lemma BytesBack(a: Byte, b: Byte, c: Byte)
    ensures MixFirst(First(a), Second(a, b)) == a
    ensures MixSecond(Second(a, b), Third(b, c)) == b
    ensures MixThird(Third(b, c), Fourth(c)) == c
  {
    FirstBack(a, b);
    SecondBack(a, b, c);
    ThirdBack(b, c);
  }

  lemma FirstBack(a: Byte, b: Byte)
    ensures MixFirst(First(a), Second(a, b)) == a
  {
    assert Second(a, b) / 16 == a % 4;
  }

  lemma LowPart(h: int, l: int)
    requires 0 <= l < 16
    ensures (h * 16 + l) % 16 == l
  {
  }

  lemma HighPart(h: int, l: int)
    requires 0 <= l < 4
    ensures (h * 4 + l) / 4 == h
  {
  }

  lemma SecondBack(a: Byte, b: Byte, c: Byte)
    ensures MixSecond(Second(a, b), Third(b, c)) == b
  {
    LowPart(a % 4, b / 16);
    HighPart(b % 16, c / 64);
    Joined(Second(a, b), Third(b, c), b);
  }

  lemma Joined(q: int, r: int, b: Byte)
    requires q % 16 == b / 16 && r / 4 == b % 16
    ensures MixSecond(q, r) == b
  {
    assert b / 16 * 16 + b % 16 == b;
  }

  lemma ThirdBack(b: Byte, c: Byte)
    ensures MixThird(Third(b, c), Fourth(c)) == c
  {
    assert Third(b, c) % 4 == c / 64;
  }

  /** Decoding an encoded byte string gives it back, also when something follows its padding. */
  lemma {:induction false} RoundTrip(bs: seq<Byte>, more: string)
    requires more == [] || !IsBase64(more[0])
    ensures Decoded(Encode(bs) + more) == bs
  {
    assert bs == [] ==> Encode(bs) + more == more && Decoded(more) == [];
    hide Decoded, Encode, EncodeGroup;
    if |bs| == 1 {
      assert bs == [bs[0]];
      OneRoundTrip(bs[0], more);
    } else if |bs| == 2 {
      assert bs == [bs[0], bs[1]];
      TwoRoundTrip(bs[0], bs[1], more);
    } else if |bs| > 2 {
      EncodeLong(bs, more);
      GroupRoundTrip(bs[0], bs[1], bs[2], Encode(bs[3..]) + more);
      RoundTrip(bs[3..], more);
      FirstThree(bs);
    }
  }

  lemma FirstThree(bs: seq<Byte>)
    requires |bs| > 2
    ensures bs == [bs[0], bs[1], bs[2]] + bs[3..]
  {
  }

  lemma Assoc(a: string, b: string, c: string)
    ensures a + b + c == a + (b + c)
  {
  }

  lemma EncodeLong(bs: seq<Byte>, more: string)
    requires |bs| > 2
    ensures Encode(bs) + more == EncodeGroup(bs[0], bs[1], bs[2]) + (Encode(bs[3..]) + more)
  {
    Assoc(EncodeGroup(bs[0], bs[1], bs[2]), Encode(bs[3..]), more);
  }

  lemma UsableTake(a: string, rest: string)
    requires forall i :: 0 <= i < |a| ==> IsBase64(a[i])
    ensures Usable(a + rest) == a + Usable(rest)
  {
    if a == [] {
      assert a + rest == rest;
    } else {
      assert (a + rest)[1..] == a[1..] + rest;
      UsableTake(a[1..], rest);
    }
  }

  lemma GroupRoundTrip(a: Byte, b: Byte, c: Byte, rest: string)
    ensures Decoded(EncodeGroup(a, b, c) + rest) == [a, b, c] + Decoded(rest)
  {
    BytesBack(a, b, c);
    AlphabetPlaces(First(a)); AlphabetPlaces(Second(a, b)); AlphabetPlaces(Third(b, c)); AlphabetPlaces(Fourth(c));
    hide CharOf, Sextet, IsBase64, Usable, First, Second, Third, Fourth, MixFirst, MixSecond, MixThird;
    var head := EncodeGroup(a, b, c);
    UsableTake(head, rest);
    assert (head + Usable(rest))[4..] == Usable(rest);
  }

  lemma OneRoundTrip(a: Byte, more: string)
    ensures Decoded(Encode([a]) + more) == [a]
  {
    FirstBack(a, 0);
    AlphabetPlaces(First(a)); AlphabetPlaces(Second(a, 0));
    var head := [CharOf(First(a)), CharOf(Second(a, 0))];
    assert Encode([a]) == head + "==" && !IsBase64('=');
    hide CharOf, Sextet, IsBase64, First, Second, MixFirst, MixSecond, MixThird, Encode;
    UsableHead(head, "==", more);
  }

  lemma TwoRoundTrip(a: Byte, b: Byte, more: string)
    ensures Decoded(Encode([a, b]) + more) == [a, b]
  {
    FirstBack(a, b);
    SecondBack(a, b, 0);
    AlphabetPlaces(First(a)); AlphabetPlaces(Second(a, b)); AlphabetPlaces(Third(b, 0));
    var head := [CharOf(First(a)), CharOf(Second(a, b)), CharOf(Third(b, 0))];
    EncodeTwo(a, b);
    assert !IsBase64('=');
    hide CharOf, Sextet, IsBase64, First, Second, Third, MixFirst, MixSecond, MixThird, Encode, DecodeChars, Usable;
    UsableHead(head, "=", more);
    DecodeThree(head);
  }

  lemma DecodeThree(p: string)
    requires |p| == 3
    ensures DecodeChars(p) == [MixFirst(Sextet(p[0]), Sextet(p[1])), MixSecond(Sextet(p[1]), Sextet(p[2]))]
  {
  }

  lemma EncodeTwo(a: Byte, b: Byte)
    ensures Encode([a, b]) == [CharOf(First(a)), CharOf(Second(a, b)), CharOf(Third(b, 0))] + "="
  {
    hide CharOf, First, Second, Third;
  }

  /** The padding ends what is used. */
  lemma UsableHead(head: string, padding: string, more: string)
    requires (forall i :: 0 <= i < |head| ==> IsBase64(head[i])) && padding != [] && !IsBase64(padding[0])
    ensures Usable(head + padding + more) == head
  {
    Assoc(head, padding, more);
    UsableTake(head, padding + more);
  }

  // ---- the loops

  method Find(c: char) returns (place: Byte)
    ensures place == Sextet(c)
  {
    hide CharOf, Sextet;
    for n := 0 to 64
      invariant forall m :: 0 <= m < n ==> CharOf(m) != c
    {
      if CharOf(n) == c {
        AlphabetPlaces(n);
        return n;
      }
    }
    PlacesInAlphabet(c);
    return 255;
  }

  /** Four characters become four sextets in place, and these three bytes. */
  method Convert(quad: array<int>, triple: array<Byte>)
    requires quad.Length == 4 && triple.Length == 3
    requires forall i :: 0 <= i < 4 ==> 0 <= quad[i] < 0x100
    modifies quad, triple
    ensures triple[..] == MixChars(old(quad[0]) as char, old(quad[1]) as char, old(quad[2]) as char, old(quad[3]) as char)
  {
    hide Sextet;
    for i := 0 to 4
      invariant forall j :: 0 <= j < i ==> quad[j] == Sextet(old(quad[j]) as char)
      invariant forall j :: i <= j < 4 ==> quad[j] == old(quad[j])
    {
      quad[i] := Find(quad[i] as char);
    }
    triple[0] := (quad[0] * 4 + quad[1] / 16 % 4) % 0x100;
    triple[1] := (quad[1] % 16 * 16 + quad[2] / 4 % 16) % 0x100;
    triple[2] := (quad[2] % 4 * 64 + quad[3]) % 0x100;
  }

  /** A full group adds its three bytes. */
  method AddGroup(quad: array<int>, triple: array<Byte>, before: seq<Byte>, ghost p: string, ghost k: nat)
    returns (ret: seq<Byte>)
    requires quad.Length == 4 && triple.Length == 3 && k + 4 <= |p|
    requires forall j :: 0 <= j < 4 ==> IsBase64(p[k + j]) && quad[j] == p[k + j] as int
    modifies quad, triple
    ensures ret + DecodeChars(p[k + 4..]) == before + DecodeChars(p[k..])
  {
    hide MixChars, DecodeChars;
    DecodeGroup(p, k);
    assert quad[0] == p[k + 0] as int && quad[1] == p[k + 1] as int && quad[2] == p[k + 2] as int && quad[3] == p[k + 3] as int;
    Convert(quad, triple);
    ret := before + triple[..];
  }

  /** A shorter last group of i characters adds i - 1 bytes. */
  method AddTail(quad: array<int>, triple: array<Byte>, before: seq<Byte>, i: nat, ghost p: string)
    returns (ret: seq<Byte>)
    requires quad.Length == 4 && triple.Length == 3 && 0 < i < 4 && i <= |p|
    requires forall j :: 0 <= j < i ==> IsBase64(p[|p| - i + j]) && quad[j] == p[|p| - i + j] as int
    modifies quad, triple
    ensures ret == before + DecodeChars(p[|p| - i..])
  {
    hide MixChars, DecodeChars;
    ghost var k := |p| - i;
    for j := i to 4
      invariant forall m :: 0 <= m < i ==> quad[m] == p[k + m] as int && quad[m] < 0x100
      invariant forall m :: i <= m < j ==> quad[m] == 0
    {
      quad[j] := 0;
    }
    DecodeTail(p, i);
    assert quad[0] == p[k + 0] as int && (i > 1 ==> quad[1] == p[k + 1] as int) && (i > 2 ==> quad[2] == p[k + 2] as int);
    Convert(quad, triple);
    ret := before + triple[..i - 1];
  }

  /** The last i of the first k usable characters are in the array, and the bytes of those before are out. */
  ghost predicate Filled(quad: seq<int>, i: int, p: string, k: int, out: seq<Byte>)
  {
    && |quad| == 4 && 0 <= i < 4 && i <= k <= |p|
    && (forall j :: 0 <= j < i ==> quad[j] == p[k - i + j] as int)
    && out + DecodeChars(p[k - i..]) == DecodeChars(p)
  }

  lemma NothingFilled(quad: seq<int>, p: string)
    requires |quad| == 4
    ensures Filled(quad, 0, p, 0, [])
  {
    assert p[0..] == p && [] + DecodeChars(p) == DecodeChars(p);
  }

  /** A round of the loop takes one more character. */
  method TakeChar(quad: array<int>, triple: array<Byte>, before: seq<Byte>, n: int, c: char, ghost p: string, ghost k: nat)
    returns (ret: seq<Byte>, i: int)
    requires quad.Length == 4 && triple.Length == 3 && Filled(quad[..], n, p, k, before)
    requires k < |p| && p[k] == c && forall j :: 0 <= j < |p| ==> IsBase64(p[j])
    modifies quad, triple
    ensures Filled(quad[..], i, p, k + 1, ret)
  {
    hide DecodeChars, IsBase64;
    quad[n] := c as int;
    ret, i := before, n + 1;
    if i == 4 {
      ret := AddGroup(quad, triple, ret, p, k - 3);
      i := 0;
    }
  }

  lemma PaddingIsOutside()
    ensures !IsBase64('=')
  {
  }

  method Base64Decode(s: string) returns (ret: seq<Byte>)
    requires |s| <= INT_MAX
    ensures ret == Decoded(s)
  {
    hide DecodeChars, IsBase64, Filled, Usable;
    ghost var p := Usable(s);
    PaddingIsOutside();
    var quad, triple := new int[4], new Byte[3];
    var i, k := 0, 0;
    ret := [];
    NothingFilled(quad[..], p);
    while k < |s| && s[k] != '=' && IsBase64(s[k])
      invariant k <= |p| && Filled(quad[..], i, p, k, ret)
    {
      ret, i := TakeChar(quad, triple, ret, i, s[k], p, k);
      k := k + 1;
    }
    ret := Finish(quad, triple, ret, i, p);
  }

  method Finish(quad: array<int>, triple: array<Byte>, before: seq<Byte>, i: int, ghost p: string) returns (ret: seq<Byte>)
    requires quad.Length == 4 && triple.Length == 3 && Filled(quad[..], i, p, |p|, before)
    requires forall j :: 0 <= j < |p| ==> IsBase64(p[j])
    modifies quad, triple
    ensures ret == DecodeChars(p)
  {
    hide DecodeChars, IsBase64;
    DecodeTail(p, 0);
    ret := before;
    if i != 0 {
      ret := AddTail(quad, triple, ret, i, p);
    }
  }

  lemma DecodeGroup(p: string, k: nat)
    requires k + 4 <= |p|
    ensures DecodeChars(p[k..]) == MixChars(p[k], p[k + 1], p[k + 2], p[k + 3]) + DecodeChars(p[k + 4..])
  {
    assert p[k..][4..] == p[k + 4..];
  }

  lemma DecodeTail(p: string, i: nat)
    requires i < 4 && i <= |p|
    ensures var k := |p| - i;
            DecodeChars(p[k..]) ==
            if i == 0 then []
            else MixChars(p[k], if i > 1 then p[k + 1] else '\0', if i > 2 then p[k + 2] else '\0', '\0')[..i - 1]
  {
  }

  /** Test vectors of section 10 of RFC 4648. */
  lemma TestVectors()
    ensures Encode([102]) == "Zg==" && Encode([102, 111]) == "Zm8=" && Encode([102, 111, 111]) == "Zm9v"
  {
    hide CharOf;
    CharByRange(25);
    CharByRange(32);
    CharByRange(38);
    CharByRange(47);
    CharByRange(60);
    CharByRange(61);
    assert [102, 111, 111][3..] == [];
  }
}
