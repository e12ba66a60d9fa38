/** The fields of a message: texts that end in a NUL, and numbers and flags as such texts. */
module Fields {
  import opened Basics

  const NUL := '\0'

  datatype Failure =
    | Short          // the message ends within a field
    | NullItem       // a condition of an unknown type is used through a null pointer
    | OtherKind      // a price or a percent-change condition

  /** What reading returns, and what is left of the message. */
  datatype Read<+T> = Got(value: T, rest: string) | Bad(why: Failure)
  {
    predicate IsFailure() { Bad? }
    function PropagateFailure<U>(): Read<U>
      requires Bad?
    {
      Bad(why)
    }
    function Extract(): (T, string)
      requires Got?
    {
      (value, rest)
    }
  }

  function Text(f: string): string { f + [NUL] }

  function TextOf(fs: seq<string>): string
  {
    if fs == [] then [] else Text(fs[0]) + TextOf(fs[1..])
  }

  lemma {:induction false} TextOfConcat(a: seq<string>, b: seq<string>)
    ensures TextOf(a + b) == TextOf(a) + TextOf(b)
  {
    if a == [] {
      assert a + b == b;
    } else {
      assert (a + b)[1..] == a[1..] + b;
      TextOfConcat(a[1..], b);
    }
  }

  /** The text up to the first NUL. */
  function NextField(s: string): Read<string>
  {
    if s == [] then Bad(Short)
    else if s[0] == NUL then Got([], s[1..])
    else
      var f :- NextField(s[1..]);
      Got([s[0]] + f.0, f.1)
  }

  lemma {:induction false} NextFieldExact(s: string, f: string, rest: string)
    ensures NextField(s) == Got(f, rest) <==> s == Text(f) + rest && NUL !in f
  {
    if s != [] {
      if s[0] == NUL {
        if f != [] { assert f[0] in f; }
        if f == [] { assert Text(f) + rest == [NUL] + rest; }
      } else if f != [] {
        NextFieldExact(s[1..], f[1..], rest);
        assert f == [f[0]] + f[1..];
        assert s[0] == f[0] ==> (s == Text(f) + rest <==> s[1..] == Text(f[1..]) + rest) by {
          assert s == [s[0]] + s[1..] && Text(f) + rest == [f[0]] + (Text(f[1..]) + rest);
        }
      }
    }
  }

  lemma FirstField(f: string, fs: seq<string>, rest: string)
    requires NUL !in f
    ensures NextField(TextOf([f] + fs) + rest) == Got(f, TextOf(fs) + rest)
  {
    assert ([f] + fs)[1..] == fs;
    assert TextOf([f] + fs) + rest == Text(f) + (TextOf(fs) + rest);
    NextFieldExact(TextOf([f] + fs) + rest, f, TextOf(fs) + rest);
  }

  // ---- decimal numbers

  predicate IsDigit(c: char) { '0' <= c <= '9' }

  predicate IsSpace(c: char) { c == ' ' || '\t' <= c <= '\r' }

  function Digit(n: int): char
    requires 0 <= n < 10
  {
    (n + 48) as char
  }

  function Natural(n: nat): (s: string)
    ensures s != [] && forall i :: 0 <= i < |s| ==> IsDigit(s[i])
  {
    if n < 10 then [Digit(n)] else Natural(n / 10) + [Digit(n % 10)]
  }

  /** An int as a stream writes it. */
  function Decimal(n: int): string { if n < 0 then "-" + Natural(-n) else Natural(n) }

  /** The value of the digits at the front, after some that had the value acc. */
  function Digits(s: string, acc: nat): nat
  {
    if s == [] || !IsDigit(s[0]) then acc else Digits(s[1..], 10 * acc + (s[0] as int - 48))
  }

  function SkipSpace(s: string): string
  {
    if s != [] && IsSpace(s[0]) then SkipSpace(s[1..]) else s
  }

  /** Blanks, a sign, digits, and whatever else. */
  function Parsed(s: string): int
  {
    var t := SkipSpace(s);
    if t != [] && t[0] == '-' then 0 - Digits(t[1..], 0)
    else if t != [] && t[0] == '+' then Digits(t[1..], 0)
    else Digits(t, 0)
  }

  const LONG_MIN := -0x8000_0000_0000_0000
  const LONG_MAX := 0x7FFF_FFFF_FFFF_FFFF

  predicate IsInt(n: int) { INT_MIN <= n <= INT_MAX }

  function Clamp(n: int, lo: int, hi: int): int { if n < lo then lo else if n > hi then hi else n }

  /** atoi: strtol, which stops at the limits of a long, cut to an int. */
  function Atoi(s: string): int { (Clamp(Parsed(s), LONG_MIN, LONG_MAX) - INT_MIN) % 0x1_0000_0000 + INT_MIN }

  /** An int read from a stream stops at the limits of an int; blanks alone leave the variable as it was. */
  function StreamInt(s: string, before: int): int
  {
    if SkipSpace(s) == [] then before else Clamp(Parsed(s), INT_MIN, INT_MAX)
  }

  lemma {:induction false} DigitsConcat(a: string, b: string, acc: nat)
    requires forall i :: 0 <= i < |a| ==> IsDigit(a[i])
    ensures Digits(a + b, acc) == Digits(b, Digits(a, acc))
  {
    if a == [] {
      assert a + b == b;
    } else {
      assert (a + b)[1..] == a[1..] + b;
      DigitsConcat(a[1..], b, 10 * acc + (a[0] as int - 48));
    }
  }

  lemma {:induction false} NaturalRoundTrip(n: nat)
    ensures Digits(Natural(n), 0) == n
  {
    if n >= 10 {
      NaturalRoundTrip(n / 10);
      DigitsConcat(Natural(n / 10), [Digit(n % 10)], 0);
      OneDigit(n % 10, n / 10);
    } else {
      OneDigit(n, 0);
    }
  }

  lemma OneDigit(d: nat, acc: nat)
    requires d < 10
    ensures Digits([Digit(d)], acc) == 10 * acc + d
  {
    assert Digits([Digit(d)][1..], 10 * acc + d) == 10 * acc + d;
  }

  /** Written in decimal and read back, by either reader, an int is the same. */
  lemma DecimalRoundTrip(n: int, before: int)
    requires IsInt(n)
    ensures Atoi(Decimal(n)) == n && StreamInt(Decimal(n), before) == n
  {
    hide Parsed, Decimal;
    ParsedDecimal(n);
  }

  lemma ParsedDecimal(n: int)
    ensures Parsed(Decimal(n)) == n && SkipSpace(Decimal(n)) != []
  {
    var s := Decimal(n);
    NaturalRoundTrip(if n < 0 then -n else n);
    assert IsDigit(Natural(if n < 0 then -n else n)[0]);
    assert SkipSpace(s) == s;
    if n < 0 { assert s[1..] == Natural(-n); }
  }

  /** What atoi makes of any whole number: beyond the range of a long it stops at the limits, which are 0 and -1 when cut
      to an int; within it the number is kept modulo 2^32. */
  lemma AtoiWraps(n: int)
    ensures var r := Atoi(Decimal(n));
            && -2147483648 <= r <= 2147483647
            && (n <= -9223372036854775808 ==> r == 0) && (n >= 9223372036854775807 ==> r == -1)
            && (-9223372036854775808 < n < 9223372036854775807 ==> exists q :: r == n + q * 4294967296)
  {
    hide Parsed, Decimal;
    ParsedDecimal(n);
    var m := Clamp(n, LONG_MIN, LONG_MAX) + 2147483648;
    assert Atoi(Decimal(n)) == n + (-(m / 4294967296)) * 4294967296 || m != n + 2147483648;
  }

  /** What a stream makes of it: it stops at the limits of an int. */
  lemma StreamStops(n: int, before: int)
    ensures StreamInt(Decimal(n), before)
            == if n > 2147483647 then 2147483647 else if n < -2147483648 then -2147483648 else n
  {
    hide Parsed, Decimal;
    ParsedDecimal(n);
  }

  /** Blanks before a number and a plus sign change nothing, and anything else makes it zero. */
  lemma BeforeTheNumber(c: char, s: string)
    ensures c in [' ', '\t', '\n', 11 as char, 12 as char, '\r'] ==> Parsed([c] + s) == Parsed(s)
    ensures c == '+' && s != [] && '0' <= s[0] <= '9' ==> Parsed([c] + s) == Parsed(s)
    ensures c !in [' ', '\t', '\n', 11 as char, 12 as char, '\r', '+', '-'] && !('0' <= c <= '9') ==> Parsed([c] + s) == 0
  {
    assert ([c] + s)[1..] == s;
  }

  /** The number ends at the first character that is no digit. */
  lemma AfterTheNumber(n: nat, c: char, s: string)
    requires !('0' <= c <= '9')
    ensures Parsed(Natural(n) + [c] + s) == n
  {
    var a := Natural(n);
    NaturalRoundTrip(n);
    DigitsConcat(a, [c] + s, 0);
    assert a + [c] + s == a + ([c] + s);
    assert IsDigit(a[0]);
  }

  // ---- characters that may be sent

  predicate Printable(s: string) { forall i :: 0 <= i < |s| ==> 32 <= s[i] as int < 127 }

  /** What may be sent: any character from the blank to the tilde. */
  lemma PrintableMeans(s: string)
    ensures Printable(s) <==> forall c :: c in s ==> ' ' <= c <= '~'
  {
    assert forall i :: 0 <= i < |s| ==> s[i] in s;
  }

  lemma PrintableHasNoNul(s: string)
    requires Printable(s)
    ensures NUL !in s
  {
  }

  lemma DecimalIsPrintable(n: int)
    ensures Printable(Decimal(n))
  {
    assert Printable(Natural(if n < 0 then -n else n));
  }
}
