/** format_abbrev: the abbreviation of a zone from its format, the rule's letters, the offset and the saving. */
module Abbreviations {
  import opened Basics
  import opened Fields

  /** string::find */
  function Find(s: string, pattern: string): (k: Option<nat>)
    ensures k.Some? ==> k.value + |pattern| <= |s| && s[k.value..k.value + |pattern|] == pattern
  {
    if |s| < |pattern| then None
    else if s[..|pattern|] == pattern then Some(0)
    else if s == [] then None
    else
      var k := Find(s[1..], pattern);
      if k.Some? then
        assert s[1..][k.value..k.value + |pattern|] == s[k.value + 1..k.value + 1 + |pattern|];
        Some(k.value + 1)
      else None
  }

  /** The place found is the first. */
  lemma {:induction false} FindsFirst(s: string, pattern: string, i: nat)
    requires i + |pattern| <= |s| && s[i..i + |pattern|] == pattern
    ensures Find(s, pattern).Some? && Find(s, pattern).value <= i
  {
    if s[..|pattern|] != pattern {
      assert s[1..][i - 1..i - 1 + |pattern|] == s[i..i + |pattern|];
      FindsFirst(s[1..], pattern, i - 1);
    }
  }

  function TwoDigits(n: nat): string { (if n < 10 then "0" else "") + Natural(n) }

  /** An offset in seconds as sign, hours and, where they are needed, minutes and seconds. */
  function OffsetText(off: int): string
  {
    var abs: nat := if off < 0 then -off else off;
    var rest := abs % 3600;
    (if off < 0 then "-" else "+") + TwoDigits(abs / 3600)
    + (if rest > 0 then TwoDigits(rest / 60) + (if rest % 60 > 0 then TwoDigits(rest % 60) else "") else "")
  }

  function FormatAbbrev(format: string, letters: string, off: int, save: int): string
  {
    var s, slash, z := Find(format, "%s"), Find(format, "/"), Find(format, "%z");
    if s.Some? then format[..s.value] + letters + format[s.value + 2..]
    else if slash.Some? then if save == 0 then format[..slash.value] else format[slash.value + 1..]
    else if z.Some? then format[..z.value] + OffsetText(off) + format[z.value + 2..]
    else format
  }

  function Digit2(c: char, d: char): int { 10 * (c as int - 48) + (d as int - 48) }

  /** The offset that a text of hours, minutes and seconds stands for. */
  function TextOffset(t: string): int
  {
    if |t| < 3 then 0
    else
      var h := Digit2(t[1], t[2]) * 3600;
      var m := if |t| >= 5 then Digit2(t[3], t[4]) * 60 else 0;
      var s := if |t| >= 7 then Digit2(t[5], t[6]) else 0;
      if t[0] == '-' then -(h + m + s) else h + m + s
  }

  lemma TwoDigitsAre(n: nat)
    requires n < 100
    ensures |TwoDigits(n)| == 2 && Digit2(TwoDigits(n)[0], TwoDigits(n)[1]) == n
  {
    if n < 10 {
      assert Natural(n) == [Digit(n)];
    } else {
      assert Natural(n / 10) == [Digit(n / 10)];
    }
  }

  /** The text tells the offset: nothing is lost in leaving out what is zero. */
  lemma OffsetTextTells(off: int)
    requires -360000 < off < 360000
    ensures TextOffset(OffsetText(off)) == off
  {
    var abs: nat := if off < 0 then -off else off;
    var rest := abs % 3600;
    TwoDigitsAre(abs / 3600);
    TwoDigitsAre(rest / 60);
    TwoDigitsAre(rest % 60);
    hide TwoDigits, Digit2;
    var h, m, s := TwoDigits(abs / 3600), TwoDigits(rest / 60), TwoDigits(rest % 60);
    assert abs == abs / 3600 * 3600 + rest / 60 * 60 + rest % 60;
    if rest == 0 {
      assert OffsetText(off) == [if off < 0 then '-' else '+', h[0], h[1]];
    } else if rest % 60 == 0 {
      assert OffsetText(off) == [if off < 0 then '-' else '+', h[0], h[1], m[0], m[1]];
    } else {
      assert OffsetText(off) == [if off < 0 then '-' else '+', h[0], h[1], m[0], m[1], s[0], s[1]];
    }
  }

  // ---- the three formats

  predicate IsAt(s: string, pattern: string, i: nat) { i + |pattern| <= |s| && s[i..i + |pattern|] == pattern }

  /** A pattern is found at the first place it is at. */
  lemma FoundAt(s: string, pattern: string, i: nat)
    requires IsAt(s, pattern, i) && forall j: nat :: j < i ==> !IsAt(s, pattern, j)
    ensures Find(s, pattern) == Some(i)
  {
    hide Find;
    FindsFirst(s, pattern, i);
    assert IsAt(s, pattern, Find(s, pattern).value);
  }

  /** A pattern that is nowhere is not found. */
  lemma NotFound(s: string, pattern: string)
    requires forall j: nat :: !IsAt(s, pattern, j)
    ensures Find(s, pattern) == None
  {
    hide Find;
    var k := Find(s, pattern);
    assert k.Some? ==> IsAt(s, pattern, k.value);
  }

  lemma NotAt(s: string, pattern: string, j: nat)
    requires pattern != [] && (j < |s| ==> s[j] != pattern[0])
    ensures !IsAt(s, pattern, j)
  {
    if j + |pattern| <= |s| { assert s[j..j + |pattern|][0] == s[j]; }
  }

  /** A pattern is nowhere in a text without its first character. */
  lemma Missing(s: string, pattern: string)
    requires pattern != [] && pattern[0] !in s
    ensures forall j: nat :: !IsAt(s, pattern, j)
    ensures Find(s, pattern) == None
  {
    hide Find;
    forall j: nat
      ensures !IsAt(s, pattern, j)
    {
      NotAt(s, pattern, j);
    }
    NotFound(s, pattern);
  }

  /** Two names with a slash between them: the first is the standard one, the second the one with saving. */
  lemma SlashFormat(a: string, b: string, letters: string, off: int, save: int)
    requires '/' !in a && '%' !in a + b
    ensures FormatAbbrev(a + "/" + b, letters, off, save) == if save == 0 then a else b
  {
    hide Find;
    var s := a + "/" + b;
    Missing(s, "%s");
    forall j: nat | j < |a|
      ensures !IsAt(s, "/", j)
    {
      NotAt(s, "/", j);
    }
    FoundAt(s, "/", |a|);
    assert s[..|a|] == a && s[|a| + 1..] == b;
  }

  /** The rule's letters take the place of the first field for them. */
  lemma LettersFormat(p: string, q: string, letters: string, off: int, save: int)
    requires forall j: nat :: j < |p| ==> !IsAt(p + "%s" + q, "%s", j)
    ensures FormatAbbrev(p + "%s" + q, letters, off, save) == p + letters + q
  {
    hide Find, IsAt;
    var s := p + "%s" + q;
    assert IsAt(s, "%s", |p|) by { FieldAt(p, "%s", q); }
    FoundAt(s, "%s", |p|);
    assert s[..|p|] == p && s[|p| + 2..] == q;
  }

  lemma FieldAt(p: string, pattern: string, q: string)
    ensures IsAt(p + pattern + q, pattern, |p|)
  {
  }

  /** A text that tells the offset takes the place of the first field for it. */
  lemma OffsetFormat(p: string, q: string, letters: string, off: int, save: int)
    requires '/' !in p + q && -360000 < off < 360000
    requires forall j: nat :: !IsAt(p + "%z" + q, "%s", j)
    requires forall j: nat :: j < |p| ==> !IsAt(p + "%z" + q, "%z", j)
    ensures exists t :: FormatAbbrev(p + "%z" + q, letters, off, save) == p + t + q && TextOffset(t) == off
  {
    hide Find, OffsetText, TextOffset, IsAt;
    var s := p + "%z" + q;
    NotFound(s, "%s");
    Missing(s, "/");
    assert IsAt(s, "%z", |p|) by { FieldAt(p, "%z", q); }
    FoundAt(s, "%z", |p|);
    OffsetTextTells(off);
    assert FormatAbbrev(s, letters, off, save) == s[..|p|] + OffsetText(off) + s[|p| + 2..];
    assert s[..|p|] == p && s[|p| + 2..] == q;
  }

  /** A format without any field is the abbreviation itself. */
  lemma PlainFormat(s: string, letters: string, off: int, save: int)
    requires '/' !in s && '%' !in s
    ensures FormatAbbrev(s, letters, off, save) == s
  {
    hide Find;
    Missing(s, "%s");
    Missing(s, "%z");
    Missing(s, "/");
  }

  /** London's, New York's, Tehran's and Buenos Aires' abbreviations. */
  lemma KnownAbbreviations()
    ensures FormatAbbrev("GMT/BST", "", 0, 0) == "GMT" && FormatAbbrev("GMT/BST", "", 3600, 3600) == "BST"
    ensures FormatAbbrev("E%sT", "S", -18000, 0) == "EST" && FormatAbbrev("E%sT", "D", -14400, 3600) == "EDT"
    ensures FormatAbbrev("%z", "", 12600, 0) == "+0330" && FormatAbbrev("%z", "", -10800, 0) == "-03"
    ensures FormatAbbrev("%z", "", 0, 0) == "+00"
  {
    hide FormatAbbrev, OffsetText;
    assert "GMT" + "/" + "BST" == "GMT/BST" && "E" + "%s" + "T" == "E%sT";
    SlashFormat("GMT", "BST", "", 0, 0);
    SlashFormat("GMT", "BST", "", 3600, 3600);
    NotAt("E%sT", "%s", 0);
    LettersFormat("E", "T", "S", -18000, 0);
    LettersFormat("E", "T", "D", -14400, 3600);
    BareOffset(12600, 0);
    BareOffset(-10800, 0);
    BareOffset(0, 0);
    TwoDigitTexts();
  }

  lemma BareOffset(off: int, save: int)
    ensures FormatAbbrev("%z", "", off, save) == OffsetText(off)
  {
    hide OffsetText, Find;
    FoundAt("%z", "%z", 0);
    Missing("%z", "/");
    NotFound("%z", "%s");
  }

  lemma TwoDigitTexts()
    ensures OffsetText(12600) == "+0330" && OffsetText(-10800) == "-03" && OffsetText(0) == "+00"
  {
    assert Natural(3) == [Digit(3)] && Natural(30) == Natural(3) + [Digit(0)];
  }
}
