/** What the string operations of the model mean: each of Python's methods by what its result is to
    the text it was given. */
module Strings {
  import opened Text

  const SMALL := "abcdefghijklmnopqrstuvwxyz"
  const LARGE := "ABCDEFGHIJKLMNOPQRSTUVWXYZ"
  const ASCII_SPACES := " \t\n\r\U{0B}\U{0C}\U{1C}\U{1D}\U{1E}\U{1F}"
  const WIDE_SPACES :=
    "\U{85}\U{A0}\U{1680}\U{2000}\U{2001}\U{2002}\U{2003}\U{2004}\U{2005}\U{2006}"
    + "\U{2007}\U{2008}\U{2009}\U{200A}\U{2028}\U{2029}\U{202F}\U{205F}\U{3000}"

  /** The characters that separate words, one by one. */
  lemma SpacesExactly(c: char)
    ensures IsSpace(c) <==> c in ASCII_SPACES || c in WIDE_SPACES
  {
    AsciiSpaces(c);
    WideSpaces(c);
  }

  lemma AsciiSpaces(c: char)
    ensures c in ASCII_SPACES <==> 9 <= c as int <= 13 || 28 <= c as int <= 32
  {
  }

  lemma WideSpaces(c: char)
    ensures c in WIDE_SPACES <==>
            || c as int in {0x85, 0xA0, 0x1680, 0x2028, 0x2029, 0x202F, 0x205F, 0x3000}
            || 0x2000 <= c as int <= 0x200A
  {
  }

  // -- Letters -------------------------------------------------------------------------------------

  lemma Consecutive(s: string, first: char, c: char)
    requires forall i :: 0 <= i < |s| ==> s[i] as int == first as int + i
    ensures c in s <==> first as int <= c as int < first as int + |s|
  {
    var k := c as int - first as int;
    if 0 <= k < |s| { assert s[k] == c; }
  }

  lemma SmallLetters(c: char)
    ensures c in SMALL <==> 'a' <= c <= 'z'
  {
    Consecutive(SMALL, 'a', c);
  }

  lemma LargeLetters(c: char)
    ensures c in LARGE <==> 'A' <= c <= 'Z'
  {
    Consecutive(LARGE, 'A', c);
  }

  lemma Alphabets()
    ensures |SMALL| == |LARGE| == 26
    ensures forall i :: 0 <= i < 26 ==> LARGE[i] as int == 'A' as int + i && SMALL[i] as int == 'a' as int + i
  {
  }

  /** Lower-casing replaces a capital by the letter at its place in the alphabet and nothing else. */
  lemma LowerExactly(s: string, i: nat)
    requires i < |s|
    ensures |Lower(s)| == |s|
    ensures s[i] !in LARGE ==> Lower(s)[i] == s[i]
    ensures forall k :: 0 <= k < 26 && s[i] == LARGE[k] ==> Lower(s)[i] == SMALL[k]
  {
    Alphabets();
    LargeLetters(s[i]);
  }

  // -- Ends ----------------------------------------------------------------------------------------

  predicate Blank(s: string) {
    forall i :: 0 <= i < |s| ==> IsSpace(s[i])
  }

  lemma {:induction false} LeftStripped(s: string)
    ensures |LeftStrip(s)| <= |s| && s[|s| - |LeftStrip(s)|..] == LeftStrip(s)
    ensures Blank(s[..|s| - |LeftStrip(s)|])
    ensures LeftStrip(s) == "" || !IsSpace(LeftStrip(s)[0])
  {
    if s != "" && IsSpace(s[0]) {
      LeftStripped(s[1..]);
      var k := |s| - |LeftStrip(s)|;
      assert s[..k] == [s[0]] + s[1..][..k - 1];
    }
  }

  lemma {:induction false} RightStripped(s: string)
    ensures RightStrip(s) <= s && Blank(s[|RightStrip(s)|..])
    ensures RightStrip(s) == "" || !IsSpace(RightStrip(s)[|RightStrip(s)| - 1])
  {
    if s != "" && IsSpace(s[|s| - 1]) {
      RightStripped(s[..|s| - 1]);
      var k := |RightStrip(s)|;
      assert s[k..] == s[..|s| - 1][k..] + [s[|s| - 1]];
    }
  }

  /** `s.strip()` takes the whitespace off both ends: what is left neither begins nor ends with it. */
  lemma StripExactly(s: string) returns (left: string, right: string)
    ensures s == left + Strip(s) + right && Blank(left) && Blank(right)
    ensures Strip(s) == "" || (!IsSpace(Strip(s)[0]) && !IsSpace(Strip(s)[|Strip(s)| - 1]))
  {
    var inner := LeftStrip(s);
    LeftStripped(s);
    RightStripped(inner);
    left, right := s[..|s| - |inner|], inner[|Strip(s)|..];
  }

  /** `s.rsplit(c, 1)[-1]`: the part after the last `c`, or all of it. */
  lemma {:induction false} AfterLastExactly(s: string, c: char)
    ensures c !in AfterLast(s, c) && |AfterLast(s, c)| <= |s| && s[|s| - |AfterLast(s, c)|..] == AfterLast(s, c)
    ensures |AfterLast(s, c)| == |s| || s[|s| - |AfterLast(s, c)| - 1] == c
  {
    if s != "" && s[|s| - 1] != c {
      var front := s[..|s| - 1];
      AfterLastExactly(front, c);
      var k := |front| - |AfterLast(front, c)|;
      assert s[k..] == front[k..] + [s[|s| - 1]];
    }
  }

  // -- Numbers -------------------------------------------------------------------------------------

  /** The number decimal digits stand for. */
  function Value(digits: string): int {
    if digits == "" then 0 else 10 * Value(digits[..|digits| - 1]) + (digits[|digits| - 1] as int - '0' as int)
  }

  function Figure(n: nat): char
    requires n < 10
  {
    "0123456789"[n]
  }

  lemma FigureExactly(n: nat)
    requires n < 10
    ensures Figure(n) as int - '0' as int == n && Figure(n) == (n + '0' as int) as char
  {
  }

  lemma {:induction false} ValueMore(front: string, n: nat)
    requires n < 10
    ensures Value(front + [Figure(n)]) == 10 * Value(front) + n
  {
    FigureExactly(n);
    assert (front + [Figure(n)])[..|front|] == front;
  }

  lemma {:induction false} DigitsStep(n: nat)
    ensures Digits(n) == (if n < 10 then "" else Digits(n / 10)) + [Figure(n % 10)]
  {
    FigureExactly(n % 10);
  }

  /** A number is written in figures, the first not a zero unless it is the only one, and reads back. */
  lemma {:induction false} DigitsExactly(n: nat)
    ensures Value(Digits(n)) == n
    ensures forall i :: 0 <= i < |Digits(n)| ==> '0' <= Digits(n)[i] <= '9'
    ensures Digits(n) != "" && (Digits(n)[0] == '0' <==> n == 0)
    decreases n
  {
    hide Digits, Figure, Value;
    DigitsStep(n);
    FigureExactly(n % 10);
    if n >= 10 {
      DigitsExactly(n / 10);
      ValueMore(Digits(n / 10), n % 10);
    } else {
      ValueMore("", n % 10);
      assert Value("") == 0 by { NoValue(); }
    }
  }

  lemma NoValue()
    ensures Value("") == 0
  {
  }

  // -- Words ---------------------------------------------------------------------------------------

  /** Words with whitespace around them: at least one character of it between two. */
  predicate Spaced(gaps: seq<string>, words: seq<string>) {
    && |gaps| == |words| + 1
    && (forall i :: 0 <= i < |gaps| ==> Blank(gaps[i]))
    && (forall i :: 0 < i < |words| ==> gaps[i] != "")
  }

  function Woven(gaps: seq<string>, words: seq<string>): string
    requires |gaps| == |words| + 1
  {
    if words == [] then gaps[0] else gaps[0] + (words[0] + Woven(gaps[1..], words[1..]))
  }

  lemma {:induction false} SplitBlank(s: string, rest: string)
    requires Blank(s)
    ensures Split(s + rest) == Split(rest)
    decreases |s|
  {
    if s == "" {
      assert s + rest == rest;
    } else {
      assert (s + rest)[1..] == s[1..] + rest;
      SplitBlank(s[1..], rest);
    }
  }

  /** `s.split()` gives back words from between any whitespace. */
  lemma {:induction false} SplitExactly(gaps: seq<string>, words: seq<string>)
    requires Spaced(gaps, words) && Tokens(words)
    ensures Split(Woven(gaps, words)) == words
    decreases |words|
  {
    hide Word;
    if words == [] {
      SplitBlank(gaps[0], "");
      assert gaps[0] + "" == gaps[0];
    } else {
      var more, left := gaps[1..], words[1..];
      var rest := Woven(more, left);
      assert Blank(more[0]) && (left != [] ==> more[0] != "");
      SplitBlank(gaps[0], words[0] + rest);
      SplitStep(words[0], rest);
      assert forall i :: 0 <= i < |more| ==> more[i] == gaps[i + 1];
      assert forall i :: 0 <= i < |left| ==> left[i] == words[i + 1];
      SplitExactly(more, left);
    }
  }
}
