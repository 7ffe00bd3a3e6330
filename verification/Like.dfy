/** Prefix lookup: the escaped SQL LIKE pattern `find_by_prefix` sends, and what it matches among
    the fingerprints of the store. */
module Like {
  import opened Text

  /** `s.replace(c, new)` for a one-character `c`. */
  function Replace(s: string, c: char, sub: string): string {
    if s == "" then "" else (if s[0] == c then sub else [s[0]]) + Replace(s[1..], c, sub)
  }

  /** The three replaces, the backslash first. */
  function Escaped(prefix: string): string {
    Replace(Replace(Replace(prefix, '\\', "\\\\"), '%', "\\%"), '_', "\\_")
  }

  function EscapeChar(c: char): string {
    if c == '\\' || c == '%' || c == '_' then ['\\', c] else [c]
  }

  function EscapeEach(s: string): string {
    if s == "" then "" else EscapeChar(s[0]) + EscapeEach(s[1..])
  }

  /** `text LIKE pattern ESCAPE '\'` in SQLite: ASCII letters match in either case, and an
      escape at the very end matches nothing. */
  predicate Matches(pattern: string, text: string)
    decreases |pattern| + |text|
  {
    if pattern == "" then text == ""
    else if pattern[0] == '%' then Matches(pattern[1..], text) || (text != "" && Matches(pattern, text[1..]))
    else if pattern[0] == '_' then text != "" && Matches(pattern[1..], text[1..])
    else if pattern[0] == '\\' then
      |pattern| > 1 && text != "" && LowerChar(pattern[1]) == LowerChar(text[0]) && Matches(pattern[2..], text[1..])
    else text != "" && LowerChar(pattern[0]) == LowerChar(text[0]) && Matches(pattern[1..], text[1..])
  }

  lemma {:induction false} ReplaceConcat(a: string, b: string, c: char, sub: string)
    ensures Replace(a + b, c, sub) == Replace(a, c, sub) + Replace(b, c, sub)
    decreases |a|
  {
    if a == "" {
      assert a + b == b;
    } else {
      assert (a + b)[1..] == a[1..] + b;
      ReplaceConcat(a[1..], b, c, sub);
    }
  }

  lemma {:induction false} ReplaceOne(x: char, c: char, sub: string)
    ensures Replace([x], c, sub) == if x == c then sub else [x]
  {
    assert Replace([x][1..], c, sub) == "";
  }

  lemma {:induction false} ReplaceTwo(x: char, y: char, c: char, sub: string)
    requires x != c
    ensures Replace([x, y], c, sub) == [x] + if y == c then sub else [y]
  {
    assert [x, y] == [x] + [y];
    ReplaceConcat([x], [y], c, sub);
    ReplaceOne(x, c, sub);
    ReplaceOne(y, c, sub);
  }

  lemma EscapedChar(x: char)
    ensures Replace(Replace(Replace([x], '\\', "\\\\"), '%', "\\%"), '_', "\\_") == EscapeChar(x)
  {
    ReplaceOne(x, '\\', "\\\\");
    if x == '\\' {
      ReplaceTwo('\\', '\\', '%', "\\%");
      ReplaceTwo('\\', '\\', '_', "\\_");
    } else {
      ReplaceOne(x, '%', "\\%");
      if x == '%' {
        ReplaceTwo('\\', '%', '_', "\\_");
      } else {
        ReplaceOne(x, '_', "\\_");
      }
    }
  }

  /** Because the backslash goes first, the three passes equal one character-by-character
      escape: no escape is escaped again. */
  lemma {:induction false} EscapedIsEach(s: string)
    ensures Escaped(s) == EscapeEach(s)
    decreases |s|
  {
    hide Replace;
    if s == "" {
      EmptyReplaces();
    } else {
      var x, rest := [s[0]], s[1..];
      assert s == x + rest;
      var x1, rest1 := Replace(x, '\\', "\\\\"), Replace(rest, '\\', "\\\\");
      ReplaceConcat(x, rest, '\\', "\\\\");
      ReplaceConcat(x1, rest1, '%', "\\%");
      ReplaceConcat(Replace(x1, '%', "\\%"), Replace(rest1, '%', "\\%"), '_', "\\_");
      EscapedChar(s[0]);
      EscapedIsEach(rest);
    }
  }

  lemma EmptyReplaces()
    ensures Escaped("") == ""
  {
  }

  lemma {:induction false} PercentMatchesAll(text: string)
    ensures Matches("%", text)
    decreases |text|
  {
    if text == "" {
      assert Matches("%"[1..], text);
    } else {
      PercentMatchesAll(text[1..]);
    }
  }

  lemma {:induction false} EachMatches(prefix: string, text: string)
    ensures Matches(EscapeEach(prefix) + "%", text) <==> Lower(prefix) <= Lower(text)
    decreases |prefix|
  {
    if prefix == "" {
      assert EscapeEach(prefix) + "%" == "%";
      PercentMatchesAll(text);
    } else {
      var tail := EscapeEach(prefix[1..]) + "%";
      var pattern := EscapeEach(prefix) + "%";
      assert pattern == EscapeChar(prefix[0]) + tail;
      OneMatches(prefix[0], tail, text);
      if text != "" {
        EachMatches(prefix[1..], text[1..]);
        LowerPrefix(prefix, text);
      }
    }
  }

  lemma {:induction false} OneMatches(c: char, tail: string, text: string)
    ensures Matches(EscapeChar(c) + tail, text) <==>
            text != "" && LowerChar(c) == LowerChar(text[0]) && Matches(tail, text[1..])
  {
    var pattern := EscapeChar(c) + tail;
    if c == '\\' || c == '%' || c == '_' {
      assert pattern[0] == '\\' && pattern[1] == c && pattern[2..] == tail;
    } else {
      assert pattern[0] == c && pattern[1..] == tail;
    }
  }

  lemma LowerPrefix(a: string, b: string)
    requires a != "" && b != ""
    ensures Lower(a) <= Lower(b) <==> LowerChar(a[0]) == LowerChar(b[0]) && Lower(a[1..]) <= Lower(b[1..])
  {
    var x, y := Lower(a), Lower(b);
    assert Lower(a[1..]) == x[1..] && Lower(b[1..]) == y[1..];
    if x <= y {
      assert x == y[..|x|];
      assert x[1..] == y[1..][..|x| - 1];
    }
    if x[0] == y[0] && x[1..] <= y[1..] {
      assert x[1..] == y[1..][..|x| - 1];
      assert x == [x[0]] + x[1..];
      assert x == y[..|x|];
    }
  }

  /** Prefix lookup means prefix: for every prefix and fingerprint the escaped pattern matches
      exactly when the fingerprint starts with the prefix, ASCII letter case aside. */
  lemma {:induction false} PrefixMeansPrefix(prefix: string, fp: string)
    ensures Matches(Escaped(prefix) + "%", fp) <==> Lower(prefix) <= Lower(fp)
  {
    EscapedIsEach(prefix);
    EachMatches(prefix, fp);
  }

  predicate NoCapitals(s: string) {
    forall i :: 0 <= i < |s| ==> !('A' <= s[i] <= 'Z')
  }

  /** On fingerprints (lower-case hexadecimal) the lookup of a lower-case prefix is exact. */
  lemma {:induction false} ExactOnLowerCase(prefix: string, fp: string)
    requires NoCapitals(prefix) && NoCapitals(fp)
    ensures Matches(Escaped(prefix) + "%", fp) <==> prefix <= fp
  {
    PrefixMeansPrefix(prefix, fp);
    assert Lower(prefix) == prefix && Lower(fp) == fp;
  }
}
