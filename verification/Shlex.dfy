/** The quoting machine behind `shlex.split`. */
module Shlex {
  // POSIX mode, whitespace splitting, no comments; and its agreement with `str.split` on the
  // commands the checker accepts.

  import opened Text
  import opened Kubectl

  datatype State =
    | Between                     // between two words
    | InWord
    | InQuotes(quote: char)
    | InEscape(resume: State)     // after a backslash

  predicate IsBlank(c: char) {
    c == ' ' || c == '\t' || c == '\r' || c == '\n'
  }

  predicate IsQuote(c: char) {
    c == '\'' || c == '"'
  }

  /** The words of `s` from `state` on, `word` being the one under construction. None is the
      ValueError of an unclosed quote or a trailing backslash. */
  function Lex(s: string, state: State, word: string, quoted: bool): Option<seq<string>>
    decreases |s|
  {
    if s == "" then
      match state
      case Between => Some([])
      case InWord => Some(if word != "" || quoted then [word] else [])
      case InQuotes(_) => None
      case InEscape(_) => None
    else
      var c, rest := s[0], s[1..];
      match state
      case Between =>
        if IsBlank(c) then Lex(rest, Between, "", false)
        else if c == '\\' then Lex(rest, InEscape(InWord), "", false)
        else if IsQuote(c) then Lex(rest, InQuotes(c), "", false)
        else Lex(rest, InWord, [c], false)
      case InWord =>
        if IsBlank(c) then
          var more := Lex(rest, Between, "", false);
          if more.None? then None
          else if word != "" || quoted then Some([word] + more.value) else more
        else if IsQuote(c) then Lex(rest, InQuotes(c), word, quoted)
        else if c == '\\' then Lex(rest, InEscape(InWord), word, quoted)
        else Lex(rest, InWord, word + [c], quoted)
      case InQuotes(q) =>
        if c == q then Lex(rest, InWord, word, true)
        else if c == '\\' && q == '"' then Lex(rest, InEscape(state), word, true)
        else Lex(rest, state, word + [c], true)
      case InEscape(resume) =>
        var kept := if resume.InQuotes? && c != '\\' && c != resume.quote then word + "\\" else word;
        Lex(rest, resume, kept + [c], quoted)
  }

  function ShlexSplit(s: string): Option<seq<string>> {
    Lex(s, Between, "", false)
  }

  predicate OnlySpaces(s: string) {
    forall i :: 0 <= i < |s| && IsSpace(s[i]) ==> s[i] == ' '
  }

  predicate Unquoted(s: string) {
    forall i :: 0 <= i < |s| ==> !IsQuote(s[i]) && s[i] != '\\'
  }

  lemma {:induction false} LexIsSplit(s: string, word: string)
    requires OnlySpaces(s) && Unquoted(s)
    requires word == "" || Token(word)
    ensures word == "" ==> Lex(s, Between, "", false) == Some(Split(s))
    ensures word != "" ==> Lex(s, InWord, word, false) == Some(Split(word + s))
    decreases |s|
  {
    if s == "" {
      if word != "" {
        SplitStep(word, "");
        assert word + s == word + "" && Split("") == [];
        assert Split(word + s) == [word] + [] == [word];
      }
    } else {
      var c, rest := s[0], s[1..];
      if IsBlank(c) {
        LexIsSplit(rest, "");
        if word != "" {
          SplitStep(word, s);
        }
      } else {
        assert !IsSpace(c);
        var longer := word + [c];
        assert word + s == longer + rest;
        LexIsSplit(rest, longer);
        assert word == "" ==> longer == [c] && word + s == s;
      }
    }
  }

  /** A character that is neither a separator nor quoting ends up inside some word. */
  lemma {:induction false} LexKeeps(s: string, state: State, word: string, c: char)
    requires !IsBlank(c) && !IsQuote(c) && c != '\\'
    requires Unquoted(s) && (state.Between? ==> word == "") && (state.Between? || state.InWord?)
    requires c in s || c in word
    requires Lex(s, state, word, false).Some?
    ensures exists i :: 0 <= i < |Lex(s, state, word, false).value| && c in Lex(s, state, word, false).value[i]
    decreases |s|
  {
    var words := Lex(s, state, word, false).value;
    if s == "" {
      assert words[0] == word;
    } else {
      var d, rest := s[0], s[1..];
      assert c in s ==> c == d || c in rest;
      if IsBlank(d) {
        var more := Lex(rest, Between, "", false).value;
        if c in word {
          assert words[0] == word;
        } else {
          LexKeeps(rest, Between, "", c);
          var i :| 0 <= i < |more| && c in more[i];
          assert words == more || words[i + 1] == more[i];
        }
      } else {
        var next := if state.Between? then [d] else word + [d];
        assert c == d || c in word ==> c in next;
        LexKeeps(rest, InWord, next, c);
      }
    }
  }

  lemma {:induction false} UnquotedLexes(s: string, state: State, word: string)
    requires Unquoted(s) && (state.Between? || state.InWord?)
    ensures Lex(s, state, word, false).Some?
    decreases |s|
  {
    if s != "" {
      var c, rest := s[0], s[1..];
      if IsBlank(c) {
        UnquotedLexes(rest, Between, "");
      } else {
        UnquotedLexes(rest, InWord, if state.Between? then [c] else word + [c]);
      }
    }
  }

  lemma MetaFreeIsUnquoted(s: string)
    requires !HasMeta(s)
    ensures Unquoted(s)
  {
    forall i | 0 <= i < |s| ensures !IsQuote(s[i]) && s[i] != '\\' {
      assert !IsMeta(s[i]);
    }
  }

  /** A lone quote does not split. */
  lemma UnclosedQuote()
    ensures ShlexSplit("'").None?
  {
    assert "'"[1..] == "";
  }

  /** A word of ordinary characters: no separator, no quoting. */
  predicate Plain(w: string) {
    Unquoted(w) && forall i :: 0 <= i < |w| ==> !IsBlank(w[i])
  }

  lemma {:induction false} LexPlain(w: string, rest: string, word: string)
    requires Plain(w) && word + w != ""
    ensures Lex(w + " " + rest, InWord, word, false) ==
            match Lex(rest, Between, "", false) case None => None case Some(words) => Some([word + w] + words)
    decreases |w|
  {
    var all := w + " " + rest;
    if w == "" {
      assert all[0] == ' ' && all[1..] == rest && word + w == word;
    } else {
      assert all[0] == w[0] && all[1..] == w[1..] + " " + rest;
      assert (word + [w[0]]) + w[1..] == word + w;
      LexPlain(w[1..], rest, word + [w[0]]);
    }
  }

  /** A plain word in front of a command becomes its first argument. */
  lemma SplitAfterPlain(w: string, rest: string)
    requires Plain(w) && w != ""
    ensures ShlexSplit(w + " " + rest) ==
            match ShlexSplit(rest) case None => None case Some(words) => Some([w] + words)
  {
    var all := w + " " + rest;
    assert all[0] == w[0] && all[1..] == w[1..] + " " + rest;
    assert [w[0]] + w[1..] == w;
    LexPlain(w[1..], rest, [w[0]]);
  }

  /** What was checked is what runs: for an accepted command, the argument list the runner
      executes is the token list the checker read exactly when the only whitespace is the
      ASCII space. (Other whitespace, such as a form feed, separates tokens for the checker
      but not for the runner.) The runner never raises on it. */
  lemma {:induction false} CheckedIsRun(shape: Shape, command: string)
    requires Accepts(shape, command)
    ensures ShlexSplit(command).Some?
    ensures ShlexSplit(command) == Some(Split(command)) <==> OnlySpaces(command)
  {
    MetaFreeIsUnquoted(command);
    UnquotedLexes(command, Between, "");
    if OnlySpaces(command) {
      LexIsSplit(command, "");
    } else {
      var k :| 0 <= k < |command| && IsSpace(command[k]) && command[k] != ' ';
      var c := command[k];
      assert !IsMeta(c);
      LexKeeps(command, Between, "", c);
      var words := ShlexSplit(command).value;
      var i :| 0 <= i < |words| && c in words[i];
      assert !Token(words[i]);
      assert Tokens(Split(command));
    }
  }
}
