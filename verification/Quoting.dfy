/** The quoting language of `shlex.split`, written down word by word, and its agreement with the
    character loop: what is written is what is read, and what stays open is an error. */
module Quoting {
  import opened Text
  import opened Shlex

  /** A part of a word as it is written. */
  datatype Part =
    | Bare(c: char)              // the character itself
    | Escaped(c: char)           // after a backslash: any character
    | Single(text: string)       // between single quotes: everything but the quote
    | Double(inner: seq<Part>)   // between double quotes: bare and escaped characters

  /** Bare between double quotes: all but the quote and the backslash. */
  predicate InnerPart(p: Part) {
    match p
    case Bare(c) => c != '"' && c != '\\'
    case Escaped(_) => true
    case _ => false
  }

  predicate InnerParts(ps: seq<Part>) {
    forall i :: 0 <= i < |ps| ==> InnerPart(ps[i])
  }

  predicate WordPart(p: Part) {
    match p
    case Bare(c) => c !in " \t\r\n'\"\\"
    case Escaped(_) => true
    case Single(text) => '\'' !in text
    case Double(inner) => InnerParts(inner)
  }

  /** A word: one or more parts. */
  predicate IsWord(ps: seq<Part>) {
    ps != [] && forall i :: 0 <= i < |ps| ==> WordPart(ps[i])
  }

  function WriteInner(ps: seq<Part>): string
    requires InnerParts(ps)
  {
    if ps == [] then ""
    else (if ps[0].Bare? then [ps[0].c] else ['\\', ps[0].c]) + WriteInner(ps[1..])
  }

  /** Between double quotes a backslash disappears before a quote or a backslash only. */
  function MeanInner(ps: seq<Part>): string
    requires InnerParts(ps)
  {
    if ps == [] then ""
    else (if ps[0].Bare? || ps[0].c == '"' || ps[0].c == '\\' then [ps[0].c] else ['\\', ps[0].c]) + MeanInner(ps[1..])
  }

  function WritePart(p: Part): string
    requires WordPart(p)
  {
    match p
    case Bare(c) => [c]
    case Escaped(c) => ['\\', c]
    case Single(text) => "'" + text + "'"
    case Double(inner) => "\"" + WriteInner(inner) + "\""
  }

  function MeanPart(p: Part): string
    requires WordPart(p)
  {
    match p
    case Bare(c) => [c]
    case Escaped(c) => [c]
    case Single(text) => text
    case Double(inner) => MeanInner(inner)
  }

  predicate WordParts(ps: seq<Part>) {
    forall i :: 0 <= i < |ps| ==> WordPart(ps[i])
  }

  function Write(ps: seq<Part>): string
    requires WordParts(ps)
  {
    if ps == [] then "" else WritePart(ps[0]) + Write(ps[1..])
  }

  function Mean(ps: seq<Part>): string
    requires WordParts(ps)
  {
    if ps == [] then "" else MeanPart(ps[0]) + Mean(ps[1..])
  }

  predicate Blanks(s: string) {
    forall i :: 0 <= i < |s| ==> s[i] in " \t\r\n"
  }

  // -- One part --------------------------------------------------------------------------------------

  lemma {:induction false} SingleReads(text: string, rest: string, word: string, quoted: bool)
    requires '\'' !in text
    ensures Lex(text + "'" + rest, InQuotes('\''), word, quoted) == Lex(rest, InWord, word + text, true)
    decreases |text|
  {
    var s := text + "'" + rest;
    if text == "" {
      assert s[0] == '\'' && s[1..] == rest && word + text == word;
    } else {
      assert s[0] == text[0] && s[1..] == text[1..] + "'" + rest;
      SingleReads(text[1..], rest, word + [text[0]], true);
      assert word + [text[0]] + text[1..] == word + text;
    }
  }

  lemma {:induction false} DoubleReads(ps: seq<Part>, rest: string, word: string, quoted: bool)
    requires InnerParts(ps)
    ensures Lex(WriteInner(ps) + "\"" + rest, InQuotes('"'), word, quoted) == Lex(rest, InWord, word + MeanInner(ps), true)
    decreases |ps|
  {
    var s := WriteInner(ps) + "\"" + rest;
    if ps == [] {
      assert s[0] == '"' && s[1..] == rest && word + MeanInner(ps) == word;
    } else {
      var c, tail := ps[0].c, WriteInner(ps[1..]) + "\"" + rest;
      assert InnerPart(ps[0]);
      if ps[0].Bare? {
        assert s[0] == c && s[1..] == tail;
        DoubleReads(ps[1..], rest, word + [c], true);
        assert word + [c] + MeanInner(ps[1..]) == word + MeanInner(ps);
      } else {
        assert s[0] == '\\' && s[1..][0] == c && s[1..][1..] == tail;
        var kept := if c == '"' || c == '\\' then [c] else ['\\', c];
        assert word + "\\" + [c] == word + ['\\', c];
        assert Lex(s, InQuotes('"'), word, quoted) == Lex(s[1..], InEscape(InQuotes('"')), word, true);
        assert Lex(s[1..], InEscape(InQuotes('"')), word, true) == Lex(tail, InQuotes('"'), word + kept, true);
        DoubleReads(ps[1..], rest, word + kept, true);
        assert word + kept + MeanInner(ps[1..]) == word + MeanInner(ps);
      }
    }
  }

  lemma {:induction false} BareReads(c: char, rest: string, word: string, quoted: bool)
    requires WordPart(Bare(c))
    ensures Lex([c] + rest, InWord, word, quoted) == Lex(rest, InWord, word + [c], quoted)
  {
    var s := [c] + rest;
    assert s[0] == c && s[1..] == rest && c !in " \t\r\n'\"\\";
    assert !IsBlank(c) && !IsQuote(c) && c != '\\' by { assert forall d :: d in " \t\r\n'\"\\" ==> d != c; }
  }

  lemma {:induction false} EscapedReads(c: char, rest: string, word: string, quoted: bool)
    ensures Lex(['\\', c] + rest, InWord, word, quoted) == Lex(rest, InWord, word + [c], quoted)
  {
    var s := ['\\', c] + rest;
    assert s[0] == '\\' && s[1..] == [c] + rest && s[1..][0] == c && s[1..][1..] == rest;
    assert Lex(s, InWord, word, quoted) == Lex(s[1..], InEscape(InWord), word, quoted);
  }

  /** A quotation opens where the quote stands. */
  lemma {:induction false} QuoteOpens(q: char, s: string, word: string, quoted: bool)
    requires IsQuote(q)
    ensures Lex([q] + s, InWord, word, quoted) == Lex(s, InQuotes(q), word, quoted)
  {
    assert ([q] + s)[1..] == s;
  }

  /** After the part the loop is inside a word that has grown by what the part means. */
  lemma {:induction false} PartReads(p: Part, rest: string, word: string, quoted: bool)
    requires WordPart(p)
    ensures Lex(WritePart(p) + rest, InWord, word, quoted)
         == Lex(rest, InWord, word + MeanPart(p), quoted || p.Single? || p.Double?)
  {
    hide Lex;
    match p
    case Bare(c) => BareReads(c, rest, word, quoted);
    case Escaped(c) => EscapedReads(c, rest, word, quoted);
    case Single(text) =>
      var s := text + "'" + rest;
      assert WritePart(p) + rest == "'" + s;
      QuoteOpens('\'', s, word, quoted);
      SingleReads(text, rest, word, quoted);
    case Double(inner) =>
      var s := WriteInner(inner) + "\"" + rest;
      assert WritePart(p) + rest == "\"" + s;
      QuoteOpens('"', s, word, quoted);
      DoubleReads(inner, rest, word, quoted);
  }

  predicate Quotes(ps: seq<Part>) {
    exists i :: 0 <= i < |ps| && (ps[i].Single? || ps[i].Double?)
  }

  lemma {:induction false} PartsRead(ps: seq<Part>, rest: string, word: string, quoted: bool)
    requires WordParts(ps)
    ensures Lex(Write(ps) + rest, InWord, word, quoted) == Lex(rest, InWord, word + Mean(ps), quoted || Quotes(ps))
    decreases |ps|
  {
    hide Lex, WritePart, MeanPart;
    if ps == [] {
      assert Write(ps) + rest == rest && word + Mean(ps) == word;
    } else {
      var tail := Write(ps[1..]) + rest;
      assert Write(ps) + rest == WritePart(ps[0]) + tail;
      PartReads(ps[0], tail, word, quoted);
      PartsRead(ps[1..], rest, word + MeanPart(ps[0]), quoted || ps[0].Single? || ps[0].Double?);
      assert word + MeanPart(ps[0]) + Mean(ps[1..]) == word + Mean(ps);
      assert Quotes(ps) <==> ps[0].Single? || ps[0].Double? || Quotes(ps[1..]) by {
        assert forall i :: 0 < i < |ps| ==> ps[i] == ps[1..][i - 1];
        assert forall i :: 0 <= i < |ps[1..]| ==> ps[1..][i] == ps[i + 1];
      }
    }
  }

  // -- Whole texts -----------------------------------------------------------------------------------

  /** How a text stops: after the last word, or inside a quotation or after a backslash. */
  datatype Ending =
    | Done
    | OpenEscape
    | OpenSingle(text: string)
    | OpenDouble(inner: seq<Part>, escape: bool)

  /** Words, each with the blanks after it; then the parts and the ending nothing blank follows. */
  datatype Writing = Writing(lead: string, words: seq<seq<Part>>, gaps: seq<string>, last: seq<Part>, ending: Ending)

  predicate IsEnding(e: Ending) {
    match e
    case Done => true
    case OpenEscape => true
    case OpenSingle(text) => '\'' !in text
    case OpenDouble(inner, _) => InnerParts(inner)
  }

  predicate IsSpaced(words: seq<seq<Part>>, gaps: seq<string>) {
    && |gaps| == |words|
    && (forall i :: 0 <= i < |words| ==> IsWord(words[i]))
    && (forall i :: 0 <= i < |gaps| ==> gaps[i] != "" && Blanks(gaps[i]))
  }

  predicate IsWriting(w: Writing) {
    Blanks(w.lead) && IsSpaced(w.words, w.gaps) && WordParts(w.last) && IsEnding(w.ending)
  }

  function WriteSpaced(words: seq<seq<Part>>, gaps: seq<string>): string
    requires IsSpaced(words, gaps)
  {
    if words == [] then "" else Write(words[0]) + (gaps[0] + WriteSpaced(words[1..], gaps[1..]))
  }

  function WriteEnding(e: Ending): string
    requires IsEnding(e)
  {
    match e
    case Done => ""
    case OpenEscape => "\\"
    case OpenSingle(text) => "'" + text
    case OpenDouble(inner, escape) => "\"" + (WriteInner(inner) + if escape then "\\" else "")
  }

  function WriteAll(w: Writing): string
    requires IsWriting(w)
  {
    w.lead + (WriteSpaced(w.words, w.gaps) + (Write(w.last) + WriteEnding(w.ending)))
  }

  function Means(words: seq<seq<Part>>): seq<string>
    requires forall i :: 0 <= i < |words| ==> IsWord(words[i])
  {
    if words == [] then []
    else
      assert IsWord(words[0]);
      [Mean(words[0])] + Means(words[1..])
  }

  function After(words: seq<string>, more: Option<seq<string>>): Option<seq<string>> {
    if more.None? then None else Some(words + more.value)
  }

  lemma AfterAfter(first: string, words: seq<string>, more: Option<seq<string>>)
    ensures After([first], After(words, more)) == After([first] + words, more)
    ensures After([], more) == more
  {
    if more.Some? {
      assert [first] + (words + more.value) == [first] + words + more.value;
      assert [] + more.value == more.value;
    }
  }

  lemma {:induction false} LeadReads(lead: string, rest: string)
    requires Blanks(lead)
    ensures Lex(lead + rest, Between, "", false) == Lex(rest, Between, "", false)
    decreases |lead|
  {
    if lead == "" {
      assert lead + rest == rest;
    } else {
      assert (lead + rest)[0] == lead[0] && (lead + rest)[1..] == lead[1..] + rest && lead[0] in " \t\r\n";
      LeadReads(lead[1..], rest);
    }
  }

  /** Before a word is as good as inside an empty one. */
  lemma {:induction false} BeginsWord(s: string)
    requires s != "" && !IsBlank(s[0])
    ensures Lex(s, Between, "", false) == Lex(s, InWord, "", false)
  {
    assert "" + [s[0]] == [s[0]];
  }

  lemma {:induction false} BareStarts(ps: seq<Part>, rest: string)
    requires IsWord(ps)
    ensures var s := Write(ps) + rest; s != "" && !IsBlank(s[0])
  {
    var s := Write(ps) + rest;
    assert WordPart(ps[0]) && s[0] == WritePart(ps[0])[0];
  }

  /** A word means something, or is quoted. */
  lemma {:induction false} MeansSomething(ps: seq<Part>)
    requires IsWord(ps)
    ensures Mean(ps) != "" || Quotes(ps)
  {
    assert WordPart(ps[0]) && (ps[0].Single? || ps[0].Double? ==> Quotes(ps));
  }

  lemma {:induction false} WordReads(ps: seq<Part>, gap: string, rest: string)
    requires IsWord(ps) && gap != "" && Blanks(gap)
    ensures Lex(Write(ps) + (gap + rest), Between, "", false) == After([Mean(ps)], Lex(rest, Between, "", false))
  {
    var s := gap + rest;
    BareStarts(ps, s);
    BeginsWord(Write(ps) + s);
    PartsRead(ps, s, "", false);
    MeansSomething(ps);
    assert "" + Mean(ps) == Mean(ps);
    assert s[0] == gap[0] && s[1..] == gap[1..] + rest && gap[0] in " \t\r\n";
    LeadReads(gap[1..], rest);
  }

  lemma {:induction false} SpacedReads(words: seq<seq<Part>>, gaps: seq<string>, rest: string)
    requires IsSpaced(words, gaps)
    ensures Lex(WriteSpaced(words, gaps) + rest, Between, "", false) == After(Means(words), Lex(rest, Between, "", false))
    decreases |words|
  {
    hide Lex, Write, Mean;
    if words == [] {
      assert WriteSpaced(words, gaps) + rest == rest;
      AfterAfter("", [], Lex(rest, Between, "", false));
    } else {
      var tail := WriteSpaced(words[1..], gaps[1..]) + rest;
      assert WriteSpaced(words, gaps) + rest == Write(words[0]) + (gaps[0] + tail);
      WordReads(words[0], gaps[0], tail);
      SpacedReads(words[1..], gaps[1..], rest);
      AfterAfter(Mean(words[0]), Means(words[1..]), Lex(rest, Between, "", false));
    }
  }

  lemma {:induction false} SingleStaysOpen(text: string, word: string, quoted: bool)
    requires '\'' !in text
    ensures Lex(text, InQuotes('\''), word, quoted).None?
  {
    if text != "" { SingleStaysOpen(text[1..], word + [text[0]], true); }
  }

  lemma {:induction false} DoubleStaysOpen(ps: seq<Part>, escape: bool, word: string, quoted: bool)
    requires InnerParts(ps)
    ensures Lex(WriteInner(ps) + (if escape then "\\" else ""), InQuotes('"'), word, quoted).None?
    decreases |ps|
  {
    var end := if escape then "\\" else "";
    var s := WriteInner(ps) + end;
    if ps == [] {
      assert s == end && (escape ==> s[1..] == "");
    } else {
      var c, tail := ps[0].c, WriteInner(ps[1..]) + end;
      assert InnerPart(ps[0]);
      if ps[0].Bare? {
        assert s[0] == c && s[1..] == tail;
        DoubleStaysOpen(ps[1..], escape, word + [c], true);
      } else {
        assert s[0] == '\\' && s[1..][0] == c && s[1..][1..] == tail;
        var kept := if c == '"' || c == '\\' then word + [c] else word + "\\" + [c];
        assert Lex(s, InQuotes('"'), word, quoted) == Lex(s[1..], InEscape(InQuotes('"')), word, true);
        DoubleStaysOpen(ps[1..], escape, kept, true);
      }
    }
  }

  lemma {:induction false} EndingReads(e: Ending, word: string, quoted: bool)
    requires IsEnding(e) && e != Done
    ensures Lex(WriteEnding(e), InWord, word, quoted).None?
    ensures WriteEnding(e) != "" && !IsBlank(WriteEnding(e)[0])
  {
    var s := WriteEnding(e);
    match e
    case OpenEscape => assert s[1..] == "";
    case OpenSingle(text) =>
      assert s[1..] == text;
      SingleStaysOpen(text, word, quoted);
    case OpenDouble(inner, escape) =>
      assert s[1..] == WriteInner(inner) + if escape then "\\" else "";
      DoubleStaysOpen(inner, escape, word, quoted);
  }

  lemma {:induction false} LastReads(last: seq<Part>, e: Ending)
    requires WordParts(last) && IsEnding(e)
    ensures Lex(Write(last) + WriteEnding(e), Between, "", false) ==
            if e != Done then None else if last == [] then Some([]) else Some([Mean(last)])
  {
    var s := Write(last) + WriteEnding(e);
    if last == [] {
      assert s == WriteEnding(e);
      if e != Done {
        EndingReads(e, "", false);
        BeginsWord(s);
      }
    } else {
      BareStarts(last, WriteEnding(e));
      BeginsWord(s);
      PartsRead(last, WriteEnding(e), "", false);
      MeansSomething(last);
      assert "" + Mean(last) == Mean(last);
      if e != Done { EndingReads(e, Mean(last), Quotes(last)); }
    }
  }

  /** What is written is what is read: the words' meanings in order, and an error exactly when a
      quotation is left open or a backslash has nothing after it. */
  lemma WritingReads(w: Writing)
    requires IsWriting(w)
    ensures ShlexSplit(WriteAll(w)) ==
            if w.ending != Done then None
            else Some(Means(w.words) + if w.last == [] then [] else [Mean(w.last)])
  {
    hide Lex, Write, WriteSpaced, WriteEnding;
    var end := Write(w.last) + WriteEnding(w.ending);
    LeadReads(w.lead, WriteSpaced(w.words, w.gaps) + end);
    SpacedReads(w.words, w.gaps, end);
    LastReads(w.last, w.ending);
  }

  // -- Every text is written so ----------------------------------------------------------------------

  /** The writing with one more part in front of it. */
  function Fronted(p: Part, w: Writing): Writing {
    if w.lead == "" && w.words != [] then w.(words := [[p] + w.words[0]] + w.words[1..])
    else if w.lead != "" then Writing("", [[p]] + w.words, [w.lead] + w.gaps, w.last, w.ending)
    else w.(last := [p] + w.last)
  }

  lemma {:induction false} FrontWord(p: Part, words: seq<seq<Part>>, gaps: seq<string>)
    requires WordPart(p) && IsSpaced(words, gaps) && words != []
    ensures var more := [[p] + words[0]] + words[1..];
            IsSpaced(more, gaps) && WriteSpaced(more, gaps) == WritePart(p) + WriteSpaced(words, gaps)
  {
    hide WritePart;
    var first := [p] + words[0];
    var more := [first] + words[1..];
    assert IsWord(words[0]) && first[1..] == words[0];
    assert forall i :: 0 < i < |first| ==> first[i] == words[0][i - 1];
    assert IsWord(first);
    assert forall i :: 0 < i < |more| ==> more[i] == words[i];
    assert more[1..] == words[1..];
    var x, y, rest := WritePart(p), Write(words[0]), gaps[0] + WriteSpaced(words[1..], gaps[1..]);
    assert Write(first) == x + y;
    assert x + y + rest == x + (y + rest);
  }

  lemma {:induction false} FrontGap(p: Part, lead: string, words: seq<seq<Part>>, gaps: seq<string>)
    requires WordPart(p) && IsSpaced(words, gaps) && lead != "" && Blanks(lead)
    ensures IsSpaced([[p]] + words, [lead] + gaps)
    ensures WriteSpaced([[p]] + words, [lead] + gaps) == WritePart(p) + (lead + WriteSpaced(words, gaps))
  {
    hide WritePart;
    var more, wider := [[p]] + words, [lead] + gaps;
    assert IsWord([p]);
    assert more[1..] == words && wider[1..] == gaps;
    assert forall i :: 0 < i < |more| ==> more[i] == words[i - 1];
    assert forall i :: 0 < i < |wider| ==> wider[i] == gaps[i - 1];
    assert [p][1..] == [] && Write([p]) == WritePart(p) + "" == WritePart(p);
  }

  lemma {:induction false} FrontLast(p: Part, last: seq<Part>)
    requires WordPart(p) && WordParts(last)
    ensures WordParts([p] + last) && Write([p] + last) == WritePart(p) + Write(last)
  {
    assert ([p] + last)[1..] == last;
  }

  lemma FrontedWrites(p: Part, w: Writing)
    requires WordPart(p) && IsWriting(w)
    ensures IsWriting(Fronted(p, w)) && WriteAll(Fronted(p, w)) == WritePart(p) + WriteAll(w)
  {
    hide WritePart, WordPart, Write, WriteSpaced, WriteEnding, IsSpaced;
    var x, spaced, last, end := WritePart(p), WriteSpaced(w.words, w.gaps), Write(w.last), WriteEnding(w.ending);
    if w.lead == "" && w.words != [] {
      FrontWord(p, w.words, w.gaps);
      assert x + spaced + (last + end) == x + (spaced + (last + end));
    } else if w.lead != "" {
      FrontGap(p, w.lead, w.words, w.gaps);
      assert x + (w.lead + spaced) + (last + end) == x + (w.lead + (spaced + (last + end)));
    } else {
      FrontLast(p, w.last);
      NoWords(w.gaps);
      assert x + last + end == x + (last + end);
    }
  }

  lemma {:induction false} NoWords(gaps: seq<string>)
    requires IsSpaced([], gaps)
    ensures WriteSpaced([], gaps) == ""
  {
  }

  /** A text up to its first `stop`, or without one. */
  lemma {:induction false} UpTo(s: string, stop: char) returns (text: string, closed: bool)
    ensures text <= s && stop !in text
    ensures if closed then |text| < |s| && s[|text|] == stop else text == s
  {
    if s == "" {
      text, closed := "", false;
    } else if s[0] == stop {
      text, closed := "", true;
    } else {
      text, closed := UpTo(s[1..], stop);
      text := [s[0]] + text;
    }
  }

  /** The inside of a double quotation, with the text after it, or left open. */
  lemma {:induction false} Inside(s: string) returns (inner: seq<Part>, closed: bool, escape: bool, rest: string)
    ensures InnerParts(inner)
    ensures closed ==> s == WriteInner(inner) + "\"" + rest
    ensures !closed ==> s == WriteInner(inner) + if escape then "\\" else ""
    decreases |s|
  {
    if s == "" {
      inner, closed, escape, rest := [], false, false, "";
    } else if s[0] == '"' {
      inner, closed, escape, rest := [], true, false, s[1..];
    } else if s == "\\" {
      inner, closed, escape, rest := [], false, true, "";
    } else {
      var p, width := if s[0] == '\\' then Escaped(s[1]) else Bare(s[0]), if s[0] == '\\' then 2 else 1;
      var more;
      more, closed, escape, rest := Inside(s[width..]);
      inner := [p] + more;
      assert inner[1..] == more && s == s[..width] + s[width..];
      assert s[..width] == if p.Bare? then [p.c] else ['\\', p.c];
    }
  }

  /** A text beginning with an unfinished quotation. */
  lemma OpenWrites(e: Ending)
    requires IsEnding(e)
    ensures var w := Writing("", [], [], [], e); IsWriting(w) && WriteAll(w) == WriteEnding(e)
  {
    NoWords([]);
    assert "" + ("" + ("" + WriteEnding(e))) == WriteEnding(e);
  }

  lemma {:induction false} EveryText(s: string) returns (w: Writing)
    ensures IsWriting(w) && WriteAll(w) == s
    decreases |s|
  {
    hide WriteAll, IsWriting;
    if s == "" {
      w := Writing("", [], [], [], Done);
      OpenWrites(Done);
    } else if IsBlank(s[0]) {
      var v := EveryText(s[1..]);
      w := v.(lead := [s[0]] + v.lead);
      LeadWrites(s[0], v);
    } else if s[0] == '\\' && |s| == 1 {
      w := Writing("", [], [], [], OpenEscape);
      OpenWrites(OpenEscape);
    } else if s[0] == '\'' {
      w := EverySingle(s);
    } else if s[0] == '"' {
      w := EveryDouble(s);
    } else {
      var p := if s[0] == '\\' then Escaped(s[1]) else Bare(s[0]);
      var v := EveryText(if s[0] == '\\' then s[2..] else s[1..]);
      w := Fronted(p, v);
      FrontedWrites(p, v);
    }
  }

  lemma LeadWrites(c: char, w: Writing)
    requires IsBlank(c) && IsWriting(w)
    ensures var v := w.(lead := [c] + w.lead); IsWriting(v) && WriteAll(v) == [c] + WriteAll(w)
  {
    var rest := WriteSpaced(w.words, w.gaps) + (Write(w.last) + WriteEnding(w.ending));
    assert [c] + w.lead + rest == [c] + (w.lead + rest);
  }

  lemma {:induction false} EverySingle(s: string) returns (w: Writing)
    requires "'" <= s
    ensures IsWriting(w) && WriteAll(w) == s
    decreases |s|, 0
  {
    var text, closed := UpTo(s[1..], '\'');
    if closed {
      var rest := s[|text| + 2..];
      assert s == "'" + text + "'" + rest;
      var v := EveryText(rest);
      w := Fronted(Single(text), v);
      FrontedWrites(Single(text), v);
    } else {
      assert s == "'" + text;
      w := Writing("", [], [], [], OpenSingle(text));
      OpenWrites(OpenSingle(text));
    }
  }

  lemma {:induction false} EveryDouble(s: string) returns (w: Writing)
    requires "\"" <= s
    ensures IsWriting(w) && WriteAll(w) == s
    decreases |s|, 0
  {
    var inner, closed, escape, rest := Inside(s[1..]);
    assert s == "\"" + s[1..];
    if closed {
      assert s == "\"" + WriteInner(inner) + "\"" + rest;
      var v := EveryText(rest);
      w := Fronted(Double(inner), v);
      FrontedWrites(Double(inner), v);
    } else {
      w := Writing("", [], [], [], OpenDouble(inner, escape));
      OpenWrites(OpenDouble(inner, escape));
    }
  }

  /** So the splitter is settled for every text: it is a writing, and its words are the writing's. */
  lemma {:induction false} SplitExactly(s: string) returns (w: Writing)
    ensures IsWriting(w) && WriteAll(w) == s
    ensures ShlexSplit(s) ==
            if w.ending != Done then None
            else Some(Means(w.words) + if w.last == [] then [] else [Mean(w.last)])
  {
    w := EveryText(s);
    WritingReads(w);
  }
}
