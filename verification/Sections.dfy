/** What reading a patch means, section by section, whatever wrote the patch: where its lines end,
    which sections add a file, and what the file's path and content are. */
module Sections {
  import opened Text
  import opened Patch

  // -- Lines ---------------------------------------------------------------------------------------

  const BREAKS := "\n\r\U{0B}\U{0C}\U{1C}\U{1D}\U{1E}\U{85}\U{2028}\U{2029}"

  lemma BreaksExactly(c: char)
    ensures IsBreak(c) <==> c in BREAKS
  {
  }

  predicate IsEnd(e: string) {
    e == "\r\n" || (|e| == 1 && e[0] in BREAKS)
  }

  /** Lines with what ends each, then the text after the last end. */
  function Ended(lines: seq<string>, ends: seq<string>, tail: string): string
    requires |lines| == |ends|
  {
    if lines == [] then tail else lines[0] + (ends[0] + Ended(lines[1..], ends[1..], tail))
  }

  predicate OneLine(l: string) {
    forall i :: 0 <= i < |l| ==> l[i] !in BREAKS
  }

  /** A carriage return and the newline after it are one end, not two. */
  predicate IsEnded(lines: seq<string>, ends: seq<string>, tail: string) {
    && |lines| == |ends|
    && OneLine(tail)
    && (forall i :: 0 <= i < |lines| ==> OneLine(lines[i]) && IsEnd(ends[i]))
    && (forall i :: 0 <= i < |lines| - 1 ==> !(ends[i] == "\r" && lines[i + 1] == "" && ends[i + 1] == "\n"))
  }

  lemma OneLineExactly(l: string)
    ensures OneLine(l) <==> BreakFree(l)
  {
    forall i | 0 <= i < |l| ensures IsBreak(l[i]) <==> l[i] in BREAKS { BreaksExactly(l[i]); }
  }

  lemma {:induction false} NoSecondEnd(lines: seq<string>, ends: seq<string>, tail: string)
    requires IsEnded(lines, ends, tail) && lines != [] && ends[0] == "\r"
    ensures var rest := Ended(lines[1..], ends[1..], tail); rest == "" || rest[0] != '\n'
  {
    var rest := Ended(lines[1..], ends[1..], tail);
    if |lines| == 1 {
      assert rest == tail && (tail != "" ==> tail[0] !in BREAKS);
    } else {
      assert lines[1..][0] == lines[1] && ends[1..][0] == ends[1] && OneLine(lines[1]) && IsEnd(ends[1]);
      assert !(ends[0] == "\r" && lines[0 + 1] == "" && ends[0 + 1] == "\n");
      var e := ends[1];
      if lines[1] == "" { assert rest[0] == e[0]; } else { assert rest[0] == lines[1][0]; }
    }
  }

  lemma {:induction false} LineBreaks(l: string, width: nat, rest: string, e: string)
    requires BreakFree(l) && |e| == width > 0 && IsBreak(e[0])
    requires width == if e[0] == '\r' && |e + rest| > 1 && (e + rest)[1] == '\n' then 2 else 1
    ensures SplitLines(l + (e + rest)) == [l] + SplitLines(rest)
  {
    var s := l + (e + rest);
    FirstLineOf(l, e + rest);
    assert s[|l|] == e[0] && (|l| + 1 < |s| ==> s[|l| + 1] == (e + rest)[1]);
    assert s[|l| + width..] == rest;
  }

  lemma {:induction false} EndBreaks(l: string, e: string, rest: string)
    requires OneLine(l) && IsEnd(e) && (e == "\r" && rest != "" ==> rest[0] != '\n')
    ensures SplitLines(l + (e + rest)) == [l] + SplitLines(rest)
  {
    hide SplitLines;
    OneLineExactly(l);
    BreaksExactly(e[0]);
    assert |e| == 1 ==> e == [e[0]];
    assert |e| == 1 && rest != "" ==> (e + rest)[1] == rest[0];
    assert |e| == 2 ==> e[0] == '\r' && (e + rest)[1] == '\n';
    LineBreaks(l, |e|, rest, e);
  }

  lemma {:induction false} TailAlone(tail: string)
    requires OneLine(tail)
    ensures SplitLines(tail) == [] + if tail == "" then [] else [tail]
  {
    OneLineExactly(tail);
    WholeLine(tail);
  }

  /** `s.splitlines()` gives back the lines, and the tail when there is one. */
  lemma {:induction false} SplitLinesExactly(lines: seq<string>, ends: seq<string>, tail: string)
    requires IsEnded(lines, ends, tail)
    ensures SplitLines(Ended(lines, ends, tail)) == lines + if tail == "" then [] else [tail]
    decreases |lines|
  {
    hide SplitLines, IsEnd, OneLine;
    if lines == [] {
      TailAlone(tail);
    } else {
      var more, left := lines[1..], ends[1..];
      if ends[0] == "\r" { NoSecondEnd(lines, ends, tail); }
      assert OneLine(lines[0]) && IsEnd(ends[0]);
      EndBreaks(lines[0], ends[0], Ended(more, left, tail));
      assert forall i :: 0 <= i < |more| ==> more[i] == lines[i + 1] && left[i] == ends[i + 1];
      SplitLinesExactly(more, left, tail);
    }
  }

  lemma {:induction false} WholeLine(s: string)
    requires BreakFree(s)
    ensures FirstLine(s) == s
  {
    if s != "" { WholeLine(s[1..]); }
  }

  // -- Sections ------------------------------------------------------------------------------------

  predicate Starts(line: string) { "diff --git " <= line }

  predicate NamesPath(line: string) { "+++ b/" <= line }

  predicate Adds(line: string) { "+" <= line && !("+++" <= line) }

  /** The added lines of a section, without their marks: each as often and in the order there. */
  ghost predicate IsAdded(added: seq<string>, section: seq<string>) {
    && |added| == Count(section, Adds)
    && forall i :: 0 <= i < |section| && Adds(section[i]) ==>
         Count(section[..i], Adds) < |added| && section[i] == "+" + added[Count(section[..i], Adds)]
  }

  /** The path a section names last. */
  predicate IsPath(path: string, section: seq<string>) {
    exists i :: 0 <= i < |section| && section[i] == "+++ b/" + path
             && forall j :: i < j < |section| ==> !NamesPath(section[j])
  }

  predicate OneSection(section: seq<string>) {
    forall i :: 0 <= i < |section| ==> !Starts(section[i])
  }

  /** What the reader holds after a section it began empty-handed. */
  ghost predicate Holds(q: Reader, section: seq<string>, files: map<string, string>) {
    && q.files == files
    && (q.isNew <==> "--- /dev/null" in section)
    && (q.path.None? <==> forall i :: 0 <= i < |section| ==> !NamesPath(section[i]))
    && (q.path.Some? ==> IsPath(q.path.value, section))
    && IsAdded(q.body, section)
  }

  lemma AddedMore(added: seq<string>, section: seq<string>, line: string)
    requires IsAdded(added, section)
    ensures IsAdded(if Adds(line) then added + [line[1..]] else added, section + [line])
  {
    var all := section + [line];
    var more := if Adds(line) then added + [line[1..]] else added;
    CountPush(section, line, Adds);
    forall i | 0 <= i < |all| && Adds(all[i])
      ensures Count(all[..i], Adds) < |more| && all[i] == "+" + more[Count(all[..i], Adds)]
    {
      if i < |section| { assert all[..i] == section[..i]; } else { assert all[..i] == section; }
    }
  }

  lemma PathMore(q: Option<string>, section: seq<string>, line: string)
    requires q.None? <==> forall i :: 0 <= i < |section| ==> !NamesPath(section[i])
    requires q.Some? ==> IsPath(q.value, section)
    ensures NamesPath(line) ==> IsPath(line[6..], section + [line])
    ensures !NamesPath(line) && q.Some? ==> IsPath(q.value, section + [line])
    ensures !NamesPath(line) && q.None? ==> forall i :: 0 <= i < |section + [line]| ==> !NamesPath((section + [line])[i])
  {
    var all := section + [line];
    if NamesPath(line) {
      assert all[|section|] == "+++ b/" + line[6..];
    } else if q.Some? {
      var i :| 0 <= i < |section| && section[i] == "+++ b/" + q.value && forall j :: i < j < |section| ==> !NamesPath(section[j]);
      assert all[i] == section[i];
    }
  }

  lemma LineKinds(line: string)
    ensures NamesPath(line) ==> !Adds(line)
    ensures NamesPath(line) || Adds(line) ==> line[0] == '+' && line != "--- /dev/null"
  {
    if NamesPath(line) { assert line[0] == '+' && line[1] == '+' && line[2] == '+' && line[..3] == "+++"; }
    assert "--- /dev/null"[0] == '-';
  }

  lemma LineReads(q: Reader, line: string)
    requires !Starts(line)
    ensures ReadLine(q, line) ==
            if line == "--- /dev/null" then q.(isNew := true)
            else if NamesPath(line) then q.(path := Some(line[6..]))
            else if Adds(line) then q.(body := q.body + [line[1..]])
            else q
  {
    assert |"+++ b/"| == 6;
  }

  lemma HoldsMore(q: Reader, section: seq<string>, line: string, files: map<string, string>)
    requires Holds(q, section, files) && !Starts(line)
    ensures Holds(ReadLine(q, line), section + [line], files)
  {
    hide ReadLine, NamesPath, Adds, Starts, IsAdded, IsPath;
    LineReads(q, line);
    LineKinds(line);
    AddedMore(q.body, section, line);
    PathMore(q.path, section, line);
    var all := section + [line];
    assert all[|section|] == line;
    assert forall i :: 0 <= i < |section| ==> all[i] == section[i];
  }

  lemma {:induction false} SectionReads(r: Reader, section: seq<string>)
    requires r.path.None? && !r.isNew && r.body == [] && OneSection(section)
    ensures Holds(ReadLines(r, section), section, r.files)
    decreases |section|
  {
    hide ReadLine, Starts;
    if section != [] {
      var n := |section| - 1;
      var front, line := section[..n], section[n];
      assert section == front + [line];
      SectionReads(r, front);
      var q := ReadLines(r, front);
      ReadConcat(r, front, [line]);
      assert [line][1..] == [] && ReadLines(q, [line]) == ReadLines(ReadLine(q, line), []) == ReadLine(q, line);
      hide Holds, ReadLines;
      HoldsMore(q, front, line, r.files);
    }
  }

  /** A section that says its file is new and names it adds the file: the added lines, each ended. */
  ghost predicate AddsFile(section: seq<string>, path: string, added: seq<string>) {
    "--- /dev/null" in section && IsPath(path, section) && IsAdded(added, section)
  }

  ghost predicate AddsNothing(section: seq<string>) {
    "--- /dev/null" !in section || forall i :: 0 <= i < |section| ==> !NamesPath(section[i])
  }

  lemma HeldIsAdded(q: Reader, section: seq<string>, files: map<string, string>)
    requires Holds(q, section, files)
    ensures if AddsNothing(section) then Flush(q) == files
            else q.path.Some? && AddsFile(section, q.path.value, q.body) && Flush(q) == files[q.path.value := Terminated(q.body)]
  {
    hide IsPath, IsAdded, NamesPath;
    BodyIsTerminated(q.body);
  }

  /** Reading a patch, by its last section: the files of the sections before, and the one it adds. The
      lines before the first section's start are a section of their own. */
  lemma FilesExactly(before: seq<string>, start: string, section: seq<string>) returns (path: string, added: seq<string>)
    requires Starts(start) && OneSection(section)
    ensures var was := Flush(ReadLines(START, before));
            var now := Flush(ReadLines(START, before + [start] + section));
            if AddsNothing(section) then now == was
            else AddsFile(section, path, added) && now == was[path := Terminated(added)]
  {
    hide Flush, Holds, AddsFile, AddsNothing, OneSection;
    var r := ReadLines(START, before);
    var fresher := Reader(None, false, [], Flush(r));
    ReadConcat(START, before + [start], section);
    ReadConcat(START, before, [start]);
    assert [start][1..] == [] && ReadLines(r, [start]) == ReadLines(ReadLine(r, start), []) == ReadLine(r, start) == fresher;
    hide ReadLines;
    SectionReads(fresher, section);
    var q := ReadLines(fresher, section);
    HeldIsAdded(q, section, Flush(r));
    path, added := if q.path.Some? then q.path.value else "", q.body;
  }

  lemma HeadExactly(section: seq<string>) returns (path: string, added: seq<string>)
    requires OneSection(section)
    ensures var now := Flush(ReadLines(START, section));
            if AddsNothing(section) then now == map[]
            else AddsFile(section, path, added) && now == map[path := Terminated(added)]
  {
    SectionReads(START, section);
    var q := ReadLines(START, section);
    HeldIsAdded(q, section, map[]);
    path, added := if q.path.Some? then q.path.value else "", q.body;
  }
}
