/** Whole-file patches: printing new files as a unified diff and reading them back. */
module Patch {
  import opened Text

  // -- Lines --------------------------------------------------------------------------------------

  /** The characters `str.splitlines` breaks at. */
  predicate IsBreak(c: char) {
    var n := c as int;
    10 <= n <= 13 || 28 <= n <= 30 || n == 0x85 || n == 0x2028 || n == 0x2029
  }

  predicate BreakFree(s: string) {
    forall i :: 0 <= i < |s| ==> !IsBreak(s[i])
  }

  predicate AllBreakFree(ls: seq<string>) {
    forall i :: 0 <= i < |ls| ==> BreakFree(ls[i])
  }

  function FirstLine(s: string): (l: string)
    ensures l <= s && BreakFree(l) && (|l| < |s| ==> IsBreak(s[|l|]))
  {
    if s == "" || IsBreak(s[0]) then "" else [s[0]] + FirstLine(s[1..])
  }

  /** `s.splitlines()`: "\r\n" is one break, and a final break opens no further line. */
  function SplitLines(s: string): (ls: seq<string>)
    ensures AllBreakFree(ls)
  {
    if s == "" then []
    else
      var l := FirstLine(s);
      if |l| == |s| then [l]
      else
        var width := if s[|l|] == '\r' && |l| + 1 < |s| && s[|l| + 1] == '\n' then 2 else 1;
        [l] + SplitLines(s[|l| + width..])
  }

  /** Every line with its newline. */
  function Terminated(ls: seq<string>): string {
    if ls == [] then "" else ls[0] + "\n" + Terminated(ls[1..])
  }

  lemma {:induction false} TerminatedConcat(a: seq<string>, b: seq<string>)
    ensures Terminated(a + b) == Terminated(a) + Terminated(b)
    decreases |a|
  {
    if a == [] {
      assert a + b == b;
    } else {
      assert (a + b)[1..] == a[1..] + b;
      TerminatedConcat(a[1..], b);
    }
  }

  lemma {:induction false} FirstLineOf(l: string, rest: string)
    requires BreakFree(l) && rest != "" && IsBreak(rest[0])
    ensures FirstLine(l + rest) == l
    decreases |l|
  {
    if l == "" {
      assert l + rest == rest;
    } else {
      assert (l + rest)[1..] == l[1..] + rest;
      FirstLineOf(l[1..], rest);
    }
  }

  lemma {:induction false} LinesOfTerminated(ls: seq<string>)
    requires AllBreakFree(ls)
    ensures SplitLines(Terminated(ls)) == ls
    decreases |ls|
  {
    if ls != [] {
      var tail := Terminated(ls[1..]);
      var s := ls[0] + ("\n" + tail);
      assert Terminated(ls) == s;
      FirstLineOf(ls[0], "\n" + tail);
      assert s[|ls[0]|] == '\n';
      assert s[|ls[0]| + 1..] == tail;
      LinesOfTerminated(ls[1..]);
    }
  }

  // -- Printing -------------------------------------------------------------------------------------

  /** Content with a final newline. */
  function Normal(content: string): string {
    if content != "" && content[|content| - 1] == '\n' then content else content + "\n"
  }

  function UpToNewline(s: string): (l: string)
    ensures l <= s && '\n' !in l && (|l| < |s| ==> s[|l|] == '\n')
  {
    if s == "" || s[0] == '\n' then "" else [s[0]] + UpToNewline(s[1..])
  }

  /** `s.split("\n")[:-1]` */
  function NewlineLines(s: string): seq<string> {
    var l := UpToNewline(s);
    if |l| == |s| then [] else [l] + NewlineLines(s[|l| + 1..])
  }

  function PlusLines(ls: seq<string>): string {
    if ls == [] then "" else "+" + ls[0] + "\n" + PlusLines(ls[1..])
  }

  function NewFilePatch(path: string, content: string): string {
    var lines := NewlineLines(Normal(content));
    "diff --git a/" + path + " b/" + path + "\n"
    + "new file mode 100644\n"
    + "--- /dev/null\n"
    + "+++ b/" + path + "\n"
    + "@@ -0,0 +1," + Digits(|lines|) + " @@\n"
    + PlusLines(lines)
  }

  // -- Reading back -----------------------------------------------------------------------------------

  datatype Reader = Reader(path: Option<string>, isNew: bool, body: seq<string>, files: map<string, string>)

  /** `"\n".join(body) + ("\n" if body else "")` */
  function BodyText(body: seq<string>): string {
    if body == [] then "" else BodyText(body[..|body| - 1]) + body[|body| - 1] + "\n"
  }

  function Flush(r: Reader): map<string, string> {
    if r.path.Some? && r.isNew then r.files[r.path.value := BodyText(r.body)] else r.files
  }

  const DIFF := "diff --git "
  const NOTHING := "--- /dev/null"
  const PATH := "+++ b/"

  function ReadLine(r: Reader, line: string): Reader {
    if DIFF <= line then Reader(None, false, [], Flush(r))
    else if line == NOTHING then r.(isNew := true)
    else if PATH <= line then r.(path := Some(line[|PATH|..]))
    else if "+" <= line && !("+++" <= line) then r.(body := r.body + [line[1..]])
    else r
  }

  function ReadLines(r: Reader, lines: seq<string>): Reader
    decreases |lines|
  {
    if lines == [] then r else ReadLines(ReadLine(r, lines[0]), lines[1..])
  }

  const START := Reader(None, false, [], map[])

  function FilesOf(patch: string): map<string, string> {
    Flush(ReadLines(START, SplitLines(patch)))
  }

  method FilesFromPatch(patch: string) returns (files: map<string, string>)
    ensures files == FilesOf(patch)
  {
    var path: Option<string>, isNew, body := None, false, [];
    files := map[];
    var lines := SplitLines(patch);
    for i := 0 to |lines|
      invariant ReadLines(START, lines) == ReadLines(Reader(path, isNew, body, files), lines[i..])
    {
      var line := lines[i];
      assert lines[i..][1..] == lines[i + 1..];
      if DIFF <= line {
        if path.Some? && isNew {
          files := files[path.value := BodyText(body)];
        }
        path, isNew, body := None, false, [];
      } else if line == NOTHING {
        isNew := true;
      } else if PATH <= line {
        path := Some(line[|PATH|..]);
      } else if "+" <= line && !("+++" <= line) {
        body := body + [line[1..]];
      }
    }
    assert lines[|lines|..] == [];
    if path.Some? && isNew {
      files := files[path.value := BodyText(body)];
    }
  }

  // -- The printed lines --------------------------------------------------------------------------------

  function Plus(ls: seq<string>): seq<string> {
    if ls == [] then [] else ["+" + ls[0]] + Plus(ls[1..])
  }

  function DiffLine(path: string): string { DIFF + ("a/" + path + " b/" + path) }

  function PathLine(path: string): string { PATH + path }

  function HunkLine(n: nat): string { "@@ -0,0 +1," + Digits(n) + " @@" }

  function HeaderLines(path: string, n: nat): seq<string> {
    [DiffLine(path), "new file mode 100644", NOTHING, PathLine(path), HunkLine(n)]
  }

  function FileLines(path: string, content: string): seq<string> {
    var lines := NewlineLines(Normal(content));
    HeaderLines(path, |lines|) + Plus(lines)
  }

  lemma {:induction false} PlusIsTerminated(ls: seq<string>)
    ensures PlusLines(ls) == Terminated(Plus(ls))
    decreases |ls|
  {
    if ls != [] {
      PlusIsTerminated(ls[1..]);
      assert Plus(ls)[0] == "+" + ls[0] && Plus(ls)[1..] == Plus(ls[1..]);
    }
  }

  lemma TerminatedFive(a: string, b: string, c: string, d: string, e: string)
    ensures Terminated([a, b, c, d, e]) == a + "\n" + (b + "\n" + (c + "\n" + (d + "\n" + (e + "\n"))))
  {
    assert [a, b, c, d, e][1..] == [b, c, d, e] && [b, c, d, e][1..] == [c, d, e]
        && [c, d, e][1..] == [d, e] && [d, e][1..] == [e];
    assert Terminated([e]) == e + "\n";
    assert Terminated([d, e]) == d + "\n" + Terminated([e]);
    assert Terminated([c, d, e]) == c + "\n" + Terminated([d, e]);
    assert Terminated([b, c, d, e]) == b + "\n" + Terminated([c, d, e]);
  }

  lemma PatchIsTerminated(path: string, content: string)
    ensures NewFilePatch(path, content) == Terminated(FileLines(path, content))
  {
    hide Terminated, Digits, NewlineLines, PlusLines, Plus;
    var lines := NewlineLines(Normal(content));
    PlusIsTerminated(lines);
    TerminatedConcat(HeaderLines(path, |lines|), Plus(lines));
    TerminatedFive(DiffLine(path), "new file mode 100644", NOTHING, PathLine(path), HunkLine(|lines|));
    assert DiffLine(path) == "diff --git a/" + path + " b/" + path;
  }

  lemma NoNewline(s: string)
    requires '\n' !in s
    ensures s == "" || s[|s| - 1] != '\n'
  {
  }

  lemma {:induction false} LinesTerminate(s: string)
    requires s == "" || s[|s| - 1] == '\n'
    ensures Terminated(NewlineLines(s)) == s
    decreases |s|
  {
    var l := UpToNewline(s);
    if |l| < |s| {
      var tail := s[|l| + 1..];
      LinesTerminate(tail);
      assert s == l + "\n" + tail;
    } else {
      assert l == s;
      NoNewline(s);
    }
  }

  lemma {:induction false} UpToNewlineOf(l: string, rest: string)
    requires '\n' !in l
    ensures UpToNewline(l + "\n" + rest) == l
    decreases |l|
  {
    var s := l + "\n" + rest;
    if l == "" {
      assert s[0] == '\n';
    } else {
      assert s[0] == l[0] && s[1..] == l[1..] + "\n" + rest;
      UpToNewlineOf(l[1..], rest);
    }
  }

  lemma {:induction false} NewlineLinesOf(ls: seq<string>)
    requires forall i :: 0 <= i < |ls| ==> '\n' !in ls[i]
    ensures NewlineLines(Terminated(ls)) == ls
    decreases |ls|
  {
    if ls != [] {
      var tail := Terminated(ls[1..]);
      UpToNewlineOf(ls[0], tail);
      assert (ls[0] + "\n" + tail)[|ls[0]| + 1..] == tail;
      NewlineLinesOf(ls[1..]);
    }
  }

  lemma {:induction false} BodyIsTerminated(body: seq<string>)
    ensures BodyText(body) == Terminated(body)
    decreases |body|
  {
    if body != [] {
      var n := |body| - 1;
      BodyIsTerminated(body[..n]);
      TerminatedConcat(body[..n], [body[n]]);
      assert body == body[..n] + [body[n]];
      assert Terminated([body[n]]) == body[n] + "\n";
    }
  }

  // -- Reading a printed file -----------------------------------------------------------------------------

  predicate GoodLine(line: string) {
    BreakFree(line) && !("++" <= line)
  }

  predicate GoodLines(ls: seq<string>) {
    forall i :: 0 <= i < |ls| ==> GoodLine(ls[i])
  }

  /** What the format can carry: a path on one line, and content that breaks only at newlines
      and has no line starting with "++". */
  predicate Printable(path: string, content: string) {
    BreakFree(path) && GoodLines(NewlineLines(Normal(content)))
  }

  lemma {:induction false} ReadConcat(r: Reader, a: seq<string>, b: seq<string>)
    ensures ReadLines(r, a + b) == ReadLines(ReadLines(r, a), b)
    decreases |a|
  {
    hide ReadLine;
    if a == [] {
      assert a + b == b;
    } else {
      assert (a + b)[1..] == a[1..] + b;
      ReadConcat(ReadLine(r, a[0]), a[1..], b);
    }
  }

  lemma PrefixAfterPlus(p: string, line: string)
    requires p != "" && p[0] == '+'
    ensures p <= "+" + line <==> p[1..] <= line
  {
    var t := "+" + line;
    assert t[1..] == line;
    if p <= t {
      assert p == t[..|p|];
      assert p[1..] == line[..|p| - 1];
    }
    if p[1..] <= line {
      assert p[1..] == line[..|p| - 1];
      assert p == "+" + p[1..];
      assert p == t[..|p|];
    }
  }

  /** A "+" line is content unless what follows starts with "++". */
  lemma PlusPrefixes(line: string)
    ensures "+++" <= "+" + line <==> "++" <= line
    ensures PATH <= "+" + line ==> "++" <= line
  {
    PrefixAfterPlus("+++", line);
    PrefixAfterPlus(PATH, line);
    assert "+++"[1..] == "++";
    assert "++" <= PATH[1..];
  }

  lemma ReadPlusLine(r: Reader, line: string)
    requires !("++" <= line)
    ensures ReadLine(r, "+" + line) == r.(body := r.body + [line])
  {
    var t := "+" + line;
    assert t[0] == '+' && t[1..] == line && "+" <= t;
    PlusPrefixes(line);
  }

  lemma {:induction false} ReadPlus(r: Reader, ls: seq<string>)
    requires GoodLines(ls)
    ensures ReadLines(r, Plus(ls)) == r.(body := r.body + ls)
    decreases |ls|
  {
    hide ReadLine, BreakFree;
    if ls == [] {
      assert r.body + ls == r.body;
    } else {
      assert GoodLine(ls[0]);
      assert GoodLines(ls[1..]);
      ReadPlusLine(r, ls[0]);
      PlusStep(r, ls);
      ReadPlus(r.(body := r.body + [ls[0]]), ls[1..]);
      assert r.body + [ls[0]] + ls[1..] == r.body + ls;
    }
  }

  lemma {:induction false} PlusStep(r: Reader, ls: seq<string>)
    requires ls != []
    ensures ReadLines(r, Plus(ls)) == ReadLines(ReadLine(r, "+" + ls[0]), Plus(ls[1..]))
  {
    hide ReadLine;
    assert Plus(ls)[0] == "+" + ls[0];
    assert Plus(ls)[1..] == Plus(ls[1..]);
  }

  lemma ReadDiffLine(r: Reader, path: string)
    ensures ReadLine(r, DiffLine(path)) == Reader(None, false, [], Flush(r))
  {
    assert DIFF <= DiffLine(path);
  }

  lemma ReadModeLine(r: Reader)
    ensures ReadLine(r, "new file mode 100644") == r
  {
    assert "new file mode 100644"[0] == 'n';
  }

  lemma ReadNothingLine(r: Reader)
    ensures ReadLine(r, NOTHING) == r.(isNew := true)
  {
    assert NOTHING[0] == '-';
  }

  lemma ReadPathLine(r: Reader, path: string)
    ensures ReadLine(r, PathLine(path)) == r.(path := Some(path))
  {
    assert PathLine(path)[0] == '+' && PATH <= PathLine(path) && PathLine(path)[|PATH|..] == path;
  }

  lemma ReadHunkLine(r: Reader, n: nat)
    ensures ReadLine(r, HunkLine(n)) == r
  {
    assert HunkLine(n)[0] == '@';
  }

  lemma {:induction false} ReadHeader(r: Reader, path: string, n: nat)
    ensures ReadLines(r, HeaderLines(path, n)) == Reader(Some(path), true, [], Flush(r))
  {
    hide ReadLine, DiffLine, PathLine, HunkLine, Flush;
    var a, b, c, d, e := DiffLine(path), "new file mode 100644", NOTHING, PathLine(path), HunkLine(n);
    var r1 := Reader(None, false, [], Flush(r));
    ReadDiffLine(r, path);
    ReadModeLine(r1);
    ReadNothingLine(r1);
    ReadPathLine(r1.(isNew := true), path);
    var r2 := Reader(Some(path), true, [], Flush(r));
    ReadHunkLine(r2, n);
    ReadFive(r, a, b, c, d, e);
  }

  lemma {:induction false} ReadFive(r: Reader, a: string, b: string, c: string, d: string, e: string)
    ensures ReadLines(r, [a, b, c, d, e]) == ReadLine(ReadLine(ReadLine(ReadLine(ReadLine(r, a), b), c), d), e)
  {
    hide ReadLine;
    assert [a, b, c, d, e][1..] == [b, c, d, e] && [b, c, d, e][1..] == [c, d, e]
        && [c, d, e][1..] == [d, e] && [d, e][1..] == [e];
    var r1 := ReadLine(r, a);
    var r2 := ReadLine(r1, b);
    var r3 := ReadLine(r2, c);
    assert ReadLines(r3, [d, e]) == ReadLines(ReadLine(r3, d), [e]);
    assert [e][1..] == [] && ReadLines(ReadLine(r3, d), [e]) == ReadLine(ReadLine(r3, d), e);
    assert ReadLines(r3, [d, e]) == ReadLine(ReadLine(r3, d), e);
    assert ReadLines(r2, [c, d, e]) == ReadLines(r3, [d, e]);
    assert ReadLines(r1, [b, c, d, e]) == ReadLines(r2, [c, d, e]);
  }

  lemma {:induction false} ReadFile(r: Reader, path: string, content: string)
    requires Printable(path, content)
    ensures ReadLines(r, FileLines(path, content)) == Reader(Some(path), true, NewlineLines(Normal(content)), Flush(r))
  {
    hide ReadLines, HeaderLines, Flush, Normal, NewlineLines;
    var lines := NewlineLines(Normal(content));
    ReadHeader(r, path, |lines|);
    ReadConcat(r, HeaderLines(path, |lines|), Plus(lines));
    ReadPlus(Reader(Some(path), true, [], Flush(r)), lines);
    assert [] + lines == lines;
  }

  // -- Every line is on one line -----------------------------------------------------------------------------

  lemma {:induction false} DigitsBreakFree(n: nat)
    ensures BreakFree(Digits(n))
    decreases n
  {
    if n >= 10 { DigitsBreakFree(n / 10); }
  }

  lemma BreakFreeConcat(a: string, b: string)
    requires BreakFree(a) && BreakFree(b)
    ensures BreakFree(a + b)
  {
  }

  lemma {:induction false} PlusBreakFree(ls: seq<string>)
    requires GoodLines(ls)
    ensures AllBreakFree(Plus(ls))
    decreases |ls|
  {
    if ls != [] {
      assert GoodLine(ls[0]);
      BreakFreeConcat("+", ls[0]);
      PlusBreakFree(ls[1..]);
    }
  }

  lemma HeaderBreakFree(path: string, n: nat)
    requires BreakFree(path)
    ensures AllBreakFree(HeaderLines(path, n))
  {
    hide Digits;
    DigitsBreakFree(n);
    BreakFreeConcat("a/", path);
    BreakFreeConcat("a/" + path, " b/");
    BreakFreeConcat("a/" + path + " b/", path);
    BreakFreeConcat(DIFF, "a/" + path + " b/" + path);
    BreakFreeConcat(PATH, path);
    BreakFreeConcat("@@ -0,0 +1,", Digits(n));
    BreakFreeConcat("@@ -0,0 +1," + Digits(n), " @@");
  }

  // -- The round trip -------------------------------------------------------------------------------------------

  type Files = seq<(string, string)>

  /** The patches one after the other. */
  function PatchOf(fs: Files): string {
    if fs == [] then "" else PatchOf(fs[..|fs| - 1]) + NewFilePatch(fs[|fs| - 1].0, fs[|fs| - 1].1)
  }

  function AllLines(fs: Files): seq<string> {
    if fs == [] then [] else AllLines(fs[..|fs| - 1]) + FileLines(fs[|fs| - 1].0, fs[|fs| - 1].1)
  }

  /** The files as a map, contents with their final newline. */
  function FileMap(fs: Files): map<string, string> {
    if fs == [] then map[] else FileMap(fs[..|fs| - 1])[fs[|fs| - 1].0 := Normal(fs[|fs| - 1].1)]
  }

  predicate AllPrintable(fs: Files) {
    forall i :: 0 <= i < |fs| ==> Printable(fs[i].0, fs[i].1)
  }

  lemma {:induction false} PatchLines(fs: Files)
    ensures PatchOf(fs) == Terminated(AllLines(fs))
    ensures AllPrintable(fs) ==> AllBreakFree(AllLines(fs))
    decreases |fs|
  {
    hide NewFilePatch, HeaderLines, NewlineLines, Normal, Plus, Terminated;
    if fs == [] {
      EmptyTerminated();
    } else {
      var n := |fs| - 1;
      PatchLines(fs[..n]);
      PatchIsTerminated(fs[n].0, fs[n].1);
      TerminatedConcat(AllLines(fs[..n]), FileLines(fs[n].0, fs[n].1));
      if AllPrintable(fs) {
        assert Printable(fs[n].0, fs[n].1);
        var lines := NewlineLines(Normal(fs[n].1));
        HeaderBreakFree(fs[n].0, |lines|);
        PlusBreakFree(lines);
      }
    }
  }

  lemma EmptyTerminated()
    ensures Terminated([]) == ""
  {
  }

  lemma NormalEnds(content: string)
    ensures Terminated(NewlineLines(Normal(content))) == Normal(content)
  {
    LinesTerminate(Normal(content));
  }

  lemma {:induction false} ReadAll(fs: Files)
    requires AllPrintable(fs)
    ensures Flush(ReadLines(START, AllLines(fs))) == FileMap(fs)
    decreases |fs|
  {
    hide FileLines, Printable, NewlineLines, Normal, ReadLine, BodyText;
    if fs != [] {
      var n := |fs| - 1;
      ReadAll(fs[..n]);
      ReadConcat(START, AllLines(fs[..n]), FileLines(fs[n].0, fs[n].1));
      ReadFile(ReadLines(START, AllLines(fs[..n])), fs[n].0, fs[n].1);
      BodyIsTerminated(NewlineLines(Normal(fs[n].1)));
      NormalEnds(fs[n].1);
    }
  }

  /** What reading back can produce, from any text at all: paths on one line, and contents made
      of lines that do not start with "++". */
  ghost predicate Recoverable(files: map<string, string>) {
    forall path :: path in files ==>
      BreakFree(path) && exists ls :: GoodLines(ls) && files[path] == Terminated(ls)
  }

  ghost predicate GoodReader(r: Reader) {
    (r.path.Some? ==> BreakFree(r.path.value)) && GoodLines(r.body) && Recoverable(r.files)
  }

  lemma FlushRecoverable(r: Reader)
    requires GoodReader(r)
    ensures Recoverable(Flush(r))
  {
    BodyIsTerminated(r.body);
  }

  lemma ReadLineGood(r: Reader, line: string)
    requires GoodReader(r) && BreakFree(line)
    ensures GoodReader(ReadLine(r, line))
  {
    hide Recoverable, Flush;
    FlushRecoverable(r);
    if "+" <= line && !("+++" <= line) {
      var rest := line[1..];
      assert line == "+" + rest;
      PlusPrefixes(rest);
      assert GoodLine(rest);
    }
  }

  lemma {:induction false} ReadLinesGood(r: Reader, lines: seq<string>)
    requires GoodReader(r) && AllBreakFree(lines)
    ensures GoodReader(ReadLines(r, lines))
    decreases |lines|
  {
    hide ReadLine, GoodReader;
    if lines != [] {
      ReadLineGood(r, lines[0]);
      ReadLinesGood(ReadLine(r, lines[0]), lines[1..]);
    }
  }

  predicate Distinct(fs: Files) {
    forall i, j :: 0 <= i < j < |fs| ==> fs[i].0 != fs[j].0
  }

  lemma {:induction false} FileMapAt(fs: Files, i: nat)
    requires Distinct(fs) && i < |fs|
    ensures fs[i].0 in FileMap(fs) && FileMap(fs)[fs[i].0] == Normal(fs[i].1)
    decreases |fs|
  {
    hide Normal;
    if i < |fs| - 1 { FileMapAt(fs[..|fs| - 1], i); }
  }

  lemma GoodLinesPlain(ls: seq<string>)
    requires GoodLines(ls)
    ensures forall i :: 0 <= i < |ls| ==> '\n' !in ls[i]
  {
    forall i | 0 <= i < |ls| ensures '\n' !in ls[i] { assert GoodLine(ls[i]); }
  }

  /** The patch round trip, for any list of distinct paths: reading the concatenated patches
      back gives exactly every path with its content brought to a final newline, if and only
      if every path and content is printable. */
  lemma {:induction false} PatchRoundTrip(fs: Files)
    requires Distinct(fs)
    ensures FilesOf(PatchOf(fs)) == FileMap(fs) <==> AllPrintable(fs)
  {
    hide Printable, ReadLines, SplitLines, Terminated, GoodLines, NewlineLines, Normal, BreakFree;
    var lines := SplitLines(PatchOf(fs));
    if AllPrintable(fs) {
      PatchLines(fs);
      LinesOfTerminated(AllLines(fs));
      ReadAll(fs);
    }
    if FilesOf(PatchOf(fs)) == FileMap(fs) {
      StartGood();
      ReadLinesGood(START, lines);
      FlushRecoverable(ReadLines(START, lines));
      forall i | 0 <= i < |fs| ensures Printable(fs[i].0, fs[i].1) {
        FileMapAt(fs, i);
        var ls :| GoodLines(ls) && Normal(fs[i].1) == Terminated(ls);
        PrintableIf(fs[i].0, fs[i].1, ls);
      }
    }
  }

  lemma StartGood()
    ensures GoodReader(START)
  {
  }

  lemma {:induction false} PrintableIf(path: string, content: string, ls: seq<string>)
    requires BreakFree(path) && GoodLines(ls) && Normal(content) == Terminated(ls)
    ensures Printable(path, content)
  {
    hide Terminated, Normal, NewlineLines;
    GoodLinesPlain(ls);
    NewlineLinesOf(ls);
  }

  lemma {:induction false} PlusEach(ls: seq<string>)
    ensures |Plus(ls)| == |ls| && forall i :: 0 <= i < |ls| ==> Plus(ls)[i] == "+" + ls[i]
    decreases |ls|
  {
    if ls != [] { PlusEach(ls[1..]); }
  }

  /** The hunk header announces exactly the added lines that follow it. */
  lemma HunkCounts(path: string, content: string)
    ensures var ls, lines := FileLines(path, content), NewlineLines(Normal(content));
            && |ls| == 5 + |lines| && ls[4] == HunkLine(|ls| - 5)
            && forall i :: 0 <= i < |lines| ==> ls[5 + i] == "+" + lines[i]
  {
    hide NewlineLines, HunkLine, DiffLine, PathLine;
    PlusEach(NewlineLines(Normal(content)));
  }
}
