/** Workflow locators by what they are made of: an owner, a repository and a workflow file, with or
    without a reference. */
module Locators {
  import opened Text
  import opened Bounds
  import opened Catalog
  import opened Workflow

  /** A stem of its class and one of the two endings. */
  predicate IsFile(wide: WideClass, stem: string, ending: string) {
    Class(wide, "./-", stem) && (ending == ".yml" || ending == ".yaml")
  }

  /** Nothing, or `@` and a word. */
  predicate IsMark(mark: string) {
    mark == "" || ("@" <= mark && Token(mark[1..]))
  }

  predicate IsLocator(wide: WideClass, text: string, owner: string, repo: string, stem: string, ending: string, mark: string) {
    && Class(wide, ".-", owner) && Class(wide, ".-", repo) && IsFile(wide, stem, ending) && IsMark(mark)
    && text == owner + "/" + repo + "/" + stem + ending + mark
  }

  ghost predicate Composed(wide: WideClass, text: string) {
    exists owner, repo, stem, ending, mark :: IsLocator(wide, text, owner, repo, stem, ending, mark)
  }

  lemma NotInClass(wide: WideClass, extra: string, s: string, c: char)
    requires Class(wide, extra, s) && c !in extra && (c == '/' || c == '@' || c == '\n')
    ensures c !in s
  {
    assert !WordChar(wide, c);
  }

  lemma ClassConcat(wide: WideClass, extra: string, a: string, b: string)
    requires Class(wide, extra, a) && Class(wide, extra, b)
    ensures Class(wide, extra, a + b)
  {
  }

  lemma ClassPrefix(wide: WideClass, extra: string, s: string, n: nat)
    requires Class(wide, extra, s) && 0 < n <= |s|
    ensures Class(wide, extra, s[..n])
  {
  }

  lemma EndingsInClass(wide: WideClass)
    ensures Class(wide, "./-", ".yml") && Class(wide, "./-", ".yaml")
  {
  }

  /** A workflow file is a stem and an ending. */
  lemma FileExactly(wide: WideClass, file: string)
    ensures WorkflowFile(wide, file) <==> exists stem, ending :: IsFile(wide, stem, ending) && file == stem + ending
  {
    EndingsInClass(wide);
    if WorkflowFile(wide, file) {
      var ending := if EndsWith(file, ".yml") && |file| > 4 then ".yml" else ".yaml";
      var n := |file| - |ending|;
      ClassPrefix(wide, "./-", file, n);
      assert IsFile(wide, file[..n], ending) && file == file[..n] + ending;
    }
    forall stem, ending | IsFile(wide, stem, ending) && file == stem + ending ensures WorkflowFile(wide, file) {
      ClassConcat(wide, "./-", stem, ending);
      assert EndsWith(file, ending);
    }
  }

  lemma {:induction false} Cut(t: string, stop: char)
    ensures var p := Before(t, [stop]); |p| < |t| ==> t == p + [stop] + t[|p| + 1..]
  {
  }

  lemma {:induction false} BeforeStopIs(p: string, c: char, rest: string)
    requires c !in p
    ensures Before(p + [c] + rest, [c]) == p && (p + [c] + rest)[|p| + 1..] == rest
  {
    BeforeStop(p, c, rest, [c]);
    BeforeNothing(p, [c]);
  }

  predicate FilesAndMarks(wide: WideClass, v: string) {
    var file := Before(v, "@");
    WorkflowFile(wide, file) && (|file| < |v| ==> Token(v[|file| + 1..]))
  }

  /** The three cuts of `Locates`, on a text without the final newline. */
  predicate Cuts(wide: WideClass, t: string) {
    var owner := Before(t, "/");
    |owner| < |t| && Class(wide, PART_EXTRA, owner) &&
    var u := t[|owner| + 1..];
    var repo := Before(u, "/");
    |repo| < |u| && Class(wide, PART_EXTRA, repo) &&
    FilesAndMarks(wide, u[|repo| + 1..])
  }

  lemma {:induction false} TailCuts(wide: WideClass, v: string, stem: string, ending: string, mark: string)
    requires IsFile(wide, stem, ending) && IsMark(mark) && v == stem + ending + mark
    ensures FilesAndMarks(wide, v)
  {
    hide WorkflowFile, Class;
    var f := stem + ending;
    FileExactly(wide, f);
    EndingsInClass(wide);
    ClassConcat(wide, "./-", stem, ending);
    NotInClass(wide, "./-", f, '@');
    if mark == "" {
      assert v == f;
      BeforeNothing(f, "@");
    } else {
      assert v == f + ['@'] + mark[1..];
      BeforeStopIs(f, '@', mark[1..]);
    }
  }

  lemma {:induction false} TailExactly(wide: WideClass, v: string)
    ensures FilesAndMarks(wide, v)
       <==> exists stem, ending, mark :: IsFile(wide, stem, ending) && IsMark(mark) && v == stem + ending + mark
  {
    hide WorkflowFile, IsFile, Before, Token;
    var file := Before(v, "@");
    FileExactly(wide, file);
    Cut(v, '@');
    if FilesAndMarks(wide, v) {
      var stem, ending :| IsFile(wide, stem, ending) && file == stem + ending;
      var mark := v[|file|..];
      assert mark != "" ==> mark[1..] == v[|file| + 1..] && mark[0] == '@';
      assert IsMark(mark) && v == stem + ending + mark;
    }
    forall stem, ending, mark | IsFile(wide, stem, ending) && IsMark(mark) && v == stem + ending + mark
      ensures FilesAndMarks(wide, v)
    {
      TailCuts(wide, v, stem, ending, mark);
    }
  }

  lemma {:induction false} ComposedCuts(wide: WideClass, t: string, owner: string, repo: string, v: string)
    requires Class(wide, ".-", owner) && Class(wide, ".-", repo) && t == owner + "/" + (repo + "/" + v)
    ensures Before(t, "/") == owner && t[|owner| + 1..] == repo + "/" + v
    ensures Before(repo + "/" + v, "/") == repo && (repo + "/" + v)[|repo| + 1..] == v
  {
    NotInClass(wide, ".-", owner, '/');
    NotInClass(wide, ".-", repo, '/');
    BeforeStopIs(owner, '/', repo + "/" + v);
    BeforeStopIs(repo, '/', v);
  }

  lemma CutsCompose(wide: WideClass, t: string)
    requires Cuts(wide, t)
    ensures Composed(wide, t)
  {
    hide Class, WorkflowFile, IsFile, IsMark, Token, Before;
    var owner := Before(t, "/");
    var u := t[|owner| + 1..];
    var repo := Before(u, "/");
    var v := u[|repo| + 1..];
    Cut(t, '/');
    Cut(u, '/');
    TailExactly(wide, v);
    var stem, ending, mark :| IsFile(wide, stem, ending) && IsMark(mark) && v == stem + ending + mark;
    Regroup(owner, repo, stem, ending, mark);
    assert IsLocator(wide, t, owner, repo, stem, ending, mark);
  }

  lemma Regroup(owner: string, repo: string, stem: string, ending: string, mark: string)
    ensures owner + "/" + (repo + "/" + (stem + ending + mark)) == owner + "/" + repo + "/" + stem + ending + mark
  {
  }

  lemma LocatorCuts(wide: WideClass, t: string, owner: string, repo: string, stem: string, ending: string, mark: string)
    requires IsLocator(wide, t, owner, repo, stem, ending, mark)
    ensures Cuts(wide, t)
  {
    hide Class, WorkflowFile, IsFile, IsMark, Token, Before;
    var v := stem + ending + mark;
    Regroup(owner, repo, stem, ending, mark);
    ComposedCuts(wide, t, owner, repo, v);
    TailExactly(wide, v);
  }

  lemma LocatorEnds(wide: WideClass, t: string)
    requires Composed(wide, t)
    ensures t != "" && t[|t| - 1] != '\n'
  {
    var owner, repo, stem, ending, mark :| IsLocator(wide, t, owner, repo, stem, ending, mark);
    if mark == "" {
      assert t[|t| - 1] == ending[|ending| - 1] == 'l';
    } else {
      assert t[|t| - 1] == mark[1..][|mark| - 2] && IsSpace('\n');
    }
  }

  /** A token locates a workflow exactly when it is an owner, a repository, a workflow file and perhaps
      a reference, with at most one newline after it. */
  lemma {:induction false} LocatesExactly(wide: WideClass, token: string)
    ensures Locates(wide, token) <==> Composed(wide, token) || exists text :: Composed(wide, text) && token == text + "\n"
  {
    hide Class, WorkflowFile, IsFile, IsMark, IsLocator, Token, Before;
    var t := Chopped(token);
    assert Locates(wide, token) <==> Cuts(wide, t);
    assert token == t || token == t + "\n";
    if Cuts(wide, t) { CutsCompose(wide, t); }
    forall owner, repo, stem, ending, mark | IsLocator(wide, t, owner, repo, stem, ending, mark) ensures Cuts(wide, t) {
      LocatorCuts(wide, t, owner, repo, stem, ending, mark);
    }
    if Composed(wide, token) { LocatorEnds(wide, token); }
    if text :| Composed(wide, text) && token == text + "\n" { assert t == text; }
  }
}
