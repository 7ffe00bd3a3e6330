/** The words the chat grammar knows, and what each verb makes of the rest of its line: a reference
    for the scanner, written without its tables. */
module Vocabulary {
  import opened Text
  import opened Grammar

  // -- Words ---------------------------------------------------------------------------------------

  /** The words for a verb, in small letters. */
  predicate WordFor(w: string, v: Verb) {
    match v
    case Approve => w == "approve"
    case Decline => w == "decline"
    case Fix => w == "fix"
    case Run => w == "run"
    case Mute => w == "mute"
    case Unmute => w == "unmute"
    case Snooze => w == "snooze"
    case Send => w == "send"
    case Vouch => w == "vouch"
    case Dispatch => w == "dispatch"
    case Request => w == "request"
    case AddCheck => w == "add-check"
    case AddSolution => w == "add-solution"
    case StartHere => w == "start-here"
    case Help => w == "help"
    case Summary => w == "summary"
    case Ask => w == "ask"
    case Targets => w == "targets"
    case Pending => w == "pending"
    case Probe => w == "probe" || w == "scan" || w == "refresh"
    case Cost => w == "cost"
    case Findings => w == "findings"
    case Show => w == "show"
    case Analyze => w == "analyze"
    case History => w == "history"
    case Hold => w == "hold"
    case Learn => w == "learn"
    case Health => w == "health"
    case Posture => w == "posture"
    case Metrics => w == "metrics"
    case Runs => w == "runs"
    case Requests => w == "requests"
    case Checks => w == "checks"
    case Solutions => w == "solutions"
    case Smoke => w == "smoke"
    case Surfaces => w == "surfaces"
    case Actions => w == "actions"
  }

  lemma SpelledFor(w: string, v: Verb)
    ensures WordFor(w, v) <==> Spelling(v) == w || (v.Probe? && IsAlias(w))
  {
  }

  /** The verb of a spelling, by its length and first two letters. */
  function Sorted(length: nat, x: char, y: char): Option<Verb> {
    match length
    case 3 =>
      if x == 'f' && y == 'i' then Some(Fix)
      else if x == 'r' && y == 'u' then Some(Run)
      else if x == 'a' && y == 's' then Some(Ask)
      else None
    case 4 =>
      if x == 'm' && y == 'u' then Some(Mute)
      else if x == 's' && y == 'e' then Some(Send)
      else if x == 'h' && y == 'e' then Some(Help)
      else if x == 'c' && y == 'o' then Some(Cost)
      else if x == 's' && y == 'h' then Some(Show)
      else if x == 'h' && y == 'o' then Some(Hold)
      else if x == 'r' && y == 'u' then Some(Runs)
      else None
    case 5 =>
      if x == 'v' && y == 'o' then Some(Vouch)
      else if x == 'p' && y == 'r' then Some(Probe)
      else if x == 'l' && y == 'e' then Some(Learn)
      else if x == 's' && y == 'm' then Some(Smoke)
      else None
    case 6 =>
      if x == 'u' && y == 'n' then Some(Unmute)
      else if x == 's' && y == 'n' then Some(Snooze)
      else if x == 'h' && y == 'e' then Some(Health)
      else if x == 'c' && y == 'h' then Some(Checks)
      else None
    case 7 =>
      if x == 'a' && y == 'p' then Some(Approve)
      else if x == 'd' && y == 'e' then Some(Decline)
      else if x == 'r' && y == 'e' then Some(Request)
      else if x == 's' && y == 'u' then Some(Summary)
      else if x == 't' && y == 'a' then Some(Targets)
      else if x == 'p' && y == 'e' then Some(Pending)
      else if x == 'a' && y == 'n' then Some(Analyze)
      else if x == 'h' && y == 'i' then Some(History)
      else if x == 'p' && y == 'o' then Some(Posture)
      else if x == 'm' && y == 'e' then Some(Metrics)
      else if x == 'a' && y == 'c' then Some(Actions)
      else None
    case 8 =>
      if x == 'd' && y == 'i' then Some(Dispatch)
      else if x == 'f' && y == 'i' then Some(Findings)
      else if x == 'r' && y == 'e' then Some(Requests)
      else if x == 's' && y == 'u' then Some(Surfaces)
      else None
    case 9 =>
      if x == 'a' && y == 'd' then Some(AddCheck)
      else if x == 's' && y == 'o' then Some(Solutions)
      else None
    case 10 =>
      if x == 's' && y == 't' then Some(StartHere)
      else None
    case 12 =>
      if x == 'a' && y == 'd' then Some(AddSolution)
      else None
    case _ => None
  }

  lemma SortedBySpelling(v: Verb)
    ensures var w := Spelling(v); |w| >= 3 && Sorted(|w|, w[0], w[1]) == Some(v)
  {
  }

  lemma SpellingsDiffer(a: Verb, b: Verb)
    requires Spelling(a) == Spelling(b)
    ensures a == b
  {
    hide Spelling, Sorted;
    SortedBySpelling(a);
    SortedBySpelling(b);
  }

  lemma RequestIsNoAlias()
    ensures Spelling(Request) != "refresh" && Sorted(|"refresh"|, 'r', 'e') == Some(Request)
    ensures "refresh"[0] == 'r' && "refresh"[1] == 'e'
  {
    assert "request"[2] == 'q' && "refresh"[2] == 'f';
  }

  lemma NoAliasIsSpelt(v: Verb)
    ensures !IsAlias(Spelling(v))
  {
    SortedBySpelling(v);
    RequestIsNoAlias();
    hide Spelling;
    assert |"scan"| == 4 && "scan"[0] == 's' && "scan"[1] == 'c' && Sorted(4, 's', 'c').None?;
  }

  lemma AllListed(v: Verb)
    ensures v in VERBS
  {
    EffectfulListed(v);
    if !Effectful(v) { ReadOnlyListed(v); }
  }

  lemma ReadOnlyListed(v: Verb)
    requires !Effectful(v)
    ensures v in READ_ONLY
  {
  }

  lemma {:induction false} FirstSpeltFinds(verbs: seq<Verb>, v: Verb, w: string)
    ensures FirstSpelt(verbs, w) == Some(v) ==> Spelling(v) == w
    ensures v in verbs && Spelling(v) == w ==> FirstSpelt(verbs, w) == Some(v)
    decreases |verbs|
  {
    hide Spelling;
    if verbs != [] {
      FirstSpeltFinds(verbs[1..], v, w);
      if Spelling(verbs[0]) == Spelling(v) { SpellingsDiffer(verbs[0], v); }
    }
  }

  /** A token is taken for a verb exactly if it is one of its words, in any letter case. */
  lemma VerbOfExactly(token: string, v: Verb)
    ensures VerbOf(token) == Some(v) <==> WordFor(Lower(token), v)
  {
    hide Spelling, WordFor, FirstSpelt, IsAlias;
    SpelledFor(Lower(token), v);
    AllListed(v);
    FirstSpeltFinds(VERBS, v, Lower(token));
    NoAliasIsSpelt(v);
  }

  // -- Modifiers and plain tokens -----------------------------------------------------------------------

  /** The words for a modifier. */
  predicate ModifierFor(w: string, f: Flag) {
    match f
    case UnmuteFlag => w == "unmute" || w == "--unmute"
    case CostFlag => w == "cost" || w == "--cost"
    case VerboseFlag => w == "verbose" || w == "--verbose" || w == "-v"
    case DeepFlag => w == "deep" || w == "--deep"
    case JsonFlag => w == "json" || w == "--json"
  }

  lemma ModifierExactly(w: string, f: Flag)
    ensures FlagNamed(w) == Some(f) <==> ModifierFor(w, f)
  {
    assert "unmute"[0] == 'u' && "cost"[0] == 'c' && "verbose"[0] == 'v' && "deep"[0] == 'd' && "json"[0] == 'j';
    assert |"-v"| == 2 && |"--unmute"| == 8 && |"--cost"| == 6 && |"--verbose"| == 9 && |"--deep"| == 6 && |"--json"| == 6;
    assert "--cost"[2] == 'c' && "--deep"[2] == 'd' && "--json"[2] == 'j' && "-v"[0] == '-' && "--unmute"[0] == '-' && "--verbose"[0] == '-'
        && "--cost"[0] == '-' && "--deep"[0] == '-' && "--json"[0] == '-';
  }

  /** A token that is no modifier, in any letter case. */
  predicate PlainToken(t: string) {
    forall f :: !ModifierFor(Lower(t), f)
  }

  lemma PlainExactly(t: string)
    ensures PlainToken(t) <==> !FlagWord(t)
  {
    hide FlagNamed, ModifierFor;
    forall f ensures FlagNamed(Lower(t)) == Some(f) <==> ModifierFor(Lower(t), f) { ModifierExactly(Lower(t), f); }
  }

  /** The plain tokens, in order, are the arguments. */
  lemma {:induction false} ArgsExactly(before: seq<string>, t: string)
    ensures Args([]) == []
    ensures Args(before + [t]) == Args(before) + if PlainToken(t) then [t] else []
    decreases |before|
  {
    hide FlagWord, PlainToken;
    PlainExactly(t);
    if before == [] {
      assert before + [t] == [t];
    } else {
      assert (before + [t])[1..] == before[1..] + [t];
      ArgsExactly(before[1..], t);
    }
  }

  /** The modifiers found are those some token is a word for. */
  lemma {:induction false} FlagsExactly(ts: seq<string>, f: Flag)
    ensures f in Flags(ts) <==> exists i :: 0 <= i < |ts| && ModifierFor(Lower(ts[i]), f)
    decreases |ts|
  {
    hide FlagNamed, ModifierFor;
    if ts != [] {
      FlagsExactly(ts[1..], f);
      ModifierExactly(Lower(ts[0]), f);
      assert forall i :: 0 <= i < |ts[1..]| ==> ts[1..][i] == ts[i + 1];
      if i :| 1 <= i < |ts| && ModifierFor(Lower(ts[i]), f) { assert ts[1..][i - 1] == ts[i]; }
    }
  }

  // -- What a verb makes of the rest of its line -------------------------------------------------------------

  /** What the rest of a line, with plain tokens `args` and modifiers `flags`, makes of a verb: a
      question verbatim; a name and verbatim pairs; the first and the last plain token; the first
      one, needed, unless a bare synonym of `probe` means everything; all of them; or what is
      there of one or two optional ones. */
  predicate Reads(
    c: Option<Command>, v: Verb, alias: bool, rest: seq<string>, args: seq<string>, flags: set<Flag>, actor: string)
  {
    if v in {Ask} then
      if rest == [] then c.None? else c == Some(Command(v, actor, Join(rest), "", {}))
    else if v in {Dispatch, Request} then
      if rest == [] then c.None? else c == Some(Command(v, actor, rest[0], Join(rest[1..]), {}))
    else if v in {Send, Run, Snooze} then
      if |args| < 2 then c.None? else c == Some(Command(v, actor, args[0], args[|args| - 1], flags))
    else if v in {Probe, Mute, Unmute, Show, Fix, Vouch} then
      if |args| > 0 then c == Some(Command(v, actor, args[0], "", flags))
      else if alias then c == Some(Command(v, actor, "all", "", flags))
      else c.None?
    else if v in {Findings} then c == Some(Command(v, actor, Join(args), "", flags))
    else if v in {Approve} then
      c == Some(Command(v, actor, if |args| > 0 then args[0] else "", if |args| > 1 then args[1] else "", flags))
    else if v in {Cost, Decline, Runs} then c == Some(Command(v, actor, if |args| > 0 then args[0] else "", "", flags))
    else c == Some(Command(v, actor, "", "", flags))
  }

  lemma {:induction false} ReadingExactly(v: Verb, alias: bool, rest: seq<string>, actor: string)
    ensures Reads(Reading(v, alias, rest, actor), v, alias, rest, Args(rest), Flags(rest), actor)
  {
    hide Args, Flags, Join;
  }

  /** Token `i` is a word for `v`, and its line can be read as `c`. */
  ghost predicate ReadAt(toks: seq<string>, i: nat, c: Command, actor: string) {
    && i < |toks|
    && WordFor(Lower(toks[i]), c.verb)
    && Reads(Some(c), c.verb, Lower(toks[i]) in {"scan", "refresh"}, toks[i + 1..], Args(toks[i + 1..]), Flags(toks[i + 1..]), actor)
  }

  lemma AliasExactly(w: string)
    ensures IsAlias(w) <==> w in {"scan", "refresh"}
  {
  }

  lemma ReadingAtExactly(toks: seq<string>, i: nat, actor: string)
    requires i < |toks|
    ensures forall c :: ReadingAt(toks[i], toks[i + 1..], actor) == Some(c) <==> ReadAt(toks, i, c, actor)
  {
    hide VerbOf, WordFor, Reading, Reads, IsAlias;
    AliasExactly(Lower(toks[i]));
    forall c ensures ReadingAt(toks[i], toks[i + 1..], actor) == Some(c) <==> ReadAt(toks, i, c, actor) {
      VerbOfExactly(toks[i], c.verb);
      var rest, alias := toks[i + 1..], IsAlias(Lower(toks[i]));
      ReadingExactly(c.verb, alias, rest, actor);
      ReadsOnce(Reading(c.verb, alias, rest, actor), Some(c), c.verb, alias, rest, actor);
      ReadingKeepsVerb(toks[i], rest, actor);
    }
  }

  lemma {:induction false} ReadsOnce(c: Option<Command>, d: Option<Command>, v: Verb, alias: bool, rest: seq<string>, actor: string)
    requires Reads(c, v, alias, rest, Args(rest), Flags(rest), actor)
    ensures Reads(d, v, alias, rest, Args(rest), Flags(rest), actor) <==> c == d
  {
    hide Args, Flags, Join;
  }

  lemma ReadingKeepsVerb(token: string, rest: seq<string>, actor: string)
    ensures ReadingAt(token, rest, actor).Some? ==> VerbOf(token) == Some(ReadingAt(token, rest, actor).value.verb)
  {
    hide VerbOf, Args, Flags, Join;
  }

  /** A line is the command of the first token that is a verb whose line can be read, and no command
      if there is none. */
  lemma {:induction false} ScanExactly(toks: seq<string>, actor: string)
    ensures Scan(toks, actor).None? <==> forall i: nat, c :: !ReadAt(toks, i, c, actor)
    ensures Scan(toks, actor).Some? ==>
              exists i: nat :: ReadAt(toks, i, Scan(toks, actor).value, actor)
                               && forall j: nat, c :: j < i ==> !ReadAt(toks, j, c, actor)
    decreases |toks|
  {
    hide ReadAt, ReadingAt;
    if toks == [] {
      forall i: nat, c ensures !ReadAt(toks, i, c, actor) { NothingRead(i, c, actor); }
    } else {
      ReadingAtExactly(toks, 0, actor);
      ScanExactly(toks[1..], actor);
      forall i: nat, c ensures ReadAt(toks, i + 1, c, actor) <==> ReadAt(toks[1..], i, c, actor) { ReadLater(toks, i, c, actor); }
      if ReadingAt(toks[0], toks[1..], actor).Some? {
        assert ReadAt(toks, 0, Scan(toks, actor).value, actor);
      } else {
        forall c ensures !ReadAt(toks, 0, c, actor) {}
        forall i: nat, c | ReadAt(toks, i, c, actor) ensures i > 0 && ReadAt(toks[1..], i - 1, c, actor) {
          if i > 0 { ReadLater(toks, i - 1, c, actor); }
        }
        if Scan(toks, actor).Some? {
          var i: nat :| ReadAt(toks[1..], i, Scan(toks, actor).value, actor)
                        && forall j: nat, c :: j < i ==> !ReadAt(toks[1..], j, c, actor);
          assert ReadAt(toks, i + 1, Scan(toks, actor).value, actor);
          forall j: nat, c | j < i + 1 ensures !ReadAt(toks, j, c, actor) {}
        }
      }
    }
  }

  lemma NothingRead(i: nat, c: Command, actor: string)
    ensures !ReadAt([], i, c, actor)
  {
  }

  lemma ReadLater(toks: seq<string>, i: nat, c: Command, actor: string)
    requires toks != []
    ensures ReadAt(toks, i + 1, c, actor) <==> ReadAt(toks[1..], i, c, actor)
  {
    hide WordFor, Reads;
    if i + 1 < |toks| {
      assert toks[1..][i] == toks[i + 1] && toks[1..][i + 1..] == toks[i + 2..];
    }
  }
}
