/** The chat command grammar. */
module Grammar {
  // One line of text to at most one command, and the canonical line echoed for a human to confirm.

  import opened Text

  datatype Verb =
    | Approve | Decline | Fix | Run | Mute | Unmute | Snooze | Send | Vouch | Dispatch | Request
    | AddCheck | AddSolution
    | StartHere | Help | Summary | Ask | Targets | Pending | Probe | Cost | Findings | Show | Analyze
    | History | Hold | Learn | Health | Posture | Metrics | Runs | Requests | Checks | Solutions
    | Smoke | Surfaces | Actions

  datatype Flag = UnmuteFlag | CostFlag | VerboseFlag | DeepFlag | JsonFlag

  datatype Command = Command(verb: Verb, actor: string, argument: string, argument2: string, flags: set<Flag>)

  function Spelling(v: Verb): string {
    match v
    case Approve => "approve"
    case Decline => "decline"
    case Fix => "fix"
    case Run => "run"
    case Mute => "mute"
    case Unmute => "unmute"
    case Snooze => "snooze"
    case Send => "send"
    case Vouch => "vouch"
    case Dispatch => "dispatch"
    case Request => "request"
    case AddCheck => "add-check"
    case AddSolution => "add-solution"
    case StartHere => "start-here"
    case Help => "help"
    case Summary => "summary"
    case Ask => "ask"
    case Targets => "targets"
    case Pending => "pending"
    case Probe => "probe"
    case Cost => "cost"
    case Findings => "findings"
    case Show => "show"
    case Analyze => "analyze"
    case History => "history"
    case Hold => "hold"
    case Learn => "learn"
    case Health => "health"
    case Posture => "posture"
    case Metrics => "metrics"
    case Runs => "runs"
    case Requests => "requests"
    case Checks => "checks"
    case Solutions => "solutions"
    case Smoke => "smoke"
    case Surfaces => "surfaces"
    case Actions => "actions"
  }

  const EFFECTFUL: seq<Verb> := [
    Approve, Decline, Fix, Run, Mute, Unmute, Snooze, Send, Vouch, Dispatch, Request, AddCheck, AddSolution]

  const READ_ONLY: seq<Verb> := [
    StartHere, Help, Summary, Ask, Targets, Pending, Probe, Cost, Findings, Show, Analyze, History, Hold,
    Learn, Health, Posture, Metrics, Runs, Requests, Checks, Solutions, Smoke, Surfaces, Actions]

  const VERBS: seq<Verb> := EFFECTFUL + READ_ONLY

  function FirstSpelt(verbs: seq<Verb>, w: string): Option<Verb> {
    if verbs == [] then None
    else if Spelling(verbs[0]) == w then Some(verbs[0])
    else FirstSpelt(verbs[1..], w)
  }

  /** Membership in the command table. */
  function VerbNamed(w: string): Option<Verb> {
    FirstSpelt(VERBS, w)
  }

  predicate IsAlias(low: string) {
    low == "scan" || low == "refresh"
  }

  function FlagNamed(low: string): Option<Flag> {
    if low == "unmute" || low == "--unmute" then Some(UnmuteFlag)
    else if low == "cost" || low == "--cost" then Some(CostFlag)
    else if low == "verbose" || low == "--verbose" || low == "-v" then Some(VerboseFlag)
    else if low == "deep" || low == "--deep" then Some(DeepFlag)
    else if low == "json" || low == "--json" then Some(JsonFlag)
    else None
  }

  /** A token the grammar takes for a modifier, in any letter case. */
  predicate FlagWord(t: string) {
    FlagNamed(Lower(t)).Some?
  }

  function Args(ts: seq<string>): seq<string> {
    if ts == [] then [] else (if FlagWord(ts[0]) then [] else [ts[0]]) + Args(ts[1..])
  }

  function Flags(ts: seq<string>): set<Flag> {
    if ts == [] then {}
    else (if FlagWord(ts[0]) then {FlagNamed(Lower(ts[0])).value} else {}) + Flags(ts[1..])
  }

  /** How a verb reads what follows it. */
  datatype Kind =
    | Question                              // everything, verbatim
    | Pairs                                 // a name, then pairs, verbatim
    | Two                                   // first and last plain token, both needed
    | One                                   // first plain token, needed
    | Filter                                // every plain token
    | Bare(argument: bool, second: bool)    // optional tokens, or none

  function KindOf(v: Verb): Kind {
    match v
    case Ask => Question
    case Dispatch => Pairs
    case Request => Pairs
    case Send => Two
    case Run => Two
    case Snooze => Two
    case Probe => One
    case Mute => One
    case Unmute => One
    case Show => One
    case Fix => One
    case Vouch => One
    case Findings => Filter
    case Approve => Bare(true, true)
    case Decline => Bare(true, false)
    case Cost => Bare(true, false)
    case Runs => Bare(true, false)
    case _ => Bare(false, false)
  }

  /** The command a verb makes of the tokens after it, or None when what it needs is missing. */
  function Reading(v: Verb, alias: bool, rest: seq<string>, actor: string): Option<Command> {
    var args, flags := Args(rest), Flags(rest);
    match KindOf(v)
    case Question => if rest == [] then None else Some(Command(v, actor, Join(rest), "", {}))
    case Pairs => if rest == [] then None else Some(Command(v, actor, rest[0], Join(rest[1..]), {}))
    case Two => if |args| < 2 then None else Some(Command(v, actor, args[0], args[|args| - 1], flags))
    case One =>
      if args != [] then Some(Command(v, actor, args[0], "", flags))
      else if alias then Some(Command(v, actor, "all", "", flags))
      else None
    case Filter => Some(Command(v, actor, Join(args), "", flags))
    case Bare(argument, second) =>
      Some(Command(v, actor, if argument && args != [] then args[0] else "",
                   if second && |args| >= 2 then args[1] else "", flags))
  }

  function VerbOf(token: string): Option<Verb> {
    var low := Lower(token);
    if IsAlias(low) then Some(Probe) else VerbNamed(low)
  }

  function ReadingAt(token: string, rest: seq<string>, actor: string): Option<Command> {
    match VerbOf(token)
    case None => None
    case Some(v) => Reading(v, IsAlias(Lower(token)), rest, actor)
  }

  /** The first verb that can be read wins. */
  function Scan(toks: seq<string>, actor: string): Option<Command> {
    if toks == [] then None
    else
      var found := ReadingAt(toks[0], toks[1..], actor);
      if found.Some? then found else Scan(toks[1..], actor)
  }

  method CommandFromText(text: string, actor: string) returns (command: Option<Command>)
    ensures command == Scan(Split(text), actor)
  {
    hide ReadingAt;
    var tokens := Split(text);
    for index := 0 to |tokens|
      invariant Scan(tokens, actor) == Scan(tokens[index..], actor)
    {
      assert tokens[index..][1..] == tokens[index + 1..];
      var found := ReadingAt(tokens[index], tokens[index + 1..], actor);
      if found.Some? {
        return found;
      }
    }
    assert tokens[|tokens|..] == [];
    return None;
  }

  // -- The echoed line ---------------------------------------------------------------------------------

  predicate Effectful(v: Verb) {
    || v.Approve? || v.Decline? || v.Fix? || v.Run? || v.Mute? || v.Unmute? || v.Snooze? || v.Send? || v.Vouch?
    || v.Dispatch? || v.Request? || v.AddCheck? || v.AddSolution?
  }

  lemma EffectfulListed(v: Verb)
    ensures v in EFFECTFUL <==> Effectful(v)
  {
  }

  /** The canonical line: the non-empty parts, separated by single spaces. */
  function Canonical(v: Verb, a: string, b: string): string {
    Join([Spelling(v)] + (if a != "" then [a] else []) + (if b != "" then [b] else []))
  }

  predicate PlainWord(t: string) {
    Token(t) && !FlagWord(t)
  }

  /** Single-spaced: splitting and joining gives the text back. */
  predicate Spaced(t: string) {
    Join(Split(t)) == t
  }

  predicate NoFlags(ts: seq<string>) {
    forall i :: 0 <= i < |ts| ==> !FlagWord(ts[i])
  }

  /** The arguments a verb's line carries without loss. */
  predicate Fits(v: Verb, a: string, b: string) {
    match KindOf(v)
    case Question => a != "" && Spaced(a) && b == ""
    case Pairs => Token(a) && Spaced(b)
    case Two => PlainWord(a) && PlainWord(b)
    case One => PlainWord(a) && b == ""
    case Filter => Spaced(a) && NoFlags(Split(a)) && b == ""
    case Bare(argument, second) =>
      || (a == "" && b == "")
      || (argument && PlainWord(a) && (b == "" || (second && PlainWord(b))))
  }

  lemma EmptySplits()
    ensures Split("") == []
  {
  }

  lemma {:induction false} CanonicalSplits(v: Verb, a: string, b: string)
    requires Token(Spelling(v))
    ensures Split(Canonical(v, a, b)) == [Spelling(v)] + (Split(a) + Split(b))
  {
    hide Spelling, Split;
    var w := Spelling(v);
    TokenSplits(w);
    EmptySplits();
    var parts := [w] + (if a != "" then [a] else []) + (if b != "" then [b] else []);
    if a == "" && b == "" {
      assert parts == [w] && Join(parts) == w;
    } else if b == "" {
      assert parts == [w, a] && Join(parts) == w + " " + Join([a]);
      SplitSpace(w, a);
    } else if a == "" {
      assert parts == [w, b] && Join(parts) == w + " " + Join([b]);
      SplitSpace(w, b);
    } else {
      assert parts == [w, a, b] && parts[1..] == [a, b] && [a, b][1..] == [b];
      assert Join(parts) == w + " " + (a + " " + b);
      SplitSpace(w, a + " " + b);
      SplitSpace(a, b);
    }
  }

  // -- Flags and plain tokens ------------------------------------------------------------------------------

  lemma {:induction false} ArgsPlain(ts: seq<string>)
    ensures NoFlags(ts) <==> Flags(ts) == {}
    ensures NoFlags(ts) ==> Args(ts) == ts
    ensures |Args(ts)| <= |ts|
    decreases |ts|
  {
    hide FlagWord, FlagNamed;
    if ts != [] {
      ArgsPlain(ts[1..]);
      assert forall i :: 0 < i < |ts| ==> ts[i] == ts[1..][i - 1];
      assert forall i :: 0 <= i < |ts[1..]| ==> ts[1..][i] == ts[i + 1];
    }
  }

  /** A command that needs plain tokens is not found where there are too few. */
  lemma {:induction false} TooFewArgs(toks: seq<string>, actor: string)
    ensures Scan(toks, actor).Some? ==>
              var c := Scan(toks, actor).value;
              (KindOf(c.verb).Two? ==> |Args(toks)| >= 2) && (KindOf(c.verb).One? && !c.verb.Probe? ==> |Args(toks)| >= 1)
    decreases |toks|
  {
    hide VerbNamed, IsAlias, FlagWord;
    if toks != [] {
      TooFewArgs(toks[1..], actor);
    }
  }

  // -- The vocabulary -----------------------------------------------------------------------------------------

  /** Small letters, never whitespace: what every verb is spelt in. */
  predicate SmallWord(w: string) {
    w != "" && forall i :: 0 <= i < |w| ==> 'a' <= w[i] <= 'z' || w[i] == '-'
  }

  lemma SmallStays(w: string)
    requires SmallWord(w)
    ensures Lower(w) == w && Token(w)
  {
  }

  lemma EffectfulSmall(v: Verb)
    requires Effectful(v)
    ensures SmallWord(Spelling(v))
  {
  }

  lemma EffectfulNotAlias(v: Verb)
    requires Effectful(v)
    ensures !IsAlias(Spelling(v))
  {
    var w := Spelling(v);
    assert w[1] == w[1] && |w| >= 3;
    assert "scan"[1] == 'c' && "refresh"[2] == 'f';
  }

  lemma EffectfulDistinct(a: Verb, b: Verb)
    requires Effectful(a) && Effectful(b) && Spelling(a) == Spelling(b)
    ensures a == b
  {
    var x, y := Spelling(a), Spelling(b);
    assert |x| == |y| && x[0] == y[0] && x[1] == y[1] && x[2] == y[2];
  }

  lemma {:induction false} EffectfulFound(verbs: seq<Verb>, others: seq<Verb>, v: Verb)
    requires v in verbs && forall i :: 0 <= i < |verbs| ==> Effectful(verbs[i])
    ensures FirstSpelt(verbs + others, Spelling(v)) == Some(v)
    decreases |verbs|
  {
    hide Spelling, Effectful;
    var all := verbs + others;
    assert all[0] == verbs[0] && all[1..] == verbs[1..] + others;
    var j :| 0 <= j < |verbs| && verbs[j] == v;
    if Spelling(verbs[0]) == Spelling(v) {
      EffectfulDistinct(verbs[0], v);
    } else {
      assert verbs[1..][j - 1] == v;
      EffectfulFound(verbs[1..], others, v);
    }
  }

  lemma InList(verbs: seq<Verb>, i: nat)
    requires i < |verbs|
    ensures verbs[i] in verbs
  {
  }

  lemma EffectfulRead(v: Verb)
    requires Effectful(v)
    ensures Token(Spelling(v)) && VerbOf(Spelling(v)) == Some(v) && !IsAlias(Lower(Spelling(v)))
  {
    hide Spelling, FirstSpelt, IsAlias, Effectful;
    EffectfulSmall(v);
    SmallStays(Spelling(v));
    EffectfulNotAlias(v);
    EffectfulListed(v);
    forall i | 0 <= i < |EFFECTFUL| ensures Effectful(EFFECTFUL[i]) { InList(EFFECTFUL, i); EffectfulListed(EFFECTFUL[i]); }
    EffectfulFound(EFFECTFUL, READ_ONLY, v);
  }

  // -- The round trip -------------------------------------------------------------------------------------------

  lemma {:induction false} RestOf(a: string, b: string)
    ensures Token(a) ==> Split(a) + Split(b) == [a] + Split(b)
    ensures var rest := Split(a) + Split(b); rest != [] && rest[0] == a ==> Token(a)
    ensures b == "" ==> Split(a) + Split(b) == Split(a)
    ensures a == "" ==> Split(a) + Split(b) == Split(b)
  {
    hide Split;
    TokenSplits(a);
    EmptySplits();
  }

  lemma {:induction false} PairsExact(v: Verb, a: string, b: string, actor: string)
    requires KindOf(v).Pairs?
    ensures Reading(v, false, Split(a) + Split(b), actor) == Some(Command(v, actor, a, b, {})) <==> Fits(v, a, b)
  {
    hide Split, Join;
    RestOf(a, b);
    assert Token(a) ==> ([a] + Split(b))[1..] == Split(b);
  }

  lemma {:induction false} PlainRest(a: string, b: string)
    requires Token(a) && Token(b)
    ensures Split(a) + Split(b) == [a, b]
    ensures NoFlags([a, b]) <==> !FlagWord(a) && !FlagWord(b)
    ensures NoFlags([a]) <==> !FlagWord(a)
  {
    hide Split, FlagWord;
    TokenSplits(a);
    TokenSplits(b);
    assert [a, b][0] == a && [a, b][1] == b;
    assert [a][0] == a;
  }

  lemma {:induction false} TwoExact(v: Verb, a: string, b: string, actor: string)
    requires KindOf(v).Two?
    ensures Reading(v, false, Split(a) + Split(b), actor) == Some(Command(v, actor, a, b, {})) <==> Fits(v, a, b)
  {
    hide Split, FlagWord, Args, Flags;
    var rest := Split(a) + Split(b);
    ArgsPlain(rest);
    RestOf(a, b);
    if Reading(v, false, rest, actor) == Some(Command(v, actor, a, b, {})) {
      assert rest[|rest| - 1] == b;
      assert Token(b);
      PlainRest(a, b);
    }
    if Fits(v, a, b) { PlainRest(a, b); }
  }

  lemma {:induction false} OneExact(v: Verb, a: string, b: string, actor: string)
    requires KindOf(v).One?
    ensures Reading(v, false, Split(a) + Split(b), actor) == Some(Command(v, actor, a, b, {})) <==> Fits(v, a, b)
  {
    hide Split, FlagWord, Args, Flags;
    var rest := Split(a) + Split(b);
    ArgsPlain(rest);
    RestOf(a, b);
    EmptySplits();
    if Token(a) {
      PlainRest(a, a);
      assert [a] + Split("") == [a];
    }
  }

  lemma {:induction false} BareExact(v: Verb, a: string, b: string, actor: string)
    requires KindOf(v).Bare?
    ensures Reading(v, false, Split(a) + Split(b), actor) == Some(Command(v, actor, a, b, {})) <==> Fits(v, a, b)
  {
    hide Split, FlagWord, Args, Flags;
    var rest := Split(a) + Split(b);
    ArgsPlain(rest);
    RestOf(a, b);
    EmptySplits();
    if Token(a) {
      PlainRest(a, a);
      assert [a] + Split("") == [a];
      if Token(b) { PlainRest(a, b); }
    }
  }

  /** The echo round trip, for every effectful verb and all texts: the line echoed for
      confirmation parses back to the same verb and arguments, with no flags, exactly when the
      arguments fit the verb: plain words where tokens are read, single-spaced text where the
      rest is taken verbatim (flag words included). */
  lemma {:induction false} EchoExact(v: Verb, a: string, b: string, actor: string)
    requires Effectful(v)
    ensures Scan(Split(Canonical(v, a, b)), actor) == Some(Command(v, actor, a, b, {})) <==> Fits(v, a, b)
  {
    hide Spelling, Split, Canonical, VerbOf, Args, Flags, FlagWord, IsAlias;
    EffectfulRead(v);
    CanonicalSplits(v, a, b);
    var rest := Split(a) + Split(b);
    var toks := [Spelling(v)] + rest;
    assert toks[0] == Spelling(v) && toks[1..] == rest;
    var found := Reading(v, false, rest, actor);
    assert ReadingAt(toks[0], rest, actor) == found;
    EchoRead(v, a, b, actor);
    if found.None? {
      TooFewArgs(rest, actor);
      assert rest == [] ==> Scan(rest, actor) == None;
    }
  }

  lemma {:induction false} EchoRead(v: Verb, a: string, b: string, actor: string)
    requires Effectful(v)
    ensures Reading(v, false, Split(a) + Split(b), actor) == Some(Command(v, actor, a, b, {})) <==> Fits(v, a, b)
  {
    hide Reading, Fits, Split;
    match KindOf(v)
    case Pairs => PairsExact(v, a, b, actor);
    case Two => TwoExact(v, a, b, actor);
    case One => OneExact(v, a, b, actor);
    case Bare(_, _) => BareExact(v, a, b, actor);
  }
}
