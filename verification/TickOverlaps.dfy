/** Hold ticks that overlap. */
module TickOverlaps {
  // Each reads the findings, then the log, decides once, and then works through its decisions
  // while the others do the same.

  import opened Text
  import opened Findings
  import opened Reports
  import opened Reflexes
  import opened Hold
  import opened Churn
  import opened Offers
  import P = PendingActions

  // -- The machine -------------------------------------------------------------------------------

  datatype Ticker =
    | Arrives(report: seq<Body>)
    | Looked(report: seq<Body>, findings: Table, known: set<Fingerprint>)  // `known` had been fixed when it looked
    | Acts(acts: seq<Decision>)                                            // still to be carried out
    | Died                                                                 // a runner raised

  /** The log, what the reflex of one category has fixed so far, and the ticks. */
  datatype System = System(log: seq<P.Audit>, fixed: set<Fingerprint>, ticks: seq<Ticker>)

  datatype Move =
    | Arrive(report: seq<Body>)
    | Look(index: nat, findings: Table)
    | Decide(index: nat, recurrence: map<string, nat>)
    | Carry(index: nat, entry: Option<P.Audit>)      // an approval may log one row, of its fingerprint
    | Raise(index: nat)
    | Elsewhere(row: P.Audit)

  ghost predicate Enabled(s: System, m: Move, u: Setup) {
    match m
    case Arrive(_) => true
    case Look(i, _) => i < |s.ticks| && s.ticks[i].Arrives?
    case Decide(i, recurrence) =>
      i < |s.ticks| && s.ticks[i].Looked? && Reckons(recurrence, s.ticks[i].findings, P.ActedFingerprints(s.log), u.active)
    case Carry(i, entry) =>
      i < |s.ticks| && s.ticks[i].Acts? && s.ticks[i].acts != []
      && (entry.Some? ==> entry.value.fingerprint == s.ticks[i].acts[0].fp)
    case Raise(i) => i < |s.ticks| && s.ticks[i].Acts?
    case Elsewhere(_) => true
  }

  /** What the carrying out of one decision fixes. */
  function FixedBy(d: Decision, entry: Option<P.Audit>, category: string): set<Fingerprint> {
    if entry.Some? && P.TookEffect(entry.value) && d.category == category then {d.fp} else {}
  }

  function Logged(log: seq<P.Audit>, entry: Option<P.Audit>): seq<P.Audit> {
    if entry.Some? then log + [entry.value] else log
  }

  ghost function Step(s: System, m: Move, u: Setup, category: string): System
    requires Enabled(s, m, u)
  {
    match m
    case Arrive(report) => s.(ticks := s.ticks + [Arrives(report)])
    case Look(i, findings) => s.(ticks := s.ticks[i := Looked(s.ticks[i].report, findings, s.fixed)])
    case Decide(i, recurrence) =>
      s.(ticks := s.ticks[i := Acts(ToAct(Plan(Actionable(s.ticks[i].report, u.wide), u.active, recurrence, u.policy, u.sizeOf)))])
    case Carry(i, entry) =>
      var d, rest := s.ticks[i].acts[0], s.ticks[i].acts[1..];
      System(Logged(s.log, entry), s.fixed + FixedBy(d, entry, category), s.ticks[i := Acts(rest)])
    case Raise(i) => s.(ticks := s.ticks[i := Died])
    case Elsewhere(entry) => s.(log := s.log + [entry])
  }

  ghost predicate Runs(s: System, moves: seq<Move>, u: Setup, category: string)
    decreases |moves|
  {
    |moves| == 0 || (Enabled(s, moves[0], u) && Runs(Step(s, moves[0], u, category), moves[1..], u, category))
  }

  ghost function Exec(s: System, moves: seq<Move>, u: Setup, category: string): System
    requires Runs(s, moves, u, category)
    decreases |moves|
  {
    if |moves| == 0 then s else Exec(Step(s, moves[0], u, category), moves[1..], u, category)
  }

  /** Between its look at the findings and its last decision. */
  predicate InFlight(t: Ticker) {
    t.Looked? || (t.Acts? && t.acts != [])
  }

  /** At most `n` ticks are ever in flight at once, and no fix holds: whenever a tick looks,
      everything fixed so far is open again. */
  ghost predicate Churning(s: System, moves: seq<Move>, u: Setup, category: string, n: nat)
    requires Runs(s, moves, u, category)
    decreases |moves|
  {
    && Count(s.ticks, InFlight) <= n
    && (|moves| != 0 ==>
          (moves[0].Look? ==> OpenAgain(moves[0].findings, s.fixed, category))
          && Churning(Step(s, moves[0], u, category), moves[1..], u, category, n))
  }

  predicate Fresh(s: System) {
    s == System([], {}, [])
  }

  // -- What ticks in flight may still fix --------------------------------------------------------------

  function Mine(acts: seq<Decision>, category: string): nat {
    Count(acts, (d: Decision) => d.category == category)
  }

  function Weight(t: Ticker, r: Reflex): nat {
    match t
    case Looked(_, _, known) => if |known| < r.distrustAfter then r.maxPerTick else 0
    case Acts(acts) => Mine(acts, r.category)
    case _ => 0
  }

  function Total(ts: seq<Ticker>, r: Reflex): nat {
    if ts == [] then 0 else Weight(ts[0], r) + Total(ts[1..], r)
  }

  lemma {:induction false} TotalConcat(a: seq<Ticker>, b: seq<Ticker>, r: Reflex)
    ensures Total(a + b, r) == Total(a, r) + Total(b, r)
  {
    hide Weight;
    if a == [] {
      assert a + b == b;
    } else {
      assert (a + b)[1..] == a[1..] + b;
      TotalConcat(a[1..], b, r);
    }
  }

  lemma {:induction false} TotalOne(t: Ticker, r: Reflex)
    ensures Total([t], r) == Weight(t, r)
  {
    assert [t][1..] == [];
  }

  lemma TotalUpdate(ts: seq<Ticker>, i: nat, t: Ticker, r: Reflex)
    requires i < |ts|
    ensures Total(ts[i := t], r) + Weight(ts[i], r) == Total(ts, r) + Weight(t, r)
  {
    hide Weight;
    assert ts == ts[..i] + ([ts[i]] + ts[i + 1..]);
    assert ts[i := t] == ts[..i] + ([t] + ts[i + 1..]);
    TotalConcat(ts[..i], [ts[i]] + ts[i + 1..], r);
    TotalConcat(ts[..i], [t] + ts[i + 1..], r);
    TotalConcat([ts[i]], ts[i + 1..], r);
    TotalConcat([t], ts[i + 1..], r);
    TotalOne(ts[i], r);
    TotalOne(t, r);
  }

  /** A tick holds at most one tick's budget, and none when it is not in flight. */
  predicate Budgeted(t: Ticker, r: Reflex) {
    Weight(t, r) <= if InFlight(t) then r.maxPerTick else 0
  }

  lemma {:induction false} TotalBudgeted(ts: seq<Ticker>, r: Reflex)
    requires forall i :: 0 <= i < |ts| ==> Budgeted(ts[i], r)
    ensures Total(ts, r) <= r.maxPerTick * Count(ts, InFlight)
  {
    hide Weight, InFlight;
    if ts != [] {
      assert forall i :: 0 <= i < |ts[1..]| ==> ts[1..][i] == ts[i + 1];
      TotalBudgeted(ts[1..], r);
      assert Budgeted(ts[0], r);
      OneMoreTimes(r.maxPerTick, Count(ts[1..], InFlight));
    }
  }

  lemma OneMoreTimes(m: nat, n: nat)
    ensures m * (n + 1) == m * n + m
  {
  }

  lemma TimesMonotone(m: nat, a: nat, b: nat)
    requires a <= b
    ensures m * a <= m * b
  {
  }

  lemma {:induction false} MineIsActedOn(ss: seq<Symptom>, ds: seq<Decision>, category: string)
    requires |ss| == |ds| && forall i :: 0 <= i < |ss| ==> ds[i].category == ss[i].category
    ensures Mine(ToAct(ds), category) == |ActedOn(ss, ds, category)|
    decreases |ss|
  {
    if ss != [] {
      var n := |ss| - 1;
      MineIsActedOn(ss[..n], ds[..n], category);
      CountPush(ToAct(ds[..n]), ds[n], (d: Decision) => d.category == category);
      assert ToAct(ds[..n]) + [] == ToAct(ds[..n]);
    }
  }

  // -- The invariant -------------------------------------------------------------------------------------

  predicate SoundTick(t: Ticker, acted: set<Fingerprint>, r: Reflex) {
    && Budgeted(t, r)
    && (t.Looked? ==> OpenAgain(t.findings, t.known, r.category) && t.known <= acted)
  }

  predicate Sound(s: System, r: Reflex) {
    var acted := P.ActedFingerprints(s.log);
    s.fixed <= acted && forall i :: 0 <= i < |s.ticks| ==> SoundTick(s.ticks[i], acted, r)
  }

  /** What has been fixed and what may still be, before any later look. */
  function Potential(s: System, r: Reflex): nat {
    |s.fixed| + Total(s.ticks, r)
  }

  function Bound(r: Reflex, n: nat): nat {
    if r.distrustAfter == 0 then 0 else r.distrustAfter - 1 + r.maxPerTick * n
  }

  /** A tick that finds at least `distrust_after` fixes open again decides nothing; and at any time it
      decides within its budget. */
  lemma DecideWithinWeight(s: System, i: nat, recurrence: map<string, nat>, u: Setup, r: Reflex)
    requires Sound(s, r) && Enabled(s, Decide(i, recurrence), u) && Blamed(u, r)
    ensures Weight(Step(s, Decide(i, recurrence), u, r.category).ticks[i], r) <= Weight(s.ticks[i], r)
  {
    hide Actionable, P.ActedFingerprints, OpenAgain, LastFor, FirstFor, Recurring, Blamed;
    BlamedPlans(u, r);
    var t := s.ticks[i];
    var all := Actionable(t.report, u.wide);
    var ds := Plan(all, u.active, recurrence, u.policy, u.sizeOf);
    hide ToAct, ActedOn, Mine, Budgeted;
    assert SoundTick(t, P.ActedFingerprints(s.log), r);
    MineIsActedOn(all, ds, r.category);
    TickWithinBudget(all, u.active, recurrence, u.policy, u.sizeOf, r);
    if ActedOn(all, ds, r.category) != [] { KnownRecurs(t, P.ActedFingerprints(s.log), u, r); }
  }

  lemma KnownRecurs(t: Ticker, acted: set<Fingerprint>, u: Setup, r: Reflex)
    requires t.Looked? && SoundTick(t, acted, r) && Blamed(u, r)
    ensures |t.known| <= |Recurring(t.findings, acted, u.active, r.name)|
  {
    hide OpenAgain, Recurring, Budgeted;
    FixedRecurs(t.findings, acted, u.active, r, t.known);
  }

  lemma CarryWithinWeight(s: System, i: nat, entry: Option<P.Audit>, u: Setup, r: Reflex)
    requires Enabled(s, Carry(i, entry), u)
    ensures var next := Step(s, Carry(i, entry), u, r.category);
            |next.fixed| + Weight(next.ticks[i], r) <= |s.fixed| + Weight(s.ticks[i], r)
  {
    var acts := s.ticks[i].acts;
    assert Mine(acts, r.category) == (if acts[0].category == r.category then 1 else 0) + Mine(acts[1..], r.category);
    UnionSize(s.fixed, FixedBy(acts[0], entry, r.category));
  }

  lemma LogGrows(log: seq<P.Audit>, entry: Option<P.Audit>)
    ensures P.ActedFingerprints(log) <= P.ActedFingerprints(Logged(log, entry))
    ensures entry.Some? && P.TookEffect(entry.value) ==> entry.value.fingerprint in P.ActedFingerprints(Logged(log, entry))
  {
    ActedGrows(log, Logged(log, entry));
    if entry.Some? { assert Logged(log, entry)[|log|] == entry.value; }
  }

  lemma StepLog(s: System, m: Move, u: Setup, r: Reflex)
    requires Enabled(s, m, u) && s.fixed <= P.ActedFingerprints(s.log)
    ensures var next := Step(s, m, u, r.category);
            P.ActedFingerprints(s.log) <= P.ActedFingerprints(next.log) && next.fixed <= P.ActedFingerprints(next.log)
  {
    hide P.ActedFingerprints, Plan, ToAct, Actionable, Recurring;
    match m
    case Carry(i, entry) => LogGrows(s.log, entry);
    case Elsewhere(entry) => LogGrows(s.log, Some(entry));
    case _ =>
  }

  /** A step moves weight into what is fixed, or drops some; only a look adds any. */
  lemma StepPotential(s: System, m: Move, u: Setup, r: Reflex)
    requires Enabled(s, m, u) && Sound(s, r) && Blamed(u, r)
    ensures var next := Step(s, m, u, r.category);
            && (!m.Look? ==> Potential(next, r) <= Potential(s, r))
            && (m.Look? ==> Potential(next, r) == Potential(s, r) + Weight(next.ticks[m.index], r) && next.fixed == s.fixed)
  {
    var next := Step(s, m, u, r.category);
    match m
    case Arrive(report) =>
      TotalConcat(s.ticks, [Arrives(report)], r);
      TotalOne(Arrives(report), r);
    case Look(i, findings) => TotalUpdate(s.ticks, i, next.ticks[i], r);
    case Decide(i, recurrence) =>
      TotalUpdate(s.ticks, i, next.ticks[i], r);
      hide Step;
      DecideWithinWeight(s, i, recurrence, u, r);
    case Carry(i, entry) =>
      TotalUpdate(s.ticks, i, next.ticks[i], r);
      CarryWithinWeight(s, i, entry, u, r);
    case Raise(i) => TotalUpdate(s.ticks, i, Died, r);
    case Elsewhere(_) =>
  }

  lemma StepSound(s: System, m: Move, u: Setup, r: Reflex)
    requires Enabled(s, m, u) && Sound(s, r) && Blamed(u, r)
    requires m.Look? ==> OpenAgain(m.findings, s.fixed, r.category)
    ensures Sound(Step(s, m, u, r.category), r)
  {
    hide P.ActedFingerprints, OpenAgain, Plan, ToAct, Actionable, Recurring, Blamed;
    StepLog(s, m, u, r);
    var next := Step(s, m, u, r.category);
    match m
    case Decide(i, recurrence) =>
      DecideWithinWeight(s, i, recurrence, u, r);
      DecidedBudget(next.ticks[i], s.ticks[i], r);
    case Carry(i, entry) =>
      var acts := s.ticks[i].acts;
      assert Mine(acts, r.category) == (if acts[0].category == r.category then 1 else 0) + Mine(acts[1..], r.category);
    case _ =>
  }

  lemma DecidedBudget(after: Ticker, before: Ticker, r: Reflex)
    requires after.Acts? && before.Looked? && Weight(after, r) <= Weight(before, r)
    ensures Budgeted(after, r)
  {
  }

  /** A look adds a tick's budget only while fewer than `distrust_after` fixes are open again, so what
      may still be fixed stays within the budgets of the ticks in flight. */
  lemma LookPotential(s: System, m: Move, u: Setup, r: Reflex, n: nat)
    requires m.Look? && Enabled(s, m, u) && Sound(s, r) && Blamed(u, r) && Potential(s, r) <= Bound(r, n)
    requires OpenAgain(m.findings, s.fixed, r.category) && Count(Step(s, m, u, r.category).ticks, InFlight) <= n
    ensures Potential(Step(s, m, u, r.category), r) <= Bound(r, n)
  {
    hide OpenAgain, Total, SoundTick, Blamed, P.ActedFingerprints;
    var next := Step(s, m, u, r.category);
    StepPotential(s, m, u, r);
    if |s.fixed| < r.distrustAfter {
      StepSound(s, m, u, r);
      SoundBudgeted(next, r);
      TimesMonotone(r.maxPerTick, Count(next.ticks, InFlight), n);
    }
  }

  lemma {:induction false} SoundBudgeted(s: System, r: Reflex)
    requires Sound(s, r)
    ensures Total(s.ticks, r) <= r.maxPerTick * Count(s.ticks, InFlight)
  {
    hide P.ActedFingerprints, OpenAgain, Budgeted, Total;
    forall i | 0 <= i < |s.ticks| ensures Budgeted(s.ticks[i], r) {
      assert SoundTick(s.ticks[i], P.ActedFingerprints(s.log), r);
    }
    TotalBudgeted(s.ticks, r);
  }

  lemma {:induction false} PotentialBound(s: System, moves: seq<Move>, u: Setup, r: Reflex, n: nat)
    requires Runs(s, moves, u, r.category) && Churning(s, moves, u, r.category, n) && Blamed(u, r)
    requires Sound(s, r) && Potential(s, r) <= Bound(r, n)
    ensures |Exec(s, moves, u, r.category).fixed| <= Bound(r, n)
    decreases |moves|
  {
    hide Step, Enabled, Sound, Bound, Total, OpenAgain, Blamed;
    if |moves| != 0 {
      var next := Step(s, moves[0], u, r.category);
      StepSound(s, moves[0], u, r);
      if moves[0].Look? { LookPotential(s, moves[0], u, r, n); } else { StepPotential(s, moves[0], u, r); }
      PotentialBound(next, moves[1..], u, r, n);
    }
  }

  /** The churn bound when ticks overlap. Over every interleaving in which no fix holds and at most
      `n` ticks are ever in flight at once, the distinct findings the reflex has fixed never exceed
      `distrust_after - 1 + n * max_per_tick`. */
  lemma {:induction false} OverlapBound(s: System, moves: seq<Move>, u: Setup, r: Reflex, n: nat)
    requires Fresh(s) && Runs(s, moves, u, r.category) && Churning(s, moves, u, r.category, n) && Blamed(u, r)
    ensures |Exec(s, moves, u, r.category).fixed| <= if r.distrustAfter == 0 then 0 else r.distrustAfter - 1 + r.maxPerTick * n
  {
    hide Blamed;
    PotentialBound(s, moves, u, r, n);
  }

  // -- Overlapping ticks do fix that many ----------------------------------------------------------------------

  lemma {:induction false} Prepend(s: System, m: Move, moves: seq<Move>, u: Setup, category: string, n: nat)
    requires Enabled(s, m, u) && Runs(Step(s, m, u, category), moves, u, category)
    requires Churning(Step(s, m, u, category), moves, u, category, n) && |s.ticks| <= n
    requires m.Look? ==> OpenAgain(m.findings, s.fixed, category)
    ensures Runs(s, [m] + moves, u, category) && Churning(s, [m] + moves, u, category, n)
    ensures Exec(s, [m] + moves, u, category) == Exec(Step(s, m, u, category), moves, u, category)
  {
    assert ([m] + moves)[1..] == moves;
    CountAll(s.ticks, InFlight);
  }

  function Cleanup(i: nat, r: Reflex): Decision {
    Decision(Name(i), "", r.category, Act, Some(r.name), COMMAND)
  }

  /** `n` ticks that have decided on one symptom each, the first `j` of them done. */
  function Decided(j: nat, n: nat, r: Reflex): seq<Ticker> {
    seq(n, i requires 0 <= i < n => Acts(if i < j then [] else [Cleanup(i, r)]))
  }

  function Names(n: nat): set<Fingerprint> {
    set i | 0 <= i < n :: Name(i)
  }

  lemma {:induction false} NamesDistinct(n: nat)
    ensures |Names(n)| == n
  {
    if n > 0 {
      NamesDistinct(n - 1);
      assert forall fp :: fp in Names(n - 1) ==> |fp| < n - 1;
      assert |Name(n - 1)| == n - 1;
      assert Names(n) == Names(n - 1) + {Name(n - 1)};
    }
  }

  lemma {:induction false} CarryOn(s: System, j: nat, n: nat, u: Setup, r: Reflex) returns (moves: seq<Move>)
    requires j <= n && s.ticks == Decided(j, n, r) && s.fixed == Names(j)
    ensures Runs(s, moves, u, r.category) && Churning(s, moves, u, r.category, n)
    ensures Exec(s, moves, u, r.category).fixed == Names(n)
    decreases n - j
  {
    hide Name, COMMAND;
    if j == n {
      moves := [];
      CountAll(s.ticks, InFlight);
    } else {
      var d := Cleanup(j, r);
      assert s.ticks[j] == Acts([d]) && [d][1..] == [];
      var m := Carry(j, Some(P.Audit("", d.fp, CleanupOf(SymptomAt(j, r)), u.actor, P.ApprovedBy, P.Verified)));
      var next := Step(s, m, u, r.category);
      assert next.ticks == Decided(j + 1, n, r);
      assert next.fixed == Names(j + 1);
      var rest := CarryOn(next, j + 1, n, u, r);
      Prepend(s, m, rest, u, r.category, n);
      moves := [m] + rest;
    }
  }

  /** A tick that looks at an empty history decides on its symptom. */
  lemma DecidesOnOne(s: System, k: nat, u: Setup, r: Reflex)
    requires Willing(u, r) && s == System([], {}, Decided(0, k, r) + [Looked(ReportAt(k, r), map[], {})])
    ensures Enabled(s, Decide(k, map[]), u)
    ensures Step(s, Decide(k, map[]), u, r.category) == System([], {}, Decided(0, k + 1, r))
  {
    hide Actionable, Plan, ToAct, Willing, Name, COMMAND, ReportAt;
    forall name ensures |Recurring(map[], P.ActedFingerprints([]), u.active, name)| == 0 {
      assert Recurring(map[], P.ActedFingerprints([]), u.active, name) == {};
    }
    NextIsReal(k, u, r);
    PlanOfOne(SymptomAt(k, r), u, r, map[]);
    assert s.ticks[k := Acts([Cleanup(k, r)])] == Decided(0, k + 1, r);
  }

  lemma {:induction false} Gather(s: System, k: nat, n: nat, u: Setup, r: Reflex) returns (moves: seq<Move>)
    requires Willing(u, r) && k <= n && s == System([], {}, Decided(0, k, r))
    ensures Runs(s, moves, u, r.category) && Churning(s, moves, u, r.category, n)
    ensures Exec(s, moves, u, r.category).fixed == Names(n)
    decreases n - k
  {
    hide Willing, Decided, ReportAt, Plan, ToAct, Actionable;
    if k == n {
      assert Names(0) == {};
      moves := CarryOn(s, 0, n, u, r);
    } else {
      var arrive, look, decide := Arrive(ReportAt(k, r)), Look(k, map[]), Decide(k, map[]);
      assert |s.ticks| == k by { DecidedLength(0, k, r); }
      var s1 := Step(s, arrive, u, r.category);
      var s2 := Step(s1, look, u, r.category);
      assert s2.ticks == Decided(0, k, r) + [Looked(ReportAt(k, r), map[], {})];
      DecidesOnOne(s2, k, u, r);
      var s3 := Step(s2, decide, u, r.category);
      var rest := Gather(s3, k + 1, n, u, r);
      Prepend(s2, decide, rest, u, r.category, n);
      Prepend(s1, look, [decide] + rest, u, r.category, n);
      Prepend(s, arrive, [look] + ([decide] + rest), u, r.category, n);
      moves := [arrive] + ([look] + ([decide] + rest));
    }
  }

  lemma DecidedLength(j: nat, n: nat, r: Reflex)
    ensures |Decided(j, n, r)| == n
  {
  }

  /** Any number of ticks that all look before any of them logs fix one finding each, however small
      the trust budget. */
  lemma OverlapChurns(n: nat, u: Setup, r: Reflex) returns (moves: seq<Move>)
    requires Willing(u, r)
    ensures var empty := System([], {}, []);
            && Runs(empty, moves, u, r.category) && Churning(empty, moves, u, r.category, n)
            && |Exec(empty, moves, u, r.category).fixed| == n
  {
    hide Willing;
    assert Decided(0, 0, r) == [];
    moves := Gather(System([], {}, []), 0, n, u, r);
    NamesDistinct(n);
  }
}
