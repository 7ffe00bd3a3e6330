/** When the churn bound holds: exactly when the reflex that acts is the one that is blamed. */
module Churn {
  import opened Text
  import opened Bounds
  import opened Catalog
  import Compose
  import opened Execute
  import opened Findings
  import opened Reports
  import opened Reflexes
  import opened Approve
  import opened Hold
  import opened Offers
  import P = PendingActions
  import A = Approval

  // -- One more fix that does not hold -------------------------------------------------------------

  /** A name of the given length. */
  function Name(n: nat): (fp: Fingerprint)
    ensures |fp| == n
  {
    seq(n, _ => 'f')
  }

  /** A command the composer prints. */
  const FIELDS := Compose.Fields("", "", "n", "", "")
  const COMMAND := Compose.Compose(ReclaimEvicted, FIELDS).value

  function SymptomAt(n: nat, r: Reflex): Symptom {
    Symptom(Name(n), "", "", "", r.category, map[], Some(COMMAND))
  }

  function ReportAt(n: nat, r: Reflex): seq<Body> {
    [Body(AlertLayer, "", "", "", [], [], [SymptomAt(n, r)])]
  }

  /** The finding of a fix that did not hold, or of the new symptom. */
  function Again(r: Reflex): Finding {
    Finding(0, 0, "", "", Open, None, None, None, map[CATEGORY := r.category])
  }

  /** The cleanup succeeds. */
  function Obliging(u: Setup): A.World {
    A.World(u.wide, {}, true, true, true, true, false)
  }

  function Blame(u: Setup, r: Reflex): string {
    var first := FirstFor(u.active, r.category);
    if first.Some? then first.value.name else ""
  }

  /** The store a tick of an uninterrupted run begins with: what the tick before it left. */
  function LeftBy(ticks: seq<Tick>, u: Setup): P.Db {
    if ticks == [] then P.Db(map[], []) else After(ticks[|ticks| - 1], u)
  }

  /** The next tick of a run: everything fixed is open again, and the cleanup of a new symptom has
      been recorded. */
  ghost function NextTick(ticks: seq<Tick>, u: Setup, r: Reflex): Tick {
    var n := |ticks|;
    var t := map fp | fp in Fixed(ticks, u, r.category) + {Name(n)} :: Again(r);
    var db := OfferCleanups(LeftBy(ticks, u), [SymptomAt(n, r)], "");
    var blamed := Recurring(t, P.ActedFingerprints(db.audit), u.active, Blame(u, r));
    Tick(t, db, ReportAt(n, r), map[Blame(u, r) := |blamed|], "", _ => Obliging(u))
  }

  /** A reflex that may act on the symptoms of these runs. */
  ghost predicate Willing(u: Setup, r: Reflex) {
    && LastFor(u.active, r.category) == Some(r) && r.autonomy.Auto? && WithinBounds(r.envelope, u.policy)
    && r.maxPerTick >= 1 && r.distrustAfter >= 1
    && forall s: Symptom :: s.evidence == map[] ==> u.sizeOf(s) <= r.maxPerAction
  }

  lemma {:induction false} FirstIfLast(active: seq<Reflex>, category: string)
    requires LastFor(active, category).Some?
    ensures FirstFor(active, category).Some?
    decreases |active|
  {
    if active[0].category != category {
      LastOfRest(active, category);
      FirstIfLast(active[1..], category);
    }
  }

  lemma {:induction false} LastOfRest(active: seq<Reflex>, category: string)
    requires active != [] && active[0].category != category
    ensures LastFor(active[1..], category) == LastFor(active, category)
    decreases |active|
  {
    var n := |active| - 1;
    if n > 0 && active[n].category != category {
      assert active[1..][..n - 1] == active[..n][1..];
      LastOfRest(active[..n], category);
    }
  }

  lemma OnlyFirstIsBlamed(t: Table, acted: set<Fingerprint>, u: Setup, r: Reflex, name: string)
    requires forall fp :: fp in t ==> t[fp] == Again(r)
    requires name != Blame(u, r) || r.category == ""
    ensures Recurring(t, acted, u.active, name) == {}
  {
  }

  lemma NextReckons(ticks: seq<Tick>, u: Setup, r: Reflex)
    ensures var k := NextTick(ticks, u, r);
            Reckons(k.recurrence, k.findings, P.ActedFingerprints(k.before.audit), u.active)
    ensures !Blamed(u, r) && LastFor(u.active, r.category) == Some(r) ==> At(NextTick(ticks, u, r).recurrence, r.name) == 0
  {
    hide Fixed, LeftBy, OfferCleanups, Recurring, P.ActedFingerprints, FirstFor, LastFor, Again;
    var k := NextTick(ticks, u, r);
    var acted := P.ActedFingerprints(k.before.audit);
    forall name ensures At(k.recurrence, name) == |Recurring(k.findings, acted, u.active, name)| {
      if name != Blame(u, r) { OnlyFirstIsBlamed(k.findings, acted, u, r, name); }
    }
    if !Blamed(u, r) && LastFor(u.active, r.category) == Some(r) {
      FirstIfLast(u.active, r.category);
      OnlyFirstIsBlamed(k.findings, acted, u, r, r.name);
    }
  }

  lemma CommandVetted(wide: WideClass)
    ensures COMMAND != "" && Validates(ReclaimEvicted, wide, COMMAND)
  {
    Compose.PrintedAccepted(ReclaimEvicted, wide, FIELDS);
  }

  lemma OneActionable(b: Body, s: Symptom, wide: WideClass)
    requires b.layer.AlertLayer? && b.symptoms == [s]
    requires s.recommended.Some? && s.recommended.value != "" && Validates(ReclaimEvicted, wide, s.recommended.value)
    ensures Actionable([b], wide) == [s]
  {
    hide Validates;
    assert [s][..0] == [] && ActionableOf([s][..0], wide) == [];
    assert ActionableOf([s], wide) == [] + [s];
    assert [b][..0] == [] && Actionable([b][..0], wide) == [];
  }

  lemma CleanupSucceeds(s: Symptom, u: Setup)
    requires s.recommended.Some? && Validates(ReclaimEvicted, u.wide, s.recommended.value)
    ensures A.RunOutcome(CleanupOf(s), Obliging(u)) == Some(P.Verified)
  {
    hide Validates, CleanupAttempt;
    CleanupStartsVetted(u.wide, s.recommended.value);
  }

  /** The symptom is one the plan keeps, and its row is the one a scan records for it. */
  lemma NextIsReal(n: nat, u: Setup, r: Reflex)
    ensures Actionable(ReportAt(n, r), u.wide) == [SymptomAt(n, r)]
    ensures A.RunOutcome(CleanupOf(SymptomAt(n, r)), Obliging(u)) == Some(P.Verified)
  {
    hide Validates, Actionable, A.RunOutcome, CleanupOf, Name, COMMAND, Obliging;
    CommandVetted(u.wide);
    CleanupSucceeds(SymptomAt(n, r), u);
    OneActionable(ReportAt(n, r)[0], SymptomAt(n, r), u.wide);
  }

  /** The names of the rows are those of the ticks so far. */
  ghost predicate RowsBelow(ticks: seq<Tick>, u: Setup) {
    forall fp :: fp in LeftBy(ticks, u).pending ==> |fp| < |ticks|
  }

  lemma {:induction false} NextStart(ticks: seq<Tick>, u: Setup, r: Reflex)
    requires RowsBelow(ticks, u)
    ensures var k, n, left := NextTick(ticks, u, r), |ticks|, LeftBy(ticks, u);
            && k.before == left.(pending := left.pending[Name(n) := P.Row(CleanupOf(SymptomAt(n, r)), P.Pending, "", None)])
            && k.now == "" && k.ws(0) == Obliging(u) && k.report == ReportAt(n, r) && KnowsClasses(k, u)
            && k.findings.Keys >= Fixed(ticks, u, r.category) && forall fp :: fp in k.findings ==> k.findings[fp] == Again(r)
  {
    hide Fixed, LeftBy, Recurring, Again, CleanupOf;
    var s := SymptomAt(|ticks|, r);
    assert [s][..0] == [];
    assert OfferCleanups(LeftBy(ticks, u), [s][..0], "") == LeftBy(ticks, u);
    assert Name(|ticks|) !in LeftBy(ticks, u).pending;
  }

  /** A trusted, willing reflex acts on the only symptom of its category. */
  lemma PlanOfOne(s: Symptom, u: Setup, r: Reflex, recurrence: map<string, nat>)
    requires Willing(u, r) && At(recurrence, r.name) == 0 && s.category == r.category && s.evidence == map[]
    requires s.recommended.Some?
    ensures var d := Decision(s.fp, s.identity, r.category, Act, Some(r.name), s.recommended.value);
            Plan([s], u.active, recurrence, u.policy, u.sizeOf) == [d] && ToAct([d]) == [d]
  {
    hide LastFor, WithinBounds;
    assert [s][..0] == [] && Seen([s], r.category) == 1;
    assert u.sizeOf(s) <= r.maxPerAction;
    var d := Decision(s.fp, s.identity, r.category, Act, Some(r.name), s.recommended.value);
    assert [d][..0] == [] && ToAct([d][..0]) == [];
  }

  lemma NextPlan(ticks: seq<Tick>, u: Setup, r: Reflex)
    requires Willing(u, r) && !Blamed(u, r)
    ensures var d := Decision(Name(|ticks|), "", r.category, Act, Some(r.name), COMMAND);
            PlanOf(NextTick(ticks, u, r), u) == [d] && ToAct([d]) == [d]
  {
    hide Fixed, LeftBy, Recurring, LastFor, Name, Actionable, OfferCleanups, Plan, ToAct, Blamed;
    var k := NextTick(ticks, u, r);
    assert k.report == ReportAt(|ticks|, r);
    hide NextTick, ReportAt;
    NextReckons(ticks, u, r);
    NextIsReal(|ticks|, u, r);
    WillingPlans(u, r);
    PlanOfOne(SymptomAt(|ticks|, r), u, r, k.recurrence);
  }

  lemma WillingPlans(u: Setup, r: Reflex)
    requires Willing(u, r)
    ensures LastFor(u.active, r.category) == Some(r)
  {
  }

  lemma NextFixes(ticks: seq<Tick>, u: Setup, r: Reflex)
    requires Willing(u, r) && !Blamed(u, r) && RowsBelow(ticks, u)
    ensures FixedNow(NextTick(ticks, u, r), u, r.category) == {Name(|ticks|)}
    ensures RowsBelow(ticks + [NextTick(ticks, u, r)], u)
  {
    hide Fixed, Recurring, LastFor, WithinBounds, Name, RunAlone, Plan, NextTick, A.RunOutcome, CleanupOf, LeftBy, Actionable;
    var k, fp := NextTick(ticks, u, r), Name(|ticks|);
    var action := CleanupOf(SymptomAt(|ticks|, r));
    var d := Decision(fp, "", r.category, Act, Some(r.name), COMMAND);
    NextPlan(ticks, u, r);
    NextStart(ticks, u, r);
    NextIsReal(|ticks|, u, r);
    var db := k.before;
    assert action.source.CleanupSource? by { IsCleanup(SymptomAt(|ticks|, r)); }
    ApproveRoutedRuns(db, fp, u.actor, "", "", Obliging(u));
    assert [d][..0] == [] && HoldAll(db, [d][..0], k.now, u.actor, k.ws) == Progress(db, [], false);
    var entry := P.Audit("", fp, action, u.actor, P.ApprovedBy, P.Verified);
    assert After(k, u).audit == db.audit + [entry];
    assert (db.audit + [entry])[|db.audit|..] == [entry];
    LoggedOnce(entry);
    assert PlanOf(k, u)[0] == d;
    assert After(k, u).pending.Keys == db.pending.Keys;
    LeftByLast(ticks, k, u);
  }

  lemma IsCleanup(s: Symptom)
    ensures CleanupOf(s).source.CleanupSource?
  {
  }

  lemma LeftByLast(ticks: seq<Tick>, k: Tick, u: Setup)
    ensures LeftBy(ticks + [k], u) == After(k, u)
  {
  }

  lemma LoggedOnce(entry: P.Audit)
    requires P.TookEffect(entry)
    ensures P.ActedFingerprints([entry]) == {entry.fingerprint}
  {
    assert [entry][0].fingerprint == entry.fingerprint;
    assert entry.fingerprint in P.ActedFingerprints([entry]);
  }

  /** Nothing happens between the ticks but the recording of each report's cleanups. */
  ghost predicate Uninterrupted(ticks: seq<Tick>, u: Setup) {
    forall i :: 0 <= i < |ticks| ==>
      ticks[i].before == OfferCleanups(LeftBy(ticks[..i], u), Actionable(ticks[i].report, u.wide), ticks[i].now)
  }

  lemma NextFollows(before: seq<Tick>, u: Setup, r: Reflex)
    requires Uninterrupted(before, u)
    ensures Uninterrupted(before + [NextTick(before, u, r)], u)
  {
    hide OfferCleanups, Actionable, LeftBy, Fixed, Recurring, SymptomAt, ReportAt;
    NextIsReal(|before|, u, r);
    var ticks := before + [NextTick(before, u, r)];
    forall i | 0 <= i < |ticks|
      ensures ticks[i].before == OfferCleanups(LeftBy(ticks[..i], u), Actionable(ticks[i].report, u.wide), ticks[i].now)
    {
      if i < |before| {
        assert ticks[i] == before[i] && ticks[..i] == before[..i];
      } else {
        assert ticks[..i] == before;
      }
    }
  }

  /** A run in which no fix holds and every tick fixed one more. */
  ghost predicate Churns(ticks: seq<Tick>, u: Setup, r: Reflex) {
    && IsRun(ticks, u) && NothingHolds(ticks, u, r.category) && Uninterrupted(ticks, u) && RowsBelow(ticks, u)
    && |Fixed(ticks, u, r.category)| == |ticks| && forall fp :: fp in Fixed(ticks, u, r.category) ==> |fp| < |ticks|
  }

  lemma ChurnsOn(before: seq<Tick>, u: Setup, r: Reflex)
    requires Willing(u, r) && !Blamed(u, r) && Churns(before, u, r)
    ensures Churns(before + [NextTick(before, u, r)], u, r)
  {
    hide After, FixedNow, NextTick, Blamed, Willing, IsRun, NothingHolds, Reckons, Fixed, Again, Uninterrupted, RowsBelow,
      KnowsClasses, LeftBy, Name;
    NextStart(before, u, r);
    NextReckons(before, u, r);
    NextFollows(before, u, r);
    Extends(before, NextTick(before, u, r), u, r);
    OneMoreFixed(before, u, r);
  }

  /** A run of any length, from an empty store and with nothing in between, in which no fix holds
      and every tick fixes one more. */
  lemma {:induction false} EndlessChurn(n: nat, u: Setup, r: Reflex) returns (ticks: seq<Tick>)
    requires Willing(u, r) && !Blamed(u, r)
    ensures |ticks| == n && Churns(ticks, u, r)
  {
    hide *;
    if n == 0 {
      ticks := [];
      NothingYet(u, r);
    } else {
      var before := EndlessChurn(n - 1, u, r);
      ChurnsOn(before, u, r);
      ticks := before + [NextTick(before, u, r)];
    }
  }

  lemma NothingYet(u: Setup, r: Reflex)
    ensures Churns([], u, r)
  {
  }

  lemma {:induction false} OneMoreFixed(before: seq<Tick>, u: Setup, r: Reflex)
    requires Willing(u, r) && !Blamed(u, r) && RowsBelow(before, u)
    requires forall fp :: fp in Fixed(before, u, r.category) ==> |fp| < |before|
    ensures Fixed(before + [NextTick(before, u, r)], u, r.category) == Fixed(before, u, r.category) + {Name(|before|)}
    ensures |Fixed(before + [NextTick(before, u, r)], u, r.category)| == |Fixed(before, u, r.category)| + 1
    ensures RowsBelow(before + [NextTick(before, u, r)], u)
  {
    hide FixedNow, NextTick, Blamed, Willing, RowsBelow;
    var k := NextTick(before, u, r);
    NextFixes(before, u, r);
    assert (before + [k])[..|before|] == before;
  }

  lemma {:induction false} Extends(before: seq<Tick>, k: Tick, u: Setup, r: Reflex)
    requires IsRun(before, u) && NothingHolds(before, u, r.category)
    requires Reckons(k.recurrence, k.findings, P.ActedFingerprints(k.before.audit), u.active)
    requires KnowsClasses(k, u) && k.before.audit == LeftBy(before, u).audit
    requires k.findings.Keys >= Fixed(before, u, r.category) && forall fp :: fp in k.findings ==> k.findings[fp] == Again(r)
    ensures IsRun(before + [k], u) && NothingHolds(before + [k], u, r.category)
  {
    hide IsRun, NothingHolds, LeftBy, Reckons, Fixed, Again, KnowsClasses;
    ExtendsRun(before, k, u);
    AllOpenAgain(k.findings, Fixed(before, u, r.category), r);
    ExtendsNothing(before, k, u, r.category);
  }

  lemma ExtendsRun(before: seq<Tick>, k: Tick, u: Setup)
    requires IsRun(before, u)
    requires Reckons(k.recurrence, k.findings, P.ActedFingerprints(k.before.audit), u.active)
    requires KnowsClasses(k, u) && k.before.audit == LeftBy(before, u).audit
    ensures IsRun(before + [k], u)
  {
    hide After, Reckons, KnowsClasses;
    var ticks := before + [k];
    assert forall i :: 0 <= i < |before| ==> ticks[i] == before[i];
  }

  lemma AllOpenAgain(t: Table, fixed: set<Fingerprint>, r: Reflex)
    requires fixed <= t.Keys && forall fp :: fp in t ==> t[fp] == Again(r)
    ensures OpenAgain(t, fixed, r.category)
  {
  }

  lemma {:induction false} ExtendsNothing(before: seq<Tick>, k: Tick, u: Setup, category: string)
    requires NothingHolds(before, u, category) && OpenAgain(k.findings, Fixed(before, u, category), category)
    ensures NothingHolds(before + [k], u, category)
  {
    hide OpenAgain, Fixed;
    var ticks := before + [k];
    forall i | 0 <= i < |ticks| ensures OpenAgain(ticks[i].findings, Fixed(ticks[..i], u, category), category) {
      if i < |before| {
        assert ticks[i] == before[i] && ticks[..i] == before[..i];
      } else {
        assert ticks[..i] == before;
      }
    }
  }

  /** The churn bound holds of every run if and only if the reflex that acts on its category is
      also the one blamed for it: the first listed for that category has the same name, and the
      category is not empty. Otherwise it churns without end, since its trust budget is charged to
      another name. */
  lemma {:induction false} ChurnBoundExactly(u: Setup, r: Reflex)
    requires Willing(u, r)
    ensures (forall ticks :: IsRun(ticks, u) && NothingHolds(ticks, u, r.category) ==>
               |Fixed(ticks, u, r.category)| <= r.distrustAfter - 1 + r.maxPerTick)
            <==> r.category != "" && FirstFor(u.active, r.category).Some?
                 && FirstFor(u.active, r.category).value.name == r.name
  {
    hide IsRun, NothingHolds, Fixed;
    if Blamed(u, r) {
      forall ticks | IsRun(ticks, u) && NothingHolds(ticks, u, r.category)
        ensures |Fixed(ticks, u, r.category)| <= r.distrustAfter - 1 + r.maxPerTick
      {
        ChurnBound(ticks, u, r);
      }
    } else {
      var ticks := EndlessChurn(r.distrustAfter + r.maxPerTick, u, r);
    }
  }
}
