/** The ticks of `hold` over the store. */
module Hold {
  // `run_hold`, and what any number of its ticks can add up to.

  import opened Text
  import opened Bounds
  import opened Catalog
  import opened Findings
  import opened Reports
  import opened Store
  import opened Reflexes
  import opened Approve
  import P = PendingActions
  import A = Approval

  // -- One tick --------------------------------------------------------------------------------------

  function ToAct(ds: seq<Decision>): seq<Decision> {
    if ds == [] then []
    else ToAct(ds[..|ds| - 1]) + if ds[|ds| - 1].verdict.Act? then [ds[|ds| - 1]] else []
  }

  /** Exactly the decisions to act are carried out, in the order of the plan. */
  lemma {:induction false} ToActFilters(ds: seq<Decision>)
    ensures Filters(ToAct(ds), ds, (d: Decision) => d.verdict.Act?)
    decreases |ds|
  {
    if ds == [] {
      FiltersNothing((d: Decision) => d.verdict.Act?);
    } else {
      var n := |ds| - 1;
      ToActFilters(ds[..n]);
      FiltersMore(ToAct(ds[..n]), ds[..n], ds[n], (d: Decision) => d.verdict.Act?);
      assert ds[..n] + [ds[n]] == ds;
    }
  }

  /** One decision carried out: skipped when nothing is recorded for it, else approved. */
  function HoldOne(before: Progress, d: Decision, now: P.Stamp, actor: string, w: A.World): Progress {
    if P.GetPending(before.db, d.fp).None? then before
    else
      var (after, last, started) := RunAlone(before.db, A.ApproveReads(d.fp, actor, "", now), w);
      Progress(after, before.started + started, last.Crashed?)
  }

  function HoldAll(db: P.Db, acts: seq<Decision>, now: P.Stamp, actor: string, ws: nat -> A.World): Progress {
    if acts == [] then Progress(db, [], false)
    else
      var n := |acts| - 1;
      var before := HoldAll(db, acts[..n], now, actor, ws);
      if before.raised then before else HoldOne(before, acts[n], now, actor, ws(n))
  }

  lemma {:induction false} RaisedStays(db: P.Db, acts: seq<Decision>, now: P.Stamp, actor: string, ws: nat -> A.World, i: nat)
    requires i <= |acts| && HoldAll(db, acts[..i], now, actor, ws).raised
    ensures HoldAll(db, acts, now, actor, ws) == HoldAll(db, acts[..i], now, actor, ws)
    decreases |acts|
  {
    if i == |acts| {
      assert acts[..i] == acts;
    } else {
      var n := |acts| - 1;
      assert acts[..n][..i] == acts[..i];
      RaisedStays(db, acts[..n], now, actor, ws, i);
    }
  }

  /** The counts a plan reads are the store's own history. */
  ghost predicate Reckons(recurrence: map<string, nat>, t: Table, acted: set<Fingerprint>, active: seq<Reflex>) {
    forall name :: At(recurrence, name) == |Recurring(t, acted, active, name)|
  }

  method RunHold(
    store: StateStore, report: seq<Body>, active: seq<Reflex>, policy: BoundPolicy, wide: WideClass,
    sizeOf: Symptom -> int, apply: bool, actor: string, now: P.Stamp, ws: nat -> A.World)
    returns (recurrence: map<string, nat>, decisions: seq<Decision>, started: seq<Start>, raised: bool)
    requires store.Stamped()
    modifies store`pending, store`audit
    ensures Reckons(recurrence, old(store.Contents()), P.ActedFingerprints(old(store.audit)), active)
    ensures decisions == Plan(Actionable(report, wide), active, recurrence, policy, sizeOf)
    ensures if apply
            then HoldAll(old(store.Actions()), ToAct(decisions), now, actor, ws) == Progress(store.Actions(), started, raised)
            else store.Actions() == old(store.Actions()) && started == [] && !raised
  {
    hide RunAlone, Plan, Recurring, P.ActedFingerprints;
    recurrence := ReflexRecurrence(store.findings, P.ActedFingerprints(store.audit), active);
    decisions := PlanHold(Actionable(report, wide), active, recurrence, policy, sizeOf);
    started, raised := [], false;
    if !apply {
      return;
    }
    ghost var db := store.Actions();
    var acts := ToAct(decisions);
    for i := 0 to |acts|
      invariant !raised && HoldAll(db, acts[..i], now, actor, ws) == Progress(store.Actions(), started, false)
    {
      assert acts[..i + 1][..i] == acts[..i];
      var row := store.GetPending(acts[i].fp);
      if row.Some? {
        var reply, starts := ApplyPending(store, acts[i].fp, actor, "", now, ws(i));
        started := started + starts;
        if reply.Raised? {
          RaisedStays(db, acts, now, actor, ws, i + 1);
          raised := true;
          return;
        }
      }
    }
    assert acts[..|acts|] == acts;
  }

  // -- A tick touches only what it acts on ---------------------------------------------------------------

  predicate ActsOn(acts: seq<Decision>, fp: Fingerprint) {
    exists i :: 0 <= i < |acts| && acts[i].fp == fp
  }

  /** Rows and log of everything else are left alone. */
  ghost predicate Contained(db: P.Db, after: Progress, acts: seq<Decision>, actor: string) {
    && |after.started| <= |acts|
    && (forall i :: 0 <= i < |after.started| ==> ActsOn(acts, after.started[i].fp))
    && (forall fp :: !ActsOn(acts, fp) ==> P.GetPending(after.db, fp) == P.GetPending(db, fp))
    && db.audit <= after.db.audit
    && (forall i :: |db.audit| <= i < |after.db.audit| ==>
          ActsOn(acts, after.db.audit[i].fingerprint) && after.db.audit[i].actor == actor)
  }

  lemma OneContained(before: Progress, d: Decision, now: P.Stamp, actor: string, w: A.World)
    ensures var after := HoldOne(before, d, now, actor, w);
            && (after.started == before.started
                || exists s: Start :: s.fp == d.fp && after.started == before.started + [s])
            && (forall fp :: fp != d.fp ==> P.GetPending(after.db, fp) == P.GetPending(before.db, fp))
            && (after.db.audit == before.db.audit
                || exists e: P.Audit :: e.fingerprint == d.fp && e.actor == actor && after.db.audit == before.db.audit + [e])
  {
    hide RunAlone, A.Route, A.RunOutcome;
    var db := before.db;
    if P.IsPending(db, d.fp) && A.Route(db.pending[d.fp].action, actor, "", w).Some? {
      ApproveRoutedRuns(db, d.fp, actor, "", now, w);
      var starts := ApproveStarts(d.fp, db.pending[d.fp].action, w);
      if starts == [] { assert before.started + starts == before.started; } else { assert starts[0].fp == d.fp; }
      var outcome := A.RunOutcome(db.pending[d.fp].action, w);
      if outcome.Some? {
        var decision := A.Route(db.pending[d.fp].action, actor, "", w).value;
        assert P.Audit(now, d.fp, db.pending[d.fp].action, actor, decision, outcome.value).fingerprint == d.fp;
      }
    } else {
      ApproveUntouched(db, d.fp, actor, "", now, w);
      assert before.started + [] == before.started;
    }
  }

  lemma ContainedStep(db: P.Db, before: Progress, acts: seq<Decision>, d: Decision, now: P.Stamp, actor: string, w: A.World)
    requires Contained(db, before, acts, actor)
    ensures Contained(db, HoldOne(before, d, now, actor, w), acts + [d], actor)
    ensures Contained(db, before, acts + [d], actor)
  {
    hide HoldOne;
    OneContained(before, d, now, actor, w);
    assert (acts + [d])[|acts|].fp == d.fp;
    forall fp | ActsOn(acts, fp) ensures ActsOn(acts + [d], fp) {
      var i :| 0 <= i < |acts| && acts[i].fp == fp;
      assert (acts + [d])[i].fp == fp;
    }
  }

  /** A tick starts at most one process per ACT decision, for that decision's fingerprint, and
      changes no row and logs no entry of any other. */
  lemma {:induction false} HoldContained(db: P.Db, acts: seq<Decision>, now: P.Stamp, actor: string, ws: nat -> A.World)
    ensures Contained(db, HoldAll(db, acts, now, actor, ws), acts, actor)
    decreases |acts|
  {
    hide HoldOne;
    if acts != [] {
      var n := |acts| - 1;
      HoldContained(db, acts[..n], now, actor, ws);
      assert acts[..n] + [acts[n]] == acts;
      ContainedStep(db, HoldAll(db, acts[..n], now, actor, ws), acts[..n], acts[n], now, actor, ws(n));
    }
  }

  // -- Whole runs of applying ticks ------------------------------------------------------------------------

  /** One applying tick: the findings and the store it starts from, and what it reads. */
  datatype Tick = Tick(
    findings: Table, before: P.Db, report: seq<Body>, recurrence: map<string, nat>, now: P.Stamp, ws: nat -> A.World)

  datatype Setup = Setup(active: seq<Reflex>, policy: BoundPolicy, wide: WideClass, sizeOf: Symptom -> int, actor: string)

  function PlanOf(k: Tick, u: Setup): seq<Decision> {
    Plan(Actionable(k.report, u.wide), u.active, k.recurrence, u.policy, u.sizeOf)
  }

  function After(k: Tick, u: Setup): P.Db {
    HoldAll(k.before, ToAct(PlanOf(k, u)), k.now, u.actor, k.ws).db
  }

  lemma AfterExtends(k: Tick, u: Setup)
    ensures k.before.audit <= After(k, u).audit
  {
    HoldContained(k.before, ToAct(PlanOf(k, u)), k.now, u.actor, k.ws);
  }

  /** What the tick fixed through the reflex of `category`: acted on, and logged as having
      taken effect during this tick. */
  function FixedNow(k: Tick, u: Setup, category: string): set<Fingerprint> {
    AfterExtends(k, u);
    var ds := PlanOf(k, u);
    var logged := P.ActedFingerprints(After(k, u).audit[|k.before.audit|..]);
    set i | 0 <= i < |ds| && ds[i].verdict.Act? && ds[i].category == category && ds[i].fp in logged :: ds[i].fp
  }

  function Fixed(ticks: seq<Tick>, u: Setup, category: string): set<Fingerprint> {
    if ticks == [] then {}
    else Fixed(ticks[..|ticks| - 1], u, category) + FixedNow(ticks[|ticks| - 1], u, category)
  }

  /** What a `\w` is does not depend on when a command is run. */
  ghost predicate KnowsClasses(k: Tick, u: Setup) {
    forall i :: k.ws(i).wide == u.wide
  }

  /** Between ticks anything may happen, but the audit log only grows; and each tick reads the
      store it starts from. */
  ghost predicate IsRun(ticks: seq<Tick>, u: Setup) {
    && (forall k :: 0 <= k < |ticks| ==>
          KnowsClasses(ticks[k], u)
          && Reckons(ticks[k].recurrence, ticks[k].findings, P.ActedFingerprints(ticks[k].before.audit), u.active))
    && (forall k :: 0 < k < |ticks| ==> After(ticks[k - 1], u).audit <= ticks[k].before.audit)
  }

  predicate OpenAgain(t: Table, fixed: set<Fingerprint>, category: string) {
    forall fp :: fp in fixed ==>
      fp in t && t[fp].status.Open? && CATEGORY in t[fp].details && t[fp].details[CATEGORY] == category
  }

  /** No fix holds: at every tick everything fixed so far is open again, its evidence carrying
      its category. */
  ghost predicate NothingHolds(ticks: seq<Tick>, u: Setup, category: string) {
    forall k :: 0 <= k < |ticks| ==> OpenAgain(ticks[k].findings, Fixed(ticks[..k], u, category), category)
  }

  lemma ActedGrows(short: seq<P.Audit>, long: seq<P.Audit>)
    requires short <= long
    ensures P.ActedFingerprints(short) <= P.ActedFingerprints(long)
  {
    forall fp | fp in P.ActedFingerprints(short) ensures fp in P.ActedFingerprints(long) {
      var i :| 0 <= i < |short| && P.TookEffect(short[i]) && short[i].fingerprint == fp;
      assert long[i] == short[i];
    }
  }

  lemma FixedIsLogged(k: Tick, u: Setup, category: string)
    ensures FixedNow(k, u, category) <= P.ActedFingerprints(After(k, u).audit)
  {
    AfterExtends(k, u);
    var log := After(k, u).audit;
    var newer := log[|k.before.audit|..];
    forall fp | fp in P.ActedFingerprints(newer) ensures fp in P.ActedFingerprints(log) {
      var i :| 0 <= i < |newer| && P.TookEffect(newer[i]) && newer[i].fingerprint == fp;
      assert log[|k.before.audit| + i] == newer[i];
    }
  }

  lemma {:induction false} AllFixedLogged(ticks: seq<Tick>, u: Setup, category: string)
    requires IsRun(ticks, u) && ticks != []
    ensures Fixed(ticks, u, category) <= P.ActedFingerprints(After(ticks[|ticks| - 1], u).audit)
    decreases |ticks|
  {
    hide After, FixedNow, Reckons;
    var n := |ticks| - 1;
    var last := ticks[n];
    FixedIsLogged(last, u, category);
    if n > 0 {
      assert ticks[..n][n - 1] == ticks[n - 1];
      AllFixedLogged(ticks[..n], u, category);
      AfterExtends(last, u);
      ActedGrows(After(ticks[n - 1], u).audit, After(last, u).audit);
    }
  }

  lemma {:induction false} FewFingerprints(ss: seq<Symptom>, fps: set<Fingerprint>)
    requires forall fp :: fp in fps ==> exists i :: 0 <= i < |ss| && ss[i].fp == fp
    ensures |fps| <= |ss|
    decreases |ss|
  {
    if ss == [] {
      assert fps == {};
    } else {
      var n := |ss| - 1;
      var rest := fps - {ss[n].fp};
      forall fp | fp in rest ensures exists i :: 0 <= i < n && ss[..n][i].fp == fp {
        var i :| 0 <= i < |ss| && ss[i].fp == fp;
        assert ss[..n][i].fp == fp;
      }
      FewFingerprints(ss[..n], rest);
      assert fps <= rest + {ss[n].fp};
      Smaller(fps, rest + {ss[n].fp});
    }
  }

  lemma Smaller(a: set<Fingerprint>, b: set<Fingerprint>)
    requires a <= b
    ensures |a| <= |b|
  {
    assert b == a + (b - a);
  }

  lemma {:induction false} ActedOnHas(ss: seq<Symptom>, ds: seq<Decision>, category: string, i: nat)
    requires |ss| == |ds| && i < |ss| && ds[i].verdict.Act? && ss[i].category == category
    ensures exists j :: 0 <= j < |ActedOn(ss, ds, category)| && ActedOn(ss, ds, category)[j] == ss[i]
    decreases |ss|
  {
    var n := |ss| - 1;
    var acted := ActedOn(ss, ds, category);
    if i < n {
      ActedOnHas(ss[..n], ds[..n], category, i);
      var j :| 0 <= j < |ActedOn(ss[..n], ds[..n], category)| && ActedOn(ss[..n], ds[..n], category)[j] == ss[i];
      assert acted[j] == ss[i];
    } else {
      assert acted[|acted| - 1] == ss[i];
    }
  }

  /** One tick fixes at most `max_per_tick` through one reflex, and nothing once the reflex is
      distrusted. */
  lemma FixedNowBound(k: Tick, u: Setup, r: Reflex)
    requires LastFor(u.active, r.category) == Some(r)
    ensures |FixedNow(k, u, r.category)| <= r.maxPerTick
    ensures FixedNow(k, u, r.category) != {} ==> At(k.recurrence, r.name) < r.distrustAfter
  {
    hide HoldAll, ActedOn, P.ActedFingerprints, Actionable;
    var ds, all := PlanOf(k, u), Actionable(k.report, u.wide);
    var acted := ActedOn(all, ds, r.category);
    TickWithinBudget(all, u.active, k.recurrence, u.policy, u.sizeOf, r);
    forall fp | fp in FixedNow(k, u, r.category) ensures exists j :: 0 <= j < |acted| && acted[j].fp == fp {
      var i :| 0 <= i < |ds| && ds[i].verdict.Act? && ds[i].category == r.category && ds[i].fp == fp;
      ActedOnHas(all, ds, r.category, i);
    }
    FewFingerprints(acted, FixedNow(k, u, r.category));
  }

  lemma {:induction false} FixedRecurs(t: Table, acted: set<Fingerprint>, active: seq<Reflex>, r: Reflex, fixed: set<Fingerprint>)
    requires OpenAgain(t, fixed, r.category) && fixed <= acted && r.category != ""
    requires FirstFor(active, r.category).Some? && FirstFor(active, r.category).value.name == r.name
    ensures |fixed| <= |Recurring(t, acted, active, r.name)|
  {
    hide FirstFor;
    forall fp | fp in fixed ensures fp in Recurring(t, acted, active, r.name) {}
    Smaller(fixed, Recurring(t, acted, active, r.name));
  }

  /** A tick that still fixes something comes while fewer than `distrust_after` fixes recur. */
  lemma {:induction false} TrustedWhileFixing(ticks: seq<Tick>, u: Setup, r: Reflex)
    requires ticks != [] && IsRun(ticks, u) && NothingHolds(ticks, u, r.category) && Blamed(u, r)
    requires FixedNow(ticks[|ticks| - 1], u, r.category) != {}
    ensures |Fixed(ticks[..|ticks| - 1], u, r.category)| < r.distrustAfter
  {
    hide After, FixedNow, OpenAgain, LastFor, FirstFor, P.ActedFingerprints, Recurring;
    var n := |ticks| - 1;
    var before, last := ticks[..n], ticks[n];
    var acted := P.ActedFingerprints(last.before.audit);
    FixedNowBound(last, u, r);
    if n > 0 {
      assert before[n - 1] == ticks[n - 1];
      AllFixedLogged(before, u, r.category);
      ActedGrows(After(ticks[n - 1], u).audit, last.before.audit);
    }
    assert Reckons(last.recurrence, last.findings, acted, u.active);
    FixedRecurs(last.findings, acted, u.active, r, Fixed(before, u, r.category));
  }

  /** The reflex plans for its category (the last listed for it) and is blamed for it (named like
      the first). */
  predicate Blamed(u: Setup, r: Reflex) {
    && LastFor(u.active, r.category) == Some(r) && r.category != ""
    && FirstFor(u.active, r.category).Some? && FirstFor(u.active, r.category).value.name == r.name
  }

  /** The churn bound. However long hold keeps ticking, if no fix of a reflex holds, the
      distinct findings it has fixed never exceed `distrust_after - 1 + max_per_tick`. */
  lemma {:induction false} ChurnBound(ticks: seq<Tick>, u: Setup, r: Reflex)
    requires IsRun(ticks, u) && NothingHolds(ticks, u, r.category) && Blamed(u, r)
    ensures |Fixed(ticks, u, r.category)| <= if r.distrustAfter == 0 then 0 else r.distrustAfter - 1 + r.maxPerTick
    decreases |ticks|
  {
    hide FixedNow;
    if ticks != [] {
      var n := |ticks| - 1;
      ShorterRun(ticks, u, r.category);
      ChurnBound(ticks[..n], u, r);
      hide IsRun, NothingHolds, Blamed;
      BlamedPlans(u, r);
      FixedNowBound(ticks[n], u, r);
      UnionSize(Fixed(ticks[..n], u, r.category), FixedNow(ticks[n], u, r.category));
      if FixedNow(ticks[n], u, r.category) != {} { TrustedWhileFixing(ticks, u, r); }
    }
  }

  lemma BlamedPlans(u: Setup, r: Reflex)
    requires Blamed(u, r)
    ensures LastFor(u.active, r.category) == Some(r)
  {
  }

  lemma ShorterRun(ticks: seq<Tick>, u: Setup, category: string)
    requires ticks != [] && IsRun(ticks, u) && NothingHolds(ticks, u, category)
    ensures IsRun(ticks[..|ticks| - 1], u) && NothingHolds(ticks[..|ticks| - 1], u, category)
  {
    hide After, OpenAgain, Reckons, KnowsClasses, Fixed;
    var before := ticks[..|ticks| - 1];
    assert IsRun(before, u) by {
      assert forall k :: 0 <= k < |before| ==> before[k] == ticks[k];
    }
    hide IsRun;
    forall k | 0 <= k < |before| ensures OpenAgain(before[k].findings, Fixed(before[..k], u, category), category) {
      assert before[..k] == ticks[..k] && before[k] == ticks[k];
    }
  }

  lemma UnionSize(a: set<Fingerprint>, b: set<Fingerprint>)
    ensures |a + b| <= |a| + |b|
  {
    assert a + b == a + (b - a);
    Smaller(b - a, b);
  }
}
