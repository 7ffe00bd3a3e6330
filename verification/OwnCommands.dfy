/** The `hold` command from end to end. */
module OwnCommands {
  // The scan's cleanups are recorded, then the runbook's solutions, then the tick acts on what it
  // finds under its decisions.

  import opened Catalog
  import opened Reports
  import opened Reflexes
  import opened Approve
  import opened Hold
  import opened Execute
  import opened Offers
  import opened Text
  import P = PendingActions
  import A = Approval

  // -- A tick runs what is pending when it begins ------------------------------------------------------

  /** Nothing is pending that was not pending, as it is, when the tick began. */
  ghost predicate OnlyClaims(start: P.Db, db: P.Db) {
    forall fp :: P.IsPending(db, fp) ==> P.GetPending(db, fp) == P.GetPending(start, fp)
  }

  lemma OneRunsPending(start: P.Db, before: Progress, d: Decision, now: P.Stamp, actor: string, w: A.World)
    requires OnlyClaims(start, before.db)
    ensures var after := HoldOne(before, d, now, actor, w);
            && OnlyClaims(start, after.db)
            && (after.started == before.started
                || exists s: Start :: s.fp == d.fp && P.IsPending(start, s.fp) && s.action == start.pending[s.fp].action
                                      && after.started == before.started + [s])
  {
    hide RunAlone, A.Route, A.RunOutcome;
    var db := before.db;
    if P.IsPending(db, d.fp) && A.Route(db.pending[d.fp].action, actor, "", w).Some? {
      ApproveRoutedRuns(db, d.fp, actor, "", now, w);
      var starts := ApproveStarts(d.fp, db.pending[d.fp].action, w);
      if starts == [] { assert before.started + starts == before.started; } else { assert starts == [starts[0]]; }
    } else {
      ApproveUntouched(db, d.fp, actor, "", now, w);
      assert before.started + [] == before.started;
    }
  }

  lemma {:induction false} HoldRunsPending(start: P.Db, acts: seq<Decision>, now: P.Stamp, actor: string, ws: nat -> A.World)
    ensures var after := HoldAll(start, acts, now, actor, ws);
            && OnlyClaims(start, after.db)
            && forall i :: 0 <= i < |after.started| ==>
                 var s := after.started[i];
                 ActsOn(acts, s.fp) && P.IsPending(start, s.fp) && s.action == start.pending[s.fp].action
    decreases |acts|
  {
    hide HoldOne;
    if acts != [] {
      var n := |acts| - 1;
      HoldRunsPending(start, acts[..n], now, actor, ws);
      forall fp | ActsOn(acts[..n], fp) ensures ActsOn(acts, fp) {
        var i :| 0 <= i < n && acts[..n][i].fp == fp;
        assert acts[i].fp == fp;
      }
      OneRunsPending(start, HoldAll(start, acts[..n], now, actor, ws), acts[n], now, actor, ws(n));
    }
  }

  // -- What is pending when it begins ---------------------------------------------------------------------

  /** The store when the tick begins. */
  function Prepared(
    db: P.Db, report: seq<Body>, wide: WideClass, k: Runbook, now: P.Stamp, ws: nat -> A.World): Progress
  {
    var offered := OfferCleanups(db, Actionable(report, wide), now);
    SolveAll(offered, AlertSymptoms(report), k, AlreadyActed(offered.audit, k), now, ws)
  }

  /** The solution the runbook offers for a finding, if any. */
  function Offered(db: P.Db, report: seq<Body>, k: Runbook, fp: P.Fingerprint): Option<P.Remedy> {
    LastOffer(AlertSymptoms(report), k, AlreadyActed(db.audit, k), fp)
  }

  lemma {:induction false} CleanupsLogNothing(db: P.Db, ss: seq<Symptom>, now: P.Stamp)
    ensures OfferCleanups(db, ss, now).audit == db.audit
    decreases |ss|
  {
    if ss != [] { CleanupsLogNothing(db, ss[..|ss| - 1], now); }
  }

  /** The command gets to its tick exactly when every entry of a matching solution splits and no
      unattended run raises. */
  lemma {:induction false} TickReachedExactly(
    db: P.Db, report: seq<Body>, wide: WideClass, k: Runbook, now: P.Stamp, ws: nat -> A.World)
    ensures !Prepared(db, report, wide, k, now, ws).raised <==>
            forall i :: 0 <= i < |AlertSymptoms(report)| ==> !BreaksAt(AlertSymptoms(report)[i], k, AlreadyActed(db.audit, k), ws(i))
  {
    hide OfferCleanups, SolveAll, Actionable, AlertSymptoms, BreaksAt, AlreadyActed;
    CleanupsLogNothing(db, Actionable(report, wide), now);
    ScanRaisesExactly(OfferCleanups(db, Actionable(report, wide), now), AlertSymptoms(report), k, AlreadyActed(db.audit, k), now, ws);
  }

  /** The row of an actionable finding when the tick begins: as it was if it was declined, else
      pending, with the runbook's solution if it offers one and with the cleanup only otherwise. */
  lemma {:induction false} RowBeforeTick(
    db: P.Db, report: seq<Body>, wide: WideClass, k: Runbook, now: P.Stamp, ws: nat -> A.World, fp: P.Fingerprint)
    requires !Prepared(db, report, wide, k, now, ws).raised && LastOf(Actionable(report, wide), fp).Some?
    ensures var start, solution := Prepared(db, report, wide, k, now, ws).db, Offered(db, report, k, fp);
            if P.IsDeclined(db, fp) then P.GetPending(start, fp) == P.GetPending(db, fp)
            else P.IsPending(start, fp)
                 && start.pending[fp].action == if solution.Some? then solution.value
                                                else CleanupOf(LastOf(Actionable(report, wide), fp).value)
  {
    hide OfferCleanups, SolveAll, LastOf, LastOffer, Actionable, AlertSymptoms, AlreadyActed;
    var all := Actionable(report, wide);
    var offered := OfferCleanups(db, all, now);
    CleanupIsStored(db, all, now, fp);
    CleanupsLogNothing(db, all, now);
    SolutionIsStored(offered, AlertSymptoms(report), k, AlreadyActed(offered.audit, k), now, ws, fp);
  }

  lemma {:induction false} OffersAreSolutions(ss: seq<Symptom>, k: Runbook, already: set<P.Fingerprint>, fp: P.Fingerprint)
    ensures LastOffer(ss, k, already, fp).Some? ==> LastOffer(ss, k, already, fp).value.source.SolutionSource?
    decreases |ss|
  {
    if ss != [] { OffersAreSolutions(ss[..|ss| - 1], k, already, fp); }
  }

  lemma {:induction false} ActionableOfVetted(ss: seq<Symptom>, wide: WideClass, s: Symptom)
    requires s in ActionableOf(ss, wide)
    ensures Validates(ReclaimEvicted, wide, CleanupOf(s).command)
    decreases |ss|
  {
    hide Validates;
    if s in ActionableOf(ss[..|ss| - 1], wide) { ActionableOfVetted(ss[..|ss| - 1], wide, s); }
  }

  lemma {:induction false} ActionableVetted(bs: seq<Body>, wide: WideClass, s: Symptom)
    requires s in Actionable(bs, wide)
    ensures Validates(ReclaimEvicted, wide, CleanupOf(s).command)
    decreases |bs|
  {
    hide Validates, ActionableOf;
    var n := |bs| - 1;
    if s in Actionable(bs[..n], wide) {
      ActionableVetted(bs[..n], wide, s);
    } else {
      ActionableOfVetted(bs[n].symptoms, wide, s);
    }
  }

  /** A recorded cleanup splits, so its run never raises before it starts. */
  lemma {:induction false} RecordedCleanupStarts(bs: seq<Body>, wide: WideClass, s: Symptom)
    requires s in Actionable(bs, wide)
    ensures CleanupAttempt(wide, CleanupOf(s).command).Starts?
  {
    hide Validates, CleanupAttempt;
    ActionableVetted(bs, wide, s);
    CleanupStartsVetted(wide, CleanupOf(s).command);
  }

  // -- Whose command a tick runs ------------------------------------------------------------------------------

  lemma {:induction false} ToActFrom(ds: seq<Decision>, fp: P.Fingerprint)
    requires ActsOn(ToAct(ds), fp)
    ensures exists i :: 0 <= i < |ds| && ds[i].fp == fp
    decreases |ds|
  {
    var n := |ds| - 1;
    var before, acts := ToAct(ds[..n]), ToAct(ds);
    var j :| 0 <= j < |acts| && acts[j].fp == fp;
    if j < |before| {
      assert before[j].fp == fp;
      ToActFrom(ds[..n], fp);
      var i :| 0 <= i < n && ds[..n][i].fp == fp;
      assert ds[i].fp == fp;
    } else {
      assert ds[n].fp == fp;
    }
  }

  lemma {:induction false} LastOfExists(ss: seq<Symptom>, i: nat)
    requires i < |ss|
    ensures LastOf(ss, ss[i].fp).Some?
    decreases |ss|
  {
    if i < |ss| - 1 { LastOfExists(ss[..|ss| - 1], i); }
  }

  lemma {:induction false} ActedIsActionable(
    all: seq<Symptom>, u: Setup, recurrence: map<string, nat>, fp: P.Fingerprint)
    requires ActsOn(ToAct(Plan(all, u.active, recurrence, u.policy, u.sizeOf)), fp)
    ensures LastOf(all, fp).Some?
  {
    hide ToAct, LastOf;
    var ds := Plan(all, u.active, recurrence, u.policy, u.sizeOf);
    ToActFrom(ds, fp);
    var i :| 0 <= i < |ds| && ds[i].fp == fp;
    LastOfExists(all, i);
  }

  /** For every store, report, runbook and outcome, what a tick of `hold` starts is never for a
      declined finding, and it is the vetted cleanup of the last actionable symptom that carries its
      fingerprint if and only if the runbook offers no solution for it. If it does, the tick runs
      that solution, which was never checked against the catalog or the bound. */
  lemma {:induction false} TickRunsExactly(
    db: P.Db, report: seq<Body>, wide: WideClass, k: Runbook, u: Setup, recurrence: map<string, nat>, now: P.Stamp,
    ws: nat -> A.World, ts: nat -> A.World)
    requires !Prepared(db, report, wide, k, now, ws).raised
    ensures var all, start := Actionable(report, wide), Prepared(db, report, wide, k, now, ws).db;
            var acts := ToAct(Plan(all, u.active, recurrence, u.policy, u.sizeOf));
            var after := HoldAll(start, acts, now, u.actor, ts);
            forall i :: 0 <= i < |after.started| ==>
              var s := after.started[i];
              && ActsOn(acts, s.fp) && !P.IsDeclined(db, s.fp) && LastOf(all, s.fp).Some?
              && (s.action.source.CleanupSource? <==> Offered(db, report, k, s.fp).None?)
              && (if Offered(db, report, k, s.fp).Some? then s.action == Offered(db, report, k, s.fp).value
                  else s.action == CleanupOf(LastOf(all, s.fp).value) && Validates(ReclaimEvicted, wide, s.action.command))
  {
    hide HoldAll, ToAct, Plan, Actionable, AlertSymptoms, LastOf, LastOffer, Prepared, Validates, AlreadyActed;
    var all, start := Actionable(report, wide), Prepared(db, report, wide, k, now, ws).db;
    var acts := ToAct(Plan(all, u.active, recurrence, u.policy, u.sizeOf));
    HoldRunsPending(start, acts, now, u.actor, ts);
    var after := HoldAll(start, acts, now, u.actor, ts);
    forall i | 0 <= i < |after.started|
      ensures var s := after.started[i];
              && !P.IsDeclined(db, s.fp) && LastOf(all, s.fp).Some?
              && (s.action.source.CleanupSource? <==> Offered(db, report, k, s.fp).None?)
              && (if Offered(db, report, k, s.fp).Some? then s.action == Offered(db, report, k, s.fp).value
                  else s.action == CleanupOf(LastOf(all, s.fp).value) && Validates(ReclaimEvicted, wide, s.action.command))
    {
      var s := after.started[i];
      ActedIsActionable(all, u, recurrence, s.fp);
      RowBeforeTick(db, report, wide, k, now, ws, s.fp);
      ActionableVetted(report, wide, LastOf(all, s.fp).value);
      OffersAreSolutions(AlertSymptoms(report), k, AlreadyActed(db.audit, k), s.fp);
    }
  }

  /** It happens: when the runbook offers a solution for an actionable finding that was not
      declined, the decision to act on that finding starts the authored command. */
  lemma {:induction false} TickRunsAuthored(
    db: P.Db, report: seq<Body>, wide: WideClass, k: Runbook, d: Decision, now: P.Stamp, actor: string,
    ws: nat -> A.World, w: A.World)
    requires !Prepared(db, report, wide, k, now, ws).raised && LastOf(Actionable(report, wide), d.fp).Some?
    requires Offered(db, report, k, d.fp).Some? && !P.IsDeclined(db, d.fp)
    requires SolutionAttempt(w.wide, Offered(db, report, k, d.fp).value.command).Starts?
    ensures var solution := Offered(db, report, k, d.fp).value;
            HoldOne(Progress(Prepared(db, report, wide, k, now, ws).db, [], false), d, now, actor, w).started ==
            [Start(d.fp, solution, SolutionAttempt(w.wide, solution.command).argv)]
  {
    hide RunAlone, Prepared, Actionable, AlertSymptoms, LastOf, LastOffer, SolutionAttempt, A.RunOutcome, AlreadyActed, CleanupOf;
    RowBeforeTick(db, report, wide, k, now, ws, d.fp);
    OffersAreSolutions(AlertSymptoms(report), k, AlreadyActed(db.audit, k), d.fp);
    var start := Prepared(db, report, wide, k, now, ws).db;
    ApproveRoutedRuns(start, d.fp, actor, "", now, w);
  }
}
