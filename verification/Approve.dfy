/** The approval one process makes alone. */
module Approve {
  // `apply_pending` and `decline_pending` as one process executes them, against the store. Each is
  // the interleaving machine of `Approval` with nothing in between, so whatever holds of every
  // schedule holds of them.

  import opened Text
  import opened Bounds
  import opened Catalog
  import opened Execute
  import opened PendingActions
  import opened Approval
  import opened Store

  /** A process a runner started. */
  datatype Start = Start(fp: Fingerprint, action: Remedy, argv: seq<string>)

  /** How an approval ends: nothing was done, something ran (and was audited), or the runner
      raised. */
  datatype Reply = Untouched | Ran(outcome: Outcome) | Raised

  /** The store after a batch of approvals, the processes started, and whether a runner raised
      (which ends the batch). */
  datatype Progress = Progress(db: Db, started: seq<Start>, raised: bool)

  /** The process the next statement of a thread starts, if any. */
  function StartsNow(t: Thread, w: World): seq<Start> {
    if (t.ApproveRuns? || t.AutoRuns?) && AttemptOf(t.action, w).Starts?
    then [Start(t.fp, t.action, AttemptOf(t.action, w).argv)]
    else []
  }

  function StatementsLeft(t: Thread): nat {
    match t
    case OfferReads(_, _, _) => 2
    case OfferWrites(_, _, _) => 1
    case ApproveReads(_, _, _, _) => 4
    case ApproveClaims(_, _, _, _, _) => 3
    case ApproveRuns(_, _, _, _, _) => 2
    case ApproveAudits(_, _, _, _, _, _) => 1
    case DeclineReads(_, _, _) => 3
    case DeclineWrites(_, _, _, _) => 2
    case DeclineAudits(_, _, _, _) => 1
    case AutoRuns(_, _, _) => 2
    case AutoAudits(_, _, _, _) => 1
    case Crashed(_) => 0
    case Finished => 0
  }

  /** A thread run to its end with no other thread in between: the table it leaves, the thread
      it ends as, and the processes it started. */
  function RunAlone(db: Db, t: Thread, w: World): (Db, Thread, seq<Start>)
    decreases StatementsLeft(t)
  {
    if StatementsLeft(t) == 0 then (db, t, [])
    else
      var (db1, t1) := Statement(db, t, w);
      var (db2, t2, started) := RunAlone(db1, t1, w);
      (db2, t2, StartsNow(t, w) + started)
  }

  // -- Running alone is one of the schedules ---------------------------------------------------

  /** The schedule: spawn the thread, then give it every step. */
  function AloneMoves(index: nat, t: Thread, w: World): seq<Move> {
    [Spawn(t)] + seq(StatementsLeft(t), _ => Advance(index, w))
  }

  lemma {:induction false} StepsToTheEnd(s: System, index: nat, w: World, k: nat)
    requires index < |s.threads| && StatementsLeft(s.threads[index]) <= k
    ensures var moves := seq(k, _ => Advance(index, w));
            var (db, t, _) := RunAlone(s.db, s.threads[index], w);
            Runs(s, moves) && Exec(s, moves) == System(db, s.threads[index := t])
    decreases k
  {
    var moves := seq(k, _ => Advance(index, w));
    if k == 0 {
      assert s.threads[index := s.threads[index]] == s.threads;
    } else {
      var next := Step(s, moves[0]);
      assert moves[1..] == seq(k - 1, _ => Advance(index, w));
      StepsToTheEnd(next, index, w, k - 1);
      StandsStill(s, index, w);
    }
  }

  lemma {:induction false} StandsStill(s: System, index: nat, w: World)
    requires index < |s.threads|
    ensures RunAlone(s.db, s.threads[index], w).0 ==
            RunAlone(Step(s, Advance(index, w)).db, Step(s, Advance(index, w)).threads[index], w).0
    ensures RunAlone(s.db, s.threads[index], w).1 ==
            RunAlone(Step(s, Advance(index, w)).db, Step(s, Advance(index, w)).threads[index], w).1
  {
    hide IsPending, IsDeclined, Route, RunOutcome, Claim, Decline, Append, OfferStamp, InsertOffer;
  }

  /** Whatever the other threads are doing, running a procedure alone is a run of the machine. */
  lemma {:induction false} AloneIsASchedule(s: System, t: Thread, w: World)
    requires IsEntry(t)
    ensures var moves := AloneMoves(|s.threads|, t, w);
            var (db, last, _) := RunAlone(s.db, t, w);
            Runs(s, moves) && Exec(s, moves) == System(db, s.threads + [last])
  {
    hide RunAlone;
    var spawned := Step(s, Spawn(t));
    var moves := AloneMoves(|s.threads|, t, w);
    assert moves[1..] == seq(StatementsLeft(t), _ => Advance(|s.threads|, w));
    StepsToTheEnd(spawned, |s.threads|, w, StatementsLeft(t));
    var (_, last, _) := RunAlone(s.db, t, w);
    assert spawned.threads[|s.threads| := last] == s.threads + [last];
  }

  lemma {:induction false} AloneStep(db: Db, t: Thread, w: World, db1: Db, t1: Thread)
    requires StatementsLeft(t) > 0 && Statement(db, t, w) == (db1, t1)
    ensures var (db2, t2, started) := RunAlone(db1, t1, w); RunAlone(db, t, w) == (db2, t2, StartsNow(t, w) + started)
    ensures StartsNow(t, w) == [] ==> RunAlone(db, t, w) == RunAlone(db1, t1, w)
    ensures StatementsLeft(t1) == 0 ==> RunAlone(db, t, w) == (db1, t1, StartsNow(t, w))
  {
    hide Statement, AttemptOf;
    var (db2, t2, started) := RunAlone(db1, t1, w);
    assert [] + started == started;
    assert StartsNow(t, w) + [] == StartsNow(t, w);
  }

  // -- What one approval does ------------------------------------------------------------------

  /** An approval that finds no pending row, or is not routed, leaves everything as it was. */
  lemma {:induction false} ApproveUntouched(db: Db, fp: Fingerprint, actor: string, token: string, now: Stamp, w: World)
    requires IsPending(db, fp) ==> Route(db.pending[fp].action, actor, token, w).None?
    ensures RunAlone(db, ApproveReads(fp, actor, token, now), w) == (db, Finished, [])
  {
    hide Route, RunAlone;
    AloneStep(db, ApproveReads(fp, actor, token, now), w, db, Finished);
  }

  function ApproveStarts(fp: Fingerprint, action: Remedy, w: World): seq<Start> {
    if AttemptOf(action, w).Starts? then [Start(fp, action, AttemptOf(action, w).argv)] else []
  }

  /** A routed approval claims the row, runs the command it read, and is audited exactly when
      the runner did not raise. */
  lemma {:induction false} ApproveRoutedRuns(db: Db, fp: Fingerprint, actor: string, token: string, now: Stamp, w: World)
    requires IsPending(db, fp) && Route(db.pending[fp].action, actor, token, w).Some?
    ensures var action := db.pending[fp].action;
            var decision := Route(action, actor, token, w).value;
            var claimed := Claim(db, fp, actor).0;
            RunAlone(db, ApproveReads(fp, actor, token, now), w) ==
              match RunOutcome(action, w)
              case None => (claimed, Crashed(fp), ApproveStarts(fp, action, w))
              case Some(outcome) =>
                (Append(claimed, Audit(now, fp, action, actor, decision, outcome)), Finished, ApproveStarts(fp, action, w))
  {
    hide Route, RunOutcome, AttemptOf, RunAlone;
    var action := db.pending[fp].action;
    var decision := Route(action, actor, token, w).value;
    var claimed := Claim(db, fp, actor).0;
    var claims, runs := ApproveClaims(fp, actor, now, action, decision), ApproveRuns(fp, actor, now, action, decision);
    AloneStep(db, ApproveReads(fp, actor, token, now), w, db, claims);
    AloneStep(db, claims, w, claimed, runs);
    match RunOutcome(action, w)
    case None => AloneStep(claimed, runs, w, claimed, Crashed(fp));
    case Some(outcome) =>
      var audits := ApproveAudits(fp, actor, now, action, decision, outcome);
      AloneStep(claimed, runs, w, claimed, audits);
      AloneStep(claimed, audits, w, Append(claimed, Audit(now, fp, action, actor, decision, outcome)), Finished);
      assert StartsNow(runs, w) + [] == StartsNow(runs, w);
  }

  method ApplyPending(store: StateStore, fp: Fingerprint, actor: string, token: string, now: Stamp, w: World)
    returns (reply: Reply, started: seq<Start>)
    modifies store`pending, store`audit
    ensures RunAlone(old(store.Actions()), ApproveReads(fp, actor, token, now), w) ==
            (store.Actions(), if reply.Raised? then Crashed(fp) else Finished, started)
    ensures reply.Ran? <==> |store.audit| == |old(store.audit)| + 1
    ensures reply.Ran? ==> store.audit[|old(store.audit)|].outcome == reply.outcome
    ensures reply.Untouched? ==> store.Actions() == old(store.Actions())
  {
    hide Route, RunOutcome, AttemptOf, RunAlone;
    var row := store.GetPending(fp);
    if row.None? || !row.value.status.Pending? {
      ApproveUntouched(store.Actions(), fp, actor, token, now, w);
      return Untouched, [];
    }
    var action := row.value.action;
    var decision := RouteFor(action, actor, token, w);
    if decision.None? {
      ApproveUntouched(store.Actions(), fp, actor, token, now, w);
      return Untouched, [];
    }
    ApproveRoutedRuns(store.Actions(), fp, actor, token, now, w);
    var won := store.ClaimPending(fp, actor);
    assert won;
    var outcome := RunOutcome(action, w);
    started := ApproveStarts(fp, action, w);
    if outcome.None? {
      return Raised, started;
    }
    store.RecordAudit(Audit(now, fp, action, actor, decision.value, outcome.value));
    reply := Ran(outcome.value);
  }

  /** The checks between the read and the claim, source by source. */
  method RouteFor(action: Remedy, actor: string, token: string, w: World) returns (decision: Option<Decision>)
    ensures decision == Route(action, actor, token, w)
  {
    hide ActionForCommand;
    match action.source {
      case BreakGlassSource =>
        if actor !in w.breakGlassUsers {
          return None;
        }
        var matched := ActionForCommand(w.wide, action.command);
        var tier := if matched.Some? then ConfirmationTier(EnvelopeOf(matched.value), DEFAULT_BOUND) else 0;
        if tier >= 2 && token != action.identity {
          return None;
        }
        return Some(BreakGlassBy);
      case DriftSource(_) =>
        if !w.executorExists {
          return None;
        }
        return Some(ApprovedBy);
      case _ =>
        return Some(ApprovedBy);
    }
  }

  method DeclinePending(store: StateStore, fp: Fingerprint, actor: string, now: Stamp, ghost w: World)
    modifies store`pending, store`audit
    ensures RunAlone(old(store.Actions()), DeclineReads(fp, actor, now), w) == (store.Actions(), Finished, [])
    ensures fp !in old(store.pending) ==> store.Actions() == old(store.Actions())
    ensures fp in old(store.pending) ==>
              var row := old(store.pending)[fp];
              && store.pending == old(store.pending)[fp := Row(row.action, Declined, row.createdAt, Some(actor))]
              && store.audit == old(store.audit) + [Audit(now, fp, row.action, actor, DeclinedBy, NotRun)]
  {
    hide RunAlone;
    ghost var before := store.Actions();
    var row := store.GetPending(fp);
    if row.None? {
      AloneStep(before, DeclineReads(fp, actor, now), w, before, Finished);
      return;
    }
    store.SetDeclined(fp, actor);
    store.RecordAudit(Audit(now, fp, row.value.action, actor, DeclinedBy, NotRun));
    ghost var writes := DeclineWrites(fp, actor, now, row.value.action);
    ghost var audits := DeclineAudits(fp, actor, now, row.value.action);
    AloneStep(before, DeclineReads(fp, actor, now), w, before, writes);
    AloneStep(before, writes, w, Decline(before, fp, actor), audits);
    AloneStep(Decline(before, fp, actor), audits, w, store.Actions(), Finished);
  }
}
