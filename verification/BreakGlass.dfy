/** The friction of break-glass. */
module BreakGlass {
  // Who may break the glass, and what must be typed to confirm it.

  import opened Text
  import opened Bounds
  import opened Catalog
  import opened Shlex
  import opened Workflow
  import opened Execute
  import opened PendingActions
  import opened Approval
  import opened Approve

  // -- What the checks before the claim ask for -------------------------------------------------

  lemma NodeNeedsTyping(wide: WideClass, command: string)
    ensures var matched := ActionForCommand(wide, command);
            matched.Some? && ConfirmationTier(EnvelopeOf(matched.value), DEFAULT_BOUND) >= 2
            <==> Validates(DeleteNode, wide, command)
  {
    hide Validates, ActionForCommand, ConfirmationTier, WithinBounds;
    var matched := ActionForCommand(wide, command);
    if matched.Some? {
      ActionForCommandExact(wide, command, matched.value);
      TierExactly(EnvelopeOf(matched.value), DEFAULT_BOUND);
      WithinExactly(EnvelopeOf(matched.value), DEFAULT_BOUND);
      NodeTier(matched.value);
    }
    ActionForCommandExact(wide, command, DeleteNode);
  }

  lemma NodeTier(a: Action)
    ensures ConfirmationTier(EnvelopeOf(a), DEFAULT_BOUND) >= 2 <==> a.DeleteNode?
  {
  }

  /** A break-glass row is approved exactly by the allowed users, and if its command is a vetted node
      deletion exactly when the target was typed. Every other row needs no confirmation, and a
      drift an executor. */
  lemma RouteExactly(action: Remedy, actor: string, token: string, w: World)
    ensures action.source.BreakGlassSource? ==>
              (Route(action, actor, token, w) == Some(BreakGlassBy) <==>
               actor in w.breakGlassUsers && (Validates(DeleteNode, w.wide, action.command) ==> token == action.identity))
    ensures action.source.BreakGlassSource? || (action.source.DriftSource? && !w.executorExists) ==>
              Route(action, actor, token, w) in {None, Some(BreakGlassBy)}
    ensures Route(action, actor, token, w) == Some(ApprovedBy) <==>
              !action.source.BreakGlassSource? && (action.source.DriftSource? ==> w.executorExists)
  {
    hide Validates, ActionForCommand, ConfirmationTier;
    NodeNeedsTyping(w.wide, action.command);
  }

  /** Approving a vetted node deletion without typing its target, or as someone who is not allowed,
      touches nothing and starts nothing. */
  lemma {:induction false} UntypedChangesNothing(db: Db, fp: Fingerprint, actor: string, token: string, now: Stamp, w: World)
    requires IsPending(db, fp) && db.pending[fp].action.source.BreakGlassSource?
    requires actor !in w.breakGlassUsers
             || (Validates(DeleteNode, w.wide, db.pending[fp].action.command) && token != db.pending[fp].action.identity)
    ensures RunAlone(db, ApproveReads(fp, actor, token, now), w) == (db, Finished, [])
  {
    hide RunAlone, Route, Validates;
    RouteExactly(db.pending[fp].action, actor, token, w);
    ApproveUntouched(db, fp, actor, token, now, w);
  }

  // -- What a run comes to -----------------------------------------------------------------------------

  /** The outcome of a run, source by source, and what is started for it: a raise has none; a drift
      that is gone is a no-op, a drift's executor reports for itself; an authored command is at most
      applied; a vetted command is verified when it succeeds, and everything refused has failed. */
  lemma OutcomeExactly(action: Remedy, w: World)
    ensures var outcome, split := RunOutcome(action, w), ShlexSplit(action.command);
            var succeeds := if w.applied then Some(Verified) else Some(Failed);
            match action.source
            case DriftSource(_) =>
              outcome == (if w.raises then None else if !w.driftPresent then Some(Noop)
                          else if w.verified then Some(Verified) else if w.applied then Some(Applied) else Some(Failed))
            case SolutionSource =>
              outcome == (if w.raises || split.None? then None
                          else if SolutionAttempt(w.wide, action.command).Starts? && w.applied then Some(Applied) else Some(Failed))
            case CleanupSource =>
              outcome == (if w.raises || split.None? then None
                          else if Validates(ReclaimEvicted, w.wide, action.command) then succeeds else Some(Failed))
            case CatalogSource =>
              outcome == (if w.raises then None
                          else if exists a :: Harmless(a) && Validates(a, w.wide, action.command) then succeeds else Some(Failed))
            case BreakGlassSource =>
              outcome == (if w.raises then None
                          else if exists a :: Validates(a, w.wide, action.command) then succeeds else Some(Failed))
    ensures AttemptOf(action, w).Starts? && !action.source.DriftSource? ==>
              ShlexSplit(action.command) == Some(AttemptOf(action, w).argv)
  {
    hide Validates, ShlexSplit, IsSpec, Split;
    CatalogStartsVetted(w.wide, action.command, true);
    UnattendedStartsExactly(w.wide, action.command);
    CleanupStartsVetted(w.wide, action.command);
    CatalogStartsVetted(w.wide, action.command, false);
    assert (exists a :: Harmless(a) && Validates(a, w.wide, action.command)) <==>
           Validates(ReclaimEvicted, w.wide, action.command) || Validates(DeleteCompleted, w.wide, action.command)
           || Validates(RolloutRestart, w.wide, action.command);
  }

  // -- In every interleaving ------------------------------------------------------------------------

  /** The threads a run starts, in order: the i-th becomes thread i. */
  function Spawned(moves: seq<Move>): seq<Thread> {
    if moves == [] then []
    else Spawned(moves[..|moves| - 1]) + if moves[|moves| - 1].Spawn? then [moves[|moves| - 1].thread] else []
  }

  predicate PastRead(t: Thread) {
    t.ApproveClaims? || t.ApproveRuns? || t.ApproveAudits?
  }

  /** What a thread owes to the approval it began as. */
  predicate Typed(t: Thread, began: Thread, wide: WideClass) {
    && (t.ApproveReads? ==> began == t)
    && (PastRead(t) ==> began.ApproveReads? && began.fp == t.fp && began.actor == t.actor && began.now == t.now)
    && (PastRead(t) && t.action.source.BreakGlassSource? && Validates(DeleteNode, wide, t.action.command) ==>
          began.token == t.action.identity)
  }

  ghost predicate OneClass(moves: seq<Move>, wide: WideClass) {
    forall i :: 0 <= i < |moves| && moves[i].Advance? ==> moves[i].world.wide == wide
  }

  lemma StatementTyped(db: Db, t: Thread, began: Thread, w: World)
    requires Typed(t, began, w.wide)
    ensures Typed(Statement(db, t, w).1, began, w.wide)
  {
    hide Route, RunOutcome, Validates;
    if t.ApproveReads? && IsPending(db, t.fp) { RouteExactly(db.pending[t.fp].action, t.actor, t.token, w); }
  }

  lemma {:induction false} ThreadsTyped(s: System, moves: seq<Move>, wide: WideClass)
    requires Fresh(s) && Runs(s, moves) && OneClass(moves, wide)
    ensures var threads := Exec(s, moves).threads;
            |threads| == |Spawned(moves)| && forall i :: 0 <= i < |threads| ==> Typed(threads[i], Spawned(moves)[i], wide)
    decreases |moves|
  {
    hide Statement, Typed;
    if moves != [] {
      var n := |moves| - 1;
      var before, m := moves[..n], moves[n];
      assert moves == before + [m];
      RunsPrefix(s, before, m);
      assert forall i :: 0 <= i < n ==> before[i] == moves[i];
      ThreadsTyped(s, before, wide);
      var at := Exec(s, before);
      ExecOneMore(s, before, m);
      match m
      case Spawn(t) => assert Typed(t, t, wide) by { EntryTyped(t, wide); }
      case Advance(i, w) => StatementTyped(at.db, at.threads[i], Spawned(before)[i], w);
    }
  }

  lemma EntryTyped(t: Thread, wide: WideClass)
    requires IsEntry(t)
    ensures Typed(t, t, wide)
  {
  }

  lemma {:induction false} RunsPrefix(s: System, before: seq<Move>, m: Move)
    requires Runs(s, before + [m])
    ensures Runs(s, before) && Enabled(Exec(s, before), m)
    decreases |before|
  {
    hide Step, Enabled;
    var moves := before + [m];
    if before == [] {
      assert moves[0] == m;
    } else {
      assert moves[0] == before[0] && moves[1..] == before[1..] + [m];
      RunsPrefix(Step(s, before[0]), before[1..], m);
    }
  }

  /** In every interleaving from a fresh store: a break-glass run of a vetted node deletion was begun
      by an approval of that fingerprint that typed the very target of the action it runs. */
  lemma {:induction false} NodeDeletionWasTyped(s: System, moves: seq<Move>, wide: WideClass, i: nat)
    requires Fresh(s) && Runs(s, moves) && OneClass(moves, wide)
    requires i < |Exec(s, moves).threads| && PastRead(Exec(s, moves).threads[i])
    requires Exec(s, moves).threads[i].decision.BreakGlassBy?
    requires Validates(DeleteNode, wide, Exec(s, moves).threads[i].action.command)
    ensures var t := Exec(s, moves).threads[i];
            && i < |Spawned(moves)| && Spawned(moves)[i] == ApproveReads(t.fp, t.actor, t.action.identity, t.now)
  {
    hide Validates, Exec, Runs;
    ThreadsTyped(s, moves, wide);
    DecisionFits(s, moves, i);
    assert Typed(Exec(s, moves).threads[i], Spawned(moves)[i], wide);
  }

  lemma {:induction false} DecisionFits(s: System, moves: seq<Move>, i: nat)
    requires Runs(s, moves) && AllSane(s) && i < |Exec(s, moves).threads|
    ensures Sane(Exec(s, moves).threads[i])
    decreases |moves|
  {
    hide Step, Enabled, Sane;
    if moves != [] {
      StepSane(s, moves[0]);
      DecisionFits(Step(s, moves[0]), moves[1..], i);
    }
  }
}
