/** The approval protocol under concurrency. */
module Approval {
  // Any number of offering scans, approvers, decliners and unattended solution runs interleave
  // over one table and one audit log, one SQL statement at a time.

  import opened Text
  import opened Bounds
  import opened Catalog
  import opened Execute
  import opened PendingActions

  // -- Threads ---------------------------------------------------------------------------

  /** Where a thread is in its procedure, with the local variables it holds there. */
  datatype Thread =
    | OfferReads(fp: Fingerprint, action: Remedy, now: Stamp)
    | OfferWrites(fp: Fingerprint, action: Remedy, created: Stamp)
    | ApproveReads(fp: Fingerprint, actor: string, token: string, now: Stamp)
    | ApproveClaims(fp: Fingerprint, actor: string, now: Stamp, action: Remedy, decision: Decision)
    | ApproveRuns(fp: Fingerprint, actor: string, now: Stamp, action: Remedy, decision: Decision)
    | ApproveAudits(fp: Fingerprint, actor: string, now: Stamp, action: Remedy, decision: Decision, outcome: Outcome)
    | DeclineReads(fp: Fingerprint, actor: string, now: Stamp)
    | DeclineWrites(fp: Fingerprint, actor: string, now: Stamp, action: Remedy)
    | DeclineAudits(fp: Fingerprint, actor: string, now: Stamp, action: Remedy)
    | AutoRuns(fp: Fingerprint, now: Stamp, action: Remedy)
    | AutoAudits(fp: Fingerprint, now: Stamp, action: Remedy, outcome: Outcome)
    | Crashed(fp: Fingerprint)      // an executor raised after the claim: no audit row follows
    | Finished

  /** What a thread may find outside the store at one step. */
  datatype World = World(
    wide: WideClass,
    breakGlassUsers: set<string>,
    executorExists: bool,     // build_executor knows the source
    driftPresent: bool,       // the re-collected drifts still contain the fingerprint
    verified: bool,           // the executor's result
    applied: bool,
    raises: bool)             // the executor, or the re-collection, raised

  /** `apply_pending` from the row it read to the claim: the audit decision it will record, or
      None when it returns without touching anything. */
  function Route(action: Remedy, actor: string, token: string, w: World): Option<Decision> {
    match action.source
    case BreakGlassSource =>
      var matched := ActionForCommand(w.wide, action.command);
      var tier := if matched.Some? then ConfirmationTier(EnvelopeOf(matched.value), DEFAULT_BOUND) else 0;
      if actor !in w.breakGlassUsers || (tier >= 2 && token != action.identity) then None else Some(BreakGlassBy)
    case DriftSource(_) => if w.executorExists then Some(ApprovedBy) else None
    case _ => Some(ApprovedBy)
  }

  /** What the runner for this source attempts. A drift executor is not looked into; it is not
      called for a drift that is gone. */
  function AttemptOf(action: Remedy, w: World): Attempt {
    match action.source
    case BreakGlassSource => CatalogAttempt(w.wide, action.command, true)
    case CatalogSource => CatalogAttempt(w.wide, action.command, false)
    case CleanupSource => CleanupAttempt(w.wide, action.command)
    case SolutionSource => SolutionAttempt(w.wide, action.command)
    case DriftSource(_) => if w.driftPresent then Starts([]) else Refused
  }

  /** The outcome of the run, or None when it raised. */
  function RunOutcome(action: Remedy, w: World): Option<Outcome> {
    var attempt := AttemptOf(action, w);
    if w.raises || attempt.Raises? then None
    else if attempt.Refused? then Some(if action.source.DriftSource? then Noop else Failed)
    else
      match action.source
      case DriftSource(_) => Some(if w.verified then Verified else if w.applied then Applied else Failed)
      case SolutionSource => Some(if w.applied then Applied else Failed)
      case _ => Some(if w.applied then Verified else Failed)
  }

  // -- The machine -----------------------------------------------------------------------

  datatype System = System(db: Db, threads: seq<Thread>)

  /** One statement of one thread: the table after it and the thread after it. */
  function Statement(db: Db, t: Thread, w: World): (Db, Thread) {
    match t
    case OfferReads(fp, action, now) =>
      (match OfferStamp(db, fp, now)
       case None => (db, Finished)
       case Some(created) => (db, OfferWrites(fp, action, created)))
    case OfferWrites(fp, action, created) => (InsertOffer(db, fp, action, created), Finished)
    case ApproveReads(fp, actor, token, now) =>
      if !IsPending(db, fp) then (db, Finished)
      else
        var action := db.pending[fp].action;
        (match Route(action, actor, token, w)
         case None => (db, Finished)
         case Some(decision) => (db, ApproveClaims(fp, actor, now, action, decision)))
    case ApproveClaims(fp, actor, now, action, decision) =>
      var (after, won) := Claim(db, fp, actor);
      (after, if won then ApproveRuns(fp, actor, now, action, decision) else Finished)
    case ApproveRuns(fp, actor, now, action, decision) =>
      (match RunOutcome(action, w)
       case None => (db, Crashed(fp))
       case Some(outcome) => (db, ApproveAudits(fp, actor, now, action, decision, outcome)))
    case ApproveAudits(fp, actor, now, action, decision, outcome) =>
      (Append(db, Audit(now, fp, action, actor, decision, outcome)), Finished)
    case DeclineReads(fp, actor, now) =>
      if fp !in db.pending then (db, Finished) else (db, DeclineWrites(fp, actor, now, db.pending[fp].action))
    case DeclineWrites(fp, actor, now, action) => (Decline(db, fp, actor), DeclineAudits(fp, actor, now, action))
    case DeclineAudits(fp, actor, now, action) =>
      (Append(db, Audit(now, fp, action, actor, DeclinedBy, NotRun)), Finished)
    case AutoRuns(fp, now, action) =>
      (match RunOutcome(action, w)
       case None => (db, Crashed(fp))
       case Some(outcome) => (db, AutoAudits(fp, now, action, outcome)))
    case AutoAudits(fp, now, action, outcome) =>
      (Append(db, Audit(now, fp, action, "auto", ApprovedBy, outcome)), Finished)
    case Crashed(_) => (db, t)
    case Finished => (db, t)
  }

  /** A thread at the first line of one of the four procedures. */
  predicate IsEntry(t: Thread) {
    t.OfferReads? || t.ApproveReads? || t.DeclineReads? || (t.AutoRuns? && t.action.source.SolutionSource?)
  }

  /** The scheduler: start a procedure, or let one thread execute its next statement. */
  datatype Move = Spawn(thread: Thread) | Advance(index: nat, world: World)

  predicate Enabled(s: System, m: Move) {
    match m
    case Spawn(t) => IsEntry(t)
    case Advance(i, _) => i < |s.threads|
  }

  function Step(s: System, m: Move): System
    requires Enabled(s, m)
  {
    match m
    case Spawn(t) => s.(threads := s.threads + [t])
    case Advance(i, w) =>
      var (db, t) := Statement(s.db, s.threads[i], w);
      System(db, s.threads[i := t])
  }

  predicate Runs(s: System, moves: seq<Move>)
    decreases |moves|
  {
    moves == [] || (Enabled(s, moves[0]) && Runs(Step(s, moves[0]), moves[1..]))
  }

  /** The state after a run: every interleaving is some `moves`. */
  function Exec(s: System, moves: seq<Move>): System
    requires Runs(s, moves)
    decreases |moves|
  {
    if moves == [] then s else Exec(Step(s, moves[0]), moves[1..])
  }

  // -- What is counted -------------------------------------------------------------------

  /** How many steps of a run satisfy `p`. */
  function CountSteps(s: System, moves: seq<Move>, p: (System, Move) -> bool): nat
    requires Runs(s, moves)
    decreases |moves|
  {
    if moves == [] then 0
    else (if p(s, moves[0]) then 1 else 0) + CountSteps(Step(s, moves[0]), moves[1..], p)
  }

  /** The row enters PENDING. */
  predicate Enters(fp: Fingerprint, s: System, m: Move) {
    Enabled(s, m) && !IsPending(s.db, fp) && IsPending(Step(s, m).db, fp)
  }

  predicate ClaimSucceeds(fp: Fingerprint, db: Db, t: Thread) {
    t.ApproveClaims? && t.fp == fp && IsPending(db, fp)
  }

  /** An approver's claim succeeds. */
  predicate Claims(fp: Fingerprint, s: System, m: Move) {
    m.Advance? && m.index < |s.threads| && ClaimSucceeds(fp, s.db, s.threads[m.index])
  }

  /** A decline hits a pending row. */
  predicate DeclineHits(fp: Fingerprint, s: System, m: Move) {
    && m.Advance? && m.index < |s.threads| && s.threads[m.index].DeclineWrites?
    && s.threads[m.index].fp == fp && IsPending(s.db, fp)
  }

  /** A claimed command is handed to its runner. */
  predicate StartsRun(fp: Fingerprint, s: System, m: Move) {
    m.Advance? && m.index < |s.threads| && s.threads[m.index].ApproveRuns? && s.threads[m.index].fp == fp
  }

  /** An unattended solution run is started; it takes no claim. */
  predicate StartsAuto(fp: Fingerprint, s: System, m: Move) {
    m.Spawn? && m.thread.AutoRuns? && m.thread.fp == fp
  }

  /** Claimed (or unattended) but not audited: about to run, about to audit, or crashed. */
  predicate InFlight(fp: Fingerprint, t: Thread) {
    (t.ApproveRuns? || t.ApproveAudits? || t.AutoRuns? || t.AutoAudits? || t.Crashed?) && t.fp == fp
  }

  predicate AboutToRun(fp: Fingerprint, t: Thread) {
    t.ApproveRuns? && t.fp == fp
  }

  /** An audit row of a run, approved or break-glass. */
  predicate RunRow(fp: Fingerprint, entry: Audit) {
    entry.fingerprint == fp && (entry.decision.ApprovedBy? || entry.decision.BreakGlassBy?)
  }

  function Flying(s: System, fp: Fingerprint): nat {
    Count(s.threads, t => InFlight(fp, t))
  }

  function Waiting(s: System, fp: Fingerprint): nat {
    Count(s.threads, t => AboutToRun(fp, t))
  }

  function RunRows(db: Db, fp: Fingerprint): nat {
    Count(db.audit, entry => RunRow(fp, entry))
  }

  function OneIf(b: bool): nat {
    if b then 1 else 0
  }

  // -- The ledger ------------------------------------------------------------------------

  /** The decision a thread will record is the one its source calls for. */
  predicate Sane(t: Thread) {
    (t.ApproveClaims? || t.ApproveRuns? || t.ApproveAudits?) ==>
      t.decision == if t.action.source.BreakGlassSource? then BreakGlassBy else ApprovedBy
  }

  predicate AllSane(s: System) {
    forall i :: 0 <= i < |s.threads| ==> Sane(s.threads[i])
  }

  lemma StepSane(s: System, m: Move)
    requires Enabled(s, m) && AllSane(s)
    ensures AllSane(Step(s, m))
  {
  }

  lemma LedgerStepRows(s: System, m: Move, fp: Fingerprint)
    requires Enabled(s, m)
    ensures OneIf(IsPending(s.db, fp)) + OneIf(Enters(fp, s, m)) ==
            OneIf(IsPending(Step(s, m).db, fp)) + OneIf(Claims(fp, s, m)) + OneIf(DeclineHits(fp, s, m))
  {
  }

  lemma StatementRuns(db: Db, t: Thread, w: World, fp: Fingerprint)
    requires Sane(t)
    ensures var (after, next) := Statement(db, t, w);
            && RunRows(after, fp) + OneIf(InFlight(fp, next)) ==
               RunRows(db, fp) + OneIf(InFlight(fp, t)) + OneIf(ClaimSucceeds(fp, db, t))
            && OneIf(AboutToRun(fp, next)) == OneIf(ClaimSucceeds(fp, db, t))
            && db.audit <= after.audit
  {
    var (after, next) := Statement(db, t, w);
    if t.ApproveAudits? || t.AutoAudits? || t.DeclineAudits? {
      CountPush(db.audit, after.audit[|db.audit|], entry => RunRow(fp, entry));
    }
  }

  lemma LedgerStepRuns(s: System, m: Move, fp: Fingerprint)
    requires Enabled(s, m) && AllSane(s)
    ensures RunRows(Step(s, m).db, fp) + Flying(Step(s, m), fp) ==
            RunRows(s.db, fp) + Flying(s, fp) + OneIf(Claims(fp, s, m)) + OneIf(StartsAuto(fp, s, m))
    ensures Waiting(Step(s, m), fp) + OneIf(StartsRun(fp, s, m)) == Waiting(s, fp) + OneIf(Claims(fp, s, m))
    ensures s.db.audit <= Step(s, m).db.audit
  {
    match m
    case Spawn(t) =>
      CountPush(s.threads, t, t => InFlight(fp, t));
      CountPush(s.threads, t, t => AboutToRun(fp, t));
    case Advance(i, w) =>
      StatementRuns(s.db, s.threads[i], w, fp);
      var (db, t) := Statement(s.db, s.threads[i], w);
      CountUpdate(s.threads, i, t, t => InFlight(fp, t));
      CountUpdate(s.threads, i, t, t => AboutToRun(fp, t));
  }

  /** The whole ledger, for every run from every state. Per fingerprint: every entry into
      PENDING is used up by exactly one successful claim or one decline, or is still there;
      every successful claim and every unattended run is one audit row or is still in flight
      (or crashed); every claim is run at most once; and the audit log is only extended. */
  lemma {:induction false} Ledger(s: System, moves: seq<Move>, fp: Fingerprint)
    requires Runs(s, moves) && AllSane(s)
    ensures var end := Exec(s, moves);
            var entered := CountSteps(s, moves, (s, m) => Enters(fp, s, m));
            var claimed := CountSteps(s, moves, (s, m) => Claims(fp, s, m));
            var declined := CountSteps(s, moves, (s, m) => DeclineHits(fp, s, m));
            var ran := CountSteps(s, moves, (s, m) => StartsRun(fp, s, m));
            var autos := CountSteps(s, moves, (s, m) => StartsAuto(fp, s, m));
            && OneIf(IsPending(s.db, fp)) + entered == OneIf(IsPending(end.db, fp)) + claimed + declined
            && RunRows(end.db, fp) + Flying(end, fp) == RunRows(s.db, fp) + Flying(s, fp) + claimed + autos
            && Waiting(end, fp) + ran == Waiting(s, fp) + claimed
            && s.db.audit <= end.db.audit
    decreases |moves|
  {
    if moves != [] {
      var next := Step(s, moves[0]);
      LedgerStepRows(s, moves[0], fp);
      LedgerStepRuns(s, moves[0], fp);
      StepSane(s, moves[0]);
      Ledger(next, moves[1..], fp);
    }
  }

  /** A fresh deployment. */
  predicate Fresh(s: System) {
    s.db == Db(map[], []) && s.threads == []
  }

  /** From a fresh store: a fingerprint is never run by an approver more often than it was
      put up for approval, whatever the interleaving. */
  lemma {:induction false} RunsNeverExceedOffers(s: System, moves: seq<Move>, fp: Fingerprint)
    requires Fresh(s) && Runs(s, moves)
    ensures CountSteps(s, moves, (s, m) => StartsRun(fp, s, m)) <= CountSteps(s, moves, (s, m) => Enters(fp, s, m))
  {
    Ledger(s, moves, fp);
  }

  /** While nothing is put up for approval again, at most one approver gets to run. */
  lemma {:induction false} AtMostOneClaimPerOffer(s: System, moves: seq<Move>, fp: Fingerprint)
    requires Runs(s, moves) && AllSane(s)
    requires CountSteps(s, moves, (s, m) => Enters(fp, s, m)) == 0
    ensures CountSteps(s, moves, (s, m) => Claims(fp, s, m)) <= 1
  {
    Ledger(s, moves, fp);
  }

  // -- Declined is absorbing, exactly when no offer is past its read ---------------------------

  /** Some scan has read the row of `fp` (not declined at that time) and has yet to write. */
  predicate OfferPastRead(s: System, fp: Fingerprint) {
    exists i :: 0 <= i < |s.threads| && s.threads[i].OfferWrites? && s.threads[i].fp == fp
  }

  lemma DeclinedStep(s: System, m: Move, fp: Fingerprint)
    requires Enabled(s, m) && IsDeclined(s.db, fp) && !OfferPastRead(s, fp)
    ensures IsDeclined(Step(s, m).db, fp) && !OfferPastRead(Step(s, m), fp)
    ensures !Claims(fp, s, m) && !Enters(fp, s, m)
  {
    var threads := Step(s, m).threads;
    forall i | 0 <= i < |threads| ensures !(threads[i].OfferWrites? && threads[i].fp == fp) {
      assert i < |s.threads| ==> !(s.threads[i].OfferWrites? && s.threads[i].fp == fp);
    }
  }

  /** Through any continuation the row stays declined, is never pending and is never claimed,
      even while a run claimed earlier is still in flight. */
  lemma {:induction false} DeclinedStays(s: System, moves: seq<Move>, fp: Fingerprint)
    requires Runs(s, moves) && IsDeclined(s.db, fp) && !OfferPastRead(s, fp)
    ensures IsDeclined(Exec(s, moves).db, fp)
    ensures CountSteps(s, moves, (s, m) => Claims(fp, s, m)) == 0
    ensures CountSteps(s, moves, (s, m) => Enters(fp, s, m)) == 0
    decreases |moves|
  {
    if moves != [] {
      DeclinedStep(s, moves[0], fp);
      DeclinedStays(Step(s, moves[0]), moves[1..], fp);
    }
  }

  /** `record_pending` reads and then replaces in two statements, so a decline that lands
      between them is lost. A declined row is safe in every continuation exactly when no such
      offer is in flight. */
  lemma {:induction false} DeclinedAbsorbing(s: System, fp: Fingerprint, w: World)
    requires IsDeclined(s.db, fp)
    ensures (forall moves :: Runs(s, moves) ==> IsDeclined(Exec(s, moves).db, fp)) <==> !OfferPastRead(s, fp)
  {
    if OfferPastRead(s, fp) {
      var i :| 0 <= i < |s.threads| && s.threads[i].OfferWrites? && s.threads[i].fp == fp;
      var m := Advance(i, w);
      assert IsPending(Step(s, m).db, fp);
      OneStep(s, m);
    } else {
      forall moves | Runs(s, moves) ensures IsDeclined(Exec(s, moves).db, fp) {
        DeclinedStays(s, moves, fp);
      }
    }
  }

  lemma {:induction false} OneStep(s: System, m: Move)
    requires Enabled(s, m)
    ensures Runs(s, [m]) && Exec(s, [m]) == Step(s, m)
  {
    assert [m][1..] == [];
  }

  lemma {:induction false} ExecConcat(s: System, a: seq<Move>, b: seq<Move>)
    requires Runs(s, a) && Runs(Exec(s, a), b)
    ensures Runs(s, a + b) && Exec(s, a + b) == Exec(Exec(s, a), b)
    decreases |a|
  {
    if a == [] {
      assert a + b == b;
    } else {
      assert (a + b)[1..] == a[1..] + b;
      ExecConcat(Step(s, a[0]), a[1..], b);
    }
  }

  lemma {:induction false} ExecOneMore(s: System, moves: seq<Move>, m: Move)
    requires Runs(s, moves) && Enabled(Exec(s, moves), m)
    ensures Runs(s, moves + [m]) && Exec(s, moves + [m]) == Step(Exec(s, moves), m)
  {
    OneStep(Exec(s, moves), m);
    ExecConcat(s, moves, [m]);
  }

  /** The lost decline happens: from a fresh store, a second scan that reads before the decline
      and writes after it puts the declined remediation up for approval again. */
  lemma DeclineCanBeLost(s: System, fp: Fingerprint, action: Remedy, actor: string, now: Stamp, w: World)
      returns (before: seq<Move>, last: Move)
    requires Fresh(s)
    ensures Runs(s, before) && IsDeclined(Exec(s, before).db, fp)
    ensures Runs(s, before + [last]) && IsPending(Exec(s, before + [last]).db, fp)
  {
    var offer := Spawn(OfferReads(fp, action, now));
    var decline := Spawn(DeclineReads(fp, actor, now));
    var schedule := [offer, Advance(0, w), Advance(0, w), offer, Advance(1, w), decline, Advance(2, w), Advance(2, w)];
    before := [];
    var state := s;
    for k := 0 to |schedule|
      invariant Runs(s, before) && Exec(s, before) == state
      invariant k <= 2 ==> state.db == s.db
      invariant k == 0 ==> state.threads == []
      invariant k == 1 ==> state.threads == [offer.thread]
      invariant k == 2 ==> state.threads == [OfferWrites(fp, action, now)]
      invariant k == 3 ==> state.threads == [Finished]
      invariant 3 <= k <= 7 ==> state.db.pending == map[fp := Row(action, PendingActions.Pending, now, None)]
      invariant k == 4 ==> state.threads == [Finished, offer.thread]
      invariant k == 5 ==> state.threads == [Finished, OfferWrites(fp, action, now)]
      invariant k == 6 ==> state.threads == [Finished, OfferWrites(fp, action, now), decline.thread]
      invariant k == 7 ==> state.threads == [Finished, OfferWrites(fp, action, now), DeclineWrites(fp, actor, now, action)]
      invariant k == 8 ==> |state.threads| == 3 && state.threads[1] == OfferWrites(fp, action, now) && IsDeclined(state.db, fp)
    {
      ExecOneMore(s, before, schedule[k]);
      before := before + [schedule[k]];
      state := Step(state, schedule[k]);
    }
    last := Advance(1, w);
    ExecOneMore(s, before, last);
  }

  // -- What runs was offered, and the record of it is honest ------------------------------------

  /** The remediations a move puts up for a fingerprint. */
  predicate Offers(moves: seq<Move>, fp: Fingerprint, action: Remedy) {
    exists i :: 0 <= i < |moves| && moves[i].Spawn? && moves[i].thread.OfferReads?
                && moves[i].thread.fp == fp && moves[i].thread.action == action
  }

  predicate HoldsRemedy(t: Thread) {
    t.OfferReads? || t.OfferWrites? || t.ApproveClaims? || t.ApproveRuns? || t.ApproveAudits?
    || t.DeclineWrites? || t.DeclineAudits?
  }

  /** Everything stored, held by a thread or logged was offered for its fingerprint, the
      recorded decision fits its source, and break-glass is only held by allowed users. */
  ghost predicate Honest(s: System, offered: iset<(Fingerprint, Remedy)>, users: set<string>) {
    && (forall fp :: fp in s.db.pending ==> (fp, s.db.pending[fp].action) in offered)
    && (forall i :: 0 <= i < |s.threads| ==> HonestThread(s.threads[i], offered, users))
    && (forall i :: 0 <= i < |s.db.audit| ==> HonestEntry(s.db.audit[i], offered, users))
  }

  ghost predicate HonestThread(t: Thread, offered: iset<(Fingerprint, Remedy)>, users: set<string>) {
    && Sane(t)
    && (HoldsRemedy(t) ==> (t.fp, t.action) in offered)
    && ((t.AutoRuns? || t.AutoAudits?) ==> t.action.source.SolutionSource?)
    && ((t.ApproveAudits? || t.AutoAudits?) ==> !t.outcome.NotRun?)
    && ((t.ApproveClaims? || t.ApproveRuns? || t.ApproveAudits?) && t.decision.BreakGlassBy? ==> t.actor in users)
  }

  ghost predicate HonestEntry(e: Audit, offered: iset<(Fingerprint, Remedy)>, users: set<string>) {
    && ((e.fingerprint, e.action) in offered || (e.actor == "auto" && e.action.source.SolutionSource?))
    && (e.decision.BreakGlassBy? ==> e.actor in users && e.action.source.BreakGlassSource?)
    && (e.decision.ApprovedBy? ==> !e.action.source.BreakGlassSource?)
    && (e.decision.DeclinedBy? <==> e.outcome.NotRun?)
  }

  ghost predicate MoveWithin(m: Move, offered: iset<(Fingerprint, Remedy)>, users: set<string>) {
    match m
    case Spawn(t) => t.OfferReads? ==> (t.fp, t.action) in offered
    case Advance(_, w) => w.breakGlassUsers <= users
  }

  lemma StatementHonestThread(s: System, t: Thread, w: World, offered: iset<(Fingerprint, Remedy)>, users: set<string>)
    requires Honest(s, offered, users) && HonestThread(t, offered, users) && w.breakGlassUsers <= users
    ensures HonestThread(Statement(s.db, t, w).1, offered, users)
  {
  }

  lemma StatementHonestTable(s: System, t: Thread, w: World, offered: iset<(Fingerprint, Remedy)>, users: set<string>)
    requires Honest(s, offered, users) && HonestThread(t, offered, users)
    ensures var db := Statement(s.db, t, w).0;
            && (forall fp :: fp in db.pending ==> (fp, db.pending[fp].action) in offered)
            && forall i :: 0 <= i < |db.audit| ==> HonestEntry(db.audit[i], offered, users)
  {
  }

  lemma StepHonest(s: System, m: Move, offered: iset<(Fingerprint, Remedy)>, users: set<string>)
    requires Enabled(s, m) && Honest(s, offered, users) && MoveWithin(m, offered, users)
    ensures Honest(Step(s, m), offered, users)
  {
    if m.Advance? {
      StatementHonestThread(s, s.threads[m.index], m.world, offered, users);
      StatementHonestTable(s, s.threads[m.index], m.world, offered, users);
    }
  }

  lemma {:induction false} RunHonest(s: System, moves: seq<Move>, offered: iset<(Fingerprint, Remedy)>, users: set<string>)
    requires Runs(s, moves) && Honest(s, offered, users)
    requires forall i :: 0 <= i < |moves| ==> MoveWithin(moves[i], offered, users)
    ensures Honest(Exec(s, moves), offered, users)
    decreases |moves|
  {
    if moves != [] {
      StepHonest(s, moves[0], offered, users);
      RunHonest(Step(s, moves[0]), moves[1..], offered, users);
    }
  }

  /** In every interleaving from a fresh store: whatever an approver is about to run was
      offered for that very fingerprint during the run; an approver under break-glass is on
      the allow-list; and if a command-type source starts a process, some catalog action
      vets the command and its envelope is within the default bound or the run is recorded
      as break-glass. */
  lemma {:induction false} OnlyOfferedVettedRuns(s: System, moves: seq<Move>, users: set<string>, i: nat, w: World)
    requires Fresh(s) && Runs(s, moves)
    requires forall k :: 0 <= k < |moves| && moves[k].Advance? ==> moves[k].world.breakGlassUsers <= users
    requires i < |Exec(s, moves).threads| && Exec(s, moves).threads[i].ApproveRuns?
    ensures var t := Exec(s, moves).threads[i];
            && Offers(moves, t.fp, t.action)
            && (t.decision.BreakGlassBy? ==> t.actor in users)
            && (AttemptOf(t.action, w).Starts? && !t.action.source.DriftSource? && !t.action.source.SolutionSource? ==>
                exists a :: Validates(a, w.wide, t.action.command)
                            && (t.decision.BreakGlassBy? || WithinBounds(EnvelopeOf(a), DEFAULT_BOUND)))
  {
    var offered := iset fp, action | Offers(moves, fp, action) :: (fp, action);
    forall k | 0 <= k < |moves| ensures MoveWithin(moves[k], offered, users) {
      if moves[k].Spawn? && moves[k].thread.OfferReads? {
        assert Offers(moves, moves[k].thread.fp, moves[k].thread.action);
      }
    }
    RunHonest(s, moves, offered, users);
    var t := Exec(s, moves).threads[i];
    assert HonestThread(t, offered, users);
    CatalogStartsVetted(w.wide, t.action.command, t.action.source.BreakGlassSource?);
    CleanupStartsVetted(w.wide, t.action.command);
    assert WithinBounds(EnvelopeOf(ReclaimEvicted), DEFAULT_BOUND);
  }
}
