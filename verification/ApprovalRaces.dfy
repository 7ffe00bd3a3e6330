/** What the approval machine's gaps let happen. */
module ApprovalRaces {
  // Between two statements: the command that runs is the one that was read, a re-offer opens a
  // second run, and a runner that raises leaves no record.

  import opened Text
  import opened Catalog
  import opened Shlex
  import opened Execute
  import opened PendingActions
  import opened Approval

  lemma {:induction false} StepFirst(s: System, m: Move, moves: seq<Move>)
    requires Enabled(s, m) && Runs(Step(s, m), moves)
    ensures Runs(s, [m] + moves) && Exec(s, [m] + moves) == Exec(Step(s, m), moves)
  {
    assert ([m] + moves)[1..] == moves;
  }

  // -- The command that runs is the one read ---------------------------------------------------------

  /** The remedy the step writes into the row of `fp`, if it is an offer's write. */
  function Writes(s: System, m: Move, fp: Fingerprint): Option<Remedy> {
    if m.Advance? && m.index < |s.threads| && s.threads[m.index].OfferWrites? && s.threads[m.index].fp == fp
    then Some(s.threads[m.index].action)
    else None
  }

  /** The last remedy an offer wrote into the row of `fp` during the run. */
  function LastWritten(s: System, moves: seq<Move>, fp: Fingerprint): Option<Remedy>
    requires Runs(s, moves)
    decreases |moves|
  {
    if moves == [] then None
    else
      var later := LastWritten(Step(s, moves[0]), moves[1..], fp);
      if later.Some? then later else Writes(s, moves[0], fp)
  }

  lemma StepRow(s: System, m: Move, fp: Fingerprint)
    requires Enabled(s, m) && fp in s.db.pending
    ensures fp in Step(s, m).db.pending
    ensures Step(s, m).db.pending[fp].action ==
            if Writes(s, m, fp).Some? then Writes(s, m, fp).value else s.db.pending[fp].action
  {
    hide Route, RunOutcome;
  }

  lemma {:induction false} RowFollowsOffers(s: System, moves: seq<Move>, fp: Fingerprint)
    requires Runs(s, moves) && fp in s.db.pending
    ensures var end, last := Exec(s, moves), LastWritten(s, moves, fp);
            fp in end.db.pending && end.db.pending[fp].action == if last.Some? then last.value else s.db.pending[fp].action
    decreases |moves|
  {
    hide Step, Writes;
    if moves != [] {
      StepRow(s, moves[0], fp);
      RowFollowsOffers(Step(s, moves[0]), moves[1..], fp);
    }
  }

  predicate Waits(moves: seq<Move>, i: nat) {
    forall k :: 0 <= k < |moves| && moves[k].Advance? ==> moves[k].index != i
  }

  lemma {:induction false} WaitingThread(s: System, moves: seq<Move>, i: nat)
    requires Runs(s, moves) && Waits(moves, i) && i < |s.threads|
    ensures i < |Exec(s, moves).threads| && Exec(s, moves).threads[i] == s.threads[i]
    decreases |moves|
  {
    hide Statement;
    if moves != [] {
      assert forall k :: 0 <= k < |moves[1..]| ==> moves[1..][k] == moves[k + 1];
      WaitingThread(Step(s, moves[0]), moves[1..], i);
    }
  }

  /** Between an approver's read and its claim anything may happen. Its claim, which looks at the
      status only, still runs the command it read; that is the remedy of the row it marks as
      approved if and only if the last offer written in between, if any, wrote the same one. */
  lemma {:induction false} ClaimedIsReadExactly(s: System, moves: seq<Move>, i: nat, fp: Fingerprint)
    requires Runs(s, moves) && Waits(moves, i) && i < |s.threads| && s.threads[i].ApproveClaims? && s.threads[i].fp == fp
    requires fp in s.db.pending && s.db.pending[fp].action == s.threads[i].action
    ensures var end := Exec(s, moves);
            && i < |end.threads| && end.threads[i] == s.threads[i] && fp in end.db.pending
            && (end.db.pending[fp].action == end.threads[i].action <==>
                LastWritten(s, moves, fp) in {None, Some(s.threads[i].action)})
  {
    RowFollowsOffers(s, moves, fp);
    WaitingThread(s, moves, i);
  }

  // -- Schedules ---------------------------------------------------------------------------------------

  /** A remedy any approver may run: no break-glass, no drift executor involved. */
  predicate Plain(action: Remedy) {
    !action.source.BreakGlassSource? && !action.source.DriftSource?
  }

  /** The offer of `first`, from a fresh store, up to an approver that has read it. */
  predicate ReadBy(s: System, fp: Fingerprint, action: Remedy, actor: string, now: Stamp) {
    && s.db == Db(map[fp := Row(action, PendingActions.Pending, now, None)], [])
    && s.threads == [Finished, ApproveClaims(fp, actor, now, action, ApprovedBy)]
  }

  lemma OfferAndRead(s: System, fp: Fingerprint, action: Remedy, actor: string, now: Stamp, w: World) returns (moves: seq<Move>)
    requires Fresh(s) && Plain(action)
    ensures Runs(s, moves) && ReadBy(Exec(s, moves), fp, action, actor, now)
  {
    hide RunOutcome, ActionForCommand;
    var offer, approve := Spawn(OfferReads(fp, action, now)), Spawn(ApproveReads(fp, actor, "", now));
    var go, look := Advance(0, w), Advance(1, w);
    var s1 := Step(s, offer);
    var s2 := Step(s1, go);
    var s3 := Step(s2, go);
    var s4 := Step(s3, approve);
    OneStep(s4, look);
    StepFirst(s3, approve, [look]);
    StepFirst(s2, go, [approve] + [look]);
    StepFirst(s1, go, [go] + ([approve] + [look]));
    StepFirst(s, offer, [go] + ([go] + ([approve] + [look])));
    moves := [offer] + ([go] + ([go] + ([approve] + [look])));
  }

  /** An approver runs one command while the row it marked approved holds another. */
  lemma ApprovedAnother(
    s: System, fp: Fingerprint, first: Remedy, second: Remedy, actor: string, now: Stamp, w: World) returns (moves: seq<Move>)
    requires Fresh(s) && Plain(first)
    ensures Runs(s, moves)
    ensures var end := Exec(s, moves);
            && fp in end.db.pending && end.db.pending[fp].status.Approved? && end.db.pending[fp].action == second
            && |end.threads| > 1 && end.threads[1] == ApproveRuns(fp, actor, now, first, ApprovedBy)
  {
    hide RunOutcome, Route;
    var before := OfferAndRead(s, fp, first, actor, now, w);
    var s0 := Exec(s, before);
    var offer, go, claim := Spawn(OfferReads(fp, second, now)), Advance(2, w), Advance(1, w);
    var s1 := Step(s0, offer);
    var s2 := Step(s1, go);
    var s3 := Step(s2, go);
    OneStep(s3, claim);
    StepFirst(s2, go, [claim]);
    StepFirst(s1, go, [go] + [claim]);
    StepFirst(s0, offer, [go] + ([go] + [claim]));
    ExecConcat(s, before, [offer] + ([go] + ([go] + [claim])));
    moves := before + ([offer] + ([go] + ([go] + [claim])));
  }

  /** A re-offer while a claimed run is under way lets a second approver in: two runs of one
      fingerprint in flight at once. */
  lemma TwoRunsInFlight(s: System, fp: Fingerprint, action: Remedy, actor: string, now: Stamp, w: World) returns (moves: seq<Move>)
    requires Fresh(s) && Plain(action)
    ensures Runs(s, moves)
    ensures Waiting(Exec(s, moves), fp) == 2
  {
    hide RunOutcome, ActionForCommand;
    var before := OfferAndRead(s, fp, action, actor, now, w);
    var s0 := Exec(s, before);
    var offer, approve := Spawn(OfferReads(fp, action, now)), Spawn(ApproveReads(fp, actor, "", now));
    var claim, go, again := Advance(1, w), Advance(2, w), Advance(3, w);
    var s1 := Step(s0, claim);
    var s2 := Step(s1, offer);
    var s3 := Step(s2, go);
    var s4 := Step(s3, go);
    var s5 := Step(s4, approve);
    var s6 := Step(s5, again);
    OneStep(s6, again);
    StepFirst(s5, again, [again]);
    StepFirst(s4, approve, [again] + [again]);
    StepFirst(s3, go, [approve] + ([again] + [again]));
    StepFirst(s2, go, [go] + ([approve] + ([again] + [again])));
    StepFirst(s1, offer, [go] + ([go] + ([approve] + ([again] + [again]))));
    StepFirst(s0, claim, [offer] + ([go] + ([go] + ([approve] + ([again] + [again])))));
    var rest := [claim] + ([offer] + ([go] + ([go] + ([approve] + ([again] + [again])))));
    ExecConcat(s, before, rest);
    moves := before + rest;
    var run := ApproveRuns(fp, actor, now, action, ApprovedBy);
    TwoWait(Exec(s, moves).threads, run, fp);
  }

  lemma TwoWait(threads: seq<Thread>, run: Thread, fp: Fingerprint)
    requires threads == [Finished, run, Finished, run] && AboutToRun(fp, run)
    ensures Count(threads, t => AboutToRun(fp, t)) == 2
  {
    CountPush([], Finished, t => AboutToRun(fp, t));
    CountPush([Finished], run, t => AboutToRun(fp, t));
    CountPush([Finished, run], Finished, t => AboutToRun(fp, t));
    CountPush([Finished, run, Finished], run, t => AboutToRun(fp, t));
    assert [] + [Finished] == [Finished] && [Finished] + [run] == [Finished, run]
        && [Finished, run] + [Finished] == [Finished, run, Finished] && [Finished, run, Finished] + [run] == threads;
  }

  // -- A claim without a record ----------------------------------------------------------------------------

  /** `run_cleanup` splits before it validates: it raises exactly on a command that does not split,
      and a vetted command always splits. */
  lemma CleanupRaisesExactly(wide: WideClass, command: string)
    ensures CleanupAttempt(wide, command).Raises? <==> ShlexSplit(command).None?
    ensures Validates(ReclaimEvicted, wide, command) ==> ShlexSplit(command).Some?
  {
    hide Validates, ShlexSplit;
    CleanupStartsVetted(wide, command);
  }

  /** An approved cleanup with an unclosed quote is claimed and leaves no audit row. */
  lemma CleanupCanCrash(s: System, fp: Fingerprint, action: Remedy, actor: string, now: Stamp, w: World) returns (moves: seq<Move>)
    requires Fresh(s) && action.source.CleanupSource? && ShlexSplit(action.command).None?
    ensures Runs(s, moves)
    ensures var end := Exec(s, moves);
            && |end.threads| > 1 && end.threads[1] == Crashed(fp) && end.db.audit == []
            && fp in end.db.pending && end.db.pending[fp].status.Approved?
  {
    hide ActionForCommand, ShlexSplit, Validates;
    var before := OfferAndRead(s, fp, action, actor, now, w);
    var s0 := Exec(s, before);
    var go := Advance(1, w);
    var s1 := Step(s0, go);
    OneStep(s1, go);
    StepFirst(s0, go, [go]);
    ExecConcat(s, before, [go] + [go]);
    moves := before + ([go] + [go]);
  }
}
