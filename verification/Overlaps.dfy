/** Runbook scans that overlap. */
module Overlaps {
  // Each reads once which fingerprints were acted on, and then works through its report while the
  // others do the same.

  import opened Text
  import opened Execute
  import opened Reports
  import opened Offers
  import P = PendingActions
  import A = Approval

  // -- The machine -------------------------------------------------------------------------------

  datatype Visitor =
    | Begins(ss: seq<Symptom>, k: Runbook, now: P.Stamp)
    | Solves(todo: seq<Symptom>, k: Runbook, already: set<P.Fingerprint>, now: P.Stamp)
    | Logs(entry: P.Audit, todo: seq<Symptom>, k: Runbook, already: set<P.Fingerprint>, now: P.Stamp)
    | Died                                  // a runner raised, or an entry did not split

  datatype System = System(log: seq<P.Audit>, visitors: seq<Visitor>)

  datatype Move =
    | Arrive(ss: seq<Symptom>, k: Runbook, now: P.Stamp)
    | Go(index: nat, world: A.World)
    | Elsewhere(entry: P.Audit)             // anything that is not an unattended run of a solution logs

  /** One step of one scan: read what was acted on, decide and run one symptom, or log a run. */
  function Statement(log: seq<P.Audit>, v: Visitor, w: A.World): (seq<P.Audit>, Visitor) {
    match v
    case Begins(ss, k, now) => (log, Solves(ss, k, AlreadyActed(log, k), now))
    case Solves(todo, k, already, now) =>
      if todo == [] then (log, v)
      else
        (match ChoiceFor(todo[0], k, already)
         case AutoRun(action, _) =>
           (match A.RunOutcome(action, w)
            case None => (log, Died)
            case Some(outcome) =>
              (log, Logs(P.Audit(now, todo[0].fp, action, "auto", P.ApprovedBy, outcome), todo[1..], k, already, now)))
         case Break => (log, Died)
         case _ => (log, Solves(todo[1..], k, already, now)))
    case Logs(entry, todo, k, already, now) => (log + [entry], Solves(todo, k, already, now))
    case Died => (log, v)
  }

  /** What a `\w` is does not change under way. */
  ghost predicate KnowsClasses(v: Visitor, w: A.World) {
    v.Died? || w.wide == v.k.wide
  }

  ghost predicate Enabled(s: System, m: Move) {
    match m
    case Arrive(_, _, _) => true
    case Go(i, w) => i < |s.visitors| && KnowsClasses(s.visitors[i], w)
    case Elsewhere(entry) => entry.actor != "auto" || !entry.action.source.SolutionSource?
  }

  function Step(s: System, m: Move): System
    requires Enabled(s, m)
  {
    match m
    case Arrive(ss, k, now) => s.(visitors := s.visitors + [Begins(ss, k, now)])
    case Go(i, w) =>
      var (log, v) := Statement(s.log, s.visitors[i], w);
      System(log, s.visitors[i := v])
    case Elsewhere(entry) => s.(log := s.log + [entry])
  }

  ghost predicate Runs(s: System, moves: seq<Move>)
    decreases |moves|
  {
    |moves| == 0 || (Enabled(s, moves[0]) && Runs(Step(s, moves[0]), moves[1..]))
  }

  ghost function Exec(s: System, moves: seq<Move>): System
    requires Runs(s, moves)
    decreases |moves|
  {
    if |moves| == 0 then s else Exec(Step(s, moves[0]), moves[1..])
  }

  // -- Who can still succeed -------------------------------------------------------------------------

  predicate Splits(k: Runbook, action: P.Remedy) {
    !SolutionAttempt(k.wide, action.command).Raises?
  }

  /** The scan gets past the symptom: its entry splits, and so does a command it runs. */
  predicate Passes(s: Symptom, k: Runbook, already: set<P.Fingerprint>) {
    var choice := ChoiceFor(s, k, already);
    !choice.Break? && (choice.AutoRun? ==> Splits(k, choice.action))
  }

  /** The j-th symptom ahead carries `fp`, was not known as acted on when the scan read, is to be
      run and can be started; and nothing before it must raise. */
  predicate Fires(todo: seq<Symptom>, k: Runbook, already: set<P.Fingerprint>, j: nat, fp: P.Fingerprint) {
    && j < |todo| && todo[j].fp == fp && ChoiceFor(todo[j], k, already).AutoRun?
    && SolutionAttempt(k.wide, ChoiceFor(todo[j], k, already).action.command).Starts?
    && forall i :: 0 <= i < j ==> Passes(todo[i], k, already)
  }

  /** The scan can still add an unattended success of `fp`, although one is logged already: it
      read before that. */
  ghost predicate Armed(v: Visitor, fp: P.Fingerprint) {
    match v
    case Begins(_, _, _) => false
    case Solves(todo, k, already, _) => exists j: nat :: Fires(todo, k, already, j, fp)
    case Logs(entry, todo, k, already, _) => AutoSuccess(entry, fp) || exists j: nat :: Fires(todo, k, already, j, fp)
    case Died => false
  }

  /** Everything goes well. */
  function Obliging(w: A.World, k: Runbook): A.World {
    w.(wide := k.wide, raises := false, applied := true)
  }

  lemma SolutionOutcome(k: Runbook, action: P.Remedy, w: A.World)
    requires action.source.SolutionSource?
    ensures w.wide == k.wide && A.RunOutcome(action, w).Some? ==> Splits(k, action)
    ensures w.wide == k.wide && A.RunOutcome(action, w) in {Some(P.Verified), Some(P.Applied)} ==>
              SolutionAttempt(k.wide, action.command).Starts?
    ensures Splits(k, action) ==> A.RunOutcome(action, Obliging(w, k)).Some?
    ensures SolutionAttempt(k.wide, action.command).Starts? ==> A.RunOutcome(action, Obliging(w, k)) == Some(P.Applied)
  {
    hide SolutionAttempt, CatalogAttempt, CleanupAttempt;
  }

  lemma FiresLater(todo: seq<Symptom>, k: Runbook, already: set<P.Fingerprint>, j: nat, fp: P.Fingerprint)
    requires todo != [] && Fires(todo[1..], k, already, j, fp)
    requires Passes(todo[0], k, already)
    ensures Fires(todo, k, already, j + 1, fp)
  {
    hide ChoiceFor, Passes;
    assert forall i :: 0 <= i < |todo[1..]| ==> todo[1..][i] == todo[i + 1];
    forall i | 0 <= i < j + 1 ensures Passes(todo[i], k, already) {
      if i > 0 { assert todo[i] == todo[1..][i - 1]; }
    }
  }

  lemma FiresEarlier(todo: seq<Symptom>, k: Runbook, already: set<P.Fingerprint>, j: nat, fp: P.Fingerprint)
    requires j > 0 && Fires(todo, k, already, j, fp)
    ensures Fires(todo[1..], k, already, j - 1, fp)
  {
    hide ChoiceFor, Passes;
    assert forall i :: 0 <= i < |todo[1..]| ==> todo[1..][i] == todo[i + 1];
  }

  // -- Nobody armed: never again ----------------------------------------------------------------------

  lemma BeginsUnarmed(log: seq<P.Audit>, ss: seq<Symptom>, k: Runbook, now: P.Stamp, fp: P.Fingerprint)
    requires fp in P.ActedFingerprints(log)
    ensures !Armed(Solves(ss, k, AlreadyActed(log, k), now), fp)
  {
    hide ChoiceFor, P.ActedFingerprints;
    forall j: nat | j < |ss| && ss[j].fp == fp ensures !ChoiceFor(ss[j], k, AlreadyActed(log, k)).AutoRun? {
      AutoActionIsSolution(ss[j], k, AlreadyActed(log, k));
    }
  }

  lemma StatementUnarmed(log: seq<P.Audit>, v: Visitor, w: A.World, fp: P.Fingerprint)
    requires fp in P.ActedFingerprints(log) && !Armed(v, fp) && KnowsClasses(v, w)
    ensures var (after, next) := Statement(log, v, w);
            && !Armed(next, fp) && log <= after && AutoSuccesses(after, fp) == AutoSuccesses(log, fp)
  {
    hide ChoiceFor, A.RunOutcome, P.ActedFingerprints, SolutionAttempt, AlreadyActed, Fires;
    match v
    case Begins(ss, k, now) => BeginsUnarmed(log, ss, k, now, fp);
    case Solves(todo, k, already, now) =>
      if todo != [] { SolvesUnarmed(log, v, w, fp); }
    case Logs(entry, todo, k, already, now) => CountPush(log, entry, e => AutoSuccess(e, fp));
    case Died =>
  }

  /** A success that is about to be logged was ahead. */
  lemma SuccessFires(log: seq<P.Audit>, v: Visitor, w: A.World, fp: P.Fingerprint)
    requires v.Solves? && v.todo != [] && w.wide == v.k.wide
    ensures var next := Statement(log, v, w).1;
            && (next.Logs? && AutoSuccess(next.entry, fp) ==> Fires(v.todo, v.k, v.already, 0, fp))
            && (next.Died? || Passes(v.todo[0], v.k, v.already))
  {
    hide ChoiceFor, A.RunOutcome, SolutionAttempt;
    var choice := ChoiceFor(v.todo[0], v.k, v.already);
    if choice.AutoRun? {
      AutoActionIsSolution(v.todo[0], v.k, v.already);
      SolutionOutcome(v.k, choice.action, w);
    }
  }

  lemma SolvesUnarmed(log: seq<P.Audit>, v: Visitor, w: A.World, fp: P.Fingerprint)
    requires v.Solves? && v.todo != [] && !Armed(v, fp) && w.wide == v.k.wide
    ensures !Armed(Statement(log, v, w).1, fp)
  {
    hide ChoiceFor, A.RunOutcome, SolutionAttempt, Passes, Fires;
    SuccessFires(log, v, w, fp);
    if !Statement(log, v, w).1.Died? {
      forall j: nat ensures Fires(v.todo[1..], v.k, v.already, j, fp) ==> Fires(v.todo, v.k, v.already, j + 1, fp) {
        if Fires(v.todo[1..], v.k, v.already, j, fp) { FiresLater(v.todo, v.k, v.already, j, fp); }
      }
    }
  }

  ghost predicate Quiet(s: System, fp: P.Fingerprint) {
    fp in P.ActedFingerprints(s.log) && forall i :: 0 <= i < |s.visitors| ==> !Armed(s.visitors[i], fp)
  }

  lemma ActedStays(short: seq<P.Audit>, long: seq<P.Audit>, fp: P.Fingerprint)
    requires short <= long && fp in P.ActedFingerprints(short)
    ensures fp in P.ActedFingerprints(long)
  {
    var i :| 0 <= i < |short| && P.TookEffect(short[i]) && short[i].fingerprint == fp;
    assert long[i] == short[i];
  }

  lemma StepQuiet(s: System, m: Move, fp: P.Fingerprint)
    requires Enabled(s, m) && Quiet(s, fp)
    ensures Quiet(Step(s, m), fp) && AutoSuccesses(Step(s, m).log, fp) == AutoSuccesses(s.log, fp)
  {
    hide Statement, P.ActedFingerprints, AutoSuccesses;
    match m
    case Arrive(_, _, _) =>
    case Go(i, w) =>
      StatementUnarmed(s.log, s.visitors[i], w, fp);
      ActedStays(s.log, Step(s, m).log, fp);
    case Elsewhere(entry) =>
      ElsewhereAdds(s.log, entry, fp);
      ActedStays(s.log, s.log + [entry], fp);
  }

  lemma ElsewhereAdds(log: seq<P.Audit>, entry: P.Audit, fp: P.Fingerprint)
    requires entry.actor != "auto" || !entry.action.source.SolutionSource?
    ensures AutoSuccesses(log + [entry], fp) == AutoSuccesses(log, fp)
  {
    CountPush(log, entry, e => AutoSuccess(e, fp));
  }

  lemma {:induction false} RunQuiet(s: System, moves: seq<Move>, fp: P.Fingerprint)
    requires Runs(s, moves) && Quiet(s, fp)
    ensures AutoSuccesses(Exec(s, moves).log, fp) == AutoSuccesses(s.log, fp)
    decreases |moves|
  {
    hide Step, Quiet, AutoSuccesses, Enabled;
    if |moves| != 0 {
      StepQuiet(s, moves[0], fp);
      RunQuiet(Step(s, moves[0]), moves[1..], fp);
    }
  }

  // -- Somebody armed: it can happen again -----------------------------------------------------------------

  lemma {:induction false} OneStep(s: System, m: Move)
    requires Enabled(s, m)
    ensures Runs(s, [m]) && Exec(s, [m]) == Step(s, m)
  {
    assert |[m][1..]| == 0;
    assert Runs(Step(s, m), [m][1..]);
  }

  lemma {:induction false} StepFirst(s: System, m: Move, moves: seq<Move>)
    requires Enabled(s, m) && Runs(Step(s, m), moves)
    ensures Runs(s, [m] + moves) && Exec(s, [m] + moves) == Exec(Step(s, m), moves)
  {
    assert ([m] + moves)[1..] == moves;
  }

  lemma LogsSuccess(s: System, i: nat, fp: P.Fingerprint, w: A.World)
    requires Enabled(s, Go(i, w)) && s.visitors[i].Logs? && AutoSuccess(s.visitors[i].entry, fp)
    ensures AutoSuccesses(Step(s, Go(i, w)).log, fp) == AutoSuccesses(s.log, fp) + 1
  {
    CountPush(s.log, s.visitors[i].entry, e => AutoSuccess(e, fp));
  }

  lemma LogsGrow(s: System, i: nat, fp: P.Fingerprint, w: A.World)
    requires Enabled(s, Go(i, w))
    ensures AutoSuccesses(Step(s, Go(i, w)).log, fp) >= AutoSuccesses(s.log, fp)
  {
    hide ChoiceFor, A.RunOutcome, AlreadyActed;
    if s.visitors[i].Logs? { CountPush(s.log, s.visitors[i].entry, e => AutoSuccess(e, fp)); }
  }

  /** An armed scan works its way to its symptom and succeeds. */
  lemma {:induction false} ArmedActs(s: System, i: nat, j: nat, fp: P.Fingerprint, w: A.World) returns (moves: seq<Move>)
    requires i < |s.visitors| && s.visitors[i].Solves?
    requires Fires(s.visitors[i].todo, s.visitors[i].k, s.visitors[i].already, j, fp)
    ensures Runs(s, moves) && AutoSuccesses(Exec(s, moves).log, fp) > AutoSuccesses(s.log, fp)
    decreases j
  {
    hide ChoiceFor, A.RunOutcome, SolutionAttempt, AutoSuccesses, Fires;
    var v := s.visitors[i];
    var go := Go(i, Obliging(w, v.k));
    var s1 := Step(s, go);
    FiresIsAhead(v.todo, v.k, v.already, j, fp);
    var choice := ChoiceFor(v.todo[0], v.k, v.already);
    assert s1.log == s.log;
    FirstOfFires(v.todo, v.k, v.already, j, fp, w);
    if j == 0 {
      LogsSuccess(s1, i, fp, go.world);
      OneStep(s1, go);
      StepFirst(s, go, [go]);
      moves := [go] + [go];
    } else if choice.AutoRun? {
      assert s1.visitors[i].Logs? && s1.visitors[i].k == v.k;
      var s2 := Step(s1, go);
      LogsGrow(s1, i, fp, go.world);
      var rest := ArmedActs(s2, i, j - 1, fp, w);
      StepFirst(s1, go, rest);
      StepFirst(s, go, [go] + rest);
      moves := [go] + ([go] + rest);
    } else {
      var rest := ArmedActs(s1, i, j - 1, fp, w);
      StepFirst(s, go, rest);
      moves := [go] + rest;
    }
  }

  lemma FiresIsAhead(todo: seq<Symptom>, k: Runbook, already: set<P.Fingerprint>, j: nat, fp: P.Fingerprint)
    requires Fires(todo, k, already, j, fp)
    ensures todo != []
  {
  }

  lemma FirstOfFires(todo: seq<Symptom>, k: Runbook, already: set<P.Fingerprint>, j: nat, fp: P.Fingerprint, w: A.World)
    requires Fires(todo, k, already, j, fp)
    ensures todo != []
    ensures var choice := ChoiceFor(todo[0], k, already);
            var good := Obliging(w, k);
            && (j > 0 ==> !choice.Break?)
            && (choice.AutoRun? ==> A.RunOutcome(choice.action, good).Some?)
            && (j == 0 ==>
                  todo[0].fp == fp && choice.AutoRun? && choice.action.source.SolutionSource?
                  && A.RunOutcome(choice.action, good) == Some(P.Applied))
            && (j > 0 ==> Fires(todo[1..], k, already, j - 1, fp))
  {
    hide ChoiceFor, A.RunOutcome, SolutionAttempt;
    var choice := ChoiceFor(todo[0], k, already);
    if choice.AutoRun? {
      AutoActionIsSolution(todo[0], k, already);
      SolutionOutcome(k, choice.action, w);
    }
    if j > 0 { FiresEarlier(todo, k, already, j, fp); }
  }

  /** Once a fingerprint has been acted on, some continuation logs another unattended success of
      it if and only if some scan read `already` before that and still has it ahead: whatever
      scans begin later, and whatever else is logged. */
  lemma {:induction false} SucceedsAgainExactly(s: System, fp: P.Fingerprint, w: A.World)
    requires fp in P.ActedFingerprints(s.log)
    ensures (exists moves :: Runs(s, moves) && AutoSuccesses(Exec(s, moves).log, fp) > AutoSuccesses(s.log, fp))
            <==> exists i :: 0 <= i < |s.visitors| && Armed(s.visitors[i], fp)
  {
    hide P.ActedFingerprints, AutoSuccesses, Fires;
    if i :| 0 <= i < |s.visitors| && Armed(s.visitors[i], fp) {
      var v := s.visitors[i];
      if v.Logs? && AutoSuccess(v.entry, fp) {
        OneStep(s, Go(i, Obliging(w, v.k)));
        LogsSuccess(s, i, fp, Obliging(w, v.k));
      } else if v.Logs? {
        var j: nat :| Fires(v.todo, v.k, v.already, j, fp);
        var go := Go(i, Obliging(w, v.k));
        LogsGrow(s, i, fp, go.world);
        var rest := ArmedActs(Step(s, go), i, j, fp, w);
        StepFirst(s, go, rest);
      } else {
        var j: nat :| Fires(v.todo, v.k, v.already, j, fp);
        var moves := ArmedActs(s, i, j, fp, w);
      }
    } else {
      forall moves | Runs(s, moves) ensures AutoSuccesses(Exec(s, moves).log, fp) == AutoSuccesses(s.log, fp) {
        RunQuiet(s, moves, fp);
      }
    }
  }

  /** The overlap happens: two scans that each carry the symptom once, and both read before
      either logs, succeed twice. */
  lemma OverlapSucceedsTwice(s: Symptom, k: Runbook, now: P.Stamp, w: A.World) returns (moves: seq<Move>)
    requires ChoiceFor(s, k, {}).AutoRun? && SolutionAttempt(k.wide, ChoiceFor(s, k, {}).action.command).Starts?
    ensures Runs(System([], []), moves)
    ensures AutoSuccesses(Exec(System([], []), moves).log, s.fp) >= 2
  {
    hide ChoiceFor, A.RunOutcome, SolutionAttempt, AutoSuccesses;
    var empty := System([], []);
    var visit := Arrive([s], k, now);
    var good := Obliging(w, k);
    var first, second := Go(0, good), Go(1, good);
    var s1 := Step(empty, visit);
    var s2 := Step(s1, visit);
    assert AlreadyActed([], k) == {};
    var s3 := Step(s2, first);
    var s4 := Step(s3, second);
    assert s4.visitors == [Solves([s], k, {}, now), Solves([s], k, {}, now)];
    assert Fires([s], k, {}, 0, s.fp);
    FirstOfFires([s], k, {}, 0, s.fp, w);
    var s5 := Step(s4, first);
    assert s5.visitors[0].Logs? && s5.visitors[0].k == k && s5.visitors[1] == Solves([s], k, {}, now);
    var s6 := Step(s5, first);
    LogsSuccess(s5, 0, s.fp, good);
    var rest := ArmedActs(s6, 1, 0, s.fp, w);
    StepFirst(s5, first, rest);
    StepFirst(s4, first, [first] + rest);
    StepFirst(s3, second, [first] + ([first] + rest));
    StepFirst(s2, first, [second] + ([first] + ([first] + rest)));
    StepFirst(s1, visit, [first] + ([second] + ([first] + ([first] + rest))));
    StepFirst(empty, visit, [visit] + ([first] + ([second] + ([first] + ([first] + rest)))));
    moves := [visit] + ([visit] + ([first] + ([second] + ([first] + ([first] + rest)))));
  }
}
