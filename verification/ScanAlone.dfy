/** A scan with nothing in between is one event of the lifecycle. */
module ScanAlone {
  import opened Text
  import opened Findings
  import opened Concurrent
  import Races
  import L = Lifecycle

  // -- One task, by its row ----------------------------------------------------------------------

  /** What a task makes of the row it finds. */
  function RowAfter(known: Option<Finding>, k: Task): Option<Finding>
    requires k.Import? || k.Sight?
  {
    match k
    case Sight(_, s, now) => Some(Sighted(known, s, now))
    case Import(fp, c, now) =>
      var t := if known.Some? then map[fp := known.value] else map[];
      if IsSuppressed(t, fp, now) then known else Some(MutedBy(t, fp, c, now))
  }

  predicate IsRowTask(k: Task) {
    k.Import? || k.Sight?
  }

  predicate RowTasks(todo: seq<Task>) {
    forall i :: 0 <= i < |todo| ==> IsRowTask(todo[i])
  }

  function TaskEffect(t: Table, k: Task): Table
    requires IsRowTask(k)
  {
    var row := RowAfter(Lookup(t, k.fp), k);
    if row.Some? then t[k.fp := row.value] else t
  }

  function TasksEffect(t: Table, todo: seq<Task>): Table
    requires RowTasks(todo)
    decreases |todo|
  {
    if todo == [] then t else TasksEffect(TaskEffect(t, todo[0]), todo[1..])
  }

  function FlipAll(t: Table, fps: seq<Fingerprint>, now: Instant): Table
    decreases |fps|
  {
    if fps == [] then t else FlipAll(Flipped(t, fps[0], now), fps[1..], now)
  }

  // -- Running alone ---------------------------------------------------------------------------------

  lemma TaskAlone(s: System, i: nat, k: Task, rest: seq<Task>) returns (moves: seq<Move>)
    requires i < |s.threads| && s.threads[i] == Reads([k] + rest) && IsRowTask(k)
    ensures Runs(s, moves) && Exec(s, moves) == System(TaskEffect(s.table, k), s.threads[i := Reads(rest)])
  {
    var go := Advance(i, []);
    assert ([k] + rest)[0] == k && ([k] + rest)[1..] == rest;
    var s1 := Step(s, go);
    OneStep(s, go);
    moves := [go];
    if k.Sight? {
      OneStep(s1, go);
      StepFirst(s, go, [go]);
      moves := [go] + [go];
    } else if !IsSuppressed(s.table, k.fp, k.now) {
      var mute := Operate(k.fp, Muted, None, Some(k.commit.note), Some(k.commit.author), k.now);
      assert ([mute] + rest)[0] == mute && ([mute] + rest)[1..] == rest;
      var s2 := Step(s1, go);
      OneStep(s2, go);
      StepFirst(s1, go, [go]);
      StepFirst(s, go, [go] + [go]);
      moves := [go] + ([go] + [go]);
    }
  }

  lemma {:induction false} TasksAlone(s: System, i: nat, todo: seq<Task>, rest: seq<Task>) returns (moves: seq<Move>)
    requires i < |s.threads| && s.threads[i] == Reads(todo + rest) && RowTasks(todo)
    ensures Runs(s, moves) && Exec(s, moves) == System(TasksEffect(s.table, todo), s.threads[i := Reads(rest)])
    decreases |todo|
  {
    hide TaskEffect, Step;
    if todo == [] {
      assert todo + rest == rest;
      assert s.threads[i := Reads(rest)] == s.threads;
      moves := [];
    } else {
      assert todo + rest == [todo[0]] + (todo[1..] + rest);
      var one := TaskAlone(s, i, todo[0], todo[1..] + rest);
      var more := TasksAlone(Exec(s, one), i, todo[1..], rest);
      Races.Append(s, one, more);
      moves := one + more;
    }
  }

  lemma {:induction false} FlipsAlone(s: System, i: nat) returns (moves: seq<Move>)
    requires i < |s.threads| && s.threads[i].Flips?
    ensures var thread := s.threads[i];
            Runs(s, moves)
            && Exec(s, moves) == System(FlipAll(s.table, thread.fps, thread.now), s.threads[i := Flips([], thread.now)])
    decreases |s.threads[i].fps|
  {
    if s.threads[i].fps == [] {
      assert s.threads[i := s.threads[i]] == s.threads;
      moves := [];
    } else {
      var go := Advance(i, []);
      var rest := FlipsAlone(Step(s, go), i);
      StepFirst(s, go, rest);
      moves := [go] + rest;
    }
  }

  // -- The tables they leave ---------------------------------------------------------------------------

  predicate Distinct(todo: seq<Task>)
    requires RowTasks(todo)
  {
    forall i, j :: 0 <= i < j < |todo| ==> todo[i].fp != todo[j].fp
  }

  lemma {:induction false} TasksAt(t: Table, todo: seq<Task>, fp: Fingerprint)
    requires RowTasks(todo) && Distinct(todo)
    ensures (forall i :: 0 <= i < |todo| ==> todo[i].fp != fp) ==> Lookup(TasksEffect(t, todo), fp) == Lookup(t, fp)
    ensures forall i :: 0 <= i < |todo| && todo[i].fp == fp ==> Lookup(TasksEffect(t, todo), fp) == RowAfter(Lookup(t, fp), todo[i])
    decreases |todo|
  {
    hide RowAfter;
    if todo != [] {
      var rest := todo[1..];
      assert forall i :: 0 <= i < |rest| ==> rest[i] == todo[i + 1];
      assert forall i :: 0 < i < |todo| ==> todo[i] == rest[i - 1];
      TasksAt(TaskEffect(t, todo[0]), rest, fp);
      ImportKeeps(Lookup(t, todo[0].fp), todo[0]);
    }
  }

  /** A row task never makes a row disappear. */
  lemma ImportKeeps(known: Option<Finding>, k: Task)
    requires IsRowTask(k)
    ensures known.Some? ==> RowAfter(known, k).Some?
    ensures RowAfter(known, k).None? ==> known.None?
  {
  }

  lemma SameLookups(t: Table, u: Table)
    requires forall fp :: Lookup(t, fp) == Lookup(u, fp)
    ensures t == u
  {
    assert forall fp :: fp in t <==> Lookup(t, fp).Some?;
    assert forall fp :: fp in u <==> Lookup(u, fp).Some?;
    forall fp | fp in t ensures t[fp] == u[fp] { assert Lookup(t, fp) == Lookup(u, fp); }
  }

  function Imports(order: seq<Fingerprint>, committed: map<Fingerprint, Commit>, now: Instant): (todo: seq<Task>)
    requires forall i :: 0 <= i < |order| ==> order[i] in committed
    ensures |todo| == |order| && RowTasks(todo)
    ensures forall i :: 0 <= i < |order| ==> todo[i] == Import(order[i], committed[order[i]], now)
  {
    seq(|order|, i requires 0 <= i < |order| => Import(order[i], committed[order[i]], now))
  }

  function Sights(order: seq<Fingerprint>, seen: map<Fingerprint, Sighting>, now: Instant): (todo: seq<Task>)
    requires forall i :: 0 <= i < |order| ==> order[i] in seen
    ensures |todo| == |order| && RowTasks(todo)
    ensures forall i :: 0 <= i < |order| ==> todo[i] == Sight(order[i], seen[order[i]], now)
  {
    seq(|order|, i requires 0 <= i < |order| => Sight(order[i], seen[order[i]], now))
  }

  lemma {:induction false} ImportsApply(t: Table, order: seq<Fingerprint>, committed: map<Fingerprint, Commit>, now: Instant)
    requires Lists(order, committed.Keys)
    ensures TasksEffect(t, Imports(order, committed, now)) == ApplyCommitted(t, committed, now)
  {
    hide TasksEffect;
    var todo := Imports(order, committed, now);
    forall fp ensures Lookup(TasksEffect(t, todo), fp) == Lookup(ApplyCommitted(t, committed, now), fp) {
      TasksAt(t, todo, fp);
      if fp in committed {
        var i :| 0 <= i < |order| && order[i] == fp;
        assert todo[i].fp == fp;
        ImportRow(t, fp, committed, now);
      } else {
        assert forall i :: 0 <= i < |todo| ==> todo[i].fp == order[i];
      }
    }
    SameLookups(TasksEffect(t, todo), ApplyCommitted(t, committed, now));
  }

  lemma ImportRow(t: Table, fp: Fingerprint, committed: map<Fingerprint, Commit>, now: Instant)
    requires fp in committed
    ensures RowAfter(Lookup(t, fp), Import(fp, committed[fp], now)) == Lookup(ApplyCommitted(t, committed, now), fp)
  {
  }

  lemma {:induction false} SightsRecord(t: Table, order: seq<Fingerprint>, seen: map<Fingerprint, Sighting>, now: Instant)
    requires Lists(order, seen.Keys)
    ensures TasksEffect(t, Sights(order, seen, now)) == Record(t, seen, now)
  {
    hide TasksEffect, Sighted;
    var todo := Sights(order, seen, now);
    forall fp ensures Lookup(TasksEffect(t, todo), fp) == Lookup(Record(t, seen, now), fp) {
      TasksAt(t, todo, fp);
      if fp in seen {
        var i :| 0 <= i < |order| && order[i] == fp;
        assert todo[i].fp == fp;
      } else {
        assert forall i :: 0 <= i < |todo| ==> todo[i].fp == order[i];
      }
    }
    SameLookups(TasksEffect(t, todo), Record(t, seen, now));
  }

  lemma {:induction false} FlipsAt(t: Table, fps: seq<Fingerprint>, now: Instant, fp: Fingerprint)
    ensures Lookup(FlipAll(t, fps, now), fp) ==
            if fp in fps && fp in t then Some(t[fp].(status := Resolved, lastSeen := now)) else Lookup(t, fp)
    decreases |fps|
  {
    if fps != [] {
      FlipsAt(Flipped(t, fps[0], now), fps[1..], now, fp);
      assert fp in fps <==> fp == fps[0] || fp in fps[1..];
    }
  }

  lemma {:induction false} FlipsResolve(t: Table, order: seq<Fingerprint>, absent: set<Fingerprint>, now: Instant)
    requires Lists(order, absent)
    ensures FlipAll(t, order, now) == ResolveAll(t, absent, now)
  {
    hide FlipAll;
    forall fp ensures Lookup(FlipAll(t, order, now), fp) == Lookup(ResolveAll(t, absent, now), fp) {
      FlipsAt(t, order, now, fp);
    }
    SameLookups(FlipAll(t, order, now), ResolveAll(t, absent, now));
  }

  // -- The whole scan --------------------------------------------------------------------------------------

  /** A scan as a program, its dictionaries and its selection in any order. */
  function Program(
    corder: seq<Fingerprint>, committed: map<Fingerprint, Commit>, sorder: seq<Fingerprint>, seen: map<Fingerprint, Sighting>,
    now: Instant, grace: nat): seq<Task>
    requires Lists(corder, committed.Keys) && Lists(sorder, seen.Keys)
  {
    Imports(corder, committed, now) + (Sights(sorder, seen, now) + [Select(seen.Keys, now, grace)])
  }

  lemma ProgramIsScan(
    corder: seq<Fingerprint>, committed: map<Fingerprint, Commit>, sorder: seq<Fingerprint>, seen: map<Fingerprint, Sighting>,
    now: Instant, grace: nat)
    requires Lists(corder, committed.Keys) && Lists(sorder, seen.Keys)
    ensures ScanProgram(Program(corder, committed, sorder, seen, now, grace))
  {
  }

  /** Whatever the other threads hold, a scan that runs with nothing in between takes the table
      through exactly one `Scan` event of the lifecycle, and reports what that event reports. */
  lemma ScanIsOneEvent(
    s: System, corder: seq<Fingerprint>, committed: map<Fingerprint, Commit>, sorder: seq<Fingerprint>,
    seen: map<Fingerprint, Sighting>, now: Instant, grace: nat, aorder: seq<Fingerprint>) returns (moves: seq<Move>)
    requires Lists(corder, committed.Keys) && Lists(sorder, seen.Keys)
    requires Lists(aorder, L.Reported(s.table, L.Scan(seen, committed, now), grace))
    ensures Runs(s, moves)
    ensures Exec(s, moves) == System(L.Effect(s.table, L.Scan(seen, committed, now), grace), s.threads + [Flips([], now)])
  {
    hide ApplyCommitted, Record, ResolveAll, Imports, Sights, ScanProgram;
    var todo := Program(corder, committed, sorder, seen, now, grace);
    var n := |s.threads|;
    ProgramIsScan(corder, committed, sorder, seen, now, grace);
    var s0 := Step(s, Start(todo));
    OneStep(s, Start(todo));
    var select := [Select(seen.Keys, now, grace)];
    var one := TasksAlone(s0, n, Imports(corder, committed, now), Sights(sorder, seen, now) + select);
    ImportsApply(s.table, corder, committed, now);
    var s1 := Exec(s0, one);
    var two := TasksAlone(s1, n, Sights(sorder, seen, now), select);
    SightsRecord(s1.table, sorder, seen, now);
    var s2 := Exec(s1, two);
    assert s2.table == L.Recorded(s.table, seen, committed, now);
    assert s2.threads[n] == Reads(select);
    var choose := Advance(n, aorder);
    var s3 := Step(s2, choose);
    OneStep(s2, choose);
    assert s3.threads[n] == Flips(aorder, now);
    var four := FlipsAlone(s3, n);
    FlipsResolve(s3.table, aorder, L.Reported(s.table, L.Scan(seen, committed, now), grace), now);
    Races.Append(s2, [choose], four);
    Races.Append(s1, two, [choose] + four);
    Races.Append(s0, one, two + ([choose] + four));
    StepFirst(s, Start(todo), one + (two + ([choose] + four)));
    moves := [Start(todo)] + (one + (two + ([choose] + four)));
    assert Exec(s, moves).threads == s.threads + [Flips([], now)];
  }
}
