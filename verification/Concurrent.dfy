/** The findings table under concurrency. */
module Concurrent {
  // Scans, probes and operators interleave over one table, one SQL statement at a time: every
  // write of a row is a SELECT and then an INSERT or UPDATE, and resolving is one SELECT over the
  // table and then one UPDATE per selected row.

  import opened Text
  import opened Findings
  import L = Lifecycle

  // -- Threads -----------------------------------------------------------------------------------

  /** One row's worth of work, still to be read. */
  datatype Task =
    | Import(fp: Fingerprint, commit: Commit, now: Instant)
    | Sight(fp: Fingerprint, sighting: Sighting, now: Instant)
    | Operate(fp: Fingerprint, status: Lifecycle, until: Option<Instant>, note: Option<string>, actor: Option<string>, now: Instant)
    | Lift(fp: Fingerprint, now: Instant)
    | Select(current: set<Fingerprint>, now: Instant, grace: nat)

  /** The statement that follows a SELECT, with what was read already worked in. */
  datatype Write =
    | Insert(fp: Fingerprint, row: Finding)
    | Refresh(fp: Fingerprint, sighting: Sighting, status: Lifecycle, until: Option<Instant>, now: Instant)
    | Overwrite(fp: Fingerprint, status: Lifecycle, until: Option<Instant>, note: Option<string>, actor: Option<string>, now: Instant)
    | Reopen(fp: Fingerprint, now: Instant)

  datatype Thread =
    | Reads(todo: seq<Task>)
    | Writes(write: Write, todo: seq<Task>)
    | Flips(fps: seq<Fingerprint>, now: Instant)     // selected as absent, to be resolved one by one
    | Crashed                                        // INSERT of a row another thread inserted

  /** The row a write leaves, from the row it finds. */
  function Written(t: Table, w: Write): Finding
    requires w.fp in t || w.Insert?
  {
    match w
    case Insert(_, row) => row
    case Refresh(fp, s, status, until, now) =>
      t[fp].(lastSeen := now, severity := s.severity, title := s.title, status := status, snoozeUntil := until,
             details := if s.evidence != map[] then s.evidence else t[fp].details)
    case Overwrite(fp, status, until, note, actor, now) =>
      t[fp].(status := status, snoozeUntil := until, note := note, actor := actor, lastSeen := now)
    case Reopen(fp, now) =>
      t[fp].(status := Open, snoozeUntil := None, note := None, actor := None, lastSeen := now)
  }

  /** An INSERT of an existing key raises; an UPDATE of a missing one does nothing. */
  predicate Raises(t: Table, w: Write) {
    w.Insert? && w.fp in t
  }

  function Apply(t: Table, w: Write): Table {
    if Raises(t, w) || (!w.Insert? && w.fp !in t) then t else t[w.fp := Written(t, w)]
  }

  function Flipped(t: Table, fp: Fingerprint, now: Instant): Table {
    if fp in t then t[fp := t[fp].(status := Resolved, lastSeen := now)] else t
  }

  /** The SELECT of a task: what the thread does next. `order` lists what a Select found. */
  function Read(t: Table, k: Task, rest: seq<Task>, order: seq<Fingerprint>): Thread {
    match k
    case Import(fp, c, now) =>
      if IsSuppressed(t, fp, now) then Reads(rest)
      else Reads([Operate(fp, Muted, None, Some(c.note), Some(c.author), now)] + rest)
    case Sight(fp, s, now) =>
      if fp in t then
        var (status, until) := Refreshed(t[fp], now);
        Writes(Refresh(fp, s, status, until, now), rest)
      else Writes(Insert(fp, Sighted(None, s, now)), rest)
    case Operate(fp, status, until, note, actor, now) =>
      if fp in t then Writes(Overwrite(fp, status, until, note, actor, now), rest)
      else Writes(Insert(fp, Finding(now, now, "unknown", fp, status, until, note, actor, map[])), rest)
    case Lift(fp, now) => if fp in t then Writes(Reopen(fp, now), rest) else Reads(rest)
    case Select(_, now, _) => Flips(order, now)
  }

  // -- The machine ----------------------------------------------------------------------------------

  datatype System = System(table: Table, threads: seq<Thread>)

  function Statement(t: Table, thread: Thread, order: seq<Fingerprint>): (Table, Thread) {
    match thread
    case Reads(todo) => if todo == [] then (t, thread) else (t, Read(t, todo[0], todo[1..], order))
    case Writes(w, todo) => (Apply(t, w), if Raises(t, w) then Crashed else Reads(todo))
    case Flips(fps, now) => if fps == [] then (t, thread) else (Flipped(t, fps[0], now), Flips(fps[1..], now))
    case Crashed => (t, thread)
  }

  /** What an operator may write: muted, snoozed until some time, or resolved. */
  predicate GoodOperate(k: Task) {
    k.Operate? && !k.status.Open? && (k.until.Some? <==> k.status.Snoozed?)
  }

  /** A scan or probe: committed mutes and sightings, and for a scan a final selection. */
  predicate ScanProgram(todo: seq<Task>) {
    forall i :: 0 <= i < |todo| ==> todo[i].Import? || todo[i].Sight? || (todo[i].Select? && i == |todo| - 1)
  }

  predicate OperatorProgram(todo: seq<Task>) {
    |todo| == 1 && (todo[0].Lift? || GoodOperate(todo[0]))
  }

  datatype Move = Start(todo: seq<Task>) | Advance(index: nat, order: seq<Fingerprint>)

  /** A listing of a set: everything in it, once. */
  predicate Lists(order: seq<Fingerprint>, fps: set<Fingerprint>) {
    && (forall i :: 0 <= i < |order| ==> order[i] in fps)
    && (forall fp :: fp in fps ==> fp in order)
    && (forall i, j :: 0 <= i < j < |order| ==> order[i] != order[j])
  }

  predicate Selects(thread: Thread) {
    thread.Reads? && thread.todo != [] && thread.todo[0].Select?
  }

  /** What the selection of a thread finds absent. */
  function Found(t: Table, thread: Thread): set<Fingerprint> {
    if Selects(thread) then Absent(t, thread.todo[0].current, thread.todo[0].now, thread.todo[0].grace) else {}
  }

  predicate Enabled(s: System, m: Move) {
    match m
    case Start(todo) => ScanProgram(todo) || OperatorProgram(todo)
    case Advance(i, order) => i < |s.threads| && (Selects(s.threads[i]) ==> Lists(order, Found(s.table, s.threads[i])))
  }

  function Step(s: System, m: Move): System
    requires Enabled(s, m)
  {
    match m
    case Start(todo) => s.(threads := s.threads + [Reads(todo)])
    case Advance(i, order) =>
      var (t, thread) := Statement(s.table, s.threads[i], order);
      System(t, s.threads[i := thread])
  }

  predicate Runs(s: System, moves: seq<Move>)
    decreases |moves|
  {
    moves == [] || (Enabled(s, moves[0]) && Runs(Step(s, moves[0]), moves[1..]))
  }

  function Exec(s: System, moves: seq<Move>): System
    requires Runs(s, moves)
    decreases |moves|
  {
    if moves == [] then s else Exec(Step(s, moves[0]), moves[1..])
  }

  predicate Fresh(s: System) {
    s.table == map[] && s.threads == []
  }

  // -- Which threads there can be ----------------------------------------------------------------------

  /** A write carries a snooze end exactly when it writes a snooze. */
  predicate GoodWrite(w: Write) {
    match w
    case Insert(_, row) => row.snoozeUntil.Some? <==> row.status.Snoozed?
    case Refresh(_, _, status, until, _) => until.Some? <==> status.Snoozed?
    case Overwrite(_, status, until, _, _, _) => !status.Open? && (until.Some? <==> status.Snoozed?)
    case Reopen(_, _) => true
  }

  predicate Shaped(thread: Thread) {
    match thread
    case Reads(todo) =>
      ScanProgram(todo) || (todo != [] && (todo[0].Lift? || GoodOperate(todo[0])) && ScanProgram(todo[1..]))
    case Writes(w, todo) => ScanProgram(todo) && (w.Overwrite? ==> GoodWrite(w))
    case Flips(fps, _) => forall i, j :: 0 <= i < j < |fps| ==> fps[i] != fps[j]
    case Crashed => true
  }

  predicate AllShaped(s: System) {
    forall i :: 0 <= i < |s.threads| ==> Shaped(s.threads[i])
  }

  lemma RestIsScan(todo: seq<Task>)
    requires todo != [] && ScanProgram(todo)
    ensures ScanProgram(todo[1..])
  {
    forall i | 0 <= i < |todo[1..]|
      ensures todo[1..][i].Import? || todo[1..][i].Sight? || (todo[1..][i].Select? && i == |todo[1..]| - 1)
    {
      assert todo[1..][i] == todo[i + 1];
    }
  }

  lemma StatementShaped(t: Table, thread: Thread, order: seq<Fingerprint>)
    requires Shaped(thread) && (Selects(thread) ==> Lists(order, Found(t, thread)))
    ensures Shaped(Statement(t, thread, order).1)
  {
    hide Apply, IsSuppressed, Refreshed, Sighted;
    match thread
    case Reads(todo) =>
      if todo != [] {
        if ScanProgram(todo) { RestIsScan(todo); }
        if todo[0].Import? {
          var k := Operate(todo[0].fp, Muted, None, Some(todo[0].commit.note), Some(todo[0].commit.author), todo[0].now);
          assert ([k] + todo[1..])[1..] == todo[1..];
        }
      }
    case Flips(fps, now) =>
      if fps != [] { assert forall i :: 0 <= i < |fps[1..]| ==> fps[1..][i] == fps[i + 1]; }
    case _ =>
  }

  lemma StepShaped(s: System, m: Move)
    requires Enabled(s, m) && AllShaped(s)
    ensures AllShaped(Step(s, m))
  {
    hide Statement, Shaped;
    match m
    case Start(todo) => StartShaped(todo);
    case Advance(i, order) => StatementShaped(s.table, s.threads[i], order);
  }

  lemma StartShaped(todo: seq<Task>)
    requires ScanProgram(todo) || OperatorProgram(todo)
    ensures Shaped(Reads(todo))
  {
  }

  // -- No row disappears, no first sighting changes -----------------------------------------------------------

  lemma StatementGrows(t: Table, thread: Thread, order: seq<Fingerprint>)
    ensures L.Grows(t, Statement(t, thread, order).0)
  {
    hide IsSuppressed, Refreshed, Sighted;
  }

  /** Whatever interleaves, rows are never deleted and keep their first sighting. */
  lemma {:induction false} RunsGrow(s: System, moves: seq<Move>)
    requires Runs(s, moves)
    ensures L.Grows(s.table, Exec(s, moves).table)
    decreases |moves|
  {
    hide Statement;
    if moves != [] {
      var next := Step(s, moves[0]);
      if moves[0].Advance? { StatementGrows(s.table, s.threads[moves[0].index], moves[0].order); }
      RunsGrow(next, moves[1..]);
    }
  }

  // -- Along a run -----------------------------------------------------------------------------------------------

  /** `p` holds at every state of the run. */
  ghost predicate Always(s: System, moves: seq<Move>, p: System -> bool)
    requires Runs(s, moves)
    decreases |moves|
  {
    p(s) && (moves != [] ==> Always(Step(s, moves[0]), moves[1..], p))
  }

  /** No step of the run satisfies `q`. */
  ghost predicate Never(s: System, moves: seq<Move>, q: (System, Move) -> bool)
    requires Runs(s, moves)
    decreases |moves|
  {
    moves != [] ==> !q(s, moves[0]) && Never(Step(s, moves[0]), moves[1..], q)
  }

  // -- snooze_until is set exactly while snoozed, unless a flip lands on a snooze ---------------------------------

  /** The UPDATE of `resolve_absent` hits a row that has been snoozed since it was selected. */
  predicate FlipsSnoozed(fp: Fingerprint, s: System, m: Move) {
    && m.Advance? && m.index < |s.threads| && s.threads[m.index].Flips?
    && s.threads[m.index].fps != [] && s.threads[m.index].fps[0] == fp
    && fp in s.table && s.table[fp].status.Snoozed?
  }

  predicate GoodThread(thread: Thread, fp: Fingerprint) {
    thread.Writes? && thread.write.fp == fp ==> GoodWrite(thread.write)
  }

  ghost predicate GoodSystem(s: System, fp: Fingerprint) {
    && AllShaped(s) && L.WellFormedRow(s.table, fp)
    && forall i :: 0 <= i < |s.threads| ==> GoodThread(s.threads[i], fp)
  }

  lemma StatementWellFormed(t: Table, thread: Thread, order: seq<Fingerprint>, fp: Fingerprint)
    requires Shaped(thread) && GoodThread(thread, fp) && L.WellFormedRow(t, fp)
    ensures var (after, next) := Statement(t, thread, order);
            && GoodThread(next, fp)
            && (L.WellFormedRow(after, fp) <==>
                !(thread.Flips? && thread.fps != [] && thread.fps[0] == fp && fp in t && t[fp].status.Snoozed?))
  {
    hide IsSuppressed, Absent;
    match thread
    case Reads(todo) => if todo != [] { ReadIsGood(t, todo[0], todo[1..], order, fp); }
    case _ =>
  }

  lemma ReadIsGood(t: Table, k: Task, rest: seq<Task>, order: seq<Fingerprint>, fp: Fingerprint)
    requires L.WellFormedRow(t, fp) && (k.Operate? ==> GoodOperate(k))
    ensures GoodThread(Read(t, k, rest, order), fp)
  {
    hide IsSuppressed;
  }

  lemma StepWellFormed(s: System, m: Move, fp: Fingerprint)
    requires Enabled(s, m) && GoodSystem(s, fp)
    ensures L.WellFormedRow(Step(s, m).table, fp) <==> !FlipsSnoozed(fp, s, m)
    ensures !FlipsSnoozed(fp, s, m) ==> GoodSystem(Step(s, m), fp)
  {
    hide Statement, Shaped, GoodThread, L.WellFormedRow, Selects;
    StepShaped(s, m);
    match m
    case Start(todo) => assert GoodThread(Reads(todo), fp) by { StartIsGood(todo, fp); }
    case Advance(i, order) => StatementWellFormed(s.table, s.threads[i], order, fp);
  }

  lemma StartIsGood(todo: seq<Task>, fp: Fingerprint)
    ensures GoodThread(Reads(todo), fp)
  {
  }

  /** Over every interleaving from a well-formed state (an empty store, say), the row of `fp` has
      a snooze end exactly while it is snoozed, at every point of the run, if and only if no
      flip of the run lands on a snooze that was placed after its selection. */
  lemma {:induction false} SnoozeEndExactly(s: System, moves: seq<Move>, fp: Fingerprint)
    requires Runs(s, moves) && GoodSystem(s, fp)
    ensures Always(s, moves, (u: System) => L.WellFormedRow(u.table, fp))
            <==> Never(s, moves, (u: System, m: Move) => FlipsSnoozed(fp, u, m))
    decreases |moves|
  {
    hide GoodSystem, FlipsSnoozed, Step, L.WellFormedRow;
    assert L.WellFormedRow(s.table, fp) by { GoodIsWellFormed(s, fp); }
    if moves != [] {
      StepWellFormed(s, moves[0], fp);
      var next := Step(s, moves[0]);
      if FlipsSnoozed(fp, s, moves[0]) {
        assert !Always(next, moves[1..], (u: System) => L.WellFormedRow(u.table, fp));
      } else {
        SnoozeEndExactly(next, moves[1..], fp);
      }
    }
  }

  lemma GoodIsWellFormed(s: System, fp: Fingerprint)
    requires GoodSystem(s, fp)
    ensures L.WellFormedRow(s.table, fp)
  {
  }

  /** A store without rows, whatever is about to begin, meets the theorem's condition. */
  lemma FreshIsGood(s: System, fp: Fingerprint)
    requires Fresh(s)
    ensures GoodSystem(s, fp)
  {
  }

  // -- Operator intent survives exactly when no thread is past its read of the row ----------------------------------

  /** The row an operator put in force: muted, or snoozed until some time. */
  predicate Placed(f: Finding) {
    f.status.Muted? || (f.status.Snoozed? && f.snoozeUntil.Some?)
  }

  predicate InForceAt(f: Finding, now: Instant) {
    f.status.Muted? || (f.status.Snoozed? && f.snoozeUntil.Some? && now < f.snoozeUntil.value)
  }

  /** Scans of the finding come before its snooze lapses. */
  predicate Timely(todo: seq<Task>, fp: Fingerprint, f: Finding) {
    forall i :: 0 <= i < |todo| && (todo[i].Sight? || todo[i].Import?) && todo[i].fp == fp ==> InForceAt(f, todo[i].now)
  }

  predicate TimelyThread(thread: Thread, fp: Fingerprint, f: Finding) {
    thread.Reads? || thread.Writes? ==> Timely(thread.todo, fp, f)
  }

  /** Only scans and probes start, and they start in time. */
  predicate ScansInTime(moves: seq<Move>, fp: Fingerprint, f: Finding) {
    forall i :: 0 <= i < |moves| && moves[i].Start? ==> ScanProgram(moves[i].todo) && Timely(moves[i].todo, fp, f)
  }

  /** A thread past its read or its selection of the row that will write something else there,
      or about to carry out another decision of an operator. */
  predicate Threat(thread: Thread, fp: Fingerprint, f: Finding) {
    match thread
    case Reads(todo) =>
      todo != [] &&
      ((todo[0].Lift? && todo[0].fp == fp)
       || (todo[0].Operate? && todo[0].fp == fp
           && (todo[0].status, todo[0].until, todo[0].note, todo[0].actor) != (f.status, f.snoozeUntil, f.note, f.actor)))
    case Writes(w, _) =>
      w.fp == fp &&
      (w.Reopen?
       || (w.Refresh? && (w.status, w.until) != (f.status, f.snoozeUntil))
       || (w.Overwrite? && (w.status, w.until, w.note, w.actor) != (f.status, f.snoozeUntil, f.note, f.actor)))
    case Flips(fps, _) => fp in fps
    case Crashed => false
  }

  predicate Kept(t: Table, fp: Fingerprint, f: Finding) {
    fp in t && L.SameIntent(t[fp], f)
  }

  lemma ReadKeeps(t: Table, k: Task, rest: seq<Task>, order: seq<Fingerprint>, fp: Fingerprint, f: Finding)
    requires Placed(f) && Kept(t, fp, f) && Timely([k] + rest, fp, f) && !Threat(Reads([k] + rest), fp, f)
    requires ScanProgram(rest) && (k.Select? ==> Lists(order, Absent(t, k.current, k.now, k.grace)))
    ensures TimelyThread(Read(t, k, rest, order), fp, f) && !Threat(Read(t, k, rest, order), fp, f)
  {
    assert ([k] + rest)[0] == k;
    assert forall i :: 0 <= i < |rest| ==> ([k] + rest)[i + 1] == rest[i];
    assert rest != [] ==> rest[0].Import? || rest[0].Sight? || rest[0].Select?;
    if k.Import? {
      var todo := [Operate(k.fp, Muted, None, Some(k.commit.note), Some(k.commit.author), k.now)] + rest;
      assert forall i :: 0 < i < |todo| ==> todo[i] == rest[i - 1];
    }
  }

  lemma StatementKeeps(t: Table, thread: Thread, order: seq<Fingerprint>, fp: Fingerprint, f: Finding)
    requires Placed(f) && Kept(t, fp, f) && Shaped(thread) && TimelyThread(thread, fp, f) && !Threat(thread, fp, f)
    requires Selects(thread) ==> Lists(order, Found(t, thread))
    ensures var (after, next) := Statement(t, thread, order);
            Kept(after, fp, f) && TimelyThread(next, fp, f) && !Threat(next, fp, f)
  {
    hide Read;
    if thread.Reads? && thread.todo != [] {
      var todo := thread.todo;
      assert [todo[0]] + todo[1..] == todo;
      if ScanProgram(todo) { RestIsScan(todo); }
      ReadKeeps(t, todo[0], todo[1..], order, fp, f);
    }
  }

  /** Nothing in a state can change the operator's decision on `fp`. */
  predicate Secure(s: System, fp: Fingerprint, f: Finding) {
    && Kept(s.table, fp, f)
    && forall i :: 0 <= i < |s.threads| ==>
         Shaped(s.threads[i]) && TimelyThread(s.threads[i], fp, f) && !Threat(s.threads[i], fp, f)
  }

  lemma StepSecure(s: System, m: Move, fp: Fingerprint, f: Finding)
    requires Enabled(s, m) && Placed(f) && Secure(s, fp, f) && ScansInTime([m], fp, f)
    ensures Secure(Step(s, m), fp, f)
  {
    hide Statement, Shaped, TimelyThread, Threat, Kept, Selects;
    assert [m][0] == m;
    match m
    case Start(todo) => StartSecure(todo, fp, f);
    case Advance(i, order) =>
      StatementKeeps(s.table, s.threads[i], order, fp, f);
      StatementShaped(s.table, s.threads[i], order);
  }

  lemma StartSecure(todo: seq<Task>, fp: Fingerprint, f: Finding)
    requires ScanProgram(todo) && Timely(todo, fp, f)
    ensures Shaped(Reads(todo)) && TimelyThread(Reads(todo), fp, f) && !Threat(Reads(todo), fp, f)
  {
    assert todo != [] ==> todo[0].Import? || todo[0].Sight? || todo[0].Select?;
  }

  lemma {:induction false} RunSecure(s: System, moves: seq<Move>, fp: Fingerprint, f: Finding)
    requires Runs(s, moves) && Placed(f) && Secure(s, fp, f) && ScansInTime(moves, fp, f)
    ensures Kept(Exec(s, moves).table, fp, f)
    decreases |moves|
  {
    hide Step, Placed, Kept, Shaped, TimelyThread, Threat;
    if moves != [] {
      assert ScansInTime([moves[0]], fp, f);
      assert forall i :: 0 <= i < |moves[1..]| ==> moves[1..][i] == moves[i + 1];
      StepSecure(s, moves[0], fp, f);
      RunSecure(Step(s, moves[0]), moves[1..], fp, f);
    }
  }

  // A threat carries itself out.

  lemma {:induction false} OneStep(s: System, m: Move)
    requires Enabled(s, m)
    ensures Runs(s, [m]) && Exec(s, [m]) == Step(s, m)
  {
    assert [m][1..] == [];
    assert Runs(Step(s, m), []);
  }

  lemma {:induction false} StepFirst(s: System, m: Move, moves: seq<Move>)
    requires Enabled(s, m) && Runs(Step(s, m), moves)
    ensures Runs(s, [m] + moves) && Exec(s, [m] + moves) == Exec(Step(s, m), moves)
  {
    assert ([m] + moves)[1..] == moves;
  }

  predicate OnlyAdvances(moves: seq<Move>) {
    forall i :: 0 <= i < |moves| ==> moves[i].Advance?
  }

  /** The flips of a thread, up to the one of `fp`. */
  lemma {:induction false} FlipsReach(s: System, i: nat, fp: Fingerprint) returns (moves: seq<Move>)
    requires i < |s.threads| && s.threads[i].Flips? && fp in s.threads[i].fps && fp in s.table
    ensures OnlyAdvances(moves) && Runs(s, moves)
    ensures fp in Exec(s, moves).table && Exec(s, moves).table[fp].status.Resolved?
    decreases |s.threads[i].fps|
  {
    var m := Advance(i, []);
    var next := Step(s, m);
    if s.threads[i].fps[0] == fp {
      OneStep(s, m);
      moves := [m];
    } else {
      var rest := FlipsReach(next, i, fp);
      StepFirst(s, m, rest);
      moves := [m] + rest;
    }
  }

  lemma ThreatActs(s: System, i: nat, fp: Fingerprint, f: Finding) returns (moves: seq<Move>)
    requires i < |s.threads| && Placed(f) && Kept(s.table, fp, f) && Threat(s.threads[i], fp, f)
    ensures OnlyAdvances(moves) && Runs(s, moves) && !Kept(Exec(s, moves).table, fp, f)
  {
    var m := Advance(i, []);
    match s.threads[i]
    case Reads(todo) =>
      var next := Step(s, m);
      OneStep(next, m);
      StepFirst(s, m, [m]);
      moves := [m] + [m];
    case Writes(w, todo) =>
      OneStep(s, m);
      moves := [m];
    case Flips(fps, _) =>
      moves := FlipsReach(s, i, fp);
  }

  /** What an operator put in force on `fp` survives every continuation by scans and probes, with
      its note and actor, if and only if no thread is past its read or its selection of that row
      with something else to write. */
  lemma {:induction false} IntentSurvivesExactly(s: System, fp: Fingerprint)
    requires AllShaped(s) && fp in s.table && Placed(s.table[fp])
    requires forall i :: 0 <= i < |s.threads| ==> TimelyThread(s.threads[i], fp, s.table[fp])
    ensures (forall moves :: Runs(s, moves) && ScansInTime(moves, fp, s.table[fp]) ==>
               Kept(Exec(s, moves).table, fp, s.table[fp]))
            <==> forall i :: 0 <= i < |s.threads| ==> !Threat(s.threads[i], fp, s.table[fp])
  {
    hide Shaped, TimelyThread, Threat, Placed;
    var f := s.table[fp];
    assert Kept(s.table, fp, f);
    if forall i :: 0 <= i < |s.threads| ==> !Threat(s.threads[i], fp, f) {
      forall moves | Runs(s, moves) && ScansInTime(moves, fp, f) ensures Kept(Exec(s, moves).table, fp, f) {
        RunSecure(s, moves, fp, f);
      }
    } else {
      var i :| 0 <= i < |s.threads| && Threat(s.threads[i], fp, f);
      var moves := ThreatActs(s, i, fp, f);
      assert ScansInTime(moves, fp, f);
    }
  }

  // -- Resolution is reported once, unless two selections overlap -----------------------------------------------------

  /** The step selects `fp` as absent: its thread will report it as resolved. */
  predicate Reports(fp: Fingerprint, s: System, m: Move) {
    m.Advance? && m.index < |s.threads| && fp in Found(s.table, s.threads[m.index])
  }

  /** The step writes the row of `fp` open: the write of a sighting or of an unmute. */
  predicate Opens(fp: Fingerprint, s: System, m: Move) {
    && m.Advance? && m.index < |s.threads| && s.threads[m.index].Writes? && s.threads[m.index].write.fp == fp
    && (s.threads[m.index].write.Refresh? || s.threads[m.index].write.Reopen?)
    && Enabled(s, m) && fp in Step(s, m).table && Step(s, m).table[fp].status.Open?
  }

  predicate Owes(s: System, a: nat, fp: Fingerprint) {
    a < |s.threads| && s.threads[a].Flips? && fp in s.threads[a].fps
  }

  /** Only a sighting or an unmute turns a row open that was not. */
  lemma OpensIsSighting(s: System, m: Move, fp: Fingerprint)
    requires Enabled(s, m) && AllShaped(s) && L.NotOpen(s.table, fp) && !Opens(fp, s, m)
    ensures L.NotOpen(Step(s, m).table, fp)
  {
    hide Read, Absent, Selects;
    if m.Advance? { assert Shaped(s.threads[m.index]); }
  }

  lemma StepClosed(s: System, m: Move, a: nat, fp: Fingerprint)
    requires Enabled(s, m) && AllShaped(s) && fp in s.table && !Opens(fp, s, m)
    requires Owes(s, a, fp) || L.NotOpen(s.table, fp)
    ensures fp in Step(s, m).table && (Owes(Step(s, m), a, fp) || L.NotOpen(Step(s, m).table, fp))
  {
    hide Opens;
    if L.NotOpen(s.table, fp) {
      OpensIsSighting(s, m, fp);
    } else if m.Advance? {
      var thread := s.threads[m.index];
      hide Read, Absent, Selects;
      if thread.Flips? && thread.fps != [] {
        assert fp in thread.fps ==> fp == thread.fps[0] || fp in thread.fps[1..];
      }
    }
  }

  lemma {:induction false} RunClosed(s: System, moves: seq<Move>, a: nat, fp: Fingerprint)
    requires Runs(s, moves) && AllShaped(s) && fp in s.table
    requires Never(s, moves, (u: System, m: Move) => Opens(fp, u, m))
    requires Owes(s, a, fp) || L.NotOpen(s.table, fp)
    ensures var end := Exec(s, moves); fp in end.table && (Owes(end, a, fp) || L.NotOpen(end.table, fp))
    decreases |moves|
  {
    hide Step, Opens, Owes, L.NotOpen, Shaped;
    if moves != [] {
      StepShaped(s, moves[0]);
      StepClosed(s, moves[0], a, fp);
      RunClosed(Step(s, moves[0]), moves[1..], a, fp);
    }
  }

  /** Between two reports of the same finding as resolved, a sighting or an unmute wrote its row
      open, or the first reporter had not yet flipped it. */
  lemma {:induction false} ReportedOnce(s: System, first: Move, moves: seq<Move>, second: Move, fp: Fingerprint)
    requires AllShaped(s)
    requires Enabled(s, first) && Runs(Step(s, first), moves) && Enabled(Exec(Step(s, first), moves), second)
    requires Reports(fp, s, first) && Reports(fp, Exec(Step(s, first), moves), second)
    requires Never(Step(s, first), moves, (u: System, m: Move) => Opens(fp, u, m))
    ensures Owes(Exec(Step(s, first), moves), first.index, fp)
  {
    StepShaped(s, first);
    RunClosed(Step(s, first), moves, first.index, fp);
  }

  /** Another thread changes the row of `fp`. */
  predicate Interferes(fp: Fingerprint, a: nat, s: System, m: Move) {
    && m.Advance? && m.index < |s.threads| && m.index != a
    && ((s.threads[m.index].Writes? && s.threads[m.index].write.fp == fp)
        || (s.threads[m.index].Flips? && s.threads[m.index].fps != [] && s.threads[m.index].fps[0] == fp))
  }

  /** As selected while the flip is owed, resolved at the selection's time from then on. */
  predicate HalfResolved(s: System, a: nat, fp: Fingerprint, f: Finding) {
    && a < |s.threads| && s.threads[a].Flips? && Shaped(s.threads[a]) && fp in s.table
    && s.table[fp] == if fp in s.threads[a].fps then f else f.(status := Resolved, lastSeen := s.threads[a].now)
  }

  lemma StepHalf(s: System, m: Move, a: nat, fp: Fingerprint, f: Finding)
    requires Enabled(s, m) && HalfResolved(s, a, fp, f) && !Interferes(fp, a, s, m)
    ensures HalfResolved(Step(s, m), a, fp, f)
  {
    hide Read, Absent, Selects;
    if m.Advance? && m.index == a {
      var fps := s.threads[a].fps;
      if fps != [] {
        assert forall i :: 0 <= i < |fps[1..]| ==> fps[1..][i] == fps[i + 1];
        assert fp in fps <==> fp == fps[0] || fp in fps[1..];
        assert fps[0] !in fps[1..];
      }
    }
  }

  lemma {:induction false} RunHalf(s: System, moves: seq<Move>, a: nat, fp: Fingerprint, f: Finding)
    requires Runs(s, moves) && HalfResolved(s, a, fp, f)
    requires Never(s, moves, (u: System, m: Move) => Interferes(fp, a, u, m))
    ensures HalfResolved(Exec(s, moves), a, fp, f)
    decreases |moves|
  {
    hide Step, Interferes, HalfResolved;
    if moves != [] {
      StepHalf(s, moves[0], a, fp, f);
      RunHalf(Step(s, moves[0]), moves[1..], a, fp, f);
    }
  }

  /** What a selection comes to when no other thread writes the row in between: the row is as it
      was selected until the flip, then resolved; and a second selection that misses the
      finding, quiet for its own grace window, reports it again exactly when the two overlap. */
  lemma {:induction false} SecondReportExactly(
    s: System, first: Move, moves: seq<Move>, fp: Fingerprint, current: set<Fingerprint>, now: Instant, grace: nat)
    requires Enabled(s, first) && Runs(Step(s, first), moves) && Reports(fp, s, first)
    requires Never(Step(s, first), moves, (u: System, m: Move) => Interferes(fp, first.index, u, m))
    requires fp !in current && s.table[fp].lastSeen <= now - grace
    ensures var end := Exec(Step(s, first), moves);
            && HalfResolved(end, first.index, fp, s.table[fp])
            && (fp in Absent(end.table, current, now, grace) <==> Owes(end, first.index, fp))
  {
    hide Interferes;
    RunHalf(Step(s, first), moves, first.index, fp, s.table[fp]);
  }
}
