/** Flapping under concurrency. */
module Flapping {
  // When a finding that was sighted within the grace window can still end up resolved, because of
  // what a thread read or carries from before.

  import opened Text
  import opened Findings
  import opened Concurrent
  import Races
  import L = Lifecycle

  // -- Programs that only sight the finding --------------------------------------------------------

  /** No decision about `fp`, by an operator or a committed mute; at most one sighting of it, and
      then the selection knows it as present. */
  predicate OnlySights(todo: seq<Task>, fp: Fingerprint) {
    && (forall i :: 0 <= i < |todo| && (todo[i].Import? || todo[i].Operate? || todo[i].Lift?) ==> todo[i].fp != fp)
    && (forall i, j :: 0 <= i < j < |todo| && SightsIt(todo[i], fp) ==> Knows(todo[j], fp))
  }

  predicate SightsIt(k: Task, fp: Fingerprint) {
    k.Sight? && k.fp == fp
  }

  predicate Knows(k: Task, fp: Fingerprint) {
    !SightsIt(k, fp) && (k.Select? ==> fp in k.current)
  }

  predicate OnlySightsIt(thread: Thread, fp: Fingerprint) {
    match thread
    case Reads(todo) => OnlySights(todo, fp)
    case Writes(w, todo) =>
      OnlySights(todo, fp)
      && (w.fp == fp ==>
            (w.Insert? || (w.Refresh? && !w.status.Resolved?)) && forall i :: 0 <= i < |todo| ==> Knows(todo[i], fp))
    case _ => true
  }

  // -- What can still resolve it ---------------------------------------------------------------------

  /** A sighting of `fp` by a clock before `since`. */
  predicate Old(todo: seq<Task>, fp: Fingerprint, since: Instant) {
    exists i :: 0 <= i < |todo| && SightsIt(todo[i], fp) && todo[i].now < since
  }

  /** A selection that misses `fp`, by a clock at least its grace window after `since`. */
  predicate Late(todo: seq<Task>, fp: Fingerprint, since: Instant) {
    exists i :: 0 <= i < |todo| && todo[i].Select? && fp !in todo[i].current && since <= todo[i].now - todo[i].grace
  }

  /** The thread has selected `fp`, will select it late, or carries an older sighting of it; unless
      it is about to crash. */
  predicate Stale(thread: Thread, t: Table, fp: Fingerprint, since: Instant) {
    match thread
    case Reads(todo) => Old(todo, fp, since) || Late(todo, fp, since)
    case Writes(w, todo) =>
      !Raises(t, w)
      && ((w.fp == fp && w.Refresh? && w.status.Open? && w.now < since) || Old(todo, fp, since) || Late(todo, fp, since))
    case Flips(fps, _) => fp in fps
    case Crashed => false
  }

  /** Not resolved, and last seen no earlier than `since` while it is open. */
  predicate Alive(t: Table, fp: Fingerprint, since: Instant) {
    fp in t && !t[fp].status.Resolved? && (t[fp].status.Open? ==> since <= t[fp].lastSeen)
  }

  /** Whatever starts only sights `fp`, by a clock that has not gone back, or misses it less than a
      grace window after `since`. */
  predicate Current(moves: seq<Move>, fp: Fingerprint, since: Instant, grace: nat) {
    forall i :: 0 <= i < |moves| && moves[i].Start? ==>
      && OnlySights(moves[i].todo, fp) && !Old(moves[i].todo, fp, since) && !Late(moves[i].todo, fp, since)
      && forall j :: 0 <= j < |moves[i].todo| && moves[i].todo[j].Select? ==> moves[i].todo[j].grace == grace
  }

  // -- Nothing stale: never resolved --------------------------------------------------------------------

  lemma RestStaysFresh(k: Task, rest: seq<Task>, fp: Fingerprint, since: Instant)
    requires OnlySights([k] + rest, fp) && !Old([k] + rest, fp, since) && !Late([k] + rest, fp, since)
    ensures OnlySights(rest, fp) && !Old(rest, fp, since) && !Late(rest, fp, since)
    ensures SightsIt(k, fp) ==> k.now >= since && forall i :: 0 <= i < |rest| ==> Knows(rest[i], fp)
    ensures k.Select? ==> fp in k.current || k.now - k.grace < since
    ensures k.Import? || k.Operate? || k.Lift? ==> k.fp != fp
  {
    var todo := [k] + rest;
    assert todo[0] == k && forall i :: 0 <= i < |rest| ==> todo[i + 1] == rest[i];
  }

  /** A committed mute of another fingerprint that is about to be written. */
  lemma ImportStaysFresh(k: Task, rest: seq<Task>, fp: Fingerprint, since: Instant)
    requires k.Operate? && k.fp != fp && OnlySights(rest, fp) && !Old(rest, fp, since) && !Late(rest, fp, since)
    ensures OnlySights([k] + rest, fp) && !Old([k] + rest, fp, since) && !Late([k] + rest, fp, since)
  {
    var todo := [k] + rest;
    assert todo[0] == k && forall i :: 0 < i < |todo| ==> todo[i] == rest[i - 1];
  }

  lemma ReadStaysFresh(t: Table, k: Task, rest: seq<Task>, order: seq<Fingerprint>, fp: Fingerprint, since: Instant)
    requires Alive(t, fp, since) && OnlySights([k] + rest, fp) && !Old([k] + rest, fp, since) && !Late([k] + rest, fp, since)
    requires k.Select? ==> Lists(order, Absent(t, k.current, k.now, k.grace))
    ensures var next := Read(t, k, rest, order); OnlySightsIt(next, fp) && !Stale(next, t, fp, since)
  {
    hide OnlySights, Old, Late, Knows, IsSuppressed;
    RestStaysFresh(k, rest, fp, since);
    if k.Import? {
      ImportStaysFresh(Operate(k.fp, Muted, None, Some(k.commit.note), Some(k.commit.author), k.now), rest, fp, since);
    }
  }

  lemma StatementStaysFresh(t: Table, thread: Thread, order: seq<Fingerprint>, fp: Fingerprint, since: Instant)
    requires Alive(t, fp, since) && OnlySightsIt(thread, fp) && !Stale(thread, t, fp, since)
    requires Selects(thread) ==> Lists(order, Found(t, thread))
    ensures var (after, next) := Statement(t, thread, order);
            Alive(after, fp, since) && OnlySightsIt(next, fp) && !Stale(next, after, fp, since)
  {
    hide Read, OnlySights, Old, Late;
    if thread.Reads? && thread.todo != [] {
      var todo := thread.todo;
      assert [todo[0]] + todo[1..] == todo;
      ReadStaysFresh(t, todo[0], todo[1..], order, fp, since);
    }
  }

  /** Only more rows can be there later, so a thread that is not stale does not become so by waiting. */
  lemma WaitsFresh(thread: Thread, t: Table, u: Table, fp: Fingerprint, since: Instant)
    requires L.Grows(t, u) && !Stale(thread, t, fp, since)
    ensures !Stale(thread, u, fp, since)
  {
  }

  predicate Calm(s: System, fp: Fingerprint, since: Instant) {
    && Alive(s.table, fp, since)
    && forall i :: 0 <= i < |s.threads| ==> OnlySightsIt(s.threads[i], fp) && !Stale(s.threads[i], s.table, fp, since)
  }

  lemma StepCalm(s: System, m: Move, fp: Fingerprint, since: Instant, grace: nat)
    requires Enabled(s, m) && Calm(s, fp, since) && Current([m], fp, since, grace)
    ensures Calm(Step(s, m), fp, since)
  {
    hide Statement, OnlySightsIt, Stale, Alive, Selects, L.Grows;
    assert [m][0] == m;
    match m
    case Start(todo) =>
      assert OnlySightsIt(Reads(todo), fp) && !Stale(Reads(todo), s.table, fp, since) by { StartFresh(s.table, todo, fp, since); }
    case Advance(i, order) =>
      StatementStaysFresh(s.table, s.threads[i], order, fp, since);
      StatementGrows(s.table, s.threads[i], order);
      forall j | 0 <= j < |s.threads| ensures !Stale(s.threads[j], Step(s, m).table, fp, since) {
        WaitsFresh(s.threads[j], s.table, Step(s, m).table, fp, since);
      }
  }

  lemma StartFresh(t: Table, todo: seq<Task>, fp: Fingerprint, since: Instant)
    requires OnlySights(todo, fp) && !Old(todo, fp, since) && !Late(todo, fp, since)
    ensures OnlySightsIt(Reads(todo), fp) && !Stale(Reads(todo), t, fp, since)
  {
  }

  lemma {:induction false} RunCalm(s: System, moves: seq<Move>, fp: Fingerprint, since: Instant, grace: nat)
    requires Runs(s, moves) && Calm(s, fp, since) && Current(moves, fp, since, grace)
    ensures Alive(Exec(s, moves).table, fp, since)
    decreases |moves|
  {
    hide Step, Alive, OnlySightsIt, Stale, OnlySights, Old, Late;
    if moves != [] {
      assert Current([moves[0]], fp, since, grace);
      assert forall i :: 0 <= i < |moves[1..]| ==> moves[1..][i] == moves[i + 1];
      StepCalm(s, moves[0], fp, since, grace);
      RunCalm(Step(s, moves[0]), moves[1..], fp, since, grace);
    }
  }

  // -- Something stale: it can be resolved --------------------------------------------------------------------

  lemma {:induction false} ListOf(fps: set<Fingerprint>) returns (order: seq<Fingerprint>)
    ensures Lists(order, fps)
    decreases |fps|
  {
    if fps == {} {
      order := [];
    } else {
      var fp :| fp in fps;
      var rest := ListOf(fps - {fp});
      order := rest + [fp];
      assert forall x :: x in fps ==> x == fp || x in fps - {fp};
    }
  }

  predicate Ends(s: System, moves: seq<Move>, fp: Fingerprint) {
    Runs(s, moves) && fp in Exec(s, moves).table && Exec(s, moves).table[fp].status.Resolved?
  }

  /** A selection that finds `fp`, carried out. */
  lemma SelectionEnds(s: System, i: nat, fp: Fingerprint) returns (moves: seq<Move>)
    requires i < |s.threads| && fp in Found(s.table, s.threads[i])
    ensures OnlyAdvances(moves) && Ends(s, moves, fp)
  {
    hide Absent;
    var order := ListOf(Found(s.table, s.threads[i]));
    var m := Advance(i, order);
    assert fp in s.table by { FoundIsThere(s.table, s.threads[i], fp); }
    var rest := FlipsReach(Step(s, m), i, fp);
    StepFirst(s, m, rest);
    moves := [m] + rest;
  }

  lemma FoundIsThere(t: Table, thread: Thread, fp: Fingerprint)
    requires fp in Found(t, thread)
    ensures fp in t
  {
  }

  lemma {:induction false} Together(s: System, a: seq<Move>, b: seq<Move>, fp: Fingerprint, since: Instant, grace: nat)
    requires Runs(s, a) && OnlyAdvances(a) && Ends(Exec(s, a), b, fp) && Current(b, fp, since, grace)
    ensures Ends(s, a + b, fp) && Current(a + b, fp, since, grace)
  {
    hide Old, Late, OnlySights;
    Races.Append(s, a, b);
    assert forall i :: |a| <= i < |a + b| ==> (a + b)[i] == b[i - |a|];
  }

  /** A row left open with an older sighting is resolved by the next scan that misses it, even within
      the grace window. */
  lemma OutdatedEnds(s: System, fp: Fingerprint, since: Instant, grace: nat) returns (moves: seq<Move>)
    requires fp in s.table && s.table[fp].status.Open? && s.table[fp].lastSeen < since && grace > 0
    ensures Ends(s, moves, fp) && Current(moves, fp, since, grace)
  {
    var k := Select({}, since + grace - 1, grace);
    var start := Start([k]);
    var next := Step(s, start);
    assert [k][0] == k && fp in Found(next.table, next.threads[|s.threads|]);
    var rest := SelectionEnds(next, |s.threads|, fp);
    StepFirst(s, start, rest);
    moves := [start] + rest;
    assert forall i :: 0 < i < |moves| ==> moves[i] == rest[i - 1];
    assert OnlySights([k], fp) && !Old([k], fp, since) && !Late([k], fp, since);
  }

  /** One row's worth of work on another fingerprint leaves the row of `fp` alone. */
  lemma OtherWrite(s: System, i: nat, fp: Fingerprint) returns (moves: seq<Move>)
    requires i < |s.threads| && s.threads[i].Reads? && s.threads[i].todo != []
    requires var k := s.threads[i].todo[0]; (k.Sight? || k.Operate? || k.Lift?) && k.fp != fp
    ensures Elsewhere(s, i, moves, fp)
  {
    hide Refreshed, Sighted, IsSuppressed;
    var m := Advance(i, []);
    var next := Step(s, m);
    if next.threads[i].Writes? {
      OneStep(next, m);
      StepFirst(s, m, [m]);
      moves := [m] + [m];
    } else {
      OneStep(s, m);
      moves := [m];
    }
  }

  /** The thread has done its first task, and nothing happened to `fp`. */
  predicate Elsewhere(s: System, i: nat, moves: seq<Move>, fp: Fingerprint) {
    && i < |s.threads| && s.threads[i].Reads? && s.threads[i].todo != [] && Runs(s, moves) && OnlyAdvances(moves)
    && i < |Exec(s, moves).threads| && Exec(s, moves).threads[i] == Reads(s.threads[i].todo[1..])
    && Lookup(Exec(s, moves).table, fp) == Lookup(s.table, fp)
  }

  lemma OtherTask(s: System, i: nat, fp: Fingerprint) returns (moves: seq<Move>)
    requires i < |s.threads| && s.threads[i].Reads? && s.threads[i].todo != []
    requires var k := s.threads[i].todo[0]; !k.Select? && k.fp != fp
    ensures Elsewhere(s, i, moves, fp)
  {
    hide Refreshed, Sighted, IsSuppressed;
    var todo := s.threads[i].todo;
    if todo[0].Import? {
      var m := Advance(i, []);
      var next := Step(s, m);
      if next.threads[i] == Reads(todo[1..]) {
        OneStep(s, m);
        moves := [m];
      } else {
        var k := Operate(todo[0].fp, Muted, None, Some(todo[0].commit.note), Some(todo[0].commit.author), todo[0].now);
        assert next.threads[i] == Reads([k] + todo[1..]) && ([k] + todo[1..])[1..] == todo[1..];
        var rest := OtherWrite(next, i, fp);
        StepFirst(s, m, rest);
        moves := [m] + rest;
      }
    } else {
      moves := OtherWrite(s, i, fp);
    }
  }

  /** An older sighting carried out: the row is open with its clock. */
  lemma SightingOutdates(s: System, i: nat, fp: Fingerprint, since: Instant) returns (moves: seq<Move>)
    requires i < |s.threads| && s.threads[i].Reads? && s.threads[i].todo != []
    requires SightsIt(s.threads[i].todo[0], fp) && s.threads[i].todo[0].now < since
    requires fp in s.table && s.table[fp].status.Open?
    ensures Runs(s, moves) && OnlyAdvances(moves)
    ensures var end := Exec(s, moves).table; fp in end && end[fp].status.Open? && end[fp].lastSeen < since
  {
    var m := Advance(i, []);
    var next := Step(s, m);
    OneStep(next, m);
    StepFirst(s, m, [m]);
    moves := [m] + [m];
  }

  lemma TailIsStale(todo: seq<Task>, fp: Fingerprint, since: Instant)
    requires todo != [] && OnlySights(todo, fp) && (Old(todo, fp, since) || Late(todo, fp, since))
    requires !SightsIt(todo[0], fp) && !todo[0].Select?
    ensures OnlySights(todo[1..], fp) && (Old(todo[1..], fp, since) || Late(todo[1..], fp, since))
  {
    assert forall i :: 0 <= i < |todo[1..]| ==> todo[1..][i] == todo[i + 1];
    if i :| 0 <= i < |todo| && SightsIt(todo[i], fp) && todo[i].now < since {
      assert SightsIt(todo[1..][i - 1], fp);
    } else {
      var i :| 0 <= i < |todo| && todo[i].Select? && fp !in todo[i].current && since <= todo[i].now - todo[i].grace;
      assert todo[1..][i - 1].Select?;
    }
  }

  /** A task of the finding itself, or the selection, at the head of a stale program is the stale one. */
  lemma HeadIsStale(todo: seq<Task>, fp: Fingerprint, since: Instant)
    requires todo != [] && OnlySights(todo, fp) && (Old(todo, fp, since) || Late(todo, fp, since))
    ensures SightsIt(todo[0], fp) ==> todo[0].now < since
    ensures todo[0].Select? && |todo| == 1 ==> fp !in todo[0].current && since <= todo[0].now - todo[0].grace
  {
  }

  lemma {:induction false} StaleReads(s: System, i: nat, fp: Fingerprint, since: Instant, grace: nat) returns (moves: seq<Move>)
    requires i < |s.threads| && s.threads[i].Reads? && SelectsLast(s.threads[i].todo) && grace > 0
    requires OnlySights(s.threads[i].todo, fp) && (Old(s.threads[i].todo, fp, since) || Late(s.threads[i].todo, fp, since))
    requires fp in s.table && s.table[fp].status.Open? && s.table[fp].lastSeen <= since
    ensures Ends(s, moves, fp) && Current(moves, fp, since, grace)
    decreases |s.threads[i].todo|
  {
    hide Old, Late, OnlySights, Ends, Current;
    var todo := s.threads[i].todo;
    assert todo != [] by { StaleNotEmpty(todo, fp, since); }
    HeadIsStale(todo, fp, since);
    if todo[0].Select? {
      moves := SelectionEnds(s, i, fp);
      assert Current(moves, fp, since, grace) by { AdvancesAreCurrent(moves, fp, since, grace); }
    } else if SightsIt(todo[0], fp) {
      var first := SightingOutdates(s, i, fp, since);
      var rest := OutdatedEnds(Exec(s, first), fp, since, grace);
      Together(s, first, rest, fp, since, grace);
      moves := first + rest;
    } else {
      assert todo[0].fp != fp by { OtherHead(todo, fp); }
      var first := OtherTask(s, i, fp);
      TailIsStale(todo, fp, since);
      var rest := StaleReads(Exec(s, first), i, fp, since, grace);
      Together(s, first, rest, fp, since, grace);
      moves := first + rest;
    }
  }

  lemma StaleNotEmpty(todo: seq<Task>, fp: Fingerprint, since: Instant)
    requires Old(todo, fp, since) || Late(todo, fp, since)
    ensures todo != []
  {
  }

  lemma OtherHead(todo: seq<Task>, fp: Fingerprint)
    requires todo != [] && OnlySights(todo, fp) && !SightsIt(todo[0], fp) && !todo[0].Select?
    ensures todo[0].fp != fp
  {
  }

  lemma AdvancesAreCurrent(moves: seq<Move>, fp: Fingerprint, since: Instant, grace: nat)
    requires OnlyAdvances(moves)
    ensures Current(moves, fp, since, grace)
  {
  }

  /** A selection comes last. */
  predicate SelectsLast(todo: seq<Task>) {
    forall i :: 0 <= i < |todo| && todo[i].Select? ==> i == |todo| - 1
  }

  lemma ShapedSelectsLast(thread: Thread)
    requires Shaped(thread) && (thread.Reads? || thread.Writes?)
    ensures SelectsLast(thread.todo)
  {
    if thread.Reads? && thread.todo != [] {
      assert forall i :: 0 <= i < |thread.todo[1..]| ==> thread.todo[1..][i] == thread.todo[i + 1];
    }
  }

  lemma StaleEnds(s: System, i: nat, fp: Fingerprint, since: Instant, grace: nat) returns (moves: seq<Move>)
    requires i < |s.threads| && Shaped(s.threads[i]) && OnlySightsIt(s.threads[i], fp) && grace > 0
    requires Stale(s.threads[i], s.table, fp, since)
    requires fp in s.table && s.table[fp].status.Open? && s.table[fp].lastSeen == since
    ensures Ends(s, moves, fp) && Current(moves, fp, since, grace)
  {
    hide Old, Late, OnlySights, Current, Ends;
    match s.threads[i]
    case Reads(todo) =>
      ShapedSelectsLast(s.threads[i]);
      moves := StaleReads(s, i, fp, since, grace);
    case Flips(fps, _) =>
      moves := FlipsReach(s, i, fp);
      assert Ends(s, moves, fp) by { IsEnd(s, moves, fp); }
      AdvancesAreCurrent(moves, fp, since, grace);
    case Writes(w, todo) =>
      var m := Advance(i, []);
      var next := Step(s, m);
      OneStep(s, m);
      ShapedSelectsLast(s.threads[i]);
      if w.fp == fp {
        KnownIsNotStale(todo, fp, since);
        var rest := OutdatedEnds(next, fp, since, grace);
        Together(s, [m], rest, fp, since, grace);
        moves := [m] + rest;
      } else {
        var rest := StaleReads(next, i, fp, since, grace);
        Together(s, [m], rest, fp, since, grace);
        moves := [m] + rest;
      }
  }

  lemma {:induction false} IsEnd(s: System, moves: seq<Move>, fp: Fingerprint)
    requires Runs(s, moves) && fp in Exec(s, moves).table && Exec(s, moves).table[fp].status.Resolved?
    ensures Ends(s, moves, fp)
  {
  }

  lemma KnownIsNotStale(todo: seq<Task>, fp: Fingerprint, since: Instant)
    requires forall i :: 0 <= i < |todo| ==> Knows(todo[i], fp)
    ensures !Old(todo, fp, since) && !Late(todo, fp, since)
  {
  }

  /** No flapping under concurrency. An open finding that nobody decides about is never found
      resolved, whatever starts within the grace window of its last sighting by a clock that has not
      gone back, if and only if no thread in flight has selected it, will select it late, or still
      carries an older sighting of it. */
  lemma {:induction false} NoFlappingExactly(s: System, fp: Fingerprint, grace: nat)
    requires AllShaped(s) && fp in s.table && s.table[fp].status.Open? && grace > 0
    requires forall i :: 0 <= i < |s.threads| ==> OnlySightsIt(s.threads[i], fp)
    ensures (forall moves :: Runs(s, moves) && Current(moves, fp, s.table[fp].lastSeen, grace) ==>
               fp in Exec(s, moves).table && !Exec(s, moves).table[fp].status.Resolved?)
            <==> forall i :: 0 <= i < |s.threads| ==> !Stale(s.threads[i], s.table, fp, s.table[fp].lastSeen)
  {
    hide Shaped, OnlySightsIt, Stale, Current;
    var since := s.table[fp].lastSeen;
    if forall i :: 0 <= i < |s.threads| ==> !Stale(s.threads[i], s.table, fp, since) {
      forall moves | Runs(s, moves) && Current(moves, fp, since, grace)
        ensures fp in Exec(s, moves).table && !Exec(s, moves).table[fp].status.Resolved?
      {
        RunCalm(s, moves, fp, since, grace);
      }
    } else {
      var i :| 0 <= i < |s.threads| && Stale(s.threads[i], s.table, fp, since);
      var moves := StaleEnds(s, i, fp, since, grace);
    }
  }
}
