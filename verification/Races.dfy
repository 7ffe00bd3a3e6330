/** Concrete schedules in which a scan and an operator, or two scans, get in each other's way. */
module Races {
  import opened Text
  import opened Findings
  import opened Concurrent
  import L = Lifecycle

  /** A store that has seen `fp` once, and the probe that saw it is done. */
  predicate Noticed(s: System, fp: Fingerprint, sighting: Sighting, at: Instant) {
    s.table == map[fp := Sighted(None, sighting, at)] && s.threads == [Reads([])]
  }

  lemma Notice(s: System, fp: Fingerprint, sighting: Sighting, at: Instant) returns (moves: seq<Move>)
    requires Fresh(s)
    ensures Runs(s, moves) && Noticed(Exec(s, moves), fp, sighting, at)
  {
    var k := Sight(fp, sighting, at);
    var start, go := Start([k]), Advance(0, []);
    var s1 := Step(s, start);
    assert [k][1..] == [];
    var s2 := Step(s1, go);
    OneStep(s2, go);
    StepFirst(s1, go, [go]);
    StepFirst(s, start, [go] + [go]);
    moves := [start] + ([go] + [go]);
  }

  lemma {:induction false} Append(s: System, a: seq<Move>, b: seq<Move>)
    requires Runs(s, a) && Runs(Exec(s, a), b)
    ensures Runs(s, a + b) && Exec(s, a + b) == Exec(Exec(s, a), b)
    decreases |a|
  {
    hide Step, Enabled;
    if a == [] {
      assert a + b == b;
    } else {
      assert (a + b)[1..] == a[1..] + b;
      Append(Step(s, a[0]), a[1..], b);
    }
  }

  lemma {:induction false} AlwaysAtTheEnd(s: System, moves: seq<Move>, p: System -> bool)
    requires Runs(s, moves) && Always(s, moves, p)
    ensures p(Exec(s, moves))
    decreases |moves|
  {
    hide Step, Enabled;
    if moves != [] { AlwaysAtTheEnd(Step(s, moves[0]), moves[1..], p); }
  }

  /** From an empty store a run that ends with a snooze end on a row that is not snoozed, or the other
      way round, has resolved a row snoozed since its selection. */
  lemma {:induction false} EndsBadly(s: System, moves: seq<Move>, fp: Fingerprint)
    requires Fresh(s) && Runs(s, moves) && !L.WellFormedRow(Exec(s, moves).table, fp)
    ensures !Never(s, moves, (u: System, m: Move) => FlipsSnoozed(fp, u, m))
  {
    hide FlipsSnoozed, L.WellFormedRow;
    FreshIsGood(s, fp);
    SnoozeEndExactly(s, moves, fp);
    if Always(s, moves, (u: System) => L.WellFormedRow(u.table, fp)) {
      AlwaysAtTheEnd(s, moves, (u: System) => L.WellFormedRow(u.table, fp));
    }
  }

  /** A snooze placed on a selected finding, and the flip after it. */
  lemma FlipAfterSnooze(s: System, fp: Fingerprint, now: Instant, until: Instant, actor: Option<string>) returns (moves: seq<Move>)
    requires |s.threads| == 2 && s.threads[1] == Flips([fp], now) && fp in s.table
    ensures Runs(s, moves)
    ensures var end := Exec(s, moves).table; fp in end && end[fp].status.Resolved? && end[fp].snoozeUntil == Some(until)
  {
    var operate := Start([Operate(fp, Snoozed, Some(until), None, actor, now)]);
    var act, flip := Advance(2, []), Advance(1, []);
    var s1 := Step(s, operate);
    var s2 := Step(s1, act);
    var s3 := Step(s2, act);
    assert s3.table[fp].snoozeUntil == Some(until) && s3.threads[1] == Flips([fp], now);
    OneStep(s3, flip);
    StepFirst(s2, act, [flip]);
    StepFirst(s1, act, [act] + [flip]);
    StepFirst(s, operate, [act] + ([act] + [flip]));
    moves := [operate] + ([act] + ([act] + [flip]));
  }

  /** The schedule, once the finding is known. */
  lemma SnoozeUndone(
    s: System, fp: Fingerprint, sighting: Sighting, at: Instant, now: Instant, until: Instant, actor: Option<string>)
    returns (moves: seq<Move>)
    requires Noticed(s, fp, sighting, at) && at <= now
    ensures Runs(s, moves)
    ensures var end := Exec(s, moves).table; fp in end && end[fp].status.Resolved? && end[fp].snoozeUntil == Some(until)
  {
    var scan, select := Start([Select({}, now, 0)]), Advance(1, [fp]);
    var s1 := Step(s, scan);
    assert Found(s1.table, s1.threads[1]) == {fp};
    var rest := FlipAfterSnooze(Step(s1, select), fp, now, until, actor);
    StepFirst(s1, select, rest);
    StepFirst(s, scan, [select] + rest);
    moves := [scan] + ([select] + rest);
  }

  /** A snooze is lost to a scan that had already selected the finding as absent, and leaves the
      row resolved with its snooze end still set: a flip has landed on it. */
  lemma SnoozeCanBeLost(
    s: System, fp: Fingerprint, sighting: Sighting, at: Instant, now: Instant, until: Instant, actor: Option<string>)
    returns (moves: seq<Move>)
    requires Fresh(s) && at <= now < until
    ensures Runs(s, moves)
    ensures var end := Exec(s, moves).table;
            fp in end && end[fp].status.Resolved? && end[fp].snoozeUntil == Some(until)
            && !L.WellFormedRow(end, fp) && !IsSuppressed(end, fp, now)
    ensures !Never(s, moves, (u: System, m: Move) => FlipsSnoozed(fp, u, m))
  {
    var before := Notice(s, fp, sighting, at);
    var rest := SnoozeUndone(Exec(s, before), fp, sighting, at, now, until, actor);
    Append(s, before, rest);
    moves := before + rest;
    EndsBadly(s, moves, fp);
  }

  /** A mute is lost to a sighting that had read the row before it: the row ends open and not
      suppressed, with the operator's note left behind. */
  lemma MuteCanBeLost(s: System, fp: Fingerprint, sighting: Sighting, at: Instant, now: Instant, note: string, actor: Option<string>)
    returns (moves: seq<Move>)
    requires Fresh(s)
    ensures Runs(s, moves)
    ensures var end := Exec(s, moves).table;
            fp in end && end[fp].status.Open? && end[fp].note == Some(note) && !IsSuppressed(end, fp, now)
  {
    var before := Notice(s, fp, sighting, at);
    var s0 := Exec(s, before);
    var probe, sight := Start([Sight(fp, sighting, now)]), Advance(1, []);
    var s1 := Step(s0, probe);
    var s2 := Step(s1, sight);
    assert s2.threads[1].Writes? && s2.threads[1].write == Refresh(fp, sighting, Open, None, now);
    var operate, act := Start([Operate(fp, Muted, None, Some(note), actor, now)]), Advance(2, []);
    var s3 := Step(s2, operate);
    var s4 := Step(s3, act);
    var s5 := Step(s4, act);
    assert s5.table[fp].status.Muted? && s5.table[fp].note == Some(note) && s5.threads[1] == s2.threads[1];
    OneStep(s5, sight);
    StepFirst(s4, act, [sight]);
    StepFirst(s3, act, [act] + [sight]);
    StepFirst(s2, operate, [act] + ([act] + [sight]));
    StepFirst(s1, sight, [operate] + ([act] + ([act] + [sight])));
    StepFirst(s0, probe, [sight] + ([operate] + ([act] + ([act] + [sight]))));
    var rest := [probe] + ([sight] + ([operate] + ([act] + ([act] + [sight]))));
    Append(s, before, rest);
    moves := before + rest;
  }

  /** Two scans that both select before either flips report the same finding as resolved, with
      nothing written in between. */
  lemma ReportedTwice(s: System, fp: Fingerprint, sighting: Sighting, at: Instant, now: Instant)
    returns (before: seq<Move>, first: Move, second: Move)
    requires Fresh(s) && at <= now
    ensures Runs(s, before) && Enabled(Exec(s, before), first) && Reports(fp, Exec(s, before), first)
    ensures var s1 := Step(Exec(s, before), first);
            Enabled(s1, second) && Reports(fp, s1, second) && first.index != second.index && s1.table == Exec(s, before).table
  {
    var noticed := Notice(s, fp, sighting, at);
    var s0 := Exec(s, noticed);
    var scan := Start([Select({}, now, 0)]);
    var s1 := Step(s0, scan);
    var s2 := Step(s1, scan);
    OneStep(s1, scan);
    StepFirst(s0, scan, [scan]);
    Append(s, noticed, [scan] + [scan]);
    before, first, second := noticed + ([scan] + [scan]), Advance(1, [fp]), Advance(2, [fp]);
    assert s2.threads[1] == Reads([Select({}, now, 0)]) == s2.threads[2];
    assert Found(s2.table, s2.threads[1]) == {fp};
  }
}
