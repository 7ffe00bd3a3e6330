/** Whole runs of the finding lifecycle. */
module Lifecycle {
  // Scans, record-only probes and operators over one table with a clock that does not go back.

  import opened Text
  import opened Findings

  datatype Event =
    | Scan(seen: map<Fingerprint, Sighting>, committed: map<Fingerprint, Commit>, now: Instant)
    | Probe(seen: map<Fingerprint, Sighting>, committed: map<Fingerprint, Commit>, now: Instant)
    | MuteIt(fp: Fingerprint, note: Option<string>, actor: Option<string>, now: Instant)
    | UnmuteIt(fp: Fingerprint, now: Instant)
    | SnoozeIt(fp: Fingerprint, until: Instant, actor: Option<string>, now: Instant)
    | ResolveIt(fp: Fingerprint, note: Option<string>, actor: Option<string>, now: Instant)

  /** The table a scan judges absence on: committed mutes first, then the sightings. */
  function Recorded(t: Table, seen: map<Fingerprint, Sighting>, committed: map<Fingerprint, Commit>, now: Instant): Table {
    Record(ApplyCommitted(t, committed, now), seen, now)
  }

  function Effect(t: Table, e: Event, grace: nat): Table {
    match e
    case Scan(seen, committed, now) => ResolveAbsent(Recorded(t, seen, committed, now), seen.Keys, now, grace)
    case Probe(seen, committed, now) => Recorded(t, seen, committed, now)
    case MuteIt(fp, note, actor, now) => Upsert(t, fp, Muted, None, note, actor, now)
    case UnmuteIt(fp, now) => Unmute(t, fp, now)
    case SnoozeIt(fp, until, actor, now) => Upsert(t, fp, Snoozed, Some(until), None, actor, now)
    case ResolveIt(fp, note, actor, now) => Upsert(t, fp, Resolved, None, note, actor, now)
  }

  /** The findings a scan reports as resolved. */
  function Reported(t: Table, e: Event, grace: nat): set<Fingerprint> {
    if e.Scan? then Absent(Recorded(t, e.seen, e.committed, e.now), e.seen.Keys, e.now, grace) else {}
  }

  function Exec(t: Table, es: seq<Event>, grace: nat): Table {
    if es == [] then t else Effect(Exec(t, es[..|es| - 1], grace), es[|es| - 1], grace)
  }

  /** What the k-th event of a run reports as resolved. */
  function ReportedAt(t: Table, es: seq<Event>, grace: nat, k: nat): set<Fingerprint>
    requires k < |es|
  {
    Reported(Exec(t, es[..k], grace), es[k], grace)
  }

  predicate ClockRuns(es: seq<Event>) {
    forall i, j :: 0 <= i < j < |es| ==> es[i].now <= es[j].now
  }

  predicate Sights(e: Event, fp: Fingerprint) {
    (e.Scan? || e.Probe?) && fp in e.seen
  }

  // -- Exact resolution --------------------------------------------------------------------------

  /** A scan resolves a finding exactly when it was open, is absent, is not one of the
      committed mutes, and its last sighting is at least the grace window old. */
  lemma ResolvesExactly(t: Table, e: Event, grace: nat, fp: Fingerprint)
    requires e.Scan?
    ensures fp in Reported(t, e, grace) <==>
            fp in t && t[fp].status.Open? && fp !in e.seen && fp !in e.committed && t[fp].lastSeen + grace <= e.now
    ensures fp in Reported(t, e, grace) ==>
            fp in Effect(t, e, grace) && Effect(t, e, grace)[fp] == t[fp].(status := Resolved, lastSeen := e.now)
  {
  }

  // -- No flapping -------------------------------------------------------------------------------

  lemma LastSeenStep(t: Table, e: Event, grace: nat, fp: Fingerprint, bound: Instant)
    requires fp in t && t[fp].lastSeen >= bound && e.now >= bound
    ensures fp in Effect(t, e, grace) && Effect(t, e, grace)[fp].lastSeen >= bound
  {
  }

  lemma LastSeenNow(t: Table, e: Event, grace: nat, fp: Fingerprint)
    requires Sights(e, fp)
    ensures fp in Effect(t, e, grace) && Effect(t, e, grace)[fp].lastSeen >= e.now
  {
  }

  /** After a sighting, `last_seen` never falls below its time. */
  lemma {:induction false} LastSeenSince(t: Table, es: seq<Event>, grace: nat, fp: Fingerprint, j: nat)
    requires ClockRuns(es) && j < |es| && Sights(es[j], fp)
    ensures fp in Exec(t, es, grace) && Exec(t, es, grace)[fp].lastSeen >= es[j].now
    decreases |es|
  {
    hide Effect, Sights;
    var n := |es| - 1;
    var before := es[..n];
    if j < n {
      assert before[j] == es[j];
      assert ClockRuns(before);
      LastSeenSince(t, before, grace, fp, j);
      LastSeenStep(Exec(t, before, grace), es[n], grace, fp, es[j].now);
    } else {
      LastSeenNow(Exec(t, before, grace), es[n], grace, fp);
    }
  }

  /** Every scan that misses the finding comes less than `grace` after a sighting. */
  predicate SightedInTime(es: seq<Event>, fp: Fingerprint, grace: nat) {
    forall k :: 0 <= k < |es| && es[k].Scan? && fp !in es[k].seen ==>
      exists j :: 0 <= j < k && Sights(es[j], fp) && es[k].now - es[j].now < grace
  }

  /** No flapping: over any run whose clock does not go back, a finding sighted within less
      than the grace window before every scan is never resolved by one. */
  lemma NoFlapping(t: Table, es: seq<Event>, grace: nat, fp: Fingerprint, k: nat)
    requires ClockRuns(es) && SightedInTime(es, fp, grace) && k < |es|
    ensures fp !in ReportedAt(t, es, grace, k)
  {
    if es[k].Scan? {
      ResolvesExactly(Exec(t, es[..k], grace), es[k], grace, fp);
      if fp !in es[k].seen {
        var j :| 0 <= j < k && Sights(es[j], fp) && es[k].now - es[j].now < grace;
        assert es[..k][j] == es[j];
        assert ClockRuns(es[..k]);
        LastSeenSince(t, es[..k], grace, fp, j);
      }
    }
  }

  // -- Reported once -----------------------------------------------------------------------------

  /** What can make a finding open again. */
  predicate Reopens(e: Event, fp: Fingerprint) {
    Sights(e, fp) || (e.UnmuteIt? && e.fp == fp)
  }

  predicate NotOpen(t: Table, fp: Fingerprint) {
    fp in t && !t[fp].status.Open?
  }

  lemma StaysClosedStep(t: Table, e: Event, grace: nat, fp: Fingerprint)
    requires NotOpen(t, fp) && !Reopens(e, fp)
    ensures NotOpen(Effect(t, e, grace), fp) && fp !in Reported(t, e, grace)
  {
  }

  lemma ClosedByReport(t: Table, e: Event, grace: nat, fp: Fingerprint)
    requires fp in Reported(t, e, grace)
    ensures NotOpen(Effect(t, e, grace), fp)
  {
    ResolvesExactly(t, e, grace, fp);
  }

  lemma {:induction false} StaysClosed(t: Table, es: seq<Event>, grace: nat, fp: Fingerprint)
    requires NotOpen(t, fp) && forall k :: 0 <= k < |es| ==> !Reopens(es[k], fp)
    ensures NotOpen(Exec(t, es, grace), fp)
    decreases |es|
  {
    if es != [] {
      var n := |es| - 1;
      StaysClosed(t, es[..n], grace, fp);
      StaysClosedStep(Exec(t, es[..n], grace), es[n], grace, fp);
    }
  }

  lemma {:induction false} ExecSplit(t: Table, a: seq<Event>, b: seq<Event>, grace: nat)
    ensures Exec(t, a + b, grace) == Exec(Exec(t, a, grace), b, grace)
    decreases |b|
  {
    if b == [] {
      assert a + b == a;
    } else {
      var n := |b| - 1;
      assert (a + b)[..|a + b| - 1] == a + b[..n];
      ExecSplit(t, a, b[..n], grace);
    }
  }

  lemma {:induction false} ClosedAfterReport(t: Table, es: seq<Event>, grace: nat, fp: Fingerprint, i: nat)
    requires i < |es| && fp in ReportedAt(t, es, grace, i)
    ensures NotOpen(Exec(t, es[..i + 1], grace), fp)
  {
    ClosedByReport(Exec(t, es[..i], grace), es[i], grace, fp);
    assert es[..i + 1][..i] == es[..i];
  }

  lemma {:induction false} ClosedBetween(t: Table, es: seq<Event>, grace: nat, fp: Fingerprint, i: nat, j: nat)
    requires i < j <= |es| && NotOpen(Exec(t, es[..i + 1], grace), fp)
    requires forall k :: i < k < j ==> !Reopens(es[k], fp)
    ensures NotOpen(Exec(t, es[..j], grace), fp)
  {
    assert es[..j] == es[..i + 1] + es[i + 1..j];
    StaysClosed(Exec(t, es[..i + 1], grace), es[i + 1..j], grace, fp);
    ExecSplit(t, es[..i + 1], es[i + 1..j], grace);
  }

  lemma OpenBeforeReport(t: Table, e: Event, grace: nat, fp: Fingerprint)
    requires fp in Reported(t, e, grace)
    ensures !NotOpen(t, fp)
  {
    ResolvesExactly(t, e, grace, fp);
  }

  /** "Resolved" is reported once: between two reports of the same finding it was sighted or
      unmuted. */
  lemma ReportedOnce(t: Table, es: seq<Event>, grace: nat, fp: Fingerprint, i: nat, j: nat)
    requires i < j < |es| && fp in ReportedAt(t, es, grace, i) && fp in ReportedAt(t, es, grace, j)
    ensures exists k :: i < k < j && Reopens(es[k], fp)
  {
    ClosedAfterReport(t, es, grace, fp, i);
    OpenBeforeReport(Exec(t, es[..j], grace), es[j], grace, fp);
    if forall k :: i < k < j ==> !Reopens(es[k], fp) {
      ClosedBetween(t, es, grace, fp, i, j);
    }
  }

  // -- Scans never undo operator intent --------------------------------------------------------------

  predicate IsScan(e: Event) {
    e.Scan? || e.Probe?
  }

  predicate ScansOnly(es: seq<Event>) {
    forall i :: 0 <= i < |es| ==> IsScan(es[i])
  }

  /** Muted, or snoozed until after every scan of the run. */
  predicate InForce(f: Finding, es: seq<Event>) {
    || f.status.Muted?
    || (f.status.Snoozed? && f.snoozeUntil.Some? && forall i :: 0 <= i < |es| ==> es[i].now < f.snoozeUntil.value)
  }

  /** The part of a row an operator owns. */
  predicate SameIntent(f: Finding, g: Finding) {
    f.status == g.status && f.snoozeUntil == g.snoozeUntil && f.note == g.note && f.actor == g.actor
  }

  lemma IntentStep(t: Table, e: Event, grace: nat, fp: Fingerprint)
    requires IsScan(e) && fp in t && InForce(t[fp], [e])
    ensures fp in Effect(t, e, grace) && SameIntent(Effect(t, e, grace)[fp], t[fp])
  {
    assert [e][0].now == e.now;
    assert IsSuppressed(t, fp, e.now);
    var applied := ApplyCommitted(t, e.committed, e.now);
    assert applied[fp] == t[fp];
    var recorded := Record(applied, e.seen, e.now);
    assert SameIntent(recorded[fp], t[fp]);
  }

  /** Through any sequence of scans and probes a muted row keeps its mute, note and actor, and
      a snooze survives every scan before it lapses. */
  lemma {:induction false} ScansKeepIntent(t: Table, es: seq<Event>, grace: nat, fp: Fingerprint)
    requires ScansOnly(es) && fp in t && InForce(t[fp], es)
    ensures fp in Exec(t, es, grace) && SameIntent(Exec(t, es, grace)[fp], t[fp])
    decreases |es|
  {
    if es != [] {
      var n := |es| - 1;
      assert IsScan(es[n]);
      ScansKeepIntent(t, es[..n], grace, fp);
      IntentStep(Exec(t, es[..n], grace), es[n], grace, fp);
    }
  }

  /** Recording at `now` changes no answer of `is_suppressed` from `now` on. */
  lemma RecordingKeepsSuppression(t: Table, seen: map<Fingerprint, Sighting>, now: Instant, fp: Fingerprint, at: Instant)
    requires at >= now
    ensures IsSuppressed(Record(t, seen, now), fp, at) <==> IsSuppressed(t, fp, at)
  {
  }

  // -- Invariants of every reachable table -------------------------------------------------------------

  /** `snooze_until` is set exactly while the status is snoozed. */
  predicate WellFormedRow(t: Table, fp: Fingerprint) {
    fp in t ==> (t[fp].snoozeUntil.Some? <==> t[fp].status.Snoozed?)
  }

  ghost predicate WellFormed(t: Table) {
    forall fp :: WellFormedRow(t, fp)
  }

  lemma RecordedWellFormedRow(t: Table, e: Event, fp: Fingerprint)
    requires IsScan(e) && WellFormedRow(t, fp)
    ensures WellFormedRow(Recorded(t, e.seen, e.committed, e.now), fp)
  {
    assert WellFormedRow(ApplyCommitted(t, e.committed, e.now), fp);
  }

  lemma ResolvedWellFormedRow(t: Table, current: set<Fingerprint>, now: Instant, grace: nat, fp: Fingerprint)
    requires WellFormedRow(t, fp)
    ensures WellFormedRow(ResolveAbsent(t, current, now, grace), fp)
  {
  }

  lemma EffectWellFormedRow(t: Table, e: Event, grace: nat, fp: Fingerprint)
    requires WellFormedRow(t, fp)
    ensures WellFormedRow(Effect(t, e, grace), fp)
  {
    if IsScan(e) {
      RecordedWellFormedRow(t, e, fp);
    }
    if e.Scan? {
      ResolvedWellFormedRow(Recorded(t, e.seen, e.committed, e.now), e.seen.Keys, e.now, grace, fp);
    }
  }

  lemma EffectWellFormed(t: Table, e: Event, grace: nat)
    requires WellFormed(t)
    ensures WellFormed(Effect(t, e, grace))
  {
    forall fp ensures WellFormedRow(Effect(t, e, grace), fp) {
      EffectWellFormedRow(t, e, grace, fp);
    }
  }

  /** No row ever disappears and no `first_seen` ever changes. */
  predicate Grows(t: Table, u: Table) {
    forall fp :: fp in t ==> fp in u && u[fp].firstSeen == t[fp].firstSeen
  }

  lemma EffectGrows(t: Table, e: Event, grace: nat)
    ensures Grows(t, Effect(t, e, grace))
  {
  }

  lemma {:induction false} RunsKeepInvariants(t: Table, es: seq<Event>, grace: nat)
    requires WellFormed(t)
    ensures WellFormed(Exec(t, es, grace)) && Grows(t, Exec(t, es, grace))
    decreases |es|
  {
    if es != [] {
      var before := es[..|es| - 1];
      RunsKeepInvariants(t, before, grace);
      EffectWellFormed(Exec(t, before, grace), es[|es| - 1], grace);
      EffectGrows(Exec(t, before, grace), es[|es| - 1], grace);
    }
  }

  // -- Committed mutes ---------------------------------------------------------------------------------

  /** After any scan or probe, even on an empty store, every committed mute is in force, and
      importing again at the same time finds nothing to apply. */
  lemma CommittedInForce(t: Table, e: Event, grace: nat)
    requires IsScan(e)
    ensures forall fp :: fp in e.committed ==> IsSuppressed(Effect(t, e, grace), fp, e.now)
    ensures ToApply(Effect(t, e, grace), e.committed, e.now) == {}
  {
    var applied := ApplyCommitted(t, e.committed, e.now);
    forall fp | fp in e.committed ensures IsSuppressed(Effect(t, e, grace), fp, e.now) {
      assert IsSuppressed(applied, fp, e.now);
      RecordingKeepsSuppression(applied, e.seen, e.now, fp, e.now);
    }
  }
}
