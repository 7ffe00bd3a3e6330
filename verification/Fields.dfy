/** Who may write what in a finding's row. */
module Fields {
  // Each operation of the store against the columns of the row it finds.

  import opened Text
  import opened Findings
  import L = Lifecycle

  /** What the detection owns. */
  predicate SameDetection(f: Finding, g: Finding) {
    f.severity == g.severity && f.title == g.title && f.details == g.details
  }

  /** A sighted row shows the sighting: its severity and title, its evidence unless that is empty, its
      time. A new one opens at that time with nothing decided; a known one keeps its first sighting
      and the operator's note and name, and its status unless it was resolved or its snooze has
      lapsed, when it opens again. */
  lemma SightedRow(t: Table, seen: map<Fingerprint, Sighting>, now: Instant, fp: Fingerprint)
    requires fp in seen
    ensures fp in Record(t, seen, now)
    ensures var f, s := Record(t, seen, now)[fp], seen[fp];
            && f.severity == s.severity && f.title == s.title && f.lastSeen == now
            && (s.evidence != map[] ==> f.details == s.evidence)
            && (fp !in t ==> f.firstSeen == now && f.status.Open? && f.snoozeUntil == None && f.note == None && f.actor == None
                             && f.details == s.evidence)
            && (fp in t ==>
                  && f.firstSeen == t[fp].firstSeen && f.note == t[fp].note && f.actor == t[fp].actor
                  && (s.evidence == map[] ==> f.details == t[fp].details)
                  && (t[fp].status.Resolved? ==> f.status.Open? && f.snoozeUntil == t[fp].snoozeUntil)
                  && (t[fp].status.Open? || t[fp].status.Muted? ==> f.status == t[fp].status && f.snoozeUntil == t[fp].snoozeUntil)
                  && (t[fp].status.Snoozed? ==>
                        if t[fp].snoozeUntil.Some? && t[fp].snoozeUntil.value <= now then f.status.Open? && f.snoozeUntil == None
                        else f.status.Snoozed? && f.snoozeUntil == t[fp].snoozeUntil))
  {
  }

  lemma UnsightedRow(t: Table, seen: map<Fingerprint, Sighting>, now: Instant, fp: Fingerprint)
    requires fp !in seen
    ensures Lookup(Record(t, seen, now), fp) == Lookup(t, fp)
  {
  }

  /** An operator's decision is written as given, with its time; what was detected stays, and an
      unknown fingerprint gets a row of its own. */
  lemma DecidedRow(
    t: Table, fp: Fingerprint, status: Lifecycle, until: Option<Instant>, note: Option<string>, actor: Option<string>, now: Instant)
    ensures var u := Upsert(t, fp, status, until, note, actor, now);
            && u.Keys == t.Keys + {fp}
            && (u[fp].status, u[fp].snoozeUntil, u[fp].note, u[fp].actor, u[fp].lastSeen) == (status, until, note, actor, now)
            && (fp in t ==> SameDetection(u[fp], t[fp]) && u[fp].firstSeen == t[fp].firstSeen)
            && (fp !in t ==> u[fp].severity == "unknown" && u[fp].title == fp && u[fp].details == map[] && u[fp].firstSeen == now)
            && forall other :: other != fp ==> Lookup(u, other) == Lookup(t, other)
  {
  }

  /** An unmute opens a known row and clears the decision, whatever it was. */
  lemma LiftedRow(t: Table, fp: Fingerprint, now: Instant)
    ensures var u := Unmute(t, fp, now);
            && u.Keys == t.Keys
            && (fp in t ==>
                  && (u[fp].status, u[fp].snoozeUntil, u[fp].note, u[fp].actor, u[fp].lastSeen) == (Open, None, None, None, now)
                  && SameDetection(u[fp], t[fp]) && u[fp].firstSeen == t[fp].firstSeen)
            && forall other :: other != fp ==> Lookup(u, other) == Lookup(t, other)
  {
  }

  /** An absent finding that has been quiet for the grace window is resolved, at the time of the scan,
      and nothing else of it changes; every other row stays. */
  lemma ResolvedRow(t: Table, current: set<Fingerprint>, now: Instant, grace: nat, fp: Fingerprint)
    ensures var u := ResolveAbsent(t, current, now, grace);
            && u.Keys == t.Keys
            && (fp in t ==>
                  if t[fp].status.Open? && fp !in current && t[fp].lastSeen + grace <= now then
                    && u[fp].status.Resolved? && u[fp].lastSeen == now
                    && SameDetection(u[fp], t[fp]) && u[fp].firstSeen == t[fp].firstSeen
                    && (u[fp].snoozeUntil, u[fp].note, u[fp].actor) == (t[fp].snoozeUntil, t[fp].note, t[fp].actor)
                  else u[fp] == t[fp])
  {
  }

  /** A committed mute is written where nothing is in force yet: no row, an open or a resolved one, or
      a snooze that has lapsed. */
  lemma CommittedRow(t: Table, committed: map<Fingerprint, Commit>, now: Instant, fp: Fingerprint)
    ensures var u := ApplyCommitted(t, committed, now);
            if fp in committed
               && (fp in t && t[fp].status.Snoozed? ==> t[fp].snoozeUntil.None? || t[fp].snoozeUntil.value <= now)
               && (fp in t ==> !t[fp].status.Muted?)
            then
              && fp in u
              && (u[fp].status, u[fp].snoozeUntil, u[fp].lastSeen) == (Muted, None, now)
              && u[fp].note == Some(committed[fp].note) && u[fp].actor == Some(committed[fp].author)
              && (fp in t ==> SameDetection(u[fp], t[fp]) && u[fp].firstSeen == t[fp].firstSeen)
              && (fp !in t ==> u[fp].severity == "unknown" && u[fp].title == fp && u[fp].details == map[] && u[fp].firstSeen == now)
            else Lookup(u, fp) == Lookup(t, fp)
  {
  }

  /** The events are these operations: a scan imports, records, then resolves; a probe resolves
      nothing; a mute and a snooze last as long as they say, and a resolution by hand is one. */
  lemma EventExactly(t: Table, e: L.Event, grace: nat)
    ensures var u := L.Effect(t, e, grace);
            match e
            case Scan(seen, committed, now) =>
              u == ResolveAbsent(Record(ApplyCommitted(t, committed, now), seen, now), seen.Keys, now, grace)
            case Probe(seen, committed, now) => u == Record(ApplyCommitted(t, committed, now), seen, now)
            case MuteIt(fp, note, actor, now) => u == Upsert(t, fp, Muted, None, note, actor, now)
            case UnmuteIt(fp, now) => u == Unmute(t, fp, now)
            case SnoozeIt(fp, until, actor, now) => u == Upsert(t, fp, Snoozed, Some(until), None, actor, now)
            case ResolveIt(fp, note, actor, now) => u == Upsert(t, fp, Resolved, None, note, actor, now)
  {
  }
}
