/** The findings table on instants: what each store operation does to it, and which findings a
    scan that misses them may resolve. */
module Findings {
  import opened Text

  type Fingerprint = string

  /** Microseconds on one fixed time line. */
  type Instant = int

  datatype Lifecycle = Open | Muted | Snoozed | Resolved

  datatype Finding = Finding(
    firstSeen: Instant,
    lastSeen: Instant,
    severity: string,
    title: string,
    status: Lifecycle,
    snoozeUntil: Option<Instant>,
    note: Option<string>,
    actor: Option<string>,
    details: map<string, string>)

  type Table = map<Fingerprint, Finding>

  /** What a scan saw of one fingerprint; empty evidence keeps what was captured before. */
  datatype Sighting = Sighting(severity: string, title: string, evidence: map<string, string>)

  /** One committed mute: its note and who committed it. */
  datatype Commit = Commit(note: string, author: string)

  predicate IsSuppressed(t: Table, fp: Fingerprint, now: Instant) {
    && fp in t
    && (t[fp].status.Muted? || (t[fp].status.Snoozed? && t[fp].snoozeUntil.Some? && now < t[fp].snoozeUntil.value))
  }

  // -- record ------------------------------------------------------------------------------

  /** `_refreshed_status` */
  function Refreshed(f: Finding, now: Instant): (Lifecycle, Option<Instant>) {
    if f.status.Resolved? then (Open, f.snoozeUntil)
    else if f.status.Snoozed? && f.snoozeUntil.Some? && now >= f.snoozeUntil.value then (Open, None)
    else (f.status, f.snoozeUntil)
  }

  function Sighted(known: Option<Finding>, s: Sighting, now: Instant): Finding {
    match known
    case None => Finding(now, now, s.severity, s.title, Open, None, None, None, s.evidence)
    case Some(f) =>
      var (status, until) := Refreshed(f, now);
      f.(lastSeen := now, severity := s.severity, title := s.title, status := status, snoozeUntil := until,
         details := if s.evidence != map[] then s.evidence else f.details)
  }

  function Lookup(t: Table, fp: Fingerprint): Option<Finding> {
    if fp in t then Some(t[fp]) else None
  }

  function Record(t: Table, seen: map<Fingerprint, Sighting>, now: Instant): Table {
    t + map fp | fp in seen :: Sighted(Lookup(t, fp), seen[fp], now)
  }

  // -- resolve_absent ------------------------------------------------------------------------

  /** The open findings not in the scan and not seen for the whole grace window. */
  function Absent(t: Table, current: set<Fingerprint>, now: Instant, grace: nat): set<Fingerprint> {
    set fp | fp in t && t[fp].status.Open? && fp !in current && t[fp].lastSeen <= now - grace
  }

  function ResolveAll(t: Table, absent: set<Fingerprint>, now: Instant): Table {
    t + map fp | fp in absent && fp in t :: t[fp].(status := Resolved, lastSeen := now)
  }

  function ResolveAbsent(t: Table, current: set<Fingerprint>, now: Instant, grace: nat): Table {
    ResolveAll(t, Absent(t, current, now, grace), now)
  }

  // -- operator actions ------------------------------------------------------------------------

  /** `_upsert_status` */
  function Upsert(
    t: Table, fp: Fingerprint, status: Lifecycle, until: Option<Instant>,
    note: Option<string>, actor: Option<string>, now: Instant): Table
  {
    var row :=
      if fp in t then t[fp].(status := status, snoozeUntil := until, note := note, actor := actor, lastSeen := now)
      else Finding(now, now, "unknown", fp, status, until, note, actor, map[]);
    t[fp := row]
  }

  function Unmute(t: Table, fp: Fingerprint, now: Instant): Table {
    if fp in t
    then t[fp := t[fp].(status := Open, snoozeUntil := None, note := None, actor := None, lastSeen := now)]
    else t
  }

  // -- committed mutes ---------------------------------------------------------------------------

  /** The committed mutes the store does not already suppress. */
  function ToApply(t: Table, committed: map<Fingerprint, Commit>, now: Instant): set<Fingerprint> {
    set fp | fp in committed && !IsSuppressed(t, fp, now)
  }

  function MutedBy(t: Table, fp: Fingerprint, c: Commit, now: Instant): Finding {
    if fp in t then t[fp].(status := Muted, snoozeUntil := None, note := Some(c.note), actor := Some(c.author), lastSeen := now)
    else Finding(now, now, "unknown", fp, Muted, None, Some(c.note), Some(c.author), map[])
  }

  function ApplyCommitted(t: Table, committed: map<Fingerprint, Commit>, now: Instant): Table {
    t + map fp | fp in committed && fp in ToApply(t, committed, now) :: MutedBy(t, fp, committed[fp], now)
  }
}
