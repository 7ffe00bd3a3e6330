/** Finding rows as the database holds them. */
module Rows {
  // Timestamps as text, and their meaning as the table of instants in `Findings`: every text-level
  // operation refines the operation on instants.

  import opened Text
  import opened IsoTime
  import opened Findings

  datatype FindingRow = FindingRow(
    firstSeen: string,
    lastSeen: string,
    severity: string,
    title: string,
    status: Lifecycle,
    snoozeUntil: Option<string>,
    note: Option<string>,
    actor: Option<string>,
    details: map<string, string>)

  type RowTable = map<Fingerprint, FindingRow>

  // -- Stamps --------------------------------------------------------------------------------

  /** A text the store wrote. */
  predicate IsStamp(s: string) {
    ParseIso(s).Some? && Iso(ParseIso(s).value) == s
  }

  function InstantOf(s: string): Instant
    requires IsStamp(s)
  {
    Micros(ParseIso(s).value)
  }

  lemma StampOf(d: DateTime)
    requires Valid(d)
    ensures IsStamp(Iso(d)) && InstantOf(Iso(d)) == Micros(d)
  {
    ParseOfIso(d);
  }

  /** Comparing stamps as text compares the instants. */
  lemma {:induction false} StampOrder(a: string, b: string)
    requires IsStamp(a) && IsStamp(b)
    ensures LexLess(a, b) <==> InstantOf(a) < InstantOf(b)
  {
    TextOrderIsTimeOrder(ParseIso(a).value, ParseIso(b).value);
  }

  // -- Meaning -------------------------------------------------------------------------------

  predicate StampedRow(r: FindingRow) {
    IsStamp(r.firstSeen) && IsStamp(r.lastSeen) && (r.snoozeUntil.Some? ==> IsStamp(r.snoozeUntil.value))
  }

  predicate StampedRows(rows: RowTable) {
    forall fp :: fp in rows ==> StampedRow(rows[fp])
  }

  function FindingOf(r: FindingRow): Finding
    requires StampedRow(r)
  {
    Finding(InstantOf(r.firstSeen), InstantOf(r.lastSeen), r.severity, r.title, r.status,
            if r.snoozeUntil.Some? then Some(InstantOf(r.snoozeUntil.value)) else None,
            r.note, r.actor, r.details)
  }

  function TableOf(rows: RowTable): Table
    requires StampedRows(rows)
  {
    map fp | fp in rows :: FindingOf(rows[fp])
  }

  // -- The operations on text ------------------------------------------------------------------

  predicate SuppressedRow(r: FindingRow, nowText: string) {
    || r.status.Muted?
    || (r.status.Snoozed? && r.snoozeUntil.Some? && LexLess(nowText, r.snoozeUntil.value))
  }

  function RefreshedText(r: FindingRow, nowText: string): (Lifecycle, Option<string>) {
    if r.status.Resolved? then (Open, r.snoozeUntil)
    else if r.status.Snoozed? && r.snoozeUntil.Some? && !LexLess(nowText, r.snoozeUntil.value) then (Open, None)
    else (r.status, r.snoozeUntil)
  }

  function NewRow(s: Sighting, nowText: string): FindingRow {
    FindingRow(nowText, nowText, s.severity, s.title, Open, None, None, None, s.evidence)
  }

  function SeenRow(r: FindingRow, s: Sighting, nowText: string): (q: FindingRow)
    ensures q.firstSeen == r.firstSeen
  {
    var (status, until) := RefreshedText(r, nowText);
    r.(lastSeen := nowText, severity := s.severity, title := s.title, status := status, snoozeUntil := until,
       details := if s.evidence != map[] then s.evidence else r.details)
  }

  function RecordRow(rows: RowTable, fp: Fingerprint, s: Sighting, nowText: string): FindingRow {
    if fp in rows then SeenRow(rows[fp], s, nowText) else NewRow(s, nowText)
  }

  function RecordRows(rows: RowTable, seen: map<Fingerprint, Sighting>, nowText: string): RowTable {
    rows + map fp | fp in seen :: RecordRow(rows, fp, seen[fp], nowText)
  }

  /** A sighted row shows the sighting. */
  predicate ShowsSighting(r: FindingRow, s: Sighting) {
    r.severity == s.severity && r.title == s.title && (s.evidence != map[] ==> r.details == s.evidence)
  }

  lemma RecordShows(rows: RowTable, seen: map<Fingerprint, Sighting>, nowText: string)
    ensures var after := RecordRows(rows, seen, nowText);
            forall fp :: fp in seen ==> fp in after && ShowsSighting(after[fp], seen[fp])
  {
    hide LexLess;
  }

  predicate AbsentRow(r: FindingRow, cutoffText: string) {
    r.status.Open? && !LexLess(cutoffText, r.lastSeen)
  }

  function AbsentFrom(rows: RowTable, current: set<Fingerprint>, cutoffText: string): set<Fingerprint> {
    set fp | fp in rows && fp !in current && AbsentRow(rows[fp], cutoffText)
  }

  function ResolveRows(rows: RowTable, absent: set<Fingerprint>, nowText: string): RowTable {
    rows + map fp | fp in absent && fp in rows :: rows[fp].(status := Resolved, lastSeen := nowText)
  }

  function UpsertRow(
    rows: RowTable, fp: Fingerprint, status: Lifecycle, until: Option<string>,
    note: Option<string>, actor: Option<string>, nowText: string): RowTable
  {
    rows[fp :=
      if fp in rows then
        rows[fp].(status := status, snoozeUntil := until, note := note, actor := actor, lastSeen := nowText)
      else FindingRow(nowText, nowText, "unknown", fp, status, until, note, actor, map[])]
  }

  function UnmuteRow(rows: RowTable, fp: Fingerprint, nowText: string): RowTable {
    if fp in rows
    then rows[fp := rows[fp].(status := Open, snoozeUntil := None, note := None, actor := None, lastSeen := nowText)]
    else rows
  }

  // -- Refinement ------------------------------------------------------------------------------

  lemma SuppressedRefines(r: FindingRow, fp: Fingerprint, nowText: string)
    requires StampedRow(r) && IsStamp(nowText)
    ensures SuppressedRow(r, nowText) <==> IsSuppressed(map[fp := FindingOf(r)], fp, InstantOf(nowText))
  {
    hide IsStamp, InstantOf;
    if r.snoozeUntil.Some? { StampOrder(nowText, r.snoozeUntil.value); }
  }

  lemma SeenRefines(r: FindingRow, s: Sighting, nowText: string)
    requires StampedRow(r) && IsStamp(nowText)
    ensures StampedRow(SeenRow(r, s, nowText))
    ensures FindingOf(SeenRow(r, s, nowText)) == Sighted(Some(FindingOf(r)), s, InstantOf(nowText))
  {
    hide IsStamp, InstantOf;
    if r.snoozeUntil.Some? { StampOrder(nowText, r.snoozeUntil.value); }
  }

  lemma RecordRefines(rows: RowTable, seen: map<Fingerprint, Sighting>, nowText: string)
    requires StampedRows(rows) && IsStamp(nowText)
    ensures StampedRows(RecordRows(rows, seen, nowText))
    ensures TableOf(RecordRows(rows, seen, nowText)) == Record(TableOf(rows), seen, InstantOf(nowText))
  {
    hide IsStamp, InstantOf;
    var after, table := RecordRows(rows, seen, nowText), TableOf(rows);
    forall fp | fp in after
      ensures StampedRow(after[fp])
      ensures FindingOf(after[fp]) == Record(table, seen, InstantOf(nowText))[fp]
    {
      if fp in seen && fp in rows { SeenRefines(rows[fp], seen[fp], nowText); }
    }
  }

  lemma AbsentRefines(rows: RowTable, current: set<Fingerprint>, cutoffText: string, now: Instant, grace: nat)
    requires StampedRows(rows) && IsStamp(cutoffText) && InstantOf(cutoffText) == now - grace
    ensures AbsentFrom(rows, current, cutoffText) == Absent(TableOf(rows), current, now, grace)
  {
    hide IsStamp, InstantOf;
    forall fp | fp in rows
      ensures AbsentRow(rows[fp], cutoffText) <==> rows[fp].status.Open? && TableOf(rows)[fp].lastSeen <= now - grace
    {
      StampOrder(cutoffText, rows[fp].lastSeen);
    }
  }

  lemma ResolveRefines(rows: RowTable, absent: set<Fingerprint>, nowText: string)
    requires StampedRows(rows) && IsStamp(nowText)
    ensures StampedRows(ResolveRows(rows, absent, nowText))
    ensures TableOf(ResolveRows(rows, absent, nowText)) == ResolveAll(TableOf(rows), absent, InstantOf(nowText))
  {
    hide IsStamp, InstantOf;
  }

  lemma UpsertRefines(
    rows: RowTable, fp: Fingerprint, status: Lifecycle, until: Option<string>,
    note: Option<string>, actor: Option<string>, nowText: string)
    requires StampedRows(rows) && IsStamp(nowText) && (until.Some? ==> IsStamp(until.value))
    ensures StampedRows(UpsertRow(rows, fp, status, until, note, actor, nowText))
    ensures TableOf(UpsertRow(rows, fp, status, until, note, actor, nowText)) ==
            Upsert(TableOf(rows), fp, status, if until.Some? then Some(InstantOf(until.value)) else None,
                   note, actor, InstantOf(nowText))
  {
    hide IsStamp, InstantOf;
  }

  lemma UnmuteRefines(rows: RowTable, fp: Fingerprint, nowText: string)
    requires StampedRows(rows) && IsStamp(nowText)
    ensures StampedRows(UnmuteRow(rows, fp, nowText))
    ensures TableOf(UnmuteRow(rows, fp, nowText)) == Unmute(TableOf(rows), fp, InstantOf(nowText))
  {
    hide IsStamp, InstantOf;
  }
}
