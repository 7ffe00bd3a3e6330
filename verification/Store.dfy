/** `StateStore`: the findings table, the pending-actions table and the audit log. Timestamps
    are kept and compared as text; the contents are the table of instants in `Findings`. */
module Store {
  import opened Text
  import opened IsoTime
  import opened Findings
  import opened Rows
  import opened PendingActions

  /** What `record` returns per fingerprint. */
  datatype Recorded = Recorded(isNew: bool, firstSeen: string, status: Lifecycle)

  class StateStore {
    var findings: RowTable
    var pending: map<Fingerprint, Row>
    var audit: seq<Audit>

    ghost predicate Stamped()
      reads this
    {
      StampedRows(findings)
    }

    ghost function Contents(): Table
      reads this
      requires Stamped()
    {
      TableOf(findings)
    }

    ghost function Actions(): Db
      reads this
    {
      Db(pending, audit)
    }

    constructor ()
      ensures Stamped() && Contents() == map[] && Actions() == Db(map[], [])
    {
      findings, pending, audit := map[], map[], [];
    }

    // -- findings ----------------------------------------------------------------------------

    method Suppresses(fp: Fingerprint, now: DateTime) returns (yes: bool)
      requires Stamped() && Valid(now)
      ensures yes <==> IsSuppressed(Contents(), fp, Micros(now))
    {
      hide IsStamp, InstantOf;
      if fp !in findings {
        return false;
      }
      StampOf(now);
      SuppressedRefines(findings[fp], fp, Iso(now));
      return SuppressedRow(findings[fp], Iso(now));
    }

    method Record(seen: map<Fingerprint, Sighting>, now: DateTime) returns (out: map<Fingerprint, Recorded>)
      requires Stamped() && Valid(now)
      modifies this`findings
      ensures Stamped() && Contents() == Findings.Record(old(Contents()), seen, Micros(now))
      ensures out.Keys == seen.Keys && seen.Keys <= findings.Keys
      ensures forall fp :: fp in seen ==>
                out[fp] == Recorded(fp !in old(findings), findings[fp].firstSeen, findings[fp].status)
      ensures forall fp :: fp in seen ==> ShowsSighting(findings[fp], seen[fp])
    {
      hide IsStamp, InstantOf, ShowsSighting, SeenRow, NewRow, RecordRows, Findings.Record;
      StampOf(now);
      RecordShows(findings, seen, Iso(now));
      RecordRefines(findings, seen, Iso(now));
      out := UpsertSeen(seen, Iso(now));
    }

    /** One pass over the sighted fingerprints: insert new ones, refresh known ones. */
    method UpsertSeen(seen: map<Fingerprint, Sighting>, nowText: string) returns (out: map<Fingerprint, Recorded>)
      modifies this`findings
      ensures findings == RecordRows(old(findings), seen, nowText)
      ensures out.Keys == seen.Keys
      ensures forall fp :: fp in seen ==>
                out[fp] == Recorded(fp !in old(findings), findings[fp].firstSeen, findings[fp].status)
    {
      hide RecordBut, RecordRows, ReturnedBut, NewRow, SeenRow;
      ghost var rows := findings;
      RecordStarts(rows, seen, nowText);
      out := map[];
      var todo := seen.Keys;
      while todo != {}
        invariant todo <= seen.Keys
        invariant findings == RecordBut(rows, seen, todo, nowText) && out == ReturnedBut(rows, seen, todo, nowText)
        decreases |todo|
      {
        var fp :| fp in todo;
        OneMoreRecorded(rows, seen, todo, fp, nowText);
        var isNew := fp !in findings;
        var row := if isNew then NewRow(seen[fp], nowText) else SeenRow(findings[fp], seen[fp], nowText);
        findings := findings[fp := row];
        out := out[fp := Recorded(isNew, row.firstSeen, row.status)];
        todo := todo - {fp};
      }
      RecordEnds(rows, seen, nowText);
    }

    /** Select the open rows that are absent and quiet, then flip each one. The list has no
        repetitions; its order is the database's. A grace window that reaches back before the
        first representable date raises before anything is read. */
    method ResolveAbsent(current: set<Fingerprint>, now: DateTime, grace: nat) returns (absent: seq<Fingerprint>, raised: bool)
      requires Stamped() && Valid(now)
      modifies this`findings
      ensures Stamped() && (raised <==> Micros(now) < FIRST + grace)
      ensures raised ==> findings == old(findings) && absent == []
      ensures !raised ==> Contents() == Findings.ResolveAbsent(old(Contents()), current, Micros(now), grace)
      ensures !raised ==> forall fp :: fp in absent <==> fp in Absent(old(Contents()), current, Micros(now), grace)
      ensures forall i, j :: 0 <= i < j < |absent| ==> absent[i] != absent[j]
    {
      hide IsStamp, InstantOf;
      if Micros(now) < FIRST + grace {
        return [], true;
      }
      raised := false;
      var quiet := Cutoff(now, grace);
      StampOf(now);
      StampOf(quiet);
      AbsentRefines(findings, current, Iso(quiet), Micros(now), grace);
      absent := SelectAbsent(current, Iso(quiet));
      ResolveRefines(findings, AbsentFrom(findings, current, Iso(quiet)), Iso(now));
      FlipResolved(absent, AbsentFrom(findings, current, Iso(quiet)), Iso(now));
    }

    method FlipResolved(absent: seq<Fingerprint>, ghost chosen: set<Fingerprint>, nowText: string)
      requires forall fp :: fp in absent <==> fp in chosen
      requires chosen <= findings.Keys
      modifies this`findings
      ensures findings == ResolveRows(old(findings), chosen, nowText)
    {
      for i := 0 to |absent|
        invariant findings.Keys == old(findings).Keys
        invariant forall fp :: fp in old(findings) && fp !in absent[..i] ==> findings[fp] == old(findings)[fp]
        invariant forall fp :: fp in absent[..i] ==>
                    findings[fp] == old(findings)[fp].(status := Resolved, lastSeen := nowText)
      {
        assert absent[i] in absent;
        findings := findings[absent[i] := findings[absent[i]].(status := Resolved, lastSeen := nowText)];
      }
      assert absent[..|absent|] == absent;
    }

    method SelectAbsent(current: set<Fingerprint>, cutoff: string) returns (absent: seq<Fingerprint>)
      ensures forall fp :: fp in absent <==> fp in AbsentFrom(findings, current, cutoff)
      ensures forall i, j :: 0 <= i < j < |absent| ==> absent[i] != absent[j]
    {
      absent := [];
      var todo := findings.Keys;
      while todo != {}
        invariant todo <= findings.Keys
        invariant forall fp :: fp in absent <==> fp !in todo && fp in AbsentFrom(findings, current, cutoff)
        invariant forall i, j :: 0 <= i < j < |absent| ==> absent[i] != absent[j]
        decreases |todo|
      {
        var fp :| fp in todo;
        if fp !in current && AbsentRow(findings[fp], cutoff) {
          absent := absent + [fp];
        }
        todo := todo - {fp};
      }
    }

    static function Cutoff(now: DateTime, grace: nat): (d: DateTime)
      requires Valid(now) && Micros(now) >= FIRST + grace
      ensures Valid(d) && Micros(d) == Micros(now) - grace
    {
      NotAfterLast(now);
      AtMicros(Micros(now) - grace)
    }

    method UpsertStatus(
      fp: Fingerprint, status: Lifecycle, until: Option<DateTime>, note: Option<string>, actor: Option<string>, now: DateTime)
      requires Stamped() && Valid(now) && (until.Some? ==> Valid(until.value))
      modifies this`findings
      ensures Stamped()
      ensures Contents() == Upsert(old(Contents()), fp, status,
                                   if until.Some? then Some(Micros(until.value)) else None, note, actor, Micros(now))
    {
      hide IsStamp, InstantOf;
      var nowText, untilText := Iso(now), if until.Some? then Some(Iso(until.value)) else None;
      StampOf(now);
      if until.Some? { StampOf(until.value); }
      UpsertRefines(findings, fp, status, untilText, note, actor, nowText);
      if fp !in findings {
        findings := findings[fp := FindingRow(nowText, nowText, "unknown", fp, status, untilText, note, actor, map[])];
      } else {
        findings := findings[fp := findings[fp].(
          status := status, snoozeUntil := untilText, note := note, actor := actor, lastSeen := nowText)];
      }
    }

    method Mute(fp: Fingerprint, note: Option<string>, actor: Option<string>, now: DateTime)
      requires Stamped() && Valid(now)
      modifies this`findings
      ensures Stamped() && Contents() == Upsert(old(Contents()), fp, Muted, None, note, actor, Micros(now))
    {
      UpsertStatus(fp, Muted, None, note, actor, now);
    }

    method Snooze(fp: Fingerprint, until: DateTime, actor: Option<string>, now: DateTime)
      requires Stamped() && Valid(now) && Valid(until)
      modifies this`findings
      ensures Stamped()
      ensures Contents() == Upsert(old(Contents()), fp, Snoozed, Some(Micros(until)), None, actor, Micros(now))
    {
      UpsertStatus(fp, Snoozed, Some(until), None, actor, now);
    }

    method Resolve(fp: Fingerprint, note: Option<string>, actor: Option<string>, now: DateTime)
      requires Stamped() && Valid(now)
      modifies this`findings
      ensures Stamped() && Contents() == Upsert(old(Contents()), fp, Resolved, None, note, actor, Micros(now))
    {
      UpsertStatus(fp, Resolved, None, note, actor, now);
    }

    method Unmute(fp: Fingerprint, now: DateTime)
      requires Stamped() && Valid(now)
      modifies this`findings
      ensures Stamped() && Contents() == Findings.Unmute(old(Contents()), fp, Micros(now))
    {
      hide IsStamp, InstantOf;
      StampOf(now);
      UnmuteRefines(findings, fp, Iso(now));
      if fp !in findings {
        return;
      }
      findings := findings[fp := findings[fp].(
        status := Open, snoozeUntil := None, note := None, actor := None, lastSeen := Iso(now))];
    }

    // -- pending actions and the audit log -----------------------------------------------------

    method GetPending(fp: Fingerprint) returns (row: Option<Row>)
      ensures row == PendingActions.GetPending(Actions(), fp)
    {
      if fp in pending {
        return Some(pending[fp]);
      }
      return None;
    }

    method RecordPending(fp: Fingerprint, action: Remedy, now: Stamp)
      modifies this`pending
      ensures Actions() == Offered(old(Actions()), fp, action, now)
    {
      var existing := GetPending(fp);
      if existing.Some? && existing.value.status.Declined? {
        return;
      }
      var created := if existing.Some? then existing.value.createdAt else now;
      pending := pending[fp := Row(action, Status.Pending, created, None)];
    }

    method ClaimPending(fp: Fingerprint, actor: string) returns (won: bool)
      modifies this`pending
      ensures (Actions(), won) == Claim(old(Actions()), fp, actor)
    {
      if fp in pending && pending[fp].status.Pending? {
        pending := pending[fp := pending[fp].(status := Approved, actor := Some(actor))];
        return true;
      }
      return false;
    }

    method SetDeclined(fp: Fingerprint, actor: string)
      modifies this`pending
      ensures Actions() == Decline(old(Actions()), fp, actor)
    {
      if fp in pending {
        pending := pending[fp := pending[fp].(status := Declined, actor := Some(actor))];
      }
    }

    method RecordAudit(entry: Audit)
      modifies this`audit
      ensures Actions() == Append(old(Actions()), entry)
    {
      audit := audit + [entry];
    }
  }

  /** The table when the fingerprints in `todo` have yet to be recorded. */
  function RecordBut(rows: RowTable, seen: map<Fingerprint, Sighting>, todo: set<Fingerprint>, nowText: string): RowTable {
    rows + map fp | fp in seen && fp !in todo :: RecordRow(rows, fp, seen[fp], nowText)
  }

  function ReturnedFor(rows: RowTable, fp: Fingerprint, s: Sighting, nowText: string): Recorded {
    var row := RecordRow(rows, fp, s, nowText);
    Recorded(fp !in rows, row.firstSeen, row.status)
  }

  /** What has been returned by then. */
  function ReturnedBut(rows: RowTable, seen: map<Fingerprint, Sighting>, todo: set<Fingerprint>, nowText: string)
    : map<Fingerprint, Recorded>
  {
    map fp | fp in seen && fp !in todo :: ReturnedFor(rows, fp, seen[fp], nowText)
  }

  lemma RecordStarts(rows: RowTable, seen: map<Fingerprint, Sighting>, nowText: string)
    ensures RecordBut(rows, seen, seen.Keys, nowText) == rows && ReturnedBut(rows, seen, seen.Keys, nowText) == map[]
  {
    hide RecordRow;
  }

  lemma OneMoreRow(rows: RowTable, seen: map<Fingerprint, Sighting>, todo: set<Fingerprint>, fp: Fingerprint, nowText: string)
    requires fp in seen && fp in todo
    ensures var before := RecordBut(rows, seen, todo, nowText);
            && (fp in before <==> fp in rows) && (fp in rows ==> before[fp] == rows[fp])
            && RecordBut(rows, seen, todo - {fp}, nowText) == before[fp := RecordRow(rows, fp, seen[fp], nowText)]
  {
    hide RecordRow;
  }

  lemma OneMoreReturned(rows: RowTable, seen: map<Fingerprint, Sighting>, todo: set<Fingerprint>, fp: Fingerprint, nowText: string)
    requires fp in seen && fp in todo
    ensures ReturnedBut(rows, seen, todo - {fp}, nowText) ==
            ReturnedBut(rows, seen, todo, nowText)[fp := ReturnedFor(rows, fp, seen[fp], nowText)]
  {
    hide ReturnedFor;
  }

  lemma OneMoreRecorded(rows: RowTable, seen: map<Fingerprint, Sighting>, todo: set<Fingerprint>, fp: Fingerprint, nowText: string)
    requires fp in seen && fp in todo
    ensures var before := RecordBut(rows, seen, todo, nowText);
            var row := if fp in before then SeenRow(before[fp], seen[fp], nowText) else NewRow(seen[fp], nowText);
            && RecordBut(rows, seen, todo - {fp}, nowText) == before[fp := row]
            && ReturnedBut(rows, seen, todo - {fp}, nowText) ==
               ReturnedBut(rows, seen, todo, nowText)[fp := Recorded(fp !in before, row.firstSeen, row.status)]
  {
    hide RecordBut, ReturnedBut, SeenRow, NewRow;
    OneMoreRow(rows, seen, todo, fp, nowText);
    OneMoreReturned(rows, seen, todo, fp, nowText);
  }

  lemma RecordEnds(rows: RowTable, seen: map<Fingerprint, Sighting>, nowText: string)
    ensures var after, out := RecordBut(rows, seen, {}, nowText), ReturnedBut(rows, seen, {}, nowText);
            && after == RecordRows(rows, seen, nowText)
            && out.Keys == seen.Keys <= after.Keys
            && forall fp :: fp in seen ==> out[fp] == Recorded(fp !in rows, after[fp].firstSeen, after[fp].status)
  {
    hide RecordRow;
  }

  lemma NotAfterLast(d: DateTime)
    requires Valid(d)
    ensures FIRST <= Micros(d) <= LAST
  {
    var end := DateTime(9999, 12, 31, 23, 59, 59, 999999);
    FieldOrderExact(end, d);
    LastDay();
    YearHolds(9999);
    YearStep(9999);
    assert DaysBeforeMonth(9999, 13) == DaysBeforeMonth(9999, 12) + 31;
    assert Ordinal(end) == 3652059;
  }
}
