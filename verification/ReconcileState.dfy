/** The memoryful scan: committed mutes in, sightings recorded, silenced alerts dropped and the
    others annotated in place, absent findings resolved. */
module ReconcileState {
  import opened Text
  import opened IsoTime
  import opened Findings
  import opened Rows
  import opened Store
  import opened Reports
  import Lifecycle

  class Alert {
    const body: Body
    var firstSeen: Option<Instant>
    var status: Option<Findings.Lifecycle>

    constructor (body: Body)
      ensures this.body == body && firstSeen == None && status == None
    {
      this.body := body;
      firstSeen, status := None, None;
    }
  }

  class Report {
    var items: seq<Alert>

    constructor (items: seq<Alert>)
      ensures this.items == items
    {
      this.items := items;
    }
  }

  function Bodies(items: seq<Alert>): (bs: seq<Body>)
    ensures |bs| == |items| && forall i :: 0 <= i < |items| ==> bs[i] == items[i].body
  {
    seq(|items|, i requires 0 <= i < |items| => items[i].body)
  }

  function OfLayer(items: seq<Alert>, layer: Layer): seq<Alert> {
    if items == [] then []
    else
      var n := |items| - 1;
      OfLayer(items[..n], layer) + if items[n].body.layer == layer then [items[n]] else []
  }

  function Unsuppressed(items: seq<Alert>, t: Table, now: Instant): seq<Alert> {
    if items == [] then []
    else
      var n := |items| - 1;
      Unsuppressed(items[..n], t, now) + if Withheld(items[n].body, t, now) then [] else [items[n]]
  }

  /** `sub` holds the alerts of `items` that `keeps` keeps, each as often and in the order there. */
  ghost predicate KeptOf(sub: seq<Alert>, items: seq<Alert>, keeps: Body -> bool) {
    && |sub| == Count(Bodies(items), keeps)
    && forall i :: 0 <= i < |items| && keeps(items[i].body) ==>
         var k := Count(Bodies(items[..i]), keeps);
         k < |sub| && sub[k] == items[i]
  }

  lemma KeptMore(sub: seq<Alert>, items: seq<Alert>, a: Alert, keeps: Body -> bool)
    requires KeptOf(sub, items, keeps)
    ensures KeptOf(sub + if keeps(a.body) then [a] else [], items + [a], keeps)
  {
    var all := items + [a];
    assert Bodies(all) == Bodies(items) + [a.body];
    CountPush(Bodies(items), a.body, keeps);
    forall i | 0 <= i < |items| ensures all[..i] == items[..i] {}
    assert all[..|items|] == items;
  }

  /** The alerts of a layer are those of the items, in order. */
  lemma {:induction false} OfLayerExactly(items: seq<Alert>, layer: Layer)
    ensures KeptOf(OfLayer(items, layer), items, (b: Body) => b.layer == layer)
    decreases |items|
  {
    if items != [] {
      var n := |items| - 1;
      OfLayerExactly(items[..n], layer);
      assert items == items[..n] + [items[n]];
      KeptMore(OfLayer(items[..n], layer), items[..n], items[n], (b: Body) => b.layer == layer);
    }
  }

  /** So are the unsuppressed ones. */
  lemma {:induction false} UnsuppressedExactly(items: seq<Alert>, t: Table, now: Instant)
    ensures KeptOf(Unsuppressed(items, t, now), items, b => !Withheld(b, t, now))
    decreases |items|
  {
    hide Withheld;
    if items != [] {
      var n := |items| - 1;
      UnsuppressedExactly(items[..n], t, now);
      assert items == items[..n] + [items[n]];
      KeptMore(Unsuppressed(items[..n], t, now), items[..n], items[n], b => !Withheld(b, t, now));
    }
  }

  // -- Committed mutes -----------------------------------------------------------------------------

  /** The table when the committed mutes in `todo` have yet to be imported. */
  function ImportedBut(t: Table, committed: map<Fingerprint, Commit>, todo: set<Fingerprint>, now: Instant): Table {
    t + map fp | fp in committed && fp in ToApply(t, committed, now) && fp !in todo :: MutedBy(t, fp, committed[fp], now)
  }

  lemma NoneImported(t: Table, committed: map<Fingerprint, Commit>, now: Instant)
    ensures ImportedBut(t, committed, committed.Keys, now) == t
    ensures ToApply(t, committed, now) - committed.Keys == {}
  {
  }

  lemma AllImported(t: Table, committed: map<Fingerprint, Commit>, now: Instant)
    ensures ImportedBut(t, committed, {}, now) == ApplyCommitted(t, committed, now)
    ensures ToApply(t, committed, now) - {} == ToApply(t, committed, now)
  {
    hide IsSuppressed, MutedBy;
  }

  lemma MuteWrites(t: Table, fp: Fingerprint, c: Commit, now: Instant)
    ensures Upsert(t, fp, Muted, None, Some(c.note), Some(c.author), now) == t[fp := MutedBy(t, fp, c, now)]
  {
  }

  lemma NotYetImported(t: Table, committed: map<Fingerprint, Commit>, todo: set<Fingerprint>, fp: Fingerprint, now: Instant)
    requires fp in committed && fp in todo
    ensures var before := ImportedBut(t, committed, todo, now);
            && (IsSuppressed(before, fp, now) <==> fp !in ToApply(t, committed, now))
            && MutedBy(before, fp, committed[fp], now) == MutedBy(t, fp, committed[fp], now)
  {
    var before := ImportedBut(t, committed, todo, now);
    assert fp in before <==> fp in t;
    assert fp in t ==> before[fp] == t[fp];
  }

  lemma OneMoreImported(t: Table, committed: map<Fingerprint, Commit>, todo: set<Fingerprint>, fp: Fingerprint, now: Instant)
    requires fp in committed && fp in todo
    ensures var before, after := ImportedBut(t, committed, todo, now), ImportedBut(t, committed, todo - {fp}, now);
            && (IsSuppressed(before, fp, now) <==> fp !in ToApply(t, committed, now))
            && after == if IsSuppressed(before, fp, now) then before
                        else Upsert(before, fp, Muted, None, Some(committed[fp].note), Some(committed[fp].author), now)
  {
    hide MutedBy, IsSuppressed, Upsert;
    NotYetImported(t, committed, todo, fp, now);
    MuteWrites(ImportedBut(t, committed, todo, now), fp, committed[fp], now);
  }

  lemma CountOneMore(all: set<Fingerprint>, todo: set<Fingerprint>, fp: Fingerprint)
    requires fp in todo
    ensures |all - (todo - {fp})| == |all - todo| + if fp in all then 1 else 0
  {
    assert all - (todo - {fp}) == (all - todo) + (if fp in all then {fp} else {});
  }

  method ApplyCommittedMutes(store: StateStore, committed: map<Fingerprint, Commit>, now: DateTime) returns (applied: nat)
    requires store.Stamped() && Valid(now)
    modifies store`findings
    ensures store.Stamped() && store.Contents() == ApplyCommitted(old(store.Contents()), committed, Micros(now))
    ensures applied == |ToApply(old(store.Contents()), committed, Micros(now))|
  {
    hide ImportedBut, ApplyCommitted, IsSuppressed, Upsert, Micros, ToApply, Valid, StateStore.Contents, StateStore.Stamped;
    ghost var t := store.Contents();
    ghost var all := ToApply(t, committed, Micros(now));
    NoneImported(t, committed, Micros(now));
    applied := 0;
    var todo := committed.Keys;
    while todo != {}
      invariant store.Stamped() && todo <= committed.Keys
      invariant store.Contents() == ImportedBut(t, committed, todo, Micros(now))
      invariant applied == |all - todo|
      decreases |todo|
    {
      var fp :| fp in todo;
      OneMoreImported(t, committed, todo, fp, Micros(now));
      CountOneMore(all, todo, fp);
      var silenced := store.Suppresses(fp, now);
      if !silenced {
        store.Mute(fp, Some(committed[fp].note), Some(committed[fp].author), now);
        applied := applied + 1;
      }
      todo := todo - {fp};
    }
    AllImported(t, committed, Micros(now));
  }

  // -- What the scan saw -----------------------------------------------------------------------------

  method SeenFindings(items: seq<Alert>) returns (seen: map<Fingerprint, Label>)
    ensures seen == SeeAll(Bodies(items))
  {
    hide DriftTitle;
    seen := map[];
    var bs := Bodies(items);
    for i := 0 to |items|
      invariant seen == SeeAll(bs[..i])
    {
      var b := items[i].body;
      ghost var m := seen;
      assert bs[..i + 1][..i] == bs[..i];
      for j := 0 to |b.drifts|
        invariant seen == PutAll(m, DriftLabels(b, b.drifts[..j]))
      {
        assert b.drifts[..j + 1][..j] == b.drifts[..j];
        PutMore(m, DriftLabels(b, b.drifts[..j]), DriftLabel(b, b.drifts[j]));
        seen := seen[b.drifts[j].fp := Label(b.severity, DriftTitle(b.drifts[j]))];
      }
      assert b.drifts[..|b.drifts|] == b.drifts;
      ghost var m1 := seen;
      for j := 0 to |b.policies|
        invariant seen == PutAll(m1, PolicyLabels(b, b.policies[..j]))
      {
        assert b.policies[..j + 1][..j] == b.policies[..j];
        PutMore(m1, PolicyLabels(b, b.policies[..j]), PolicyLabel(b, b.policies[j]));
        seen := seen[b.policies[j].fp := Label(b.severity, b.policies[j].title)];
      }
      assert b.policies[..|b.policies|] == b.policies;
      ghost var m2 := seen;
      for j := 0 to |b.symptoms|
        invariant seen == PutAll(m2, SymptomLabels(b, b.symptoms[..j]))
      {
        assert b.symptoms[..j + 1][..j] == b.symptoms[..j];
        PutMore(m2, SymptomLabels(b, b.symptoms[..j]), SymptomLabel(b, b.symptoms[j]));
        seen := seen[b.symptoms[j].fp := Label(b.severity, b.symptoms[j].title)];
      }
      assert b.symptoms[..|b.symptoms|] == b.symptoms;
      ghost var m3 := seen;
      if b.correlation != "" {
        PutMore(m3, [], (b.correlation, Label(b.severity, b.title)));
        assert [] + GroupLabel(b) == GroupLabel(b);
        seen := seen[b.correlation := Label(b.severity, b.title)];
      }
      assert seen == PutAll(m3, GroupLabel(b));
    }
    assert bs[..|items|] == bs;
  }

  method FindingEvidence(items: seq<Alert>) returns (evidence: map<Fingerprint, map<string, string>>)
    ensures evidence == ExplainAll(Bodies(items))
  {
    hide FieldsOf, ScopeOf;
    evidence := map[];
    var bs := Bodies(items);
    for i := 0 to |items|
      invariant evidence == ExplainAll(bs[..i])
    {
      var b := items[i].body;
      ghost var m := evidence;
      assert bs[..i + 1][..i] == bs[..i];
      for j := 0 to |b.drifts|
        invariant evidence == PutAll(m, DriftFacts(b.drifts[..j]))
      {
        assert b.drifts[..j + 1][..j] == b.drifts[..j];
        PutMore(m, DriftFacts(b.drifts[..j]), (b.drifts[j].fp, FieldsOf(b.drifts[j])));
        evidence := evidence[b.drifts[j].fp := FieldsOf(b.drifts[j])];
      }
      assert b.drifts[..|b.drifts|] == b.drifts;
      ghost var m1 := evidence;
      for j := 0 to |b.symptoms|
        invariant evidence == PutAll(m1, SymptomFacts(b.symptoms[..j]))
      {
        var s := b.symptoms[j];
        assert b.symptoms[..j + 1][..j] == b.symptoms[..j];
        if s.evidence != map[] {
          PutMore(m1, SymptomFacts(b.symptoms[..j]), (s.fp, s.evidence));
          evidence := evidence[s.fp := s.evidence];
        } else {
          assert SymptomFacts(b.symptoms[..j]) + [] == SymptomFacts(b.symptoms[..j]);
        }
      }
      assert b.symptoms[..|b.symptoms|] == b.symptoms;
      ghost var m2 := evidence;
      if b.correlation != "" && b.symptoms != [] {
        PutMore(m2, [], (b.correlation, ScopeOf(b.symptoms)));
        assert [] + GroupFacts(b) == GroupFacts(b);
        evidence := evidence[b.correlation := ScopeOf(b.symptoms)];
      }
      assert evidence == PutAll(m2, GroupFacts(b));
    }
    assert bs[..|items|] == bs;
  }

  // -- Suppression and annotation ------------------------------------------------------------------------

  method AlertSuppressed(b: Body, store: StateStore, now: DateTime) returns (yes: bool)
    requires store.Stamped() && Valid(now)
    ensures yes <==> Withheld(b, store.Contents(), Micros(now))
  {
    hide IsSuppressed, Fps, Micros;
    if b.correlation != "" {
      yes := store.Suppresses(b.correlation, now);
      if yes {
        return true;
      }
    }
    var fps := Fps(b);
    for i := 0 to |fps|
      invariant forall k :: 0 <= k < i ==> IsSuppressed(store.Contents(), fps[k], Micros(now))
    {
      var silenced := store.Suppresses(fps[i], now);
      if !silenced {
        return false;
      }
    }
    return fps != [];
  }

  /** What `record` handed back, read as the table it left. */
  ghost predicate StateOf(state: map<Fingerprint, Recorded>, t: Table) {
    forall fp :: fp in state ==>
      fp in t && IsStamp(state[fp].firstSeen) && InstantOf(state[fp].firstSeen) == t[fp].firstSeen
      && state[fp].status == t[fp].status
  }

  ghost predicate Known(state: map<Fingerprint, Recorded>, fps: seq<Fingerprint>) {
    forall i :: 0 <= i < |fps| ==> fps[i] in state
  }

  predicate Describes(firstSeen: Option<Instant>, status: Option<Findings.Lifecycle>, t: Table, fps: seq<Fingerprint>) {
    firstSeen.Some? && IsEarliest(firstSeen.value, t, fps) && status == Some(Summary(t, fps))
  }

  /** The fingerprints the recorded state knows, in order. */
  function KnownOf(fps: seq<Fingerprint>, known: set<Fingerprint>): (members: seq<Fingerprint>)
    ensures forall i :: 0 <= i < |members| ==> members[i] in known
  {
    if fps == [] then []
    else
      var n := |fps| - 1;
      KnownOf(fps[..n], known) + if fps[n] in known then [fps[n]] else []
  }

  lemma {:induction false} AllKnown(fps: seq<Fingerprint>, known: set<Fingerprint>)
    requires forall i :: 0 <= i < |fps| ==> fps[i] in known
    ensures KnownOf(fps, known) == fps
    decreases |fps|
  {
    if fps != [] {
      var n := |fps| - 1;
      AllKnown(fps[..n], known);
      assert fps == fps[..n] + [fps[n]];
    }
  }

  /** Members the state does not know are skipped; without any, the alert is left alone. */
  method Annotate(alert: Alert, fps: seq<Fingerprint>, state: map<Fingerprint, Recorded>, ghost t: Table)
    requires StateOf(state, t)
    modifies alert
    ensures var members := KnownOf(fps, state.Keys);
            if members == [] then alert.firstSeen == old(alert.firstSeen) && alert.status == old(alert.status)
            else Describes(alert.firstSeen, alert.status, t, members)
  {
    hide IsStamp, InstantOf;
    var members := KnownOf(fps, state.Keys);
    if members == [] {
      return;
    }
    var earliest := InstantOf(state[members[0]].firstSeen);
    var muted, snoozed := false, false;
    for i := 0 to |members|
      invariant forall k :: 0 <= k < i ==> earliest <= t[members[k]].firstSeen
      invariant exists k :: 0 <= k < |members| && earliest == t[members[k]].firstSeen
      invariant muted <==> exists k :: 0 <= k < i && t[members[k]].status.Muted?
      invariant snoozed <==> exists k :: 0 <= k < i && t[members[k]].status.Snoozed?
    {
      var member := state[members[i]];
      if InstantOf(member.firstSeen) < earliest {
        earliest := InstantOf(member.firstSeen);
      }
      muted := muted || member.status.Muted?;
      snoozed := snoozed || member.status.Snoozed?;
    }
    alert.firstSeen := Some(earliest);
    alert.status := Some(if muted then Muted else if snoozed then Snoozed else Open);
  }

  // -- The scan --------------------------------------------------------------------------------------------

  /** The table suppression and annotation are decided on. */
  function Judged(t: Table, bs: seq<Body>, committed: map<Fingerprint, Commit>, now: Instant): Table {
    Lifecycle.Recorded(t, Sightings(bs), committed, now)
  }

  function ScanOf(bs: seq<Body>, committed: map<Fingerprint, Commit>, now: Instant): Lifecycle.Event {
    Lifecycle.Scan(Sightings(bs), committed, now)
  }

  /** A surfaced alert with members. */
  predicate Annotated(b: Body, t: Table, now: Instant) {
    b.layer.AlertLayer? && !Withheld(b, t, now) && Fps(b) != []
  }

  datatype ResolvedFinding = ResolvedFinding(fp: Fingerprint, title: string)

  method RecordScan(items: seq<Alert>, store: StateStore, committed: map<Fingerprint, Commit>, now: DateTime)
    returns (seen: set<Fingerprint>, state: map<Fingerprint, Recorded>)
    requires store.Stamped() && Valid(now)
    modifies store`findings
    ensures store.Stamped()
    ensures store.Contents() == Judged(old(store.Contents()), Bodies(items), committed, Micros(now))
    ensures seen == Sightings(Bodies(items)).Keys == state.Keys && StateOf(state, store.Contents())
  {
    hide IsStamp, InstantOf, SeeAll, ExplainAll, ApplyCommitted, Findings.Record, Micros;
    var applied := ApplyCommittedMutes(store, committed, now);
    var labels := SeenFindings(items);
    var evidence := FindingEvidence(items);
    state := store.Record(Joined(labels, evidence), now);
    seen := labels.Keys;
    forall fp | fp in state ensures IsStamp(state[fp].firstSeen) {
      assert StampedRow(store.findings[fp]);
    }
  }

  /** Drop the silenced alerts; annotate the others in place. */
  method SurviveAndAnnotate(
    ghost items: seq<Alert>, alerts: seq<Alert>, store: StateStore, state: map<Fingerprint, Recorded>, now: DateTime)
    returns (surviving: seq<Alert>)
    requires store.Stamped() && Valid(now) && StateOf(state, store.Contents())
    requires forall a :: a in alerts ==> a in items && Known(state, Fps(a.body))
    modifies items
    ensures surviving == Unsuppressed(alerts, store.Contents(), Micros(now))
    ensures forall a :: a in alerts ==>
              if !Withheld(a.body, store.Contents(), Micros(now)) && Fps(a.body) != []
              then Describes(a.firstSeen, a.status, store.Contents(), Fps(a.body))
              else a.firstSeen == old(a.firstSeen) && a.status == old(a.status)
    ensures forall a :: a in items && a !in alerts ==> a.firstSeen == old(a.firstSeen) && a.status == old(a.status)
  {
    hide StateStore.Contents, StateStore.Stamped, Fps, Withheld, Describes, Micros, Valid, StateOf;
    surviving := [];
    for i := 0 to |alerts|
      invariant surviving == Unsuppressed(alerts[..i], store.Contents(), Micros(now))
      invariant forall a :: a in alerts ==>
                  if a in alerts[..i] && !Withheld(a.body, store.Contents(), Micros(now)) && Fps(a.body) != []
                  then Describes(a.firstSeen, a.status, store.Contents(), Fps(a.body))
                  else a.firstSeen == old(a.firstSeen) && a.status == old(a.status)
      invariant forall a :: a in items && a !in alerts ==> a.firstSeen == old(a.firstSeen) && a.status == old(a.status)
    {
      var item := alerts[i];
      assert alerts[..i + 1][..i] == alerts[..i];
      assert item in alerts && alerts[..i + 1] == alerts[..i] + [item];
      var silenced := AlertSuppressed(item.body, store, now);
      if !silenced {
        AllKnown(Fps(item.body), state.Keys);
        Annotate(item, Fps(item.body), state, store.Contents());
        surviving := surviving + [item];
      }
    }
    assert alerts[..|alerts|] == alerts;
  }

  lemma {:induction false} OfLayerMember(items: seq<Alert>, layer: Layer, a: Alert)
    ensures a in OfLayer(items, layer) <==> a in items && a.body.layer == layer
    decreases |items|
  {
    if items != [] {
      var n := |items| - 1;
      OfLayerMember(items[..n], layer, a);
      assert items == items[..n] + [items[n]];
    }
  }

  lemma {:induction false} OfLayerMembers(items: seq<Alert>, layer: Layer)
    ensures forall a :: a in OfLayer(items, layer) ==> a in items && a.body.layer == layer
    ensures forall a :: a in items && a.body.layer == layer ==> a in OfLayer(items, layer)
  {
    forall a | a in OfLayer(items, layer) ensures a in items && a.body.layer == layer {
      OfLayerMember(items, layer, a);
    }
    forall a | a in items && a.body.layer == layer ensures a in OfLayer(items, layer) {
      OfLayerMember(items, layer, a);
    }
  }

  predicate ListsOnce(resolved: seq<ResolvedFinding>, gone: set<Fingerprint>, t: Table) {
    && (forall i :: 0 <= i < |resolved| ==> resolved[i].fp in gone && resolved[i].fp in t && resolved[i].title == t[resolved[i].fp].title)
    && (forall fp :: fp in gone ==> exists i :: 0 <= i < |resolved| && resolved[i].fp == fp)
    && (forall i, j :: 0 <= i < j < |resolved| ==> resolved[i].fp != resolved[j].fp)
  }

  method ResolveScan(seen: set<Fingerprint>, store: StateStore, now: DateTime, grace: nat)
    returns (resolved: seq<ResolvedFinding>, raised: bool)
    requires store.Stamped() && Valid(now)
    modifies store`findings
    ensures store.Stamped() && (raised <==> Micros(now) < FIRST + grace)
    ensures raised ==> store.Contents() == old(store.Contents()) && resolved == []
    ensures !raised ==> store.Contents() == Findings.ResolveAbsent(old(store.Contents()), seen, Micros(now), grace)
    ensures !raised ==> ListsOnce(resolved, Absent(old(store.Contents()), seen, Micros(now), grace), store.Contents())
  {
    hide IsStamp, InstantOf, Micros, Findings.ResolveAbsent;
    var fps: seq<Fingerprint>;
    fps, raised := store.ResolveAbsent(seen, now, grace);
    if raised {
      return [], true;
    }
    ghost var gone := Absent(old(store.Contents()), seen, Micros(now), grace);
    AbsentStay(old(store.Contents()), seen, Micros(now), grace);
    resolved := Titled(fps, store);
    assert forall i :: 0 <= i < |fps| ==> fps[i] in fps;
    forall fp | fp in gone ensures exists i :: 0 <= i < |resolved| && resolved[i].fp == fp {
      var i :| 0 <= i < |fps| && fps[i] == fp;
      assert resolved[i].fp == fp;
    }
  }

  lemma AbsentStay(t: Table, seen: set<Fingerprint>, now: Instant, grace: nat)
    ensures Absent(t, seen, now, grace) <= Findings.ResolveAbsent(t, seen, now, grace).Keys
  {
  }

  method Titled(fps: seq<Fingerprint>, store: StateStore) returns (resolved: seq<ResolvedFinding>)
    requires store.Stamped()
    ensures |resolved| == |fps|
    ensures forall i :: 0 <= i < |fps| ==> resolved[i].fp == fps[i]
    ensures forall i :: 0 <= i < |fps| && fps[i] in store.Contents() ==> resolved[i].title == store.Contents()[fps[i]].title
  {
    hide IsStamp, InstantOf;
    resolved := [];
    for i := 0 to |fps|
      invariant |resolved| == i
      invariant forall k :: 0 <= k < i ==> resolved[k].fp == fps[k]
      invariant forall k :: 0 <= k < i && fps[k] in store.findings ==> resolved[k].title == store.findings[fps[k]].title
    {
      var title := if fps[i] in store.findings then store.findings[fps[i]].title else fps[i];
      resolved := resolved + [ResolvedFinding(fps[i], title)];
    }
  }

  /** One stateful scan. The store goes through one step of the lifecycle machine on everything
      the report carries; the items left are the signals, then the unsuppressed alerts, in
      order; a surfaced alert shows its earliest member and its strongest operator state; and
      what was resolved is listed once. If the grace window reaches back before the first
      representable date the scan raises when it comes to resolving: everything else is done. */
  method Reconcile(report: Report, store: StateStore, committed: map<Fingerprint, Commit>, now: DateTime, grace: nat)
    returns (resolved: seq<ResolvedFinding>, raised: bool)
    requires store.Stamped() && Valid(now)
    modifies report, report.items, store`findings
    ensures store.Stamped() && (raised <==> Micros(now) < FIRST + grace)
    ensures var scan := ScanOf(Bodies(old(report.items)), committed, Micros(now));
            var judged := Judged(old(store.Contents()), Bodies(old(report.items)), committed, Micros(now));
            && report.items == OfLayer(old(report.items), SignalLayer)
                             + Unsuppressed(OfLayer(old(report.items), AlertLayer), judged, Micros(now))
            && (forall a :: a in old(report.items) ==>
                  if Annotated(a.body, judged, Micros(now))
                  then Describes(a.firstSeen, a.status, judged, Fps(a.body))
                  else a.firstSeen == old(a.firstSeen) && a.status == old(a.status))
            && if raised then store.Contents() == judged && resolved == []
               else && store.Contents() == Lifecycle.Effect(old(store.Contents()), scan, grace)
                    && ListsOnce(resolved, Lifecycle.Reported(old(store.Contents()), scan, grace), store.Contents())
  {
    hide Micros, Valid, StateStore.Contents, StateStore.Stamped, Fps, Withheld, Describes, StateOf, ListsOnce,
         Findings.ResolveAbsent, Absent, SeeAll, ExplainAll;
    ghost var items := report.items;
    var alerts, signals := OfLayer(report.items, AlertLayer), OfLayer(report.items, SignalLayer);
    OfLayerMembers(items, AlertLayer);
    var seen, state := RecordScan(report.items, store, committed, now);
    forall a | a in alerts ensures Known(state, Fps(a.body)) {
      MembersSeen(items, a);
    }
    var surviving := SurviveAndAnnotate(items, alerts, store, state, now);
    report.items := signals + surviving;
    resolved, raised := ResolveScan(seen, store, now, grace);
  }

  lemma MembersSeen(items: seq<Alert>, a: Alert)
    requires a in items
    ensures forall k :: 0 <= k < |Fps(a.body)| ==> Fps(a.body)[k] in Sightings(Bodies(items))
  {
    hide Fps, Sightings;
    var i :| 0 <= i < |items| && items[i] == a;
    forall k | 0 <= k < |Fps(a.body)| ensures Fps(a.body)[k] in Sightings(Bodies(items)) {
      assert Present(Bodies(items)[i], Fps(a.body)[k]);
      SeenExactly(Bodies(items), Fps(a.body)[k]);
    }
  }
}
