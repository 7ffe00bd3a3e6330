/** The fleet sweep. */
module Sweep {
  // One reconcile over the union of every reachable target's report.

  import opened Text
  import opened IsoTime
  import opened Findings
  import opened Rows
  import opened Store
  import opened Reports
  import opened ReconcileState
  import Lifecycle

  /** One target's probe: the items of its report, or nothing when the probe raised. */
  datatype Probed = Reached(name: string, items: seq<Alert>) | Unreachable(name: string)

  datatype TargetResult = TargetResult(name: string, ok: bool, alerts: nat, newAlerts: nat)

  /** The union of the live reports' items, in target order. */
  function Union(built: seq<Probed>): seq<Alert> {
    if built == [] then []
    else
      var n := |built| - 1;
      Union(built[..n]) + if built[n].Reached? then built[n].items else []
  }

  lemma {:induction false} UnionMembers(built: seq<Probed>, a: Alert)
    ensures a in Union(built) <==> exists i :: 0 <= i < |built| && built[i].Reached? && a in built[i].items
    decreases |built|
  {
    if built != [] {
      var n := |built| - 1;
      UnionMembers(built[..n], a);
      assert built == built[..n] + [built[n]];
    }
  }

  predicate AnyLive(built: seq<Probed>) {
    exists i :: 0 <= i < |built| && built[i].Reached?
  }

  /** Some target answered. */
  lemma AnyLiveExactly(built: seq<Probed>)
    ensures AnyLive(built) <==> exists p :: p in built && p.Reached?
  {
    if p :| p in built && p.Reached? { var i :| 0 <= i < |built| && built[i] == p; }
  }

  /** A surfaced alert whose earliest member was first seen at this very sweep. */
  predicate FirstSeenNow(b: Body, judged: Table, now: Instant) {
    Annotated(b, judged, now) && IsEarliest(now, judged, Fps(b))
  }

  /** What the alerts were marked with before the sweep (nothing, on a report just built). */
  type Marks = map<Alert, Option<Instant>>

  ghost function MarksOf(items: seq<Alert>): Marks
    reads items
  {
    map a | a in items :: a.firstSeen
  }

  /** The alert counts as new: surfaced and first seen now, or else marked so already. */
  ghost predicate CountsNew(a: Alert, marks: Marks, judged: Option<Table>, now: Instant) {
    if judged.Some? && Annotated(a.body, judged.value, now) then FirstSeenNow(a.body, judged.value, now)
    else a in marks && marks[a] == Some(now)
  }

  ghost function NewAlerts(alerts: seq<Alert>, marks: Marks, judged: Option<Table>, now: Instant): nat {
    if alerts == [] then 0
    else
      var n := |alerts| - 1;
      NewAlerts(alerts[..n], marks, judged, now) + if CountsNew(alerts[n], marks, judged, now) then 1 else 0
  }

  /** One target's line of the digest; `judged` is None when nothing was reconciled. */
  ghost function ResultOf(p: Probed, marks: Marks, judged: Option<Table>, now: Instant): TargetResult {
    match p
    case Unreachable(name) => TargetResult(name, false, 0, 0)
    case Reached(name, items) =>
      var alerts := OfLayer(items, AlertLayer);
      TargetResult(name, true, |alerts|, NewAlerts(alerts, marks, judged, now))
  }

  /** A line counts the alerts of the target's own report, signals aside, and the new ones among them;
      a target that did not answer has none. */
  lemma {:induction false} LineExactly(name: string, items: seq<Alert>, marks: Marks, judged: Option<Table>, now: Instant)
    ensures var line := ResultOf(Reached(name, items), marks, judged, now);
            && line.name == name && line.ok
            && line.alerts == Count(items, (a: Alert) => a.body.layer.AlertLayer?)
            && line.newAlerts == Count(items, (a: Alert) => a.body.layer.AlertLayer? && CountsNew(a, marks, judged, now))
    ensures ResultOf(Unreachable(name), marks, judged, now) == TargetResult(name, false, 0, 0)
    decreases |items|
  {
    hide CountsNew;
    if items != [] {
      var n := |items| - 1;
      var front, a := items[..n], items[n];
      assert items == front + [a];
      LineExactly(name, front, marks, judged, now);
      CountPush(front, a, (a: Alert) => a.body.layer.AlertLayer?);
      CountPush(front, a, (a: Alert) => a.body.layer.AlertLayer? && CountsNew(a, marks, judged, now));
      var alerts := OfLayer(front, AlertLayer);
      assert (alerts + [a])[..|alerts|] == alerts && alerts + [] == alerts;
    }
  }

  /** The marks the sweep reads its `new` counts from. */
  ghost predicate Marked(items: seq<Alert>, marks: Marks, judged: Option<Table>, now: Instant)
    reads items
  {
    forall a :: a in items ==> (a.firstSeen == Some(now) <==> CountsNew(a, marks, judged, now))
  }

  method CountNew(alerts: seq<Alert>, now: Instant, ghost marks: Marks, ghost judged: Option<Table>) returns (newAlerts: nat)
    requires Marked(alerts, marks, judged, now)
    ensures newAlerts == NewAlerts(alerts, marks, judged, now)
  {
    hide CountsNew;
    newAlerts := 0;
    for i := 0 to |alerts|
      invariant newAlerts == NewAlerts(alerts[..i], marks, judged, now)
    {
      assert alerts[..i + 1][..i] == alerts[..i];
      assert alerts[i] in alerts;
      if alerts[i].firstSeen == Some(now) {
        newAlerts := newAlerts + 1;
      }
    }
    assert alerts[..|alerts|] == alerts;
  }

  lemma EarliestUnique(d: Instant, e: Instant, t: Table, fps: seq<Fingerprint>)
    requires IsEarliest(d, t, fps) && IsEarliest(e, t, fps)
    ensures d == e
  {
    var i :| 0 <= i < |fps| && fps[i] in t && d == t[fps[i]].firstSeen;
    var j :| 0 <= j < |fps| && fps[j] in t && e == t[fps[j]].firstSeen;
  }

  lemma MarkOf(
    a: Alert, firstSeen: Option<Instant>, status: Option<Findings.Lifecycle>, marks: Marks, judged: Table, now: Instant)
    requires a in marks
    requires if Annotated(a.body, judged, now) then Describes(firstSeen, status, judged, Fps(a.body)) else firstSeen == marks[a]
    ensures firstSeen == Some(now) <==> CountsNew(a, marks, Some(judged), now)
  {
    hide Fps, Withheld, IsEarliest;
    if Annotated(a.body, judged, now) && FirstSeenNow(a.body, judged, now) {
      EarliestUnique(firstSeen.value, now, judged, Fps(a.body));
    }
  }

  /** The sweep. Each target's line counts its own alerts, and as new those surfaced ones whose
      earliest member was first seen now; the items left for emission are the union's signals,
      then its unsuppressed alerts; and the store takes one lifecycle step over the whole union.
      It raises, before any line is written, exactly when the reconcile does. */
  method SweepTargets(
    built: seq<Probed>, store: StateStore, committed: map<Fingerprint, Commit>, now: DateTime, grace: nat, stateless: bool)
    returns (results: seq<TargetResult>, resolved: seq<ResolvedFinding>, combined: Report, raised: bool)
    requires store.Stamped() && Valid(now)
    modifies Union(built), store`findings
    ensures store.Stamped()
    ensures raised <==> !stateless && AnyLive(built) && Micros(now) < FIRST + grace
    ensures var scan := ScanOf(Bodies(Union(built)), committed, Micros(now));
            var judged := Judged(old(store.Contents()), Bodies(Union(built)), committed, Micros(now));
            var marks := old(MarksOf(Union(built)));
            if stateless || !AnyLive(built) then
              && store.Contents() == old(store.Contents()) && resolved == [] && combined.items == Union(built)
              && |results| == |built|
              && forall i :: 0 <= i < |built| ==> results[i] == ResultOf(built[i], marks, None, Micros(now))
            else
              && combined.items == OfLayer(Union(built), SignalLayer)
                                 + Unsuppressed(OfLayer(Union(built), AlertLayer), judged, Micros(now))
              && if raised then store.Contents() == judged && resolved == [] && results == []
                 else
                   && store.Contents() == Lifecycle.Effect(old(store.Contents()), scan, grace)
                   && ListsOnce(resolved, Lifecycle.Reported(old(store.Contents()), scan, grace), store.Contents())
                   && |results| == |built|
                   && forall i :: 0 <= i < |built| ==> results[i] == ResultOf(built[i], marks, Some(judged), Micros(now))
  {
    hide Micros, Valid, Judged, ScanOf, FirstSeenNow, CountsNew, Annotated, Describes, ListsOnce, StampedRows, TableOf, Union,
         Findings.ResolveAbsent, Unsuppressed, OfLayer, ResultOf;
    var union := Union(built);
    forall a | a in union ensures allocated(a) {
      UnionMembers(built, a);
    }
    ghost var marks := MarksOf(union);
    combined := new Report(union);
    resolved, raised := [], false;
    ghost var judged := None;
    if !stateless && AnyLive(built) {
      judged := Some(Judged(store.Contents(), Bodies(union), committed, Micros(now)));
      resolved, raised := Reconcile(combined, store, committed, now, grace);
      if raised {
        results := [];
        return;
      }
      forall a | a in union ensures a.firstSeen == Some(Micros(now)) <==> CountsNew(a, marks, judged, Micros(now)) {
        MarkOf(a, a.firstSeen, a.status, marks, judged.value, Micros(now));
      }
    } else {
      forall a | a in union ensures a.firstSeen == Some(Micros(now)) <==> CountsNew(a, marks, None, Micros(now)) {
        Unjudged(a, marks, Micros(now));
      }
    }
    results := Digest(built, Micros(now), marks, judged);
  }

  lemma Unjudged(a: Alert, marks: Marks, now: Instant)
    requires a in marks
    ensures CountsNew(a, marks, None, now) <==> marks[a] == Some(now)
  {
  }

  /** One line per target, read from the alerts the target's own report holds. */
  method Digest(built: seq<Probed>, now: Instant, ghost marks: Marks, ghost judged: Option<Table>)
    returns (results: seq<TargetResult>)
    requires Marked(Union(built), marks, judged, now)
    ensures |results| == |built|
    ensures forall i :: 0 <= i < |built| ==> results[i] == ResultOf(built[i], marks, judged, now)
  {
    hide CountsNew;
    results := [];
    for i := 0 to |built|
      invariant |results| == i
      invariant forall k :: 0 <= k < i ==> results[k] == ResultOf(built[k], marks, judged, now)
    {
      match built[i] {
        case Unreachable(name) => results := results + [TargetResult(name, false, 0, 0)];
        case Reached(name, items) =>
          var alerts := OfLayer(items, AlertLayer);
          InUnion(built, i);
          OfLayerMembers(items, AlertLayer);
          var newAlerts := CountNew(alerts, now, marks, judged);
          results := results + [TargetResult(name, true, |alerts|, newAlerts)];
      }
    }
  }

  lemma {:induction false} InUnion(built: seq<Probed>, i: nat)
    requires i < |built| && built[i].Reached?
    ensures forall a :: a in built[i].items ==> a in Union(built)
  {
    forall a | a in built[i].items ensures a in Union(built) {
      UnionMembers(built, a);
    }
  }

  // -- What a sweep promises ------------------------------------------------------------------------

  /** No finding that any live report carries is resolved by the sweep, and whatever it
      resolves is absent from every live report: absence is judged on the whole fleet. */
  lemma {:induction false} LiveNeverResolved(
    t: Table, built: seq<Probed>, committed: map<Fingerprint, Commit>, now: Instant, grace: nat, i: nat, a: Alert, fp: Fingerprint)
    requires i < |built| && built[i].Reached? && a in built[i].items && Present(a.body, fp)
    ensures fp !in Lifecycle.Reported(t, ScanOf(Bodies(Union(built)), committed, now), grace)
    ensures var after := Lifecycle.Effect(t, ScanOf(Bodies(Union(built)), committed, now), grace);
            fp in after && after[fp].lastSeen == now && !after[fp].status.Resolved?
  {
    hide Sightings, Present;
    var bs := Bodies(Union(built));
    InUnion(built, i);
    var k :| 0 <= k < |Union(built)| && Union(built)[k] == a;
    assert Present(bs[k], fp);
    SeenExactly(bs, fp);
    SeenStaysOpen(t, Sightings(bs), committed, now, grace, fp);
  }

  lemma SeenStaysOpen(
    t: Table, seen: map<Fingerprint, Sighting>, committed: map<Fingerprint, Commit>, now: Instant, grace: nat, fp: Fingerprint)
    requires fp in seen
    ensures fp !in Lifecycle.Reported(t, Lifecycle.Scan(seen, committed, now), grace)
    ensures var after := Lifecycle.Effect(t, Lifecycle.Scan(seen, committed, now), grace);
            fp in after && after[fp].lastSeen == now && !after[fp].status.Resolved?
  {
    var recorded := Lifecycle.Recorded(t, seen, committed, now);
    assert recorded[fp].lastSeen == now && !recorded[fp].status.Resolved?;
  }

  /** `new` means new: for every store, a surfaced alert counts as first seen at this sweep
      exactly when each of its members is unknown to the store or known from no earlier than now,
      and one of them is new or from this very instant. */
  lemma NewMeansNew(t: Table, bs: seq<Body>, committed: map<Fingerprint, Commit>, now: Instant, k: nat)
    requires k < |bs|
    ensures var judged, fps := Judged(t, bs, committed, now), Fps(bs[k]);
            FirstSeenNow(bs[k], judged, now) <==>
            && Annotated(bs[k], judged, now)
            && (forall j :: 0 <= j < |fps| ==> fps[j] !in t || t[fps[j]].firstSeen >= now)
            && exists j :: 0 <= j < |fps| && (fps[j] !in t || t[fps[j]].firstSeen == now)
  {
    hide Sightings, Fps, Annotated;
    var judged := Judged(t, bs, committed, now);
    var fps := Fps(bs[k]);
    forall j | 0 <= j < |fps|
      ensures fps[j] in judged && judged[fps[j]].firstSeen == if fps[j] in t then t[fps[j]].firstSeen else now
    {
      assert Present(bs[k], fps[j]);
      SeenExactly(bs, fps[j]);
      FirstSeenKept(t, Sightings(bs), committed, now, fps[j]);
    }
    if j :| 0 <= j < |fps| && (fps[j] !in t || t[fps[j]].firstSeen == now) {
      assert judged[fps[j]].firstSeen == now;
    }
  }

  lemma FirstSeenKept(t: Table, seen: map<Fingerprint, Sighting>, committed: map<Fingerprint, Commit>, now: Instant, fp: Fingerprint)
    requires fp in seen
    ensures var judged := Lifecycle.Recorded(t, seen, committed, now);
            fp in judged && judged[fp].firstSeen == if fp in t then t[fp].firstSeen else now
  {
  }
}
