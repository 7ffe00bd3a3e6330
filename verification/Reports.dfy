/** Reports as values: what a scan saw, which alerts the store silences, and how an alert is
    annotated from its members. */
module Reports {
  import opened Text
  import opened Findings

  datatype Layer = SignalLayer | EventLayer | AlertLayer

  datatype Drift = Drift(fp: Fingerprint, identity: string, kind: string, change: string)
  datatype Policy = Policy(fp: Fingerprint, title: string)
  datatype Symptom = Symptom(
    fp: Fingerprint,
    title: string,
    identity: string,
    kind: string,
    category: string,
    evidence: map<string, string>,
    recommended: Option<string>)

  /** The part of an alert that never changes. `correlation` is "" on an ungrouped alert. */
  datatype Body = Body(
    layer: Layer,
    severity: string,
    title: string,
    correlation: Fingerprint,
    drifts: seq<Drift>,
    policies: seq<Policy>,
    symptoms: seq<Symptom>)

  datatype Label = Label(severity: string, title: string)

  // -- Members -----------------------------------------------------------------------------------

  function DriftFps(ds: seq<Drift>): seq<Fingerprint> {
    seq(|ds|, i requires 0 <= i < |ds| => ds[i].fp)
  }

  function PolicyFps(ps: seq<Policy>): seq<Fingerprint> {
    seq(|ps|, i requires 0 <= i < |ps| => ps[i].fp)
  }

  function SymptomFps(ss: seq<Symptom>): seq<Fingerprint> {
    seq(|ss|, i requires 0 <= i < |ss| => ss[i].fp)
  }

  /** `_fingerprints` */
  function Fps(b: Body): seq<Fingerprint> {
    DriftFps(b.drifts) + PolicyFps(b.policies) + SymptomFps(b.symptoms)
  }

  /** Everything a scan of `b` counts as present. */
  predicate Present(b: Body, fp: Fingerprint) {
    fp in Fps(b) || (b.correlation != "" && fp == b.correlation)
  }

  // -- Dictionaries filled in a loop ---------------------------------------------------------------

  function PutAll<V>(m: map<Fingerprint, V>, es: seq<(Fingerprint, V)>): map<Fingerprint, V> {
    if es == [] then m
    else
      var n := |es| - 1;
      PutAll(m, es[..n])[es[n].0 := es[n].1]
  }

  lemma {:induction false} PutMore<V>(m: map<Fingerprint, V>, es: seq<(Fingerprint, V)>, e: (Fingerprint, V))
    ensures PutAll(m, es + [e]) == PutAll(m, es)[e.0 := e.1]
  {
    assert (es + [e])[..|es|] == es;
  }

  lemma {:induction false} PutKeys<V>(m: map<Fingerprint, V>, es: seq<(Fingerprint, V)>, fp: Fingerprint)
    ensures fp in PutAll(m, es) <==> fp in m || exists i :: 0 <= i < |es| && es[i].0 == fp
    decreases |es|
  {
    if es != [] {
      PutKeys(m, es[..|es| - 1], fp);
    }
  }

  // -- What a scan saw -------------------------------------------------------------------------------

  /** `Drift.summary` */
  function DriftTitle(d: Drift): string { d.change + " " + d.kind + " " + d.identity }

  function DriftLabel(b: Body, d: Drift): (Fingerprint, Label) { (d.fp, Label(b.severity, DriftTitle(d))) }

  function PolicyLabel(b: Body, p: Policy): (Fingerprint, Label) { (p.fp, Label(b.severity, p.title)) }

  function SymptomLabel(b: Body, s: Symptom): (Fingerprint, Label) { (s.fp, Label(b.severity, s.title)) }

  function DriftLabels(b: Body, ds: seq<Drift>): seq<(Fingerprint, Label)> {
    if ds == [] then [] else DriftLabels(b, ds[..|ds| - 1]) + [DriftLabel(b, ds[|ds| - 1])]
  }

  function PolicyLabels(b: Body, ps: seq<Policy>): seq<(Fingerprint, Label)> {
    if ps == [] then [] else PolicyLabels(b, ps[..|ps| - 1]) + [PolicyLabel(b, ps[|ps| - 1])]
  }

  function SymptomLabels(b: Body, ss: seq<Symptom>): seq<(Fingerprint, Label)> {
    if ss == [] then [] else SymptomLabels(b, ss[..|ss| - 1]) + [SymptomLabel(b, ss[|ss| - 1])]
  }

  function GroupLabel(b: Body): seq<(Fingerprint, Label)> {
    if b.correlation != "" then [(b.correlation, Label(b.severity, b.title))] else []
  }

  /** The dictionary after one item's labels are written over `m`. */
  function SeeItem(m: map<Fingerprint, Label>, b: Body): map<Fingerprint, Label> {
    PutAll(PutAll(PutAll(PutAll(m, DriftLabels(b, b.drifts)), PolicyLabels(b, b.policies)),
                  SymptomLabels(b, b.symptoms)), GroupLabel(b))
  }

  function SeeAll(bs: seq<Body>): map<Fingerprint, Label> {
    if bs == [] then map[] else SeeItem(SeeAll(bs[..|bs| - 1]), bs[|bs| - 1])
  }

  /** What a drift is remembered by. */
  function FieldsOf(d: Drift): map<string, string> {
    map["change" := d.change, "kind" := d.kind]
  }

  /** What a group is remembered by: in how many places, and what its first symptom says. */
  function ScopeOf(ss: seq<Symptom>): map<string, string>
    requires ss != []
  {
    map["correlated" := Digits(|ss|) + " place(s)",
        "workload" := AfterLast(AfterLast(ss[0].identity, '/'), '.'),
        "kind" := ss[0].kind,
        "category" := ss[0].category]
  }

  function DriftFacts(ds: seq<Drift>): seq<(Fingerprint, map<string, string>)> {
    if ds == [] then [] else DriftFacts(ds[..|ds| - 1]) + [(ds[|ds| - 1].fp, FieldsOf(ds[|ds| - 1]))]
  }

  function SymptomFacts(ss: seq<Symptom>): seq<(Fingerprint, map<string, string>)> {
    if ss == [] then []
    else
      var s := ss[|ss| - 1];
      SymptomFacts(ss[..|ss| - 1]) + if s.evidence != map[] then [(s.fp, s.evidence)] else []
  }

  function GroupFacts(b: Body): seq<(Fingerprint, map<string, string>)> {
    if b.correlation != "" && b.symptoms != [] then [(b.correlation, ScopeOf(b.symptoms))] else []
  }

  function ExplainItem(m: map<Fingerprint, map<string, string>>, b: Body): map<Fingerprint, map<string, string>> {
    PutAll(PutAll(PutAll(m, DriftFacts(b.drifts)), SymptomFacts(b.symptoms)), GroupFacts(b))
  }

  function ExplainAll(bs: seq<Body>): map<Fingerprint, map<string, string>> {
    if bs == [] then map[] else ExplainItem(ExplainAll(bs[..|bs| - 1]), bs[|bs| - 1])
  }

  /** The two dictionaries as one: `record` looks the evidence up per fingerprint. */
  function Joined(seen: map<Fingerprint, Label>, evidence: map<Fingerprint, map<string, string>>): map<Fingerprint, Sighting> {
    map fp | fp in seen ::
      Sighting(seen[fp].severity, seen[fp].title, if fp in evidence then evidence[fp] else map[])
  }

  function Sightings(bs: seq<Body>): map<Fingerprint, Sighting> {
    Joined(SeeAll(bs), ExplainAll(bs))
  }

  // -- Presence ----------------------------------------------------------------------------------------

  predicate Labelled(es: seq<(Fingerprint, Label)>, fp: Fingerprint) {
    exists i :: 0 <= i < |es| && es[i].0 == fp
  }

  lemma LabelledMore(es: seq<(Fingerprint, Label)>, e: (Fingerprint, Label), fp: Fingerprint)
    ensures Labelled(es + [e], fp) <==> Labelled(es, fp) || e.0 == fp
  {
    assert (es + [e])[|es|] == e;
    forall i | 0 <= i < |es| ensures (es + [e])[i] == es[i] {}
  }

  lemma {:induction false} DriftsLabelled(b: Body, ds: seq<Drift>, fp: Fingerprint)
    ensures Labelled(DriftLabels(b, ds), fp) <==> fp in DriftFps(ds)
    decreases |ds|
  {
    if ds != [] {
      var n := |ds| - 1;
      DriftsLabelled(b, ds[..n], fp);
      LabelledMore(DriftLabels(b, ds[..n]), DriftLabel(b, ds[n]), fp);
      assert DriftFps(ds) == DriftFps(ds[..n]) + [ds[n].fp];
    }
  }

  lemma {:induction false} PoliciesLabelled(b: Body, ps: seq<Policy>, fp: Fingerprint)
    ensures Labelled(PolicyLabels(b, ps), fp) <==> fp in PolicyFps(ps)
    decreases |ps|
  {
    if ps != [] {
      var n := |ps| - 1;
      PoliciesLabelled(b, ps[..n], fp);
      LabelledMore(PolicyLabels(b, ps[..n]), PolicyLabel(b, ps[n]), fp);
      assert PolicyFps(ps) == PolicyFps(ps[..n]) + [ps[n].fp];
    }
  }

  lemma {:induction false} SymptomsLabelled(b: Body, ss: seq<Symptom>, fp: Fingerprint)
    ensures Labelled(SymptomLabels(b, ss), fp) <==> fp in SymptomFps(ss)
    decreases |ss|
  {
    if ss != [] {
      var n := |ss| - 1;
      SymptomsLabelled(b, ss[..n], fp);
      LabelledMore(SymptomLabels(b, ss[..n]), SymptomLabel(b, ss[n]), fp);
      assert SymptomFps(ss) == SymptomFps(ss[..n]) + [ss[n].fp];
    }
  }

  lemma {:induction false} PutLabels(m: map<Fingerprint, Label>, es: seq<(Fingerprint, Label)>, fp: Fingerprint)
    ensures fp in PutAll(m, es) <==> fp in m || Labelled(es, fp)
  {
    PutKeys(m, es, fp);
  }

  lemma SeenItem(m: map<Fingerprint, Label>, b: Body, fp: Fingerprint)
    ensures fp in SeeItem(m, b) <==> fp in m || Present(b, fp)
  {
    hide PutAll, DriftLabels, PolicyLabels, SymptomLabels, DriftFps, PolicyFps, SymptomFps;
    var m1 := PutAll(m, DriftLabels(b, b.drifts));
    var m2 := PutAll(m1, PolicyLabels(b, b.policies));
    var m3 := PutAll(m2, SymptomLabels(b, b.symptoms));
    PutLabels(m, DriftLabels(b, b.drifts), fp);
    PutLabels(m1, PolicyLabels(b, b.policies), fp);
    PutLabels(m2, SymptomLabels(b, b.symptoms), fp);
    PutLabels(m3, GroupLabel(b), fp);
    assert GroupLabel(b) != [] ==> GroupLabel(b)[0].0 == b.correlation;
    assert Labelled(GroupLabel(b), fp) <==> b.correlation != "" && fp == b.correlation;
    DriftsLabelled(b, b.drifts, fp);
    PoliciesLabelled(b, b.policies, fp);
    SymptomsLabelled(b, b.symptoms, fp);
  }

  lemma {:induction false} SeenByItems(bs: seq<Body>, fp: Fingerprint)
    ensures fp in SeeAll(bs) <==> exists i :: 0 <= i < |bs| && Present(bs[i], fp)
    decreases |bs|
  {
    hide Present, SeeItem;
    if bs != [] {
      var n := |bs| - 1;
      SeenByItems(bs[..n], fp);
      SeenItem(SeeAll(bs[..n]), bs[n], fp);
      if fp in SeeAll(bs[..n]) {
        var i :| 0 <= i < n && Present(bs[..n][i], fp);
        assert Present(bs[i], fp);
      }
    }
  }

  /** A scan records exactly the fingerprints of its items: members and group keys, of
      signals as well as alerts. */
  lemma SeenExactly(bs: seq<Body>, fp: Fingerprint)
    ensures fp in Sightings(bs) <==> exists i :: 0 <= i < |bs| && Present(bs[i], fp)
  {
    hide Present, SeeAll, ExplainAll;
    SeenByItems(bs, fp);
  }

  // -- Suppression and annotation ---------------------------------------------------------------------

  /** `alert_suppressed`: the group key is silenced, or there are members and all of them are. */
  predicate Withheld(b: Body, t: Table, now: Instant) {
    || (b.correlation != "" && IsSuppressed(t, b.correlation, now))
    || (Fps(b) != [] && forall i :: 0 <= i < |Fps(b)| ==> IsSuppressed(t, Fps(b)[i], now))
  }

  /** The earliest first sighting among the members. */
  predicate IsEarliest(e: Instant, t: Table, fps: seq<Fingerprint>) {
    && (forall i :: 0 <= i < |fps| ==> fps[i] in t && e <= t[fps[i]].firstSeen)
    && exists i :: 0 <= i < |fps| && fps[i] in t && e == t[fps[i]].firstSeen
  }

  predicate AnyIs(status: Lifecycle, t: Table, fps: seq<Fingerprint>) {
    exists i :: 0 <= i < |fps| && fps[i] in t && t[fps[i]].status == status
  }

  /** `_summary_status`: an operator's mute or snooze of any member stays visible. */
  function Summary(t: Table, fps: seq<Fingerprint>): Lifecycle {
    if AnyIs(Muted, t, fps) then Muted
    else if AnyIs(Snoozed, t, fps) then Snoozed
    else Open
  }
}
