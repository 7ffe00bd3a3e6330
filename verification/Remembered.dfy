/** What a scan remembers of each fingerprint: the last item that carries it decides what its row
    shows, and the last item that explains it decides the evidence. */
module Remembered {
  import opened Text
  import opened Findings
  import opened Reports

  // -- The last entry wins -----------------------------------------------------------------------

  function Found<V>(m: map<Fingerprint, V>, fp: Fingerprint): Option<V> {
    if fp in m then Some(m[fp]) else None
  }

  lemma {:induction false} PutMiss<V>(m: map<Fingerprint, V>, es: seq<(Fingerprint, V)>, fp: Fingerprint)
    requires forall i :: 0 <= i < |es| ==> es[i].0 != fp
    ensures Found(PutAll(m, es), fp) == Found(m, fp)
    decreases |es|
  {
    if es != [] { PutMiss(m, es[..|es| - 1], fp); }
  }

  lemma {:induction false} PutHit<V>(m: map<Fingerprint, V>, es: seq<(Fingerprint, V)>, i: nat)
    requires i < |es| && forall j :: i < j < |es| ==> es[j].0 != es[i].0
    ensures Found(PutAll(m, es), es[i].0) == Some(es[i].1)
    decreases |es|
  {
    if i < |es| - 1 { PutHit(m, es[..|es| - 1], i); }
  }

  predicate LastDrift(ds: seq<Drift>, fp: Fingerprint, i: int) {
    0 <= i < |ds| && ds[i].fp == fp && forall j :: i < j < |ds| ==> ds[j].fp != fp
  }

  predicate LastPolicy(ps: seq<Policy>, fp: Fingerprint, i: int) {
    0 <= i < |ps| && ps[i].fp == fp && forall j :: i < j < |ps| ==> ps[j].fp != fp
  }

  predicate LastSymptom(ss: seq<Symptom>, fp: Fingerprint, i: int) {
    0 <= i < |ss| && ss[i].fp == fp && forall j :: i < j < |ss| ==> ss[j].fp != fp
  }

  predicate IsGroup(b: Body, fp: Fingerprint) {
    b.correlation != "" && b.correlation == fp
  }

  // -- Labels -----------------------------------------------------------------------------------------

  /** The label an item gives a fingerprint: always its own severity; the item's title for its group
      key; else the title of its last symptom with that fingerprint, else of its last policy, else
      change, kind and identity of its last drift. */
  ghost predicate Labels(b: Body, fp: Fingerprint, shown: Label) {
    && shown.severity == b.severity
    && (IsGroup(b, fp) ==> shown.title == b.title)
    && (!IsGroup(b, fp) ==>
          && (forall i :: LastSymptom(b.symptoms, fp, i) ==> shown.title == b.symptoms[i].title)
          && (fp !in SymptomFps(b.symptoms) ==>
                && (forall i :: LastPolicy(b.policies, fp, i) ==> shown.title == b.policies[i].title)
                && (fp !in PolicyFps(b.policies) ==>
                      forall i :: LastDrift(b.drifts, fp, i) ==>
                        shown.title == b.drifts[i].change + " " + b.drifts[i].kind + " " + b.drifts[i].identity)))
  }

  lemma {:induction false} DriftLabelsAre(b: Body, ds: seq<Drift>)
    ensures |DriftLabels(b, ds)| == |ds|
    ensures forall i :: 0 <= i < |ds| ==>
              DriftLabels(b, ds)[i] == (ds[i].fp, Label(b.severity, ds[i].change + " " + ds[i].kind + " " + ds[i].identity))
    decreases |ds|
  {
    if ds != [] { DriftLabelsAre(b, ds[..|ds| - 1]); }
  }

  lemma {:induction false} PolicyLabelsAre(b: Body, ps: seq<Policy>)
    ensures |PolicyLabels(b, ps)| == |ps|
    ensures forall i :: 0 <= i < |ps| ==> PolicyLabels(b, ps)[i] == (ps[i].fp, Label(b.severity, ps[i].title))
    decreases |ps|
  {
    if ps != [] { PolicyLabelsAre(b, ps[..|ps| - 1]); }
  }

  lemma {:induction false} SymptomLabelsAre(b: Body, ss: seq<Symptom>)
    ensures |SymptomLabels(b, ss)| == |ss|
    ensures forall i :: 0 <= i < |ss| ==> SymptomLabels(b, ss)[i] == (ss[i].fp, Label(b.severity, ss[i].title))
    decreases |ss|
  {
    if ss != [] { SymptomLabelsAre(b, ss[..|ss| - 1]); }
  }

  lemma {:induction false} LastOfDrifts(ds: seq<Drift>, fp: Fingerprint) returns (i: int)
    requires fp in DriftFps(ds)
    ensures LastDrift(ds, fp, i)
    decreases |ds|
  {
    i := |ds| - 1;
    if ds[i].fp != fp {
      assert DriftFps(ds) == DriftFps(ds[..i]) + [ds[i].fp];
      i := LastOfDrifts(ds[..i], fp);
    }
  }

  lemma {:induction false} LastOfPolicies(ps: seq<Policy>, fp: Fingerprint) returns (i: int)
    requires fp in PolicyFps(ps)
    ensures LastPolicy(ps, fp, i)
    decreases |ps|
  {
    i := |ps| - 1;
    if ps[i].fp != fp {
      assert PolicyFps(ps) == PolicyFps(ps[..i]) + [ps[i].fp];
      i := LastOfPolicies(ps[..i], fp);
    }
  }

  lemma {:induction false} LastOfSymptoms(ss: seq<Symptom>, fp: Fingerprint) returns (i: int)
    requires fp in SymptomFps(ss)
    ensures LastSymptom(ss, fp, i)
    decreases |ss|
  {
    i := |ss| - 1;
    if ss[i].fp != fp {
      assert SymptomFps(ss) == SymptomFps(ss[..i]) + [ss[i].fp];
      i := LastOfSymptoms(ss[..i], fp);
    }
  }

  lemma NoneElsewhere(b: Body, fp: Fingerprint)
    ensures fp !in DriftFps(b.drifts) ==> forall i :: 0 <= i < |b.drifts| ==> b.drifts[i].fp != fp
    ensures fp !in PolicyFps(b.policies) ==> forall i :: 0 <= i < |b.policies| ==> b.policies[i].fp != fp
    ensures fp !in SymptomFps(b.symptoms) ==> forall i :: 0 <= i < |b.symptoms| ==> b.symptoms[i].fp != fp
  {
    assert forall i :: 0 <= i < |b.drifts| ==> DriftFps(b.drifts)[i] == b.drifts[i].fp;
    assert forall i :: 0 <= i < |b.policies| ==> PolicyFps(b.policies)[i] == b.policies[i].fp;
    assert forall i :: 0 <= i < |b.symptoms| ==> SymptomFps(b.symptoms)[i] == b.symptoms[i].fp;
  }

  lemma {:induction false} DriftsLabel(m: map<Fingerprint, Label>, b: Body, fp: Fingerprint)
    ensures fp !in DriftFps(b.drifts) ==> Found(PutAll(m, DriftLabels(b, b.drifts)), fp) == Found(m, fp)
    ensures fp in DriftFps(b.drifts) ==> Found(PutAll(m, DriftLabels(b, b.drifts)), fp).Some?
    ensures forall i :: LastDrift(b.drifts, fp, i) ==>
              Found(PutAll(m, DriftLabels(b, b.drifts)), fp) ==
              Some(Label(b.severity, b.drifts[i].change + " " + b.drifts[i].kind + " " + b.drifts[i].identity))
  {
    DriftLabelsAre(b, b.drifts);
    NoneElsewhere(b, fp);
    hide PutAll, DriftFps, DriftLabels, Found;
    var es := DriftLabels(b, b.drifts);
    if fp !in DriftFps(b.drifts) { PutMiss(m, es, fp); } else { var i := LastOfDrifts(b.drifts, fp); PutHit(m, es, i); }
    forall i | LastDrift(b.drifts, fp, i)
      ensures Found(PutAll(m, es), fp) ==
              Some(Label(b.severity, b.drifts[i].change + " " + b.drifts[i].kind + " " + b.drifts[i].identity))
    {
      PutHit(m, es, i);
    }
  }

  lemma {:induction false} PoliciesLabel(m: map<Fingerprint, Label>, b: Body, fp: Fingerprint)
    ensures fp !in PolicyFps(b.policies) ==> Found(PutAll(m, PolicyLabels(b, b.policies)), fp) == Found(m, fp)
    ensures fp in PolicyFps(b.policies) ==> Found(PutAll(m, PolicyLabels(b, b.policies)), fp).Some?
    ensures forall i :: LastPolicy(b.policies, fp, i) ==>
              Found(PutAll(m, PolicyLabels(b, b.policies)), fp) == Some(Label(b.severity, b.policies[i].title))
  {
    PolicyLabelsAre(b, b.policies);
    NoneElsewhere(b, fp);
    hide PutAll, PolicyFps, PolicyLabels, Found;
    var es := PolicyLabels(b, b.policies);
    if fp !in PolicyFps(b.policies) { PutMiss(m, es, fp); } else { var i := LastOfPolicies(b.policies, fp); PutHit(m, es, i); }
    forall i | LastPolicy(b.policies, fp, i) ensures Found(PutAll(m, es), fp) == Some(Label(b.severity, b.policies[i].title)) {
      PutHit(m, es, i);
    }
  }

  lemma {:induction false} SymptomsLabel(m: map<Fingerprint, Label>, b: Body, fp: Fingerprint)
    ensures fp !in SymptomFps(b.symptoms) ==> Found(PutAll(m, SymptomLabels(b, b.symptoms)), fp) == Found(m, fp)
    ensures fp in SymptomFps(b.symptoms) ==> Found(PutAll(m, SymptomLabels(b, b.symptoms)), fp).Some?
    ensures forall i :: LastSymptom(b.symptoms, fp, i) ==>
              Found(PutAll(m, SymptomLabels(b, b.symptoms)), fp) == Some(Label(b.severity, b.symptoms[i].title))
  {
    SymptomLabelsAre(b, b.symptoms);
    NoneElsewhere(b, fp);
    hide PutAll, SymptomFps, SymptomLabels, Found;
    var es := SymptomLabels(b, b.symptoms);
    if fp !in SymptomFps(b.symptoms) { PutMiss(m, es, fp); } else { var i := LastOfSymptoms(b.symptoms, fp); PutHit(m, es, i); }
    forall i | LastSymptom(b.symptoms, fp, i) ensures Found(PutAll(m, es), fp) == Some(Label(b.severity, b.symptoms[i].title)) {
      PutHit(m, es, i);
    }
  }

  lemma {:induction false} GroupsLabel(m: map<Fingerprint, Label>, b: Body, fp: Fingerprint)
    ensures Found(PutAll(m, GroupLabel(b)), fp) == if IsGroup(b, fp) then Some(Label(b.severity, b.title)) else Found(m, fp)
  {
    GroupLabelIs(b);
    hide PutAll, Found;
    if IsGroup(b, fp) { PutHit(m, GroupLabel(b), 0); } else { PutMiss(m, GroupLabel(b), fp); }
  }

  lemma ItemLabels(m: map<Fingerprint, Label>, b: Body, fp: Fingerprint)
    ensures var after := Found(SeeItem(m, b), fp);
            if Present(b, fp) then after.Some? && Labels(b, fp, after.value) else after == Found(m, fp)
  {
    hide PutAll, DriftLabels, PolicyLabels, SymptomLabels, DriftFps, PolicyFps, SymptomFps, GroupLabel, Found,
         LastDrift, LastPolicy, LastSymptom;
    var m1 := PutAll(m, DriftLabels(b, b.drifts));
    var m2 := PutAll(m1, PolicyLabels(b, b.policies));
    var m3 := PutAll(m2, SymptomLabels(b, b.symptoms));
    DriftsLabel(m, b, fp);
    PoliciesLabel(m1, b, fp);
    SymptomsLabel(m2, b, fp);
    GroupsLabel(m3, b, fp);
    if fp in DriftFps(b.drifts) { var i := LastOfDrifts(b.drifts, fp); }
    if fp in PolicyFps(b.policies) { var i := LastOfPolicies(b.policies, fp); }
    if fp in SymptomFps(b.symptoms) { var i := LastOfSymptoms(b.symptoms, fp); }
    OnlyThere(b, fp);
  }

  lemma OnlyThere(b: Body, fp: Fingerprint)
    ensures (exists i :: LastDrift(b.drifts, fp, i)) ==> fp in DriftFps(b.drifts)
    ensures (exists i :: LastPolicy(b.policies, fp, i)) ==> fp in PolicyFps(b.policies)
    ensures (exists i :: LastSymptom(b.symptoms, fp, i)) ==> fp in SymptomFps(b.symptoms)
  {
    if i :| LastDrift(b.drifts, fp, i) { assert DriftFps(b.drifts)[i] == fp; }
    if i :| LastPolicy(b.policies, fp, i) { assert PolicyFps(b.policies)[i] == fp; }
    if i :| LastSymptom(b.symptoms, fp, i) { assert SymptomFps(b.symptoms)[i] == fp; }
  }

  lemma GroupLabelIs(b: Body)
    ensures b.correlation == "" ==> GroupLabel(b) == []
    ensures b.correlation != "" ==> GroupLabel(b) == [(b.correlation, Label(b.severity, b.title))]
  {
  }

  /** The label a scan records for a fingerprint is the one the last item that carries it gives it. */
  lemma {:induction false} LabelExactly(bs: seq<Body>, i: nat, fp: Fingerprint)
    requires i < |bs| && Present(bs[i], fp) && forall j :: i < j < |bs| ==> !Present(bs[j], fp)
    ensures fp in SeeAll(bs) && Labels(bs[i], fp, SeeAll(bs)[fp])
    decreases |bs|
  {
    hide Present, Labels, SeeItem;
    var n := |bs| - 1;
    ItemLabels(SeeAll(bs[..n]), bs[n], fp);
    if i < n {
      assert forall j :: 0 <= j < n ==> bs[..n][j] == bs[j];
      LabelExactly(bs[..n], i, fp);
    }
  }

  // -- Evidence ------------------------------------------------------------------------------------------

  predicate LastEvidence(ss: seq<Symptom>, fp: Fingerprint, i: int) {
    && 0 <= i < |ss| && ss[i].fp == fp && ss[i].evidence != map[]
    && forall j :: i < j < |ss| ==> ss[j].fp != fp || ss[j].evidence == map[]
  }

  predicate NoEvidence(ss: seq<Symptom>, fp: Fingerprint) {
    forall i :: 0 <= i < |ss| && ss[i].fp == fp ==> ss[i].evidence == map[]
  }

  /** An item says something about a fingerprint beyond its label. */
  predicate Explains(b: Body, fp: Fingerprint) {
    (IsGroup(b, fp) && b.symptoms != []) || !NoEvidence(b.symptoms, fp) || fp in DriftFps(b.drifts)
  }

  /** What it says: of a group, in how many places, and workload, kind and category of its first
      symptom; else the evidence of the last symptom with that fingerprint that has any; else
      change and kind of the last drift. */
  ghost predicate Facts(b: Body, fp: Fingerprint, facts: map<string, string>) {
    if IsGroup(b, fp) && b.symptoms != [] then
      facts == map["correlated" := Digits(|b.symptoms|) + " place(s)",
                   "workload" := AfterLast(AfterLast(b.symptoms[0].identity, '/'), '.'),
                   "kind" := b.symptoms[0].kind,
                   "category" := b.symptoms[0].category]
    else
      && (forall i :: LastEvidence(b.symptoms, fp, i) ==> facts == b.symptoms[i].evidence)
      && (NoEvidence(b.symptoms, fp) ==>
            forall i :: LastDrift(b.drifts, fp, i) ==> facts == map["change" := b.drifts[i].change, "kind" := b.drifts[i].kind])
  }

  lemma {:induction false} DriftFactsAre(ds: seq<Drift>)
    ensures |DriftFacts(ds)| == |ds|
    ensures forall i :: 0 <= i < |ds| ==> DriftFacts(ds)[i] == (ds[i].fp, map["change" := ds[i].change, "kind" := ds[i].kind])
    decreases |ds|
  {
    if ds != [] { DriftFactsAre(ds[..|ds| - 1]); }
  }

  lemma {:induction false} FactsMiss(m: map<Fingerprint, map<string, string>>, ss: seq<Symptom>, fp: Fingerprint)
    requires NoEvidence(ss, fp)
    ensures Found(PutAll(m, SymptomFacts(ss)), fp) == Found(m, fp)
    decreases |ss|
  {
    hide PutAll, Found, SymptomFacts;
    if ss == [] {
      NoFacts();
      PutMiss(m, [], fp);
    } else {
      MoreFacts(m, ss, fp);
      FactsMiss(m, ss[..|ss| - 1], fp);
    }
  }

  lemma {:induction false} FactsHit(m: map<Fingerprint, map<string, string>>, ss: seq<Symptom>, fp: Fingerprint, i: int)
    requires LastEvidence(ss, fp, i)
    ensures Found(PutAll(m, SymptomFacts(ss)), fp) == Some(ss[i].evidence)
    decreases |ss|
  {
    hide PutAll, Found, SymptomFacts;
    var n := |ss| - 1;
    MoreFacts(m, ss, fp);
    if i < n {
      assert ss[n].fp != fp || ss[n].evidence == map[];
      assert forall j :: 0 <= j < n ==> ss[..n][j] == ss[j];
      FactsHit(m, ss[..n], fp, i);
    }
  }

  lemma {:induction false} SomeEvidence(ss: seq<Symptom>, fp: Fingerprint) returns (i: int)
    requires !NoEvidence(ss, fp)
    ensures LastEvidence(ss, fp, i)
    decreases |ss|
  {
    i := |ss| - 1;
    if ss[i].fp != fp || ss[i].evidence == map[] {
      assert forall j :: 0 <= j < i ==> ss[..i][j] == ss[j];
      i := SomeEvidence(ss[..i], fp);
    }
  }

  lemma {:induction false} SymptomFactsPut(m: map<Fingerprint, map<string, string>>, ss: seq<Symptom>, fp: Fingerprint)
    ensures NoEvidence(ss, fp) ==> Found(PutAll(m, SymptomFacts(ss)), fp) == Found(m, fp)
    ensures !NoEvidence(ss, fp) ==> Found(PutAll(m, SymptomFacts(ss)), fp).Some?
    ensures forall i :: LastEvidence(ss, fp, i) ==> Found(PutAll(m, SymptomFacts(ss)), fp) == Some(ss[i].evidence)
  {
    hide PutAll, Found, SymptomFacts, NoEvidence;
    if NoEvidence(ss, fp) { FactsMiss(m, ss, fp); } else { var i := SomeEvidence(ss, fp); FactsHit(m, ss, fp, i); }
    forall i | LastEvidence(ss, fp, i) ensures Found(PutAll(m, SymptomFacts(ss)), fp) == Some(ss[i].evidence) { FactsHit(m, ss, fp, i); }
  }

  lemma NoFacts()
    ensures SymptomFacts([]) == []
  {
  }

  lemma MoreFacts(m: map<Fingerprint, map<string, string>>, ss: seq<Symptom>, fp: Fingerprint)
    requires ss != []
    ensures var n := |ss| - 1;
            Found(PutAll(m, SymptomFacts(ss)), fp) ==
            if ss[n].fp == fp && ss[n].evidence != map[] then Some(ss[n].evidence) else Found(PutAll(m, SymptomFacts(ss[..n])), fp)
  {
    var n := |ss| - 1;
    if ss[n].evidence != map[] {
      PutMore(m, SymptomFacts(ss[..n]), (ss[n].fp, ss[n].evidence));
    } else {
      assert SymptomFacts(ss) == SymptomFacts(ss[..n]);
    }
  }

  lemma {:induction false} DriftFactsPut(m: map<Fingerprint, map<string, string>>, ds: seq<Drift>, fp: Fingerprint)
    ensures fp !in DriftFps(ds) ==> Found(PutAll(m, DriftFacts(ds)), fp) == Found(m, fp)
    ensures fp in DriftFps(ds) ==> Found(PutAll(m, DriftFacts(ds)), fp).Some?
    ensures forall i :: LastDrift(ds, fp, i) ==>
              Found(PutAll(m, DriftFacts(ds)), fp) == Some(map["change" := ds[i].change, "kind" := ds[i].kind])
  {
    DriftFactsAre(ds);
    assert forall i :: 0 <= i < |ds| ==> DriftFps(ds)[i] == ds[i].fp;
    hide PutAll, DriftFps, DriftFacts, Found;
    var es := DriftFacts(ds);
    if fp !in DriftFps(ds) { PutMiss(m, es, fp); } else { var i := LastOfDrifts(ds, fp); PutHit(m, es, i); }
    forall i | LastDrift(ds, fp, i)
      ensures Found(PutAll(m, es), fp) == Some(map["change" := ds[i].change, "kind" := ds[i].kind])
    {
      PutHit(m, es, i);
    }
  }

  lemma {:induction false} GroupFactsPut(m: map<Fingerprint, map<string, string>>, b: Body, fp: Fingerprint)
    ensures var after := Found(PutAll(m, GroupFacts(b)), fp);
            if IsGroup(b, fp) && b.symptoms != [] then after.Some? && Facts(b, fp, after.value) else after == Found(m, fp)
  {
    GroupFactsAre(b);
    hide PutAll, Found, GroupFacts, Facts;
    if IsGroup(b, fp) && b.symptoms != [] { PutHit(m, GroupFacts(b), 0); } else { PutMiss(m, GroupFacts(b), fp); }
  }

  lemma GroupFactsAre(b: Body)
    ensures b.correlation == "" || b.symptoms == [] ==> GroupFacts(b) == []
    ensures b.correlation != "" && b.symptoms != [] ==>
              |GroupFacts(b)| == 1 && GroupFacts(b)[0].0 == b.correlation && Facts(b, b.correlation, GroupFacts(b)[0].1)
  {
    hide Digits, AfterLast;
  }

  lemma ItemFacts(m: map<Fingerprint, map<string, string>>, b: Body, fp: Fingerprint)
    ensures var after := Found(ExplainItem(m, b), fp);
            if Explains(b, fp) then after.Some? && Facts(b, fp, after.value) else after == Found(m, fp)
  {
    hide PutAll, DriftFacts, SymptomFacts, GroupFacts, DriftFps, Digits, AfterLast, Found, LastDrift, LastEvidence, NoEvidence;
    var m1 := PutAll(m, DriftFacts(b.drifts));
    var m2 := PutAll(m1, SymptomFacts(b.symptoms));
    DriftFactsPut(m, b.drifts, fp);
    SymptomFactsPut(m1, b.symptoms, fp);
    GroupFactsPut(m2, b, fp);
    OnlyThere(b, fp);
    if i :| LastEvidence(b.symptoms, fp, i) { HasEvidence(b.symptoms, fp, i); }
  }

  lemma HasEvidence(ss: seq<Symptom>, fp: Fingerprint, i: int)
    requires LastEvidence(ss, fp, i)
    ensures !NoEvidence(ss, fp)
  {
  }

  /** The evidence a scan records for a fingerprint is what the last item that explains it says. */
  lemma {:induction false} FactsExactly(bs: seq<Body>, i: nat, fp: Fingerprint)
    requires i < |bs| && Explains(bs[i], fp) && forall j :: i < j < |bs| ==> !Explains(bs[j], fp)
    ensures fp in ExplainAll(bs) && Facts(bs[i], fp, ExplainAll(bs)[fp])
    decreases |bs|
  {
    hide Explains, Facts, ExplainItem;
    var n := |bs| - 1;
    ItemFacts(ExplainAll(bs[..n]), bs[n], fp);
    if i < n {
      assert forall j :: 0 <= j < n ==> bs[..n][j] == bs[j];
      FactsExactly(bs[..n], i, fp);
    }
  }

  lemma {:induction false} UnexplainedExactly(bs: seq<Body>, fp: Fingerprint)
    requires forall j :: 0 <= j < |bs| ==> !Explains(bs[j], fp)
    ensures fp !in ExplainAll(bs)
    decreases |bs|
  {
    hide Explains, ExplainItem;
    if bs != [] {
      var n := |bs| - 1;
      ItemFacts(ExplainAll(bs[..n]), bs[n], fp);
      assert forall j :: 0 <= j < n ==> bs[..n][j] == bs[j];
      UnexplainedExactly(bs[..n], fp);
    }
  }

  /** What is recorded of a sighted fingerprint: the label of the last item that carries it, and the
      evidence of the last item that explains it, if any does. */
  lemma SightingExactly(bs: seq<Body>, i: nat, fp: Fingerprint)
    requires i < |bs| && Present(bs[i], fp) && forall j :: i < j < |bs| ==> !Present(bs[j], fp)
    ensures fp in Sightings(bs) && Labels(bs[i], fp, Label(Sightings(bs)[fp].severity, Sightings(bs)[fp].title))
    ensures forall k :: 0 <= k < |bs| && Explains(bs[k], fp) && (forall j :: k < j < |bs| ==> !Explains(bs[j], fp)) ==>
              Facts(bs[k], fp, Sightings(bs)[fp].evidence)
    ensures (forall j :: 0 <= j < |bs| ==> !Explains(bs[j], fp)) ==> Sightings(bs)[fp].evidence == map[]
  {
    hide SeeAll, ExplainAll, Present, Labels, Explains, Facts;
    LabelExactly(bs, i, fp);
    if forall j :: 0 <= j < |bs| ==> !Explains(bs[j], fp) { UnexplainedExactly(bs, fp); }
    forall k | 0 <= k < |bs| && Explains(bs[k], fp) && (forall j :: k < j < |bs| ==> !Explains(bs[j], fp))
      ensures Facts(bs[k], fp, Sightings(bs)[fp].evidence)
    {
      FactsExactly(bs, k, fp);
    }
  }

  // -- Silenced and annotated ---------------------------------------------------------------------------------

  /** The members of an alert, in whatever layer. */
  predicate Member(b: Body, fp: Fingerprint) {
    || (exists d :: d in b.drifts && d.fp == fp)
    || (exists p :: p in b.policies && p.fp == fp)
    || (exists s :: s in b.symptoms && s.fp == fp)
  }

  lemma MembersFps(b: Body)
    ensures forall i :: 0 <= i < |b.drifts| ==> b.drifts[i].fp in DriftFps(b.drifts)
    ensures forall i :: 0 <= i < |b.policies| ==> b.policies[i].fp in PolicyFps(b.policies)
    ensures forall i :: 0 <= i < |b.symptoms| ==> b.symptoms[i].fp in SymptomFps(b.symptoms)
  {
    forall i | 0 <= i < |b.drifts| ensures b.drifts[i].fp in DriftFps(b.drifts) { assert DriftFps(b.drifts)[i] == b.drifts[i].fp; }
    forall i | 0 <= i < |b.policies| ensures b.policies[i].fp in PolicyFps(b.policies) {
      assert PolicyFps(b.policies)[i] == b.policies[i].fp;
    }
    forall i | 0 <= i < |b.symptoms| ensures b.symptoms[i].fp in SymptomFps(b.symptoms) {
      assert SymptomFps(b.symptoms)[i] == b.symptoms[i].fp;
    }
  }

  lemma MemberExactly(b: Body, fp: Fingerprint)
    ensures fp in Fps(b) <==> Member(b, fp)
  {
    MembersFps(b);
    if d :| d in b.drifts && d.fp == fp { var i :| 0 <= i < |b.drifts| && b.drifts[i] == d; }
    if p :| p in b.policies && p.fp == fp { var i :| 0 <= i < |b.policies| && b.policies[i] == p; }
    if s :| s in b.symptoms && s.fp == fp { var i :| 0 <= i < |b.symptoms| && b.symptoms[i] == s; }
    if fp in DriftFps(b.drifts) {
      var i :| 0 <= i < |b.drifts| && DriftFps(b.drifts)[i] == fp;
      assert b.drifts[i] in b.drifts;
    }
    if fp in PolicyFps(b.policies) {
      var i :| 0 <= i < |b.policies| && PolicyFps(b.policies)[i] == fp;
      assert b.policies[i] in b.policies;
    }
    if fp in SymptomFps(b.symptoms) {
      var i :| 0 <= i < |b.symptoms| && SymptomFps(b.symptoms)[i] == fp;
      assert b.symptoms[i] in b.symptoms;
    }
  }

  /** A muted row, or one whose snooze has not lapsed. */
  predicate Silent(t: Table, fp: Fingerprint, now: Instant) {
    fp in t
    && match t[fp].status
       case Muted => true
       case Snoozed => t[fp].snoozeUntil.Some? && t[fp].snoozeUntil.value > now
       case _ => false
  }

  /** An alert is withheld exactly when its group is silent, or it has members and every one is; so a
      surfaced alert with members always has one that nobody silenced. */
  lemma WithheldExactly(b: Body, t: Table, now: Instant)
    ensures Withheld(b, t, now) <==>
            || (b.correlation != "" && Silent(t, b.correlation, now))
            || ((exists fp :: Member(b, fp)) && forall fp :: Member(b, fp) ==> Silent(t, fp, now))
  {
    hide Member;
    var fps := Fps(b);
    forall fp ensures fp in fps <==> Member(b, fp) { MemberExactly(b, fp); }
    forall fp ensures IsSuppressed(t, fp, now) <==> Silent(t, fp, now) {}
    hide Fps, IsSuppressed, Silent;
    if fps != [] { assert fps[0] in fps; }
    assert forall i :: 0 <= i < |fps| ==> fps[i] in fps;
  }

  /** The annotated state of an alert: muted if a member is, else snoozed if one is, else open. */
  lemma SummaryExactly(t: Table, fps: seq<Fingerprint>)
    ensures Summary(t, fps) == Muted <==> exists fp :: fp in fps && fp in t && t[fp].status == Muted
    ensures Summary(t, fps) == Snoozed <==>
            (exists fp :: fp in fps && fp in t && t[fp].status == Snoozed) && !exists fp :: fp in fps && fp in t && t[fp].status == Muted
    ensures Summary(t, fps) != Resolved
  {
    if fp :| fp in fps && fp in t && t[fp].status == Muted { var i :| 0 <= i < |fps| && fps[i] == fp; assert AnyIs(Muted, t, fps); }
    if fp :| fp in fps && fp in t && t[fp].status == Snoozed { var i :| 0 <= i < |fps| && fps[i] == fp; assert AnyIs(Snoozed, t, fps); }
  }
}
