/** Reflexes, and what a tick decides. */
module Reflexes {
  // The control loop that acts on known malfunctions within a budget, and stops when its fixes do
  // not hold.

  import opened Text
  import opened Bounds
  import opened Catalog
  import opened Findings
  import opened Rows
  import opened Reports

  datatype Autonomy = Observe | Propose | Auto

  datatype Reflex = Reflex(
    name: string,
    category: string,
    autonomy: Autonomy,
    maxPerAction: nat,
    maxPerTick: nat,
    envelope: Envelope,
    distrustAfter: nat)

  datatype Verdict = Act | Watch | Escalate

  datatype Decision = Decision(
    fp: Fingerprint, identity: string, category: string, verdict: Verdict, reflex: Option<string>, command: string)

  /** `reflex_for_category`: the first match. */
  function FirstFor(active: seq<Reflex>, category: string): Option<Reflex> {
    if active == [] then None
    else if active[0].category == category then Some(active[0])
    else FirstFor(active[1..], category)
  }

  /** The `by_category` dictionary of `plan_hold`: the last match. */
  function LastFor(active: seq<Reflex>, category: string): Option<Reflex> {
    if active == [] then None
    else if active[|active| - 1].category == category then Some(active[|active| - 1])
    else LastFor(active[..|active| - 1], category)
  }

  // -- Recurrence ----------------------------------------------------------------------------------

  const CATEGORY := "category"

  /** A fix of the reflex named `name` that did not hold: acted on, open again. */
  predicate Recurs(f: Finding, fp: Fingerprint, acted: set<Fingerprint>, active: seq<Reflex>, name: string) {
    && f.status.Open? && fp in acted
    && CATEGORY in f.details && f.details[CATEGORY] != ""
    && FirstFor(active, f.details[CATEGORY]).Some?
    && FirstFor(active, f.details[CATEGORY]).value.name == name
  }

  function Recurring(t: Table, acted: set<Fingerprint>, active: seq<Reflex>, name: string): set<Fingerprint> {
    set fp | fp in t && Recurs(t[fp], fp, acted, active, name)
  }

  /** The first reflex listed for the category. */
  predicate ListedFirst(active: seq<Reflex>, category: string, j: int) {
    && 0 <= j < |active| && active[j].category == category
    && forall k :: 0 <= k < j ==> active[k].category != category
  }

  lemma {:induction false} FirstForExactly(active: seq<Reflex>, category: string)
    ensures forall j :: ListedFirst(active, category, j) ==> FirstFor(active, category) == Some(active[j])
    ensures FirstFor(active, category).Some? ==> exists j :: ListedFirst(active, category, j)
    decreases |active|
  {
    if active != [] {
      FirstForExactly(active[1..], category);
      assert forall j :: 0 <= j < |active| - 1 ==> active[1..][j] == active[j + 1];
      if active[0].category == category {
        assert ListedFirst(active, category, 0);
      } else {
        forall j | ListedFirst(active, category, j) ensures ListedFirst(active[1..], category, j - 1) {}
        if j :| ListedFirst(active[1..], category, j) { assert ListedFirst(active, category, j + 1); }
      }
    }
  }

  /** A fix counts against the name of the first reflex listed for the finding's stored category, and
      only while the finding is open although it was acted on. */
  lemma RecurringExactly(t: Table, acted: set<Fingerprint>, active: seq<Reflex>, name: string, fp: Fingerprint)
    ensures fp in Recurring(t, acted, active, name) <==>
            && fp in t && t[fp].status == Open && fp in acted
            && "category" in t[fp].details && t[fp].details["category"] != ""
            && exists j :: ListedFirst(active, t[fp].details["category"], j) && active[j].name == name
  {
    hide ListedFirst, FirstFor;
    if fp in t && "category" in t[fp].details {
      FirstForExactly(active, t[fp].details["category"]);
      forall j | ListedFirst(active, t[fp].details["category"], j) ensures 0 <= j < |active| {
        ListedIn(active, t[fp].details["category"], j);
      }
    }
  }

  lemma ListedIn(active: seq<Reflex>, category: string, j: int)
    requires ListedFirst(active, category, j)
    ensures 0 <= j < |active|
  {
  }

  function RecurringBut(t: Table, todo: set<Fingerprint>, acted: set<Fingerprint>, active: seq<Reflex>, name: string): set<Fingerprint> {
    set fp | fp in t && fp !in todo && Recurs(t[fp], fp, acted, active, name)
  }

  function At(counts: map<string, nat>, name: string): nat {
    if name in counts then counts[name] else 0
  }

  lemma OneMoreRecurring(
    t: Table, todo: set<Fingerprint>, acted: set<Fingerprint>, active: seq<Reflex>, name: string, fp: Fingerprint)
    requires fp in t && fp in todo
    ensures |RecurringBut(t, todo - {fp}, acted, active, name)| ==
            |RecurringBut(t, todo, acted, active, name)| + if Recurs(t[fp], fp, acted, active, name) then 1 else 0
  {
    hide Recurs;
    assert RecurringBut(t, todo - {fp}, acted, active, name) ==
           RecurringBut(t, todo, acted, active, name) + if Recurs(t[fp], fp, acted, active, name) then {fp} else {};
  }

  lemma RecurringEnds(t: Table, acted: set<Fingerprint>, active: seq<Reflex>, name: string)
    ensures RecurringBut(t, t.Keys, acted, active, name) == {}
    ensures RecurringBut(t, {}, acted, active, name) == Recurring(t, acted, active, name)
  {
    hide Recurs;
  }

  /** The reflex a row counts against, if any. */
  function CountsAgainst(r: FindingRow, fp: Fingerprint, acted: set<Fingerprint>, active: seq<Reflex>): Option<string> {
    if !r.status.Open? || fp !in acted then None
    else if CATEGORY !in r.details || r.details[CATEGORY] == "" then None
    else
      match FirstFor(active, r.details[CATEGORY])
      case None => None
      case Some(reflex) => Some(reflex.name)
  }

  lemma CountsAgainstExact(r: FindingRow, fp: Fingerprint, acted: set<Fingerprint>, active: seq<Reflex>, name: string)
    requires StampedRow(r)
    ensures Recurs(FindingOf(r), fp, acted, active, name) <==> CountsAgainst(r, fp, acted, active) == Some(name)
  {
    hide IsStamp, InstantOf, FirstFor;
  }

  method ReflexRecurrence(rows: RowTable, acted: set<Fingerprint>, active: seq<Reflex>) returns (counts: map<string, nat>)
    requires StampedRows(rows)
    ensures forall name :: At(counts, name) == |Recurring(TableOf(rows), acted, active, name)|
  {
    hide IsStamp, InstantOf, Recurs, RecurringBut, Recurring, FindingOf, StampedRow, CountsAgainst;
    counts := map[];
    ghost var t := TableOf(rows);
    forall name ensures At(counts, name) == |RecurringBut(t, rows.Keys, acted, active, name)| {
      assert t.Keys == rows.Keys;
      RecurringEnds(t, acted, active, name);
    }
    var todo := rows.Keys;
    while todo != {}
      invariant todo <= rows.Keys
      invariant forall name :: At(counts, name) == |RecurringBut(t, todo, acted, active, name)|
      decreases |todo|
    {
      var fp :| fp in todo;
      var against := CountsAgainst(rows[fp], fp, acted, active);
      forall name
        ensures |RecurringBut(t, todo - {fp}, acted, active, name)| ==
                |RecurringBut(t, todo, acted, active, name)| + if against == Some(name) then 1 else 0
      {
        CountsAgainstExact(rows[fp], fp, acted, active, name);
        OneMoreRecurring(t, todo, acted, active, name, fp);
      }
      if against.Some? {
        counts := counts[against.value := At(counts, against.value) + 1];
      }
      todo := todo - {fp};
    }
    forall name ensures At(counts, name) == |Recurring(t, acted, active, name)| {
      RecurringEnds(t, acted, active, name);
    }
  }

  // -- The plan --------------------------------------------------------------------------------------

  /** The symptoms of the report's alerts that carry a fix the cleanup check accepts. */
  function ActionableOf(ss: seq<Symptom>, wide: WideClass): seq<Symptom> {
    if ss == [] then []
    else
      var s := ss[|ss| - 1];
      ActionableOf(ss[..|ss| - 1], wide) +
      if s.recommended.Some? && s.recommended.value != "" && Validates(ReclaimEvicted, wide, s.recommended.value) then [s] else []
  }

  function Actionable(bs: seq<Body>, wide: WideClass): seq<Symptom> {
    if bs == [] then []
    else
      var b := bs[|bs| - 1];
      Actionable(bs[..|bs| - 1], wide) + if b.layer.AlertLayer? then ActionableOf(b.symptoms, wide) else []
  }

  /** The symptoms of the report's alerts, in order. */
  function AlertSymptoms(bs: seq<Body>): seq<Symptom> {
    if bs == [] then []
    else AlertSymptoms(bs[..|bs| - 1]) + if bs[|bs| - 1].layer == AlertLayer then bs[|bs| - 1].symptoms else []
  }

  /** They are the alerts' symptoms one after the other, in every split of the report. */
  lemma {:induction false} AlertSymptomsJoin(a: seq<Body>, one: Body, b: seq<Body>)
    ensures AlertSymptoms(a + [one] + b)
         == AlertSymptoms(a) + (if one.layer.AlertLayer? then one.symptoms else []) + AlertSymptoms(b)
    decreases |b|
  {
    var front := a + [one];
    if b == [] {
      assert front + b == front && front[..|a|] == a;
      assert AlertSymptoms(b) == [];
    } else {
      var n := |b| - 1;
      AlertSymptomsJoin(a, one, b[..n]);
      assert (front + b)[..|front| + n] == front + b[..n];
    }
  }

  /** It carries a command, and the cleanup check accepts it. */
  predicate CarriesCleanup(s: Symptom, wide: WideClass) {
    match s.recommended
    case None => false
    case Some(command) => command != "" && Validates(ReclaimEvicted, wide, command)
  }

  lemma {:induction false} ActionableOfFilters(before: seq<Symptom>, kept: seq<Symptom>, ss: seq<Symptom>, wide: WideClass)
    requires Filters(kept, before, s => CarriesCleanup(s, wide))
    ensures Filters(kept + ActionableOf(ss, wide), before + ss, s => CarriesCleanup(s, wide))
    decreases |ss|
  {
    hide Validates, Filters;
    if ss == [] {
      assert before + ss == before && kept + ActionableOf(ss, wide) == kept;
    } else {
      var n := |ss| - 1;
      ActionableOfFilters(before, kept, ss[..n], wide);
      FiltersMore(kept + ActionableOf(ss[..n], wide), before + ss[..n], ss[n], s => CarriesCleanup(s, wide));
      assert before + ss[..n] + [ss[n]] == before + ss;
      assert kept + ActionableOf(ss, wide) ==
             kept + ActionableOf(ss[..n], wide) + if CarriesCleanup(ss[n], wide) then [ss[n]] else [];
    }
  }

  /** What a tick may act on are exactly the symptoms of the report's alerts that carry a command the
      cleanup check accepts, in the order of the report. */
  lemma {:induction false} ActionableExactly(bs: seq<Body>, wide: WideClass)
    ensures Filters(Actionable(bs, wide), AlertSymptoms(bs), s => CarriesCleanup(s, wide))
    decreases |bs|
  {
    hide ActionableOf, Filters;
    if bs == [] {
      FiltersNothing((s: Symptom) => CarriesCleanup(s, wide));
    } else {
      var n := |bs| - 1;
      ActionableExactly(bs[..n], wide);
      if bs[n].layer.AlertLayer? {
        ActionableOfFilters(AlertSymptoms(bs[..n]), Actionable(bs[..n], wide), bs[n].symptoms, wide);
      } else {
        assert Actionable(bs, wide) == Actionable(bs[..n], wide) && AlertSymptoms(bs) == AlertSymptoms(bs[..n]);
      }
    }
  }

  function Seen(ss: seq<Symptom>, category: string): nat {
    if ss == [] then 0
    else Seen(ss[..|ss| - 1], category) + if ss[|ss| - 1].category == category then 1 else 0
  }

  /** Escalate the unknown and whatever is over a budget or the bound; act on `auto`. */
  function VerdictFor(reflex: Option<Reflex>, size: int, seen: nat, recurred: nat, policy: BoundPolicy): Verdict {
    match reflex
    case None => Escalate
    case Some(r) =>
      if size > r.maxPerAction then Escalate
      else if seen > r.maxPerTick then Escalate
      else if recurred >= r.distrustAfter then Escalate
      else if !WithinBounds(r.envelope, policy) then Escalate
      else if r.autonomy.Auto? then Act
      else Watch
  }

  function NameOf(reflex: Option<Reflex>): Option<string> {
    if reflex.Some? then Some(reflex.value.name) else None
  }

  function DecisionFor(
    s: Symptom, all: seq<Symptom>, active: seq<Reflex>, recurrence: map<string, nat>, policy: BoundPolicy, sizeOf: Symptom -> int)
    : Decision
  {
    var reflex := LastFor(active, s.category);
    var recurred := if reflex.Some? then At(recurrence, reflex.value.name) else 0;
    Decision(s.fp, s.identity, s.category, VerdictFor(reflex, sizeOf(s), Seen(all, s.category), recurred, policy),
             NameOf(reflex), if s.recommended.Some? then s.recommended.value else "")
  }

  function Plan(
    all: seq<Symptom>, active: seq<Reflex>, recurrence: map<string, nat>, policy: BoundPolicy, sizeOf: Symptom -> int)
    : (ds: seq<Decision>)
    ensures |ds| == |all|
  {
    seq(|all|, i requires 0 <= i < |all| => DecisionFor(all[i], all, active, recurrence, policy, sizeOf))
  }

  /** The reflex listed last for the category. */
  predicate ListedLast(active: seq<Reflex>, category: string, j: int) {
    0 <= j < |active| && active[j].category == category && forall k :: j < k < |active| ==> active[k].category != category
  }

  function OfCategory(all: seq<Symptom>, category: string): set<int> {
    set i | 0 <= i < |all| && all[i].category == category
  }

  /** What a human must look at: too large, part of a storm, not holding, or outside the bound. */
  predicate Exceeds(
    s: Symptom, r: Reflex, all: seq<Symptom>, recurrence: map<string, nat>, policy: BoundPolicy, sizeOf: Symptom -> int)
  {
    || sizeOf(s) > r.maxPerAction
    || |OfCategory(all, s.category)| > r.maxPerTick
    || (r.name in recurrence && recurrence[r.name] >= r.distrustAfter)
    || r.distrustAfter == 0
    || !Permits(policy, r.envelope)
  }

  /** The decision about one actionable symptom: escalated when no reflex answers its category or the
      one listed last for it is exceeded; else acted on when that reflex is on `auto`, and watched
      when it is not. */
  ghost predicate Judged(
    d: Decision, s: Symptom, all: seq<Symptom>, active: seq<Reflex>, recurrence: map<string, nat>, policy: BoundPolicy,
    sizeOf: Symptom -> int)
  {
    && d.fp == s.fp && d.identity == s.identity && d.category == s.category
    && (s.recommended.Some? ==> d.command == s.recommended.value)
    && ((forall j :: 0 <= j < |active| ==> active[j].category != s.category) ==> d.verdict.Escalate? && d.reflex.None?)
    && (forall j :: ListedLast(active, s.category, j) ==>
          var exceeded := Exceeds(s, active[j], all, recurrence, policy, sizeOf);
          && d.reflex == Some(active[j].name)
          && (d.verdict.Escalate? <==> exceeded)
          && (d.verdict.Act? <==> !exceeded && active[j].autonomy.Auto?)
          && (d.verdict.Watch? <==> !exceeded && !active[j].autonomy.Auto?))
  }

  lemma {:induction false} LastForExactly(active: seq<Reflex>, category: string)
    ensures LastFor(active, category).None? <==> forall j :: 0 <= j < |active| ==> active[j].category != category
    ensures forall j :: ListedLast(active, category, j) ==> LastFor(active, category) == Some(active[j])
    decreases |active|
  {
    if active != [] {
      var n := |active| - 1;
      LastForExactly(active[..n], category);
      assert forall j :: 0 <= j < n ==> active[..n][j] == active[j];
      forall j | ListedLast(active, category, j) ensures LastFor(active, category) == Some(active[j]) {
        if j < n { assert ListedLast(active[..n], category, j); }
      }
    }
  }

  lemma {:induction false} SeenExactly(all: seq<Symptom>, category: string)
    ensures Seen(all, category) == |OfCategory(all, category)|
    decreases |all|
  {
    if all != [] {
      var n := |all| - 1;
      SeenExactly(all[..n], category);
      assert OfCategory(all, category) == OfCategory(all[..n], category) + if all[n].category == category then {n} else {};
    }
  }

  lemma {:induction false} PlanIsJudged(
    all: seq<Symptom>, active: seq<Reflex>, recurrence: map<string, nat>, policy: BoundPolicy, sizeOf: Symptom -> int, i: nat)
    requires i < |all|
    ensures Judged(Plan(all, active, recurrence, policy, sizeOf)[i], all[i], all, active, recurrence, policy, sizeOf)
  {
    hide LastFor, Seen, WithinBounds, Permits, OfCategory, ListedLast;
    LastForExactly(active, all[i].category);
    SeenExactly(all, all[i].category);
    forall j | ListedLast(active, all[i].category, j) ensures 0 <= j < |active| && active[j].category == all[i].category {
      ListedIsListed(active, all[i].category, j);
      WithinExactly(active[j].envelope, policy);
    }
    forall r: Reflex ensures WithinBounds(r.envelope, policy) <==> Permits(policy, r.envelope) { WithinExactly(r.envelope, policy); }
  }

  lemma ListedIsListed(active: seq<Reflex>, category: string, j: int)
    requires ListedLast(active, category, j)
    ensures 0 <= j < |active| && active[j].category == category
  {
  }

  method CountCategories(all: seq<Symptom>, active: seq<Reflex>) returns (matched: map<string, nat>)
    ensures forall c :: LastFor(active, c).Some? ==> At(matched, c) == Seen(all, c)
  {
    matched := map[];
    for i := 0 to |all|
      invariant forall c :: LastFor(active, c).Some? ==> At(matched, c) == Seen(all[..i], c)
    {
      assert all[..i + 1][..i] == all[..i];
      if LastFor(active, all[i].category).Some? {
        matched := matched[all[i].category := At(matched, all[i].category) + 1];
      }
    }
    assert all[..|all|] == all;
  }

  method PlanHold(
    all: seq<Symptom>, active: seq<Reflex>, recurrence: map<string, nat>, policy: BoundPolicy, sizeOf: Symptom -> int)
    returns (decisions: seq<Decision>)
    ensures decisions == Plan(all, active, recurrence, policy, sizeOf)
    ensures forall i :: 0 <= i < |all| ==> Judged(decisions[i], all[i], all, active, recurrence, policy, sizeOf)
  {
    hide WithinBounds, Judged;
    forall i | 0 <= i < |all|
      ensures Judged(Plan(all, active, recurrence, policy, sizeOf)[i], all[i], all, active, recurrence, policy, sizeOf)
    {
      PlanIsJudged(all, active, recurrence, policy, sizeOf, i);
    }
    var matched := CountCategories(all, active);
    decisions := [];
    for i := 0 to |all|
      invariant decisions == Plan(all, active, recurrence, policy, sizeOf)[..i]
    {
      var s := all[i];
      var reflex := LastFor(active, s.category);
      var command := if s.recommended.Some? then s.recommended.value else "";
      var verdict: Verdict;
      if reflex.None? {
        verdict := Escalate;
      } else if sizeOf(s) > reflex.value.maxPerAction {
        verdict := Escalate;
      } else if At(matched, s.category) > reflex.value.maxPerTick {
        verdict := Escalate;
      } else if At(recurrence, reflex.value.name) >= reflex.value.distrustAfter {
        verdict := Escalate;
      } else if !WithinBounds(reflex.value.envelope, policy) {
        verdict := Escalate;
      } else if reflex.value.autonomy.Auto? {
        verdict := Act;
      } else {
        verdict := Watch;
      }
      decisions := decisions + [Decision(s.fp, s.identity, s.category, verdict, NameOf(reflex), command)];
    }
  }

  // -- One tick stays within its budgets ---------------------------------------------------------------

  /** The symptoms of `category` the plan acts on. */
  function ActedOn(ss: seq<Symptom>, ds: seq<Decision>, category: string): seq<Symptom>
    requires |ss| == |ds|
  {
    if ss == [] then []
    else
      var n := |ss| - 1;
      ActedOn(ss[..n], ds[..n], category) + if ds[n].verdict.Act? && ss[n].category == category then [ss[n]] else []
  }

  function TotalSize(ss: seq<Symptom>, sizeOf: Symptom -> int): int {
    if ss == [] then 0 else TotalSize(ss[..|ss| - 1], sizeOf) + sizeOf(ss[|ss| - 1])
  }

  lemma {:induction false} ActedOnAtMostSeen(ss: seq<Symptom>, ds: seq<Decision>, category: string)
    requires |ss| == |ds|
    ensures |ActedOn(ss, ds, category)| <= Seen(ss, category)
    ensures forall s :: s in ActedOn(ss, ds, category) ==>
              exists i :: 0 <= i < |ss| && ss[i] == s && ds[i].verdict.Act? && s.category == category
    decreases |ss|
  {
    if ss != [] {
      var n := |ss| - 1;
      ActedOnAtMostSeen(ss[..n], ds[..n], category);
      forall s | s in ActedOn(ss, ds, category)
        ensures exists i :: 0 <= i < |ss| && ss[i] == s && ds[i].verdict.Act? && s.category == category
      {
        if s in ActedOn(ss[..n], ds[..n], category) {
          var i :| 0 <= i < n && ss[..n][i] == s && ds[..n][i].verdict.Act?;
          assert ss[i] == s && ds[i].verdict.Act?;
        } else {
          assert ss[n] == s && ds[n].verdict.Act?;
        }
      }
    }
  }

  lemma {:induction false} TotalSizeBound(ss: seq<Symptom>, sizeOf: Symptom -> int, most: nat)
    requires forall i :: 0 <= i < |ss| ==> sizeOf(ss[i]) <= most
    ensures TotalSize(ss, sizeOf) <= |ss| * most
    decreases |ss|
  {
    if ss != [] { TotalSizeBound(ss[..|ss| - 1], sizeOf, most); }
  }

  lemma Product(a: nat, b: nat, c: nat)
    requires a <= b
    ensures a * c <= b * c
  {
  }

  /** In any tick, whatever the report and the store's history: one reflex acts on at most
      `max_per_tick` findings, their evidence sizes add up to at most `max_per_tick` times
      `max_per_action`, and it acts at all only while it is trusted, on `auto`, and within the
      bound. */
  lemma {:induction false} TickWithinBudget(
    all: seq<Symptom>, active: seq<Reflex>, recurrence: map<string, nat>, policy: BoundPolicy, sizeOf: Symptom -> int, r: Reflex)
    requires LastFor(active, r.category) == Some(r)
    ensures var acted := ActedOn(all, Plan(all, active, recurrence, policy, sizeOf), r.category);
            && |acted| <= r.maxPerTick
            && TotalSize(acted, sizeOf) <= r.maxPerTick * r.maxPerAction
            && (acted != [] ==> At(recurrence, r.name) < r.distrustAfter && r.autonomy.Auto? && WithinBounds(r.envelope, policy))
  {
    hide WithinBounds;
    var ds := Plan(all, active, recurrence, policy, sizeOf);
    var acted := ActedOn(all, ds, r.category);
    ActedOnAtMostSeen(all, ds, r.category);
    forall s | s in acted
      ensures sizeOf(s) <= r.maxPerAction && Seen(all, r.category) <= r.maxPerTick
      ensures At(recurrence, r.name) < r.distrustAfter && r.autonomy.Auto? && WithinBounds(r.envelope, policy)
    {
      var i :| 0 <= i < |all| && all[i] == s && ds[i].verdict.Act? && s.category == r.category;
    }
    if acted != [] { assert acted[0] in acted; }
    TotalSizeBound(acted, sizeOf, r.maxPerAction);
    Product(|acted|, r.maxPerTick, r.maxPerAction);
  }
}
