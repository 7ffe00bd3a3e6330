/** What a scan offers. */
module Offers {
  // Vetted cleanups, and authored solutions, which may also run unattended.

  import opened Text
  import opened Bounds
  import opened Shlex
  import opened Catalog
  import opened Workflow
  import opened Execute
  import opened Reports
  import opened Store
  import opened Approve
  import R = Reflexes
  import P = PendingActions
  import A = Approval

  // -- record_cleanups ---------------------------------------------------------------------------

  function Recommended(s: Symptom): string {
    if s.recommended.Some? then s.recommended.value else ""
  }

  function CleanupOf(s: Symptom): P.Remedy {
    P.Remedy(P.CleanupSource, "", s.identity, Recommended(s), None, None)
  }

  function OfferCleanups(db: P.Db, ss: seq<Symptom>, now: P.Stamp): P.Db {
    if ss == [] then db
    else P.Offered(OfferCleanups(db, ss[..|ss| - 1], now), ss[|ss| - 1].fp, CleanupOf(ss[|ss| - 1]), now)
  }

  method RecordCleanups(store: StateStore, report: seq<Body>, wide: WideClass, now: P.Stamp) returns (recorded: nat)
    modifies store`pending
    ensures store.Actions() == OfferCleanups(old(store.Actions()), R.Actionable(report, wide), now)
    ensures recorded == |R.Actionable(report, wide)|
  {
    hide P.Offered, CleanupOf;
    var actionable := R.Actionable(report, wide);
    recorded := 0;
    for i := 0 to |actionable|
      invariant store.Actions() == OfferCleanups(old(store.Actions()), actionable[..i], now) && recorded == i
    {
      assert actionable[..i + 1][..i] == actionable[..i];
      store.RecordPending(actionable[i].fp, CleanupOf(actionable[i]), now);
      recorded := recorded + 1;
    }
    assert actionable[..|actionable|] == actionable;
  }

  /** The last of the symptoms that carries `fp`. */
  function LastOf(ss: seq<Symptom>, fp: P.Fingerprint): (last: Option<Symptom>)
    ensures last.Some? ==> last.value in ss && last.value.fp == fp
  {
    if ss == [] then None
    else if ss[|ss| - 1].fp == fp then Some(ss[|ss| - 1])
    else LastOf(ss[..|ss| - 1], fp)
  }

  lemma OfferKeepsOthers(db: P.Db, fp: P.Fingerprint, action: P.Remedy, now: P.Stamp, other: P.Fingerprint)
    requires other != fp
    ensures P.GetPending(P.Offered(db, fp, action, now), other) == P.GetPending(db, other)
  {
  }

  /** Right after the cleanups were recorded, every actionable finding's row is pending, under nobody's
      name, with the identity and the recommended command of the last symptom that carries it, and
      dated as it first was; unless it was declined, which no offer undoes. Every other row is as it
      was. */
  lemma {:induction false} CleanupIsStored(db: P.Db, ss: seq<Symptom>, now: P.Stamp, fp: P.Fingerprint)
    ensures var after, last := OfferCleanups(db, ss, now), LastOf(ss, fp);
            if P.IsDeclined(db, fp) || last.None? then P.GetPending(after, fp) == P.GetPending(db, fp)
            else P.IsPending(after, fp) && after.pending[fp] ==
                 P.Row(P.Remedy(P.CleanupSource, "", last.value.identity, Recommended(last.value), None, None),
                       P.Pending, if fp in db.pending then db.pending[fp].createdAt else now, None)
    decreases |ss|
  {
    if ss != [] {
      var n := |ss| - 1;
      CleanupIsStored(db, ss[..n], now, fp);
      if ss[n].fp != fp {
        OfferKeepsOthers(OfferCleanups(db, ss[..n], now), ss[n].fp, CleanupOf(ss[n]), now, fp);
      }
    }
  }

  // -- record_solution_remediations ------------------------------------------------------------------

  datatype Kind = CommandKind | PlaybookKind | WorkflowKind | OtherKind

  datatype Solution = Solution(
    name: string, author: string, kind: Kind, run: string, proposed: bool, envelope: Envelope)

  /** The operator's switches and the runbook: which solutions match a symptom. */
  datatype Runbook = Runbook(
    matching: Symptom -> seq<Solution>,
    wide: WideClass,
    auto: bool,
    net: bool,                 // the safety net was lifted
    policy: BoundPolicy)

  /** The first match with something to run that is vouched for. */
  function Runnable(sols: seq<Solution>, net: bool): Option<Solution> {
    if sols == [] then None
    else if sols[0].run != "" && (!sols[0].proposed || net) then Some(sols[0])
    else Runnable(sols[1..], net)
  }

  /** `_auto_eligible`: authored content never runs unattended on its author's word alone. */
  predicate AutoEligible(sol: Solution, k: Runbook) {
    (sol.kind.OtherKind? || k.net) && WithinBounds(sol.envelope, k.policy)
  }

  function SolutionOf(sol: Solution, command: string): P.Remedy {
    P.Remedy(P.SolutionSource, "", sol.name + " (author: " + sol.author + ")", command, None, None)
  }

  /** What an entry makes of a symptom: nothing to offer, an unclosed quote that raises, or a
      command. */
  datatype Composed = Nothing | Unclosed | Command(text: string)

  /** The entry filled from the symptom's evidence. A workflow entry is split and parsed, and its
      command marked as a dispatch. */
  function Composing(wide: WideClass, sol: Solution, s: Symptom): Composed {
    var command := Fill(wide, sol.run, s.evidence);
    if HasPlaceholder(wide, command) then Nothing
    else if !sol.kind.WorkflowKind? then Command(command)
    else
      match ShlexSplit(command)
      case None => Unclosed
      case Some(tokens) => if IsSpec(wide, tokens) then Command(DISPATCH + " " + command) else Nothing
  }

  /** The command an authored entry makes of a finding: for texts and keys in braces between them,
      each key with a value, the texts with the values in between; of a workflow entry the same
      behind the mark, if it parses. */
  lemma {:induction false} ComposesEntry(wide: WideClass, sol: Solution, s: Symptom, texts: seq<string>, keys: seq<string>)
    requires |texts| == |keys| + 1 && Braceless(texts) && Words(wide, keys) && sol.run == Template(texts, keys)
    requires forall i :: 0 <= i < |keys| ==> Valued(s.evidence, keys[i]) && '{' !in s.evidence[keys[i]]
    ensures var filled := Inserting(texts, keys, s.evidence);
            if !sol.kind.WorkflowKind? then Composing(wide, sol, s) == Command(filled)
            else if ShlexSplit(filled).None? then Composing(wide, sol, s).Unclosed?
            else if IsSpec(wide, ShlexSplit(filled).value)
            then Composing(wide, sol, s) == Command("workflow-dispatch" + " " + filled)
            else Composing(wide, sol, s).Nothing?
  {
    hide Fill, HasPlaceholder, IsSpec, ShlexSplit, Template, Inserting, Words;
    FillInserts(wide, texts, keys, s.evidence);
    InsertingBraceless(texts, keys, s.evidence);
    BracelessIsFilled(wide, Inserting(texts, keys, s.evidence));
  }

  /** What is offered of a workflow entry can be dispatched. */
  lemma WorkflowStarts(wide: WideClass, sol: Solution, s: Symptom)
    requires sol.kind.WorkflowKind? && Composing(wide, sol, s).Command?
    ensures SolutionAttempt(wide, Composing(wide, sol, s).text).Starts?
  {
    hide Fill, HasPlaceholder, IsSpec, ShlexSplit, SolutionAttempt;
    DispatchStarts(wide, Fill(wide, sol.run, s.evidence));
  }

  /** What the scan does about one symptom. */
  datatype Choice = Skip | Break | Offer(action: P.Remedy) | AutoRun(action: P.Remedy, sol: Solution)

  function ChoiceFor(s: Symptom, k: Runbook, already: set<P.Fingerprint>): Choice {
    match Runnable(k.matching(s), k.net)
    case None => Skip
    case Some(sol) =>
      match Composing(k.wide, sol, s)
      case Nothing => Skip
      case Unclosed => Break
      case Command(command) =>
        if k.auto && s.fp !in already && AutoEligible(sol, k) then AutoRun(SolutionOf(sol, command), sol)
        else Offer(SolutionOf(sol, command))
  }

  /** The first entry with something to run that is vouched for, or taken as it is once the net is
      lifted. */
  predicate FirstRunnable(sols: seq<Solution>, net: bool, i: int) {
    && 0 <= i < |sols| && sols[i].run != "" && (net || !sols[i].proposed)
    && forall j :: 0 <= j < i ==> sols[j].run == "" || (sols[j].proposed && !net)
  }

  lemma {:induction false} RunnableExactly(sols: seq<Solution>, net: bool)
    ensures Runnable(sols, net).None? <==> forall j :: 0 <= j < |sols| ==> sols[j].run == "" || (sols[j].proposed && !net)
    ensures forall i :: FirstRunnable(sols, net, i) ==> Runnable(sols, net) == Some(sols[i])
    ensures Runnable(sols, net).Some? ==> exists i :: FirstRunnable(sols, net, i)
    decreases |sols|
  {
    if sols != [] {
      RunnableExactly(sols[1..], net);
      assert forall j :: 0 <= j < |sols[1..]| ==> sols[1..][j] == sols[j + 1];
      if sols[0].run != "" && (net || !sols[0].proposed) {
        assert FirstRunnable(sols, net, 0);
      } else {
        forall i | FirstRunnable(sols, net, i) ensures FirstRunnable(sols[1..], net, i - 1) {}
        if Runnable(sols, net).Some? {
          var i :| FirstRunnable(sols[1..], net, i);
          assert FirstRunnable(sols, net, i + 1);
        }
      }
    }
  }

  /** What is done about a symptom, by the first runnable entry that matches it: nothing without one
      or without a command; else its command is run unattended exactly when that is switched on, the
      fingerprint was not acted on before, the entry is not open content (or the net is lifted) and
      its envelope is within the bound; and offered for approval otherwise, under the entry's name
      and author. */
  lemma ChoiceExactly(s: Symptom, k: Runbook, already: set<P.Fingerprint>)
    ensures (forall i :: !FirstRunnable(k.matching(s), k.net, i)) ==> ChoiceFor(s, k, already).Skip?
    ensures forall i :: FirstRunnable(k.matching(s), k.net, i) ==>
              var sol := k.matching(s)[i];
              match Composing(k.wide, sol, s)
              case Nothing => ChoiceFor(s, k, already).Skip?
              case Unclosed => ChoiceFor(s, k, already).Break?
              case Command(text) =>
                var action := P.Remedy(P.SolutionSource, "", sol.name + " (author: " + sol.author + ")", text, None, None);
                var unattended := k.auto && s.fp !in already && Permits(k.policy, sol.envelope)
                                  && (k.net || !(sol.kind in {CommandKind, PlaybookKind, WorkflowKind}));
                ChoiceFor(s, k, already) == if unattended then AutoRun(action, sol) else Offer(action)
  {
    hide Composing, Runnable, WithinBounds, Permits, FirstRunnable;
    RunnableExactly(k.matching(s), k.net);
    forall i | FirstRunnable(k.matching(s), k.net, i) ensures 0 <= i < |k.matching(s)| {
      IsListed(k.matching(s), k.net, i);
    }
    forall e: Envelope ensures WithinBounds(e, k.policy) <==> Permits(k.policy, e) { WithinExactly(e, k.policy); }
  }

  lemma IsListed(sols: seq<Solution>, net: bool, i: int)
    requires FirstRunnable(sols, net, i)
    ensures 0 <= i < |sols|
  {
  }

  function SolveOne(before: Progress, s: Symptom, k: Runbook, already: set<P.Fingerprint>, now: P.Stamp, w: A.World): Progress {
    match ChoiceFor(s, k, already)
    case Skip => before
    case Break => before.(raised := true)
    case Offer(action) => before.(db := P.Offered(before.db, s.fp, action, now))
    case AutoRun(action, _) =>
      var (after, last, started) := RunAlone(before.db, A.AutoRuns(s.fp, now, action), w);
      Progress(after, before.started + started, last.Crashed?)
  }

  function SolveAll(
    db: P.Db, ss: seq<Symptom>, k: Runbook, already: set<P.Fingerprint>, now: P.Stamp, ws: nat -> A.World): Progress
  {
    if ss == [] then Progress(db, [], false)
    else
      var n := |ss| - 1;
      var before := SolveAll(db, ss[..n], k, already, now, ws);
      if before.raised then before else SolveOne(before, ss[n], k, already, now, ws(n))
  }

  lemma {:induction false} RaisedStays(
    db: P.Db, ss: seq<Symptom>, k: Runbook, already: set<P.Fingerprint>, now: P.Stamp, ws: nat -> A.World, i: nat)
    requires i <= |ss| && SolveAll(db, ss[..i], k, already, now, ws).raised
    ensures SolveAll(db, ss, k, already, now, ws) == SolveAll(db, ss[..i], k, already, now, ws)
    decreases |ss|
  {
    hide SolveOne;
    if i == |ss| {
      assert ss[..i] == ss;
    } else {
      assert ss[..|ss| - 1][..i] == ss[..i];
      RaisedStays(db, ss[..|ss| - 1], k, already, now, ws, i);
    }
  }

  lemma {:induction false} AutoAlone(db: P.Db, fp: P.Fingerprint, action: P.Remedy, now: P.Stamp, w: A.World)
    ensures RunAlone(db, A.AutoRuns(fp, now, action), w) ==
            match A.RunOutcome(action, w)
            case None => (db, A.Crashed(fp), ApproveStarts(fp, action, w))
            case Some(outcome) =>
              (P.Append(db, P.Audit(now, fp, action, "auto", P.ApprovedBy, outcome)), A.Finished, ApproveStarts(fp, action, w))
  {
    hide A.RunOutcome, A.AttemptOf, RunAlone;
    var runs := A.AutoRuns(fp, now, action);
    match A.RunOutcome(action, w)
    case None => AloneStep(db, runs, w, db, A.Crashed(fp));
    case Some(outcome) =>
      var audits := A.AutoAudits(fp, now, action, outcome);
      AloneStep(db, runs, w, db, audits);
      AloneStep(db, audits, w, P.Append(db, P.Audit(now, fp, action, "auto", P.ApprovedBy, outcome)), A.Finished);
      assert StartsNow(runs, w) + [] == StartsNow(runs, w);
  }

  /** How many symptoms were offered a solution or had one run. */
  function Handled(ss: seq<Symptom>, k: Runbook, already: set<P.Fingerprint>): nat {
    if ss == [] then 0
    else
      var choice := ChoiceFor(ss[|ss| - 1], k, already);
      Handled(ss[..|ss| - 1], k, already) + if choice.Offer? || choice.AutoRun? then 1 else 0
  }

  method RecordSolutions(store: StateStore, report: seq<Body>, k: Runbook, now: P.Stamp, ws: nat -> A.World)
    returns (recorded: nat, started: seq<Start>, raised: bool)
    modifies store`pending, store`audit
    ensures SolveAll(old(store.Actions()), R.AlertSymptoms(report), k, AlreadyActed(old(store.audit), k), now, ws)
            == Progress(store.Actions(), started, raised)
    ensures !raised ==> recorded == Handled(R.AlertSymptoms(report), k, AlreadyActed(old(store.audit), k))
  {
    hide P.Offered, RunAlone, A.RunOutcome, A.AttemptOf, ChoiceFor, P.ActedFingerprints, ApproveStarts;
    ghost var db := store.Actions();
    var ss := R.AlertSymptoms(report);
    var already := AlreadyActed(store.audit, k);
    recorded, started, raised := 0, [], false;
    for i := 0 to |ss|
      invariant !raised && SolveAll(db, ss[..i], k, already, now, ws) == Progress(store.Actions(), started, false)
      invariant recorded == Handled(ss[..i], k, already)
    {
      var s := ss[i];
      assert ss[..i + 1][..i] == ss[..i];
      match ChoiceFor(s, k, already) {
        case Skip =>
        case Break =>
          RaisedStays(db, ss, k, already, now, ws, i + 1);
          raised := true;
          return;
        case Offer(action) =>
          store.RecordPending(s.fp, action, now);
          recorded := recorded + 1;
        case AutoRun(action, _) =>
          AutoAlone(store.Actions(), s.fp, action, now, ws(i));
          var outcome := A.RunOutcome(action, ws(i));
          started := started + ApproveStarts(s.fp, action, ws(i));
          if outcome.None? {
            RaisedStays(db, ss, k, already, now, ws, i + 1);
            raised := true;
            return;
          }
          store.RecordAudit(P.Audit(now, s.fp, action, "auto", P.ApprovedBy, outcome.value));
          recorded := recorded + 1;
      }
    }
    assert ss[..|ss|] == ss;
  }

  // -- When a scan breaks off ------------------------------------------------------------------------

  /** An unclosed quote in a filled workflow entry ends the scan. */
  lemma BreaksOnQuote(s: Symptom, k: Runbook, already: set<P.Fingerprint>)
    ensures ChoiceFor(s, k, already).Break? <==>
            var sol := Runnable(k.matching(s), k.net);
            sol.Some? && sol.value.kind.WorkflowKind?
            && !HasPlaceholder(k.wide, Fill(k.wide, sol.value.run, s.evidence))
            && ShlexSplit(Fill(k.wide, sol.value.run, s.evidence)).None?
  {
    hide Runnable, AutoEligible, HasPlaceholder, Fill, ShlexSplit, IsSpec;
  }

  /** There are such findings: an entry that is nothing but a quote, whatever the evidence. */
  lemma QuoteBreaks(s: Symptom, k: Runbook, already: set<P.Fingerprint>)
    requires Runnable(k.matching(s), k.net).Some?
    requires Runnable(k.matching(s), k.net).value.kind.WorkflowKind? && Runnable(k.matching(s), k.net).value.run == "'"
    ensures ChoiceFor(s, k, already).Break?
  {
    hide Runnable, ShlexSplit;
    UnclosedQuote();
    var quote := "'";
    assert quote[1..] == "" && [quote[0]] + "" == quote;
    assert Fill(k.wide, quote[1..], s.evidence) == "";
    assert Fill(k.wide, quote, s.evidence) == quote;
    BreaksOnQuote(s, k, already);
  }

  predicate BreaksAt(s: Symptom, k: Runbook, already: set<P.Fingerprint>, w: A.World) {
    var choice := ChoiceFor(s, k, already);
    choice.Break? || (choice.AutoRun? && A.RunOutcome(choice.action, w).None?)
  }

  lemma SolveOneRaises(before: Progress, s: Symptom, k: Runbook, already: set<P.Fingerprint>, now: P.Stamp, w: A.World)
    requires !before.raised
    ensures SolveOne(before, s, k, already, now, w).raised <==> BreaksAt(s, k, already, w)
  {
    hide RunAlone, A.RunOutcome, ApproveStarts, ChoiceFor;
    match ChoiceFor(s, k, already)
    case AutoRun(action, _) => AutoAlone(before.db, s.fp, action, now, w);
    case _ =>
  }

  /** The offers of a scan raise exactly when some symptom's entry does not split, or is run
      unattended and its runner raises: whatever the store holds. */
  lemma {:induction false} ScanRaisesExactly(
    db: P.Db, ss: seq<Symptom>, k: Runbook, already: set<P.Fingerprint>, now: P.Stamp, ws: nat -> A.World)
    ensures SolveAll(db, ss, k, already, now, ws).raised <==>
            exists i :: 0 <= i < |ss| && BreaksAt(ss[i], k, already, ws(i))
    decreases |ss|
  {
    hide SolveOne, BreaksAt;
    if ss != [] {
      var n := |ss| - 1;
      ScanRaisesExactly(db, ss[..n], k, already, now, ws);
      var before := SolveAll(db, ss[..n], k, already, now, ws);
      if !before.raised { SolveOneRaises(before, ss[n], k, already, now, ws(n)); }
      assert forall i :: 0 <= i < n ==> ss[..n][i] == ss[i];
    }
  }

  function AlreadyActed(audit: seq<P.Audit>, k: Runbook): set<P.Fingerprint> {
    if k.auto then P.ActedFingerprints(audit) else {}
  }

  /** What the last symptom of `fp` with an offer was offered. */
  function LastOffer(ss: seq<Symptom>, k: Runbook, already: set<P.Fingerprint>, fp: P.Fingerprint): Option<P.Remedy> {
    if ss == [] then None
    else
      var s := ss[|ss| - 1];
      if s.fp == fp && ChoiceFor(s, k, already).Offer? then Some(ChoiceFor(s, k, already).action)
      else LastOffer(ss[..|ss| - 1], k, already, fp)
  }

  lemma SolveOneRow(
    before: Progress, s: Symptom, k: Runbook, already: set<P.Fingerprint>, now: P.Stamp, w: A.World, fp: P.Fingerprint)
    ensures var after := SolveOne(before, s, k, already, now, w);
            if s.fp == fp && ChoiceFor(s, k, already).Offer? && !P.IsDeclined(before.db, fp)
            then P.IsPending(after.db, fp) && after.db.pending[fp].action == ChoiceFor(s, k, already).action
            else P.GetPending(after.db, fp) == P.GetPending(before.db, fp)
  {
    hide RunAlone, A.RunOutcome, ApproveStarts, ChoiceFor;
    match ChoiceFor(s, k, already)
    case AutoRun(action, _) => AutoAlone(before.db, s.fp, action, now, w);
    case _ =>
  }

  /** After the runbook's offers a row holds the last solution offered for it, whatever was
      there; a declined row, or one nothing was offered for, is as it was. */
  lemma {:induction false} SolutionIsStored(
    db: P.Db, ss: seq<Symptom>, k: Runbook, already: set<P.Fingerprint>, now: P.Stamp, ws: nat -> A.World, fp: P.Fingerprint)
    requires !SolveAll(db, ss, k, already, now, ws).raised
    ensures var after, last := SolveAll(db, ss, k, already, now, ws).db, LastOffer(ss, k, already, fp);
            if P.IsDeclined(db, fp) || last.None? then P.GetPending(after, fp) == P.GetPending(db, fp)
            else P.IsPending(after, fp) && after.pending[fp].action == last.value
    decreases |ss|
  {
    hide SolveOne, ChoiceFor;
    if ss != [] {
      var n := |ss| - 1;
      SolutionIsStored(db, ss[..n], k, already, now, ws, fp);
      SolveOneRow(SolveAll(db, ss[..n], k, already, now, ws), ss[n], k, already, now, ws(n), fp);
    }
  }

  // -- Unattended runs -----------------------------------------------------------------------------------

  /** Why a symptom may have its solution run unattended. */
  predicate Granted(s: Symptom, action: P.Remedy, k: Runbook, already: set<P.Fingerprint>) {
    && k.auto && s.fp !in already && action.source.SolutionSource?
    && exists sol :: sol in k.matching(s) && sol.run != "" && (!sol.proposed || k.net) && AutoEligible(sol, k)
                     && Composing(k.wide, sol, s).Command? && action == SolutionOf(sol, Composing(k.wide, sol, s).text)
  }

  lemma {:induction false} RunnableIsVouched(sols: seq<Solution>, net: bool)
    ensures Runnable(sols, net).Some? ==>
              var s := Runnable(sols, net).value; s in sols && s.run != "" && (!s.proposed || net)
    decreases |sols|
  {
    if sols != [] { RunnableIsVouched(sols[1..], net); }
  }

  lemma AutoIsGranted(s: Symptom, k: Runbook, already: set<P.Fingerprint>)
    ensures ChoiceFor(s, k, already).AutoRun? ==> Granted(s, ChoiceFor(s, k, already).action, k, already)
  {
    hide AutoEligible;
    RunnableIsVouched(k.matching(s), k.net);
  }

  lemma AutoActionIsSolution(s: Symptom, k: Runbook, already: set<P.Fingerprint>)
    ensures ChoiceFor(s, k, already).AutoRun? ==>
              ChoiceFor(s, k, already).action.source.SolutionSource? && k.auto && s.fp !in already
  {
    hide Runnable, AutoEligible, Composing;
  }

  /** An unattended success of a solution of one fingerprint. */
  predicate AutoSuccess(e: P.Audit, fp: P.Fingerprint) {
    e.fingerprint == fp && e.actor == "auto" && e.action.source.SolutionSource? && P.TookEffect(e)
  }

  function AutoSuccesses(audit: seq<P.Audit>, fp: P.Fingerprint): nat {
    Count(audit, e => AutoSuccess(e, fp))
  }

  function Carries(ss: seq<Symptom>, fp: P.Fingerprint): nat {
    Count(ss, (s: Symptom) => s.fp == fp)
  }

  lemma SolveOneLogs(
    before: Progress, s: Symptom, k: Runbook, already: set<P.Fingerprint>, now: P.Stamp, w: A.World, fp: P.Fingerprint)
    ensures var after := SolveOne(before, s, k, already, now, w);
            && before.db.audit <= after.db.audit
            && AutoSuccesses(after.db.audit, fp) <= AutoSuccesses(before.db.audit, fp)
                 + if s.fp == fp && k.auto && fp !in already then 1 else 0
  {
    hide RunAlone, A.RunOutcome, AutoEligible, Runnable, ApproveStarts;
    match ChoiceFor(s, k, already)
    case Skip =>
    case Break =>
    case Offer(_) =>
    case AutoRun(action, _) =>
      AutoAlone(before.db, s.fp, action, now, w);
      var outcome := A.RunOutcome(action, w);
      if outcome.Some? {
        CountPush(before.db.audit, P.Audit(now, s.fp, action, "auto", P.ApprovedBy, outcome.value), e => AutoSuccess(e, fp));
      }
  }

  /** The symptom has its solution run unattended, and the run takes effect. */
  predicate TakesEffect(s: Symptom, k: Runbook, already: set<P.Fingerprint>, w: A.World, fp: P.Fingerprint) {
    && s.fp == fp && ChoiceFor(s, k, already).AutoRun?
    && A.RunOutcome(ChoiceFor(s, k, already).action, w) in {Some(P.Verified), Some(P.Applied)}
  }

  /** How many symptoms of the report do. */
  function Effects(ss: seq<Symptom>, k: Runbook, already: set<P.Fingerprint>, ws: nat -> A.World, fp: P.Fingerprint): nat {
    if ss == [] then 0
    else
      var n := |ss| - 1;
      Effects(ss[..n], k, already, ws, fp) + if TakesEffect(ss[n], k, already, ws(n), fp) then 1 else 0
  }

  lemma SolveOneGains(
    before: Progress, s: Symptom, k: Runbook, already: set<P.Fingerprint>, now: P.Stamp, w: A.World, fp: P.Fingerprint)
    requires !SolveOne(before, s, k, already, now, w).raised
    ensures AutoSuccesses(SolveOne(before, s, k, already, now, w).db.audit, fp) ==
            AutoSuccesses(before.db.audit, fp) + if TakesEffect(s, k, already, w, fp) then 1 else 0
  {
    hide RunAlone, A.RunOutcome, ApproveStarts, ChoiceFor;
    match ChoiceFor(s, k, already)
    case Skip =>
    case Break =>
    case Offer(_) =>
    case AutoRun(action, _) =>
      AutoAlone(before.db, s.fp, action, now, w);
      AutoActionIsSolution(s, k, already);
      var outcome := A.RunOutcome(action, w);
      CountPush(before.db.audit, P.Audit(now, s.fp, action, "auto", P.ApprovedBy, outcome.value), e => AutoSuccess(e, fp));
  }

  /** One scan that no runner raised out of gains exactly one unattended success of `fp` per
      symptom that carries it, is chosen to run, and takes effect: so more than one exactly when
      there are two such symptoms. */
  lemma {:induction false} ScanGainsExactly(
    db: P.Db, ss: seq<Symptom>, k: Runbook, already: set<P.Fingerprint>, now: P.Stamp, ws: nat -> A.World, fp: P.Fingerprint)
    requires !SolveAll(db, ss, k, already, now, ws).raised
    ensures AutoSuccesses(SolveAll(db, ss, k, already, now, ws).db.audit, fp) ==
            AutoSuccesses(db.audit, fp) + Effects(ss, k, already, ws, fp)
    decreases |ss|
  {
    hide SolveOne, AutoSuccesses, TakesEffect;
    if ss != [] {
      var n := |ss| - 1;
      ScanGainsExactly(db, ss[..n], k, already, now, ws, fp);
      SolveOneGains(SolveAll(db, ss[..n], k, already, now, ws), ss[n], k, already, now, ws(n), fp);
    }
  }

  /** In one scan a fingerprint succeeds unattended at most as often as the report carries it,
      and never when it had already been acted on. */
  lemma {:induction false} ScanAutoBound(
    db: P.Db, ss: seq<Symptom>, k: Runbook, already: set<P.Fingerprint>, now: P.Stamp, ws: nat -> A.World, fp: P.Fingerprint)
    ensures var after := SolveAll(db, ss, k, already, now, ws);
            && db.audit <= after.db.audit
            && AutoSuccesses(after.db.audit, fp) <= AutoSuccesses(db.audit, fp)
                 + if k.auto && fp !in already then Carries(ss, fp) else 0
    decreases |ss|
  {
    hide SolveOne, AutoSuccesses;
    if ss != [] {
      var n := |ss| - 1;
      ScanAutoBound(db, ss[..n], k, already, now, ws, fp);
      SolveOneLogs(SolveAll(db, ss[..n], k, already, now, ws), ss[n], k, already, now, ws(n), fp);
      assert ss == ss[..n] + [ss[n]];
      CountPush(ss[..n], ss[n], (s: Symptom) => s.fp == fp);
    }
  }

  /** One scan: the log it starts from, and what it sees. */
  datatype Visit = Visit(before: P.Db, ss: seq<Symptom>, k: Runbook, now: P.Stamp, ws: nat -> A.World)

  function Left(v: Visit): P.Db {
    SolveAll(v.before, v.ss, v.k, AlreadyActed(v.before.audit, v.k), v.now, v.ws).db
  }

  /** Unattended successes of `fp` logged by the scan itself. */
  function Gained(v: Visit, fp: P.Fingerprint): int {
    AutoSuccesses(Left(v).audit, fp) - AutoSuccesses(v.before.audit, fp)
  }

  function TotalGained(vs: seq<Visit>, fp: P.Fingerprint): int {
    if vs == [] then 0 else TotalGained(vs[..|vs| - 1], fp) + Gained(vs[|vs| - 1], fp)
  }

  ghost predicate IsHistory(vs: seq<Visit>) {
    forall i :: 0 < i < |vs| ==> Left(vs[i - 1]).audit <= vs[i].before.audit
  }

  lemma {:induction false} AutoSuccessIsActed(audit: seq<P.Audit>, fp: P.Fingerprint)
    requires AutoSuccesses(audit, fp) > 0
    ensures fp in P.ActedFingerprints(audit)
    decreases |audit|
  {
    CountAll(audit, e => AutoSuccess(e, fp));
    var i :| 0 <= i < |audit| && AutoSuccess(audit[i], fp);
    assert P.TookEffect(audit[i]) && audit[i].fingerprint == fp;
  }

  lemma SuccessesGrow(short: seq<P.Audit>, long: seq<P.Audit>, fp: P.Fingerprint)
    requires short <= long
    ensures AutoSuccesses(short, fp) <= AutoSuccesses(long, fp)
  {
    assert long == short + long[|short|..];
    CountConcat(short, long[|short|..], e => AutoSuccess(e, fp));
  }

  lemma GainedBound(v: Visit, fp: P.Fingerprint)
    requires Carries(v.ss, fp) <= 1
    ensures 0 <= Gained(v, fp) <= 1 && v.before.audit <= Left(v).audit
    ensures Gained(v, fp) > 0 ==> AutoSuccesses(v.before.audit, fp) == 0 && fp in P.ActedFingerprints(Left(v).audit)
  {
    hide SolveAll, AutoSuccesses, Carries;
    var already := AlreadyActed(v.before.audit, v.k);
    ScanAutoBound(v.before, v.ss, v.k, already, v.now, v.ws, fp);
    SuccessesGrow(v.before.audit, Left(v).audit, fp);
    if Gained(v, fp) > 0 {
      AutoSuccessIsActed(Left(v).audit, fp);
      if AutoSuccesses(v.before.audit, fp) > 0 { AutoSuccessIsActed(v.before.audit, fp); }
    }
  }

  /** A persisting symptom never loops: over any number of scans, each begun after the one before
      has ended and with anything else logged in between, a solution succeeds unattended at most
      once for a fingerprint that no report carries twice. */
  lemma {:induction false} SucceedsOnce(vs: seq<Visit>, fp: P.Fingerprint)
    requires IsHistory(vs) && forall i :: 0 <= i < |vs| ==> Carries(vs[i].ss, fp) <= 1
    ensures 0 <= TotalGained(vs, fp) <= 1
    ensures vs != [] && TotalGained(vs, fp) > 0 ==> AutoSuccesses(Left(vs[|vs| - 1]).audit, fp) > 0
    decreases |vs|
  {
    hide Left, Gained, AutoSuccesses;
    if vs != [] {
      var n := |vs| - 1;
      SucceedsOnce(vs[..n], fp);
      GainedBound(vs[n], fp);
      SuccessesGrow(vs[n].before.audit, Left(vs[n]).audit, fp);
      GainedMeans(vs[n], fp);
      if n > 0 {
        assert vs[..n][n - 1] == vs[n - 1];
        SuccessesGrow(Left(vs[n - 1]).audit, vs[n].before.audit, fp);
      }
    }
  }

  lemma GainedMeans(v: Visit, fp: P.Fingerprint)
    ensures AutoSuccesses(Left(v).audit, fp) == AutoSuccesses(v.before.audit, fp) + Gained(v, fp)
  {
  }

  lemma {:induction false} EffectsOfTwo(
    ss: seq<Symptom>, k: Runbook, already: set<P.Fingerprint>, ws: nat -> A.World, fp: P.Fingerprint, i: nat, j: nat)
    requires i < j < |ss| && TakesEffect(ss[i], k, already, ws(i), fp) && TakesEffect(ss[j], k, already, ws(j), fp)
    ensures Effects(ss, k, already, ws, fp) >= 2
    decreases |ss|
  {
    hide TakesEffect;
    var n := |ss| - 1;
    if j < n { EffectsOfTwo(ss[..n], k, already, ws, fp, i, j); } else { EffectsOfOne(ss[..n], k, already, ws, fp, i); }
  }

  lemma {:induction false} EffectsOfOne(
    ss: seq<Symptom>, k: Runbook, already: set<P.Fingerprint>, ws: nat -> A.World, fp: P.Fingerprint, i: nat)
    requires i < |ss| && TakesEffect(ss[i], k, already, ws(i), fp)
    ensures Effects(ss, k, already, ws, fp) >= 1
    decreases |ss|
  {
    hide TakesEffect;
    var n := |ss| - 1;
    if i < n { EffectsOfOne(ss[..n], k, already, ws, fp, i); }
  }

  /** And the proviso is needed: `already` is read once per scan, so any report with two symptoms
      of one fingerprint whose solutions run and take effect succeeds twice. */
  lemma CarriedTwiceRunsTwice(v: Visit, fp: P.Fingerprint, i: nat, j: nat)
    requires var already := AlreadyActed(v.before.audit, v.k);
             && i < j < |v.ss| && !SolveAll(v.before, v.ss, v.k, already, v.now, v.ws).raised
             && TakesEffect(v.ss[i], v.k, already, v.ws(i), fp) && TakesEffect(v.ss[j], v.k, already, v.ws(j), fp)
    ensures Gained(v, fp) >= 2
  {
    hide SolveAll, AutoSuccesses, TakesEffect, AlreadyActed;
    var already := AlreadyActed(v.before.audit, v.k);
    ScanGainsExactly(v.before, v.ss, v.k, already, v.now, v.ws, fp);
    EffectsOfTwo(v.ss, v.k, already, v.ws, fp, i, j);
  }
}
