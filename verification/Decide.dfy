/** The decider and its gate. */
module Decide {
  // Whatever a proposer writes passes one deterministic gate, and what passes is run through the
  // same approval a human uses.

  import opened Text
  import opened Bounds
  import opened Catalog
  import opened Shlex
  import opened Execute
  import opened PendingActions
  import opened Approval
  import opened Store
  import opened Approve

  datatype Proposal = Proposal(
    action: string, command: string, identity: string, fingerprint: Fingerprint, rationale: string, proposer: string)

  datatype Verdict = Authorized | Rejected | Escalate

  /** A proposal with its verdict and the envelope of the catalog, not of the proposer. */
  datatype Gated = Gated(proposal: Proposal, verdict: Verdict, envelope: Option<Envelope>)

  // -- The gate ----------------------------------------------------------------------------------

  function FirstNamed(actions: seq<Action>, name: string): Option<Action> {
    if actions == [] then None
    else if ActionName(actions[0]) == name then Some(actions[0])
    else FirstNamed(actions[1..], name)
  }

  /** `catalog_action` */
  function CatalogAction(name: string): Option<Action> {
    FirstNamed(ACTIONS, name)
  }

  function GateProposal(wide: WideClass, p: Proposal, policy: BoundPolicy): Gated {
    match CatalogAction(p.action)
    case None => Gated(p, Rejected, None)
    case Some(a) =>
      if !Validates(a, wide, p.command) then Gated(p, Rejected, Some(EnvelopeOf(a)))
      else if !WithinBounds(EnvelopeOf(a), policy) then Gated(p, Escalate, Some(EnvelopeOf(a)))
      else Gated(p, Authorized, Some(EnvelopeOf(a)))
  }

  lemma NamesDistinct(a: Action, b: Action)
    requires ActionName(a) == ActionName(b)
    ensures a == b
  {
    var x, y := ActionName(a), ActionName(b);
    assert x[0] == y[0] && x[1] == y[1] && |x| == |y|;
  }

  lemma {:induction false} FirstNamedFinds(actions: seq<Action>, a: Action)
    ensures a in actions ==> FirstNamed(actions, ActionName(a)) == Some(a)
    decreases |actions|
  {
    hide ActionName;
    if actions != [] {
      FirstNamedFinds(actions[1..], a);
      if ActionName(actions[0]) == ActionName(a) { NamesDistinct(actions[0], a); }
    }
  }

  lemma {:induction false} FirstNamedIsNamed(actions: seq<Action>, name: string)
    ensures FirstNamed(actions, name).Some? ==> ActionName(FirstNamed(actions, name).value) == name
    decreases |actions|
  {
    if actions != [] { FirstNamedIsNamed(actions[1..], name); }
  }

  lemma AllActions(a: Action)
    ensures a in ACTIONS
  {
    assert ACTIONS[0] == ReclaimEvicted && ACTIONS[1] == DeleteCompleted && ACTIONS[2] == RolloutRestart
        && ACTIONS[3] == ScaleToZero && ACTIONS[4] == DeleteNode;
  }

  lemma CatalogActionExact(name: string, a: Action)
    ensures CatalogAction(name) == Some(a) <==> ActionName(a) == name
  {
    hide ActionName, FirstNamed;
    AllActions(a);
    FirstNamedFinds(ACTIONS, a);
    FirstNamedIsNamed(ACTIONS, name);
  }

  predicate Answers(a: Action, wide: WideClass, p: Proposal) {
    ActionName(a) == p.action && Validates(a, wide, p.command)
  }

  /** The verdict depends only on the named action, the command and the bound: authorized and
      escalated proposals are exactly those whose command the named action vets, told apart by
      the action's own envelope. */
  lemma GateExact(wide: WideClass, p: Proposal, policy: BoundPolicy, a: Action)
    ensures var g := GateProposal(wide, p, policy);
            && g.proposal == p
            && (g.verdict.Rejected? <==> !exists b :: Answers(b, wide, p))
            && (Answers(a, wide, p) ==> g.envelope == Some(EnvelopeOf(a)))
            && (Answers(a, wide, p) ==> (g.verdict.Authorized? <==> WithinBounds(EnvelopeOf(a), policy)))
  {
    hide ActionName, Validates, CatalogAction;
    CatalogActionExact(p.action, a);
    var named := CatalogAction(p.action);
    if named.Some? {
      CatalogActionExact(p.action, named.value);
      assert Validates(named.value, wide, p.command) ==> Answers(named.value, wide, p);
    }
    forall b | Answers(b, wide, p) ensures named == Some(b) { CatalogActionExact(p.action, b); }
  }

  /** What each action declares to be. */
  predicate Declares(a: Action, r: Reversibility, i: Impact) {
    match a
    case ReclaimEvicted => r.Lossless? && i.Tenant?
    case DeleteCompleted => r.Lossless? && i.Tenant?
    case RolloutRestart => r.SelfHealing? && i.Service?
    case ScaleToZero => r.Recoverable? && i.Service?
    case DeleteNode => r.Irreversible? && i.Node?
  }

  /** The operator's last word: behind any committed table and any text, a pair `r=word` authorizes
      the vetted commands of the actions that declare `r` exactly if their impact stands no later
      than the word in the list of impacts, and escalates them otherwise; after "none" always. */
  lemma GateFollowsText(
    wide: WideClass, p: Proposal, table: seq<(string, string)>, raw: string, c: char, key: string, value: string,
    r: Reversibility, word: Option<Impact>, a: Action, i: Impact)
    requires (c == ',' || c == ';') && '=' !in key && Unseparated(key) && Unseparated(value)
    requires Spells(key, r) && Says(value, word) && Declares(a, r, i) && Answers(a, wide, p)
    ensures var verdict := GateProposal(wide, p, ActiveBound(table, raw + [c] + (key + "=" + value))).verdict;
            if word.Some? && NoWorse(i, word.value) then verdict.Authorized? else verdict.Escalate?
  {
    hide GateProposal, Answers, ActiveBound, Spells, Says, WithinBounds, Unseparated;
    var policy := ActiveBound(table, raw + [c] + (key + "=" + value));
    LastPairDecides(table, raw, c, key, value, r, word);
    GateExact(wide, p, policy, a);
    WithinExactly(EnvelopeOf(a), policy);
    assert EnvelopeOf(a) == Envelope(r, i);
    AnsweredVerdict(wide, p, policy, a);
  }

  lemma AnsweredVerdict(wide: WideClass, p: Proposal, policy: BoundPolicy, a: Action)
    requires Answers(a, wide, p)
    ensures !GateProposal(wide, p, policy).verdict.Rejected?
  {
    hide GateProposal, Answers;
    GateExact(wide, p, policy, a);
  }

  /** The gate and the runner look the action up differently (by name, by command) but agree on
      it; an authorized command therefore runs exactly when the default bound allows it too,
      whatever the gate's own policy was. */
  lemma AuthorizedRunsIff(wide: WideClass, p: Proposal, policy: BoundPolicy) returns (a: Action)
    requires GateProposal(wide, p, policy).verdict.Authorized?
    ensures Answers(a, wide, p) && WithinBounds(EnvelopeOf(a), policy)
    ensures CatalogAttempt(wide, p.command, false).Starts? <==> WithinBounds(EnvelopeOf(a), DEFAULT_BOUND)
    ensures !CatalogAttempt(wide, p.command, false).Raises?
  {
    hide ActionName, CatalogAction, Validates, CatalogAttempt, WithinBounds;
    a := CatalogAction(p.action).value;
    CatalogActionExact(p.action, a);
    CatalogStartsVetted(wide, p.command, false);
    var only := a;
    forall b | Validates(b, wide, p.command) ensures b == only { ActionsDisjoint(wide, p.command, only, b); }
  }

  // -- Splitting a batch ---------------------------------------------------------------------------

  function Select(gated: seq<Gated>, v: Verdict): seq<Gated> {
    if gated == [] then []
    else
      var n := |gated| - 1;
      Select(gated[..n], v) + if gated[n].verdict == v then [gated[n]] else []
  }

  lemma {:induction false} SelectStep(gated: seq<Gated>, v: Verdict)
    requires gated != []
    ensures var n := |gated| - 1;
            multiset(Select(gated, v)) ==
            multiset(Select(gated[..n], v)) + if gated[n].verdict == v then multiset{gated[n]} else multiset{}
  {
  }

  /** Every proposal of the batch ends in exactly one of the three lists, as often as it
      was in the batch. */
  lemma {:induction false} SplitIsExact(gated: seq<Gated>, v: Verdict, g: Gated)
    ensures multiset(Select(gated, v))[g] == if g.verdict == v then multiset(gated)[g] else 0
    decreases |gated|
  {
    if gated != [] {
      var n := |gated| - 1;
      SplitIsExact(gated[..n], v, g);
      SelectStep(gated, v);
      hide Select;
      assert gated == gated[..n] + [gated[n]];
    }
  }

  /** Each list keeps the order of the batch. */
  lemma {:induction false} SelectFilters(gated: seq<Gated>, v: Verdict)
    ensures Filters(Select(gated, v), gated, (g: Gated) => g.verdict == v)
    decreases |gated|
  {
    if gated == [] {
      FiltersNothing((g: Gated) => g.verdict == v);
    } else {
      var n := |gated| - 1;
      SelectFilters(gated[..n], v);
      FiltersMore(Select(gated[..n], v), gated[..n], gated[n], (g: Gated) => g.verdict == v);
      assert gated[..n] + [gated[n]] == gated;
    }
  }

  function RemedyOf(p: Proposal): Remedy {
    Remedy(CatalogSource, "", p.identity, p.command, None, None)
  }

  // -- Proposing to pending --------------------------------------------------------------------------

  function OfferAll(db: Db, gated: seq<Gated>, now: Stamp): Db {
    if gated == [] then db
    else
      var n := |gated| - 1;
      var before := OfferAll(db, gated[..n], now);
      if gated[n].verdict.Authorized?
      then Offered(before, gated[n].proposal.fingerprint, RemedyOf(gated[n].proposal), now)
      else before
  }

  /** The last authorized proposal of the fingerprint. */
  predicate IsLast(gated: seq<Gated>, i: int, fp: Fingerprint) {
    && 0 <= i < |gated| && gated[i].verdict == Authorized && gated[i].proposal.fingerprint == fp
    && forall j :: i < j < |gated| ==> !(gated[j].verdict == Authorized && gated[j].proposal.fingerprint == fp)
  }

  /** What is recorded: the row of a fingerprint is pending, under nobody's name, with the identity and
      the command of its last authorized proposal, as a catalog action and dated as it first was. A
      declined row stays as it is, and so does a row no authorized proposal is for. */
  lemma {:induction false} ProposalIsStored(db: Db, gated: seq<Gated>, now: Stamp, fp: Fingerprint)
    ensures var after := OfferAll(db, gated, now);
            && after.audit == db.audit
            && (IsDeclined(db, fp) || (forall i :: !IsLast(gated, i, fp)) ==> GetPending(after, fp) == GetPending(db, fp))
            && forall i :: IsLast(gated, i, fp) && !IsDeclined(db, fp) ==>
                 GetPending(after, fp) ==
                 Some(Row(Remedy(CatalogSource, "", gated[i].proposal.identity, gated[i].proposal.command, None, None),
                          Pending, if fp in db.pending then db.pending[fp].createdAt else now, None))
    decreases |gated|
  {
    if gated != [] {
      var n := |gated| - 1;
      var front, g := gated[..n], gated[n];
      ProposalIsStored(db, front, now, fp);
      if g.verdict == Authorized && g.proposal.fingerprint == fp {
        assert IsLast(gated, n, fp);
      } else {
        forall i ensures IsLast(gated, i, fp) <==> IsLast(front, i, fp) {}
      }
    }
  }

  method RecordProposals(store: StateStore, gated: seq<Gated>, now: Stamp)
    returns (recorded: seq<Gated>, advised: seq<Gated>, dropped: seq<Gated>)
    modifies store`pending
    ensures store.Actions() == OfferAll(old(store.Actions()), gated, now)
    ensures recorded == Select(gated, Authorized) && advised == Select(gated, Escalate)
    ensures dropped == Select(gated, Rejected)
  {
    hide Offered, RemedyOf;
    recorded, advised, dropped := [], [], [];
    for i := 0 to |gated|
      invariant store.Actions() == OfferAll(old(store.Actions()), gated[..i], now)
      invariant recorded == Select(gated[..i], Authorized) && advised == Select(gated[..i], Escalate)
      invariant dropped == Select(gated[..i], Rejected)
    {
      var g := gated[i];
      assert gated[..i + 1][..i] == gated[..i];
      match g.verdict {
        case Authorized =>
          store.RecordPending(g.proposal.fingerprint, RemedyOf(g.proposal), now);
          recorded := recorded + [g];
        case Escalate => advised := advised + [g];
        case Rejected => dropped := dropped + [g];
      }
    }
    assert gated[..|gated|] == gated;
  }

  // -- Acting ------------------------------------------------------------------------------------------

  function ActOne(before: Progress, p: Proposal, now: Stamp, actor: string, w: World): Progress {
    var offered := Offered(before.db, p.fingerprint, RemedyOf(p), now);
    var (after, last, started) := RunAlone(offered, ApproveReads(p.fingerprint, actor, "", now), w);
    Progress(after, before.started + started, last.Crashed?)
  }

  function ActAll(db: Db, gated: seq<Gated>, now: Stamp, actor: string, ws: seq<World>): Progress
    requires |ws| == |gated|
  {
    if gated == [] then Progress(db, [], false)
    else
      var n := |gated| - 1;
      var before := ActAll(db, gated[..n], now, actor, ws[..n]);
      if before.raised || !gated[n].verdict.Authorized? then before
      else ActOne(before, gated[n].proposal, now, actor, ws[n])
  }

  lemma {:induction false} RaisedStays(db: Db, gated: seq<Gated>, now: Stamp, actor: string, ws: seq<World>, i: nat)
    requires |ws| == |gated| && i <= |gated| && ActAll(db, gated[..i], now, actor, ws[..i]).raised
    ensures ActAll(db, gated, now, actor, ws) == ActAll(db, gated[..i], now, actor, ws[..i])
    decreases |gated|
  {
    var n := |gated| - 1;
    if i == |gated| {
      assert gated[..i] == gated && ws[..i] == ws;
    } else {
      assert gated[..n][..i] == gated[..i] && ws[..n][..i] == ws[..i];
      RaisedStays(db, gated[..n], now, actor, ws[..n], i);
    }
  }

  method ActOnProposals(store: StateStore, gated: seq<Gated>, now: Stamp, actor: string, ws: seq<World>)
    returns (acted: seq<(Gated, Reply)>, advised: seq<Gated>, dropped: seq<Gated>, started: seq<Start>, raised: bool)
    requires |ws| == |gated|
    modifies store`pending, store`audit
    ensures ActAll(old(store.Actions()), gated, now, actor, ws) == Progress(store.Actions(), started, raised)
    ensures !raised ==> Proposals(acted) == Select(gated, Authorized) && advised == Select(gated, Escalate)
                        && dropped == Select(gated, Rejected)
  {
    hide Offered, RemedyOf, RunAlone;
    ghost var db := store.Actions();
    acted, advised, dropped, started, raised := [], [], [], [], false;
    for i := 0 to |gated|
      invariant !raised
      invariant ActAll(db, gated[..i], now, actor, ws[..i]) == Progress(store.Actions(), started, false)
      invariant Proposals(acted) == Select(gated[..i], Authorized) && advised == Select(gated[..i], Escalate)
      invariant dropped == Select(gated[..i], Rejected)
    {
      var g := gated[i];
      assert gated[..i + 1][..i] == gated[..i] && ws[..i + 1][..i] == ws[..i];
      match g.verdict {
        case Authorized =>
          store.RecordPending(g.proposal.fingerprint, RemedyOf(g.proposal), now);
          var reply, starts := ApplyPending(store, g.proposal.fingerprint, actor, "", now, ws[i]);
          started := started + starts;
          if reply.Raised? {
            RaisedStays(db, gated, now, actor, ws, i + 1);
            return acted, advised, dropped, started, true;
          }
          acted := acted + [(g, reply)];
        case Escalate => advised := advised + [g];
        case Rejected => dropped := dropped + [g];
      }
    }
    assert gated[..|gated|] == gated && ws[..|ws|] == ws;
  }

  function Proposals(acted: seq<(Gated, Reply)>): seq<Gated> {
    if acted == [] then [] else Proposals(acted[..|acted| - 1]) + [acted[|acted| - 1].0]
  }

  // -- Bounded autonomy -----------------------------------------------------------------------------------

  predicate Gates(gated: seq<Gated>, wide: WideClass, policy: BoundPolicy) {
    forall i :: 0 <= i < |gated| ==> gated[i] == GateProposal(wide, gated[i].proposal, policy)
  }

  ghost predicate OneRegex(ws: seq<World>, wide: WideClass) {
    forall i :: 0 <= i < |ws| ==> ws[i].wide == wide
  }

  /** A start the bound allows: the command of one proposal, vetted by the catalog action that
      proposal names, whose envelope is within the gate's policy and the default bound. */
  predicate WithinBoth(s: Start, p: Proposal, wide: WideClass, policy: BoundPolicy) {
    && s.fp == p.fingerprint && s.action == RemedyOf(p) && ShlexSplit(p.command) == Some(s.argv)
    && exists a :: Answers(a, wide, p) && WithinBounds(EnvelopeOf(a), policy) && WithinBounds(EnvelopeOf(a), DEFAULT_BOUND)
  }

  /** What one authorized proposal does to the store: nothing at all when its fingerprint was
      declined; otherwise it can only add its own row and one audit row, and start its own
      command. */
  lemma ActOneBounded(before: Progress, wide: WideClass, p: Proposal, policy: BoundPolicy, now: Stamp, actor: string, w: World)
    requires GateProposal(wide, p, policy).verdict.Authorized? && w.wide == wide && !before.raised
    ensures var after := ActOne(before, p, now, actor, w);
            && (IsDeclined(before.db, p.fingerprint) ==> after == before)
            && (forall fp :: fp != p.fingerprint ==> GetPending(after.db, fp) == GetPending(before.db, fp))
            && (after.started == before.started
                || exists s :: WithinBoth(s, p, wide, policy) && after.started == before.started + [s])
            && (after.db.audit == before.db.audit
                || exists e :: OwnEntry(e, p, now, actor) && after.db.audit == before.db.audit + [e])
  {
    hide GateProposal, CatalogAttempt, IsPending;
    var offered := Offered(before.db, p.fingerprint, RemedyOf(p), now);
    var after := ActOne(before, p, now, actor, w);
    if IsDeclined(before.db, p.fingerprint) {
      DeclinedIsNotPending(before.db, p.fingerprint);
      ApproveUntouched(offered, p.fingerprint, actor, "", now, w);
      assert before.started + [] == before.started;
    } else {
      OfferIsPending(before.db, p.fingerprint, RemedyOf(p), now);
      ApproveRoutedRuns(offered, p.fingerprint, actor, "", now, w);
      var starts := ApproveStarts(p.fingerprint, RemedyOf(p), w);
      assert after.started == before.started + starts;
      if starts == [] {
        assert before.started + [] == before.started;
      } else {
        AuthorizedStartsWithin(wide, p, policy, w, starts[0]);
      }
      AuditedIsOwn(offered, p, now, actor, w);
    }
  }

  lemma DeclinedIsNotPending(db: Db, fp: Fingerprint)
    requires IsDeclined(db, fp)
    ensures !IsPending(db, fp)
  {
  }

  lemma OfferIsPending(db: Db, fp: Fingerprint, action: Remedy, now: Stamp)
    requires !IsDeclined(db, fp)
    ensures IsPending(Offered(db, fp, action, now), fp) && Offered(db, fp, action, now).pending[fp].action == action
  {
  }

  predicate OwnEntry(e: Audit, p: Proposal, now: Stamp, actor: string) {
    && e.at == now && e.fingerprint == p.fingerprint && e.action == RemedyOf(p)
    && e.actor == actor && e.decision == ApprovedBy
  }

  lemma {:induction false} AuditedIsOwn(offered: Db, p: Proposal, now: Stamp, actor: string, w: World)
    requires IsPending(offered, p.fingerprint) && offered.pending[p.fingerprint].action == RemedyOf(p)
    ensures var after := RunAlone(offered, ApproveReads(p.fingerprint, actor, "", now), w).0;
            after.audit == offered.audit
            || exists e :: OwnEntry(e, p, now, actor) && after.audit == offered.audit + [e]
  {
    hide RunAlone, RunOutcome;
    ApproveRoutedRuns(offered, p.fingerprint, actor, "", now, w);
    var outcome := RunOutcome(RemedyOf(p), w);
    if outcome.Some? {
      assert OwnEntry(Audit(now, p.fingerprint, RemedyOf(p), actor, ApprovedBy, outcome.value), p, now, actor);
    }
  }

  lemma AuthorizedStartsWithin(wide: WideClass, p: Proposal, policy: BoundPolicy, w: World, s: Start)
    requires GateProposal(wide, p, policy).verdict.Authorized? && w.wide == wide
    requires ApproveStarts(p.fingerprint, RemedyOf(p), w) == [s]
    ensures WithinBoth(s, p, wide, policy)
  {
    hide GateProposal, ActionForCommand, WithinBounds;
    var a := AuthorizedRunsIff(wide, p, policy);
  }

  /** And it does run: an authorized command is started exactly when its fingerprint was not
      declined and its action's envelope is within the default bound. */
  lemma ActsExactly(
    before: Progress, wide: WideClass, p: Proposal, policy: BoundPolicy, now: Stamp, actor: string, w: World, a: Action)
    requires GateProposal(wide, p, policy).verdict.Authorized? && w.wide == wide && Answers(a, wide, p)
    ensures |ActOne(before, p, now, actor, w).started| == |before.started| +
            if !IsDeclined(before.db, p.fingerprint) && WithinBounds(EnvelopeOf(a), DEFAULT_BOUND) then 1 else 0
  {
    hide GateProposal, CatalogAttempt, IsPending, WithinBounds, RunAlone, CatalogAction, ActionName, Validates;
    var offered := Offered(before.db, p.fingerprint, RemedyOf(p), now);
    if IsDeclined(before.db, p.fingerprint) {
      DeclinedIsNotPending(before.db, p.fingerprint);
      ApproveUntouched(offered, p.fingerprint, actor, "", now, w);
    } else {
      OfferIsPending(before.db, p.fingerprint, RemedyOf(p), now);
      ApproveRoutedRuns(offered, p.fingerprint, actor, "", now, w);
      var named := AuthorizedRunsIff(wide, p, policy);
      ActionsDisjoint(wide, p.command, a, named);
    }
  }

  /** Some authorized proposal of the batch accounts for the start. */
  predicate Accounted(s: Start, gated: seq<Gated>, wide: WideClass, policy: BoundPolicy) {
    exists i :: 0 <= i < |gated| && gated[i].verdict.Authorized? && WithinBoth(s, gated[i].proposal, wide, policy)
  }

  predicate Logged(e: Audit, gated: seq<Gated>, now: Stamp, actor: string) {
    exists i :: 0 <= i < |gated| && gated[i].verdict.Authorized? && OwnEntry(e, gated[i].proposal, now, actor)
  }

  predicate Concerns(gated: seq<Gated>, fp: Fingerprint) {
    exists i :: 0 <= i < |gated| && gated[i].verdict.Authorized? && gated[i].proposal.fingerprint == fp
  }

  /** End to end, for every store, every batch of proposals and every outcome of the runs:
      whatever the proposer wrote, only commands within both bounds are started; a declined
      fingerprint, or one no authorized proposal concerns, keeps its row, and no process is
      started and nothing is logged for it. */
  ghost predicate Bounded(db: Db, after: Progress, gated: seq<Gated>, wide: WideClass, policy: BoundPolicy, now: Stamp, actor: string) {
    && (forall i :: 0 <= i < |after.started| ==> Accounted(after.started[i], gated, wide, policy))
    && (forall i :: 0 <= i < |after.started| ==> !IsDeclined(db, after.started[i].fp))
    && db.audit <= after.db.audit
    && (forall i :: |db.audit| <= i < |after.db.audit| ==> Logged(after.db.audit[i], gated, now, actor))
    && (forall i :: |db.audit| <= i < |after.db.audit| ==> !IsDeclined(db, after.db.audit[i].fingerprint))
    && (forall fp :: IsDeclined(db, fp) || !Concerns(gated, fp) ==> GetPending(after.db, fp) == GetPending(db, fp))
  }

  lemma BoundedWeakens(
    db: Db, after: Progress, gated: seq<Gated>, g: Gated, wide: WideClass, policy: BoundPolicy, now: Stamp, actor: string)
    requires Bounded(db, after, gated, wide, policy, now, actor)
    ensures Bounded(db, after, gated + [g], wide, policy, now, actor)
  {
    hide WithinBoth, OwnEntry, IsDeclined;
    forall s | Accounted(s, gated, wide, policy) ensures Accounted(s, gated + [g], wide, policy) {
      var i :| 0 <= i < |gated| && gated[i].verdict.Authorized? && WithinBoth(s, gated[i].proposal, wide, policy);
      assert (gated + [g])[i] == gated[i];
    }
    forall e | Logged(e, gated, now, actor) ensures Logged(e, gated + [g], now, actor) {
      var i :| 0 <= i < |gated| && gated[i].verdict.Authorized? && OwnEntry(e, gated[i].proposal, now, actor);
      assert (gated + [g])[i] == gated[i];
    }
    forall fp | Concerns(gated, fp) ensures Concerns(gated + [g], fp) {
      var i :| 0 <= i < |gated| && gated[i].verdict.Authorized? && gated[i].proposal.fingerprint == fp;
      assert (gated + [g])[i] == gated[i];
    }
  }

  lemma BoundedStep(
    db: Db, before: Progress, gated: seq<Gated>, g: Gated, wide: WideClass, policy: BoundPolicy,
    now: Stamp, actor: string, w: World)
    requires Bounded(db, before, gated + [g], wide, policy, now, actor) && !before.raised && w.wide == wide
    requires g == GateProposal(wide, g.proposal, policy) && g.verdict.Authorized?
    ensures Bounded(db, ActOne(before, g.proposal, now, actor, w), gated + [g], wide, policy, now, actor)
  {
    hide ActOne, GateProposal, WithinBoth;
    var p, after, all := g.proposal, ActOne(before, g.proposal, now, actor, w), gated + [g];
    assert all[|gated|] == g;
    assert Concerns(all, p.fingerprint);
    ActOneBounded(before, wide, p, policy, now, actor, w);
    if IsDeclined(db, p.fingerprint) {
      assert GetPending(before.db, p.fingerprint) == GetPending(db, p.fingerprint);
      assert after == before;
    } else {
      forall s | WithinBoth(s, p, wide, policy) ensures Accounted(s, all, wide, policy) && s.fp == p.fingerprint {
        assert all[|gated|].verdict.Authorized?;
        StartIsOwn(s, p, wide, policy);
      }
      forall e | OwnEntry(e, p, now, actor) ensures Logged(e, all, now, actor) {
        assert all[|gated|].verdict.Authorized?;
      }
    }
  }

  lemma StartIsOwn(s: Start, p: Proposal, wide: WideClass, policy: BoundPolicy)
    requires WithinBoth(s, p, wide, policy)
    ensures s.fp == p.fingerprint
  {
  }

  lemma {:induction false} BoundedAutonomy(
    db: Db, gated: seq<Gated>, wide: WideClass, policy: BoundPolicy, now: Stamp, actor: string, ws: seq<World>)
    requires |ws| == |gated| && Gates(gated, wide, policy) && OneRegex(ws, wide)
    ensures Bounded(db, ActAll(db, gated, now, actor, ws), gated, wide, policy, now, actor)
    decreases |gated|
  {
    hide Bounded, ActOne, GateProposal;
    if gated == [] {
      NothingBounded(db, wide, policy, now, actor);
    } else {
      var n := |gated| - 1;
      BoundedAutonomy(db, gated[..n], wide, policy, now, actor, ws[..n]);
      var before := ActAll(db, gated[..n], now, actor, ws[..n]);
      assert gated[..n] + [gated[n]] == gated;
      BoundedWeakens(db, before, gated[..n], gated[n], wide, policy, now, actor);
      if !before.raised && gated[n].verdict.Authorized? {
        BoundedStep(db, before, gated[..n], gated[n], wide, policy, now, actor, ws[n]);
      }
    }
  }

  lemma NothingBounded(db: Db, wide: WideClass, policy: BoundPolicy, now: Stamp, actor: string)
    ensures Bounded(db, Progress(db, [], false), [], wide, policy, now, actor)
  {
  }
}
