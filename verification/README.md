# Steady State, verified

Steady State watches a fleet, remembers what it found, and repairs only what a human allowed it
to. This project models the parts of it that carry that promise and proves what they promise:

- **The approval protocol.** Scans that offer remediations, approvers, decliners and unattended
  runs share one table and one append-only log, and interleave one SQL statement at a time.
  `Approval.dfy` is that machine and its ledger; `Approve.dfy` is one process executing
  `apply_pending` and `decline_pending` against the store, shown to be one of the machine's
  schedules; `ApprovalRaces.dfy` is what its gaps let happen. `Decide.dfy`, `Hold.dfy` (with
  `Reflex.dfy`, `Churn.dfy` and `TickOverlaps.dfy`) and `Offers.dfy` (with `Workflow.dfy` and
  `Overlaps.dfy`) are the autonomous callers: the decider, the reflex loop, and the runbook;
  `OwnCommands.dfy` is the `hold` command, all three steps of it. `BreakGlass.dfy` says who may
  break the glass and what must be typed for it, and `Locators.dfy` what a workflow locator is.
- **The finding lifecycle.** `Findings.dfy` says what each store operation does to a table of
  instants, and `Lifecycle.dfy` proves properties of every run of scans, probes and operator
  actions that come one after the other. `Concurrent.dfy` lets them interleave, one SQL statement
  at a time, and with `Flapping.dfy` says exactly when those properties then survive; `Races.dfy`
  has the schedules in which they do not, and `ScanAlone.dfy` shows that a scan with nothing in
  between is one event of the lifecycle. `Store.dfy` (with `Rows.dfy` and `IsoTime.dfy`) is the `StateStore`
  class itself, which keeps ISO texts, compares them as texts, and refines that table.
  `Reports.dfy`, `ReconcileState.dfy`, `Sweep.dfy` and `Mutes.dfy` put the stateful scan, the fleet
  sweep and the committed mutes on top of it; `Fields.dfy` says who may write which column of a row,
  and `Remembered.dfy` which of a report's items decides what a row shows.
- **The command gate.** `Kubectl.dfy` states the language the checker loop accepts as a grammar;
  `Shlex.dfy` shows that what was checked is what is run, and `Quoting.dfy` settles the splitter for
  every text; `Catalog.dfy` and `Compose.dfy` treat the five vetted actions and their printers, and
  `Language.dfy` says in words which texts each one accepts and prints; `Bounds.dfy` and
  `Execute.dfy` are the bound and the runners.
- **Text forms that must agree.** `Grammar.dfy`, `Vocabulary.dfy` and `Inbound.dfy` (chat commands,
  the words they are written in, their echo, and the model as an arbitrary oracle), `Patch.dfy` and
  `Sections.dfy` (whole-file patches, and reading any patch), `Diff.dfy` (declared against observed)
  and `Like.dfy` (prefix lookup). `Text.dfy` and `Strings.dfy` have the string methods they use.

Where the program updates something in place the model does too: `StateStore`, `Alert` and
`Report` are classes, and the loops of the modelled functions are loops with invariants, proved
against a function of the inputs and the old state; the theorems are about those functions.

## What turned out not to hold as promised

- A decline can be lost. `record_pending` reads the row and writes it in two statements, so a scan
  that read before the decline and writes after it puts the remediation up for approval again.
  `DeclineCanBeLost` is such a schedule; `DeclinedAbsorbing` proves that a declined row stays
  declined on every continuation exactly when no offer is past its read.
- An approval runs the command it read, while its claim looks at the status only: the row it marks
  as approved may hold another remedy (`ApprovedAnother`), exactly when the last offer written
  between read and claim wrote another one (`ClaimedIsReadExactly`). A re-offer during a run lets a
  second run of the same fingerprint start (`TwoRunsInFlight`).
- A mute or a snooze can be lost to a scan, and a resolution reported twice, because the store is
  shared by threads and every row is read in one statement and written in another
  (`MuteCanBeLost`, `SnoozeCanBeLost`, `ReportedTwice`). What an operator put in force survives
  every continuation exactly when no thread is past its read or selection of that row with
  something else to write (`IntentSurvivesExactly`); `snooze_until` is set exactly while snoozed
  unless the UPDATE that resolves lands on a snooze placed after its selection
  (`SnoozeEndExactly`); and a finding is reported again, with nothing written in between, exactly
  while the first reporter still owes its UPDATE (`SecondReportExactly`).
- A tick of `hold` does not always run its decision's own command. The runbook's offers are
  recorded between the cleanups and the tick; where one matches, its authored command replaces the
  cleanup's row and the tick runs it, with no check against the catalog or the bound, although
  authored content is meant to wait for a human. `TickRunsExactly` says when, and
  `TickRunsAuthored` that it happens.
- A solution runs unattended "once per fingerprint" only if no report carries the fingerprint twice
  and scans do not overlap: the set of already-acted fingerprints is read once per scan.
  `ScanGainsExactly` counts one scan; `SucceedsAgainExactly` says that another success is possible
  exactly while some scan that read before the first was logged still has it ahead
  (`OverlapSucceedsTwice`).
- A workflow entry of the runbook is split while it is offered, and an unclosed quote, in the entry
  or in the evidence that fills it, raises out of the scan; the comment there says that a malformed
  entry just is not offered. A command that is run unattended is split outside the handler that
  audits its failures, and raises as well. `BreaksOnQuote` says when an entry does that (`QuoteBreaks` gives one),
  `ScanRaisesExactly` when a scan ends that way, and `TickReachedExactly` when `hold` never gets to
  its tick. What was offered of a workflow entry does not raise later (`WorkflowStarts`).
- "No flapping" fails when threads overlap: a finding sighted within the grace window is resolved if
  and only if some thread in flight has selected it, will select it late, or still carries an older
  sighting of it (`NoFlappingExactly`).
- `plan_hold` lets the last reflex listed for a category act, `reflex_recurrence` blames the first.
  The churn bound holds exactly when the two have the same name (`ChurnBoundExactly`); it does for
  the one reflex that is built in. When ticks overlap, each tick in flight adds its own budget to
  the bound (`OverlapBound`), and ticks that all look before any logs do exceed the bound of one
  (`OverlapChurns`).
- The decider's gate reads the configured bound, the runner the built-in one. A command the gate
  authorizes under a wider bound is claimed and then refused; `AuthorizedRunsIff` and
  `ActsExactly` say when it runs.
- The comment above `safe_kubectl` says duplicate tokens are rejected. The loop accepts a repeated
  flag and rejects only a second positional; `RepetitionRule` says exactly that, and the model
  follows the loop.
- `run_cleanup` splits the command before it validates it, so an unclosed quote raises after the
  claim and leaves no audit row (`CleanupRaisesExactly`, `CleanupCanCrash`); no row that
  `record_cleanups` writes does that (`RecordedCleanupStarts`).
- The echoed `add-check` and `add-solution` lines lose their argument; `EchoExact` covers them too,
  and says that they read back only without one.

## Model

| member | source | states |
|---|---|---|
| Approval.Ledger | src/steadystate/state.py:554-659 | for every interleaving and fingerprint: entries into PENDING = claims + declines of a pending row + one if still pending; claims and unattended runs = run rows logged + those in flight or crashed; every claim is run at most once; the log is only extended |
| Approval.RunsNeverExceedOffers | src/steadystate/act/approve.py:66-131 | from a fresh store a remediation is never handed to a runner more often than it was put up for approval |
| Approval.AtMostOneClaimPerOffer | src/steadystate/state.py:615-630 | while nothing is offered again, any number of racing approvers get at most one claim |
| Approval.DeclinedStays | src/steadystate/state.py:594-598 | a declined row stays declined and is never claimed, through every continuation, when no offer is between its read and its write |
| Approval.DeclinedAbsorbing | src/steadystate/state.py:558-560 | that condition is exact: if an offer is past its read, one step undoes the decline |
| Approval.DeclineCanBeLost | src/steadystate/state.py:554-578 | from a fresh store, a schedule of nine steps that ends with a declined remediation pending again |
| Approval.RunHonest | src/steadystate/act/approve.py:38-131 | everything stored, held by a thread or logged was offered for its fingerprint; the recorded decision fits the source; break-glass is only held by allowed users |
| Approval.OnlyOfferedVettedRuns | src/steadystate/act/approve.py:66-131 | whatever an approver is about to run was offered for that fingerprint; a catalog or cleanup command that starts is vetted and within the default bound, or recorded as break-glass by an allowed user |
| ApprovalRaces.ClaimedIsReadExactly | src/steadystate/act/approve.py:67-117 | whatever happens between an approver's read and its claim, the command it runs is the remedy of the row it marks approved exactly when the last offer written in between, if any, wrote the same one |
| ApprovalRaces.ApprovedAnother | src/steadystate/state.py:615-630 | from a fresh store, an approver about to run one command while the approved row holds another |
| ApprovalRaces.TwoRunsInFlight | src/steadystate/state.py:554-578 | from a fresh store, a re-offer during a claimed run puts two runs of one fingerprint in flight |
| ApprovalRaces.CleanupRaisesExactly | src/steadystate/act/cleanup.py:168-195 | the cleanup runner raises exactly on a command that does not split, and a vetted one always splits |
| ApprovalRaces.CleanupCanCrash | src/steadystate/act/cleanup.py:173-185 | an approved cleanup that does not split is claimed, crashes and leaves no audit row |
| Approve.AloneIsASchedule | src/steadystate/act/approve.py:54-144 | a procedure run with nothing in between is one of the machine's runs, whatever state the other threads are in |
| Approve.ApproveUntouched | src/steadystate/act/approve.py:67-93 | no pending row, a refused break-glass or an observe-only source: nothing is claimed, run or logged |
| Approve.ApproveRoutedRuns | src/steadystate/act/approve.py:95-131 | otherwise the row is claimed, the command that was read is run, and one row is logged unless the runner raised |
| Approve.ApplyPending | src/steadystate/act/approve.py:54-131 | the imperative procedure has exactly the effect of the machine's statements one after the other, and returns the processes it started; the confirmation it asks for is in the rows on break-glass |
| Approve.RouteFor | src/steadystate/act/approve.py:69-117 | the checks before the claim, in their order; what they amount to is the next row |
| BreakGlass.RouteExactly | src/steadystate/act/approve.py:69-117 | a break-glass row passes the checks exactly for the allowed users, and if its command is a vetted node deletion exactly when its target was typed; every other row needs no confirmation, and a drift an executor |
| BreakGlass.UntypedChangesNothing | src/steadystate/act/approve.py:69-93 | approving a vetted node deletion without typing its target, or as someone who is not allowed, leaves table and log as they were and starts nothing |
| BreakGlass.NodeDeletionWasTyped | src/steadystate/act/approve.py:76-84 | over every interleaving, a thread that holds break-glass for a vetted node deletion was started with the target of the command it runs typed as its confirmation |
| BreakGlass.OutcomeExactly | src/steadystate/act/approve.py:95-131 | what a run comes to, source by source: no outcome when the runner or the splitting raises, a no-op for a drift that is gone, verified for a vetted command that succeeds, failed for everything refused |
| Approve.DeclinePending | src/steadystate/act/approve.py:134-144 | the existing row is declined whatever its status, in the decliner's name, and one entry is logged; nothing is started, and an unknown fingerprint changes nothing |
| Decide.GateExact | src/steadystate/act/decide.py:75-99 | rejected exactly when the named action does not vet the command; otherwise authorized or escalated by the catalog's envelope alone, whoever proposed; what the bound then permits is the next row |
| Decide.GateFollowsText | src/steadystate/act/decide.py:75-99 | behind any committed table and any text, a last pair `r=word` authorizes the vetted commands of the actions that declare r exactly if their impact stands no later than the word in one, service, tenant, node, fleet, and escalates them otherwise; after "none" always |
| Decide.AuthorizedRunsIff | src/steadystate/act/execute.py:46-73 | gate and runner find the same action; an authorized command starts exactly when the default bound allows it, and never raises |
| Decide.SplitIsExact | src/steadystate/act/decide.py:333-356 | every proposal of a batch lands in exactly one of the three lists, as often as it occurred |
| Decide.SelectFilters | src/steadystate/act/decide.py:333-356 | and in the order of the batch |
| Decide.RecordProposals | src/steadystate/act/decide.py:269-298 | the batch is split in order and exactly the authorized part is offered |
| Decide.ProposalIsStored | src/steadystate/act/decide.py:269-298 | afterwards the row of a fingerprint is pending with the identity and the command of its last authorized proposal, under nobody's name and dated as it first was; a declined row, or one no authorized proposal is for, is as it was |
| Decide.ActOnProposals | src/steadystate/act/decide.py:314-356 | the batch is split in order and the authorized part is offered and approved one by one, up to the first runner that raises |
| Decide.ActOneBounded | src/steadystate/act/decide.py:340-351 | one authorized proposal changes nothing if its fingerprint was declined, else at most its own row, one log entry and one process: its own command, within both bounds |
| Decide.ActsExactly | src/steadystate/act/decide.py:340-351 | it does start its command exactly when not declined and within the default bound |
| Decide.BoundedAutonomy | src/steadystate/act/decide.py:314-356 | for every store, batch and outcome: only commands within the gate's policy and the default bound start, each accounted for by an authorized proposal; declined or unconcerned fingerprints keep their row, start nothing and log nothing |
| Reflexes.ReflexRecurrence | src/steadystate/act/reflex.py:114-134 | per reflex name, the number of findings acted on and open again in a category that reflex is first for |
| Reflexes.RecurringExactly | src/steadystate/act/reflex.py:103-134 | a fix counts against the name of the first reflex listed for the finding's stored category, and only while the finding is open although it was acted on |
| Reflexes.ActionableExactly | src/steadystate/act/reflex.py:171-193 | a tick looks at exactly the symptoms of the report's alerts that carry a command the cleanup check accepts, in the order of the report |
| Reflexes.AlertSymptomsJoin | src/steadystate/act/solution_remedy.py:135-136 | the loops go over the symptoms of one alert after the other, signals aside |
| Reflexes.PlanHold | src/steadystate/act/reflex.py:171-261 | each actionable finding gets one decision, in order: escalated exactly when no reflex answers its category, it is too big, its category has more symptoms than a tick may take, the reflex is not trusted any more, or its envelope is outside the bound; else done exactly when the reflex is on auto, and watched otherwise |
| Reflexes.TickWithinBudget | src/steadystate/act/reflex.py:188-261 | in any tick one reflex acts on at most max_per_tick findings, of total size at most max_per_tick * max_per_action, and only while trusted, on auto and within the bound |
| Hold.RunHold | src/steadystate/act/reflex.py:290-321 | a tick plans from the store's own history and carries out the ACT decisions in order through the approve procedure; a dry run changes nothing |
| Hold.ToActFilters | src/steadystate/act/reflex.py:304-321 | exactly the ACT decisions of the plan are carried out, each as often and in the order it has there |
| Hold.HoldContained | src/steadystate/act/reflex.py:312-321 | a tick starts at most one process per ACT decision and touches no row and no log entry of any other fingerprint |
| OwnCommands.HoldRunsPending | src/steadystate/act/reflex.py:312-320 | every process of a tick runs the action its fingerprint's row held, pending, when the tick began |
| OwnCommands.RowBeforeTick | src/steadystate/cli.py:1618-1620 | when the tick begins, an actionable finding's row is as it was if declined, else pending with the runbook's solution if one is offered, and with the cleanup only otherwise |
| OwnCommands.TickRunsExactly | src/steadystate/cli.py:1618-1620 | for every store, report, runbook and outcome, what a tick starts is never for a declined finding, and is the vetted cleanup of the last actionable symptom with its fingerprint if and only if the runbook offers no solution for it; else it is that solution |
| OwnCommands.TickReachedExactly | src/steadystate/cli.py:1618-1620 | the command gets to its tick if and only if no matching entry fails to split and no unattended run raises |
| OwnCommands.TickRunsAuthored | src/steadystate/act/reflex.py:313-320 | where a solution is offered for an actionable finding that was not declined, acting on it starts the authored command |
| OwnCommands.RecordedCleanupStarts | src/steadystate/act/cleanup.py:150-165 | a recorded cleanup never raises or is refused when it is run |
| Hold.ChurnBound | src/steadystate/act/reflex.py:114-134 | over any number of applying ticks in which no fix holds, the distinct findings one reflex has fixed never exceed distrust_after - 1 + max_per_tick |
| Churn.ChurnBoundExactly | src/steadystate/act/reflex.py:103-134 | for a reflex that may act, the churn bound holds of every run if and only if its category is not empty and the first reflex listed for it has its name; otherwise there are runs in which it fixes one more at every tick |
| Churn.EndlessChurn | src/steadystate/act/reflex.py:171-193 | those runs are real ones: from an empty store, each report carries one symptom with a composed, vetted cleanup, its row is the one the scan records, and nothing else happens in between |
| TickOverlaps.OverlapBound | src/steadystate/act/reflex.py:304-321 | over every interleaving of ticks in which no fix holds and at most n are in flight at once, the distinct findings one reflex has fixed never exceed distrust_after - 1 + n * max_per_tick |
| TickOverlaps.OverlapChurns | src/steadystate/act/reflex.py:304-321 | any n ticks that all look before any of them logs fix n findings, however small the trust budget |
| Offers.RecordCleanups | src/steadystate/act/cleanup.py:142-165 | exactly the vetted cleanups of the report's alerts are offered, in order, and counted |
| Offers.CleanupIsStored | src/steadystate/act/cleanup.py:150-165 | right afterwards each actionable finding's row is pending with the identity and the command of the last symptom that carries it, under nobody's name and dated as it first was, unless it was declined; every other row is as it was |
| Offers.RecordSolutions | src/steadystate/act/solution_remedy.py:108-167 | the loop over the report does for each symptom what the next two rows say, in order; an entry that does not split, or a runner that raises, ends the scan there |
| Offers.ChoiceExactly | src/steadystate/act/solution_remedy.py:97-166 | by the first runnable entry that matches: nothing without a command; its command run unattended exactly when that is switched on, the fingerprint was not acted on, the entry is not open content (or the net is lifted) and within the bound; offered otherwise, under the entry's name and author |
| Offers.ComposesEntry | src/steadystate/act/solution_remedy.py:138-152 | for an entry `t0{k1}t1..{kn}tn` whose keys all have values v, the command is `t0 v1 t1 .. vn tn`; of a workflow the same behind the mark, if it parses |
| Offers.BreaksOnQuote | src/steadystate/act/solution_remedy.py:140-149 | a symptom ends the scan while composing exactly when its first runnable entry is a workflow whose filled command has every placeholder filled and does not split |
| Offers.QuoteBreaks | src/steadystate/act/solution_remedy.py:146-149 | a workflow entry that is a lone quote does, whatever the evidence |
| Offers.ScanRaisesExactly | src/steadystate/act/solution_remedy.py:132-166 | whatever the store holds, the scan raises if and only if some symptom's entry does not split or is run unattended and its runner raises |
| Offers.WorkflowStarts | src/steadystate/act/solution_remedy.py:146-152 | the command stored for a workflow entry splits and parses again when it is run |
| Workflow.LackingStays | src/steadystate/act/solution_remedy.py:73-76 | an entry with a placeholder the finding has no value for keeps one after filling, so it is never offered |
| Workflow.FillInserts | src/steadystate/act/solution_remedy.py:60-76 | filling puts the values where their keys stand in braces, leaves a key without a value in its braces, and changes nothing else |
| Locators.LocatesExactly | src/steadystate/act/workflow.py:45-47 | a token locates a workflow exactly when it is an owner, a repository, a file ending in .yml or .yaml and perhaps a reference, with at most one newline after it |
| Workflow.DispatchSplits | src/steadystate/act/workflow.py:37-39 | a marked command splits into the mark and the tokens that were parsed when it was offered |
| Offers.SolutionIsStored | src/steadystate/act/solution_remedy.py:136-166 | after the offers each row holds the last solution offered for it; a declined row, or one nothing was offered for, is as it was |
| Offers.AutoIsGranted | src/steadystate/act/solution_remedy.py:97-105 | a run the scan itself makes unattended is of a vouched solution (or the net is lifted), not of authored content (or the net is lifted), within the bound, not acted on before |
| Offers.ScanGainsExactly | src/steadystate/act/solution_remedy.py:130-167 | a scan that did not raise gains exactly one unattended success of a fingerprint per symptom that carries it, is chosen to run and takes effect |
| Offers.ScanAutoBound | src/steadystate/act/solution_remedy.py:131-167 | one scan logs at most as many unattended successes of a fingerprint as the report carries it, none if it was already acted on |
| Offers.SucceedsOnce | src/steadystate/act/solution_remedy.py:121-126 | over any number of scans, each begun after the one before ended with anything else logged in between, a solution succeeds unattended at most once for a fingerprint no report carries twice |
| Offers.CarriedTwiceRunsTwice | src/steadystate/act/solution_remedy.py:129-165 | any report with two symptoms of a fingerprint whose solutions run and take effect succeeds twice |
| Overlaps.SucceedsAgainExactly | src/steadystate/act/solution_remedy.py:129-165 | once a fingerprint was acted on, whatever scans overlap or begin later, another unattended success can follow if and only if some scan that read `already` before still has a symptom of it ahead that runs, can be started, and comes after nothing that must raise |
| Overlaps.OverlapSucceedsTwice | src/steadystate/act/solution_remedy.py:129-165 | two scans that carry a symptom once each and both read before either logs succeed twice |
| Lifecycle.ResolvesExactly | src/steadystate/state.py:388-424 | a scan that runs with nothing in between resolves a finding exactly when it was open, absent, not committed as muted, and last_seen + grace <= now (a case analysis, on which the next two rows rest) |
| Lifecycle.NoFlapping | src/steadystate/reconcile_state.py:30-37 | over any run of events one after the other, with a clock that does not go back, a finding sighted within less than grace before every scan that misses it is never auto-resolved |
| Lifecycle.ReportedOnce | src/steadystate/state.py:391-395 | when scans do not overlap, between two reports of the same finding as resolved it was sighted or unmuted |
| Lifecycle.ScansKeepIntent | src/steadystate/state.py:371-386 | through any sequence of scans and probes, none begun before the operator acted, a mute keeps its note and actor, and a snooze survives every scan before it lapses |
| Lifecycle.RecordingKeepsSuppression | src/steadystate/state.py:291-308 | recording at a time changes no answer of is_suppressed from that time on (a case analysis, used for committed mutes) |
| Lifecycle.RunsKeepInvariants | src/steadystate/state.py:312-506 | in every table reached by events one after the other snooze_until is set exactly while snoozed, first_seen never changes and no row disappears |
| Lifecycle.CommittedInForce | src/steadystate/mutes.py:88-101 | after any scan or probe, even on an empty store, every committed mute is in force and importing again applies nothing |
| Fields.SightedRow | src/steadystate/state.py:333-369 | a sighted row shows the sighting's severity, title and time, and its evidence unless that is empty; a known one keeps its first sighting, note and name, and its status unless it was resolved or its snooze lapsed |
| Fields.UnsightedRow | src/steadystate/state.py:333-369 | every other row is as it was |
| Fields.DecidedRow | src/steadystate/state.py:472-506 | an operator's decision is written as given and leaves what was detected alone |
| Fields.LiftedRow | src/steadystate/state.py:437-448 | an unmute opens a known row, whatever it was, and clears the decision |
| Fields.EventExactly | src/steadystate/reconcile_state.py:163-209 | a scan imports the committed mutes, then records, then resolves what it did not see, in that order; a probe resolves nothing |
| Fields.ResolvedRow | src/steadystate/state.py:388-424 | only an open row that was not sighted for the grace window is resolved, and nothing but its status and time changes |
| Fields.CommittedRow | src/steadystate/mutes.py:88-101 | a committed mute is written, with its note and author, exactly where nothing is in force yet |
| Concurrent.RunsGrow | src/steadystate/state.py:312-506 | in every interleaving of the statements no row disappears and no first_seen changes |
| Concurrent.SnoozeEndExactly | src/steadystate/state.py:409-424 | over every interleaving, snooze_until is set exactly while snoozed at every point if and only if no resolving UPDATE lands on a row snoozed since its selection |
| Concurrent.IntentSurvivesExactly | src/steadystate/state.py:333-386 | a mute or snooze in force survives every continuation by scans and probes, with note and actor, if and only if no thread is past its read or selection of the row with something else to write |
| Flapping.NoFlappingExactly | src/steadystate/state.py:340-424 | an open finding nobody decides about is never found resolved, whatever starts within the grace window of its last sighting, if and only if no thread in flight has selected it, will select it at least a grace window after that sighting, or still carries an older sighting of it |
| Concurrent.ReportedOnce | src/steadystate/state.py:391-424 | between two reports of the same finding a sighting or an unmute wrote its row open, or the first reporter had not yet resolved it |
| Concurrent.SecondReportExactly | src/steadystate/state.py:409-424 | while no other thread writes the row it stays as selected until its own UPDATE and is resolved from then on; a second selection that misses it reports it again exactly while that UPDATE is owed |
| Races.SnoozeCanBeLost | src/steadystate/state.py:411-424 | from an empty store, a snooze between selection and UPDATE ends resolved with its snooze end set |
| Races.MuteCanBeLost | src/steadystate/state.py:340-366 | from an empty store, a mute between the read and the write of a sighting ends open and unsuppressed, its note left behind |
| Races.ReportedTwice | src/steadystate/state.py:411-424 | from an empty store, two scans that both select before either resolves report the finding twice |
| ScanAlone.ScanIsOneEvent | src/steadystate/reconcile_state.py:173-201 | a scan whose statements run with nothing in between, in any order of its dictionaries, takes the table through exactly one lifecycle event, whatever the other threads hold |
| IsoTime.TextOrderIsTimeOrder | src/steadystate/state.py:131-133 | for all UTC datetimes the isoformat texts compare as texts exactly as the instants do, and are equal exactly when the instants are |
| IsoTime.ParseOfIso | src/steadystate/reconcile_state.py:239-240 | parsing the text the store wrote gives the same datetime back |
| Rows.RecordRefines | src/steadystate/state.py:312-386 | recording on texts is recording on instants |
| Rows.AbsentRefines | src/steadystate/state.py:409-418 | the text comparison with the cutoff selects exactly the findings quiet for the grace window |
| Rows.ResolveRefines | src/steadystate/state.py:419-424 | flipping the selected rows is resolving them in the table of instants |
| Rows.SuppressedRefines | src/steadystate/state.py:291-308 | comparing now with snooze_until as texts decides suppression by time |
| Rows.UpsertRefines | src/steadystate/state.py:472-506 | an operator's write on texts is the write on instants |
| Rows.UnmuteRefines | src/steadystate/state.py:437-448 | so is an unmute, which also reopens a resolved row |
| Store.StateStore.Suppresses | src/steadystate/state.py:291-308 | true exactly when the finding is muted or its snooze has not lapsed |
| Store.StateStore.Record | src/steadystate/state.py:312-369 | new table as specified; every sighted row afterwards has the sighting's severity and title, and its evidence when that is not empty; per sighted fingerprint whether it is new, its first_seen and its status |
| Store.StateStore.UpsertSeen | src/steadystate/state.py:333-369 | the loop inserts or refreshes each sighted row once and leaves the others |
| Store.StateStore.ResolveAbsent | src/steadystate/state.py:388-424 | resolves exactly the absent quiet open findings and returns each once; raises before reading anything exactly when the grace window reaches before the first representable date |
| Store.StateStore.SelectAbsent | src/steadystate/state.py:411-418 | the selection before any row is flipped |
| Store.StateStore.FlipResolved | src/steadystate/state.py:419-424 | the selected rows become resolved and stamped, the others stay |
| Store.StateStore.UpsertStatus | src/steadystate/state.py:472-506 | creates or overwrites the operator's part of the row and stamps last_seen |
| Store.StateStore.Mute | src/steadystate/state.py:428-435 | mutes, clearing any snooze |
| Store.StateStore.Snooze | src/steadystate/state.py:450-459 | snoozes until the given time, dropping the note |
| Store.StateStore.Resolve | src/steadystate/state.py:461-470 | resolves by hand, keeping the operator's note |
| Store.StateStore.Unmute | src/steadystate/state.py:437-448 | reopens and clears note, actor and snooze; nothing on an unknown fingerprint |
| Store.StateStore.GetPending | src/steadystate/state.py:580-584 | the row, if any |
| Store.StateStore.RecordPending | src/steadystate/state.py:554-578 | re-offers unless declined, keeping the creation time |
| Store.StateStore.ClaimPending | src/steadystate/state.py:615-630 | compare-and-set on the status; true exactly when this call moved it |
| Store.StateStore.SetDeclined | src/steadystate/state.py:594-598 | declines an existing row whatever its status |
| Store.StateStore.RecordAudit | src/steadystate/state.py:643-659 | appends one entry |
| PendingActions.OfferedRow | src/steadystate/state.py:554-578 | column by column: an offer leaves a declined row alone; else the row is pending with the offered remedy, nobody's name and the time it was first created |
| PendingActions.ClaimedRow | src/steadystate/state.py:615-630 | a claim wins exactly on a pending row, which keeps its remedy and time and gets the claimer's name |
| PendingActions.DeclinedRow | src/steadystate/state.py:594-598 | a decline marks an existing row whatever its status, under the decliner's name, and makes none |
| PendingActions.ActedExactly | src/steadystate/state.py:632-641 | a fingerprint was acted on exactly when some entry of its was verified or applied |
| Reports.SeenExactly | src/steadystate/reconcile_state.py:114-132 | a scan records exactly the member and group fingerprints of its items, signals included |
| ReconcileState.ApplyCommittedMutes | src/steadystate/mutes.py:88-101 | mutes every committed fingerprint not already suppressed, touches no other, and counts them |
| ReconcileState.SeenFindings | src/steadystate/reconcile_state.py:114-132 | the nested loops fill the dictionary, the last writer of a fingerprint winning |
| ReconcileState.FindingEvidence | src/steadystate/reconcile_state.py:135-160 | the same for the evidence: a drift's change and kind, a symptom's fields unless empty, a group's places, workload, kind and category |
| Remembered.SightingExactly | src/steadystate/reconcile_state.py:114-160 | the last item that carries a fingerprint gives it its severity and title, and the last item that explains it its evidence |
| Strings.AfterLastExactly | src/steadystate/reconcile_state.py:156 | the workload of a group is the part of the identity after its last slash and then after the last point of that |
| ReconcileState.AlertSuppressed | src/steadystate/reconcile_state.py:92-102 | withheld exactly when the group key is suppressed or there are members and all of them are |
| Remembered.WithheldExactly | src/steadystate/reconcile_state.py:92-102 | by the rows themselves: an alert is withheld exactly when its group is muted or in a running snooze, or it has members and every one is |
| ReconcileState.Annotate | src/steadystate/reconcile_state.py:212-236 | first_seen is the earliest of the known members', status the strongest operator state among them; an alert without known members is left alone |
| Remembered.SummaryExactly | src/steadystate/reconcile_state.py:212-236 | the status shown is muted if a member is, else snoozed if one is, and never resolved |
| ReconcileState.RecordScan | src/steadystate/reconcile_state.py:173-187 | committed mutes first, then every sighting; the state handed back describes the table left |
| ReconcileState.SurviveAndAnnotate | src/steadystate/reconcile_state.py:189-199 | the unsuppressed alerts in order, annotated in place; every other alert unchanged |
| ReconcileState.UnsuppressedExactly | src/steadystate/reconcile_state.py:189-199 | the alerts that survive are exactly the others, each as often and in the order it had |
| ReconcileState.ResolveScan | src/steadystate/reconcile_state.py:201-209 | the cleared findings, each listed once with its stored title, unless resolving raises |
| ReconcileState.Reconcile | src/steadystate/reconcile_state.py:163-209 | the store takes one lifecycle step; the items left are the signals, then exactly the unsuppressed alerts, in order; the resolved findings are listed once; if resolving raises, all before it is done |
| Sweep.SweepTargets | src/steadystate/sweep.py:70-142 | one reconcile over the union of the live reports; per target its alerts and, as new, its surfaced alerts first seen now (any other as it was marked); nothing is touched when stateless or nothing answered |
| Sweep.Digest | src/steadystate/sweep.py:124-138 | one line per target in order, unreachable ones with zero counts |
| Sweep.LineExactly | src/steadystate/sweep.py:124-138 | a line counts the alerts of the target's own report, signals aside, and the new ones among them; a target that did not answer has none |
| Sweep.AnyLiveExactly | src/steadystate/sweep.py:107-114 | the sweep reconciles only if some target answered |
| Sweep.LiveNeverResolved | src/steadystate/sweep.py:107-121 | no finding that any live report carries is resolved by the sweep |
| Sweep.NewMeansNew | src/steadystate/sweep.py:129 | for every store a surfaced alert counts as new exactly when no member was known from before this instant and some member is unknown or from this very instant |
| Mutes.ExportMutes | src/steadystate/mutes.py:121-144 | adds exactly the permanent mutes the file lacks, returns how many and how many there are, and writes only when something was added |
| Mutes.MutesSurvive | src/steadystate/mutes.py:1-6 | once exported, a mute is in force after any scan of any other store that reads the file; exporting again adds nothing; existing entries are untouched |
| Mutes.MutesCarryOver | src/steadystate/mutes.py:88-144 | the entry carries title, author, note and day of the mute, and the row another store imports from it the author and note, or their defaults when empty |
| Kubectl.SafeKubectl | src/steadystate/act/cleanup.py:75-129 | the token loop accepts exactly the commands of the grammar's reading |
| Kubectl.LanguageOfAccepts | src/steadystate/act/cleanup.py:75-129 | a command is accepted exactly when it has no metacharacter and its tokens are the verb followed by a sentence: every required flag with its exact value, allowed flags with well-formed values, the positional once if the shape has one, the namespace rule |
| Kubectl.AcceptanceIgnoresSpelling | src/steadystate/act/cleanup.py:44-51 | acceptance of tokens does not depend on the order of the items nor on --k=v against --k v |
| Kubectl.AcceptedCommandRespelled | src/steadystate/act/cleanup.py:83-89 | the same for whole command strings |
| Kubectl.RepetitionRule | src/steadystate/act/cleanup.py:100-124 | a flag may be repeated, the positional may not |
| Shlex.CheckedIsRun | src/steadystate/act/cleanup.py:90-92 | splitting an accepted command for execution never raises, and gives the checked tokens exactly when its only whitespace is the space |
| Quoting.WritingReads | src/steadystate/act/cleanup.py:173-185 | words written bare, escaped or quoted and kept apart by blanks are read back as what they mean, and the splitting raises exactly when a quotation or a backslash is left open |
| Quoting.SplitExactly | src/steadystate/act/cleanup.py:173-185 | every text is written so, which settles the splitter for all texts |
| Catalog.ActionsDisjoint | src/steadystate/act/catalog.py:40-86 | no command at all is accepted by two catalog actions |
| Catalog.ActionForCommandExact | src/steadystate/act/catalog.py:288-292 | the lookup by command finds an action exactly when that action accepts it |
| Language.LanguageExactly | src/steadystate/act/catalog.py:36-86 | in words, action by action: a command is accepted exactly when it has no shell syntax and its words are the action's opening and then, in any order, the one thing it acts on, the flag value it insists on, and well-formed namespace, context and kubeconfig |
| Strings.SplitExactly | src/steadystate/act/cleanup.py:92 | the words a command is checked by are those between any whitespace |
| Strings.SpacesExactly | src/steadystate/act/cleanup.py:92 | the characters that count as whitespace, one by one |
| Compose.PrintedAccepted | src/steadystate/act/catalog.py:106-154 | whatever a composer prints from fields in their character classes is accepted by that action |
| Compose.ComposedReadsBack | src/steadystate/act/catalog.py:106-154 | the printed command is accepted and reads back as the same target, namespace, context and kubeconfig exactly when the fields are in their classes |
| Language.PrintsExactly | src/steadystate/act/catalog.py:106-154 | to the letter, what each action prints for a finding, and nothing when the finding lacks what the command names |
| Compose.CatalogNothingEmpty | src/steadystate/act/catalog.py:40-86 | no catalog shape accepts an empty value, so the spelling theorems apply to all of them (by inspection of the five) |
| Bounds.BoundFromEnv | src/steadystate/act/bounds.py:146-170 | the active bound is the default overlaid with the committed table and then the pairs of the text, left to right, bare pieces skipped |
| Bounds.OverlayLastWord | src/steadystate/act/bounds.py:131-143 | a misspelt pair never moves the bound; the last well-spelt pair for a reversibility decides it |
| Bounds.LastPairDecides | src/steadystate/act/bounds.py:131-170 | on texts: a pair added at the end decides its reversibility and nothing else, and nothing at all if either side is not a known word |
| Strings.StripExactly | src/steadystate/act/bounds.py:135-138 | the names of a pair are looked up without the whitespace at their ends |
| Strings.LowerExactly | src/steadystate/act/bounds.py:135-138 | and with each capital replaced by the letter at its place in the alphabet, nothing else |
| Bounds.WithinExactly | src/steadystate/act/bounds.py:90-105 | within the bound means an impact no later than the ceiling in the list of impacts; the default permits lossless up to a tenant, self-healing up to a service, and nothing else |
| Bounds.TierExactly | src/steadystate/act/bounds.py:108-119 | the typed confirmation is asked for exactly outside the bound, for what cannot be undone or reaches a node or the fleet; none at all exactly within it |
| Execute.CatalogStartsVetted | src/steadystate/act/execute.py:34-73 | a catalog command starts exactly when some action vets it and it is within the default bound or the glass was broken; the runner never raises before that; which actions that bound leaves is the next row |
| Execute.UnattendedStartsExactly | src/steadystate/act/execute.py:34-73 | without break-glass exactly the two pod cleanups and the rollout restart ever start, whatever bound was configured: nothing is scaled and no node deleted |
| Execute.CleanupStartsVetted | src/steadystate/act/cleanup.py:168-190 | a cleanup starts exactly when it is a vetted cleanup |
| Grammar.CommandFromText | src/steadystate/inbound/base.py:415-465 | the first verb whose requirements are met wins |
| Vocabulary.VerbOfExactly | src/steadystate/inbound/base.py:415-465 | which words name which verb, letter case aside |
| Vocabulary.ScanExactly | src/steadystate/inbound/base.py:415-465 | a line is read at its first word that names a verb whose requirements the rest meets, with the arguments and modifiers of that rest, and is no command exactly when there is none |
| Grammar.EchoExact | src/steadystate/inbound/base.py:415-465 | for every effectful verb and all texts, the canonical line parses back to the same verb and arguments exactly when they fit: plain non-flag words where tokens are read, single-spaced text where the rest is verbatim |
| Inbound.ModelCannotInterfere | src/steadystate/inbound/server.py:82-116 | whatever the model replies, the effectful command that runs is none on an unverified request, the operator's own confidently typed one on the free-text path, else the adapter's parse; two replies never differ in it (by cases; the next row is the harder half) |
| Inbound.EchoRunsExactly | src/steadystate/inbound/translate.py:229-261 | an effectful verb named by the model is only echoed; sending the echo runs exactly that command if and only if its arguments fit and its reference has the shape of one |
| Inbound.ReplyExactly | src/steadystate/inbound/translate.py:220-261 | a verb of the vocabulary is run with stripped arguments if it is read-only and echoed if it is not; anything else is answered by the clarification, else the answer, else by saying that nothing was understood |
| Inbound.ConfidentExactly | src/steadystate/inbound/translate.py:60-95 | what is confidently typed is what was parsed, unless a question does not lead with "ask" or a verb that names a finding is given something that has not the shape of a reference |
| Inbound.ReferenceExactly | src/steadystate/inbound/translate.py:60-65 | a reference is digits only, or at least four hexadecimal digits in any letter case |
| Inbound.DispatchedExactly | src/steadystate/inbound/server.py:82-116 | the order of the answer: signature, handshake, the typed or translated message, the adapter's parse; only a probe is put off |
| Patch.FilesFromPatch | src/steadystate/act/artifact.py:47-73 | the line loop with its flushes |
| Patch.PatchRoundTrip | src/steadystate/act/artifact.py:76-94 | for any list of distinct paths, reading the concatenated patches back gives every path with its content brought to a final newline, if and only if paths and contents break only at newlines and no content line starts with "++" |
| Patch.HunkCounts | src/steadystate/act/artifact.py:84-93 | the hunk header announces exactly the added lines that follow |
| Strings.DigitsExactly | src/steadystate/act/artifact.py:92 | the count in the header is written in decimal digits that read back as it |
| Sections.SplitLinesExactly | src/steadystate/act/artifact.py:63 | lines are what stands between the listed line ends, a carriage return and the newline after it being one |
| Sections.FilesExactly | src/steadystate/act/artifact.py:47-73 | of any patch: its last section adds a file exactly if it says the old side is /dev/null and names a path; the path is the last one named, the content its added lines in order |
| Sections.HeadExactly | src/steadystate/act/artifact.py:47-73 | what stands before the first section is one by the same rule |
| Diff.ReconcileLists | src/steadystate/reconcile.py:13-54 | the two loops, in dictionary order; what the drifts show is in the rows below |
| Diff.DiffCovers | src/steadystate/reconcile.py:18-52 | exactly one drift for each identity on which the two sides differ, of the right change type, and none for any other; the next rows say what each one shows |
| Diff.DiffApplies | src/steadystate/reconcile.py:13-54 | applying the drifts to the observed side gives the declared side; no drift exactly when the two agree on properties |
| Diff.DiffReverts | src/steadystate/reconcile.py:13-54 | undoing the drifts, each to its observed side, on the declared side gives the observed side |
| Diff.DriftsExactly | src/steadystate/reconcile.py:13-54 | entry by entry: each drift has kind, provenance and properties of the last entries with its identity in the two lists; an identity has exactly one drift if the lists disagree about it, and none otherwise |
| Diff.DriftsInOrder | src/steadystate/reconcile.py:18-52 | declared identities first, then those only observed, each in the order they are first listed |
| Like.EscapedIsEach | src/steadystate/state.py:266-275 | the three chained replaces equal one character-by-character escape |
| Like.PrefixMeansPrefix | src/steadystate/state.py:266-275 | the escaped pattern matches exactly the fingerprints that start with the prefix, ASCII letter case aside |
| Like.ExactOnLowerCase | src/steadystate/state.py:266-275 | on lower-case fingerprints and prefixes the lookup is exact |

## Left out

- SQLite, WAL and Python threads: each SQL statement is one atomic step on a map or a sequence; the order of a result is arbitrary unless the query sorts.
- Network, subprocesses and executors: a run's result (verified, applied, failed, raised) is a parameter; the drift executors are not looked into.
- The environment and configuration files (users, reflex and solution switches, grace): parameters, already parsed; of the bound the pairs of the committed table are given and its text form is read (`BoundFromEnv`).
- SHA-256 fingerprints: given identifiers.
- The language model, prompts and JSON extraction: the reply's fields are arbitrary.
- Messages, titles composed for humans, the audit's detail text and the console output.
- `group_symptom_alerts`, the copy of the sweep's report regrouped for emission.
- Which solutions match a symptom, and reading the runbook file: a function from symptoms to entries; the fields a dispatch takes from its specification are not looked at.
- `_action_size`, the reading of a pod count from evidence: an arbitrary integer function, so every result holds for it.
- `propose_for`, which drops the symptoms a reflex owns before the gate sees them.
- The stored analyses, spend telemetry, learning and metrics tables of the store.
- IsoTime.ParseOfIso: only the layouts the store itself writes (UTC, with or without a six-digit fraction); other ISO forms are never read back.
- Sweep.SweepTargets: the per-target alert counts are those of the target's own report, as in the program, so silenced alerts are counted there.
- Hold.ChurnBound: requires the acting reflex to be the blamed one; `ChurnBoundExactly` shows that the bound fails otherwise. Ticks follow one another; `TickOverlaps` has those that do not.
- OwnCommands.TickRunsExactly: the three steps of the command run without another process in between; what interleaving adds is in `Approval` and `ApprovalRaces`.
- Offers.SucceedsOnce: scans that follow one another; `Overlaps` has those that do not.
- Lifecycle.NoFlapping: events that follow one another; `NoFlappingExactly` has those that do not.
- Flapping.NoFlappingExactly: for a finding nobody decides about meanwhile; `IntentSurvivesExactly` has the others.
- TickOverlaps.OverlapBound: an approval of a tick is one move that logs at most one row of its fingerprint; how it interleaves is in `Approval`.
- Approval.Ledger: the log rows of outward actions (a workflow dispatch or a request made in chat), which carry no fingerprint and never touch the table, are not among the machine's moves.
- Shlex.CheckedIsRun: the splitter is the POSIX quoting machine of Python's `shlex`, whose source is not part of this model.
- Grammar.EchoExact: letter case is folded for ASCII only; Python also folds other alphabets, and reads other decimal digits as ordinals.
- Like.PrefixMeansPrefix: the LIKE operator is SQLite's documented one, with its ASCII case folding and no other collation.
