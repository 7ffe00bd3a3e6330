/** The pending-actions table and the audit log. */
module PendingActions {
  // Their rows, and the effect of each SQL statement `StateStore` issues on them.

  import opened Text

  type Fingerprint = string
  type Stamp = string

  /** Where a pending action came from; `approve` routes on it. */
  datatype Source = BreakGlassSource | SolutionSource | CleanupSource | CatalogSource | DriftSource(name: string)

  /** A remediation offered for approval. */
  datatype Remedy = Remedy(
    source: Source,
    path: string,
    identity: string,
    command: string,
    environment: Option<string>,
    patch: Option<string>)

  datatype Status = Pending | Approved | Declined

  datatype Row = Row(action: Remedy, status: Status, createdAt: Stamp, actor: Option<string>)

  datatype Decision = ApprovedBy | DeclinedBy | BreakGlassBy
  datatype Outcome = Verified | Applied | Failed | Noop | NotRun

  datatype Audit = Audit(
    at: Stamp,
    fingerprint: Fingerprint,
    action: Remedy,
    actor: string,
    decision: Decision,
    outcome: Outcome)

  datatype Db = Db(pending: map<Fingerprint, Row>, audit: seq<Audit>)

  predicate IsPending(db: Db, fp: Fingerprint) {
    fp in db.pending && db.pending[fp].status.Pending?
  }

  predicate IsDeclined(db: Db, fp: Fingerprint) {
    fp in db.pending && db.pending[fp].status.Declined?
  }

  function GetPending(db: Db, fp: Fingerprint): Option<Row> {
    if fp in db.pending then Some(db.pending[fp]) else None
  }

  /** `record_pending`, first half: what the SELECT decides. None means "already declined, do
      not re-offer"; otherwise the creation stamp the INSERT will carry. */
  function OfferStamp(db: Db, fp: Fingerprint, now: Stamp): Option<Stamp> {
    if IsDeclined(db, fp) then None
    else Some(if fp in db.pending then db.pending[fp].createdAt else now)
  }

  /** `record_pending`, second half: INSERT OR REPLACE, whatever the row has become. */
  function InsertOffer(db: Db, fp: Fingerprint, action: Remedy, created: Stamp): Db {
    db.(pending := db.pending[fp := Row(action, Pending, created, None)])
  }

  /** `record_pending` with nothing between its two statements. */
  function Offered(db: Db, fp: Fingerprint, action: Remedy, now: Stamp): Db {
    match OfferStamp(db, fp, now)
    case None => db
    case Some(created) => InsertOffer(db, fp, action, created)
  }

  /** `claim_pending`: the conditional UPDATE; it looks at the status, not at the action. */
  function Claim(db: Db, fp: Fingerprint, actor: string): (Db, bool) {
    if IsPending(db, fp) then
      (db.(pending := db.pending[fp := db.pending[fp].(status := Approved, actor := Some(actor))]), true)
    else (db, false)
  }

  /** `set_pending_status(fp, DECLINED, actor)`: an unconditional UPDATE. */
  function Decline(db: Db, fp: Fingerprint, actor: string): Db {
    if fp in db.pending
    then db.(pending := db.pending[fp := db.pending[fp].(status := Declined, actor := Some(actor))])
    else db
  }

  /** `record_audit` */
  function Append(db: Db, entry: Audit): Db {
    db.(audit := db.audit + [entry])
  }

  /** An entry of a run that took effect. */
  predicate TookEffect(entry: Audit) {
    entry.outcome.Verified? || entry.outcome.Applied?
  }

  /** `acted_fingerprints` */
  function ActedFingerprints(audit: seq<Audit>): set<Fingerprint> {
    set i | 0 <= i < |audit| && TookEffect(audit[i]) :: audit[i].fingerprint
  }

  // -- The rows, column by column --------------------------------------------------------------------

  /** An offer leaves a declined row alone; otherwise the row is pending with the offered remedy and
      nobody's name, under the time it was first created. */
  lemma OfferedRow(db: Db, fp: Fingerprint, action: Remedy, now: Stamp)
    ensures var after := Offered(db, fp, action, now);
            && after.audit == db.audit
            && (forall other :: other != fp ==> GetPending(after, other) == GetPending(db, other))
            && if fp in db.pending && db.pending[fp].status.Declined? then GetPending(after, fp) == GetPending(db, fp)
               else GetPending(after, fp) ==
                    Some(Row(action, Pending, if fp in db.pending then db.pending[fp].createdAt else now, None))
  {
  }

  /** A claim moves a pending row to approved, under the claimer's name, and keeps remedy and time;
      any other row it leaves, and does not win. */
  lemma ClaimedRow(db: Db, fp: Fingerprint, actor: string)
    ensures var (after, won) := Claim(db, fp, actor);
            && after.audit == db.audit
            && (forall other :: other != fp ==> GetPending(after, other) == GetPending(db, other))
            && (won <==> fp in db.pending && db.pending[fp].status.Pending?)
            && GetPending(after, fp) ==
               if won then Some(Row(db.pending[fp].action, Approved, db.pending[fp].createdAt, Some(actor))) else GetPending(db, fp)
  {
  }

  /** A decline marks an existing row whatever its status, under the decliner's name. */
  lemma DeclinedRow(db: Db, fp: Fingerprint, actor: string)
    ensures var after := Decline(db, fp, actor);
            && after.audit == db.audit
            && (forall other :: other != fp ==> GetPending(after, other) == GetPending(db, other))
            && GetPending(after, fp) ==
               if fp in db.pending then Some(Row(db.pending[fp].action, Declined, db.pending[fp].createdAt, Some(actor))) else None
  {
  }

  /** A fingerprint has been acted on exactly when some entry of its has an outcome that took effect. */
  lemma ActedExactly(audit: seq<Audit>, fp: Fingerprint)
    ensures fp in ActedFingerprints(audit) <==>
            exists e :: e in audit && e.fingerprint == fp && e.outcome in {Verified, Applied}
  {
    if e :| e in audit && e.fingerprint == fp && e.outcome in {Verified, Applied} {
      var i :| 0 <= i < |audit| && audit[i] == e;
      assert TookEffect(audit[i]) && audit[i].fingerprint == fp;
    }
  }
}
