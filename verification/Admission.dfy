/** Which statements the database accepts, in ordinary conditions: for each statement an if and only if that
    mentions no CHECK, key, trigger or interlock predicate of the schema model. */
module Admission {
  import opened Wrappers
  import opened Schema
  import opened SchemaProofs
  import opened SchemaTheorems
  import opened Supersession
  import opened RowChecks

  lemma ExceptionAdmittedIff(db: Db, id: Id)
    ensures Admits(db, InsertException(id)) <==> id !in db.exceptions
  {}

  /** No other decision has this version of the exception, or this token. */
  ghost predicate DecisionIsNew(db: Db, id: Id, r: Approval) {
    forall k :: k in db.approvals && k != id ==>
      && db.approvals[k].token != r.token
      && (db.approvals[k].exceptionId == r.exceptionId ==> db.approvals[k].version != r.version)
  }

  /** A decision is recorded when it is sound, new, about a known exception, and every operation of the
      exception below its version is released. */
  lemma DecisionAdmittedIff(db: Db, id: Id, r: Approval)
    requires Consistent(db)
    ensures Admits(db, InsertApproval(id, r)) <==>
            && id !in db.approvals && SoundApproval(r) && r.exceptionId in db.exceptions
            && DecisionIsNew(db, id, r) && LowerReleased(db, r.exceptionId, r.version, None)
  {
    ApprovalChecksIff(r);
    InterlockExact(db, r.exceptionId, r.version);
    NothingAside(db, r.exceptionId, r.version);
    assert ApprovalUnique(db, id, r) <==> DecisionIsNew(db, id, r);
  }

  /** A decision is revised when it stays sound and new, and keeps its treatment and principal if an adjustment
      was built on it. */
  lemma RevisionAdmittedIff(db: Db, id: Id, r: Approval)
    ensures Admits(db, UpdateApproval(id, r)) <==>
            && id in db.approvals && SoundApproval(r) && r.exceptionId in db.exceptions
            && DecisionIsNew(db, id, r)
            && ((exists a :: a in db.adjustments && db.adjustments[a].approvalId == id) ==>
                  r.treatment == db.approvals[id].treatment && r.principal == db.approvals[id].principal)
  {
    ApprovalChecksIff(r);
    assert ApprovalUnique(db, id, r) <==> DecisionIsNew(db, id, r);
  }

  /** The decision said this treatment, by this principal, and nothing else carries it out or has this
      operation identifier. */
  ghost predicate CarriesOutAlone(db: Db, id: Id, r: Adjustment) {
    && r.approvalId in db.approvals
    && db.approvals[r.approvalId].treatment == Some(r.treatment)
    && db.approvals[r.approvalId].principal == r.approvingPrincipal
    && forall k :: k in db.adjustments && k != id ==>
         db.adjustments[k].operationId != r.operationId && db.adjustments[k].approvalId != r.approvalId
  }

  lemma AdjustmentAdmittedIff(db: Db, id: Id, r: Adjustment)
    ensures Admits(db, InsertAdjustment(id, r)) <==>
            id !in db.adjustments && SoundAdjustment(r) && CarriesOutAlone(db, id, r)
  {
    AdjustmentChecksIff(r);
    assert AdjustmentUnique(db, id, r) && AdjustmentRefers(db, r) <==> CarriesOutAlone(db, id, r);
  }

  /** Once sent or asked about, an adjustment keeps its operation identifier; once in recovery, its principal. */
  lemma AdjustmentRevisedIff(db: Db, id: Id, r: Adjustment)
    ensures Admits(db, UpdateAdjustment(id, r)) <==>
            && id in db.adjustments && SoundAdjustment(r) && CarriesOutAlone(db, id, r)
            && ((exists k :: k in db.attempts && db.attempts[k].adjustmentId == id) ==>
                  r.operationId == db.adjustments[id].operationId)
            && ((exists k :: k in db.queries && db.queries[k].adjustmentId == id) ==>
                  r.operationId == db.adjustments[id].operationId)
            && ((exists k :: k in db.recovery && db.recovery[k].adjustmentId == id) ==>
                  r.approvingPrincipal == db.adjustments[id].approvingPrincipal)
  {
    AdjustmentChecksIff(r);
    assert AdjustmentUnique(db, id, r) && AdjustmentRefers(db, r) <==> CarriesOutAlone(db, id, r);
  }

  ghost predicate OnlyIntentFor(db: Db, id: Id, r: Outbox) {
    && r.adjustmentId in db.adjustments
    && forall k :: k in db.outbox && db.outbox[k].adjustmentId == r.adjustmentId ==> k == id
  }

  lemma IntentAdmittedIff(db: Db, id: Id, r: Outbox)
    ensures Admits(db, InsertOutbox(id, r)) <==>
            id !in db.outbox && SoundOutbox(r) && OnlyIntentFor(db, id, r)
  {
    OutboxChecksIff(r);
    assert OutboxUnique(db, id, r) && OutboxRefers(db, r) <==> OnlyIntentFor(db, id, r);
  }

  /** A terminal outcome stays, and so does settled; every other move of a sound intent is open. */
  lemma IntentMovedIff(db: Db, id: Id, r: Outbox)
    ensures Admits(db, UpdateOutbox(id, r)) <==>
            && id in db.outbox && SoundOutbox(r) && OnlyIntentFor(db, id, r)
            && (db.outbox[id].lastOutcome in {Some(Confirmed), Some(Declined)} ==>
                  r.lastOutcome == db.outbox[id].lastOutcome)
            && (db.outbox[id].state == Settled ==> r.state == Settled)
  {
    OutboxChecksIff(r);
    assert OutboxUnique(db, id, r) && OutboxRefers(db, r) <==> OnlyIntentFor(db, id, r);
  }

  ghost predicate NumberedSend(db: Db, id: Id, r: Attempt) {
    && r.adjustmentId in db.adjustments && db.adjustments[r.adjustmentId].operationId == r.operationId
    && forall k :: k in db.attempts && k != id && db.attempts[k].adjustmentId == r.adjustmentId ==>
         db.attempts[k].attemptNo != r.attemptNo
  }

  lemma AttemptAdmittedIff(db: Db, id: Id, r: Attempt)
    ensures Admits(db, InsertAttempt(id, r)) <==>
            id !in db.attempts && SoundAttempt(r) && NumberedSend(db, id, r)
  {
    AttemptChecksIff(r);
    assert AttemptUnique(db, id, r) && AttemptRefers(db, r) <==> NumberedSend(db, id, r);
  }

  lemma AttemptTriggerIff(was: Attempt, r: Attempt)
    ensures !AttemptTriggerRaises(was, r) <==> KeepsEvidence(was, r)
  {}

  /** What the attempt trigger lets happen to a send: it may gain an outcome and be resolved; its identity, its
      send time and any recorded outcome stay. */
  predicate KeepsEvidence(was: Attempt, r: Attempt) {
    && r.adjustmentId == was.adjustmentId && r.operationId == was.operationId
    && r.attemptNo == was.attemptNo && r.sentAt == was.sentAt
    && (was.outcome.Some? ==> r.outcome == was.outcome)
    && (was.state == Resolved ==> r.state == Resolved)
  }

  lemma SameNumberedSend(db: Db, id: Id, r: Attempt)
    requires AttemptsOk(db) && id in db.attempts
    requires r.adjustmentId == db.attempts[id].adjustmentId && r.operationId == db.attempts[id].operationId
    requires r.attemptNo == db.attempts[id].attemptNo
    ensures AttemptUnique(db, id, r) && AttemptRefers(db, r)
  {
    assert AttemptUnique(db, id, db.attempts[id]) && AttemptRefers(db, db.attempts[id]);
  }

  /** Of an attempt only the outcome, the resolution and the posting reference may be written, each so that the
      row stays sound and no recorded outcome is lost. */
  lemma AttemptResolvedIff(db: Db, id: Id, r: Attempt)
    requires AttemptsOk(db)
    ensures Admits(db, UpdateAttempt(id, r)) <==>
            && id in db.attempts && SoundAttempt(r)
            && KeepsEvidence(db.attempts[id], r)
  {
    AttemptChecksIff(r);
    if id in db.attempts {
      AttemptTriggerIff(db.attempts[id], r);
      if KeepsEvidence(db.attempts[id], r) {
        SameNumberedSend(db, id, r);
      }
    }
  }

  ghost predicate ItemFitsIn(db: Db, id: Id, r: Recovery) {
    && r.adjustmentId in db.adjustments
    && db.adjustments[r.adjustmentId].approvingPrincipal == r.approvingPrincipal
    && (r.state == Open ==>
          forall k :: k in db.recovery && k != id && db.recovery[k].adjustmentId == r.adjustmentId ==>
            db.recovery[k].state == Closed)
  }

  /** Items are opened, closed, reopened and moved freely as long as they are sound, name their operation's
      approver, and no operation has two open ones. */
  lemma ItemAdmittedIff(db: Db, id: Id, r: Recovery)
    ensures Admits(db, InsertRecovery(id, r)) <==>
            id !in db.recovery && SoundRecovery(r) && ItemFitsIn(db, id, r)
    ensures Admits(db, UpdateRecovery(id, r)) <==>
            id in db.recovery && SoundRecovery(r) && ItemFitsIn(db, id, r)
  {
    RecoveryChecksIff(r);
    assert RecoveryUnique(db, id, r) && RecoveryRefers(db, r) <==> ItemFitsIn(db, id, r);
  }

  /** Queries are appended, numbered apart, under their operation's identifier; none is ever changed. */
  lemma QueryAdmittedIff(db: Db, id: Id, r: Query)
    ensures Admits(db, InsertQuery(id, r)) <==>
            && id !in db.queries && SoundQuery(r)
            && r.adjustmentId in db.adjustments && db.adjustments[r.adjustmentId].operationId == r.operationId
            && forall k :: k in db.queries && k != id && db.queries[k].adjustmentId == r.adjustmentId ==>
                 db.queries[k].queryNo != r.queryNo
    ensures !Admits(db, UpdateQuery(id, r))
  {
    QueryChecksIff(r);
  }
}
