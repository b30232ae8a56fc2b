/** The reliability tables, their constraints and their triggers, as a state machine.

    A row is a datatype, a table is a map from primary key to row, and a statement inserts or
    updates one row. `Admits` says whether the database accepts a statement: the row's CHECKs, its
    unique keys against the other rows, its foreign keys in both directions, and the triggers.
    Every enumeration is closed by a CHECK in the schema and by a datatype here. */
module Schema {
  import opened Wrappers
  import opened SqlLogic

  type Id = nat
  type Time = int

  // ----- rows -----------------------------------------------------------------------------

  datatype Decision = Approved | Rejected | Edited
  datatype Treatment = Rebook | Accrue | WriteOff | Escalate
  datatype Outcome = Confirmed | Declined | Throttled | Ambiguous | PartiallyApplied | NotSent
  datatype DispatchState = Pending | Settled | DeadLettered
  datatype AttemptState = InFlight | Resolved
  datatype RecoveryState = Open | Closed
  datatype Resolution = ConfirmedByEvidence | RejectedByEvidence | ResolvedUnverified
  datatype Answer = Found | NotFound | Indeterminate

  datatype Approval = Approval(
    exceptionId: Id, version: int, decision: Decision, treatment: Option<Treatment>,
    principal: string, requestedBy: Option<string>, token: string)

  datatype Adjustment = Adjustment(
    approvalId: Id, treatment: Treatment, approvingPrincipal: string, operationId: string,
    payloadHash: string, postingRef: Option<string>)

  datatype Outbox = Outbox(
    adjustmentId: Id, state: DispatchState, lastOutcome: Option<Outcome>, attemptCount: int)

  datatype Attempt = Attempt(
    adjustmentId: Id, operationId: string, attemptNo: int, sentAt: Time, state: AttemptState,
    outcome: Option<Outcome>, resolvedAt: Option<Time>, postingRef: Option<string>)

  datatype Recovery = Recovery(
    adjustmentId: Id, state: RecoveryState, openedAt: Time, slaDueAt: Time,
    approvingPrincipal: string, resolution: Option<Resolution>, resolvedBy: Option<string>,
    resolvedAt: Option<Time>)

  datatype Query = Query(
    adjustmentId: Id, operationId: string, queryNo: int, answer: Answer,
    postingRef: Option<string>, visibilityBound: int, maxInflightWindow: int)

  datatype Db = Db(
    exceptions: set<Id>,
    approvals: map<Id, Approval>,
    adjustments: map<Id, Adjustment>,
    outbox: map<Id, Outbox>,
    attempts: map<Id, Attempt>,
    recovery: map<Id, Recovery>,
    queries: map<Id, Query>)

  const EMPTY := Db({}, map[], map[], map[], map[], map[], map[])

  // ----- row CHECKs -----------------------------------------------------------------------

  predicate IsSha256Hex(s: string) {
    |s| == 64 && forall i :: 0 <= i < |s| ==> '0' <= s[i] <= '9' || 'a' <= s[i] <= 'f'
  }

  predicate ApprovalChecks(a: Approval) {
    && CheckPasses(Of(a.version >= 1))
    && CheckPasses(Or(IsNull(a.requestedBy), Neq(a.requestedBy, Some(a.principal))))
    && CheckPasses(Of((a.decision == Edited) == (a.requestedBy != None)))
    && CheckPasses(Of((a.decision in {Approved, Edited}) == (a.treatment != None)))
  }

  predicate AdjustmentChecks(a: Adjustment) {
    && CheckPasses(Of(IsSha256Hex(a.operationId)))
    && CheckPasses(Of(IsSha256Hex(a.payloadHash)))
    && CheckPasses(Neq(Some(a.treatment), Some(Escalate)))
  }

  /** `settled_requires_terminal_outcome` as the schema writes it, with its IS NOT NULL guard. */
  function SettledRequiresTerminal(state: DispatchState, outcome: Option<Outcome>): Truth {
    Or(Neq(Some(state), Some(Settled)),
       And(IsNotNull(outcome), In(outcome, {Confirmed, Declined})))
  }

  /** The same rule without the guard, which the schema's comment warns about. */
  function SettledRequiresTerminalUnguarded(state: DispatchState, outcome: Option<Outcome>): Truth {
    Or(Neq(Some(state), Some(Settled)), In(outcome, {Confirmed, Declined}))
  }

  predicate OutboxChecks(o: Outbox) {
    && CheckPasses(Of(o.attemptCount >= 0))
    && CheckPasses(SettledRequiresTerminal(o.state, o.lastOutcome))
  }

  predicate AttemptChecks(a: Attempt) {
    && CheckPasses(Of(a.attemptNo >= 1))
    && CheckPasses(Of(IsSha256Hex(a.operationId)))
    && CheckPasses(Of((a.state == Resolved) == (a.outcome != None && a.resolvedAt != None)))
    && CheckPasses(if a.resolvedAt == None then Yes else Of(a.resolvedAt.value >= a.sentAt))
    && CheckPasses(Or(IsNull(a.postingRef),
                      And(IsNotNull(a.outcome), In(a.outcome, {Confirmed, PartiallyApplied}))))
  }

  predicate RecoveryChecks(r: Recovery) {
    && CheckPasses(Of((r.state == Closed) ==
                      (r.resolution != None && r.resolvedBy != None && r.resolvedAt != None)))
    && CheckPasses(if r.resolvedAt == None then Yes else Of(r.resolvedAt.value >= r.openedAt))
    && CheckPasses(Of(r.slaDueAt > r.openedAt))
    && CheckPasses(Or(IsNull(r.resolvedBy), Neq(r.resolvedBy, Some(r.approvingPrincipal))))
  }

  predicate QueryChecks(q: Query) {
    && CheckPasses(Of(q.queryNo >= 1))
    && CheckPasses(Of(IsSha256Hex(q.operationId)))
    && CheckPasses(Of((q.answer == Found) == (q.postingRef != None)))
    && CheckPasses(And(Of(q.visibilityBound >= 0), Of(q.maxInflightWindow >= 0)))
  }

  // ----- unique keys: row `r` under key `id` collides with no other row --------------------

  predicate ApprovalUnique(db: Db, id: Id, r: Approval) {
    forall k :: k in db.approvals && k != id ==>
      && !(db.approvals[k].exceptionId == r.exceptionId && db.approvals[k].version == r.version)
      && db.approvals[k].token != r.token
  }

  predicate AdjustmentUnique(db: Db, id: Id, r: Adjustment) {
    forall k :: k in db.adjustments && k != id ==>
      && db.adjustments[k].operationId != r.operationId
      && db.adjustments[k].approvalId != r.approvalId
  }

  predicate OutboxUnique(db: Db, id: Id, r: Outbox) {
    forall k :: k in db.outbox && k != id ==> db.outbox[k].adjustmentId != r.adjustmentId
  }

  predicate AttemptUnique(db: Db, id: Id, r: Attempt) {
    forall k :: k in db.attempts && k != id ==>
      !(db.attempts[k].adjustmentId == r.adjustmentId && db.attempts[k].attemptNo == r.attemptNo)
  }

  /** The partial unique index: at most one open item per adjustment. */
  predicate RecoveryUnique(db: Db, id: Id, r: Recovery) {
    r.state == Open ==>
      forall k :: k in db.recovery && k != id ==>
        !(db.recovery[k].state == Open && db.recovery[k].adjustmentId == r.adjustmentId)
  }

  predicate QueryUnique(db: Db, id: Id, r: Query) {
    forall k :: k in db.queries && k != id ==>
      !(db.queries[k].adjustmentId == r.adjustmentId && db.queries[k].queryNo == r.queryNo)
  }

  // ----- foreign keys ---------------------------------------------------------------------

  /** `fk_adjustment_approval`: the whole triple, so a NULL treatment can never be referenced. */
  predicate AdjustmentRefers(db: Db, r: Adjustment) {
    && r.approvalId in db.approvals
    && db.approvals[r.approvalId].treatment == Some(r.treatment)
    && db.approvals[r.approvalId].principal == r.approvingPrincipal
  }

  predicate OutboxRefers(db: Db, r: Outbox) {
    r.adjustmentId in db.adjustments
  }

  predicate AttemptRefers(db: Db, r: Attempt) {
    r.adjustmentId in db.adjustments && db.adjustments[r.adjustmentId].operationId == r.operationId
  }

  predicate RecoveryRefers(db: Db, r: Recovery) {
    && r.adjustmentId in db.adjustments
    && db.adjustments[r.adjustmentId].approvingPrincipal == r.approvingPrincipal
  }

  predicate QueryRefers(db: Db, r: Query) {
    r.adjustmentId in db.adjustments && db.adjustments[r.adjustmentId].operationId == r.operationId
  }

  /** Changing a referenced approval key is refused while an adjustment still references it. */
  predicate ApprovalKeyFree(db: Db, id: Id, r: Approval)
    requires id in db.approvals
  {
    || (db.approvals[id].treatment == r.treatment && db.approvals[id].principal == r.principal)
    || forall k :: k in db.adjustments ==> db.adjustments[k].approvalId != id
  }

  /** Likewise for the two adjustment keys: (id, operation_id) and (id, approving_principal). */
  predicate AdjustmentKeysFree(db: Db, id: Id, r: Adjustment)
    requires id in db.adjustments
  {
    && (|| db.adjustments[id].operationId == r.operationId
        || (&& (forall k :: k in db.attempts ==> db.attempts[k].adjustmentId != id)
            && (forall k :: k in db.queries ==> db.queries[k].adjustmentId != id)))
    && (|| db.adjustments[id].approvingPrincipal == r.approvingPrincipal
        || forall k :: k in db.recovery ==> db.recovery[k].adjustmentId != id)
  }

  // ----- triggers -------------------------------------------------------------------------

  /** `posting_attempt_enforce_immutable_evidence`. */
  predicate AttemptTriggerRaises(old_: Attempt, new_: Attempt) {
    || Fires(And(IsNotNull(old_.outcome), IsDistinctFrom(new_.outcome, old_.outcome)))
    || Fires(And(Of(old_.state == Resolved), Of(new_.state != Resolved)))
    || Fires(Of(|| new_.adjustmentId != old_.adjustmentId
                || new_.operationId != old_.operationId
                || new_.attemptNo != old_.attemptNo
                || new_.sentAt != old_.sentAt))
  }

  /** `outbox_enforce_monotonic_outcome`. */
  predicate OutboxTriggerRaises(old_: Outbox, new_: Outbox) {
    || Fires(And(In(old_.lastOutcome, {Confirmed, Declined}),
                 IsDistinctFrom(new_.lastOutcome, old_.lastOutcome)))
    || Fires(And(Of(old_.state == Settled), Of(new_.state != Settled)))
  }

  predicate HasInFlight(db: Db, adj: Id) {
    exists k :: k in db.attempts && db.attempts[k].adjustmentId == adj && db.attempts[k].state == InFlight
  }

  predicate HasOpenRecovery(db: Db, adj: Id) {
    exists k :: k in db.recovery && db.recovery[k].adjustmentId == adj && db.recovery[k].state == Open
  }

  predicate HasRecovery(db: Db, adj: Id) {
    exists k :: k in db.recovery && db.recovery[k].adjustmentId == adj
  }

  /** The WHERE clause of the interlock for one joined row. `lastOutcome` is NULL when the LEFT JOIN
      found no outbox row, exactly as when it found one whose outcome is NULL. */
  function InterlockWhere(db: Db, prior: Approval, adj: Id, lastOutcome: Option<Outcome>,
                          exceptionId: Id, version: int): Truth
  {
    And(And(Of(prior.exceptionId == exceptionId), Of(prior.version < version)),
        Or(Or(Of(HasInFlight(db, adj)), Of(HasOpenRecovery(db, adj))),
           And(In(lastOutcome, {Ambiguous, PartiallyApplied}), Of(!HasRecovery(db, adj)))))
  }

  /** One row of `approval JOIN adjustment LEFT JOIN outbox` that the WHERE clause keeps: `o` is the
      outbox row joined, or None where the outer join found none. */
  predicate BlockingRow(db: Db, p: Id, a: Id, o: Option<Id>, exceptionId: Id, version: int) {
    && p in db.approvals && a in db.adjustments && db.adjustments[a].approvalId == p
    && (match o
        case Some(k) =>
          && k in db.outbox && db.outbox[k].adjustmentId == a
          && Fires(InterlockWhere(db, db.approvals[p], a, db.outbox[k].lastOutcome,
                                  exceptionId, version))
        case None =>
          && (forall k :: k in db.outbox ==> db.outbox[k].adjustmentId != a)
          && Fires(InterlockWhere(db, db.approvals[p], a, None, exceptionId, version)))
  }

  /** The query keeps some joined row of approval `p` and adjustment `a`. */
  predicate QueryReturns(db: Db, p: Id, a: Id, exceptionId: Id, version: int) {
    || BlockingRow(db, p, a, None, exceptionId, version)
    || exists k :: k in db.outbox && BlockingRow(db, p, a, Some(k), exceptionId, version)
  }

  /** `approval_enforce_supersession_interlock`: it raises when the joined query returns a row. */
  predicate InterlockRaises(db: Db, exceptionId: Id, version: int) {
    exists p, a :: p in db.approvals && a in db.adjustments
                   && QueryReturns(db, p, a, exceptionId, version)
  }

  // ----- statements -----------------------------------------------------------------------

  datatype Statement =
    | InsertException(id: Id)
    | InsertApproval(id: Id, approval: Approval)
    | UpdateApproval(id: Id, approval: Approval)
    | InsertAdjustment(id: Id, adjustment: Adjustment)
    | UpdateAdjustment(id: Id, adjustment: Adjustment)
    | InsertOutbox(id: Id, outbox: Outbox)
    | UpdateOutbox(id: Id, outbox: Outbox)
    | InsertAttempt(id: Id, attempt: Attempt)
    | UpdateAttempt(id: Id, attempt: Attempt)
    | InsertRecovery(id: Id, recovery: Recovery)
    | UpdateRecovery(id: Id, recovery: Recovery)
    | InsertQuery(id: Id, query: Query)
    | UpdateQuery(id: Id, query: Query)

  /** Whether the database accepts the statement. */
  predicate Admits(db: Db, s: Statement) {
    match s
    case InsertException(id) => id !in db.exceptions
    case InsertApproval(id, r) =>
      && id !in db.approvals && ApprovalChecks(r) && ApprovalUnique(db, id, r)
      && r.exceptionId in db.exceptions
      && !InterlockRaises(db, r.exceptionId, r.version)
    case UpdateApproval(id, r) =>
      && id in db.approvals && ApprovalChecks(r) && ApprovalUnique(db, id, r)
      && r.exceptionId in db.exceptions
      && ApprovalKeyFree(db, id, r)
    case InsertAdjustment(id, r) =>
      && id !in db.adjustments && AdjustmentChecks(r) && AdjustmentUnique(db, id, r)
      && AdjustmentRefers(db, r)
    case UpdateAdjustment(id, r) =>
      && id in db.adjustments && AdjustmentChecks(r) && AdjustmentUnique(db, id, r)
      && AdjustmentRefers(db, r)
      && AdjustmentKeysFree(db, id, r)
    case InsertOutbox(id, r) =>
      && id !in db.outbox && OutboxChecks(r) && OutboxUnique(db, id, r) && OutboxRefers(db, r)
    case UpdateOutbox(id, r) =>
      && id in db.outbox && OutboxChecks(r) && OutboxUnique(db, id, r) && OutboxRefers(db, r)
      && !OutboxTriggerRaises(db.outbox[id], r)
    case InsertAttempt(id, r) =>
      && id !in db.attempts && AttemptChecks(r) && AttemptUnique(db, id, r) && AttemptRefers(db, r)
    case UpdateAttempt(id, r) =>
      && id in db.attempts && AttemptChecks(r) && AttemptUnique(db, id, r) && AttemptRefers(db, r)
      && !AttemptTriggerRaises(db.attempts[id], r)
    case InsertRecovery(id, r) =>
      && id !in db.recovery && RecoveryChecks(r) && RecoveryUnique(db, id, r) && RecoveryRefers(db, r)
    case UpdateRecovery(id, r) =>
      && id in db.recovery && RecoveryChecks(r) && RecoveryUnique(db, id, r) && RecoveryRefers(db, r)
    case InsertQuery(id, r) =>
      && id !in db.queries && QueryChecks(r) && QueryUnique(db, id, r) && QueryRefers(db, r)
    // `reconciliation_query_reject_mutation` refuses every update, whatever it changes.
    case UpdateQuery(_, _) => false
  }

  function Apply(db: Db, s: Statement): Db {
    match s
    case InsertException(id) => db.(exceptions := db.exceptions + {id})
    case InsertApproval(id, r) => db.(approvals := db.approvals[id := r])
    case UpdateApproval(id, r) => db.(approvals := db.approvals[id := r])
    case InsertAdjustment(id, r) => db.(adjustments := db.adjustments[id := r])
    case UpdateAdjustment(id, r) => db.(adjustments := db.adjustments[id := r])
    case InsertOutbox(id, r) => db.(outbox := db.outbox[id := r])
    case UpdateOutbox(id, r) => db.(outbox := db.outbox[id := r])
    case InsertAttempt(id, r) => db.(attempts := db.attempts[id := r])
    case UpdateAttempt(id, r) => db.(attempts := db.attempts[id := r])
    case InsertRecovery(id, r) => db.(recovery := db.recovery[id := r])
    case UpdateRecovery(id, r) => db.(recovery := db.recovery[id := r])
    case InsertQuery(id, r) => db.(queries := db.queries[id := r])
    case UpdateQuery(id, r) => db.(queries := db.queries[id := r])
  }

  /** A refused statement raises and changes nothing. */
  function Execute(db: Db, s: Statement): Db {
    if Admits(db, s) then Apply(db, s) else db
  }

  /** The state after a run of statements, refused ones included. */
  function Run(db: Db, statements: seq<Statement>): Db {
    if statements == [] then db
    else Execute(Run(db, statements[..|statements| - 1]), statements[|statements| - 1])
  }
}
