/** The same tables as mutable state: one method for each statement an application sends.

    Each method looks for the rows that stand in its way, writes one row or refuses, and says what its
    caller may rely on afterwards. All of them keep the database reachable by
    a run of statements, so whatever is proved of runs holds of any sequence of calls. */
module Database {
  import opened Wrappers
  import opened Schema
  import opened SchemaProofs
  import opened SchemaTheorems
  import opened Supersession
  import opened RowChecks

  /** `SELECT id ... WHERE ... LIMIT 1`: some row that satisfies the condition, or none does. */
  method FindRow<T>(rows: map<Id, T>, wanted: (Id, T) -> bool) returns (found: Option<Id>)
    ensures match found
            case Some(k) => k in rows && wanted(k, rows[k])
            case None => forall k :: k in rows ==> !wanted(k, rows[k])
  {
    var pending := rows.Keys;
    while pending != {}
      invariant pending <= rows.Keys
      invariant forall k :: k in rows && k !in pending ==> !wanted(k, rows[k])
      decreases |pending|
    {
      var k :| k in pending;
      if wanted(k, rows[k]) {
        return Some(k);
      }
      pending := pending - {k};
    }
    return None;
  }

  class Database {
    var exceptions: set<Id>
    var approvals: map<Id, Approval>
    var adjustments: map<Id, Adjustment>
    var outbox: map<Id, Outbox>
    var attempts: map<Id, Attempt>
    var recovery: map<Id, Recovery>
    var queries: map<Id, Query>

    function State(): Db
      reads this
    {
      Db(exceptions, approvals, adjustments, outbox, attempts, recovery, queries)
    }

    /** Some run of statements leads here. */
    ghost predicate Valid()
      reads this
    {
      Reachable(State())
    }

    constructor ()
      ensures State() == EMPTY && Valid()
    {
      exceptions := {};
      approvals, adjustments, outbox := map[], map[], map[];
      attempts, recovery, queries := map[], map[], map[];
      new;
      assert State() == Run(EMPTY, []);
    }

    method RaiseException(id: Id) returns (ok: bool)
      requires Valid()
      modifies this`exceptions
      ensures Valid()
      ensures ok == Admits(old(State()), InsertException(id))
      ensures State() == Execute(old(State()), InsertException(id))
    {
      ghost var after := Execute(State(), InsertException(id));
      StatementKeepsReachable(State(), InsertException(id));
      ok := id !in exceptions;
      exceptions := exceptions + {id};
      assert State() == after;
    }

    // ----- approvals ------------------------------------------------------------------------------

    /** The BEFORE INSERT trigger: looks through every lower-version operation of the exception for
        one that blocks, and returns its operation identifier. */
    method BlockingOperation(r: Approval) returns (blocking: Option<string>)
      ensures blocking.Some? <==> InterlockRaises(State(), r.exceptionId, r.version)
      ensures blocking.Some? ==>
                exists a :: a in adjustments && adjustments[a].operationId == blocking.value
    {
      var pending := adjustments.Keys;
      while pending != {}
        invariant pending <= adjustments.Keys
        invariant forall a, p :: a in adjustments && a !in pending && p in approvals ==>
                    !QueryReturns(State(), p, a, r.exceptionId, r.version)
        decreases |pending|
      {
        var a :| a in pending;
        var p := adjustments[a].approvalId;
        if p in approvals && QueryReturns(State(), p, a, r.exceptionId, r.version) {
          return Some(adjustments[a].operationId);
        }
        pending := pending - {a};
      }
      return None;
    }

    /** Another approval already has this version of the exception, or this token. */
    method ApprovalClash(id: Id, r: Approval) returns (clash: Option<Id>)
      ensures clash.None? <==> ApprovalUnique(State(), id, r)
    {
      clash := FindRow(approvals, (k: Id, row: Approval) =>
        k != id && ((row.exceptionId == r.exceptionId && row.version == r.version) || row.token == r.token));
    }

    method MayRecordDecision(id: Id, r: Approval) returns (ok: bool)
      ensures ok == Admits(State(), InsertApproval(id, r))
    {
      var blocking := BlockingOperation(r);
      if blocking.Some? {
        return false;
      }
      var clash := ApprovalClash(id, r);
      ok := clash.None? && id !in approvals && r.exceptionId in exceptions && ApprovalChecks(r);
    }

    /** A recorded decision finds every lower-version operation of its exception released. */
    method RecordDecision(id: Id, r: Approval) returns (ok: bool)
      requires Valid()
      modifies this`approvals
      ensures Valid()
      ensures ok == Admits(old(State()), InsertApproval(id, r))
      ensures State() == Execute(old(State()), InsertApproval(id, r))
      ensures ok ==> LowerReleased(State(), r.exceptionId, r.version, None)
      ensures ok ==> SoundApproval(r)
    {
      ghost var after := Execute(State(), InsertApproval(id, r));
      DecisionMeans(State(), id, r);
      ApprovalChecksIff(r);
      ok := MayRecordDecision(id, r);
      if ok {
        approvals := approvals[id := r];
      }
      assert State() == after;
    }

    /** An adjustment was built on the approval's key, and the key would change. */
    method KeyInUse(id: Id, r: Approval) returns (used: bool)
      requires id in approvals
      ensures used <==> !ApprovalKeyFree(State(), id, r)
    {
      used := false;
      if approvals[id].treatment != r.treatment || approvals[id].principal != r.principal {
        var user := FindRow(adjustments, (k: Id, row: Adjustment) => row.approvalId == id);
        used := user.Some?;
      }
    }

    method MayReviseDecision(id: Id, r: Approval) returns (ok: bool)
      ensures ok == Admits(State(), UpdateApproval(id, r))
    {
      if id !in approvals || r.exceptionId !in exceptions || !ApprovalChecks(r) {
        return false;
      }
      var clash := ApprovalClash(id, r);
      var used := KeyInUse(id, r);
      ok := clash.None? && !used;
    }

    /** A revised decision still authorises whatever was built on it; and the interlock, which does not look
        at updates, is respected exactly when the other operations below its version were released. */
    method ReviseDecision(id: Id, r: Approval) returns (ok: bool)
      requires Valid()
      modifies this`approvals
      ensures Valid()
      ensures ok == Admits(old(State()), UpdateApproval(id, r))
      ensures State() == Execute(old(State()), UpdateApproval(id, r))
      ensures forall a :: a in adjustments ==> Authorised(State(), a)
      ensures ok ==> SoundApproval(r)
      ensures ok ==> (LowerReleased(State(), r.exceptionId, r.version, None) <==>
                      LowerReleased(old(State()), r.exceptionId, r.version, Some(id)))
    {
      ghost var after := Execute(State(), UpdateApproval(id, r));
      RevisionMeans(State(), id, r);
      ApprovalChecksIff(r);
      ok := MayReviseDecision(id, r);
      if ok {
        approvals := approvals[id := r];
      }
      assert State() == after;
    }

    // ----- adjustments ----------------------------------------------------------------------------

    /** Another adjustment already has this operation identifier, or carries out this decision. */
    method AdjustmentClash(id: Id, r: Adjustment) returns (clash: Option<Id>)
      ensures clash.None? <==> AdjustmentUnique(State(), id, r)
    {
      clash := FindRow(adjustments, (k: Id, row: Adjustment) =>
        k != id && (row.operationId == r.operationId || row.approvalId == r.approvalId));
    }

    /** The row under `id` is referred to by a key the new row would change. */
    method PinnedByOthers(id: Id, r: Adjustment) returns (pinned: bool)
      requires id in adjustments
      ensures pinned <==> !AdjustmentKeysFree(State(), id, r)
    {
      pinned := false;
      if adjustments[id].operationId != r.operationId {
        var attempt := FindRow(attempts, (k: Id, row: Attempt) => row.adjustmentId == id);
        var query := FindRow(queries, (k: Id, row: Query) => row.adjustmentId == id);
        pinned := attempt.Some? || query.Some?;
      }
      if adjustments[id].approvingPrincipal != r.approvingPrincipal {
        var item := FindRow(recovery, (k: Id, row: Recovery) => row.adjustmentId == id);
        pinned := pinned || item.Some?;
      }
    }

    /** The decision named said yes, to this treatment, by this principal. */
    method FindsItsDecision(r: Adjustment) returns (found: bool)
      ensures found == AdjustmentRefers(State(), r)
    {
      if r.approvalId !in approvals {
        return false;
      }
      var decision := approvals[r.approvalId];
      found := decision.treatment == Some(r.treatment) && decision.principal == r.approvingPrincipal;
    }

    method MayRecordAdjustment(id: Id, r: Adjustment) returns (ok: bool)
      ensures ok == Admits(State(), InsertAdjustment(id, r))
    {
      var clash := AdjustmentClash(id, r);
      var found := FindsItsDecision(r);
      ok := clash.None? && found && id !in adjustments && AdjustmentChecks(r);
    }

    /** A recorded adjustment is the only one of a decision that said yes to its treatment. */
    method RecordAdjustment(id: Id, r: Adjustment) returns (ok: bool)
      requires Valid()
      modifies this`adjustments
      ensures Valid()
      ensures ok == Admits(old(State()), InsertAdjustment(id, r))
      ensures State() == Execute(old(State()), InsertAdjustment(id, r))
      ensures ok ==> Authorised(State(), id) && SoundAdjustment(r)
    {
      ghost var after := Execute(State(), InsertAdjustment(id, r));
      AdjustmentStatementMeans(State(), InsertAdjustment(id, r));
      AdjustmentChecksIff(r);
      ok := MayRecordAdjustment(id, r);
      if ok {
        adjustments := adjustments[id := r];
      }
      assert State() == after;
    }

    method MayReviseAdjustment(id: Id, r: Adjustment) returns (ok: bool)
      ensures ok == Admits(State(), UpdateAdjustment(id, r))
    {
      if id !in adjustments || !AdjustmentChecks(r) {
        return false;
      }
      var clash := AdjustmentClash(id, r);
      var found := FindsItsDecision(r);
      var pinned := PinnedByOthers(id, r);
      ok := clash.None? && found && !pinned;
    }

    /** A revised adjustment is still authorised, and no send loses the operation identifier it carries. */
    method ReviseAdjustment(id: Id, r: Adjustment) returns (ok: bool)
      requires Valid()
      modifies this`adjustments
      ensures Valid()
      ensures ok == Admits(old(State()), UpdateAdjustment(id, r))
      ensures State() == Execute(old(State()), UpdateAdjustment(id, r))
      ensures ok ==> Authorised(State(), id) && SoundAdjustment(r)
      ensures SendsCarryTheirOperation(State())
    {
      ghost var after := Execute(State(), UpdateAdjustment(id, r));
      AdjustmentStatementMeans(State(), UpdateAdjustment(id, r));
      AdjustmentChecksIff(r);
      ok := MayReviseAdjustment(id, r);
      if ok {
        adjustments := adjustments[id := r];
      }
      assert State() == after;
    }

    // ----- dispatch intents -------------------------------------------------------------------------

    method IntentClash(id: Id, r: Outbox) returns (clash: Option<Id>)
      ensures clash.None? <==> OutboxUnique(State(), id, r)
    {
      clash := FindRow(outbox, (k: Id, row: Outbox) => k != id && row.adjustmentId == r.adjustmentId);
    }

    method MayWriteIntent(id: Id, r: Outbox) returns (ok: bool)
      ensures ok == Admits(State(), InsertOutbox(id, r))
    {
      var clash := IntentClash(id, r);
      ok := clash.None? && id !in outbox && r.adjustmentId in adjustments && OutboxChecks(r);
    }

    /** A written intent is the only one of its operation, and settled only with a terminal outcome. */
    method WriteIntent(id: Id, r: Outbox) returns (ok: bool)
      requires Valid()
      modifies this`outbox
      ensures Valid()
      ensures ok == Admits(old(State()), InsertOutbox(id, r))
      ensures State() == Execute(old(State()), InsertOutbox(id, r))
      ensures ok ==> SoundIntent(State(), id) && SoundOutbox(r)
    {
      ghost var after := Execute(State(), InsertOutbox(id, r));
      IntentMeans(State(), InsertOutbox(id, r));
      OutboxChecksIff(r);
      ok := MayWriteIntent(id, r);
      if ok {
        outbox := outbox[id := r];
      }
      assert State() == after;
    }

    method MayMoveIntent(id: Id, r: Outbox) returns (ok: bool)
      ensures ok == Admits(State(), UpdateOutbox(id, r))
    {
      if id !in outbox {
        return false;
      }
      var was := outbox[id];
      if (was.lastOutcome == Some(Confirmed) || was.lastOutcome == Some(Declined))
         && r.lastOutcome != was.lastOutcome
      {
        return false;
      }
      if was.state == Settled && r.state != Settled {
        return false;
      }
      var clash := IntentClash(id, r);
      ok := clash.None? && r.adjustmentId in adjustments && OutboxChecks(r);
    }

    /** A moved intent keeps a terminal outcome and never leaves settled; no other intent is touched. */
    method MoveIntent(id: Id, r: Outbox) returns (ok: bool)
      requires Valid()
      modifies this`outbox
      ensures Valid()
      ensures ok == Admits(old(State()), UpdateOutbox(id, r))
      ensures State() == Execute(old(State()), UpdateOutbox(id, r))
      ensures ok ==> SoundIntent(State(), id) && SoundOutbox(r)
      ensures forall k :: k in old(outbox) ==> k in outbox && OutboxEvolves(old(outbox)[k], outbox[k])
    {
      ghost var after := Execute(State(), UpdateOutbox(id, r));
      IntentMeans(State(), UpdateOutbox(id, r));
      OutboxChecksIff(r);
      ok := MayMoveIntent(id, r);
      if ok {
        outbox := outbox[id := r];
      }
      assert State() == after;
    }

    // ----- attempts ---------------------------------------------------------------------------------

    method MayWriteAttempt(id: Id, r: Attempt) returns (ok: bool)
      ensures ok == Admits(State(), InsertAttempt(id, r))
    {
      var clash := FindRow(attempts, (k: Id, row: Attempt) =>
        k != id && row.adjustmentId == r.adjustmentId && row.attemptNo == r.attemptNo);
      ok := clash.None? && id !in attempts && AttemptChecks(r)
            && r.adjustmentId in adjustments && adjustments[r.adjustmentId].operationId == r.operationId;
    }

    /** A written attempt belongs to an authorised adjustment, and a send in flight shuts out every newer
        version of its exception. */
    method WriteAttempt(id: Id, r: Attempt) returns (ok: bool)
      requires Valid()
      modifies this`attempts
      ensures Valid()
      ensures ok == Admits(old(State()), InsertAttempt(id, r))
      ensures State() == Execute(old(State()), InsertAttempt(id, r))
      ensures ok ==> Authorised(State(), r.adjustmentId) && SoundAttempt(r)
      ensures ok && r.state == InFlight ==> ShutsOutNewer(State(), r.adjustmentId)
    {
      ghost var after := Execute(State(), InsertAttempt(id, r));
      AttemptMeans(State(), InsertAttempt(id, r));
      AttemptChecksIff(r);
      ok := MayWriteAttempt(id, r);
      if ok {
        attempts := attempts[id := r];
      }
      assert State() == after;
    }

    /** The trigger first; once identity is unchanged the keys are the row's own, and need no second look. */
    method MayResolveAttempt(id: Id, r: Attempt) returns (ok: bool)
      requires Valid()
      ensures ok == Admits(State(), UpdateAttempt(id, r))
    {
      if id !in attempts {
        return false;
      }
      var was := attempts[id];
      if was.outcome.Some? && r.outcome != was.outcome {
        return false;
      }
      if was.state == Resolved && r.state != Resolved {
        return false;
      }
      if r.adjustmentId != was.adjustmentId || r.operationId != was.operationId
         || r.attemptNo != was.attemptNo || r.sentAt != was.sentAt
      {
        return false;
      }
      AttemptKeysHold(State(), id);
      ok := AttemptChecks(r);
    }

    /** A resolved attempt keeps its identity, its send time and any outcome it had; so do all others. */
    method ResolveAttempt(id: Id, r: Attempt) returns (ok: bool)
      requires Valid()
      modifies this`attempts
      ensures Valid()
      ensures ok == Admits(old(State()), UpdateAttempt(id, r))
      ensures State() == Execute(old(State()), UpdateAttempt(id, r))
      ensures forall k :: k in old(attempts) ==> k in attempts && AttemptEvolves(old(attempts)[k], attempts[k])
      ensures ok ==> Authorised(State(), r.adjustmentId) && SoundAttempt(r)
      ensures ok && r.state == InFlight ==> ShutsOutNewer(State(), r.adjustmentId)
    {
      ghost var after := Execute(State(), UpdateAttempt(id, r));
      AttemptMeans(State(), UpdateAttempt(id, r));
      AttemptChecksIff(r);
      ok := MayResolveAttempt(id, r);
      if ok {
        attempts := attempts[id := r];
      }
      assert State() == after;
    }

    // ----- recovery items ---------------------------------------------------------------------------

    /** The row fits beside the others: no second open item, and the approver its operation names. */
    method ItemFits(id: Id, r: Recovery) returns (fits: bool)
      ensures fits <==> RecoveryChecks(r) && RecoveryUnique(State(), id, r) && RecoveryRefers(State(), r)
    {
      if !RecoveryChecks(r) || r.adjustmentId !in adjustments {
        return false;
      }
      if adjustments[r.adjustmentId].approvingPrincipal != r.approvingPrincipal {
        return false;
      }
      fits := true;
      if r.state == Open {
        var open := FindRow(recovery, (k: Id, row: Recovery) =>
          k != id && row.state == Open && row.adjustmentId == r.adjustmentId);
        fits := open.None?;
      }
    }

    /** An opened item shuts out every newer version of its exception; one recorded closed was closed by
        someone other than the approver. */
    method OpenItem(id: Id, r: Recovery) returns (ok: bool)
      requires Valid()
      modifies this`recovery
      ensures Valid()
      ensures ok == Admits(old(State()), InsertRecovery(id, r))
      ensures State() == Execute(old(State()), InsertRecovery(id, r))
      ensures ok && r.state == Open ==> ShutsOutNewer(State(), r.adjustmentId)
      ensures ok && r.state == Closed ==> JudgedByAnother(State(), id)
      ensures ok ==> SoundRecovery(r)
    {
      ghost var after := Execute(State(), InsertRecovery(id, r));
      ItemMeans(State(), InsertRecovery(id, r));
      RecoveryChecksIff(r);
      ok := ItemFits(id, r);
      ok := ok && id !in recovery;
      if ok {
        recovery := recovery[id := r];
      }
      assert State() == after;
    }

    /** A moved item means the same: open it shuts out newer versions, closed it was judged by another. */
    method MoveItem(id: Id, r: Recovery) returns (ok: bool)
      requires Valid()
      modifies this`recovery
      ensures Valid()
      ensures ok == Admits(old(State()), UpdateRecovery(id, r))
      ensures State() == Execute(old(State()), UpdateRecovery(id, r))
      ensures ok && r.state == Open ==> ShutsOutNewer(State(), r.adjustmentId)
      ensures ok && r.state == Closed ==> JudgedByAnother(State(), id)
      ensures ok ==> SoundRecovery(r)
    {
      ghost var after := Execute(State(), UpdateRecovery(id, r));
      ItemMeans(State(), UpdateRecovery(id, r));
      RecoveryChecksIff(r);
      ok := ItemFits(id, r);
      ok := ok && id in recovery;
      if ok {
        recovery := recovery[id := r];
      }
      assert State() == after;
    }

    // ----- reconciliation queries -------------------------------------------------------------------

    method MayAppendQuery(id: Id, r: Query) returns (ok: bool)
      ensures ok == Admits(State(), InsertQuery(id, r))
    {
      var clash := FindRow(queries, (k: Id, row: Query) =>
        k != id && row.adjustmentId == r.adjustmentId && row.queryNo == r.queryNo);
      ok := clash.None? && id !in queries && QueryChecks(r)
            && r.adjustmentId in adjustments && adjustments[r.adjustmentId].operationId == r.operationId;
    }

    /** An appended query leaves every earlier one as it was, and its number tells it from every other query
        of its operation. */
    method AppendQuery(id: Id, r: Query) returns (ok: bool)
      requires Valid()
      modifies this`queries
      ensures Valid()
      ensures ok == Admits(old(State()), InsertQuery(id, r))
      ensures State() == Execute(old(State()), InsertQuery(id, r))
      ensures forall k :: k in old(queries) ==> k in queries && queries[k] == old(queries)[k]
      ensures ok ==> NumberedApart(State(), id) && SoundQuery(r)
    {
      ghost var after := Execute(State(), InsertQuery(id, r));
      QueryMeans(State(), InsertQuery(id, r));
      QueryChecksIff(r);
      ok := MayAppendQuery(id, r);
      if ok {
        queries := queries[id := r];
      }
      assert State() == after;
    }
  }

  // ----- what the callers are promised ----------------------------------------------------------------

  /** The adjustment is the only one of a decision that said yes to its treatment, which may be posted. */
  ghost predicate Authorised(db: Db, a: Id) {
    && a in db.adjustments && db.adjustments[a].approvalId in db.approvals
    && var p := db.adjustments[a].approvalId;
       && db.approvals[p].decision in {Approved, Edited}
       && db.approvals[p].treatment == Some(db.adjustments[a].treatment)
       && db.approvals[p].principal == db.adjustments[a].approvingPrincipal
       && db.adjustments[a].treatment != Escalate
       && forall b :: b in db.adjustments && db.adjustments[b].approvalId == p ==> b == a
  }

  lemma AdjustmentIsAuthorised(db: Db, a: Id)
    requires Consistent(db) && a in db.adjustments
    ensures Authorised(db, a)
  {
    assert AdjustmentRefers(db, db.adjustments[a]) && AdjustmentChecks(db.adjustments[a]);
    assert AdjustmentUnique(db, a, db.adjustments[a]);
    assert ApprovalChecks(db.approvals[db.adjustments[a].approvalId]);
  }

  lemma DecisionMeans(db: Db, id: Id, r: Approval)
    ensures var after := Execute(db, InsertApproval(id, r));
            Reachable(db) ==>
              && Reachable(after)
              && (Admits(db, InsertApproval(id, r)) ==> LowerReleased(after, r.exceptionId, r.version, None))
  {
    if Reachable(db) {
      StatementKeepsReachable(db, InsertApproval(id, r));
      ReachableIsConsistent(db);
      StatementKeepsConsistent(db, InsertApproval(id, r));
      if Admits(db, InsertApproval(id, r)) {
        AdmittedLeavesReleased(db, id, r);
      }
    }
  }

  lemma RevisionMeans(db: Db, id: Id, r: Approval)
    ensures var after := Execute(db, UpdateApproval(id, r));
            Reachable(db) ==>
              && Reachable(after)
              && (forall a :: a in after.adjustments ==> Authorised(after, a))
              && (Admits(db, UpdateApproval(id, r)) ==>
                    (LowerReleased(after, r.exceptionId, r.version, None) <==>
                     LowerReleased(db, r.exceptionId, r.version, Some(id))))
  {
    if Reachable(db) {
      var after := Execute(db, UpdateApproval(id, r));
      StatementKeepsReachable(db, UpdateApproval(id, r));
      ReachableIsConsistent(db);
      StatementKeepsConsistent(db, UpdateApproval(id, r));
      forall a | a in after.adjustments ensures Authorised(after, a) {
        AdjustmentIsAuthorised(after, a);
      }
      if Admits(db, UpdateApproval(id, r)) {
        UpdateRespectsInterlockIff(db, id, r);
      }
    }
  }

  ghost predicate SendsCarryTheirOperation(db: Db) {
    forall k :: k in db.attempts ==>
      && db.attempts[k].adjustmentId in db.adjustments
      && db.attempts[k].operationId == db.adjustments[db.attempts[k].adjustmentId].operationId
  }

  lemma AdjustmentStatementMeans(db: Db, s: Statement)
    requires s.InsertAdjustment? || s.UpdateAdjustment?
    ensures Reachable(db) ==>
              && Reachable(Execute(db, s))
              && SendsCarryTheirOperation(Execute(db, s))
              && (Admits(db, s) ==> Authorised(Execute(db, s), s.id))
  {
    if Reachable(db) {
      var after := Execute(db, s);
      StatementKeepsReachable(db, s);
      ReachableIsConsistent(db);
      StatementKeepsConsistent(db, s);
      forall k | k in after.attempts ensures AttemptRefers(after, after.attempts[k]) {}
      if Admits(db, s) {
        AdjustmentIsAuthorised(after, s.id);
      }
    }
  }

  /** The only intent of its operation, and settled only with a terminal outcome. */
  ghost predicate SoundIntent(db: Db, id: Id) {
    && id in db.outbox && db.outbox[id].adjustmentId in db.adjustments
    && (db.outbox[id].state == Settled ==> db.outbox[id].lastOutcome in {Some(Confirmed), Some(Declined)})
    && forall k :: k in db.outbox && db.outbox[k].adjustmentId == db.outbox[id].adjustmentId ==> k == id
  }

  lemma IntentIsSound(db: Db, id: Id)
    requires Consistent(db) && id in db.outbox
    ensures SoundIntent(db, id)
  {
    assert OutboxRefers(db, db.outbox[id]) && OutboxUnique(db, id, db.outbox[id]);
    SettledIsTerminal(db.outbox[id]);
  }

  lemma IntentMeans(db: Db, s: Statement)
    requires s.InsertOutbox? || s.UpdateOutbox?
    ensures Reachable(db) ==>
              && Reachable(Execute(db, s)) && Evolves(db, Execute(db, s))
              && (Admits(db, s) ==> SoundIntent(Execute(db, s), s.id))
  {
    if Reachable(db) {
      StatementKeepsReachable(db, s);
      ReachableIsConsistent(db);
      StatementKeepsConsistent(db, s);
      StatementEvolves(db, s);
      if Admits(db, s) {
        IntentIsSound(Execute(db, s), s.id);
      }
    }
  }

  lemma AttemptKeysHold(db: Db, id: Id)
    requires Reachable(db) && id in db.attempts
    ensures AttemptUnique(db, id, db.attempts[id]) && AttemptRefers(db, db.attempts[id])
  {
    ReachableIsConsistent(db);
  }

  /** No version above the operation's own can be approved while this holds. */
  ghost predicate ShutsOutNewer(db: Db, a: Id) {
    forall e, w, v :: Carries(db, a, e, w) && w < v ==> InterlockRaises(db, e, v)
  }

  lemma BlockingShutsOut(db: Db, a: Id)
    requires Consistent(db) && a in db.adjustments && (HasInFlight(db, a) || HasOpenRecovery(db, a))
    ensures ShutsOutNewer(db, a)
  {
    forall e, w, v | Carries(db, a, e, w) && w < v ensures InterlockRaises(db, e, v) {
      InterlockExact(db, e, v);
    }
  }

  lemma AttemptIsSound(db: Db, id: Id)
    requires Consistent(db) && id in db.attempts
    ensures Authorised(db, db.attempts[id].adjustmentId)
    ensures db.attempts[id].state == InFlight ==> ShutsOutNewer(db, db.attempts[id].adjustmentId)
  {
    assert AttemptRefers(db, db.attempts[id]);
    AdjustmentIsAuthorised(db, db.attempts[id].adjustmentId);
    if db.attempts[id].state == InFlight {
      BlockingShutsOut(db, db.attempts[id].adjustmentId);
    }
  }

  lemma AttemptMeans(db: Db, s: Statement)
    requires s.InsertAttempt? || s.UpdateAttempt?
    ensures Reachable(db) ==>
              && Reachable(Execute(db, s)) && Evolves(db, Execute(db, s))
              && (Admits(db, s) ==> Authorised(Execute(db, s), s.attempt.adjustmentId))
              && (Admits(db, s) && s.attempt.state == InFlight ==>
                    ShutsOutNewer(Execute(db, s), s.attempt.adjustmentId))
  {
    if Reachable(db) {
      StatementKeepsReachable(db, s);
      ReachableIsConsistent(db);
      StatementKeepsConsistent(db, s);
      StatementEvolves(db, s);
      if Admits(db, s) {
        AttemptIsSound(Execute(db, s), s.id);
      }
    }
  }

  /** The item is closed and was not closed by the principal who approved its operation. */
  ghost predicate JudgedByAnother(db: Db, k: Id) {
    && k in db.recovery && db.recovery[k].adjustmentId in db.adjustments
    && db.adjustments[db.recovery[k].adjustmentId].approvalId in db.approvals
    && ClosedByAnother(db, k, db.recovery[k].adjustmentId)
  }

  lemma ItemIsSound(db: Db, k: Id)
    requires Consistent(db) && k in db.recovery
    ensures db.recovery[k].state == Open ==> ShutsOutNewer(db, db.recovery[k].adjustmentId)
    ensures db.recovery[k].state == Closed ==> JudgedByAnother(db, k)
  {
    assert RecoveryRefers(db, db.recovery[k]);
    if db.recovery[k].state == Open {
      BlockingShutsOut(db, db.recovery[k].adjustmentId);
    } else {
      AnyClosedItemIsAnothers(db, k);
    }
  }

  lemma ItemMeans(db: Db, s: Statement)
    requires s.InsertRecovery? || s.UpdateRecovery?
    ensures Reachable(db) ==>
              && Reachable(Execute(db, s))
              && (Admits(db, s) && s.recovery.state == Open ==>
                    ShutsOutNewer(Execute(db, s), s.recovery.adjustmentId))
              && (Admits(db, s) && s.recovery.state == Closed ==> JudgedByAnother(Execute(db, s), s.id))
  {
    if Reachable(db) {
      StatementKeepsReachable(db, s);
      ReachableIsConsistent(db);
      StatementKeepsConsistent(db, s);
      if Admits(db, s) {
        ItemIsSound(Execute(db, s), s.id);
      }
    }
  }

  /** No other query of the same operation has this one's number. */
  ghost predicate NumberedApart(db: Db, id: Id) {
    && id in db.queries
    && forall k :: (&& k in db.queries && db.queries[k].operationId == db.queries[id].operationId
                    && db.queries[k].queryNo == db.queries[id].queryNo) ==> k == id
  }

  lemma QueryIsNumberedApart(db: Db, id: Id)
    requires Reachable(db) && id in db.queries
    ensures NumberedApart(db, id)
  {
    ReachableIsConsistent(db);
    forall k | k in db.queries && db.queries[k].operationId == db.queries[id].operationId
               && db.queries[k].queryNo == db.queries[id].queryNo
      ensures k == id
    {
      assert QueryRefers(db, db.queries[k]) && QueryRefers(db, db.queries[id]);
      assert AdjustmentUnique(db, db.queries[k].adjustmentId, db.adjustments[db.queries[k].adjustmentId]);
      assert QueryUnique(db, id, db.queries[id]);
    }
  }

  lemma QueryMeans(db: Db, s: Statement)
    requires s.InsertQuery?
    ensures Reachable(db) ==> Reachable(Execute(db, s))
    ensures Reachable(db) && Admits(db, s) ==> NumberedApart(Execute(db, s), s.id)
  {
    StatementKeepsReachable(db, s);
    if Reachable(db) && Admits(db, s) {
      QueryIsNumberedApart(Execute(db, s), s.id);
    }
  }
}
