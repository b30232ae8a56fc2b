/** What every accepted statement keeps, and what that makes true of every reachable state. */
module SchemaProofs {
  import opened Schema

  // ----- the invariant --------------------------------------------------------------------

  ghost predicate ApprovalsOk(db: Db) {
    forall k :: k in db.approvals ==>
      && ApprovalChecks(db.approvals[k]) && ApprovalUnique(db, k, db.approvals[k])
      && db.approvals[k].exceptionId in db.exceptions
  }

  ghost predicate AdjustmentsOk(db: Db) {
    forall k :: k in db.adjustments ==>
      && AdjustmentChecks(db.adjustments[k]) && AdjustmentUnique(db, k, db.adjustments[k])
      && AdjustmentRefers(db, db.adjustments[k])
  }

  ghost predicate OutboxOk(db: Db) {
    forall k :: k in db.outbox ==>
      && OutboxChecks(db.outbox[k]) && OutboxUnique(db, k, db.outbox[k])
      && OutboxRefers(db, db.outbox[k])
  }

  ghost predicate AttemptsOk(db: Db) {
    forall k :: k in db.attempts ==>
      && AttemptChecks(db.attempts[k]) && AttemptUnique(db, k, db.attempts[k])
      && AttemptRefers(db, db.attempts[k])
  }

  ghost predicate RecoveryOk(db: Db) {
    forall k :: k in db.recovery ==>
      && RecoveryChecks(db.recovery[k]) && RecoveryUnique(db, k, db.recovery[k])
      && RecoveryRefers(db, db.recovery[k])
  }

  ghost predicate QueriesOk(db: Db) {
    forall k :: k in db.queries ==>
      && QueryChecks(db.queries[k]) && QueryUnique(db, k, db.queries[k])
      && QueryRefers(db, db.queries[k])
  }

  /** Every row satisfies its CHECKs, its unique keys and its foreign keys. */
  ghost predicate Consistent(db: Db) {
    && ApprovalsOk(db) && AdjustmentsOk(db) && OutboxOk(db)
    && AttemptsOk(db) && RecoveryOk(db) && QueriesOk(db)
  }

  // ----- every statement keeps it ---------------------------------------------------------

  /** A written row that fits leaves the table in order. */
  lemma ApprovalWritten(db: Db, after: Db, id: Id, r: Approval)
    requires ApprovalsOk(db) && ApprovalChecks(r) && ApprovalUnique(db, id, r) && r.exceptionId in db.exceptions
    requires after == db.(approvals := db.approvals[id := r])
    ensures ApprovalsOk(after)
  {
    forall k | k in after.approvals ensures ApprovalUnique(after, k, after.approvals[k]) {
      assert k in db.approvals ==> ApprovalUnique(db, k, db.approvals[k]);
    }
  }

  /** A table that is not written stays in order while the keys it refers to stay. */
  lemma ApprovalsKept(db: Db, after: Db)
    requires ApprovalsOk(db) && after.approvals == db.approvals && db.exceptions <= after.exceptions
    ensures ApprovalsOk(after)
  {
    forall k | k in after.approvals ensures ApprovalUnique(after, k, after.approvals[k]) {
      assert ApprovalUnique(db, k, db.approvals[k]);
    }
  }

  lemma KeepsApprovals(db: Db, s: Statement)
    requires ApprovalsOk(db) && Admits(db, s)
    ensures ApprovalsOk(Apply(db, s))
  {
    if s.InsertApproval? || s.UpdateApproval? {
      ApprovalWritten(db, Apply(db, s), s.id, s.approval);
    } else {
      ApprovalsKept(db, Apply(db, s));
    }
  }

  lemma AdjustmentWritten(db: Db, after: Db, id: Id, r: Adjustment)
    requires AdjustmentsOk(db) && AdjustmentChecks(r) && AdjustmentUnique(db, id, r) && AdjustmentRefers(db, r)
    requires after == db.(adjustments := db.adjustments[id := r])
    ensures AdjustmentsOk(after)
  {
    forall k | k in after.adjustments
      ensures AdjustmentChecks(after.adjustments[k]) && AdjustmentRefers(after, after.adjustments[k])
      ensures AdjustmentUnique(after, k, after.adjustments[k])
    {
      assert k in db.adjustments ==>
        AdjustmentUnique(db, k, db.adjustments[k]) && AdjustmentRefers(db, db.adjustments[k]);
    }
  }

  lemma AdjustmentKept(db: Db, after: Db)
    requires AdjustmentsOk(db) && after.adjustments == db.adjustments
    requires forall p :: p in db.approvals ==>
               p in after.approvals
               && ((&& after.approvals[p].treatment == db.approvals[p].treatment
                    && after.approvals[p].principal == db.approvals[p].principal)
                   || forall k :: k in db.adjustments ==> db.adjustments[k].approvalId != p)
    ensures AdjustmentsOk(after)
  {
    forall k | k in after.adjustments
      ensures AdjustmentChecks(after.adjustments[k]) && AdjustmentRefers(after, after.adjustments[k])
      ensures AdjustmentUnique(after, k, after.adjustments[k])
    {
      assert AdjustmentUnique(db, k, db.adjustments[k]) && AdjustmentRefers(db, db.adjustments[k]);
    }
  }

  lemma KeepsAdjustments(db: Db, s: Statement)
    requires AdjustmentsOk(db) && Admits(db, s)
    ensures AdjustmentsOk(Apply(db, s))
  {
    if s.InsertAdjustment? || s.UpdateAdjustment? {
      AdjustmentWritten(db, Apply(db, s), s.id, s.adjustment);
    } else if s.InsertApproval? || s.UpdateApproval? {
      AdjustmentKeysKept(db, Apply(db, s), s.id, s.approval);
    } else {
      AdjustmentKept(db, Apply(db, s));
    }
  }

  lemma AdjustmentKeysKept(db: Db, after: Db, id: Id, r: Approval)
    requires AdjustmentsOk(db) && after == db.(approvals := db.approvals[id := r])
    requires id in db.approvals ==> ApprovalKeyFree(db, id, r)
    ensures AdjustmentsOk(after)
  {
    AdjustmentKept(db, after);
  }

  lemma OutboxWritten(db: Db, after: Db, id: Id, r: Outbox)
    requires OutboxOk(db) && OutboxChecks(r) && OutboxUnique(db, id, r) && OutboxRefers(db, r)
    requires after == db.(outbox := db.outbox[id := r])
    ensures OutboxOk(after)
  {
    forall k | k in after.outbox
      ensures OutboxChecks(after.outbox[k]) && OutboxRefers(after, after.outbox[k])
      ensures OutboxUnique(after, k, after.outbox[k])
    {
      assert k in db.outbox ==>
        OutboxUnique(db, k, db.outbox[k]) && OutboxRefers(db, db.outbox[k]);
    }
  }

  lemma OutboxKept(db: Db, after: Db)
    requires OutboxOk(db) && after.outbox == db.outbox
    requires db.adjustments.Keys <= after.adjustments.Keys
    ensures OutboxOk(after)
  {
    forall k | k in after.outbox
      ensures OutboxChecks(after.outbox[k]) && OutboxRefers(after, after.outbox[k])
      ensures OutboxUnique(after, k, after.outbox[k])
    {
      assert OutboxUnique(db, k, db.outbox[k]) && OutboxRefers(db, db.outbox[k]);
    }
  }

  lemma KeepsOutbox(db: Db, s: Statement)
    requires OutboxOk(db) && Admits(db, s)
    ensures OutboxOk(Apply(db, s))
  {
    match s
    case InsertOutbox(id, r) => OutboxWritten(db, Apply(db, s), id, r);
    case UpdateOutbox(id, r) => OutboxWritten(db, Apply(db, s), id, r);
    case _ => OutboxKept(db, Apply(db, s));
  }

  lemma AttemptWritten(db: Db, after: Db, id: Id, r: Attempt)
    requires AttemptsOk(db) && AttemptChecks(r) && AttemptUnique(db, id, r) && AttemptRefers(db, r)
    requires after == db.(attempts := db.attempts[id := r])
    ensures AttemptsOk(after)
  {
    forall k | k in after.attempts
      ensures AttemptChecks(after.attempts[k]) && AttemptRefers(after, after.attempts[k])
      ensures AttemptUnique(after, k, after.attempts[k])
    {
      assert k in db.attempts ==>
        AttemptUnique(db, k, db.attempts[k]) && AttemptRefers(db, db.attempts[k]);
    }
  }

  lemma AttemptKept(db: Db, after: Db)
    requires AttemptsOk(db) && after.attempts == db.attempts
    requires forall a :: a in db.adjustments ==>
               a in after.adjustments
               && (after.adjustments[a].operationId == db.adjustments[a].operationId
                   || forall k :: k in db.attempts ==> db.attempts[k].adjustmentId != a)
    ensures AttemptsOk(after)
  {
    forall k | k in after.attempts
      ensures AttemptChecks(after.attempts[k]) && AttemptRefers(after, after.attempts[k])
      ensures AttemptUnique(after, k, after.attempts[k])
    {
      assert AttemptUnique(db, k, db.attempts[k]) && AttemptRefers(db, db.attempts[k]);
    }
  }

  lemma KeepsAttempts(db: Db, s: Statement)
    requires AttemptsOk(db) && Admits(db, s)
    ensures AttemptsOk(Apply(db, s))
  {
    match s
    case InsertAttempt(id, r) => AttemptWritten(db, Apply(db, s), id, r);
    case UpdateAttempt(id, r) => AttemptWritten(db, Apply(db, s), id, r);
    case _ => AttemptKept(db, Apply(db, s));
  }

  lemma RecoveryWritten(db: Db, after: Db, id: Id, r: Recovery)
    requires RecoveryOk(db) && RecoveryChecks(r) && RecoveryUnique(db, id, r) && RecoveryRefers(db, r)
    requires after == db.(recovery := db.recovery[id := r])
    ensures RecoveryOk(after)
  {
    forall k | k in after.recovery
      ensures RecoveryChecks(after.recovery[k]) && RecoveryRefers(after, after.recovery[k])
      ensures RecoveryUnique(after, k, after.recovery[k])
    {
      assert k in db.recovery ==>
        RecoveryUnique(db, k, db.recovery[k]) && RecoveryRefers(db, db.recovery[k]);
    }
  }

  lemma RecoveryKept(db: Db, after: Db)
    requires RecoveryOk(db) && after.recovery == db.recovery
    requires forall a :: a in db.adjustments ==>
               a in after.adjustments
               && (after.adjustments[a].approvingPrincipal == db.adjustments[a].approvingPrincipal
                   || forall k :: k in db.recovery ==> db.recovery[k].adjustmentId != a)
    ensures RecoveryOk(after)
  {
    forall k | k in after.recovery
      ensures RecoveryChecks(after.recovery[k]) && RecoveryRefers(after, after.recovery[k])
      ensures RecoveryUnique(after, k, after.recovery[k])
    {
      assert RecoveryUnique(db, k, db.recovery[k]) && RecoveryRefers(db, db.recovery[k]);
    }
  }

  lemma KeepsRecovery(db: Db, s: Statement)
    requires RecoveryOk(db) && Admits(db, s)
    ensures RecoveryOk(Apply(db, s))
  {
    match s
    case InsertRecovery(id, r) => RecoveryWritten(db, Apply(db, s), id, r);
    case UpdateRecovery(id, r) => RecoveryWritten(db, Apply(db, s), id, r);
    case _ => RecoveryKept(db, Apply(db, s));
  }

  lemma QueryWritten(db: Db, after: Db, id: Id, r: Query)
    requires QueriesOk(db) && QueryChecks(r) && QueryUnique(db, id, r) && QueryRefers(db, r)
    requires after == db.(queries := db.queries[id := r])
    ensures QueriesOk(after)
  {
    forall k | k in after.queries
      ensures QueryChecks(after.queries[k]) && QueryRefers(after, after.queries[k])
      ensures QueryUnique(after, k, after.queries[k])
    {
      assert k in db.queries ==>
        QueryUnique(db, k, db.queries[k]) && QueryRefers(db, db.queries[k]);
    }
  }

  lemma QueryKept(db: Db, after: Db)
    requires QueriesOk(db) && after.queries == db.queries
    requires forall a :: a in db.adjustments ==>
               a in after.adjustments
               && (after.adjustments[a].operationId == db.adjustments[a].operationId
                   || forall k :: k in db.queries ==> db.queries[k].adjustmentId != a)
    ensures QueriesOk(after)
  {
    forall k | k in after.queries
      ensures QueryChecks(after.queries[k]) && QueryRefers(after, after.queries[k])
      ensures QueryUnique(after, k, after.queries[k])
    {
      assert QueryUnique(db, k, db.queries[k]) && QueryRefers(db, db.queries[k]);
    }
  }

  lemma KeepsQueries(db: Db, s: Statement)
    requires QueriesOk(db) && Admits(db, s)
    ensures QueriesOk(Apply(db, s))
  {
    match s
    case InsertQuery(id, r) => QueryWritten(db, Apply(db, s), id, r);
    case _ => QueryKept(db, Apply(db, s));
  }

  /** Each accepted statement checks only the row it writes and the keys that row touches; that is
      enough to keep every constraint of every table. */
  lemma StatementKeepsConsistent(db: Db, s: Statement)
    requires Consistent(db)
    ensures Consistent(Execute(db, s))
  {
    if Admits(db, s) {
      KeepsApprovals(db, s);
      KeepsAdjustments(db, s);
      KeepsOutbox(db, s);
      KeepsAttempts(db, s);
      KeepsRecovery(db, s);
      KeepsQueries(db, s);
    }
  }

  lemma {:induction false} RunKeepsConsistent(db: Db, statements: seq<Statement>)
    requires Consistent(db)
    ensures Consistent(Run(db, statements))
  {
    if statements != [] {
      RunKeepsConsistent(db, statements[..|statements| - 1]);
      StatementKeepsConsistent(Run(db, statements[..|statements| - 1]), statements[|statements| - 1]);
    }
  }

  ghost predicate Reachable(db: Db) {
    exists statements :: db == Run(EMPTY, statements)
  }

  lemma ReachableIsConsistent(db: Db)
    requires Reachable(db)
    ensures Consistent(db)
  {
    var statements :| db == Run(EMPTY, statements);
    RunKeepsConsistent(EMPTY, statements);
  }

  lemma StatementKeepsReachable(db: Db, s: Statement)
    ensures Reachable(db) ==> Reachable(Execute(db, s))
  {
    if Reachable(db) {
      var statements :| db == Run(EMPTY, statements);
      assert (statements + [s])[..|statements|] == statements;
      assert Execute(db, s) == Run(EMPTY, statements + [s]);
    }
  }
}
