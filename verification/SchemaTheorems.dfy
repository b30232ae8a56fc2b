/** The guarantees that span several reliability tables and whole runs. */
module SchemaTheorems {
  import opened Wrappers
  import opened SqlLogic
  import opened Schema
  import opened SchemaProofs
  import opened RowChecks

  // ----- who authorised what --------------------------------------------------------------

  /** Adjustment `a` carries out resolution `version` of exception `e`. */
  ghost predicate Carries(db: Db, a: Id, e: Id, version: int) {
    && a in db.adjustments && db.adjustments[a].approvalId in db.approvals
    && db.approvals[db.adjustments[a].approvalId].exceptionId == e
    && db.approvals[db.adjustments[a].approvalId].version == version
  }

  /** Every attempt names one adjustment, that adjustment one decision, and the decision said yes to
      a treatment that may be posted; where it was an edit, someone other than its principal asked for it. */
  lemma AttemptTracesToOneDecision(db: Db, k: Id)
    requires Reachable(db) && k in db.attempts
    ensures var a := db.attempts[k].adjustmentId;
            && a in db.adjustments
            && (forall b :: b in db.adjustments ==>
                  (db.adjustments[b].operationId == db.attempts[k].operationId <==> b == a))
            && var p := db.adjustments[a].approvalId;
               && p in db.approvals
               && db.approvals[p].decision in {Approved, Edited}
               && (db.approvals[p].decision == Edited ==>
                     db.approvals[p].requestedBy.Some?
                     && db.approvals[p].requestedBy.value != db.approvals[p].principal)
               && db.approvals[p].treatment == Some(db.adjustments[a].treatment)
               && db.adjustments[a].treatment != Escalate
               && (forall b :: b in db.adjustments && db.adjustments[b].approvalId == p ==> b == a)
  {
    ReachableIsConsistent(db);
    var a := db.attempts[k].adjustmentId;
    assert AttemptRefers(db, db.attempts[k]);
    assert AdjustmentRefers(db, db.adjustments[a]) && AdjustmentChecks(db.adjustments[a]);
    assert AdjustmentUnique(db, a, db.adjustments[a]);
    ApprovalChecksIff(db.approvals[db.adjustments[a].approvalId]);
  }

  /** A resolution and an operation identifier determine each other across all attempts. */
  lemma SameResolutionIffSameOperation(db: Db, k: Id, l: Id, e: Id, v: int, f: Id, w: int)
    requires Reachable(db) && k in db.attempts && l in db.attempts
    requires Carries(db, db.attempts[k].adjustmentId, e, v)
    requires Carries(db, db.attempts[l].adjustmentId, f, w)
    ensures db.attempts[k].operationId == db.attempts[l].operationId <==> e == f && v == w
  {
    ReachableIsConsistent(db);
    AttemptTracesToOneDecision(db, k);
    AttemptTracesToOneDecision(db, l);
    var a, b := db.attempts[k].adjustmentId, db.attempts[l].adjustmentId;
    var p := db.adjustments[a].approvalId;
    assert ApprovalUnique(db, p, db.approvals[p]);
    assert AttemptRefers(db, db.attempts[l]) && AttemptRefers(db, db.attempts[k]);
  }

  // ----- the supersession interlock -------------------------------------------------------

  ghost predicate OutcomeUndetermined(db: Db, a: Id) {
    exists k :: k in db.outbox && db.outbox[k].adjustmentId == a
                && db.outbox[k].lastOutcome in {Some(Ambiguous), Some(PartiallyApplied)}
  }

  /** Recovery item `k` of adjustment `a` was closed by someone other than the principal on the
      approval that authorised `a`. */
  ghost predicate ClosedByAnother(db: Db, k: Id, a: Id)
    requires k in db.recovery && a in db.adjustments
    requires db.adjustments[a].approvalId in db.approvals
  {
    && db.recovery[k].adjustmentId == a && db.recovery[k].state == Closed
    && db.recovery[k].resolvedBy.Some? && db.recovery[k].resolution.Some?
    && db.recovery[k].resolvedBy.value != db.approvals[db.adjustments[a].approvalId].principal
  }

  /** Operation `a` no longer stands in the way of a newer resolution. */
  ghost predicate Released(db: Db, a: Id)
    requires a in db.adjustments && db.adjustments[a].approvalId in db.approvals
  {
    && !HasInFlight(db, a)
    && !HasOpenRecovery(db, a)
    && (OutcomeUndetermined(db, a) ==> exists k :: k in db.recovery && ClosedByAnother(db, k, a))
  }

  /** The three-valued WHERE clause, read as an ordinary condition: a NULL outcome never fires the
      last disjunct and never stops the first two. */
  lemma WhereFires(db: Db, prior: Approval, a: Id, outcome: Option<Outcome>, e: Id, v: int)
    ensures Fires(InterlockWhere(db, prior, a, outcome, e, v)) <==>
            && prior.exceptionId == e && prior.version < v
            && (|| HasInFlight(db, a) || HasOpenRecovery(db, a)
                || (outcome in {Some(Ambiguous), Some(PartiallyApplied)} && !HasRecovery(db, a)))
  {}

  ghost predicate Blocks(db: Db, a: Id) {
    || HasInFlight(db, a) || HasOpenRecovery(db, a)
    || (OutcomeUndetermined(db, a) && !HasRecovery(db, a))
  }

  /** The joined query keeps a row for adjustment `a` exactly when `a` is a lower-version operation of
      the exception that is in flight, open in recovery, or undetermined with no recovery item. */
  lemma BlockingRowExact(db: Db, a: Id, e: Id, v: int)
    requires Consistent(db) && a in db.adjustments
    ensures var p := db.adjustments[a].approvalId;
            QueryReturns(db, p, a, e, v) <==>
            && p in db.approvals
            && db.approvals[p].exceptionId == e && db.approvals[p].version < v && Blocks(db, a)
  {
    assert AdjustmentRefers(db, db.adjustments[a]);
    if k :| k in db.outbox && db.outbox[k].adjustmentId == a {
      BlockingRowWithOutbox(db, a, k, e, v);
    } else {
      WhereFires(db, db.approvals[db.adjustments[a].approvalId], a, None, e, v);
    }
  }

  lemma BlockingRowWithOutbox(db: Db, a: Id, k: Id, e: Id, v: int)
    requires OutboxOk(db) && a in db.adjustments && db.adjustments[a].approvalId in db.approvals
    requires k in db.outbox && db.outbox[k].adjustmentId == a
    ensures var p := db.adjustments[a].approvalId;
            QueryReturns(db, p, a, e, v) <==>
            db.approvals[p].exceptionId == e && db.approvals[p].version < v && Blocks(db, a)
  {
    var p := db.adjustments[a].approvalId;
    WhereFires(db, db.approvals[p], a, db.outbox[k].lastOutcome, e, v);
    forall l | l in db.outbox && db.outbox[l].adjustmentId == a ensures l == k {
      assert OutboxUnique(db, k, db.outbox[k]);
    }
    assert OutcomeUndetermined(db, a) <==>
           db.outbox[k].lastOutcome in {Some(Ambiguous), Some(PartiallyApplied)};
    assert !BlockingRow(db, p, a, None, e, v);
    assert BlockingRow(db, p, a, Some(k), e, v) <==>
           Fires(InterlockWhere(db, db.approvals[p], a, db.outbox[k].lastOutcome, e, v));
  }

  /** With no open item and at least one item, the item is closed, fully recorded, and by the key
      chain recovery -> adjustment -> approval it was not closed by the approver. */
  lemma AnyClosedItemIsAnothers(db: Db, k: Id)
    requires Consistent(db) && k in db.recovery && db.recovery[k].state == Closed
    ensures db.recovery[k].adjustmentId in db.adjustments
    ensures db.adjustments[db.recovery[k].adjustmentId].approvalId in db.approvals
    ensures ClosedByAnother(db, k, db.recovery[k].adjustmentId)
  {
    assert RecoveryRefers(db, db.recovery[k]) && RecoveryChecks(db.recovery[k]);
    assert AdjustmentRefers(db, db.adjustments[db.recovery[k].adjustmentId]);
  }

  lemma ItemWasClosedByAnother(db: Db, a: Id)
    requires Consistent(db) && a in db.adjustments && HasRecovery(db, a) && !HasOpenRecovery(db, a)
    ensures db.adjustments[a].approvalId in db.approvals
    ensures exists k :: k in db.recovery && ClosedByAnother(db, k, a)
  {
    var k :| k in db.recovery && db.recovery[k].adjustmentId == a;
    AnyClosedItemIsAnothers(db, k);
  }

  lemma ReleasedIffNotBlocking(db: Db, a: Id)
    requires Consistent(db) && a in db.adjustments
    ensures db.adjustments[a].approvalId in db.approvals
    ensures Released(db, a) <==> !Blocks(db, a)
  {
    assert AdjustmentRefers(db, db.adjustments[a]);
    if !HasOpenRecovery(db, a) && HasRecovery(db, a) {
      ItemWasClosedByAnother(db, a);
    }
  }

  /** The interlock lets a version through exactly when every lower-version operation of the
      exception is released. */
  lemma InterlockExact(db: Db, e: Id, v: int)
    requires Consistent(db)
    ensures !InterlockRaises(db, e, v) <==>
            forall a, w :: Carries(db, a, e, w) && w < v ==> Released(db, a)
  {
    if !InterlockRaises(db, e, v) {
      forall a, w | Carries(db, a, e, w) && w < v ensures Released(db, a) {
        InterlockSilent(db, a, e, v);
        ReleasedIffNotBlocking(db, a);
      }
    } else {
      var a := InterlockWitness(db, e, v);
      ReleasedIffNotBlocking(db, a);
      assert Carries(db, a, e, db.approvals[db.adjustments[a].approvalId].version);
    }
  }

  lemma InterlockSilent(db: Db, a: Id, e: Id, v: int)
    requires Consistent(db) && !InterlockRaises(db, e, v) && a in db.adjustments
    requires db.adjustments[a].approvalId in db.approvals
    requires db.approvals[db.adjustments[a].approvalId].exceptionId == e
    requires db.approvals[db.adjustments[a].approvalId].version < v
    ensures !Blocks(db, a)
  {
    BlockingRowExact(db, a, e, v);
  }

  lemma InterlockWitness(db: Db, e: Id, v: int) returns (a: Id)
    requires Consistent(db) && InterlockRaises(db, e, v)
    ensures a in db.adjustments && db.adjustments[a].approvalId in db.approvals
    ensures db.approvals[db.adjustments[a].approvalId].exceptionId == e
    ensures db.approvals[db.adjustments[a].approvalId].version < v && Blocks(db, a)
  {
    var p, b :| p in db.approvals && b in db.adjustments && QueryReturns(db, p, b, e, v);
    a := b;
    assert p == db.adjustments[a].approvalId;
    BlockingRowExact(db, a, e, v);
  }

  /** Admitting a resolution version: every lower operation of the exception is released, before the
      statement and after it. */
  lemma SupersessionInterlock(db: Db, id: Id, r: Approval)
    requires Reachable(db) && Admits(db, InsertApproval(id, r))
    ensures var after := Apply(db, InsertApproval(id, r));
            forall a, w :: Carries(after, a, r.exceptionId, w) && w < r.version ==> Released(after, a)
  {
    ReachableIsConsistent(db);
    AdmittedLeavesReleased(db, id, r);
  }

  lemma AdmittedLeavesReleased(db: Db, id: Id, r: Approval)
    requires Consistent(db) && Admits(db, InsertApproval(id, r))
    ensures var after := Apply(db, InsertApproval(id, r));
            forall a, w :: Carries(after, a, r.exceptionId, w) && w < r.version ==> Released(after, a)
  {
    InterlockExact(db, r.exceptionId, r.version);
    var after := Apply(db, InsertApproval(id, r));
    forall a, w | Carries(after, a, r.exceptionId, w) && w < r.version
      ensures Released(after, a)
    {
      assert AdjustmentRefers(db, db.adjustments[a]);
      assert Carries(db, a, r.exceptionId, w);
      assert Released(db, a);
      if OutcomeUndetermined(after, a) {
        assert OutcomeUndetermined(db, a);
        var k :| k in db.recovery && ClosedByAnother(db, k, a);
        assert ClosedByAnother(after, k, a);
      }
    }
  }

  // ----- what never changes along a run ---------------------------------------------------

  ghost predicate AttemptEvolves(old_: Attempt, new_: Attempt) {
    && new_.adjustmentId == old_.adjustmentId && new_.operationId == old_.operationId
    && new_.attemptNo == old_.attemptNo && new_.sentAt == old_.sentAt
    && (old_.outcome.Some? ==> new_.outcome == old_.outcome)
    && (old_.state == Resolved ==> new_.state == Resolved)
  }

  ghost predicate OutboxEvolves(old_: Outbox, new_: Outbox) {
    && (old_.lastOutcome in {Some(Confirmed), Some(Declined)} ==> new_.lastOutcome == old_.lastOutcome)
    && (old_.state == Settled ==> new_.state == Settled && new_.lastOutcome == old_.lastOutcome
                                  && new_.lastOutcome in {Some(Confirmed), Some(Declined)})
  }

  /** What any two states of one run, earlier and later, have in common. */
  ghost predicate Evolves(before: Db, after: Db) {
    && (forall k :: k in before.attempts ==>
          k in after.attempts && AttemptEvolves(before.attempts[k], after.attempts[k]))
    && (forall k :: k in before.outbox ==>
          k in after.outbox && OutboxEvolves(before.outbox[k], after.outbox[k]))
    && (forall k :: k in before.queries ==>
          k in after.queries && after.queries[k] == before.queries[k])
    && (forall k :: k in before.attempts ==>
          && before.attempts[k].adjustmentId in before.adjustments
          && before.attempts[k].adjustmentId in after.adjustments
          && after.adjustments[before.attempts[k].adjustmentId].operationId
             == before.adjustments[before.attempts[k].adjustmentId].operationId)
  }

  lemma StatementKeepsAttempts(db: Db, s: Statement)
    requires Admits(db, s)
    ensures forall k :: k in db.attempts ==>
              k in Apply(db, s).attempts && AttemptEvolves(db.attempts[k], Apply(db, s).attempts[k])
  {}

  lemma StatementKeepsOutcomes(db: Db, s: Statement)
    requires OutboxOk(db) && Admits(db, s)
    ensures forall k :: k in db.outbox ==>
              k in Apply(db, s).outbox && OutboxEvolves(db.outbox[k], Apply(db, s).outbox[k])
  {
    forall k | k in db.outbox
      ensures k in Apply(db, s).outbox && OutboxEvolves(db.outbox[k], Apply(db, s).outbox[k])
    {
      assert OutboxChecks(db.outbox[k]);
    }
  }

  lemma StatementKeepsOperation(db: Db, s: Statement, k: Id)
    requires AttemptsOk(db) && Admits(db, s) && k in db.attempts
    ensures var a := db.attempts[k].adjustmentId;
            && a in db.adjustments && a in Apply(db, s).adjustments
            && Apply(db, s).adjustments[a].operationId == db.adjustments[a].operationId
  {
    assert AttemptRefers(db, db.attempts[k]);
  }

  lemma StatementKeepsOperations(db: Db, s: Statement)
    requires AttemptsOk(db) && Admits(db, s)
    ensures forall k :: k in db.attempts ==>
              && db.attempts[k].adjustmentId in db.adjustments
              && db.attempts[k].adjustmentId in Apply(db, s).adjustments
              && Apply(db, s).adjustments[db.attempts[k].adjustmentId].operationId
                 == db.adjustments[db.attempts[k].adjustmentId].operationId
  {
    forall k | k in db.attempts
      ensures var a := db.attempts[k].adjustmentId;
              && a in db.adjustments && a in Apply(db, s).adjustments
              && Apply(db, s).adjustments[a].operationId == db.adjustments[a].operationId
    {
      StatementKeepsOperation(db, s, k);
    }
  }

  lemma AdmittedEvolves(db: Db, s: Statement)
    requires OutboxOk(db) && AttemptsOk(db) && Admits(db, s)
    ensures Evolves(db, Apply(db, s))
  {
    StatementKeepsAttempts(db, s);
    StatementKeepsOutcomes(db, s);
    StatementKeepsOperations(db, s);
  }

  lemma StatementEvolves(db: Db, s: Statement)
    requires Consistent(db)
    ensures Evolves(db, Execute(db, s))
  {
    if Admits(db, s) {
      AdmittedEvolves(db, s);
    } else {
      EvolvesReflexive(db);
    }
  }

  lemma EvolvesReflexive(db: Db)
    requires Consistent(db)
    ensures Evolves(db, db)
  {
    forall k | k in db.outbox ensures OutboxEvolves(db.outbox[k], db.outbox[k]) {
      SettledIsTerminal(db.outbox[k]);
    }
    forall k | k in db.attempts ensures db.attempts[k].adjustmentId in db.adjustments {
      AttemptHasAdjustment(db, k);
    }
  }

  lemma SettledIsTerminal(o: Outbox)
    requires OutboxChecks(o)
    ensures OutboxEvolves(o, o)
  {}

  lemma AttemptHasAdjustment(db: Db, k: Id)
    requires AttemptsOk(db) && k in db.attempts
    ensures db.attempts[k].adjustmentId in db.adjustments
  {
    assert AttemptRefers(db, db.attempts[k]);
  }

  lemma EvolvesTransitive(x: Db, y: Db, z: Db)
    requires Evolves(x, y) && Evolves(y, z)
    ensures Evolves(x, z)
  {}

  /** Attempt evidence, terminal outcomes, appended queries and attempted operation identifiers are
      final: any earlier state of any run agrees with any later one. */
  lemma {:induction false} RunEvolves(statements: seq<Statement>, i: nat, j: nat)
    requires i <= j <= |statements|
    ensures Evolves(Run(EMPTY, statements[..i]), Run(EMPTY, statements[..j]))
    decreases j
  {
    if i == j {
      RunKeepsConsistent(EMPTY, statements[..i]);
      EvolvesReflexive(Run(EMPTY, statements[..i]));
    } else {
      RunEvolves(statements, i, j - 1);
      RunKeepsConsistent(EMPTY, statements[..j - 1]);
      RunExtends(statements, j);
      StatementEvolves(Run(EMPTY, statements[..j - 1]), statements[j - 1]);
      EvolvesTransitive(Run(EMPTY, statements[..i]), Run(EMPTY, statements[..j - 1]),
                        Run(EMPTY, statements[..j]));
    }
  }

  lemma RunExtends(statements: seq<Statement>, j: nat)
    requires 0 < j <= |statements|
    ensures Run(EMPTY, statements[..j]) == Execute(Run(EMPTY, statements[..j - 1]), statements[j - 1])
  {
    assert statements[..j][..j - 1] == statements[..j - 1];
  }

  /** How often the run changed the outcome recorded on attempt `k`. */
  ghost function OutcomeChanges(statements: seq<Statement>, k: Id): nat {
    if statements == [] then 0
    else
      var before := Run(EMPTY, statements[..|statements| - 1]);
      var after := Run(EMPTY, statements);
      OutcomeChanges(statements[..|statements| - 1], k)
      + if k in before.attempts && k in after.attempts
           && before.attempts[k].outcome != after.attempts[k].outcome then 1 else 0
  }

  /** An attempt's outcome moves at most once, and only away from NULL. */
  lemma {:induction false} OutcomeMovesAtMostOnce(statements: seq<Statement>, k: Id)
    ensures OutcomeChanges(statements, k) <= 1
    ensures var db := Run(EMPTY, statements);
            OutcomeChanges(statements, k) == 1 ==> k in db.attempts && db.attempts[k].outcome.Some?
  {
    if statements != [] {
      var n := |statements|;
      OutcomeMovesAtMostOnce(statements[..n - 1], k);
      RunEvolves(statements, n - 1, n);
      assert statements[..n] == statements;
    }
  }

  // ----- what the interlock promises over time ------------------------------------------------

  /** The interlock's guarantee over a run. If a send of an older version is in flight at `j`, after
      the newer version was admitted at `i`, then that send was made after the admission. */
  lemma OlderSendIsYoungerThanNewerApproval(
    statements: seq<Statement>, i: nat, j: nat, k: Id, w: int)
    requires i < j <= |statements| && statements[i].InsertApproval?
    requires Admits(Run(EMPTY, statements[..i]), statements[i])
    requires var db := Run(EMPTY, statements[..j]);
             k in db.attempts && db.attempts[k].state == InFlight
    requires var r := statements[i].approval;
             var a := Run(EMPTY, statements[..j]).attempts[k].adjustmentId;
             w < r.version
             && (a in Run(EMPTY, statements[..i]).adjustments ==>
                   Carries(Run(EMPTY, statements[..i]), a, r.exceptionId, w))
    ensures k !in Run(EMPTY, statements[..i]).attempts
  {
    var before, later := Run(EMPTY, statements[..i]), Run(EMPTY, statements[..j]);
    var r := statements[i].approval;
    if k in before.attempts {
      RunEvolves(statements, i, j);
      RunKeepsConsistent(EMPTY, statements[..i]);
      InterlockExact(before, r.exceptionId, r.version);
      var a := later.attempts[k].adjustmentId;
      assert AttemptRefers(before, before.attempts[k]);
      assert Released(before, a) && HasInFlight(before, a);
      assert false;
    }
  }
}
