/** When two resolutions of one exception can be live at once, and when an update respects the
    interlock: the exact conditions, for every kind of statement. */
module Supersession {
  import opened Wrappers
  import opened Schema
  import opened SchemaProofs
  import opened SchemaTheorems

  // ----- at most one live operation ---------------------------------------------------------------

  /** Adjustment `a` carries out some resolution of exception `e`. */
  ghost predicate Serves(db: Db, a: Id, e: Id) {
    && a in db.adjustments && db.adjustments[a].approvalId in db.approvals
    && db.approvals[db.adjustments[a].approvalId].exceptionId == e
  }

  ghost predicate Live(db: Db, a: Id, e: Id) {
    Serves(db, a, e) && HasInFlight(db, a)
  }

  /** At most one operation of exception `e` has a send in flight. */
  ghost predicate OneLiveOperation(db: Db, e: Id) {
    forall a, b :: Live(db, a, e) && Live(db, b, e) ==> a == b
  }

  /** The statement makes operation `a` a live operation of `e`: by sending it, by moving its decision to
      `e`, or by moving it to a decision of `e`. */
  ghost predicate BringsIn(db: Db, s: Statement, a: Id, e: Id) {
    match s
    case InsertAttempt(_, r) => a == r.adjustmentId && r.state == InFlight && Serves(db, a, e)
    case UpdateApproval(id, r) =>
      r.exceptionId == e && a in db.adjustments && db.adjustments[a].approvalId == id && HasInFlight(db, a)
    case UpdateAdjustment(id, r) =>
      && a == id && HasInFlight(db, a)
      && r.approvalId in db.approvals && db.approvals[r.approvalId].exceptionId == e
    case _ => false
  }

  /** What a caller can look up before the statement: an operation it brings in finds no other operation
      of the exception in flight. */
  ghost predicate FindsNoOther(db: Db, s: Statement, e: Id) {
    forall a, b :: BringsIn(db, s, a, e) && Live(db, b, e) ==> a == b
  }

  /** The statement concerns operation `a`. */
  ghost predicate Concerns(db: Db, s: Statement, a: Id) {
    match s
    case InsertAttempt(_, r) => a == r.adjustmentId
    case UpdateAttempt(_, r) => a == r.adjustmentId
    case UpdateApproval(id, _) => a in db.adjustments && db.adjustments[a].approvalId == id
    case UpdateAdjustment(id, _) => a == id
    case _ => false
  }

  lemma ConcernsOne(db: Db, s: Statement, a: Id, b: Id)
    requires AdjustmentsOk(db) && Concerns(db, s, a) && Concerns(db, s, b)
    ensures a == b
  {
    if s.UpdateApproval? {
      assert AdjustmentUnique(db, a, db.adjustments[a]);
    }
  }

  lemma InFlightGrows(db: Db, after: Db, id: Id, r: Attempt, a: Id)
    requires after == db.(attempts := db.attempts[id := r])
    requires id in db.attempts ==> r.adjustmentId == db.attempts[id].adjustmentId
    ensures a != r.adjustmentId ==> (HasInFlight(after, a) <==> HasInFlight(db, a))
    ensures id !in db.attempts && a == r.adjustmentId ==>
              (HasInFlight(after, a) <==> HasInFlight(db, a) || r.state == InFlight)
    ensures id in db.attempts && (r.state == InFlight ==> db.attempts[id].state == InFlight) ==>
              (HasInFlight(after, a) ==> HasInFlight(db, a))
  {
    if k :| k in db.attempts && db.attempts[k].adjustmentId == a && db.attempts[k].state == InFlight {
      if k != id {
        assert k in after.attempts && after.attempts[k] == db.attempts[k];
      }
    }
    assert id in after.attempts && after.attempts[id] == r;
    if k :| k in after.attempts && after.attempts[k].adjustmentId == a && after.attempts[k].state == InFlight {
      assert k != id ==> k in db.attempts && db.attempts[k] == after.attempts[k];
      assert k == id && id in db.attempts && db.attempts[id].state == InFlight ==> HasInFlight(db, a);
    }
  }

  /** An operation the statement does not concern is live after it exactly when it was before, and one
      that is live after it was live before or is brought in by it. */
  ghost predicate Tracks(db: Db, s: Statement, a: Id, e: Id) {
    && (!Concerns(db, s, a) ==> (Live(Apply(db, s), a, e) <==> Live(db, a, e)))
    && (Live(Apply(db, s), a, e) ==> Live(db, a, e) || BringsIn(db, s, a, e))
    && (BringsIn(db, s, a, e) ==> Live(Apply(db, s), a, e) && Concerns(db, s, a))
  }

  lemma SendTracks(db: Db, s: Statement, a: Id, e: Id)
    requires s.InsertAttempt? && Admits(db, s)
    ensures Tracks(db, s, a, e)
  {
    InFlightGrows(db, Apply(db, s), s.id, s.attempt, a);
  }

  lemma ResolveTracks(db: Db, s: Statement, a: Id, e: Id)
    requires s.UpdateAttempt? && Admits(db, s)
    ensures Tracks(db, s, a, e)
  {
    InFlightGrows(db, Apply(db, s), s.id, s.attempt, a);
  }

  lemma ApprovalTracks(db: Db, s: Statement, a: Id, e: Id)
    requires s.UpdateApproval? && s.id in db.approvals
    ensures Tracks(db, s, a, e)
  {
    var after := Apply(db, s);
    assert HasInFlight(after, a) == HasInFlight(db, a);
  }

  lemma AdjustmentTracks(db: Db, s: Statement, a: Id, e: Id)
    requires s.UpdateAdjustment? && s.id in db.adjustments
    ensures Tracks(db, s, a, e)
  {
    var after := Apply(db, s);
    assert HasInFlight(after, a) == HasInFlight(db, a);
  }

  lemma NewDecisionTracks(db: Db, s: Statement, a: Id, e: Id)
    requires s.InsertApproval? && AdjustmentsOk(db) && s.id !in db.approvals
    ensures Tracks(db, s, a, e)
  {
    var after := Apply(db, s);
    assert HasInFlight(after, a) == HasInFlight(db, a);
    assert a in db.adjustments ==> AdjustmentRefers(db, db.adjustments[a]);
  }

  lemma NewAdjustmentTracks(db: Db, s: Statement, a: Id, e: Id)
    requires s.InsertAdjustment? && AttemptsOk(db) && s.id !in db.adjustments
    ensures Tracks(db, s, a, e)
  {
    var after := Apply(db, s);
    assert HasInFlight(after, a) == HasInFlight(db, a);
    if k :| k in db.attempts && db.attempts[k].adjustmentId == a && db.attempts[k].state == InFlight {
      assert AttemptRefers(db, db.attempts[k]);
    }
  }

  lemma OtherTracks(db: Db, s: Statement, a: Id, e: Id)
    requires !s.InsertAttempt? && !s.UpdateAttempt? && !s.InsertApproval? && !s.UpdateApproval?
    requires !s.InsertAdjustment? && !s.UpdateAdjustment?
    ensures Tracks(db, s, a, e)
  {
    assert HasInFlight(Apply(db, s), a) == HasInFlight(db, a);
  }

  lemma LiveAfter(db: Db, s: Statement, a: Id, e: Id)
    requires Consistent(db) && Admits(db, s)
    ensures Tracks(db, s, a, e)
  {
    if s.InsertAttempt? {
      SendTracks(db, s, a, e);
    } else if s.UpdateAttempt? {
      ResolveTracks(db, s, a, e);
    } else if s.InsertApproval? {
      NewDecisionTracks(db, s, a, e);
    } else if s.UpdateApproval? {
      ApprovalTracks(db, s, a, e);
    } else if s.InsertAdjustment? {
      NewAdjustmentTracks(db, s, a, e);
    } else if s.UpdateAdjustment? {
      AdjustmentTracks(db, s, a, e);
    } else {
      OtherTracks(db, s, a, e);
    }
  }

  /** Where one operation stays live, the one brought in is the one found in flight. */
  lemma BroughtInIsTheOther(db: Db, s: Statement, a: Id, b: Id, e: Id)
    requires Consistent(db) && Admits(db, s) && OneLiveOperation(Apply(db, s), e)
    requires BringsIn(db, s, a, e) && Live(db, b, e)
    ensures a == b
  {
    LiveAfter(db, s, a, e);
    LiveAfter(db, s, b, e);
    if Concerns(db, s, b) {
      ConcernsOne(db, s, a, b);
    }
  }

  /** Where the one brought in finds no other, two that are live afterwards are one. */
  lemma LiveAfterwardsIsOne(db: Db, s: Statement, a: Id, b: Id, e: Id)
    requires Consistent(db) && Admits(db, s) && OneLiveOperation(db, e) && FindsNoOther(db, s, e)
    requires Live(Apply(db, s), a, e) && Live(Apply(db, s), b, e)
    ensures a == b
  {
    LiveAfter(db, s, a, e);
    LiveAfter(db, s, b, e);
    if BringsIn(db, s, a, e) && BringsIn(db, s, b, e) {
      ConcernsOne(db, s, a, b);
    }
  }

  /** For every statement the database accepts: it keeps at most one live operation of an exception if
      and only if an operation it brings in finds no other one in flight. The schema does not check it. */
  lemma StatementKeepsOneLiveIff(db: Db, s: Statement, e: Id)
    requires Consistent(db) && Admits(db, s) && OneLiveOperation(db, e)
    ensures OneLiveOperation(Apply(db, s), e) <==> FindsNoOther(db, s, e)
  {
    if OneLiveOperation(Apply(db, s), e) {
      forall a, b | BringsIn(db, s, a, e) && Live(db, b, e) ensures a == b {
        BroughtInIsTheOther(db, s, a, b, e);
      }
    }
    if FindsNoOther(db, s, e) {
      forall a, b | Live(Apply(db, s), a, e) && Live(Apply(db, s), b, e) ensures a == b {
        LiveAfterwardsIsOne(db, s, a, b, e);
      }
    }
  }

  ghost predicate AlwaysOneLive(statements: seq<Statement>, e: Id) {
    forall n :: 0 <= n <= |statements| ==> OneLiveOperation(Run(EMPTY, statements[..n]), e)
  }

  /** Each statement that is accepted finds no other operation of `e` in flight when it brings one in. */
  ghost predicate EveryoneLooked(statements: seq<Statement>, e: Id) {
    forall n :: 0 <= n < |statements| && Admits(Run(EMPTY, statements[..n]), statements[n]) ==>
      FindsNoOther(Run(EMPTY, statements[..n]), statements[n], e)
  }

  lemma {:induction false} OneLiveUpTo(statements: seq<Statement>, e: Id, n: nat)
    requires n <= |statements| && EveryoneLooked(statements, e)
    ensures OneLiveOperation(Run(EMPTY, statements[..n]), e)
  {
    if n == 0 {
      assert Run(EMPTY, statements[..0]) == EMPTY;
    } else {
      OneLiveUpTo(statements, e, n - 1);
      var db := Run(EMPTY, statements[..n - 1]);
      RunKeepsConsistent(EMPTY, statements[..n - 1]);
      RunExtends(statements, n);
      if Admits(db, statements[n - 1]) {
        StatementKeepsOneLiveIff(db, statements[n - 1], e);
      }
    }
  }

  /** Two resolutions of an exception are never live at once along a run if and only if every statement of
      the run that brings an operation in finds no other one in flight. */
  lemma RunKeepsOneLiveIff(statements: seq<Statement>, e: Id)
    ensures AlwaysOneLive(statements, e) <==> EveryoneLooked(statements, e)
  {
    if EveryoneLooked(statements, e) {
      forall n | 0 <= n <= |statements| ensures OneLiveOperation(Run(EMPTY, statements[..n]), e) {
        OneLiveUpTo(statements, e, n);
      }
    }
    if AlwaysOneLive(statements, e) {
      forall n | 0 <= n < |statements| && Admits(Run(EMPTY, statements[..n]), statements[n])
        ensures FindsNoOther(Run(EMPTY, statements[..n]), statements[n], e)
      {
        RunKeepsConsistent(EMPTY, statements[..n]);
        RunExtends(statements, n + 1);
        StatementKeepsOneLiveIff(Run(EMPTY, statements[..n]), statements[n], e);
      }
    }
  }

  // ----- an update and the interlock -----------------------------------------------------------------

  /** Every operation of `e` below `v` is released, the one under approval `except` aside. */
  ghost predicate LowerReleased(db: Db, e: Id, v: int, except: Option<Id>) {
    forall a, w :: Carries(db, a, e, w) && w < v && Some(db.adjustments[a].approvalId) != except ==>
      Released(db, a)
  }

  lemma ReleasedAfterUpdate(db: Db, id: Id, r: Approval, a: Id)
    requires a in db.adjustments && db.adjustments[a].approvalId != id
    requires db.adjustments[a].approvalId in db.approvals
    ensures Released(Apply(db, UpdateApproval(id, r)), a) <==> Released(db, a)
  {
    SameRelease(db, db.(approvals := db.approvals[id := r]), a);
  }

  /** Whether an operation is released depends on its own decision's principal and on the other tables. */
  lemma SameRelease(db: Db, after: Db, a: Id)
    requires a in db.adjustments && db.adjustments[a].approvalId in db.approvals
    requires after.adjustments == db.adjustments && after.attempts == db.attempts
    requires after.recovery == db.recovery && after.outbox == db.outbox
    requires db.adjustments[a].approvalId in after.approvals
    requires after.approvals[db.adjustments[a].approvalId] == db.approvals[db.adjustments[a].approvalId]
    ensures Released(after, a) <==> Released(db, a)
  {
    assert HasInFlight(after, a) == HasInFlight(db, a);
    assert HasOpenRecovery(after, a) == HasOpenRecovery(db, a);
    assert OutcomeUndetermined(after, a) == OutcomeUndetermined(db, a);
    assert forall k :: k in db.recovery ==> ClosedByAnother(after, k, a) == ClosedByAnother(db, k, a);
  }

  lemma CarriesAfterUpdate(db: Db, id: Id, r: Approval, a: Id, w: int)
    requires id in db.approvals && w < r.version
    ensures Carries(Apply(db, UpdateApproval(id, r)), a, r.exceptionId, w) <==>
            Carries(db, a, r.exceptionId, w) && db.adjustments[a].approvalId != id
  {}

  /** The trigger does not look at updates. An accepted update leaves every operation below the version it
      writes released, as an insert would have required, if and only if the operations below that version
      were released before it, its own aside. */
  lemma UpdateRespectsInterlockIff(db: Db, id: Id, r: Approval)
    requires Consistent(db) && Admits(db, UpdateApproval(id, r))
    ensures LowerReleased(Apply(db, UpdateApproval(id, r)), r.exceptionId, r.version, None) <==>
            LowerReleased(db, r.exceptionId, r.version, Some(id))
  {
    var after, e, v := Apply(db, UpdateApproval(id, r)), r.exceptionId, r.version;
    forall a, w | w < v && Carries(after, a, e, w)
      ensures Carries(db, a, e, w) && db.adjustments[a].approvalId != id
      ensures Released(after, a) <==> Released(db, a)
    {
      CarriesAfterUpdate(db, id, r, a, w);
      ReleasedAfterUpdate(db, id, r, a);
    }
    forall a, w | w < v && Carries(db, a, e, w) && db.adjustments[a].approvalId != id
      ensures Carries(after, a, e, w) && (Released(after, a) <==> Released(db, a))
    {
      CarriesAfterUpdate(db, id, r, a, w);
      ReleasedAfterUpdate(db, id, r, a);
    }
  }

  /** So the trigger, asked again after the update, would be silent exactly under that condition. */
  lemma UpdateLeavesInterlockSilentIff(db: Db, id: Id, r: Approval)
    requires Consistent(db) && Admits(db, UpdateApproval(id, r))
    ensures !InterlockRaises(Apply(db, UpdateApproval(id, r)), r.exceptionId, r.version) <==>
            LowerReleased(db, r.exceptionId, r.version, Some(id))
  {
    var after := Apply(db, UpdateApproval(id, r));
    StatementKeepsConsistent(db, UpdateApproval(id, r));
    InterlockExact(after, r.exceptionId, r.version);
    UpdateRespectsInterlockIff(db, id, r);
    NothingAside(after, r.exceptionId, r.version);
  }

  lemma NothingAside(db: Db, e: Id, v: int)
    requires AdjustmentsOk(db)
    ensures LowerReleased(db, e, v, None) <==> forall a, w :: Carries(db, a, e, w) && w < v ==> Released(db, a)
  {}
}
