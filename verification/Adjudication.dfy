/** When the interlock's release means that an ambiguous send was judged. The order that matters is the
    order of the statements, not the times the rows carry. */
module Adjudication {
  import opened Wrappers
  import opened Schema
  import opened SchemaProofs
  import opened SchemaTheorems

  // ----- one statement ------------------------------------------------------------------------------

  predicate IsAmbiguous(outcome: Option<Outcome>) {
    outcome in {Some(Ambiguous), Some(PartiallyApplied)}
  }

  /** The statement records an ambiguous outcome on a send of operation `a`. */
  predicate RecordsAmbiguity(db: Db, s: Statement, a: Id) {
    match s
    case InsertAttempt(_, r) => r.adjustmentId == a && IsAmbiguous(r.outcome)
    case UpdateAttempt(id, r) =>
      r.adjustmentId == a && IsAmbiguous(r.outcome) && id in db.attempts && db.attempts[id].outcome == None
    case _ => false
  }

  /** The statement closes a recovery item of operation `a`. */
  predicate ClosesItem(db: Db, s: Statement, a: Id) {
    match s
    case InsertRecovery(_, r) => r.adjustmentId == a && r.state == Closed
    case UpdateRecovery(id, r) =>
      r.adjustmentId == a && r.state == Closed && id in db.recovery && db.recovery[id].state == Open
    case _ => false
  }

  /** The statement moves a recovery item off operation `a` or onto it. */
  predicate MovesItem(db: Db, s: Statement, a: Id) {
    && s.UpdateRecovery? && s.id in db.recovery
    && db.recovery[s.id].adjustmentId != s.recovery.adjustmentId
    && (db.recovery[s.id].adjustmentId == a || s.recovery.adjustmentId == a)
  }

  /** What the interlock takes for a judgement: the operation has recovery items and all are closed. */
  ghost predicate LooksJudged(db: Db, a: Id) {
    HasRecovery(db, a) && !HasOpenRecovery(db, a)
  }

  /** An operation that looks judged no longer blocks a newer version, whatever its outcome, unless a send
      of it is in flight. */
  lemma LooksJudgedReleases(db: Db, a: Id)
    requires Consistent(db) && a in db.adjustments && LooksJudged(db, a)
    ensures db.adjustments[a].approvalId in db.approvals
    ensures Released(db, a) <==> !HasInFlight(db, a)
  {
    ReleasedIffNotBlocking(db, a);
  }

  // ----- the history of a run ---------------------------------------------------------------------------

  /** The run's statement `i` was accepted and records an ambiguity of `a`. */
  ghost predicate RecordedAt(statements: seq<Statement>, i: nat, a: Id) {
    && i < |statements| && Admits(Run(EMPTY, statements[..i]), statements[i])
    && RecordsAmbiguity(Run(EMPTY, statements[..i]), statements[i], a)
  }

  /** The run's statement `j` was accepted and closes an item of `a`. */
  ghost predicate ClosedAt(statements: seq<Statement>, j: nat, a: Id) {
    && j < |statements| && Admits(Run(EMPTY, statements[..j]), statements[j])
    && ClosesItem(Run(EMPTY, statements[..j]), statements[j], a)
  }

  /** Among the first `n` statements, every ambiguous outcome recorded for `a` was followed by the closing
      of an item of `a`. */
  ghost predicate JudgedBy(statements: seq<Statement>, n: nat, a: Id) {
    forall i: nat :: i < n && RecordedAt(statements, i, a) ==>
      exists j: nat :: i < j < n && ClosedAt(statements, j, a)
  }

  /** One more statement: an ambiguity leaves the operation unjudged, a closing judges it, anything else
      leaves it as it was. */
  lemma JudgedStep(statements: seq<Statement>, n: nat, a: Id)
    requires n < |statements|
    ensures RecordedAt(statements, n, a) ==> !JudgedBy(statements, n + 1, a)
    ensures ClosedAt(statements, n, a) ==> JudgedBy(statements, n + 1, a)
    ensures !RecordedAt(statements, n, a) && !ClosedAt(statements, n, a) ==>
              (JudgedBy(statements, n + 1, a) <==> JudgedBy(statements, n, a))
  {
    if !RecordedAt(statements, n, a) && !ClosedAt(statements, n, a) {
      if JudgedBy(statements, n + 1, a) {
        forall i: nat | i < n && RecordedAt(statements, i, a)
          ensures exists j: nat :: i < j < n && ClosedAt(statements, j, a)
        {
          var j: nat :| i < j < n + 1 && ClosedAt(statements, j, a);
          assert j < n;
        }
      }
      if JudgedBy(statements, n, a) {
        forall i: nat | i < n + 1 && RecordedAt(statements, i, a)
          ensures exists j: nat :: i < j < n + 1 && ClosedAt(statements, j, a)
        {
          var j: nat :| i < j < n && ClosedAt(statements, j, a);
        }
      }
    }
  }

  // ----- what changes the look of an operation ------------------------------------------------------------

  lemma RecoveryLook(db: Db, after: Db, id: Id, r: Recovery, a: Id)
    requires after == db.(recovery := db.recovery[id := r])
    ensures r.adjustmentId == a && r.state == Open ==> !LooksJudged(after, a)
    ensures r.adjustmentId != a && (id in db.recovery ==> db.recovery[id].adjustmentId != a) ==>
              (LooksJudged(after, a) <==> LooksJudged(db, a))
    ensures id in db.recovery && r.adjustmentId == db.recovery[id].adjustmentId
            && r.state == db.recovery[id].state ==>
              (LooksJudged(after, a) <==> LooksJudged(db, a))
  {
    assert after.recovery[id] == r;
    assert forall k :: k != id ==> (k in db.recovery <==> k in after.recovery);
    assert forall k :: k != id && k in db.recovery ==> db.recovery[k] == after.recovery[k];
    if r.adjustmentId != a && (id in db.recovery ==> db.recovery[id].adjustmentId != a) {
      SameItems(db, after, a);
    }
    if id in db.recovery && r.adjustmentId == db.recovery[id].adjustmentId && r.state == db.recovery[id].state {
      SameItems(db, after, a);
    }
  }

  lemma SameItems(db: Db, after: Db, a: Id)
    requires forall k :: (k in db.recovery && db.recovery[k].adjustmentId == a) <==>
                         (k in after.recovery && after.recovery[k].adjustmentId == a)
    requires forall k :: k in db.recovery && db.recovery[k].adjustmentId == a ==>
                         db.recovery[k].state == after.recovery[k].state
    ensures LooksJudged(db, a) <==> LooksJudged(after, a)
  {
    assert HasRecovery(db, a) <==> HasRecovery(after, a);
    assert HasOpenRecovery(db, a) <==> HasOpenRecovery(after, a);
  }

  /** Only closing one of its items or moving an item can make an operation look judged. */
  lemma LookChanges(db: Db, s: Statement, a: Id)
    requires Admits(db, s) && !ClosesItem(db, s, a) && !MovesItem(db, s, a)
    ensures LooksJudged(Apply(db, s), a) ==> LooksJudged(db, a)
    ensures !s.InsertRecovery? && !s.UpdateRecovery? ==> (LooksJudged(Apply(db, s), a) <==> LooksJudged(db, a))
  {
    if s.InsertRecovery? || s.UpdateRecovery? {
      RecoveryLook(db, Apply(db, s), s.id, s.recovery, a);
    } else {
      SameItems(db, Apply(db, s), a);
    }
  }

  // ----- the exact condition -------------------------------------------------------------------------------

  /** What has to hold before a statement. Recording an ambiguous outcome: the operation has no recovery item
      yet, or has an open one; a caller can look that up. Moving an item between operations: an operation
      with an unjudged send is not left with closed items alone; that needs the history, which the tables do
      not keep, and says no more than that the move does not make the look false. */
  ghost predicate Careful(statements: seq<Statement>, n: nat, a: Id)
    requires n < |statements|
  {
    var db, s := Run(EMPTY, statements[..n]), statements[n];
    && (RecordsAmbiguity(db, s, a) ==> !HasRecovery(db, a) || HasOpenRecovery(db, a))
    && (MovesItem(db, s, a) && !ClosesItem(db, s, a) && !JudgedBy(statements, n, a) ==>
          !LooksJudged(Apply(db, s), a))
  }

  ghost predicate AlwaysCareful(statements: seq<Statement>, n: nat, a: Id) {
    forall i: nat :: i < n && i < |statements| && Admits(Run(EMPTY, statements[..i]), statements[i]) ==>
      Careful(statements, i, a)
  }

  /** After the first `n` statements, if `a` looks judged then every ambiguous send of it was. */
  ghost predicate LookIsTrue(statements: seq<Statement>, n: nat, a: Id)
    requires n <= |statements|
  {
    LooksJudged(Run(EMPTY, statements[..n]), a) ==> JudgedBy(statements, n, a)
  }

  ghost predicate AlwaysLooksTrue(statements: seq<Statement>, a: Id) {
    forall n: nat :: n <= |statements| ==> LookIsTrue(statements, n, a)
  }

  lemma LookStepIff(statements: seq<Statement>, n: nat, a: Id)
    requires n < |statements| && LookIsTrue(statements, n, a)
    requires Admits(Run(EMPTY, statements[..n]), statements[n])
    ensures LookIsTrue(statements, n + 1, a) <==> Careful(statements, n, a)
  {
    var db, s := Run(EMPTY, statements[..n]), statements[n];
    RunExtends(statements, n + 1);
    JudgedStep(statements, n, a);
    if RecordsAmbiguity(db, s, a) {
      LookChanges(db, s, a);
    } else if !ClosesItem(db, s, a) && !MovesItem(db, s, a) {
      LookChanges(db, s, a);
    }
  }

  lemma RefusedLooksSame(statements: seq<Statement>, n: nat, a: Id)
    requires n < |statements| && LookIsTrue(statements, n, a)
    requires !Admits(Run(EMPTY, statements[..n]), statements[n])
    ensures LookIsTrue(statements, n + 1, a)
  {
    RunExtends(statements, n + 1);
    JudgedStep(statements, n, a);
  }

  lemma LookNext(statements: seq<Statement>, n: nat, a: Id)
    requires n < |statements| && LookIsTrue(statements, n, a)
    requires Admits(Run(EMPTY, statements[..n]), statements[n]) ==> Careful(statements, n, a)
    ensures LookIsTrue(statements, n + 1, a)
  {
    if Admits(Run(EMPTY, statements[..n]), statements[n]) {
      LookStepIff(statements, n, a);
    } else {
      RefusedLooksSame(statements, n, a);
    }
  }

  lemma {:induction false} CarefulLooksTrue(statements: seq<Statement>, n: nat, a: Id)
    requires n <= |statements| && AlwaysCareful(statements, n, a)
    ensures LookIsTrue(statements, n, a)
  {
    if n > 0 {
      CarefulLooksTrue(statements, n - 1, a);
      LookNext(statements, n - 1, a);
    }
  }

  /** Along a run, whatever the interlock takes for a judgement is one, if and only if every accepted
      statement of the run was careful. */
  lemma JudgementsAreRealIff(statements: seq<Statement>, a: Id)
    ensures AlwaysLooksTrue(statements, a) <==> AlwaysCareful(statements, |statements|, a)
  {
    if AlwaysCareful(statements, |statements|, a) {
      forall n: nat | n <= |statements| ensures LookIsTrue(statements, n, a) {
        CarefulLooksTrue(statements, n, a);
      }
    }
    if AlwaysLooksTrue(statements, a) {
      forall i: nat | i < |statements| && Admits(Run(EMPTY, statements[..i]), statements[i])
        ensures Careful(statements, i, a)
      {
        assert LookIsTrue(statements, i, a) && LookIsTrue(statements, i + 1, a);
        LookStepIff(statements, i, a);
      }
    }
  }

  /** No accepted statement among the first `n` moves an item off the operation or onto it. */
  ghost predicate NoItemMoves(statements: seq<Statement>, n: nat, a: Id) {
    forall i: nat :: i < n && i < |statements| && Admits(Run(EMPTY, statements[..i]), statements[i]) ==>
      !MovesItem(Run(EMPTY, statements[..i]), statements[i], a)
  }

  /** Where no item is moved the condition can be looked up throughout: no ambiguous outcome is recorded on an
      operation whose recovery items are all closed. */
  ghost predicate RecordsWithCare(statements: seq<Statement>, n: nat, a: Id) {
    forall i: nat :: i < n && RecordedAt(statements, i, a) ==> !LooksJudged(Run(EMPTY, statements[..i]), a)
  }

  lemma CarefulWithoutMoves(statements: seq<Statement>, n: nat, a: Id)
    requires n <= |statements| && NoItemMoves(statements, n, a)
    ensures AlwaysCareful(statements, n, a) <==> RecordsWithCare(statements, n, a)
  {
    if AlwaysCareful(statements, n, a) {
      forall i: nat | i < n && RecordedAt(statements, i, a) ensures !LooksJudged(Run(EMPTY, statements[..i]), a) {
        assert Careful(statements, i, a);
      }
    }
  }

  lemma WithoutMovesIff(statements: seq<Statement>, a: Id)
    requires NoItemMoves(statements, |statements|, a)
    ensures AlwaysLooksTrue(statements, a) <==> RecordsWithCare(statements, |statements|, a)
  {
    JudgementsAreRealIff(statements, a);
    CarefulWithoutMoves(statements, |statements|, a);
  }

  // ----- what the tables still say of the history ------------------------------------------------------------

  /** Some send of the operation has an ambiguous outcome. */
  ghost predicate HasAmbiguousSend(db: Db, a: Id) {
    exists k :: k in db.attempts && db.attempts[k].adjustmentId == a && IsAmbiguous(db.attempts[k].outcome)
  }

  /** Writing a send that keeps what the row already recorded. */
  lemma AmbiguityOfWrite(db: Db, after: Db, id: Id, r: Attempt, a: Id)
    requires after == db.(attempts := db.attempts[id := r])
    requires id in db.attempts ==>
               && r.adjustmentId == db.attempts[id].adjustmentId
               && (db.attempts[id].outcome.Some? ==> r.outcome == db.attempts[id].outcome)
    ensures HasAmbiguousSend(after, a) <==>
            HasAmbiguousSend(db, a) || (r.adjustmentId == a && IsAmbiguous(r.outcome))
  {
    assert id in after.attempts && after.attempts[id] == r;
    if k :| k in db.attempts && db.attempts[k].adjustmentId == a && IsAmbiguous(db.attempts[k].outcome) {
      assert k in after.attempts && after.attempts[k].adjustmentId == a;
      assert IsAmbiguous(after.attempts[k].outcome);
    }
    if k :| k in after.attempts && after.attempts[k].adjustmentId == a && IsAmbiguous(after.attempts[k].outcome) {
      assert k != id ==> k in db.attempts && db.attempts[k] == after.attempts[k];
    }
  }

  lemma AmbiguityStep(db: Db, s: Statement, a: Id)
    requires Admits(db, s)
    ensures HasAmbiguousSend(Apply(db, s), a) <==> HasAmbiguousSend(db, a) || RecordsAmbiguity(db, s, a)
  {
    if s.InsertAttempt? || s.UpdateAttempt? {
      AmbiguityOfWrite(db, Apply(db, s), s.id, s.attempt, a);
      if s.UpdateAttempt? && s.attempt.adjustmentId == a && db.attempts[s.id].outcome.Some?
         && IsAmbiguous(s.attempt.outcome)
      {
        assert db.attempts[s.id].adjustmentId == a && IsAmbiguous(db.attempts[s.id].outcome);
      }
    } else {
      assert Apply(db, s).attempts == db.attempts;
    }
  }

  ghost predicate EverRecorded(statements: seq<Statement>, n: nat, a: Id) {
    exists i: nat :: i < n && RecordedAt(statements, i, a)
  }

  lemma EverRecordedStep(statements: seq<Statement>, n: nat, a: Id)
    ensures EverRecorded(statements, n + 1, a) <==> EverRecorded(statements, n, a) || RecordedAt(statements, n, a)
  {
    if EverRecorded(statements, n + 1, a) {
      var i: nat :| i < n + 1 && RecordedAt(statements, i, a);
      assert i < n || i == n;
    }
  }

  /** Evidence of sends is never lost: the table shows an ambiguous one exactly when one was recorded. */
  lemma {:induction false} AmbiguousSendIffRecorded(statements: seq<Statement>, n: nat, a: Id)
    requires n <= |statements|
    ensures HasAmbiguousSend(Run(EMPTY, statements[..n]), a) <==> EverRecorded(statements, n, a)
  {
    if n == 0 {
      assert Run(EMPTY, statements[..0]) == EMPTY;
    } else {
      AmbiguousSendIffRecorded(statements, n - 1, a);
      RunExtends(statements, n);
      EverRecordedStep(statements, n - 1, a);
      if Admits(Run(EMPTY, statements[..n - 1]), statements[n - 1]) {
        AmbiguityStep(Run(EMPTY, statements[..n - 1]), statements[n - 1], a);
      }
    }
  }

  /** Without moves an operation that has an item keeps one, and closing one leaves one. */
  lemma ItemStep(db: Db, s: Statement, a: Id)
    requires Admits(db, s) && !MovesItem(db, s, a) && (HasRecovery(db, a) || ClosesItem(db, s, a))
    ensures HasRecovery(Apply(db, s), a)
  {
    var after := Apply(db, s);
    if s.InsertRecovery? || s.UpdateRecovery? {
      assert after.recovery[s.id] == s.recovery;
      if k :| k in db.recovery && db.recovery[k].adjustmentId == a {
        assert k in after.recovery && after.recovery[k].adjustmentId == a;
      }
    } else {
      assert after.recovery == db.recovery;
    }
  }

  lemma {:induction false} ClosedLeavesItem(statements: seq<Statement>, j: nat, n: nat, a: Id)
    requires j < n <= |statements| && ClosedAt(statements, j, a) && NoItemMoves(statements, n, a)
    ensures HasRecovery(Run(EMPTY, statements[..n]), a)
    decreases n
  {
    var db, s := Run(EMPTY, statements[..n - 1]), statements[n - 1];
    RunExtends(statements, n);
    if j < n - 1 {
      ClosedLeavesItem(statements, j, n - 1, a);
    }
    if Admits(db, s) {
      ItemStep(db, s, a);
    }
  }

  // ----- when an admitted version means a judgement -----------------------------------------------------------

  /** The run's statement `n` is an admitted version above operation `a`. */
  ghost predicate AdmittedAbove(statements: seq<Statement>, n: nat, a: Id) {
    && n < |statements| && statements[n].InsertApproval?
    && var db, r := Run(EMPTY, statements[..n]), statements[n].approval;
       Admits(db, statements[n]) && exists w :: w < r.version && Carries(db, a, r.exceptionId, w)
  }

  lemma AdmittedAboveReleased(statements: seq<Statement>, n: nat, a: Id)
    requires AdmittedAbove(statements, n, a)
    ensures a in Run(EMPTY, statements[..n]).adjustments && !Blocks(Run(EMPTY, statements[..n]), a)
  {
    var db, r := Run(EMPTY, statements[..n]), statements[n].approval;
    var w :| w < r.version && Carries(db, a, r.exceptionId, w);
    RunKeepsConsistent(EMPTY, statements[..n]);
    InterlockExact(db, r.exceptionId, r.version);
    ReleasedIffNotBlocking(db, a);
  }

  /** At an admitted version of a careful run, a lower operation with any recovery item is judged: each
      ambiguous outcome of it was followed by the closing of an item of it. The one other way past the
      interlock is an outbox row that does not say ambiguous, with no recovery item at all. */
  lemma AdmittedVersionFindsJudged(statements: seq<Statement>, n: nat, a: Id)
    requires AdmittedAbove(statements, n, a) && AlwaysCareful(statements, n, a)
    ensures var db := Run(EMPTY, statements[..n]);
            JudgedBy(statements, n, a) || (!OutcomeUndetermined(db, a) && !HasRecovery(db, a))
  {
    AdmittedAboveReleased(statements, n, a);
    CarefulLooksTrue(statements, n, a);
  }

  /** What a caller can look up before approving: a lower operation with an ambiguous send has a recovery
      item. */
  ghost predicate AmbiguityHasItem(db: Db, a: Id) {
    HasAmbiguousSend(db, a) ==> HasRecovery(db, a)
  }

  lemma JudgedLeavesItem(statements: seq<Statement>, n: nat, a: Id)
    requires n <= |statements| && NoItemMoves(statements, n, a) && JudgedBy(statements, n, a)
    ensures AmbiguityHasItem(Run(EMPTY, statements[..n]), a)
  {
    AmbiguousSendIffRecorded(statements, n, a);
    if EverRecorded(statements, n, a) {
      var i: nat :| i < n && RecordedAt(statements, i, a);
      var j: nat :| i < j < n && ClosedAt(statements, j, a);
      ClosedLeavesItem(statements, j, n, a);
    }
  }

  /** An admitted version finds a lower operation judged whose ambiguous sends left it an item, moves or not. */
  lemma ItemMeansJudged(statements: seq<Statement>, n: nat, a: Id)
    requires AdmittedAbove(statements, n, a) && AlwaysCareful(statements, n, a)
    requires AmbiguityHasItem(Run(EMPTY, statements[..n]), a)
    ensures JudgedBy(statements, n, a)
  {
    AdmittedVersionFindsJudged(statements, n, a);
    AmbiguousSendIffRecorded(statements, n, a);
  }

  /** When a release means a judgement. At an admitted version of a run that recorded with care and moved no
      item, a lower operation is judged if and only if its ambiguous sends, if any, left it a recovery item.
      Both sides of that are in the tables before the version is approved; the interlock does not ask, because
      it reads the outbox row and not the sends. */
  lemma ReleaseMeansJudgementIff(statements: seq<Statement>, n: nat, a: Id)
    requires AdmittedAbove(statements, n, a)
    requires NoItemMoves(statements, n, a) && RecordsWithCare(statements, n, a)
    ensures JudgedBy(statements, n, a) <==> AmbiguityHasItem(Run(EMPTY, statements[..n]), a)
  {
    CarefulWithoutMoves(statements, n, a);
    if JudgedBy(statements, n, a) {
      JudgedLeavesItem(statements, n, a);
    }
    if AmbiguityHasItem(Run(EMPTY, statements[..n]), a) {
      ItemMeansJudged(statements, n, a);
    }
  }
}
