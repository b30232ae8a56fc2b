/** What "in flight" means. The schema documents it as sent, nothing known: no outcome and no resolution time.
    Its CHECK refuses only both together. */
module Evidence {
  import opened Wrappers
  import opened Schema
  import opened SchemaProofs
  import opened SchemaTheorems
  import opened RowChecks

  ghost predicate NothingKnown(a: Attempt) {
    a.outcome.None? && a.resolvedAt.None?
  }

  /** Every send in flight is one about which nothing is known. */
  ghost predicate InFlightIsClear(db: Db) {
    forall k :: k in db.attempts && db.attempts[k].state == InFlight ==> NothingKnown(db.attempts[k])
  }

  /** The statement writes no attempt, or one that records an outcome together with its time. */
  predicate WritesWhole(s: Statement) {
    s.InsertAttempt? || s.UpdateAttempt? ==> (s.attempt.outcome.Some? <==> s.attempt.resolvedAt.Some?)
  }

  lemma SoundAndWhole(a: Attempt)
    requires SoundAttempt(a)
    ensures (a.state == InFlight ==> NothingKnown(a)) <==> (a.outcome.Some? <==> a.resolvedAt.Some?)
  {}

  lemma AttemptRowsAfter(db: Db, s: Statement, k: Id)
    ensures k in Apply(db, s).attempts <==>
            k in db.attempts || ((s.InsertAttempt? || s.UpdateAttempt?) && k == s.id)
    ensures k in Apply(db, s).attempts ==>
              Apply(db, s).attempts[k]
              == if (s.InsertAttempt? || s.UpdateAttempt?) && k == s.id then s.attempt else db.attempts[k]
  {}

  lemma WrittenAttemptIsSound(db: Db, s: Statement)
    requires Admits(db, s) && (s.InsertAttempt? || s.UpdateAttempt?)
    ensures SoundAttempt(s.attempt)
  {
    AttemptChecksIff(s.attempt);
  }

  /** An accepted statement keeps "in flight" meaning that nothing is known if and only if any attempt it writes
      records an outcome and its time together or not at all. */
  lemma StatementKeepsClearIff(db: Db, s: Statement)
    requires Admits(db, s) && InFlightIsClear(db)
    ensures InFlightIsClear(Apply(db, s)) <==> WritesWhole(s)
  {
    var after := Apply(db, s);
    if s.InsertAttempt? || s.UpdateAttempt? {
      WrittenAttemptIsSound(db, s);
      SoundAndWhole(s.attempt);
      AttemptRowsAfter(db, s, s.id);
    }
    forall k | k in after.attempts && !((s.InsertAttempt? || s.UpdateAttempt?) && k == s.id)
      ensures after.attempts[k].state == InFlight ==> NothingKnown(after.attempts[k])
    {
      AttemptRowsAfter(db, s, k);
    }
  }

  ghost predicate AlwaysClear(statements: seq<Statement>) {
    forall n :: 0 <= n <= |statements| ==> InFlightIsClear(Run(EMPTY, statements[..n]))
  }

  ghost predicate AlwaysWhole(statements: seq<Statement>) {
    forall n :: 0 <= n < |statements| && Admits(Run(EMPTY, statements[..n]), statements[n]) ==>
      WritesWhole(statements[n])
  }

  lemma {:induction false} ClearUpTo(statements: seq<Statement>, n: nat)
    requires n <= |statements| && AlwaysWhole(statements)
    ensures InFlightIsClear(Run(EMPTY, statements[..n]))
  {
    if n == 0 {
      assert Run(EMPTY, statements[..0]) == EMPTY;
    } else {
      ClearUpTo(statements, n - 1);
      RunExtends(statements, n);
      if Admits(Run(EMPTY, statements[..n - 1]), statements[n - 1]) {
        StatementKeepsClearIff(Run(EMPTY, statements[..n - 1]), statements[n - 1]);
      }
    }
  }

  /** Along a run "in flight" means that nothing is known if and only if every accepted write of an attempt
      records an outcome and its time together. */
  lemma RunKeepsClearIff(statements: seq<Statement>)
    ensures AlwaysClear(statements) <==> AlwaysWhole(statements)
  {
    if AlwaysWhole(statements) {
      forall n | 0 <= n <= |statements| ensures InFlightIsClear(Run(EMPTY, statements[..n])) {
        ClearUpTo(statements, n);
      }
    }
    if AlwaysClear(statements) {
      forall n | 0 <= n < |statements| && Admits(Run(EMPTY, statements[..n]), statements[n])
        ensures WritesWhole(statements[n])
      {
        RunExtends(statements, n + 1);
        StatementKeepsClearIff(Run(EMPTY, statements[..n]), statements[n]);
      }
    }
  }

  /** In such a state a posting reference belongs to a resolved attempt whose outcome says something was
      applied. */
  lemma ReferenceMeansResolved(db: Db, k: Id)
    requires Reachable(db) && InFlightIsClear(db) && k in db.attempts && db.attempts[k].postingRef.Some?
    ensures db.attempts[k].state == Resolved
    ensures db.attempts[k].outcome in {Some(Confirmed), Some(PartiallyApplied)}
  {
    AttemptEvidence(db, k);
  }
}
