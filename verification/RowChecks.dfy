/** The CHECKs of every table as ordinary conditions: what a row that passes them looks like, and which rows
    pass. The schema writes them in three-valued logic, where a NULL could let a row through unseen. */
module RowChecks {
  import opened Wrappers
  import opened Schema
  import opened SchemaProofs

  /** An approval is an edit exactly when it names a requester, who is not its principal; and it names a
      treatment exactly when it says yes. */
  predicate SoundApproval(a: Approval) {
    && a.version >= 1
    && (a.decision == Edited <==> a.requestedBy.Some?)
    && (a.requestedBy.Some? ==> a.requestedBy.value != a.principal)
    && (a.decision == Rejected <==> a.treatment.None?)
  }

  lemma ApprovalChecksIff(a: Approval)
    ensures ApprovalChecks(a) <==> SoundApproval(a)
  {}

  predicate IsHex(c: char) {
    c in "0123456789abcdef"
  }

  /** 64 lower-case hexadecimal digits. */
  predicate IsDigest(s: string) {
    |s| == 64 && forall i :: 0 <= i < |s| ==> IsHex(s[i])
  }

  lemma HexCharacters(c: char)
    ensures IsHex(c) <==> '0' <= c <= '9' || 'a' <= c <= 'f'
  {
    var hex := "0123456789abcdef";
    if '0' <= c <= '9' {
      assert hex[c as int - '0' as int] == c;
    }
    if 'a' <= c <= 'f' {
      assert hex[c as int - 'a' as int + 10] == c;
    }
  }

  lemma DigestIff(s: string)
    ensures IsSha256Hex(s) <==> IsDigest(s)
  {
    forall i | 0 <= i < |s| ensures IsHex(s[i]) <==> '0' <= s[i] <= '9' || 'a' <= s[i] <= 'f' {
      HexCharacters(s[i]);
    }
  }

  /** An adjustment is never an escalation, and carries two digests. */
  predicate SoundAdjustment(a: Adjustment) {
    a.treatment != Escalate && IsDigest(a.operationId) && IsDigest(a.payloadHash)
  }

  lemma AdjustmentChecksIff(a: Adjustment)
    ensures AdjustmentChecks(a) <==> SoundAdjustment(a)
  {
    DigestIff(a.operationId);
    DigestIff(a.payloadHash);
  }

  /** A settled intent has a terminal outcome; a NULL one does not settle it. */
  predicate SoundOutbox(o: Outbox) {
    o.attemptCount >= 0 && (o.state == Settled ==> o.lastOutcome in {Some(Confirmed), Some(Declined)})
  }

  lemma OutboxChecksIff(o: Outbox)
    ensures OutboxChecks(o) <==> SoundOutbox(o)
  {}

  /** An attempt is resolved exactly when it records an outcome and a time, which is not before the send; and
      it carries a posting reference only if its outcome says something was applied. */
  predicate SoundAttempt(a: Attempt) {
    && a.attemptNo >= 1 && IsDigest(a.operationId)
    && (a.state == Resolved <==> a.outcome.Some? && a.resolvedAt.Some?)
    && (a.resolvedAt.Some? ==> a.sentAt <= a.resolvedAt.value)
    && (a.postingRef.Some? ==> a.outcome in {Some(Confirmed), Some(PartiallyApplied)})
  }

  lemma AttemptChecksIff(a: Attempt)
    ensures AttemptChecks(a) <==> SoundAttempt(a)
  {
    DigestIff(a.operationId);
  }

  /** An item is closed exactly when its resolution, its resolver and its time are recorded; it is due after it
      was opened, resolved not before, and never by its operation's approver. */
  predicate SoundRecovery(r: Recovery) {
    && (r.state == Closed <==> r.resolution.Some? && r.resolvedBy.Some? && r.resolvedAt.Some?)
    && r.openedAt < r.slaDueAt
    && (r.resolvedAt.Some? ==> r.openedAt <= r.resolvedAt.value)
    && (r.resolvedBy.Some? ==> r.resolvedBy.value != r.approvingPrincipal)
  }

  lemma RecoveryChecksIff(r: Recovery)
    ensures RecoveryChecks(r) <==> SoundRecovery(r)
  {}

  /** A query found something exactly when it names what it found. */
  predicate SoundQuery(q: Query) {
    && q.queryNo >= 1 && IsDigest(q.operationId)
    && (q.answer == Found <==> q.postingRef.Some?)
    && q.visibilityBound >= 0 && q.maxInflightWindow >= 0
  }

  lemma QueryChecksIff(q: Query)
    ensures QueryChecks(q) <==> SoundQuery(q)
  {
    DigestIff(q.operationId);
  }

  /** Every row of every reachable database is sound. */
  ghost predicate AllSound(db: Db) {
    && (forall k :: k in db.approvals ==> SoundApproval(db.approvals[k]))
    && (forall k :: k in db.adjustments ==> SoundAdjustment(db.adjustments[k]))
    && (forall k :: k in db.outbox ==> SoundOutbox(db.outbox[k]))
    && (forall k :: k in db.attempts ==> SoundAttempt(db.attempts[k]))
    && (forall k :: k in db.recovery ==> SoundRecovery(db.recovery[k]))
    && (forall k :: k in db.queries ==> SoundQuery(db.queries[k]))
  }

  lemma SoundRows(db: Db)
    requires Consistent(db)
    ensures AllSound(db)
  {
    forall k | k in db.approvals ensures SoundApproval(db.approvals[k]) {
      ApprovalChecksIff(db.approvals[k]);
    }
    forall k | k in db.adjustments ensures SoundAdjustment(db.adjustments[k]) {
      AdjustmentChecksIff(db.adjustments[k]);
    }
    forall k | k in db.outbox ensures SoundOutbox(db.outbox[k]) {
      OutboxChecksIff(db.outbox[k]);
    }
    forall k | k in db.attempts ensures SoundAttempt(db.attempts[k]) {
      AttemptChecksIff(db.attempts[k]);
    }
    forall k | k in db.recovery ensures SoundRecovery(db.recovery[k]) {
      RecoveryChecksIff(db.recovery[k]);
    }
    forall k | k in db.queries ensures SoundQuery(db.queries[k]) {
      QueryChecksIff(db.queries[k]);
    }
  }

  lemma ReachableRowsAreSound(db: Db)
    requires Reachable(db)
    ensures AllSound(db)
  {
    ReachableIsConsistent(db);
    SoundRows(db);
  }

  /** The evidence of sends, read off: a posting reference means something was applied, a send in flight has no
      complete resolution, and no resolution precedes its send. */
  lemma AttemptEvidence(db: Db, k: Id)
    requires Reachable(db) && k in db.attempts
    ensures var a := db.attempts[k];
            && (a.postingRef.Some? ==> a.outcome in {Some(Confirmed), Some(PartiallyApplied)})
            && (a.state == InFlight ==> a.outcome.None? || a.resolvedAt.None?)
            && (a.state == Resolved ==> a.outcome.Some? && a.resolvedAt.Some? && a.sentAt <= a.resolvedAt.value)
  {
    ReachableRowsAreSound(db);
    assert SoundAttempt(db.attempts[k]);
  }
}
