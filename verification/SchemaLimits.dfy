/** Runs that show where the schema's guarantees stop. Each is a concrete reachable state. */
module SchemaLimits {
  import opened Wrappers
  import opened SqlLogic
  import opened Schema
  import opened SchemaProofs
  import opened SchemaTheorems
  import opened Supersession
  import opened Adjudication
  import opened RowChecks
  import opened Evidence

  function Hex(c: char): (h: string)
    requires '0' <= c <= '9' || 'a' <= c <= 'f'
    ensures IsSha256Hex(h) && h[0] == c
  {
    seq(64, _ => c)
  }

  lemma ReachStep(db: Db, s: Statement)
    requires Reachable(db) && Admits(db, s)
    ensures Reachable(Apply(db, s))
  {
    StatementKeepsReachable(db, s);
  }

  /** The NULL trap the schema's comment describes: without IS NOT NULL a settled row with no outcome
      passes the CHECK; with it the row is refused. */
  lemma UnguardedSettledCheckAdmitsNull()
    ensures CheckPasses(SettledRequiresTerminalUnguarded(Settled, None))
    ensures !CheckPasses(SettledRequiresTerminal(Settled, None))
  {}

  const FIRST := Approval(0, 1, Approved, Some(Rebook), "ann", None, "t1")
  const SECOND := Approval(0, 2, Approved, Some(WriteOff), "ann", None, "t2")

  function Adj(approvalId: Id, t: Treatment, c: char): Adjustment
    requires '0' <= c <= '9' || 'a' <= c <= 'f'
  {
    Adjustment(approvalId, t, "ann", Hex(c), Hex(c), None)
  }

  /** One approved resolution with a dispatch intent that nobody has sent yet. */
  function OneApproved(): Db {
    Db({0}, map[1 := FIRST], map[1 := Adj(1, Rebook, 'a')], map[1 := Outbox(1, Pending, None, 0)],
       map[], map[], map[])
  }

  lemma OneApprovedReachable()
    ensures Reachable(OneApproved())
  {
    assert Run(EMPTY, []) == EMPTY;
    ReachStep(EMPTY, InsertException(0));
    var d1 := Db({0}, map[], map[], map[], map[], map[], map[]);
    assert d1 == Apply(EMPTY, InsertException(0));
    ReachStep(d1, InsertApproval(1, FIRST));
    var d2 := d1.(approvals := map[1 := FIRST]);
    assert d2 == Apply(d1, InsertApproval(1, FIRST));
    ReachStep(d2, InsertAdjustment(1, Adj(1, Rebook, 'a')));
    var d3 := d2.(adjustments := map[1 := Adj(1, Rebook, 'a')]);
    assert d3 == Apply(d2, InsertAdjustment(1, Adj(1, Rebook, 'a')));
    ReachStep(d3, InsertOutbox(1, Outbox(1, Pending, None, 0)));
    assert OneApproved() == Apply(d3, InsertOutbox(1, Outbox(1, Pending, None, 0)));
  }

  function BothApproved(): Db {
    OneApproved().(approvals := map[1 := FIRST, 2 := SECOND],
                   adjustments := map[1 := Adj(1, Rebook, 'a'), 2 := Adj(2, WriteOff, 'b')])
  }

  lemma BothApprovedReachable()
    ensures Reachable(BothApproved())
  {
    OneApprovedReachable();
    var d0 := OneApproved();
    assert !InterlockRaises(d0, 0, 2);
    ReachStep(d0, InsertApproval(2, SECOND));
    var d1 := d0.(approvals := map[1 := FIRST, 2 := SECOND]);
    assert d1 == Apply(d0, InsertApproval(2, SECOND));
    var r := Adj(2, WriteOff, 'b');
    assert Hex('a') != Hex('b') by { assert Hex('a')[0] != Hex('b')[0]; }
    ReachStep(d1, InsertAdjustment(2, r));
    assert BothApproved() == Apply(d1, InsertAdjustment(2, r));
  }

  function Send(a: Id, c: char, no: int, sentAt: Time): Attempt
    requires '0' <= c <= '9' || 'a' <= c <= 'f'
  {
    Attempt(a, Hex(c), no, sentAt, InFlight, None, None, None)
  }

  function TwoLive(): Db {
    BothApproved().(attempts := map[1 := Send(2, 'b', 1, 0), 2 := Send(1, 'a', 1, 0)])
  }

  /** An older resolution that was approved but not yet sent does not block a newer one, and may be
      sent afterwards: two live resolutions of one exception are reachable. */
  lemma TwoLiveResolutionsAreReachable()
    ensures Reachable(TwoLive()) && !OneLiveOperation(TwoLive(), 0)
  {
    BothApprovedReachable();
    var d0 := BothApproved();
    SecondInFlightReachable();
    var d1 := SecondInFlight();
    ReachStep(d1, InsertAttempt(2, Send(1, 'a', 1, 0)));
    var db := TwoLive();
    assert db == Apply(d1, InsertAttempt(2, Send(1, 'a', 1, 0)));
    assert Serves(db, 1, 0) && Serves(db, 2, 0);
    assert db.attempts[1].adjustmentId == 2 && HasInFlight(db, 2);
    assert db.attempts[2].adjustmentId == 1 && HasInFlight(db, 1);
    assert Live(db, 1, 0) && Live(db, 2, 0);
  }

  const ITEM := Recovery(1, Open, 3, 9, "ann", None, None, None)
  const CLOSED_ITEM := ITEM.(state := Closed, resolution := Some(RejectedByEvidence),
                             resolvedBy := Some("bob"), resolvedAt := Some(5))

  function AmbiguousSend(no: int, sentAt: Time, resolvedAt: Time): Attempt {
    Send(1, 'a', no, sentAt).(state := Resolved, outcome := Some(Ambiguous), resolvedAt := Some(resolvedAt))
  }

  /** The first send ended ambiguous, an operator closed its recovery item at time 5, and a second
      send then ended ambiguous at time 8 with no item of its own. */
  function AmbiguousAgain(): Db {
    OneApproved().(outbox := map[1 := Outbox(1, Pending, Some(Ambiguous), 0)],
                   attempts := map[1 := AmbiguousSend(1, 1, 2), 2 := AmbiguousSend(2, 7, 8)],
                   recovery := map[1 := CLOSED_ITEM])
  }

  function AmbiguousOnce(): Db {
    OneApproved().(outbox := map[1 := Outbox(1, Pending, Some(Ambiguous), 0)],
                   attempts := map[1 := AmbiguousSend(1, 1, 2)])
  }

  lemma AmbiguousOnceReachable()
    ensures Reachable(AmbiguousOnce())
  {
    OneApprovedReachable();
    var d0 := OneApproved();
    ReachStep(d0, InsertAttempt(1, AmbiguousSend(1, 1, 2)));
    var d1 := d0.(attempts := map[1 := AmbiguousSend(1, 1, 2)]);
    assert d1 == Apply(d0, InsertAttempt(1, AmbiguousSend(1, 1, 2)));
    var o := Outbox(1, Pending, Some(Ambiguous), 0);
    ReachStep(d1, UpdateOutbox(1, o));
    assert AmbiguousOnce() == Apply(d1, UpdateOutbox(1, o));
  }

  lemma AmbiguousAgainReachable()
    ensures Reachable(AmbiguousAgain())
  {
    AmbiguousOnceReachable();
    var d2 := AmbiguousOnce();
    ReachStep(d2, InsertRecovery(1, ITEM));
    var d3 := d2.(recovery := map[1 := ITEM]);
    assert d3 == Apply(d2, InsertRecovery(1, ITEM));
    ReachStep(d3, UpdateRecovery(1, CLOSED_ITEM));
    var d4 := d2.(recovery := map[1 := CLOSED_ITEM]);
    assert d4 == Apply(d3, UpdateRecovery(1, CLOSED_ITEM));
    SecondSendReachable(d4);
  }

  lemma SecondSendReachable(d4: Db)
    requires Reachable(d4) && d4 == AmbiguousOnce().(recovery := map[1 := CLOSED_ITEM])
    ensures Reachable(AmbiguousAgain())
  {
    ReachStep(d4, InsertAttempt(2, AmbiguousSend(2, 7, 8)));
    assert AmbiguousAgain() == Apply(d4, InsertAttempt(2, AmbiguousSend(2, 7, 8)));
  }

  /** Every recovery item of `a` was closed before some ambiguous send of `a` ended. */
  ghost predicate UnjudgedAmbiguity(db: Db, a: Id) {
    exists k :: && k in db.attempts && db.attempts[k].adjustmentId == a
                && db.attempts[k].outcome == Some(Ambiguous) && db.attempts[k].resolvedAt.Some?
                && forall r :: r in db.recovery && db.recovery[r].adjustmentId == a ==>
                     db.recovery[r].resolvedAt.Some?
                     && db.recovery[r].resolvedAt.value < db.attempts[k].resolvedAt.value
  }

  /** The interlock asks for a recovery item, not for one about the current ambiguity: an item closed
      for an earlier send releases a later ambiguous one that nobody has judged. */
  lemma EarlierItemReleasesLaterAmbiguity()
    ensures Reachable(AmbiguousAgain()) && UnjudgedAmbiguity(AmbiguousAgain(), 1)
    ensures OutcomeUndetermined(AmbiguousAgain(), 1)
    ensures Admits(AmbiguousAgain(), InsertApproval(2, SECOND))
  {
    AmbiguousAgainReachable();
    var db := AmbiguousAgain();
    ReachableIsConsistent(db);
    InterlockExact(db, 0, 2);
    forall a, w | Carries(db, a, 0, w) && w < 2 ensures Released(db, a) {
      ReleasedByOldItem(db, a);
    }
    AmbiguityIsUnjudged(db);
  }

  lemma ReleasedByOldItem(db: Db, a: Id)
    requires db == AmbiguousAgain() && a in db.adjustments && db.adjustments[a].approvalId in db.approvals
    ensures Released(db, a)
  {
    assert a == 1 && db.recovery[1] == CLOSED_ITEM;
    assert ClosedByAnother(db, 1, 1);
  }

  lemma AmbiguityIsUnjudged(db: Db)
    requires db == AmbiguousAgain()
    ensures UnjudgedAmbiguity(db, 1) && OutcomeUndetermined(db, 1)
  {
    assert db.attempts[2] == AmbiguousSend(2, 7, 8);
    assert db.outbox[1].lastOutcome == Some(Ambiguous);
  }

  /** One send of the first resolution ends ambiguous; nobody touches the intent or opens an item; the second
      resolution is approved. */
  function Overlooked(): seq<Statement> {
    [InsertException(0), InsertApproval(1, FIRST), InsertAdjustment(1, Adj(1, Rebook, 'a')),
     InsertOutbox(1, Outbox(1, Pending, None, 0)), InsertAttempt(1, AmbiguousSend(1, 1, 2)),
     InsertApproval(2, SECOND)]
  }

  function OverlookedState(n: nat): Db
    requires n <= 5
  {
    var d1 := Db({0}, map[], map[], map[], map[], map[], map[]);
    var d2 := d1.(approvals := map[1 := FIRST]);
    var d3 := d2.(adjustments := map[1 := Adj(1, Rebook, 'a')]);
    if n == 0 then EMPTY
    else if n == 1 then d1
    else if n == 2 then d2
    else if n == 3 then d3
    else if n == 4 then OneApproved()
    else OneApproved().(attempts := map[1 := AmbiguousSend(1, 1, 2)])
  }

  lemma OverlookedStep(n: nat)
    requires n < 5
    ensures Admits(OverlookedState(n), Overlooked()[n])
    ensures Apply(OverlookedState(n), Overlooked()[n]) == OverlookedState(n + 1)
  {}

  lemma {:induction false} OverlookedRun(n: nat)
    requires n <= 5
    ensures Run(EMPTY, Overlooked()[..n]) == OverlookedState(n)
  {
    if n == 0 {
      assert Overlooked()[..0] == [];
    } else {
      OverlookedRun(n - 1);
      RunExtends(Overlooked(), n);
      OverlookedStep(n - 1);
    }
  }

  lemma OverlookedIsCareful()
    ensures RecordsWithCare(Overlooked(), 5, 1) && NoItemMoves(Overlooked(), 5, 1)
  {
    forall i: nat | i < 5 && RecordedAt(Overlooked(), i, 1)
      ensures !LooksJudged(Run(EMPTY, Overlooked()[..i]), 1)
    {
      OverlookedRun(i);
    }
  }

  lemma OverlookedIsUnjudged()
    ensures RecordedAt(Overlooked(), 4, 1) && !JudgedBy(Overlooked(), 5, 1)
  {
    OverlookedRun(4);
    OverlookedStep(4);
    JudgedStep(Overlooked(), 4, 1);
  }

  lemma OverlookedIsAdmitted()
    ensures AdmittedAbove(Overlooked(), 5, 1)
  {
    OverlookedRun(5);
    var db := OverlookedState(5);
    assert !InterlockRaises(db, 0, 2);
    assert Carries(db, 1, 0, 1);
  }

  /** Care in recording is not enough: an ambiguous send that reached neither the intent nor the recovery queue
      is superseded without anyone having judged it. */
  lemma CarefulRunReleasesUnjudged()
    ensures AdmittedAbove(Overlooked(), 5, 1)
    ensures RecordsWithCare(Overlooked(), 5, 1) && NoItemMoves(Overlooked(), 5, 1)
    ensures !JudgedBy(Overlooked(), 5, 1)
  {
    OverlookedIsAdmitted();
    OverlookedIsCareful();
    OverlookedIsUnjudged();
  }

  /** A send that is in flight by its state, and yet already says it was confirmed, with a reference. */
  function HalfRecorded(): Attempt {
    Send(1, 'a', 1, 0).(outcome := Some(Confirmed), postingRef := Some("ref"))
  }

  /** In flight is documented as "nothing known"; the CHECK lets a send in flight carry an outcome and a posting
      reference, as long as it has no resolution time. */
  lemma HalfRecordedSendIsReachable()
    ensures var db := OneApproved().(attempts := map[1 := HalfRecorded()]);
            Reachable(db) && !InFlightIsClear(db)
  {
    OneApprovedReachable();
    AttemptChecksIff(HalfRecorded());
    DigestIff(Hex('a'));
    ReachStep(OneApproved(), InsertAttempt(1, HalfRecorded()));
    var db := OneApproved().(attempts := map[1 := HalfRecorded()]);
    assert db == Apply(OneApproved(), InsertAttempt(1, HalfRecorded()));
    assert db.attempts[1].state == InFlight;
  }

  /** The interlock is a BEFORE INSERT trigger: an UPDATE can move an approval above a live one. */
  lemma UpdateBypassesInterlock()
    ensures Reachable(SecondInFlight())
    ensures InterlockRaises(SecondInFlight(), 0, 3)
    ensures Admits(SecondInFlight(), UpdateApproval(1, FIRST.(version := 3)))
  {
    SecondInFlightReachable();
    SecondShutsOut(SecondInFlight());
    FirstMayMove(SecondInFlight());
  }

  lemma SecondShutsOut(db: Db)
    requires Reachable(db) && db == SecondInFlight()
    ensures InterlockRaises(db, 0, 3)
  {
    ReachableIsConsistent(db);
    SecondIsLive(db);
    InterlockExact(db, 0, 3);
  }

  lemma FirstMayMove(db: Db)
    requires db == SecondInFlight()
    ensures Admits(db, UpdateApproval(1, FIRST.(version := 3)))
  {
    assert db.approvals == map[1 := FIRST, 2 := SECOND];
  }

  function SecondInFlight(): Db {
    BothApproved().(attempts := map[1 := Send(2, 'b', 1, 0)])
  }

  lemma SecondInFlightReachable()
    ensures Reachable(SecondInFlight())
  {
    BothApprovedReachable();
    ReachStep(BothApproved(), InsertAttempt(1, Send(2, 'b', 1, 0)));
    assert SecondInFlight() == Apply(BothApproved(), InsertAttempt(1, Send(2, 'b', 1, 0)));
  }

  lemma SecondIsLive(db: Db)
    requires db == SecondInFlight()
    ensures Carries(db, 2, 0, 2) && HasInFlight(db, 2)
  {
    assert db.attempts[1].adjustmentId == 2 && db.attempts[1].state == InFlight;
  }
}
