/** What a classification run writes, and what it does not know. */
module ProtocolTheorems {
  import opened Wrappers
  import opened Engine
  import opened EngineProofs
  import opened Protocol
  import opened ProtocolSafety

  /** Whatever the interleaving: no line is both matched and claimed by an exception, no row is locked
      twice, and the foreign key never refuses anyone. */
  lemma NoLineMatchedAndExcepted(actions: seq<Action>)
    ensures var s := Run(EMPTY, actions);
            && s.matched !! s.excepted.Keys
            && s.matched + s.excepted.Keys <= s.lines.Keys
            && (forall p, q :: 0 <= p < q < |s.procs| ==> s.procs[p].held !! s.procs[q].held)
            && (forall p :: 0 <= p < |s.procs| ==> s.procs[p].phase != Ended(RefusedByForeignKey))
            && (forall p :: 0 <= p < |s.procs| && s.procs[p].phase.Ended? ==> s.procs[p].held == {})
  {
    RunKeepsSafe(EMPTY, actions);
    var s := Run(EMPTY, actions);
    assert forall p :: 0 <= p < |s.procs| ==> ProcOk(s, s.procs[p]);
  }

  // ----- a verdict needs only its own order ---------------------------------------------------------

  /** Two contexts that agree on the records of the subject's order give the same verdict. */
  lemma DecisionNeedsOnlyItsOrder(s: Movement, a: seq<Movement>, b: seq<Movement>)
    requires IdFunctional(a) && IdFunctional(b)
    requires forall m: Movement :: m.reference == s.reference && m.currency == s.currency ==>
               (m in a <==> m in b)
    ensures Decide(s, a) == Decide(s, b)
  {
    if s.reference.Some? {
      forall m: Movement ensures multiset(Related(s, a))[m] == multiset(Related(s, b))[m] {
        RelatedCounts(s, a, m);
        RelatedCounts(s, b, m);
      }
      assert multiset(Related(s, a)) == multiset(Related(s, b));
      JudgePermutes(s, Related(s, a), Related(s, b));
    }
  }

  /** The committed rows of `ids`, match states and all. */
  function World(s: State, ids: set<LineId>): seq<Movement>
    requires ids <= s.lines.Keys
  {
    Rows(s, Ascending(ids))
  }

  ghost predicate AllSeen(s: State, ms: seq<Movement>) {
    forall m :: m in ms ==> m.id in s.lines && m == Seen(s, m.id)
  }

  lemma SeenIsIdFunctional(s: State, ms: seq<Movement>)
    requires AllSeen(s, ms)
    ensures IdFunctional(ms)
  {
    forall i, j | 0 <= i < |ms| && 0 <= j < |ms| && ms[i].id == ms[j].id ensures ms[i] == ms[j] {
      assert ms[i] in ms && ms[j] in ms;
    }
  }

  /** What the classifier reads decides as all of the pinned rows do. */
  lemma PinnedWorldDecides(s: State, batch: Option<BatchId>, pinned: set<LineId>, subject: Movement)
    requires pinned <= s.lines.Keys && forall id :: id in pinned ==> s.lines[id].parsed
    requires subject in PinnedResiduals(s, batch, pinned)
    ensures var residuals := PinnedResiduals(s, batch, pinned);
            Decide(subject, PinnedContext(s, residuals, pinned) + residuals)
            == Decide(subject, World(s, pinned))
  {
    var residuals := PinnedResiduals(s, batch, pinned);
    var context := PinnedContext(s, residuals, pinned);
    PinnedResidualsMean(s, batch, pinned);
    PinnedContextMeans(s, residuals, pinned);
    RowsOf(s, pinned);
    SeenIsIdFunctional(s, context + residuals);
    SeenIsIdFunctional(s, World(s, pinned));
    if subject.reference.Some? {
      var k :| 0 <= k < |residuals| && residuals[k] == subject;
      forall m: Movement | m.reference == subject.reference && m in World(s, pinned)
        ensures m in context
      {
        assert IsContext(s, residuals, m.id);
      }
      DecisionNeedsOnlyItsOrder(subject, context + residuals, World(s, pinned));
    }
  }

  lemma {:induction false} InsertedValue(excepted: map<LineId, Verdict>, ds: seq<Classification>, k: nat)
    requires k < |ds| && ds[k].lineId !in excepted
    requires forall i, j :: 0 <= i < j < |ds| ==> ds[i].lineId != ds[j].lineId
    ensures ds[k].lineId in Inserted(excepted, ds) && Inserted(excepted, ds)[ds[k].lineId] == ds[k].verdict
  {
    var n := |ds| - 1;
    if k < n {
      InsertedValue(excepted, ds[..n], k);
    } else {
      InsertedKeys(excepted, ds[..n]);
    }
  }

  lemma WrittenVerdict(s: State, batch: Option<BatchId>, pinned: set<LineId>, id: LineId)
    requires pinned <= s.lines.Keys && forall x :: x in pinned ==> s.lines[x].parsed
    requires id in Eligible(s, batch, pinned)
    ensures var residuals := PinnedResiduals(s, batch, pinned);
            var after := Inserted(s.excepted, Classified(residuals, PinnedContext(s, residuals, pinned)));
            id in after && after[id] == Decide(Seen(s, id), World(s, pinned))
  {
    var residuals := PinnedResiduals(s, batch, pinned);
    var context := PinnedContext(s, residuals, pinned);
    PinnedResidualsMean(s, batch, pinned);
    assert Seen(s, id) in residuals;
    var k :| 0 <= k < |residuals| && residuals[k] == Seen(s, id);
    var ds := Classified(residuals, context);
    assert forall i :: 0 <= i < |ds| ==> ds[i].lineId == residuals[i].id;
    InsertedValue(s.excepted, ds, k);
    PinnedWorldDecides(s, batch, pinned, residuals[k]);
  }

  ghost predicate IsReadyClassifier(s: State, p: nat) {
    p < |s.procs| && s.procs[p].task.Classify? && s.procs[p].phase.Ready?
  }

  /** At commit a classification run writes an exception for exactly the eligible lines it pinned, and
      each verdict is what the classifier gives on the match states committed at that moment,
      restricted to the pinned lines. It never aborts and changes nothing else. */
  lemma CommitWritesCurrentVerdicts(actions: seq<Action>, p: nat, taken: set<LineId>)
    requires IsReadyClassifier(Run(EMPTY, actions), p)
    ensures var s := Run(EMPTY, actions);
            var me := s.procs[p];
            var created := Eligible(s, me.task.batch, me.held);
            var t := Execute(s, Step(p, taken));
            && me.held <= s.lines.Keys
            && created !! s.excepted.Keys
            && t.excepted.Keys == s.excepted.Keys + created
            && (forall id :: id in created ==> t.excepted[id] == Decide(Seen(s, id), World(s, me.held)))
            && (forall id :: id in s.excepted ==> t.excepted[id] == s.excepted[id])
            && t.lines == s.lines && t.matched == s.matched
            && t.procs == s.procs[p := Finish(me, Committed(created))]
  {
    RunKeepsSafe(EMPTY, actions);
    CommitFromSafe(Run(EMPTY, actions), p, taken);
  }

  lemma CommitFromSafe(s: State, p: nat, taken: set<LineId>)
    requires Safe(s) && IsReadyClassifier(s, p)
    ensures var me := s.procs[p];
            var created := Eligible(s, me.task.batch, me.held);
            var t := Execute(s, Step(p, taken));
            && me.held <= s.lines.Keys
            && created !! s.excepted.Keys
            && t.excepted.Keys == s.excepted.Keys + created
            && (forall id :: id in created ==> t.excepted[id] == Decide(Seen(s, id), World(s, me.held)))
            && (forall id :: id in s.excepted ==> t.excepted[id] == s.excepted[id])
            && t.lines == s.lines && t.matched == s.matched
            && t.procs == s.procs[p := Finish(me, Committed(created))]
  {
    var me := s.procs[p];
    assert ProcOk(s, me);
    assert forall q :: !WaitsFor(s, p, q);
    var created := Eligible(s, me.task.batch, me.held);
    CreatedExactly(s, me.task.batch, me.held, me.task.context);
    InsertedKeys(s.excepted, Classified(me.task.residuals, me.task.context));
    forall id | id in created
      ensures Inserted(s.excepted, Classified(me.task.residuals, me.task.context))[id]
              == Decide(Seen(s, id), World(s, me.held))
    {
      WrittenVerdict(s, me.task.batch, me.held, id);
    }
    assert created * s.matched == {};
    assert Execute(s, Step(p, taken)) == CommitClassifier(s, p);
  }

  // ----- what a written fee split rests on ------------------------------------------------------------

  /** The unreconciled fee deductions of a line's order, among the pinned rows. */
  function DeductionsOf(s: State, id: LineId, pinned: set<LineId>): int
    requires id in s.lines && pinned <= s.lines.Keys
  {
    TotalDeductions(UnreconciledGroup(Evidence(Seen(s, id), Related(Seen(s, id), World(s, pinned)))))
  }

  /** The order of `id` has an unmatched pinned capture larger than its unreconciled deductions. */
  ghost predicate CaptureIsThere(s: State, id: LineId, pinned: set<LineId>) {
    && id in s.lines && pinned <= s.lines.Keys
    && exists c :: && c in pinned && c !in s.matched
                   && s.lines[c].reference.Some? && s.lines[c].reference == s.lines[id].reference
                   && s.lines[c].currency == s.lines[id].currency
                   && MovementType(s.lines[c].declared) == Some(Capture)
                   && 0 < DeductionsOf(s, id, pinned) < s.lines[c].amount
  }

  /** The motivating race cannot happen: when a fee split is written, its capture is still there. */
  lemma FeeSplitHasItsCapture(actions: seq<Action>, p: nat, taken: set<LineId>, id: LineId)
    requires var s := Run(EMPTY, actions);
             && IsReadyClassifier(s, p)
             && id in Eligible(s, s.procs[p].task.batch, s.procs[p].held)
             && id in Execute(s, Step(p, taken)).excepted
             && Execute(s, Step(p, taken)).excepted[id].class_ == FeeSplit
    ensures var s := Run(EMPTY, actions);
            CaptureIsThere(Execute(s, Step(p, taken)), id, s.procs[p].held)
  {
    RunKeepsSafe(EMPTY, actions);
    var s := Run(EMPTY, actions);
    CommitFromSafe(s, p, taken);
    SplitRestsOnCapture(s, s.procs[p].held, id);
    SameRows(s, Execute(s, Step(p, taken)), id, s.procs[p].held);
  }

  lemma SameRows(s: State, t: State, id: LineId, pinned: set<LineId>)
    requires s.lines == t.lines && s.matched == t.matched && CaptureIsThere(s, id, pinned)
    ensures CaptureIsThere(t, id, pinned)
  {
    assert forall x :: x in t.lines ==> Seen(s, x) == Seen(t, x);
    assert World(s, pinned) == World(t, pinned);
  }

  lemma SplitRestsOnCapture(s: State, pinned: set<LineId>, id: LineId)
    requires pinned <= s.lines.Keys && id in pinned && id !in s.matched
    requires Decide(Seen(s, id), World(s, pinned)).class_ == FeeSplit
    ensures CaptureIsThere(s, id, pinned)
  {
    var subject, world := Seen(s, id), World(s, pinned);
    var group := UnreconciledGroup(Evidence(subject, Related(subject, world)));
    RowsOf(s, pinned);
    SeenIsIdFunctional(s, world);
    FeeSplitIff(subject, world);
    var m :| m in group && IsInflow(m) && TotalDeductions(group) < m.amount;
    HasReference(subject, world);
    UnreconciledCounts(subject, world, m);
    assert m in multiset(group);
    assert m in world && m.id in pinned;
    assert !m.matched;
  }

  /** A line without a reference has no group but itself, so it is never a fee split. */
  lemma HasReference(subject: Movement, world: seq<Movement>)
    requires Decide(subject, world).class_ == FeeSplit
    ensures subject.reference.Some?
  {
    LoneGroup(subject);
    FeeSplitIff(subject, world);
  }

  /** A group of one does not split: a record is not both a deduction and a capture. */
  lemma LoneGroup(subject: Movement)
    ensures var group := UnreconciledGroup(Evidence(subject, []));
            0 < TotalDeductions(group) ==> forall m :: m in group ==> !IsInflow(m)
  {
    assert UnreconciledGroup(Evidence(subject, [])) == [subject];
    DeductionOfOne(subject);
  }

  /** One commit never splits an order's opinion: unmatched captures and fees of one order that no booked
      pinned row exactly reverses are written with the same verdict. */
  lemma CommitIsCoherent(actions: seq<Action>, p: nat, taken: set<LineId>, x: LineId, y: LineId)
    requires var s := Run(EMPTY, actions);
             && IsReadyClassifier(s, p)
             && x in Eligible(s, s.procs[p].task.batch, s.procs[p].held)
             && y in Eligible(s, s.procs[p].task.batch, s.procs[p].held)
             && SplitCandidate(s, s.procs[p].held, x) && SplitCandidate(s, s.procs[p].held, y)
             && s.lines[x].reference == s.lines[y].reference && s.lines[x].currency == s.lines[y].currency
    ensures var after := Execute(Run(EMPTY, actions), Step(p, taken)).excepted;
            x in after && y in after && after[x] == after[y]
  {
    RunKeepsSafe(EMPTY, actions);
    var s := Run(EMPTY, actions);
    CommitFromSafe(s, p, taken);
    var world := World(s, s.procs[p].held);
    RowsOf(s, s.procs[p].held);
    SeenIsIdFunctional(s, world);
    FeeSplitCoherence(Seen(s, x), Seen(s, y), world);
  }

  /** A capture or fee of some order, not exactly reversed by a booked pinned row of it. */
  ghost predicate SplitCandidate(s: State, pinned: set<LineId>, id: LineId) {
    && id in s.lines && pinned <= s.lines.Keys
    && s.lines[id].reference.Some?
    && MovementType(s.lines[id].declared) in {Some(Capture), Some(Fee)}
    && !AnyBookedOffset(Evidence(Seen(s, id), Related(Seen(s, id), World(s, pinned))))
  }

  // ----- what persists along a run ----------------------------------------------------------------------

  predicate Asking(phase: Phase) {
    phase.Locking? || phase.Relisted? || phase.Ready? || phase.Ended?
  }

  ghost predicate ProcEvolves(a: Proc, b: Proc) {
    && (a.phase.Ended? ==> b == a)
    && (Asking(a.phase) ==> Asking(b.phase) && b.wanted == a.wanted)
    && a.task.Classify? == b.task.Classify?
    && (a.task.Classify? ==>
          && b.task.batch == a.task.batch
          && (!a.phase.Starting? ==> !b.phase.Starting? && b.task.snapshot == a.task.snapshot))
  }

  ghost predicate Evolves(s: State, t: State) {
    && (forall id :: id in s.lines ==> id in t.lines && t.lines[id] == s.lines[id])
    && s.matched <= t.matched
    && (forall id :: id in s.excepted ==> id in t.excepted && t.excepted[id] == s.excepted[id])
    && |s.procs| <= |t.procs|
    && (forall p :: 0 <= p < |s.procs| ==> ProcEvolves(s.procs[p], t.procs[p]))
  }

  lemma ReplaceEvolves(s: State, t: State, p: nat, next: Proc)
    requires p < |s.procs| && t.procs == s.procs[p := next] && ProcEvolves(s.procs[p], next)
    requires t.lines == s.lines && s.matched <= t.matched
    requires forall id :: id in s.excepted ==> id in t.excepted && t.excepted[id] == s.excepted[id]
    ensures Evolves(s, t)
  {}

  lemma ClassifierStepEvolves(s: State, p: nat)
    requires p < |s.procs| && s.procs[p].task.Classify? && !s.procs[p].phase.Ended?
    ensures Evolves(s, StepClassifier(s, p))
  {
    var me := s.procs[p];
    var t := StepClassifier(s, p);
    if me.phase.Ready? {
      InsertedKeys(s.excepted, Classified(me.task.residuals, me.task.context));
    }
    ReplaceEvolves(s, t, p, t.procs[p]);
  }

  lemma MatcherStepEvolves(s: State, p: nat, taken: set<LineId>)
    requires p < |s.procs| && s.procs[p].task.Match? && !s.procs[p].phase.Ended?
    ensures Evolves(s, StepMatcher(s, p, taken))
  {
    var t := StepMatcher(s, p, taken);
    ReplaceEvolves(s, t, p, t.procs[p]);
  }

  lemma ActionEvolves(s: State, a: Action)
    ensures Evolves(s, Execute(s, a))
  {
    if Enabled(s, a) {
      match a
      case Step(p, taken) =>
        if s.procs[p].task.Classify? {
          ClassifierStepEvolves(s, p);
        } else {
          MatcherStepEvolves(s, p, taken);
        }
      case Die(p) => ReplaceEvolves(s, Next(s, a), p, Finish(s.procs[p], RolledBack));
      case _ =>
    }
  }

  lemma EvolvesTransitive(r: State, s: State, t: State)
    requires Evolves(r, s) && Evolves(s, t)
    ensures Evolves(r, t)
  {
    forall p | 0 <= p < |r.procs| ensures ProcEvolves(r.procs[p], t.procs[p]) {
      assert ProcEvolves(r.procs[p], s.procs[p]) && ProcEvolves(s.procs[p], t.procs[p]);
    }
  }

  /** Along any run a match is never undone, an exception never changes or disappears, and a
      transaction keeps what it set out to pin. */
  lemma {:induction false} RunEvolves(s: State, actions: seq<Action>)
    ensures Evolves(s, Run(s, actions))
  {
    if actions != [] {
      var before := Run(s, actions[..|actions| - 1]);
      RunEvolves(s, actions[..|actions| - 1]);
      ActionEvolves(before, actions[|actions| - 1]);
      EvolvesTransitive(s, before, Run(s, actions));
    }
  }

  // ----- every exception has its commit -----------------------------------------------------------------

  /** The run's action `i` is the commit of classifier `p`, which had pinned `id` while it was eligible, and
      `verdict` is what its pinned rows, as committed at that moment, decide. */
  ghost predicate WrittenAt(actions: seq<Action>, i: nat, p: nat, id: LineId, verdict: Verdict) {
    && i < |actions| && actions[i].Step? && actions[i].p == p
    && var s := Run(EMPTY, actions[..i]);
       && IsReadyClassifier(s, p) && s.procs[p].held <= s.lines.Keys
       && id in Eligible(s, s.procs[p].task.batch, s.procs[p].held)
       && verdict == Decide(Seen(s, id), World(s, s.procs[p].held))
  }

  lemma NewExceptionIsCommitted(s: State, a: Action, id: LineId)
    requires id !in s.excepted && id in Execute(s, a).excepted
    ensures a.Step? && IsReadyClassifier(s, a.p)
  {
    assert Enabled(s, a);
  }

  /** Whatever the interleaving, every exception in the database was written by one commit, and its verdict
      is still the one the pinned rows gave at that moment. */
  lemma {:induction false} EveryExceptionHasItsCommit(actions: seq<Action>, id: LineId)
    requires id in Run(EMPTY, actions).excepted
    ensures exists i: nat, p: nat :: WrittenAt(actions, i, p, id, Run(EMPTY, actions).excepted[id])
  {
    if actions != [] {
      var n := |actions| - 1;
      var before := Run(EMPTY, actions[..n]);
      var verdict := Run(EMPTY, actions).excepted[id];
      ActionEvolves(before, actions[n]);
      if id in before.excepted {
        EveryExceptionHasItsCommit(actions[..n], id);
        var i: nat, p: nat :| WrittenAt(actions[..n], i, p, id, verdict);
        assert actions[..n][..i] == actions[..i];
        assert WrittenAt(actions, i, p, id, verdict);
      } else {
        NewExceptionIsCommitted(before, actions[n], id);
        RunKeepsSafe(EMPTY, actions[..n]);
        CommitFromSafe(before, actions[n].p, actions[n].taken);
        assert WrittenAt(actions, n, actions[n].p, id, verdict);
      }
    }
  }

  /** The class of every exception in the database, whatever the interleaving: never one of the two that are
      not assigned, and the one its line's explanation among the rows then pinned gives. */
  lemma ExceptionClassMeans(actions: seq<Action>, id: LineId)
    requires id in Run(EMPTY, actions).excepted
    ensures var verdict := Run(EMPTY, actions).excepted[id];
            && verdict.class_ !in {PartialCapture, FxRounding}
            && exists i: nat, p: nat :: && WrittenAt(actions, i, p, id, verdict)
                                        && ClassOfPinned(Run(EMPTY, actions[..i]), p, id, verdict.class_)
  {
    EveryExceptionHasItsCommit(actions, id);
    var verdict := Run(EMPTY, actions).excepted[id];
    var i: nat, p: nat :| WrittenAt(actions, i, p, id, verdict);
    PinnedClass(Run(EMPTY, actions[..i]), p, id);
  }

  /** `class_` is what explains the line among the rows transaction `p` has pinned. */
  ghost predicate ClassOfPinned(s: State, p: nat, id: LineId, class_: Class) {
    && p < |s.procs| && s.procs[p].held <= s.lines.Keys && id in s.lines
    && var subject, world := Seen(s, id), World(s, s.procs[p].held);
       class_ == if ExplainedByFees(subject, world) then FeeSplit
                 else if ExplainedByChargeback(subject, world) then ChargebackReversed
                 else if ExplainedByEarlierCapture(subject, world) then CrossPeriodRefund
                 else Unclassified
  }

  lemma PinnedClass(s: State, p: nat, id: LineId)
    requires p < |s.procs| && s.procs[p].held <= s.lines.Keys && id in s.lines
    ensures var class_ := Decide(Seen(s, id), World(s, s.procs[p].held)).class_;
            class_ !in {PartialCapture, FxRounding} && ClassOfPinned(s, p, id, class_)
  {
    var subject, world := Seen(s, id), World(s, s.procs[p].held);
    RowsOf(s, s.procs[p].held);
    SeenIsIdFunctional(s, world);
    FeeSplitIff(subject, world);
    ChargebackReversedIff(subject, world);
    CrossPeriodRefundIff(subject, world);
    UnclassifiedIff(subject, world);
  }

  // ----- the matcher's side -----------------------------------------------------------------------------------

  /** At commit a matching transaction matches exactly the proposals it was given that still had their entry,
      carry no exception and are not matched yet, and changes nothing else. */
  lemma MatcherCommitMatches(actions: seq<Action>, p: nat, taken: set<LineId>)
    requires var s := Run(EMPTY, actions);
             p < |s.procs| && s.procs[p].task.Match? && s.procs[p].phase.Ready?
    ensures var s := Run(EMPTY, actions);
            var t := Execute(s, Step(p, taken));
            var gained := (taken * s.procs[p].held) - s.excepted.Keys - s.matched;
            && t.matched == s.matched + gained
            && t.excepted == s.excepted && t.lines == s.lines
            && t.procs == s.procs[p := Finish(s.procs[p], Committed(gained))]
  {
    RunKeepsSafe(EMPTY, actions);
    var s := Run(EMPTY, actions);
    var me := s.procs[p];
    assert ProcOk(s, me);
    assert CanStep(s, p);
    assert (taken * me.wanted) - me.task.underException - s.matched
           == (taken * me.held) - s.excepted.Keys - s.matched;
  }

  // ----- evidence that was not pinned arrived late ---------------------------------------------------------

  /** The rows a classifier sets out to pin after reading `snapshot` and its context. */
  function Wanted(s: State, snapshot: seq<Movement>): set<LineId> {
    Ids(snapshot) + Ids(LoadContext(s, snapshot))
  }

  /** Every parsed row that shares a wanted row's reference is wanted. */
  lemma WantsWholeOrders(s: State, batch: Option<BatchId>, snapshot: seq<Movement>, id: LineId, x: LineId)
    requires forall m :: m in snapshot ==> WasResidual(s, batch, m)
    requires id in s.lines && x in s.lines && s.lines[x].parsed && id in Wanted(s, snapshot)
    requires s.lines[x].reference.Some? && s.lines[x].reference == s.lines[id].reference
    ensures x in Wanted(s, snapshot)
  {
    var context := LoadContext(s, snapshot);
    ContextMeans(s, snapshot);
    IdsMembers(snapshot);
    IdsMembers(context);
    if id in Ids(snapshot) {
      var m :| m in snapshot && m.id == id;
      assert WasResidual(s, batch, m);
      var i :| 0 <= i < |snapshot| && snapshot[i] == m;
      assert SharesReference(s.lines[x], snapshot);
    } else {
      assert IsContext(s, snapshot, id);
    }
    assert IsContext(s, snapshot, x);
    assert Seen(s, x) in context;
  }

  /** A classifier that is ready to commit holds exactly the rows it wanted when it read its context. */
  lemma HoldsWhatItWanted(s: State, p: nat, actions: seq<Action>)
    requires Safe(s) && p < |s.procs| && s.procs[p].task.Classify? && s.procs[p].phase.Snapshotted?
    requires IsReadyClassifier(Run(Execute(s, Step(p, {})), actions), p)
    ensures var t := Run(Execute(s, Step(p, {})), actions);
            && t.procs[p].held == Wanted(s, s.procs[p].task.snapshot)
            && Safe(t) && Evolves(s, t)
  {
    assert CanStep(s, p);
    var u := Execute(s, Step(p, {}));
    var t := Run(u, actions);
    StepKeepsSafe(s, p, {});
    RunKeepsSafe(u, actions);
    ActionEvolves(s, Step(p, {}));
    RunEvolves(u, actions);
    EvolvesTransitive(s, u, t);
    assert ProcOk(t, t.procs[p]);
    assert ProcEvolves(u.procs[p], t.procs[p]);
    assert u.procs[p].wanted == Wanted(s, s.procs[p].task.snapshot);
  }

  /** From the moment a classifier reads its context to the moment it is ready to commit, the only rows
      of a pinned line's order it has not pinned are rows ingested in between. */
  lemma PinsWholeOrders(s: State, p: nat, actions: seq<Action>, id: LineId, x: LineId)
    requires Safe(s) && p < |s.procs| && s.procs[p].task.Classify? && s.procs[p].phase.Snapshotted?
    requires var t := Run(Execute(s, Step(p, {})), actions);
             && IsReadyClassifier(t, p)
             && id in t.procs[p].held && id in t.lines
             && x in t.lines && t.lines[x].parsed && x !in t.procs[p].held
             && t.lines[x].reference.Some? && t.lines[x].reference == t.lines[id].reference
    ensures x !in s.lines
  {
    HoldsWhatItWanted(s, p, actions);
    assert ProcOk(s, s.procs[p]);
    var snapshot := s.procs[p].task.snapshot;
    SnapshotWants(s, s.procs[p].task.batch, snapshot);
    if x in s.lines {
      WantsWholeOrders(s, s.procs[p].task.batch, snapshot, id, x);
    }
  }

  function ParsedIds(s: State): set<LineId> {
    set id | id in s.lines && s.lines[id].parsed
  }

  /** Hence, when nothing of the line's order was ingested in between, the verdict written is the one the
      whole committed database gives. */
  lemma VerdictOfTheWholeDatabase(s: State, p: nat, actions: seq<Action>, taken: set<LineId>, id: LineId)
    requires Safe(s) && p < |s.procs| && s.procs[p].task.Classify? && s.procs[p].phase.Snapshotted?
    requires var t := Run(Execute(s, Step(p, {})), actions);
             && IsReadyClassifier(t, p)
             && id in Eligible(t, t.procs[p].task.batch, t.procs[p].held)
             && forall x :: x in t.lines && x !in s.lines ==> t.lines[x].reference != t.lines[id].reference
    ensures var t := Run(Execute(s, Step(p, {})), actions);
            var after := Execute(t, Step(p, taken)).excepted;
            id in after && after[id] == Decide(Seen(t, id), World(t, ParsedIds(t)))
  {
    HoldsWhatItWanted(s, p, actions);
    var t := Run(Execute(s, Step(p, {})), actions);
    CommitFromSafe(t, p, taken);
    var held := t.procs[p].held;
    assert ProcOk(t, t.procs[p]);
    RowsOf(t, held);
    RowsOf(t, ParsedIds(t));
    SeenIsIdFunctional(t, World(t, held));
    SeenIsIdFunctional(t, World(t, ParsedIds(t)));
    var subject := Seen(t, id);
    if subject.reference.Some? {
      forall m: Movement | m.reference == subject.reference && m in World(t, ParsedIds(t))
        ensures m in World(t, held)
      {
        if m.id !in held {
          PinsWholeOrders(s, p, actions, id, m.id);
        }
      }
      DecisionNeedsOnlyItsOrder(subject, World(t, held), World(t, ParsedIds(t)));
    }
  }

  // ----- the run's own report -------------------------------------------------------------------------------

  /** After the commit, what is left to classify is exactly what was not pinned, so a second run finds
      nothing if and only if every residual was pinned. */
  lemma WhatIsLeft(s: State, p: nat, taken: set<LineId>)
    requires Safe(s) && IsReadyClassifier(s, p)
    ensures var me := s.procs[p];
            var t := Execute(s, Step(p, taken));
            && ResidualIds(t, me.task.batch) == ResidualIds(s, me.task.batch) - me.held
            && (LoadResiduals(t, me.task.batch) == [] <==> ResidualIds(s, me.task.batch) <= me.held)
  {
    CommitFromSafe(s, p, taken);
    var me := s.procs[p];
    var t := Execute(s, Step(p, taken));
    assert ResidualIds(t, me.task.batch) == ResidualIds(s, me.task.batch) - me.held;
    EmptyRows(t, ResidualIds(t, me.task.batch));
  }

  lemma EmptyRows(s: State, ids: set<LineId>)
    requires ids <= s.lines.Keys
    ensures Rows(s, Ascending(ids)) == [] <==> ids == {}
  {
    if ids != {} {
      var id :| id in ids;
      assert id in Ascending(ids);
    } else {
      assert Ascending(ids) == [];
    }
  }

  lemma {:induction false} DistinctIds(ms: seq<Movement>)
    requires ById(ms)
    ensures |Ids(ms)| == |ms|
  {
    if ms == [] {
      assert Ids(ms) == {};
    } else {
      var n := |ms| - 1;
      DistinctIds(ms[..n]);
      assert Ids(ms) == Ids(ms[..n]) + {ms[n].id};
    }
  }

  /** `lost_races` counts the snapshot lines others matched or claimed first, minus the lines that became
      eligible after the snapshot and were classified all the same. */
  lemma LostRaces(s: State, p: nat)
    requires Safe(s) && IsReadyClassifier(s, p)
    ensures var me := s.procs[p];
            var snapshot, created := me.task.snapshot, Eligible(s, me.task.batch, me.held);
            var resolved := Ids(snapshot) * (s.matched + s.excepted.Keys);
            && |snapshot| - |created| == |resolved| - |created - Ids(snapshot)|
            && (|snapshot| - |created| == |resolved| <==> created <= Ids(snapshot))
  {
    var me := s.procs[p];
    assert ProcOk(s, me);
    var snapshot, created := me.task.snapshot, Eligible(s, me.task.batch, me.held);
    var resolved := Ids(snapshot) * (s.matched + s.excepted.Keys);
    DistinctIds(snapshot);
    SnapshotSplits(s, p);
    Split(Ids(snapshot), resolved);
    Split(created, Ids(snapshot));
    assert Ids(snapshot) * resolved == resolved;
    NoneOver(created, Ids(snapshot));
  }

  /** A snapshot line is classified unless it was matched or claimed in the meantime. */
  lemma SnapshotSplits(s: State, p: nat)
    requires Safe(s) && IsReadyClassifier(s, p)
    ensures var me := s.procs[p];
            var snapshot := Ids(me.task.snapshot);
            snapshot - snapshot * (s.matched + s.excepted.Keys)
            == Eligible(s, me.task.batch, me.held) * snapshot
  {
    var me := s.procs[p];
    assert ProcOk(s, me);
    IdsMembers(me.task.snapshot);
    forall id | id in Ids(me.task.snapshot) && id !in s.matched && id !in s.excepted
      ensures id in Eligible(s, me.task.batch, me.held)
    {
      var m :| m in me.task.snapshot && m.id == id;
      assert WasResidual(s, me.task.batch, m);
    }
  }

  lemma NoneOver(a: set<LineId>, b: set<LineId>)
    ensures |a - b| == 0 <==> a <= b
  {
    if |a - b| == 0 {
      forall x | x in a ensures x in b {
        assert x !in a - b;
      }
    } else {
      var x :| x in a - b;
      assert x in a && x !in b;
    }
  }

  lemma Split(a: set<LineId>, b: set<LineId>)
    ensures |a| == |a - b| + |a * b|
  {
    assert a == (a - b) + (a * b);
  }

  /** A line the context read pinned although the snapshot had missed it. */
  ghost predicate MissedBySnapshot(s: State, p: nat, id: LineId)
    requires p < |s.procs| && s.procs[p].task.Classify?
  {
    var me := s.procs[p];
    && IsResidual(s, me.task.batch, id) && IsContext(s, me.task.snapshot, id) && id !in Ids(me.task.snapshot)
  }

  /** When the report means what is documented, said of the context read: `lost_races` is the number of snapshot
      lines others resolved first if and only if no line the snapshot had missed was then eligible on one of its
      orders, except such as were resolved themselves before the commit. */
  lemma LostRacesMeanIff(s: State, p: nat, actions: seq<Action>)
    requires Safe(s) && p < |s.procs| && s.procs[p].task.Classify? && s.procs[p].phase.Snapshotted?
    requires IsReadyClassifier(Run(Execute(s, Step(p, {})), actions), p)
    ensures var t := Run(Execute(s, Step(p, {})), actions);
            var snapshot, created := t.procs[p].task.snapshot, Eligible(t, t.procs[p].task.batch, t.procs[p].held);
            var resolved := Ids(snapshot) * (t.matched + t.excepted.Keys);
            |snapshot| - |created| == |resolved|
            <==> forall id :: MissedBySnapshot(s, p, id) ==> !IsResidual(t, t.procs[p].task.batch, id)
  {
    var t := Run(Execute(s, Step(p, {})), actions);
    HoldsWhatItWanted(s, p, actions);
    assert ProcEvolves(s.procs[p], t.procs[p]);
    LostRaces(t, p);
    forall id
      ensures id in Eligible(t, t.procs[p].task.batch, t.procs[p].held) - Ids(t.procs[p].task.snapshot)
              <==> MissedBySnapshot(s, p, id) && IsResidual(t, t.procs[p].task.batch, id)
    {
      CreatedBesideSnapshot(s, t, p, id);
    }
  }

  lemma CreatedBesideSnapshot(s: State, t: State, p: nat, id: LineId)
    requires Safe(s) && Evolves(s, t) && p < |s.procs| && s.procs[p].task.Classify?
    requires t.procs[p].task.Classify? && t.procs[p].task.batch == s.procs[p].task.batch
    requires t.procs[p].task.snapshot == s.procs[p].task.snapshot
    requires t.procs[p].held == Wanted(s, s.procs[p].task.snapshot)
    ensures id in Eligible(t, t.procs[p].task.batch, t.procs[p].held) - Ids(t.procs[p].task.snapshot)
            <==> MissedBySnapshot(s, p, id) && IsResidual(t, t.procs[p].task.batch, id)
  {
    var snapshot := s.procs[p].task.snapshot;
    var context := LoadContext(s, snapshot);
    ContextMeans(s, snapshot);
    IdsMembers(context);
    if IsContext(s, snapshot, id) {
      assert Seen(s, id) in context;
    }
  }

  /** So it is enough that nothing of the snapshot's orders is ingested between the two reads. */
  lemma LostRacesMeanWithoutArrivals(r: State, p: nat, between: seq<Action>, actions: seq<Action>)
    requires Safe(r) && p < |r.procs| && r.procs[p].task.Classify? && r.procs[p].phase.Starting?
    requires LoadResiduals(r, r.procs[p].task.batch) != []
    requires var s := Run(Execute(r, Step(p, {})), between);
             && p < |s.procs| && s.procs[p].task.Classify? && s.procs[p].phase.Snapshotted?
             && IsReadyClassifier(Run(Execute(s, Step(p, {})), actions), p)
             && forall id :: id in s.lines && id !in r.lines ==>
                  !SharesReference(s.lines[id], s.procs[p].task.snapshot)
    ensures var t := Run(Execute(Run(Execute(r, Step(p, {})), between), Step(p, {})), actions);
            var snapshot, created := t.procs[p].task.snapshot, Eligible(t, t.procs[p].task.batch, t.procs[p].held);
            |snapshot| - |created| == |Ids(snapshot) * (t.matched + t.excepted.Keys)|
  {
    var u := Execute(r, Step(p, {}));
    var s := Run(u, between);
    ActionKeepsSafe(r, Step(p, {}));
    RunKeepsSafe(u, between);
    forall id | IsContext(s, s.procs[p].task.snapshot, id) ensures !MissedBySnapshot(s, p, id) {
      SnapshotMissedNothing(r, p, between, id);
    }
    LostRacesMeanIff(s, p, actions);
  }

  lemma SnapshotMissedNothing(r: State, p: nat, between: seq<Action>, id: LineId)
    requires Safe(r) && p < |r.procs| && r.procs[p].task.Classify? && r.procs[p].phase.Starting?
    requires LoadResiduals(r, r.procs[p].task.batch) != []
    ensures var s := Run(Execute(r, Step(p, {})), between);
            && p < |s.procs| && s.procs[p].task.Classify?
            && (IsResidual(s, s.procs[p].task.batch, id) && id in r.lines ==> id in Ids(s.procs[p].task.snapshot))
  {
    assert CanStep(r, p);
    var u := Execute(r, Step(p, {}));
    var s := Run(u, between);
    RunEvolves(u, between);
    assert ProcEvolves(u.procs[p], s.procs[p]);
    if IsResidual(s, s.procs[p].task.batch, id) && id in r.lines {
      assert IsResidual(r, r.procs[p].task.batch, id);
      SnapshotHas(r, r.procs[p].task.batch, id);
    }
  }

  lemma SnapshotHas(s: State, batch: Option<BatchId>, id: LineId)
    requires IsResidual(s, batch, id)
    ensures id in Ids(LoadResiduals(s, batch))
  {
    ResidualsMean(s, batch);
    IdsMembers(LoadResiduals(s, batch));
    assert Seen(s, id) in LoadResiduals(s, batch);
  }

  /** An eligible line the snapshot or the locks missed was ingested after the snapshot. */
  lemma LatecomersArrivedLate(s: State, p: nat, actions: seq<Action>, id: LineId)
    requires p < |s.procs| && s.procs[p].task.Classify? && s.procs[p].phase.Starting?
    requires Safe(s) && LoadResiduals(s, s.procs[p].task.batch) != []
    requires var t := Run(Execute(s, Step(p, {})), actions);
             && IsReadyClassifier(t, p)
             && IsResidual(t, t.procs[p].task.batch, id)
             && (id !in Ids(t.procs[p].task.snapshot) || id !in t.procs[p].held)
    ensures id !in s.lines
  {
    assert CanStep(s, p);
    var u := Execute(s, Step(p, {}));
    var t := Run(u, actions);
    ActionKeepsSafe(s, Step(p, {}));
    RunKeepsSafe(u, actions);
    RunEvolves(u, actions);
    assert ProcEvolves(u.procs[p], t.procs[p]);
    assert t.procs[p].task.snapshot == LoadResiduals(s, s.procs[p].task.batch);
    if id in s.lines {
      assert IsResidual(s, s.procs[p].task.batch, id);
      SnapshotHas(s, s.procs[p].task.batch, id);
      SnapshotIsHeld(t, p, id);
    }
  }

  lemma SnapshotIsHeld(t: State, p: nat, id: LineId)
    requires Safe(t) && IsReadyClassifier(t, p)
    ensures id in Ids(t.procs[p].task.snapshot) ==> id in t.procs[p].held
  {
    assert ProcOk(t, t.procs[p]);
    IdsMembers(t.procs[p].task.snapshot);
  }
}
