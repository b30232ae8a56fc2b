/** The classification service's own code: one method for each statement it sends, the loop that writes
    the exceptions, and the report it returns. */
module ClassificationService {
  import opened Wrappers
  import opened Engine
  import opened Protocol
  import opened ProtocolSafety
  import opened ProtocolTheorems

  datatype Report = Report(residuals: nat, created: nat, lostRaces: int, byClassification: map<Class, nat>)

  // ----- the tally ----------------------------------------------------------------------------------

  /** How many written decisions carry a class. */
  function Tally(decisions: seq<Classification>, created: set<LineId>, c: Class): nat {
    if decisions == [] then 0
    else
      var last := decisions[|decisions| - 1];
      Tally(decisions[..|decisions| - 1], created, c)
      + if last.lineId in created && last.verdict.class_ == c then 1 else 0
  }

  function TallyAll(decisions: seq<Classification>, created: set<LineId>): nat {
    Tally(decisions, created, PartialCapture) + Tally(decisions, created, FeeSplit)
    + Tally(decisions, created, ChargebackReversed) + Tally(decisions, created, FxRounding)
    + Tally(decisions, created, CrossPeriodRefund) + Tally(decisions, created, Unclassified)
  }

  function CountOf(counts: map<Class, nat>, c: Class): nat {
    if c in counts then counts[c] else 0
  }

  method ByClassification(decisions: seq<Classification>, created: set<LineId>)
    returns (counts: map<Class, nat>)
    ensures forall c :: CountOf(counts, c) == Tally(decisions, created, c)
    ensures forall c :: c in counts ==> counts[c] > 0
  {
    counts := map[];
    for n := 0 to |decisions|
      invariant forall c :: CountOf(counts, c) == Tally(decisions[..n], created, c)
      invariant forall c :: c in counts ==> counts[c] > 0
    {
      var decision := decisions[n];
      assert decisions[..n + 1][..n] == decisions[..n];
      if decision.lineId in created {
        var key := decision.verdict.class_;
        counts := counts[key := CountOf(counts, key) + 1];
      }
    }
    assert decisions[..|decisions|] == decisions;
  }

  /** With one decision a line and every written line decided, the tally adds up to the lines written. */
  lemma {:induction false} TallyAddsUp(decisions: seq<Classification>, created: set<LineId>)
    requires forall i, j :: 0 <= i < j < |decisions| ==> decisions[i].lineId != decisions[j].lineId
    requires forall id :: id in created ==> exists i :: 0 <= i < |decisions| && decisions[i].lineId == id
    ensures TallyAll(decisions, created) == |created|
  {
    if decisions == [] {
      assert created == {};
    } else {
      var n := |decisions| - 1;
      var id := decisions[n].lineId;
      forall x | x in created - {id} ensures exists i :: 0 <= i < n && decisions[..n][i].lineId == x {
        var i :| 0 <= i < |decisions| && decisions[i].lineId == x;
        assert decisions[..n][i].lineId == x;
      }
      TallyAddsUp(decisions[..n], created - {id});
      TallyIgnores(decisions[..n], created, id);
      TallyLast(decisions, created);
    }
  }

  lemma TallyLast(decisions: seq<Classification>, created: set<LineId>)
    requires decisions != []
    ensures var last := decisions[|decisions| - 1];
            TallyAll(decisions, created)
            == TallyAll(decisions[..|decisions| - 1], created) + if last.lineId in created then 1 else 0
  {}

  lemma {:induction false} TallyIgnores(decisions: seq<Classification>, created: set<LineId>, id: LineId)
    requires forall i :: 0 <= i < |decisions| ==> decisions[i].lineId != id
    ensures forall c :: Tally(decisions, created, c) == Tally(decisions, created - {id}, c)
  {
    if decisions != [] {
      TallyIgnores(decisions[..|decisions| - 1], created, id);
    }
  }

  /** The lines of `ids` whose exception in the table carries a class. */
  function Carrying(table: map<LineId, Verdict>, ids: set<LineId>, c: Class): set<LineId> {
    set id | id in ids && id in table && table[id].class_ == c
  }

  /** The lines that inserting the decisions gains. */
  function Gained(excepted: map<LineId, Verdict>, decisions: seq<Classification>): set<LineId> {
    Inserted(excepted, decisions).Keys - excepted.Keys
  }

  /** One more row inserted with ON CONFLICT DO NOTHING. */
  lemma GainedOne(excepted: map<LineId, Verdict>, before: map<LineId, Verdict>, id: LineId, verdict: Verdict)
    requires excepted.Keys <= before.Keys && (id in before <==> id in excepted)
    ensures var after := if id in before then before else before[id := verdict];
            after.Keys - excepted.Keys
            == (before.Keys - excepted.Keys) + (if id in excepted then {} else {id})
  {}

  lemma CarryingGrows(before: map<LineId, Verdict>, gained: set<LineId>, id: LineId, verdict: Verdict, c: Class)
    requires id !in before && id !in gained
    ensures var was := Carrying(before, gained, c);
            && id !in was
            && Carrying(before[id := verdict], gained + {id}, c)
               == if verdict.class_ == c then was + {id} else was
  {}

  lemma CarryingOne(excepted: map<LineId, Verdict>, before: map<LineId, Verdict>, id: LineId, verdict: Verdict,
                    c: Class)
    requires excepted.Keys <= before.Keys && (id in before <==> id in excepted)
    ensures var after := if id in before then before else before[id := verdict];
            |Carrying(after, after.Keys - excepted.Keys, c)|
            == |Carrying(before, before.Keys - excepted.Keys, c)|
               + if id !in excepted && verdict.class_ == c then 1 else 0
  {
    GainedOne(excepted, before, id, verdict);
    if id !in before {
      CarryingGrows(before, before.Keys - excepted.Keys, id, verdict, c);
    }
  }

  lemma DistinctFromLast(excepted: map<LineId, Verdict>, decisions: seq<Classification>)
    requires decisions != []
    requires forall i, j :: 0 <= i < j < |decisions| ==> decisions[i].lineId != decisions[j].lineId
    ensures var n := |decisions| - 1;
            var before := Inserted(excepted, decisions[..n]);
            excepted.Keys <= before.Keys && (decisions[n].lineId in before <==> decisions[n].lineId in excepted)
  {
    var n := |decisions| - 1;
    InsertedKeys(excepted, decisions[..n]);
    assert forall i :: 0 <= i < n ==> decisions[..n][i].lineId != decisions[n].lineId;
  }

  /** What is gained later does not change the tally of what came before. */
  lemma TallyOfFirst(excepted: map<LineId, Verdict>, decisions: seq<Classification>, c: Class)
    requires decisions != []
    requires forall i, j :: 0 <= i < j < |decisions| ==> decisions[i].lineId != decisions[j].lineId
    ensures var n := |decisions| - 1;
            && Tally(decisions[..n], Gained(excepted, decisions), c)
               == Tally(decisions[..n], Gained(excepted, decisions[..n]), c)
            && (decisions[n].lineId in Gained(excepted, decisions) <==> decisions[n].lineId !in excepted)
  {
    var n := |decisions| - 1;
    var id := decisions[n].lineId;
    DistinctFromLast(excepted, decisions);
    GainedOne(excepted, Inserted(excepted, decisions[..n]), id, decisions[n].verdict);
    TallyIgnores(decisions[..n], Gained(excepted, decisions), id);
    assert Gained(excepted, decisions) - {id} == Gained(excepted, decisions[..n]);
  }

  /** The tally is a count over the table: of the lines gained, those whose exception carries the class. */
  lemma {:induction false} TallyCountsTable(excepted: map<LineId, Verdict>, decisions: seq<Classification>, c: Class)
    requires forall i, j :: 0 <= i < j < |decisions| ==> decisions[i].lineId != decisions[j].lineId
    ensures Tally(decisions, Gained(excepted, decisions), c)
            == |Carrying(Inserted(excepted, decisions), Gained(excepted, decisions), c)|
  {
    if decisions == [] {
      assert Carrying(excepted, excepted.Keys - excepted.Keys, c) == {};
    } else {
      var n := |decisions| - 1;
      TallyCountsTable(excepted, decisions[..n], c);
      TallyOfFirst(excepted, decisions, c);
      DistinctFromLast(excepted, decisions);
      CarryingOne(excepted, Inserted(excepted, decisions[..n]), decisions[n].lineId, decisions[n].verdict, c);
    }
  }

  /** The table a ready run leaves, and what it gained. */
  lemma ReadyTable(s: Protocol.State, p: nat)
    requires Reached(s) && IsReadyClassifier(s, p)
    ensures var me := s.procs[p];
            var decisions := Classified(me.task.residuals, me.task.context);
            && Execute(s, Step(p, {})).excepted == Inserted(s.excepted, decisions)
            && Eligible(s, me.task.batch, me.held) == Gained(s.excepted, decisions)
  {
    ReadyCreates(s, p);
    assert CanStep(s, p);
    assert Execute(s, Step(p, {})) == CommitClassifier(s, p);
  }

  lemma ReadyIdsDistinct(s: Protocol.State, p: nat)
    requires Reached(s) && IsReadyClassifier(s, p)
    ensures var decisions := Classified(s.procs[p].task.residuals, s.procs[p].task.context);
            forall i, j :: 0 <= i < j < |decisions| ==> decisions[i].lineId != decisions[j].lineId
  {
    ReachedIsSafe(s);
    assert ProcOk(s, s.procs[p]);
    PinnedResidualsMean(s, s.procs[p].task.batch, s.procs[p].held);
  }

  /** A ready run's tally, read off the table it leaves. */
  lemma ReadyTally(s: Protocol.State, p: nat, c: Class)
    requires Reached(s) && IsReadyClassifier(s, p)
    ensures var me := s.procs[p];
            var created := Eligible(s, me.task.batch, me.held);
            Tally(Classified(me.task.residuals, me.task.context), created, c)
            == |Carrying(Execute(s, Step(p, {})).excepted, created, c)|
  {
    ReadyTable(s, p);
    ReadyIdsDistinct(s, p);
    TallyCountsTable(s.excepted, Classified(s.procs[p].task.residuals, s.procs[p].task.context), c);
  }

  /** The report of a committing run adds up: its classes total the exceptions it wrote. */
  lemma ReportAddsUp(s: Protocol.State, p: nat)
    requires Safe(s) && IsReadyClassifier(s, p)
    ensures var me := s.procs[p];
            TallyAll(Classified(me.task.residuals, me.task.context), Eligible(s, me.task.batch, me.held))
            == |Eligible(s, me.task.batch, me.held)|
  {
    var me := s.procs[p];
    assert ProcOk(s, me);
    var residuals, context := me.task.residuals, me.task.context;
    PinnedResidualsMean(s, me.task.batch, me.held);
    var created := Eligible(s, me.task.batch, me.held);
    forall id | id in created
      ensures exists i :: 0 <= i < |residuals| && Classified(residuals, context)[i].lineId == id
    {
      assert Seen(s, id) in residuals;
      DecidedIds(residuals, context, id);
    }
    TallyAddsUp(Classified(residuals, context), created);
  }

  // ----- states the service can be in ---------------------------------------------------------------

  ghost predicate Reached(s: Protocol.State) {
    exists actions :: s == Run(EMPTY, actions)
  }

  lemma ReachedIsSafe(s: Protocol.State)
    requires Reached(s)
    ensures Safe(s)
  {
    var actions :| s == Run(EMPTY, actions);
    RunKeepsSafe(EMPTY, actions);
  }

  lemma StepStaysReached(s: Protocol.State, a: Action)
    requires Reached(s)
    ensures Reached(Execute(s, a))
  {
    var actions :| s == Run(EMPTY, actions);
    assert (actions + [a])[..|actions|] == actions;
    assert Execute(s, a) == Run(EMPTY, actions + [a]);
  }

  /** Nobody else is at work: every other transaction has ended. */
  ghost predicate Alone(s: Protocol.State, p: nat) {
    forall q :: 0 <= q < |s.procs| && q != p ==> s.procs[q].phase.Ended?
  }

  lemma AloneCanStep(s: Protocol.State, p: nat)
    requires Safe(s) && p < |s.procs| && Alone(s, p) && !s.procs[p].phase.Ended?
    ensures CanStep(s, p)
  {
    forall q | 0 <= q < |s.procs| ensures !WaitsFor(s, p, q) {
      assert ProcOk(s, s.procs[q]);
    }
  }

  /** The tables other than the transactions' own records are the same. */
  ghost predicate SameTables(s: Protocol.State, t: Protocol.State) {
    s.lines == t.lines && s.matched == t.matched && s.excepted == t.excepted
  }

  lemma SameTablesSameRows(s: Protocol.State, t: Protocol.State, ids: set<LineId>)
    requires s.lines == t.lines && s.matched == t.matched && ids <= s.lines.Keys
    ensures World(s, ids) == World(t, ids)
  {
    assert forall id :: id in s.lines ==> Seen(s, id) == Seen(t, id);
  }

  ghost predicate SameRun(a: Proc, b: Proc) {
    a.task.Classify? && b.task.Classify? && b.task.batch == a.task.batch
  }

  ghost predicate KeepsLocks(a: Proc, b: Proc) {
    && SameRun(a, b) && b.task.snapshot == a.task.snapshot && b.wanted == a.wanted && b.held == a.held
  }

  // ----- scanning the lines ------------------------------------------------------------------------------

  /** `rows` are the lines to keep among those before `rest`, in id order. */
  ghost predicate ScannedTo(s: Protocol.State, rows: seq<Movement>, rest: set<LineId>, keep: LineId -> bool) {
    && rest <= s.lines.Keys && ById(rows)
    && (forall x, y :: x in s.lines && x !in rest && y in rest ==> x < y)
    && (forall m :: m in rows <==> m.id in s.lines && m.id !in rest && keep(m.id) && m == Seen(s, m.id))
  }

  lemma ScanStep(s: Protocol.State, rows: seq<Movement>, rest: set<LineId>, keep: LineId -> bool, id: LineId)
    requires ScannedTo(s, rows, rest, keep) && IsLeast(rest, id)
    ensures ScannedTo(s, if keep(id) then rows + [Seen(s, id)] else rows, rest - {id}, keep)
  {
    var after := if keep(id) then rows + [Seen(s, id)] else rows;
    forall i | 0 <= i < |rows| ensures rows[i].id < id {
      assert rows[i] in rows;
    }
    forall m
      ensures m in after <==> m.id in s.lines && m.id !in rest - {id} && keep(m.id) && m == Seen(s, m.id)
    {
      assert m in after <==> m in rows || (keep(id) && m == Seen(s, id));
    }
  }

  /** The references the residuals carry. */
  ghost predicate Collected(references: set<string>, residuals: seq<Movement>) {
    forall r :: r in references <==> exists i :: 0 <= i < |residuals| && residuals[i].reference == Some(r)
  }

  method References(residuals: seq<Movement>) returns (references: set<string>)
    ensures Collected(references, residuals)
  {
    references := {};
    for n := 0 to |residuals|
      invariant Collected(references, residuals[..n])
    {
      assert residuals[..n + 1] == residuals[..n] + [residuals[n]];
      if residuals[n].reference.Some? {
        CollectOne(references, residuals[..n], residuals[n]);
        references := references + {residuals[n].reference.value};
      } else {
        CollectOne(references, residuals[..n], residuals[n]);
      }
    }
    assert residuals[..|residuals|] == residuals;
  }

  lemma CollectOne(references: set<string>, residuals: seq<Movement>, m: Movement)
    requires Collected(references, residuals)
    ensures Collected(if m.reference.Some? then references + {m.reference.value} else references,
                      residuals + [m])
  {
    var after := residuals + [m];
    forall r ensures (exists i :: 0 <= i < |after| && after[i].reference == Some(r)) <==>
                     r in references || m.reference == Some(r)
    {
      if r in references {
        var i :| 0 <= i < |residuals| && residuals[i].reference == Some(r);
        assert after[i].reference == Some(r);
      }
      if m.reference == Some(r) {
        assert after[|residuals|].reference == Some(r);
      }
      if i :| 0 <= i < |after| && after[i].reference == Some(r) {
        if i < |residuals| {
          assert residuals[i].reference == Some(r);
        }
      }
    }
  }

  /** Nothing carries a reference: no line is context. */
  lemma SharesCollected(references: set<string>, residuals: seq<Movement>, line: Line)
    requires Collected(references, residuals)
    ensures SharesReference(line, residuals) <==> line.reference.Some? && line.reference.value in references
  {}

  // ----- what the reads give ---------------------------------------------------------------------------

  lemma SnapshotIds(s: Protocol.State, batch: Option<BatchId>)
    ensures Ids(LoadResiduals(s, batch)) == ResidualIds(s, batch)
    ensures LoadResiduals(s, batch) == [] <==> ResidualIds(s, batch) == {}
  {
    ResidualsMean(s, batch);
    IdsMembers(LoadResiduals(s, batch));
    forall id | id in ResidualIds(s, batch) ensures id in Ids(LoadResiduals(s, batch)) {
      SnapshotHas(s, batch, id);
    }
    EmptyRows(s, ResidualIds(s, batch));
  }

  lemma PinnedIds(s: Protocol.State, batch: Option<BatchId>, pinned: set<LineId>)
    ensures Ids(PinnedResiduals(s, batch, pinned)) == Eligible(s, batch, pinned)
  {
    var rows := PinnedResiduals(s, batch, pinned);
    PinnedResidualsMean(s, batch, pinned);
    IdsMembers(rows);
    forall id | id in Eligible(s, batch, pinned) ensures id in Ids(rows) {
      assert Seen(s, id) in rows;
    }
  }

  /** Every parsed line that shares a wanted line's reference is wanted. */
  ghost predicate WholeOrders(lines: map<LineId, Line>, wanted: set<LineId>) {
    forall id, x :: (&& id in wanted && id in lines && x in lines && lines[x].parsed
                     && lines[x].reference.Some? && lines[x].reference == lines[id].reference)
      ==> x in wanted
  }

  lemma WantsOrders(s: Protocol.State, batch: Option<BatchId>, snapshot: seq<Movement>)
    requires forall m :: m in snapshot ==> WasResidual(s, batch, m)
    ensures WholeOrders(s.lines, Wanted(s, snapshot))
  {
    forall id, x | && id in Wanted(s, snapshot) && id in s.lines && x in s.lines && s.lines[x].parsed
                   && s.lines[x].reference.Some? && s.lines[x].reference == s.lines[id].reference
      ensures x in Wanted(s, snapshot)
    {
      WantsWholeOrders(s, batch, snapshot, id, x);
    }
  }

  lemma ReadyDecides(s: Protocol.State, p: nat)
    requires Safe(s) && IsReadyClassifier(s, p)
    ensures var me := s.procs[p];
            && me.held <= s.lines.Keys
            && forall m :: m in me.task.residuals ==>
                 Decide(m, me.task.context + me.task.residuals) == Decide(m, World(s, me.held))
  {
    var me := s.procs[p];
    assert ProcOk(s, me);
    forall m | m in me.task.residuals
      ensures Decide(m, me.task.context + me.task.residuals) == Decide(m, World(s, me.held))
    {
      PinnedWorldDecides(s, me.task.batch, me.held, m);
    }
  }

  lemma ReadyCreates(s: Protocol.State, p: nat)
    requires Reached(s) && IsReadyClassifier(s, p)
    ensures var me := s.procs[p];
            && Created(s.excepted, me.task.residuals, me.task.context) == Eligible(s, me.task.batch, me.held)
            && Eligible(s, me.task.batch, me.held) * s.matched == {}
  {
    ReachedIsSafe(s);
    assert ProcOk(s, s.procs[p]);
    CreatedExactly(s, s.procs[p].task.batch, s.procs[p].held, s.procs[p].task.context);
  }

  lemma NothingMissing(wanted: set<LineId>, held: set<LineId>)
    requires held <= wanted && wanted - held == {}
    ensures held == wanted
  {
    assert wanted == held + (wanted - held);
  }

  lemma OneLeast(ids: set<nat>, x: nat, y: nat)
    requires IsLeast(ids, x) && IsLeast(ids, y)
    ensures x == y
  {}

  lemma GrantedMeans(s: Protocol.State, p: nat, id: LineId)
    requires p < |s.procs| && s.procs[p].phase.Locking? && s.procs[p].wanted - s.procs[p].held != {}
    requires id == NextLock(s.procs[p])
    ensures CanStep(s, p) <==> forall q :: 0 <= q < |s.procs| && q != p ==> id !in s.procs[q].held
    ensures CanStep(s, p) ==> Execute(s, Step(p, {})).procs == s.procs[p := LockOne(s.procs[p])]
  {
    forall q | 0 <= q < |s.procs| ensures WaitsFor(s, p, q) <==> q != p && id in s.procs[q].held {}
  }

  /** The verdict of the whole committed database. */
  function WholeVerdict(s: Protocol.State, id: LineId): Verdict
    requires id in s.lines
  {
    Decide(Seen(s, id), World(s, ParsedIds(s)))
  }

  /** Pinned rows that hold a line's whole order give the whole database's verdict. */
  lemma WholeOrdersDecide(s: Protocol.State, pinned: set<LineId>, id: LineId)
    requires id in pinned && pinned <= ParsedIds(s) && WholeOrders(s.lines, pinned)
    ensures Decide(Seen(s, id), World(s, pinned)) == WholeVerdict(s, id)
  {
    var subject := Seen(s, id);
    RowsOf(s, pinned);
    RowsOf(s, ParsedIds(s));
    SeenIsIdFunctional(s, World(s, pinned));
    SeenIsIdFunctional(s, World(s, ParsedIds(s)));
    if subject.reference.Some? {
      DecisionNeedsOnlyItsOrder(subject, World(s, pinned), World(s, ParsedIds(s)));
    } else {
      assert Related(subject, World(s, pinned)) == Related(subject, World(s, ParsedIds(s)));
    }
  }

  /** `t` has an exception for every line of `eligible`, with the whole database's verdict, and is otherwise
      as `s`. */
  ghost predicate ClaimsExactly(s: Protocol.State, t: Protocol.State, eligible: set<LineId>)
    requires eligible <= s.lines.Keys
  {
    && t.lines == s.lines && t.matched == s.matched
    && t.excepted.Keys == s.excepted.Keys + eligible
    && (forall id :: id in s.excepted && id !in eligible ==> t.excepted[id] == s.excepted[id])
    && (forall id :: id in eligible ==> t.excepted[id] == WholeVerdict(s, id))
  }

  /** The commit of a run that pinned every eligible line with its whole order. */
  lemma CommitOfWholeOrders(s: Protocol.State, p: nat)
    requires Safe(s) && IsReadyClassifier(s, p)
    requires ResidualIds(s, s.procs[p].task.batch) <= s.procs[p].held && WholeOrders(s.lines, s.procs[p].held)
    ensures var t := Execute(s, Step(p, {}));
            var eligible := ResidualIds(s, s.procs[p].task.batch);
            && Eligible(s, s.procs[p].task.batch, s.procs[p].held) == eligible
            && ClaimsExactly(s, t, eligible)
            && ResidualIds(t, s.procs[p].task.batch) == {}
            && t.procs == s.procs[p := t.procs[p]] && t.procs[p].phase.Ended?
  {
    var me := s.procs[p];
    assert ProcOk(s, me);
    CommitFromSafe(s, p, {});
    assert Eligible(s, me.task.batch, me.held) == ResidualIds(s, me.task.batch);
    forall id | id in ResidualIds(s, me.task.batch)
      ensures Decide(Seen(s, id), World(s, me.held)) == WholeVerdict(s, id)
    {
      WholeOrdersDecide(s, me.held, id);
    }
    WhatIsLeft(s, p, {});
  }

  lemma SameEligible(s: Protocol.State, t: Protocol.State, batch: Option<BatchId>)
    requires SameTables(s, t)
    ensures ResidualIds(s, batch) == ResidualIds(t, batch)
  {}

  lemma SameVerdicts(s: Protocol.State, t: Protocol.State, ids: set<LineId>)
    requires SameTables(s, t) && ids <= s.lines.Keys
    ensures forall id :: id in ids ==> WholeVerdict(s, id) == WholeVerdict(t, id)
  {
    assert ParsedIds(s) == ParsedIds(t);
    SameTablesSameRows(s, t, ParsedIds(s));
  }

  /** The run is ready, with every eligible line pinned and counted and every order pinned whole. */
  ghost predicate WholeOrdersPinned(s: Protocol.State, p: nat, batch: Option<BatchId>) {
    && IsReadyClassifier(s, p) && s.procs[p].task.batch == batch
    && ResidualIds(s, batch) <= s.procs[p].held && WholeOrders(s.lines, s.procs[p].held)
    && |s.procs[p].task.snapshot| == |ResidualIds(s, batch)|
  }

  lemma CommitAlone(before: Protocol.State, ready: Protocol.State, p: nat, batch: Option<BatchId>)
    requires SameTables(before, ready) && Reached(ready) && WholeOrdersPinned(ready, p, batch)
    ensures var t := Execute(ready, Step(p, {}));
            && ClaimsExactly(before, t, ResidualIds(before, batch)) && ResidualIds(t, batch) == {}
            && Eligible(ready, batch, ready.procs[p].held) == ResidualIds(before, batch)
            && t.procs == ready.procs[p := t.procs[p]] && t.procs[p].phase.Ended?
  {
    ReachedIsSafe(ready);
    CommitOfWholeOrders(ready, p);
    SameEligible(before, ready, batch);
    SameVerdicts(before, ready, ResidualIds(before, batch));
  }

  lemma SnapshotCount(s: Protocol.State, p: nat)
    requires Safe(s) && p < |s.procs| && s.procs[p].task.Classify?
    ensures |s.procs[p].task.snapshot| == |Ids(s.procs[p].task.snapshot)|
  {
    assert ProcOk(s, s.procs[p]);
    DistinctIds(s.procs[p].task.snapshot);
  }

  // ----- the service ----------------------------------------------------------------------------------

  class Service {
    var lines: map<LineId, Line>
    var matched: set<LineId>
    var excepted: map<LineId, Verdict>
    var procs: seq<Proc>

    function State(): Protocol.State
      reads this
    {
      Protocol.State(lines, matched, excepted, procs)
    }

    /** Some interleaving leads here. */
    ghost predicate Valid()
      reads this
    {
      Reached(State())
    }

    constructor ()
      ensures State() == EMPTY && Valid()
    {
      lines, matched, excepted, procs := map[], {}, map[], [];
      new;
      assert State() == Run(EMPTY, []);
    }

    // ----- the two queries, row by row ------------------------------------------------------------

    /** A line as a query returns it. */
    method Fetch(id: LineId) returns (row: Movement)
      requires id in lines
      ensures row == Seen(State(), id)
    {
      var line := lines[id];
      row := Movement(id, line.reference, MovementType(line.declared), line.amount, line.currency,
                      line.valueDate, id in matched);
    }

    /** `_load_residuals`: the scan keeps exactly the eligible lines, in id order. */
    method ScanResiduals(batch: Option<BatchId>) returns (rows: seq<Movement>)
      ensures ById(rows)
      ensures forall m :: m in rows <==> IsResidual(State(), batch, m.id) && m == Seen(State(), m.id)
      ensures rows == LoadResiduals(State(), batch)
    {
      rows := [];
      var rest := lines.Keys;
      ghost var now := State();
      ghost var eligible := (x: LineId) => IsResidual(now, batch, x);
      while rest != {}
        invariant ScannedTo(now, rows, rest, eligible)
        decreases |rest|
      {
        var id := Least(rest);
        var line := lines[id];
        var row := Fetch(id);
        ScanStep(now, rows, rest, eligible, id);
        if line.parsed && id !in matched && id !in excepted && (batch.None? || line.batch == batch.value) {
          rows := rows + [row];
        }
        rest := rest - {id};
      }
      ResidualsMean(State(), batch);
      ByIdUnique(rows, LoadResiduals(State(), batch));
    }

    /** `_load_context`: collect the references, then keep every parsed line that carries one of them. */
    method ScanContext(residuals: seq<Movement>) returns (rows: seq<Movement>)
      ensures ById(rows)
      ensures forall m :: m in rows <==> IsContext(State(), residuals, m.id) && m == Seen(State(), m.id)
      ensures rows == LoadContext(State(), residuals)
    {
      var references := References(residuals);
      rows := [];
      var rest := if references == {} then {} else lines.Keys;
      ghost var now := State();
      ghost var shared := (x: LineId) => IsContext(now, residuals, x);
      forall x | x in lines
        ensures shared(x) <==> lines[x].parsed && lines[x].reference.Some?
                               && lines[x].reference.value in references
      {
        SharesCollected(references, residuals, lines[x]);
      }
      while rest != {}
        invariant ScannedTo(now, rows, rest, shared)
        decreases |rest|
      {
        var id := Least(rest);
        var line := lines[id];
        var row := Fetch(id);
        ScanStep(now, rows, rest, shared, id);
        if line.parsed && line.reference.Some? && line.reference.value in references {
          rows := rows + [row];
        }
        rest := rest - {id};
      }
      ContextMeans(State(), residuals);
      ByIdUnique(rows, LoadContext(State(), residuals));
    }

    // ----- one run, statement by statement --------------------------------------------------------

    /** The first read. The run ends at once exactly when no line is eligible. */
    method TakeSnapshot(p: nat)
      requires Valid() && p < |procs| && procs[p].task.Classify? && procs[p].phase.Starting?
      modifies this`procs
      ensures Valid() && State() == Execute(old(State()), Step(p, {}))
      ensures procs == old(procs)[p := procs[p]] && SameRun(old(procs)[p], procs[p])
      ensures if ResidualIds(State(), procs[p].task.batch) == {} then procs[p].phase.Ended?
              else procs[p].phase.Snapshotted?
                   && Ids(procs[p].task.snapshot) == ResidualIds(State(), procs[p].task.batch)
    {
      ghost var before := State();
      ReachedIsSafe(before);
      StepStaysReached(before, Step(p, {}));
      var me := procs[p];
      var snapshot := ScanResiduals(me.task.batch);
      SnapshotIds(before, me.task.batch);
      if snapshot == [] {
        procs := procs[p := Finish(me, Committed({}))];
      } else {
        procs := procs[p := me.(phase := Snapshotted, task := me.task.(snapshot := snapshot))];
      }
      assert State() == Execute(before, Step(p, {}));
    }

    /** The second read. What will be pinned holds the whole order of every row in it. */
    method WidenToContext(p: nat)
      requires Valid() && p < |procs| && procs[p].task.Classify? && procs[p].phase.Snapshotted?
      modifies this`procs
      ensures Valid() && State() == Execute(old(State()), Step(p, {}))
      ensures procs == old(procs)[p := procs[p]] && SameRun(old(procs)[p], procs[p])
      ensures procs[p].task.snapshot == old(procs)[p].task.snapshot
      ensures procs[p].phase.Locking? && Ids(procs[p].task.snapshot) <= procs[p].wanted
      ensures WholeOrders(lines, procs[p].wanted)
    {
      ghost var before := State();
      ReachedIsSafe(before);
      StepStaysReached(before, Step(p, {}));
      var me := procs[p];
      assert ProcOk(before, me);
      var context := ScanContext(me.task.snapshot);
      WantsOrders(before, me.task.batch, me.task.snapshot);
      procs := procs[p := me.(phase := Locking, wanted := Ids(me.task.snapshot) + Ids(context))];
      assert State() == Execute(before, Step(p, {}));
    }

    /** `_lock` asks for its next row: granted exactly when no other transaction holds it, and from then on
        no other one does. */
    method LockNext(p: nat) returns (granted: bool)
      requires Valid()
      requires p < |procs| && procs[p].phase.Locking? && procs[p].wanted - procs[p].held != {}
      modifies this`procs
      ensures Valid() && State() == Execute(old(State()), Step(p, {}))
      ensures granted <==> exists id :: && IsLeast(old(procs)[p].wanted - old(procs)[p].held, id)
                                        && forall q :: 0 <= q < |procs| && q != p ==> id !in old(procs)[q].held
      ensures granted ==> exists id :: id !in old(procs)[p].held && procs[p].held == old(procs)[p].held + {id}
      ensures forall q :: 0 <= q < |procs| && q != p ==> procs[p].held !! procs[q].held
    {
      ghost var before := State();
      ReachedIsSafe(before);
      StepStaysReached(before, Step(p, {}));
      ReachedIsSafe(Execute(before, Step(p, {})));
      var id := Least(procs[p].wanted - procs[p].held);
      OneLeast(procs[p].wanted - procs[p].held, id, NextLock(procs[p]));
      granted := true;
      for q := 0 to |procs|
        invariant granted <==> forall k :: 0 <= k < q && k != p ==> id !in procs[k].held
      {
        if q != p && id in procs[q].held {
          granted := false;
        }
      }
      GrantedMeans(before, p, id);
      if granted {
        procs := procs[p := procs[p].(held := procs[p].held + {id})];
      }
      assert State() == Execute(before, Step(p, {}));
    }

    /** The third read, under the locks: the pinned lines that are still eligible. */
    method Relist(p: nat)
      requires Valid() && p < |procs| && procs[p].task.Classify? && procs[p].phase.Locking?
      requires procs[p].wanted - procs[p].held == {}
      modifies this`procs
      ensures Valid() && State() == Execute(old(State()), Step(p, {}))
      ensures procs == old(procs)[p := procs[p]] && KeepsLocks(old(procs)[p], procs[p])
      ensures procs[p].phase.Relisted?
      ensures Ids(procs[p].task.residuals) == Eligible(State(), procs[p].task.batch, procs[p].held)
    {
      ghost var before := State();
      StepStaysReached(before, Step(p, {}));
      var me := procs[p];
      var residuals := ScanResiduals(me.task.batch);
      var pinned := Restrict(residuals, me.held);
      PinnedIds(before, me.task.batch, me.held);
      procs := procs[p := me.(phase := Relisted, task := me.task.(residuals := pinned))];
      assert State() == Execute(before, Step(p, {}));
      assert Eligible(State(), me.task.batch, me.held) == Eligible(before, me.task.batch, me.held);
    }

    /** The last read. Deciding on what was read is deciding on all of the pinned rows. */
    method ReadContext(p: nat)
      requires Valid() && p < |procs| && procs[p].task.Classify? && procs[p].phase.Relisted?
      modifies this`procs
      ensures Valid() && State() == Execute(old(State()), Step(p, {}))
      ensures procs == old(procs)[p := procs[p]] && KeepsLocks(old(procs)[p], procs[p])
      ensures IsReadyClassifier(State(), p) && procs[p].held <= lines.Keys
      ensures forall m :: m in procs[p].task.residuals ==>
                Decide(m, procs[p].task.context + procs[p].task.residuals)
                == Decide(m, World(State(), procs[p].held))
    {
      ghost var before := State();
      StepStaysReached(before, Step(p, {}));
      var me := procs[p];
      var context := ScanContext(me.task.residuals);
      var pinned := Restrict(context, me.held);
      procs := procs[p := me.(phase := Ready, task := me.task.(context := pinned))];
      assert CanStep(before, p);
      assert State() == Execute(before, Step(p, {}));
      ReachedIsSafe(State());
      ReadyDecides(State(), p);
    }

    /** `_persist`: one insert a decision, ON CONFLICT DO NOTHING. */
    method Persist(decisions: seq<Classification>) returns (created: set<LineId>)
      modifies this`excepted
      ensures excepted == Inserted(old(excepted), decisions)
      ensures created == excepted.Keys - old(excepted).Keys
    {
      created := {};
      for n := 0 to |decisions|
        invariant excepted == Inserted(old(excepted), decisions[..n])
        invariant created == excepted.Keys - old(excepted).Keys
        invariant old(excepted).Keys <= excepted.Keys
      {
        var decision := decisions[n];
        assert decisions[..n + 1][..n] == decisions[..n];
        if decision.lineId !in excepted {
          excepted := excepted[decision.lineId := decision.verdict];
          created := created + {decision.lineId};
        }
      }
      assert decisions[..|decisions|] == decisions;
    }

    /** Classify, persist, commit, report. The foreign key would roll everything back; it never does. */
    method Commit(p: nat) returns (report: Option<Report>)
      requires Valid() && IsReadyClassifier(State(), p)
      modifies this
      ensures Valid() && State() == Execute(old(State()), Step(p, {}))
      ensures var me := old(procs[p]);
              var created := Eligible(old(State()), me.task.batch, me.held);
              && report.Some?
              && report.value.residuals == |me.task.snapshot|
              && report.value.created == |created|
              && report.value.lostRaces == |me.task.snapshot| - |created|
              && (forall c :: CountOf(report.value.byClassification, c)
                              == Tally(Classified(me.task.residuals, me.task.context), created, c))
              && forall c :: CountOf(report.value.byClassification, c) == |Carrying(excepted, created, c)|
    {
      ghost var before := State();
      StepStaysReached(before, Step(p, {}));
      var me, untouched := procs[p], excepted;
      var decisions := Engine.Classify(me.task.residuals, me.task.context);
      var created := Persist(decisions);
      if created * matched != {} {
        excepted := untouched;
        procs := procs[p := Finish(me, RefusedByForeignKey)];
        report := None;
      } else {
        procs := procs[p := Finish(me, Committed(created))];
        var counts := ByClassification(decisions, created);
        report := Some(Report(|me.task.snapshot|, |created|, |me.task.snapshot| - |created|, counts));
      }
      assert CanStep(before, p);
      assert State() == Execute(before, Step(p, {}));
      ReadyCreates(before, p);
      forall c ensures Tally(decisions, Eligible(before, me.task.batch, me.held), c)
                       == |Carrying(excepted, Eligible(before, me.task.batch, me.held), c)|
      {
        ReadyTally(before, p, c);
      }
    }

    // ----- a run with nobody else at work -----------------------------------------------------------

    /** `_lock`, when every other transaction has ended: all the wanted rows, one after the other. */
    method LockAll(p: nat)
      requires Valid() && p < |procs| && procs[p].phase.Locking? && Alone(State(), p)
      modifies this`procs
      ensures Valid() && |procs| == |old(procs)| && Alone(State(), p)
      ensures procs == old(procs)[p := old(procs)[p].(held := old(procs)[p].wanted)]
    {
      ReachedIsSafe(State());
      assert ProcOk(State(), procs[p]);
      while procs[p].wanted - procs[p].held != {}
        invariant Valid() && |procs| == |old(procs)| && Alone(State(), p)
        invariant procs[p].held <= procs[p].wanted
        invariant procs == old(procs)[p := old(procs)[p].(held := procs[p].held)]
        decreases procs[p].wanted - procs[p].held
      {
        ReachedIsSafe(State());
        AloneCanStep(State(), p);
        ghost var before := State();
        GrantedMeans(before, p, NextLock(procs[p]));
        var granted := LockNext(p);
      }
      NothingMissing(procs[p].wanted, procs[p].held);
    }

    /** The first two reads and the locks: either no line is eligible and the run has ended, or every
        eligible line is pinned with its whole order. */
    method Pin(p: nat)
      requires Valid() && p < |procs| && procs[p].task.Classify? && procs[p].phase.Starting?
      requires Alone(State(), p)
      modifies this`procs
      ensures Valid() && |procs| == |old(procs)|
      ensures procs == old(procs)[p := procs[p]] && SameRun(old(procs)[p], procs[p])
      ensures var eligible := ResidualIds(State(), procs[p].task.batch);
              if eligible == {} then procs[p].phase.Ended?
              else && procs[p].phase.Locking? && procs[p].held == procs[p].wanted
                   && eligible <= procs[p].held && WholeOrders(lines, procs[p].held)
                   && |procs[p].task.snapshot| == |eligible|
    {
      ghost var before := State();
      TakeSnapshot(p);
      ghost var batch := procs[p].task.batch;
      SameEligible(before, State(), batch);
      if procs[p].phase.Ended? {
        return;
      }
      ReachedIsSafe(State());
      SnapshotCount(State(), p);
      WidenToContext(p);
      LockAll(p);
      SameEligible(before, State(), batch);
    }

    /** The whole of a run but its commit. */
    method Prepare(batch: Option<BatchId>) returns (p: nat)
      requires Valid() && Alone(State(), |procs|)
      modifies this`procs
      ensures Valid() && p < |procs| && Alone(State(), p)
      ensures if ResidualIds(State(), batch) == {} then procs[p].phase.Ended?
              else WholeOrdersPinned(State(), p, batch)
    {
      ghost var before := State();
      StepStaysReached(before, StartClassifier(batch));
      p := |procs|;
      procs := procs + [Proc(Starting, {}, {}, Task.Classify(batch, [], [], []))];
      assert State() == Execute(before, StartClassifier(batch));
      Pin(p);
      if procs[p].phase.Ended? {
        return;
      }
      ghost var pinned := State();
      Relist(p);
      ReadContext(p);
      SameEligible(pinned, State(), batch);
    }

    /** `run_classification` from beginning to end. It raises exactly one exception for every eligible line,
        each with the verdict the whole database gives, touches nothing else, loses no race, and leaves
        nothing for a second run. */
    method RunClassification(batch: Option<BatchId>) returns (report: Option<Report>)
      requires Valid() && Alone(State(), |procs|)
      modifies this
      ensures Valid() && Alone(State(), |procs|)
      ensures ClaimsExactly(old(State()), State(), ResidualIds(old(State()), batch))
      ensures report.Some? && report.value.lostRaces == 0
      ensures report.value.residuals == report.value.created == |ResidualIds(old(State()), batch)|
      ensures forall c :: CountOf(report.value.byClassification, c)
                          == |Carrying(excepted, ResidualIds(old(State()), batch), c)|
      ensures ResidualIds(State(), batch) == {}
    {
      ghost var before := State();
      var p := Prepare(batch);
      SameEligible(before, State(), batch);
      if procs[p].phase.Ended? {
        assert forall c :: Carrying(excepted, {}, c) == {};
        return Some(Report(0, 0, 0, map[]));
      }
      ghost var ready := State();
      CommitAlone(before, ready, p, batch);
      report := Commit(p);
      assert State() == Execute(ready, Step(p, {}));
    }
  }
}
