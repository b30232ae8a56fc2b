/** What every interleaving of classification and matching transactions keeps. */
module ProtocolSafety {
  import opened Wrappers
  import opened Engine
  import opened EngineProofs
  import opened Protocol

  // ----- rows in id order -------------------------------------------------------------------------

  predicate ById(ms: seq<Movement>) {
    forall i, j :: 0 <= i < j < |ms| ==> ms[i].id < ms[j].id
  }

  lemma {:induction false} FilterById(keep: Movement -> bool, ms: seq<Movement>)
    requires ById(ms)
    ensures ById(Filter(keep, ms))
  {
    if ms != [] {
      var init, last := ms[..|ms| - 1], ms[|ms| - 1];
      FilterById(keep, init);
      FilterMembers(keep, init);
      forall i | 0 <= i < |Filter(keep, init)| ensures Filter(keep, init)[i].id < last.id {
        assert Filter(keep, init)[i] in init;
      }
    }
  }

  lemma {:induction false} ByIdUnique(a: seq<Movement>, b: seq<Movement>)
    requires ById(a) && ById(b)
    requires forall m :: m in a <==> m in b
    ensures a == b
  {
    assert a != [] ==> a[0] in b;
    assert b != [] ==> b[0] in a;
    if a != [] {
      var m, n := |a| - 1, |b| - 1;
      assert a[m] in b && b[n] in a;
      var i :| 0 <= i <= n && b[i] == a[m];
      var j :| 0 <= j <= m && a[j] == b[n];
      assert i == n;
      AllButLast(a);
      AllButLast(b);
      ByIdUnique(a[..m], b[..n]);
    }
  }

  lemma AllButLast(a: seq<Movement>)
    requires a != [] && ById(a)
    ensures var n := |a| - 1; ById(a[..n]) && forall m :: m in a[..n] <==> m in a && m != a[n]
  {
    var n := |a| - 1;
    forall m ensures m in a[..n] <==> m in a && m != a[n] {
      if m in a && m != a[n] {
        var i :| 0 <= i < |a| && a[i] == m;
        assert a[..n][i] == m;
      }
    }
  }

  lemma RowsOf(s: State, ids: set<LineId>)
    requires ids <= s.lines.Keys
    ensures ById(Rows(s, Ascending(ids)))
    ensures forall m :: m in Rows(s, Ascending(ids)) <==> m.id in ids && m == Seen(s, m.id)
  {
    var order := Ascending(ids);
    var rows := Rows(s, order);
    forall m ensures m in rows <==> m.id in ids && m == Seen(s, m.id) {
      if m.id in ids && m == Seen(s, m.id) {
        var i :| 0 <= i < |order| && order[i] == m.id;
        assert rows[i] == m;
      }
      if m in rows {
        var i :| 0 <= i < |rows| && rows[i] == m;
        assert order[i] in order;
      }
    }
  }

  lemma IdsMembers(ms: seq<Movement>)
    ensures forall id :: id in Ids(ms) <==> exists m :: m in ms && m.id == id
  {
    forall id ensures id in Ids(ms) <==> exists m :: m in ms && m.id == id {
      if m :| m in ms && m.id == id {
        var i :| 0 <= i < |ms| && ms[i] == m;
      }
      if id in Ids(ms) {
        var i :| 0 <= i < |ms| && ms[i].id == id;
        assert ms[i] in ms;
      }
    }
  }

  lemma ResidualsMean(s: State, batch: Option<BatchId>)
    ensures ById(LoadResiduals(s, batch))
    ensures forall m :: m in LoadResiduals(s, batch) <==> IsResidual(s, batch, m.id) && m == Seen(s, m.id)
  {
    RowsOf(s, ResidualIds(s, batch));
  }

  predicate IsContext(s: State, residuals: seq<Movement>, id: LineId) {
    id in s.lines && s.lines[id].parsed && SharesReference(s.lines[id], residuals)
  }

  lemma ContextMeans(s: State, residuals: seq<Movement>)
    ensures ById(LoadContext(s, residuals))
    ensures forall m :: m in LoadContext(s, residuals) <==>
                        IsContext(s, residuals, m.id) && m == Seen(s, m.id)
  {
    RowsOf(s, ContextIds(s, residuals));
  }

  function PinnedResiduals(s: State, batch: Option<BatchId>, pinned: set<LineId>): seq<Movement> {
    Restrict(LoadResiduals(s, batch), pinned)
  }

  function PinnedContext(s: State, residuals: seq<Movement>, pinned: set<LineId>): seq<Movement> {
    Restrict(LoadContext(s, residuals), pinned)
  }

  lemma PinnedResidualsMean(s: State, batch: Option<BatchId>, pinned: set<LineId>)
    ensures ById(PinnedResiduals(s, batch, pinned))
    ensures forall m :: m in PinnedResiduals(s, batch, pinned) <==>
                        m.id in pinned && IsResidual(s, batch, m.id) && m == Seen(s, m.id)
  {
    ResidualsMean(s, batch);
    var keep := (m: Movement) => m.id in pinned;
    FilterMembers(keep, LoadResiduals(s, batch));
    FilterById(keep, LoadResiduals(s, batch));
  }

  lemma PinnedContextMeans(s: State, residuals: seq<Movement>, pinned: set<LineId>)
    ensures ById(PinnedContext(s, residuals, pinned))
    ensures forall m :: m in PinnedContext(s, residuals, pinned) <==>
                        m.id in pinned && IsContext(s, residuals, m.id) && m == Seen(s, m.id)
  {
    ContextMeans(s, residuals);
    var keep := (m: Movement) => m.id in pinned;
    FilterMembers(keep, LoadContext(s, residuals));
    FilterById(keep, LoadContext(s, residuals));
  }

  // ----- the invariant ------------------------------------------------------------------------------

  /** Everything a transaction holds comes before everything it still wants. */
  ghost predicate LocksInOrder(p: Proc) {
    && p.held <= p.wanted
    && forall h, w :: h in p.held && w in p.wanted && w !in p.held ==> h < w
  }

  ghost predicate PhaseOk(p: Proc) {
    && (p.phase.Starting? || p.phase.Snapshotted? ==> p.wanted == {})
    && (p.phase.Relisted? || p.phase.Ready? ==> p.held == p.wanted)
    && (p.phase.Ended? ==> p.held == {} && !p.phase.ending.RefusedByForeignKey?)
    && (p.task.Match? ==> !p.phase.Snapshotted? && !p.phase.Relisted?)
  }

  /** What a transaction re-read under its locks is still what the committed database says about the
      rows it pinned. */
  ghost predicate ReadsCurrent(s: State, p: Proc) {
    match p.task
    case Classify(batch, _, residuals, context) =>
      && (p.phase.Relisted? || p.phase.Ready? ==> residuals == PinnedResiduals(s, batch, p.held))
      && (p.phase.Ready? ==> context == PinnedContext(s, residuals, p.held))
    case Match(_, underException) =>
      p.phase.Ready? ==> underException == p.wanted * s.excepted.Keys
  }

  /** What a classifier wants to pin: parsed lines, every snapshot residual among them. */
  ghost predicate WantsOk(s: State, p: Proc) {
    && p.wanted <= s.lines.Keys
    && match p.task
       case Classify(batch, snapshot, _, _) =>
         && ById(snapshot)
         && (forall id :: id in p.wanted ==> s.lines[id].parsed)
         && (forall m :: m in snapshot ==> WasResidual(s, batch, m))
         && (p.phase.Locking? || p.phase.Relisted? || p.phase.Ready? ==>
               forall m :: m in snapshot ==> m.id in p.wanted)
       case Match(_, _) => true
  }

  ghost predicate WasResidual(s: State, batch: Option<BatchId>, m: Movement) {
    && m.id in s.lines && s.lines[m.id].parsed && m.reference == s.lines[m.id].reference
    && (batch.Some? ==> s.lines[m.id].batch == batch.value)
  }

  ghost predicate ProcOk(s: State, p: Proc) {
    LocksInOrder(p) && PhaseOk(p) && WantsOk(s, p) && ReadsCurrent(s, p)
  }

  /** No line is both matched and claimed by an exception. */
  ghost predicate ClaimsOk(s: State) {
    && s.matched <= s.lines.Keys
    && s.excepted.Keys <= s.lines.Keys
    && s.matched !! s.excepted.Keys
  }

  ghost predicate Exclusive(s: State) {
    forall p, q :: 0 <= p < |s.procs| && 0 <= q < |s.procs| && p != q ==>
      s.procs[p].held !! s.procs[q].held
  }

  ghost predicate Safe(s: State) {
    && ClaimsOk(s) && Exclusive(s)
    && forall p :: 0 <= p < |s.procs| ==> ProcOk(s, s.procs[p])
  }

  // ----- a row that is locked does not change under its holder -----------------------------------------

  /** The lines of `s` are still there, and the claims on `ids` are the same. */
  ghost predicate SameOn(s: State, t: State, ids: set<LineId>) {
    && (forall id :: id in s.lines ==> id in t.lines && t.lines[id] == s.lines[id])
    && (forall id :: id in ids ==> (id in s.matched <==> id in t.matched))
    && (forall id :: id in ids ==> (id in s.excepted <==> id in t.excepted))
  }

  lemma PinnedRowsStable(s: State, t: State, pinned: set<LineId>, batch: Option<BatchId>,
                         residuals: seq<Movement>)
    requires pinned <= s.lines.Keys && SameOn(s, t, pinned)
    ensures PinnedResiduals(s, batch, pinned) == PinnedResiduals(t, batch, pinned)
    ensures PinnedContext(s, residuals, pinned) == PinnedContext(t, residuals, pinned)
  {
    assert forall id :: id in pinned ==> Seen(s, id) == Seen(t, id);
    PinnedResidualsMean(s, batch, pinned);
    PinnedResidualsMean(t, batch, pinned);
    ByIdUnique(PinnedResiduals(s, batch, pinned), PinnedResiduals(t, batch, pinned));
    PinnedContextMeans(s, residuals, pinned);
    PinnedContextMeans(t, residuals, pinned);
    ByIdUnique(PinnedContext(s, residuals, pinned), PinnedContext(t, residuals, pinned));
  }

  lemma ReadsStayCurrent(s: State, t: State, p: Proc)
    requires ProcOk(s, p) && SameOn(s, t, p.held)
    ensures ProcOk(t, p)
  {
    if p.task.Classify? {
      PinnedRowsStable(s, t, p.held, p.task.batch, p.task.residuals);
    } else if p.phase.Ready? {
      assert p.wanted * s.excepted.Keys == p.wanted * t.excepted.Keys;
    }
  }

  // ----- one step -------------------------------------------------------------------------------------

  /** One transaction's record is replaced, nothing is committed outside the rows it held, and it takes
      no lock another one holds. */
  lemma ReplaceKeepsSafe(s: State, t: State, p: nat, next: Proc)
    requires Safe(s) && p < |s.procs| && t.procs == s.procs[p := next]
    requires forall id :: id in s.lines ==> id in t.lines && t.lines[id] == s.lines[id]
    requires forall id :: id !in s.procs[p].held ==> (id in s.matched <==> id in t.matched)
    requires forall id :: id !in s.procs[p].held ==> (id in s.excepted <==> id in t.excepted)
    requires ClaimsOk(t) && ProcOk(t, next)
    requires forall q :: 0 <= q < |s.procs| && q != p ==> next.held !! s.procs[q].held
    ensures Safe(t)
  {
    forall q | 0 <= q < |t.procs| ensures ProcOk(t, t.procs[q]) {
      if q != p {
        assert s.procs[p].held !! s.procs[q].held;
        ReadsStayCurrent(s, t, s.procs[q]);
      }
    }
  }

  lemma LockingKeepsSafe(s: State, p: nat)
    requires Safe(s) && CanStep(s, p)
    requires s.procs[p].phase.Locking? && s.procs[p].wanted - s.procs[p].held != {}
    ensures Safe(s.(procs := s.procs[p := LockOne(s.procs[p])]))
  {
    var me := s.procs[p];
    var next := LockOne(me);
    assert ProcOk(s, me);
    forall q | 0 <= q < |s.procs| && q != p ensures next.held !! s.procs[q].held {
      assert !WaitsFor(s, p, q);
      assert me.held !! s.procs[q].held;
    }
    assert IsLeast(me.wanted - me.held, NextLock(me));
    forall h, w | h in next.held && w in next.wanted && w !in next.held ensures h < w {
      assert w in me.wanted - me.held;
    }
    ReplaceKeepsSafe(s, s.(procs := s.procs[p := next]), p, next);
  }

  lemma SnapshotWants(s: State, batch: Option<BatchId>, snapshot: seq<Movement>)
    requires forall m :: m in snapshot ==> WasResidual(s, batch, m)
    ensures var wanted := Ids(snapshot) + Ids(LoadContext(s, snapshot));
            && (forall id :: id in wanted ==> id in s.lines && s.lines[id].parsed)
            && (forall m :: m in snapshot ==> m.id in wanted)
  {
    var context := LoadContext(s, snapshot);
    ContextMeans(s, snapshot);
    IdsMembers(snapshot);
    IdsMembers(context);
  }

  lemma ContextReadKeepsSafe(s: State, p: nat)
    requires Safe(s) && CanStep(s, p) && s.procs[p].task.Classify? && s.procs[p].phase.Snapshotted?
    ensures Safe(StepClassifier(s, p))
  {
    var me := s.procs[p];
    assert ProcOk(s, me);
    SnapshotWants(s, me.task.batch, me.task.snapshot);
    var wanted := Ids(me.task.snapshot) + Ids(LoadContext(s, me.task.snapshot));
    var next := me.(phase := Locking, wanted := wanted);
    assert forall id :: id in next.wanted ==> id in s.lines;
    ReplaceKeepsSafe(s, s.(procs := s.procs[p := next]), p, next);
  }

  lemma ReadingKeepsSafe(s: State, p: nat)
    requires Safe(s) && CanStep(s, p) && s.procs[p].task.Classify?
    requires s.procs[p].phase.Starting? || s.procs[p].phase.Relisted?
    ensures Safe(StepClassifier(s, p))
  {
    var me := s.procs[p];
    assert ProcOk(s, me);
    var t := StepClassifier(s, p);
    ResidualsMean(s, me.task.batch);
    PinnedRowsStable(s, t, me.held, me.task.batch, me.task.residuals);
    ReplaceKeepsSafe(s, t, p, t.procs[p]);
  }

  lemma RelistingKeepsSafe(s: State, p: nat)
    requires Safe(s) && CanStep(s, p)
    requires s.procs[p].phase.Locking? && s.procs[p].wanted - s.procs[p].held == {}
    ensures Safe(Next(s, Step(p, {})))
  {
    var me := s.procs[p];
    assert ProcOk(s, me);
    var t := Next(s, Step(p, {}));
    forall w | w in me.wanted ensures w in me.held {
      assert w !in me.wanted - me.held;
    }
    if me.task.Classify? {
      PinnedRowsStable(s, t, me.held, me.task.batch, []);
    }
    ReplaceKeepsSafe(s, t, p, t.procs[p]);
  }

  lemma {:induction false} InsertedKeys(excepted: map<LineId, Verdict>, ds: seq<Classification>)
    ensures forall id :: id in Inserted(excepted, ds) <==>
              id in excepted || exists i :: 0 <= i < |ds| && ds[i].lineId == id
    ensures forall id :: id in excepted ==> Inserted(excepted, ds)[id] == excepted[id]
  {
    if ds != [] {
      var n := |ds| - 1;
      InsertedKeys(excepted, ds[..n]);
      forall id ensures id in Inserted(excepted, ds) <==>
                id in excepted || exists i :: 0 <= i < |ds| && ds[i].lineId == id
      {
        if i :| 0 <= i < |ds| && ds[i].lineId == id {
          if i < n { assert ds[..n][i].lineId == id; }
        }
        if i :| 0 <= i < n && ds[..n][i].lineId == id {
          assert ds[i].lineId == id;
        }
      }
    }
  }

  lemma DecidedIds(residuals: seq<Movement>, context: seq<Movement>, id: LineId)
    ensures var ds := Classified(residuals, context);
            (exists i :: 0 <= i < |ds| && ds[i].lineId == id) <==> exists m :: m in residuals && m.id == id
  {
    var ds := Classified(residuals, context);
    if i :| 0 <= i < |ds| && ds[i].lineId == id {
      assert residuals[i] in residuals;
    }
    if m :| m in residuals && m.id == id {
      var i :| 0 <= i < |residuals| && residuals[i] == m;
      assert ds[i].lineId == id;
    }
  }

  function Created(excepted: map<LineId, Verdict>, residuals: seq<Movement>, context: seq<Movement>): set<LineId>
  {
    Inserted(excepted, Classified(residuals, context)).Keys - excepted.Keys
  }

  function Eligible(s: State, batch: Option<BatchId>, pinned: set<LineId>): set<LineId> {
    set id | id in pinned && IsResidual(s, batch, id)
  }

  /** The lines a classifier writes an exception for are exactly the eligible lines it pinned. */
  lemma CreatedExactly(s: State, batch: Option<BatchId>, pinned: set<LineId>, context: seq<Movement>)
    ensures Created(s.excepted, PinnedResiduals(s, batch, pinned), context) == Eligible(s, batch, pinned)
  {
    var residuals := PinnedResiduals(s, batch, pinned);
    InsertedKeys(s.excepted, Classified(residuals, context));
    PinnedResidualsMean(s, batch, pinned);
    forall id ensures id in Created(s.excepted, residuals, context) <==> id in Eligible(s, batch, pinned) {
      DecidedIds(residuals, context, id);
      if id in Eligible(s, batch, pinned) {
        assert Seen(s, id) in residuals;
      }
    }
  }

  lemma ClassifierCommitKeepsSafe(s: State, p: nat)
    requires Safe(s) && CanStep(s, p) && s.procs[p].task.Classify? && s.procs[p].phase.Ready?
    ensures Safe(CommitClassifier(s, p))
  {
    var me := s.procs[p];
    assert ProcOk(s, me);
    var after := Inserted(s.excepted, Classified(me.task.residuals, me.task.context));
    CreatedExactly(s, me.task.batch, me.held, me.task.context);
    InsertedKeys(s.excepted, Classified(me.task.residuals, me.task.context));
    var created := after.Keys - s.excepted.Keys;
    assert created == Eligible(s, me.task.batch, me.held);
    assert created * s.matched == {};
    var t := CommitClassifier(s, p);
    assert forall id :: id in after <==> id in s.excepted || id in created;
    ReplaceKeepsSafe(s, t, p, t.procs[p]);
  }

  lemma MatcherKeepsSafe(s: State, p: nat, taken: set<LineId>)
    requires Safe(s) && CanStep(s, p) && s.procs[p].task.Match?
    requires s.procs[p].phase.Starting? || s.procs[p].phase.Ready?
    ensures Safe(StepMatcher(s, p, taken))
  {
    var me := s.procs[p];
    assert ProcOk(s, me);
    var t := StepMatcher(s, p, taken);
    if me.phase.Ready? {
      var inserted := (taken * me.wanted) - me.task.underException - s.matched;
      assert inserted * s.excepted.Keys == {};
    }
    ReplaceKeepsSafe(s, t, p, t.procs[p]);
  }

  lemma StepKeepsSafe(s: State, p: nat, taken: set<LineId>)
    requires Safe(s) && CanStep(s, p)
    ensures Safe(Next(s, Step(p, taken)))
  {
    var me := s.procs[p];
    assert ProcOk(s, me);
    if me.phase.Locking? && me.wanted - me.held != {} {
      LockingKeepsSafe(s, p);
    } else if me.phase.Locking? {
      RelistingKeepsSafe(s, p);
    } else if me.task.Match? {
      MatcherKeepsSafe(s, p, taken);
    } else if me.phase.Ready? {
      ClassifierCommitKeepsSafe(s, p);
    } else if me.phase.Snapshotted? {
      ContextReadKeepsSafe(s, p);
    } else {
      ReadingKeepsSafe(s, p);
    }
  }

  lemma ArrivalKeepsSafe(s: State, t: State)
    requires Safe(s) && ClaimsOk(t) && Exclusive(t)
    requires forall id :: id in s.lines ==> id in t.lines && t.lines[id] == s.lines[id]
    requires s.matched == t.matched && s.excepted == t.excepted && |s.procs| <= |t.procs|
    requires forall p :: 0 <= p < |t.procs| ==>
               if p < |s.procs| then t.procs[p] == s.procs[p] else ProcOk(t, t.procs[p])
    ensures Safe(t)
  {
    forall p | 0 <= p < |t.procs| ensures ProcOk(t, t.procs[p]) {
      if p < |s.procs| {
        ReadsStayCurrent(s, t, s.procs[p]);
      }
    }
  }

  lemma ActionKeepsSafe(s: State, a: Action)
    requires Safe(s)
    ensures Safe(Execute(s, a))
  {
    if Enabled(s, a) {
      match a
      case Step(p, taken) => StepKeepsSafe(s, p, taken);
      case Die(p) => ReplaceKeepsSafe(s, Next(s, a), p, Next(s, a).procs[p]);
      case _ => ArrivalKeepsSafe(s, Next(s, a));
    }
  }

  /** Every state any interleaving reaches is safe: no line is both matched and claimed by an exception,
      no row is locked twice, no transaction is refused by the foreign key, and what each one re-read
      under its locks is still true. */
  lemma {:induction false} RunKeepsSafe(s: State, actions: seq<Action>)
    requires Safe(s)
    ensures Safe(Run(s, actions))
  {
    if actions != [] {
      RunKeepsSafe(s, actions[..|actions| - 1]);
      ActionKeepsSafe(Run(s, actions[..|actions| - 1]), actions[|actions| - 1]);
    }
  }
}
