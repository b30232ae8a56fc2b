/** Residual classification as a concurrent protocol: any number of classification and matching
    transactions over the settlement lines, one statement of one of them at a time. */
module Protocol {
  import opened Wrappers
  import opened Engine

  type BatchId = nat

  /** The columns of a settlement line that never change, with its batch's parse verdict. */
  datatype Line = Line(
    batch: BatchId, parsed: bool, reference: Option<string>, declared: Option<string>, amount: int,
    currency: string, valueDate: Date)

  datatype Ending = Committed(written: set<LineId>) | RefusedByForeignKey | RolledBack

  datatype Phase = Starting | Snapshotted | Locking | Relisted | Ready | Ended(ending: Ending)

  /** What a transaction is doing, and what it has read so far. */
  datatype Task =
    | Classify(batch: Option<BatchId>, snapshot: seq<Movement>, residuals: seq<Movement>,
               context: seq<Movement>)
    | Match(proposals: set<LineId>, underException: set<LineId>)

  datatype Proc = Proc(phase: Phase, wanted: set<LineId>, held: set<LineId>, task: Task)

  /** The committed database and the transactions in progress. A match result and the line's match
      state are committed together, so one set stands for both. */
  datatype State = State(
    lines: map<LineId, Line>, matched: set<LineId>, excepted: map<LineId, Verdict>, procs: seq<Proc>)

  const EMPTY := State(map[], {}, map[], [])

  // ----- queries --------------------------------------------------------------------------------

  predicate IsLeast(ids: set<nat>, m: nat) {
    m in ids && forall x :: x in ids ==> m <= x
  }

  lemma {:induction false} HasLeast(ids: set<nat>, k: nat)
    requires k in ids
    ensures exists m :: IsLeast(ids, m)
    decreases k
  {
    if !IsLeast(ids, k) {
      var x :| x in ids && x < k;
      HasLeast(ids, x);
    }
  }

  function Least(ids: set<nat>): (m: nat)
    requires ids != {}
    ensures IsLeast(ids, m)
  {
    assert exists m :: m in ids && IsLeast(ids, m) by {
      var k :| k in ids;
      HasLeast(ids, k);
    }
    var m :| m in ids && IsLeast(ids, m);
    m
  }

  /** `ORDER BY id`. */
  function Ascending(ids: set<nat>): (r: seq<nat>)
    ensures forall x :: x in r <==> x in ids
    ensures forall i, j :: 0 <= i < j < |r| ==> r[i] < r[j]
  {
    if ids == {} then []
    else
      var m := Least(ids);
      [m] + Ascending(ids - {m})
  }

  /** A line as a query returns it, with its committed match state. */
  function Seen(s: State, id: LineId): Movement
    requires id in s.lines
  {
    var line := s.lines[id];
    Movement(id, line.reference, MovementType(line.declared), line.amount, line.currency,
             line.valueDate, id in s.matched)
  }

  function Rows(s: State, ids: seq<LineId>): (r: seq<Movement>)
    requires forall id :: id in ids ==> id in s.lines
    ensures |r| == |ids|
  {
    seq(|ids|, i requires 0 <= i < |ids| => Seen(s, ids[i]))
  }

  predicate IsResidual(s: State, batch: Option<BatchId>, id: LineId) {
    && id in s.lines && s.lines[id].parsed
    && id !in s.matched && id !in s.excepted
    && (batch.Some? ==> s.lines[id].batch == batch.value)
  }

  function ResidualIds(s: State, batch: Option<BatchId>): set<LineId> {
    set id | id in s.lines && IsResidual(s, batch, id)
  }

  function LoadResiduals(s: State, batch: Option<BatchId>): seq<Movement> {
    Rows(s, Ascending(ResidualIds(s, batch)))
  }

  predicate SharesReference(line: Line, residuals: seq<Movement>) {
    line.reference.Some? && exists i :: 0 <= i < |residuals| && residuals[i].reference == line.reference
  }

  function ContextIds(s: State, residuals: seq<Movement>): set<LineId> {
    set id | id in s.lines && s.lines[id].parsed && SharesReference(s.lines[id], residuals)
  }

  /** Any match state and any batch, but only parsed ones. */
  function LoadContext(s: State, residuals: seq<Movement>): seq<Movement> {
    Rows(s, Ascending(ContextIds(s, residuals)))
  }

  function Ids(ms: seq<Movement>): set<LineId> {
    set i | 0 <= i < |ms| :: ms[i].id
  }

  /** The rows whose id was pinned. */
  function Restrict(ms: seq<Movement>, pinned: set<LineId>): seq<Movement> {
    Filter((m: Movement) => m.id in pinned, ms)
  }

  // ----- writes -----------------------------------------------------------------------------------

  /** Inserting every decision with ON CONFLICT DO NOTHING. */
  function Inserted(excepted: map<LineId, Verdict>, decisions: seq<Classification>): map<LineId, Verdict> {
    if decisions == [] then excepted
    else
      var before, last := Inserted(excepted, decisions[..|decisions| - 1]), decisions[|decisions| - 1];
      if last.lineId in before then before else before[last.lineId := last.verdict]
  }

  // ----- one statement of one transaction ------------------------------------------------------------

  /** The row lock a transaction asks for next: row locks are taken in id order. */
  function NextLock(p: Proc): LineId
    requires p.wanted - p.held != {}
  {
    Least(p.wanted - p.held)
  }

  predicate Holds(s: State, p: nat, id: LineId) {
    p < |s.procs| && id in s.procs[p].held
  }

  predicate WaitsFor(s: State, p: nat, q: nat) {
    && p < |s.procs| && p != q
    && var me := s.procs[p];
       && me.phase == Locking && me.wanted - me.held != {}
       && Holds(s, q, NextLock(me))
  }

  /** A transaction that has not ended can always do its next statement, unless that is to take a row
      lock another one holds. */
  predicate CanStep(s: State, p: nat) {
    && p < |s.procs| && !s.procs[p].phase.Ended?
    && forall q :: 0 <= q < |s.procs| ==> !WaitsFor(s, p, q)
  }

  function Finish(p: Proc, ending: Ending): Proc {
    p.(phase := Ended(ending), held := {})
  }

  /** No line and no other transaction is touched. */
  predicate OnlyTouches(s: State, t: State, p: nat) {
    && p < |s.procs| == |t.procs|
    && t.lines == s.lines && t.procs == s.procs[p := t.procs[p]]
  }

  function CommitClassifier(s: State, p: nat): (t: State)
    requires p < |s.procs| && s.procs[p].task.Classify?
    ensures OnlyTouches(s, t, p)
    ensures t.procs[p].phase.Ended? && t.procs[p].held == {}
  {
    var me := s.procs[p];
    var after := Inserted(s.excepted, Classified(me.task.residuals, me.task.context));
    var created := after.Keys - s.excepted.Keys;
    if created * s.matched != {} then
      s.(procs := s.procs[p := Finish(me, RefusedByForeignKey)])
    else
      s.(excepted := after, procs := s.procs[p := Finish(me, Committed(created))])
  }

  /** `taken`: the proposals whose ledger entry was still free. */
  function CommitMatcher(s: State, p: nat, taken: set<LineId>): (t: State)
    requires p < |s.procs| && s.procs[p].task.Match?
    ensures OnlyTouches(s, t, p)
    ensures t.procs[p].phase.Ended? && t.procs[p].held == {}
  {
    var me := s.procs[p];
    var inserted := (taken * me.wanted) - me.task.underException - s.matched;
    if inserted * s.excepted.Keys != {} then
      s.(procs := s.procs[p := Finish(me, RefusedByForeignKey)])
    else
      s.(matched := s.matched + inserted, procs := s.procs[p := Finish(me, Committed(inserted))])
  }

  function LockOne(p: Proc): Proc
    requires p.wanted - p.held != {}
  {
    p.(held := p.held + {NextLock(p)})
  }

  function StepClassifier(s: State, p: nat): (t: State)
    requires p < |s.procs| && s.procs[p].task.Classify?
    ensures OnlyTouches(s, t, p)
  {
    var me := s.procs[p];
    match me.phase
    case Starting =>
      var snapshot := LoadResiduals(s, me.task.batch);
      var next := if snapshot == [] then Finish(me, Committed({}))
                  else me.(phase := Snapshotted, task := me.task.(snapshot := snapshot));
      s.(procs := s.procs[p := next])
    case Snapshotted =>
      var wanted := Ids(me.task.snapshot) + Ids(LoadContext(s, me.task.snapshot));
      s.(procs := s.procs[p := me.(phase := Locking, wanted := wanted)])
    case Locking =>
      var next := if me.wanted - me.held != {} then LockOne(me)
                  else me.(phase := Relisted,
                          task := me.task.(residuals := Restrict(LoadResiduals(s, me.task.batch), me.held)));
      s.(procs := s.procs[p := next])
    case Relisted =>
      var context := Restrict(LoadContext(s, me.task.residuals), me.held);
      s.(procs := s.procs[p := me.(phase := Ready, task := me.task.(context := context))])
    case Ready => CommitClassifier(s, p)
    case Ended(_) => s
  }

  function StepMatcher(s: State, p: nat, taken: set<LineId>): (t: State)
    requires p < |s.procs| && s.procs[p].task.Match?
    ensures OnlyTouches(s, t, p)
  {
    var me := s.procs[p];
    match me.phase
    case Starting =>
      s.(procs := s.procs[p := me.(phase := Locking, wanted := me.task.proposals * s.lines.Keys)])
    case Locking =>
      var next := if me.wanted - me.held != {} then LockOne(me)
                  else me.(phase := Ready, task := me.task.(underException := me.wanted * s.excepted.Keys));
      s.(procs := s.procs[p := next])
    case Ended(_) => s
    case _ => CommitMatcher(s, p, taken)
  }

  datatype Action =
    | Ingest(arrivals: map<LineId, Line>)
    | StartClassifier(batch: Option<BatchId>)
    | StartMatcher(proposals: set<LineId>)
    | Step(p: nat, taken: set<LineId>)
    | Die(p: nat)

  predicate Enabled(s: State, a: Action) {
    match a
    case Ingest(arrivals) => arrivals.Keys !! s.lines.Keys
    case StartClassifier(_) => true
    case StartMatcher(_) => true
    case Step(p, _) => CanStep(s, p)
    case Die(p) => p < |s.procs| && !s.procs[p].phase.Ended?
  }

  function Next(s: State, a: Action): State
    requires Enabled(s, a)
  {
    match a
    case Ingest(arrivals) => s.(lines := s.lines + arrivals)
    case StartClassifier(batch) => s.(procs := s.procs + [Proc(Starting, {}, {}, Classify(batch, [], [], []))])
    case StartMatcher(proposals) => s.(procs := s.procs + [Proc(Starting, {}, {}, Match(proposals, {}))])
    case Step(p, taken) =>
      if s.procs[p].task.Classify? then StepClassifier(s, p) else StepMatcher(s, p, taken)
    case Die(p) => s.(procs := s.procs[p := Finish(s.procs[p], RolledBack)])
  }

  function Execute(s: State, a: Action): State {
    if Enabled(s, a) then Next(s, a) else s
  }

  function Run(s: State, actions: seq<Action>): State {
    if actions == [] then s
    else Execute(Run(s, actions[..|actions| - 1]), actions[|actions| - 1])
  }
}
