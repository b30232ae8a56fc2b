/** Row locks taken in id order and kept to commit: nobody waits forever. */
module ProtocolProgress {
  import opened Arithmetic
  import opened Engine
  import opened Protocol
  import opened ProtocolSafety

  /** A bound on every line id. */
  ghost predicate Below(s: State, bound: nat) {
    forall id :: id in s.lines ==> id < bound
  }

  lemma HasBound(s: State) returns (bound: nat)
    ensures Below(s, bound)
  {
    var ids := Ascending(s.lines.Keys);
    bound := if ids == [] then 0 else ids[|ids| - 1] + 1;
    forall id | id in s.lines ensures id < bound {
      assert id in ids;
    }
  }

  /** A transaction someone waits for asks, if it is waiting itself, for a later row: waiting never goes
      round in a circle. */
  lemma WaitingClimbs(s: State, p: nat, q: nat, r: nat)
    requires Safe(s) && WaitsFor(s, p, q) && WaitsFor(s, q, r)
    ensures NextLock(s.procs[p]) < NextLock(s.procs[q])
  {
    assert ProcOk(s, s.procs[q]);
    var wanted := s.procs[q].wanted - s.procs[q].held;
    assert IsLeast(wanted, NextLock(s.procs[q]));
  }

  lemma {:induction false} FollowTheWait(s: State, p: nat, bound: nat) returns (q: nat)
    requires Safe(s) && Below(s, bound) && p < |s.procs|
    requires !s.procs[p].phase.Ended? && !CanStep(s, p)
    ensures q != p && CanStep(s, q)
    decreases var me := s.procs[p];
              if me.wanted - me.held != {} then bound - NextLock(me) else 0
  {
    var me := s.procs[p];
    q :| 0 <= q < |s.procs| && WaitsFor(s, p, q);
    assert ProcOk(s, me) && ProcOk(s, s.procs[q]);
    assert IsLeast(me.wanted - me.held, NextLock(me));
    if !CanStep(s, q) {
      var r :| 0 <= r < |s.procs| && WaitsFor(s, q, r);
      WaitingClimbs(s, p, q, r);
      assert IsLeast(s.procs[q].wanted - s.procs[q].held, NextLock(s.procs[q]));
      var last := FollowTheWait(s, q, bound);
      q := last;
    }
  }

  /** No reachable state is deadlocked: whenever a transaction waits, another one can step. */
  lemma NoDeadlock(actions: seq<Action>, p: nat)
    requires var s := Run(EMPTY, actions);
             p < |s.procs| && !s.procs[p].phase.Ended? && !CanStep(s, p)
    ensures exists q :: q != p && CanStep(Run(EMPTY, actions), q)
  {
    RunKeepsSafe(EMPTY, actions);
    var s := Run(EMPTY, actions);
    var bound := HasBound(s);
    var q := FollowTheWait(s, p, bound);
  }

  // ----- every transaction finishes in boundedly many statements -----------------------------------------

  function Remaining(lines: nat, p: Proc): nat {
    match p.phase
    case Starting => lines + 5
    case Snapshotted => lines + 4
    case Locking => |p.wanted - p.held| + 3
    case Relisted => 2
    case Ready => 1
    case Ended(_) => 0
  }

  function TotalRemaining(lines: nat, procs: seq<Proc>): nat {
    if procs == [] then 0
    else TotalRemaining(lines, procs[..|procs| - 1]) + Remaining(lines, procs[|procs| - 1])
  }

  /** The statements the transactions in progress can still execute. */
  function Work(s: State): nat {
    TotalRemaining(|s.lines|, s.procs)
  }

  lemma {:induction false} ReplaceTotal(lines: nat, procs: seq<Proc>, p: nat, next: Proc)
    requires p < |procs|
    ensures TotalRemaining(lines, procs[p := next]) - Remaining(lines, next)
            == TotalRemaining(lines, procs) - Remaining(lines, procs[p])
  {
    var n := |procs| - 1;
    if p < n {
      ReplaceTotal(lines, procs[..n], p, next);
      assert procs[p := next][..n] == procs[..n][p := next];
    } else {
      assert procs[p := next][..n] == procs[..n];
    }
  }

  lemma {:induction false} SubsetSize(a: set<LineId>, b: set<LineId>)
    requires a <= b
    ensures |a| <= |b|
  {
    assert b == a + (b - a);
  }

  lemma LockRemaining(lines: nat, p: Proc)
    requires p.phase.Locking? && p.wanted - p.held != {}
    ensures Remaining(lines, LockOne(p)) < Remaining(lines, p)
  {
    assert IsLeast(p.wanted - p.held, NextLock(p));
    assert p.wanted - (p.held + {NextLock(p)}) == (p.wanted - p.held) - {NextLock(p)};
  }

  lemma AskingRemaining(s: State, p: Proc)
    requires ProcOk(s, p)
    ensures Remaining(|s.lines|, p) <= |s.lines| + 5
    ensures p.phase.Locking? ==> Remaining(|s.lines|, p) <= |s.lines| + 3
  {
    SubsetSize(p.wanted - p.held, s.lines.Keys);
  }

  /** The transaction that stepped has less left to do. */
  ghost predicate Shrinks(s: State, t: State, p: nat) {
    && p < |s.procs| == |t.procs|
    && Remaining(|s.lines|, t.procs[p]) < Remaining(|s.lines|, s.procs[p])
  }

  lemma ContextReadShrinks(s: State, p: nat)
    requires p < |s.procs| && ProcOk(s, s.procs[p])
    requires s.procs[p].task.Classify? && s.procs[p].phase.Snapshotted?
    ensures Shrinks(s, StepClassifier(s, p), p)
  {
    var me := s.procs[p];
    SnapshotWants(s, me.task.batch, me.task.snapshot);
    var next := me.(phase := Locking, wanted := Ids(me.task.snapshot) + Ids(LoadContext(s, me.task.snapshot)));
    assert forall id :: id in next.wanted - next.held ==> id in s.lines.Keys;
    SubsetSize(next.wanted - next.held, s.lines.Keys);
  }

  lemma LockShrinks(s: State, p: nat, taken: set<LineId>)
    requires p < |s.procs| && s.procs[p].phase.Locking? && s.procs[p].wanted - s.procs[p].held != {}
    requires Enabled(s, Step(p, taken))
    ensures Shrinks(s, Next(s, Step(p, taken)), p)
  {
    LockRemaining(|s.lines|, s.procs[p]);
  }

  lemma ClassifierShrinks(s: State, p: nat)
    requires p < |s.procs| && s.procs[p].task.Classify?
    requires s.procs[p].phase.Starting? || s.procs[p].phase.Relisted? || s.procs[p].phase.Ready?
    ensures Shrinks(s, StepClassifier(s, p), p)
  {}

  lemma PinnedShrinks(s: State, p: nat, taken: set<LineId>)
    requires Enabled(s, Step(p, taken))
    requires s.procs[p].phase.Locking? && s.procs[p].wanted - s.procs[p].held == {}
    ensures Shrinks(s, Next(s, Step(p, taken)), p)
  {}

  lemma MatcherStartShrinks(s: State, p: nat)
    requires p < |s.procs| && s.procs[p].task.Match? && s.procs[p].phase.Starting?
    ensures Shrinks(s, StepMatcher(s, p, {}), p)
  {
    var me := s.procs[p];
    SubsetSize((me.task.proposals * s.lines.Keys) - me.held, s.lines.Keys);
  }

  lemma MatcherCommitShrinks(s: State, p: nat, taken: set<LineId>)
    requires p < |s.procs| && s.procs[p].task.Match? && Remaining(|s.lines|, s.procs[p]) > 0
    ensures Shrinks(s, CommitMatcher(s, p, taken), p)
  {}

  lemma StepShrinks(s: State, p: nat, taken: set<LineId>)
    requires Enabled(s, Step(p, taken)) && ProcOk(s, s.procs[p])
    ensures Shrinks(s, Next(s, Step(p, taken)), p)
  {
    var me := s.procs[p];
    if me.phase.Locking? && me.wanted - me.held != {} {
      LockShrinks(s, p, taken);
    } else if me.phase.Locking? {
      PinnedShrinks(s, p, taken);
    } else if me.task.Match? && me.phase.Starting? {
      MatcherStartShrinks(s, p);
    } else if me.task.Match? {
      MatcherCommitShrinks(s, p, taken);
    } else if me.phase.Snapshotted? {
      ContextReadShrinks(s, p);
    } else {
      ClassifierShrinks(s, p);
    }
  }

  lemma StepShrinksWork(s: State, p: nat, taken: set<LineId>)
    requires Safe(s) && CanStep(s, p)
    ensures Work(Execute(s, Step(p, taken))) < Work(s)
  {
    StepShrinks(s, p, taken);
    ReplaceTotal(|s.lines|, s.procs, p, Next(s, Step(p, taken)).procs[p]);
  }

  /** A run in which every action is a statement some transaction could execute. */
  ghost predicate StepsOnly(s: State, actions: seq<Action>) {
    actions != [] ==>
      var n := |actions| - 1;
      StepsOnly(s, actions[..n]) && actions[n].Step? && Enabled(Run(s, actions[..n]), actions[n])
  }

  /** With nothing new arriving, the transactions in progress execute boundedly many statements. */
  lemma {:induction false} RunsAreBounded(s: State, actions: seq<Action>)
    requires Safe(s) && StepsOnly(s, actions)
    ensures |actions| + Work(Run(s, actions)) <= Work(s)
  {
    if actions != [] {
      var n := |actions| - 1;
      RunsAreBounded(s, actions[..n]);
      RunKeepsSafe(s, actions[..n]);
      StepShrinksWork(Run(s, actions[..n]), actions[n].p, actions[n].taken);
    }
  }

  lemma {:induction false} TotalBound(lines: nat, procs: seq<Proc>, each: nat)
    requires forall p :: 0 <= p < |procs| ==> Remaining(lines, procs[p]) <= each
    ensures TotalRemaining(lines, procs) <= |procs| * each
  {
    if procs != [] {
      var n := |procs| - 1;
      TotalBound(lines, procs[..n], each);
      OneMore(n, each);
    }
  }

  lemma WorkBound(s: State)
    requires Safe(s)
    ensures Work(s) <= |s.procs| * (|s.lines| + 5)
  {
    forall p | 0 <= p < |s.procs| ensures Remaining(|s.lines|, s.procs[p]) <= |s.lines| + 5 {
      assert ProcOk(s, s.procs[p]);
      AskingRemaining(s, s.procs[p]);
    }
    TotalBound(|s.lines|, s.procs, |s.lines| + 5);
  }

  ghost predicate Stuck(s: State) {
    forall p :: !CanStep(s, p)
  }

  ghost predicate AllEnded(s: State) {
    forall p :: 0 <= p < |s.procs| ==> s.procs[p].phase.Ended?
  }

  lemma StuckMeansDone(s: State)
    requires Safe(s)
    ensures Stuck(s) <==> AllEnded(s)
  {
    if p :| 0 <= p < |s.procs| && !s.procs[p].phase.Ended? && !CanStep(s, p) {
      var bound := HasBound(s);
      var q := FollowTheWait(s, p, bound);
    }
  }

  /** At most (lines + 5) statements each, and the schedule can go on until every one has ended. */
  ghost predicate Finishes(s: State, schedule: seq<Action>) {
    && |schedule| <= |s.procs| * (|s.lines| + 5)
    && (Stuck(Run(s, schedule)) <==> AllEnded(Run(s, schedule)))
  }

  lemma ScheduleFinishes(s: State, schedule: seq<Action>)
    requires Safe(s) && StepsOnly(s, schedule)
    ensures Finishes(s, schedule)
  {
    RunKeepsSafe(s, schedule);
    RunsAreBounded(s, schedule);
    WorkBound(s);
    StuckMeansDone(Run(s, schedule));
  }

  /** However the transactions in progress are scheduled, the schedule is bounded and is stuck only when
      all of them have ended. */
  lemma EveryScheduleFinishes(before: seq<Action>, schedule: seq<Action>)
    requires StepsOnly(Run(EMPTY, before), schedule)
    ensures Finishes(Run(EMPTY, before), schedule)
  {
    RunKeepsSafe(EMPTY, before);
    ScheduleFinishes(Run(EMPTY, before), schedule);
  }
}
