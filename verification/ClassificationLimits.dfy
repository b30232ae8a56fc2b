/** Where the classification run's report departs from what it is documented to count. */
module ClassificationLimits {
  import opened Wrappers
  import opened Engine
  import opened Protocol
  import opened ProtocolSafety
  import opened ProtocolTheorems

  const LINE := Line(7, true, Some("order"), Some("capture"), 100, "EUR", Date(2026, 6, 1))

  function Opening(): seq<Action> {
    [Ingest(map[0 := LINE]), StartClassifier(None), Step(0, {})]
  }

  function Arrival(): seq<Action> {
    Opening() + [Ingest(map[1 := LINE]), Step(0, {})]
  }

  function Locked(): seq<Action> {
    Arrival() + [Step(0, {}), Step(0, {})]
  }

  function Whole(): seq<Action> {
    Locked() + [Step(0, {}), Step(0, {})]
  }

  lemma RunTwoMore(s: State, actions: seq<Action>, a: Action, b: Action)
    ensures Run(s, actions + [a, b]) == Execute(Execute(Run(s, actions), a), b)
  {
    RunOneMore(s, actions, a);
    RunOneMore(s, actions + [a], b);
    assert actions + [a, b] == (actions + [a]) + [b];
  }

  lemma RunOneMore(s: State, actions: seq<Action>, a: Action)
    ensures Run(s, actions + [a]) == Execute(Run(s, actions), a)
  {
    assert (actions + [a])[..|actions|] == actions;
  }

  /** The snapshot holds line 0 alone. */
  lemma AfterOpening(s: State)
    requires s == Run(EMPTY, Opening())
    ensures |s.procs| == 1 && s.procs[0].task.Classify? && s.procs[0].phase.Snapshotted?
    ensures s.lines == map[0 := LINE] && s.matched == {} && s.excepted == map[] && s.procs[0].held == {}
    ensures s.procs[0].task.batch == None
    ensures |s.procs[0].task.snapshot| == 1 && s.procs[0].task.snapshot[0].id == 0
    ensures s.procs[0].task.snapshot[0].reference == LINE.reference
  {
    var first := [Ingest(map[0 := LINE])];
    assert Run(EMPTY, []) == EMPTY;
    assert first[..0] == [];
    var s1 := Execute(EMPTY, first[0]);
    assert Run(EMPTY, first) == s1;
    RunTwoMore(EMPTY, first, StartClassifier(None), Step(0, {}));
    assert first + [StartClassifier(None), Step(0, {})] == Opening();
    var s2 := Execute(s1, StartClassifier(None));
    assert CanStep(s2, 0);
    ResidualsMean(s2, None);
    assert IsResidual(s2, None, 0);
    ByIdUnique(LoadResiduals(s2, None), [Seen(s2, 0)]);
  }

  lemma ContextIsBoth(t: State, snapshot: seq<Movement>)
    requires t.lines == map[0 := LINE, 1 := LINE]
    requires |snapshot| == 1 && snapshot[0].reference == LINE.reference
    ensures ContextIds(t, snapshot) == {0, 1}
  {
    assert SharesReference(LINE, snapshot);
  }

  lemma IdsOfContext(t: State, snapshot: seq<Movement>)
    ensures Ids(LoadContext(t, snapshot)) == ContextIds(t, snapshot)
  {
    var context := LoadContext(t, snapshot);
    RowsOf(t, ContextIds(t, snapshot));
    IdsMembers(context);
    forall id | id in ContextIds(t, snapshot) ensures id in Ids(context) {
      assert Seen(t, id) in context;
    }
  }

  lemma WantsBoth(t: State, snapshot: seq<Movement>)
    requires t.lines == map[0 := LINE, 1 := LINE]
    requires |snapshot| == 1 && snapshot[0].id == 0 && snapshot[0].reference == LINE.reference
    ensures Wanted(t, snapshot) == {0, 1}
  {
    ContextIsBoth(t, snapshot);
    IdsOfContext(t, snapshot);
    assert Ids(snapshot) == {0};
  }

  /** Line 1 is ingested between the two reads, and the context read picks it up. */
  lemma AfterArrival(s: State)
    requires s == Run(EMPTY, Arrival())
    ensures |s.procs| == 1 && s.procs[0].task.Classify? && s.procs[0].phase.Locking?
    ensures s.lines == map[0 := LINE, 1 := LINE] && s.matched == {} && s.excepted == map[]
    ensures s.procs[0].wanted == {0, 1} && s.procs[0].held == {} && s.procs[0].task.batch == None
    ensures |s.procs[0].task.snapshot| == 1
  {
    var r := Run(EMPTY, Opening());
    AfterOpening(r);
    RunTwoMore(EMPTY, Opening(), Ingest(map[1 := LINE]), Step(0, {}));
    var t := Execute(r, Ingest(map[1 := LINE]));
    SecondLineArrives(r, t);
    ReadsBoth(t);
  }

  lemma SecondLineArrives(r: State, t: State)
    requires r.lines == map[0 := LINE] && t == Execute(r, Ingest(map[1 := LINE]))
    ensures t == r.(lines := map[0 := LINE, 1 := LINE])
  {}

  lemma ReadsBoth(t: State)
    requires |t.procs| == 1 && t.procs[0].task.Classify? && t.procs[0].phase.Snapshotted?
    requires t.lines == map[0 := LINE, 1 := LINE]
    requires |t.procs[0].task.snapshot| == 1 && t.procs[0].task.snapshot[0].id == 0
    requires t.procs[0].task.snapshot[0].reference == LINE.reference
    ensures var s := Execute(t, Step(0, {}));
            s == t.(procs := [t.procs[0].(phase := Locking, wanted := {0, 1})])
  {
    assert CanStep(t, 0);
    WantsBoth(t, t.procs[0].task.snapshot);
  }

  lemma AfterLocks(s: State)
    requires s == Run(EMPTY, Locked())
    ensures |s.procs| == 1 && s.procs[0].task.Classify? && s.procs[0].phase.Locking?
    ensures s.lines == map[0 := LINE, 1 := LINE] && s.matched == {} && s.excepted == map[]
    ensures s.procs[0].wanted == {0, 1} && s.procs[0].held == {0, 1} && s.procs[0].task.batch == None
    ensures |s.procs[0].task.snapshot| == 1
  {
    var r := Run(EMPTY, Arrival());
    AfterArrival(r);
    RunTwoMore(EMPTY, Arrival(), Step(0, {}), Step(0, {}));
    var t := Execute(r, Step(0, {}));
    assert CanStep(r, 0);
    assert r.procs[0].wanted - r.procs[0].held == {0, 1};
    assert IsLeast({0, 1}, NextLock(r.procs[0]));
    assert t.procs[0].held == {0};
    assert CanStep(t, 0);
    assert t.procs[0].wanted - t.procs[0].held == {1};
    assert IsLeast({1}, NextLock(t.procs[0]));
  }

  lemma ReadyWithBoth(s: State)
    requires s == Run(EMPTY, Whole())
    ensures IsReadyClassifier(s, 0) && s.procs[0].task.batch == None && s.procs[0].held == {0, 1}
    ensures |s.procs[0].task.snapshot| == 1
    ensures s.lines == map[0 := LINE, 1 := LINE] && s.matched == {} && s.excepted == map[]
  {
    var r := Run(EMPTY, Locked());
    AfterLocks(r);
    RunTwoMore(EMPTY, Locked(), Step(0, {}), Step(0, {}));
    var t := Execute(r, Step(0, {}));
    assert CanStep(r, 0);
    assert CanStep(t, 0);
  }

  /** A line ingested between the residual read and the context read is pinned as context and classified
      as a residual, so a run can create more exceptions than it counted residuals: `lost_races` is
      negative. */
  lemma LostRacesCanBeNegative()
    ensures exists actions ::
              var s := Run(EMPTY, actions);
              && IsReadyClassifier(s, 0)
              && |s.procs[0].task.snapshot| - |Eligible(s, s.procs[0].task.batch, s.procs[0].held)| == -1
  {
    var s := Run(EMPTY, Whole());
    ReadyWithBoth(s);
    assert Eligible(s, None, {0, 1}) == {0, 1};
  }

  // ----- a line can be matched ---------------------------------------------------------------------------

  function Matching(): seq<Action> {
    [Ingest(map[0 := LINE]), StartMatcher({0}), Step(0, {}), Step(0, {}), Step(0, {})]
  }

  lemma MatchingIsReady(s: State)
    requires s == Run(EMPTY, Matching())
    ensures |s.procs| == 1 && s.procs[0].task.Match? && s.procs[0].phase.Ready? && s.procs[0].held == {0}
    ensures s.matched == {} && s.excepted == map[]
  {
    assert Run(EMPTY, []) == EMPTY;
    var s1 := Execute(EMPTY, Ingest(map[0 := LINE]));
    RunOneMore(EMPTY, [], Ingest(map[0 := LINE]));
    var first := [Ingest(map[0 := LINE])];
    assert [] + first == first;
    RunTwoMore(EMPTY, first, StartMatcher({0}), Step(0, {}));
    var s2 := Execute(s1, StartMatcher({0}));
    assert CanStep(s2, 0);
    var s3 := Execute(s2, Step(0, {}));
    var more := first + [StartMatcher({0}), Step(0, {})];
    RunTwoMore(EMPTY, more, Step(0, {}), Step(0, {}));
    assert more + [Step(0, {}), Step(0, {})] == Matching();
    MatcherLocks(s3);
  }

  lemma MatcherLocks(s: State)
    requires |s.procs| == 1 && s.procs[0] == Proc(Locking, {0}, {}, Match({0}, {}))
    requires s.excepted == map[]
    ensures var t := Execute(Execute(s, Step(0, {})), Step(0, {}));
            t == s.(procs := [Proc(Ready, {0}, {0}, Match({0}, {}))])
  {
    assert CanStep(s, 0);
    assert s.procs[0].wanted - s.procs[0].held == {0};
    assert IsLeast({0}, NextLock(s.procs[0]));
    var t := Execute(s, Step(0, {}));
    assert t.procs[0].held == {0} && CanStep(t, 0);
    assert t.procs[0].wanted - t.procs[0].held == {};
    assert t.procs[0].wanted * t.excepted.Keys == {};
  }

  /** The matcher of the model does match: a proposed line whose entry is free is matched in a reachable
      state. */
  lemma LineCanBeMatched()
    ensures exists actions :: 0 in Run(EMPTY, actions).matched
  {
    var s := Run(EMPTY, Matching());
    MatchingIsReady(s);
    MatcherCommitMatches(Matching(), 0, {0});
    RunOneMore(EMPTY, Matching(), Step(0, {0}));
    assert 0 in Run(EMPTY, Matching() + [Step(0, {0})]).matched;
  }
}
