/** Why a classification does not depend on the order, repetition or irrelevant part of its input. */
module EngineProofs {
  import opened Wrappers
  import opened Engine

  // ----- permutations -----------------------------------------------------------------------

  lemma {:induction false} FilterCounts<T>(keep: T -> bool, ms: seq<T>, x: T)
    ensures multiset(Filter(keep, ms))[x] == if keep(x) then multiset(ms)[x] else 0
  {
    if ms != [] {
      FilterCounts(keep, ms[..|ms| - 1], x);
      assert ms == ms[..|ms| - 1] + [ms[|ms| - 1]];
    }
  }

  lemma FilterPermutes(keep: Movement -> bool, a: seq<Movement>, b: seq<Movement>)
    requires multiset(a) == multiset(b)
    ensures multiset(Filter(keep, a)) == multiset(Filter(keep, b))
  {
    forall x: Movement
      ensures multiset(Filter(keep, a))[x] == multiset(Filter(keep, b))[x]
    {
      FilterCounts(keep, a, x);
      FilterCounts(keep, b, x);
    }
  }

  lemma SameMembers<T>(a: seq<T>, b: seq<T>)
    requires multiset(a) == multiset(b)
    ensures |a| == |b|
    ensures forall x :: x in a <==> x in b
  {
    assert |multiset(a)| == |a| && |multiset(b)| == |b|;
    forall x ensures x in a <==> x in b {
      assert x in multiset(a) <==> x in a;
      assert x in multiset(b) <==> x in b;
    }
  }

  lemma WithoutOne<T>(b: seq<T>, k: nat)
    requires k < |b|
    ensures multiset(b[..k] + b[k + 1..]) == multiset(b) - multiset{b[k]}
    ensures multiset(b) == multiset(b[..k] + b[k + 1..]) + multiset{b[k]}
  {
    assert b == b[..k] + [b[k]] + b[k + 1..];
  }

  /** Where the last element of `a` sits in a permutation `b` of it. */
  lemma FindLast<T>(a: seq<T>, b: seq<T>) returns (k: nat)
    requires multiset(a) == multiset(b) && a != []
    ensures k < |b| == |a| && b[k] == a[|a| - 1]
    ensures multiset(a[..|a| - 1]) == multiset(b[..k] + b[k + 1..])
  {
    SameMembers(a, b);
    var n := |a| - 1;
    assert a[n] in b;
    k :| 0 <= k < |b| && b[k] == a[n];
    WithoutOne(b, k);
    WithoutOne(a, n);
    assert a[..n] + a[n + 1..] == a[..n];
  }

  /** Taking one element out of the middle of a group takes exactly its deduction out of the total. */
  lemma {:induction false} DeductionsOfRemoval(group: seq<Movement>, k: nat)
    requires k < |group|
    ensures TotalDeductions(group)
            == TotalDeductions(group[..k] + group[k + 1..]) + TotalDeductions([group[k]])
  {
    var n := |group| - 1;
    DeductionOfOne(group[k]);
    if k == n {
      assert group[..k] + group[k + 1..] == group[..n];
    } else {
      DeductionsOfRemoval(group[..n], k);
      RemovalKeepsLast(group, k);
    }
  }

  lemma DeductionOfOne(m: Movement)
    ensures TotalDeductions([m]) == if IsDeduction(m) then -m.amount else 0
  {
    assert [m][..0] == [];
  }

  lemma RemovalKeepsLast(group: seq<Movement>, k: nat)
    requires k < |group| - 1
    ensures var n, rest := |group| - 1, group[..k] + group[k + 1..];
            && rest != [] && rest[|rest| - 1] == group[n]
            && rest[..|rest| - 1] == group[..n][..k] + group[..n][k + 1..]
  {}

  lemma {:induction false} DeductionsPermute(a: seq<Movement>, b: seq<Movement>)
    requires multiset(a) == multiset(b)
    ensures TotalDeductions(a) == TotalDeductions(b)
  {
    SameMembers(a, b);
    if a != [] {
      var n := |a| - 1;
      var k := FindLast(a, b);
      DeductionsPermute(a[..n], b[..k] + b[k + 1..]);
      DeductionsOfRemoval(b, k);
      DeductionsOfRemoval(a, n);
      assert a[..n] + a[n + 1..] == a[..n];
    }
  }

  lemma {:induction false} LargestInflowIsMaximal(group: seq<Movement>)
    ensures forall i :: 0 <= i < |group| && IsInflow(group[i]) ==>
              0 < group[i].amount <= LargestInflow(group)
    ensures LargestInflow(group) == 0
            || exists i :: 0 <= i < |group| && IsInflow(group[i]) && group[i].amount == LargestInflow(group)
  {
    if group != [] {
      var init := group[..|group| - 1];
      LargestInflowIsMaximal(init);
      if LargestInflow(init) != 0 {
        var i :| 0 <= i < |init| && IsInflow(init[i]) && init[i].amount == LargestInflow(init);
        assert group[i] == init[i];
      }
      forall i | 0 <= i < |group| && IsInflow(group[i])
        ensures 0 < group[i].amount <= LargestInflow(group)
      {
        if i < |init| { assert group[i] == init[i]; }
      }
      if LargestInflow(group) != 0 && LargestInflow(group) != LargestInflow(init) {
        assert group[|group| - 1].amount == LargestInflow(group);
      }
    }
  }

  lemma LargestInflowAtMost(a: seq<Movement>, b: seq<Movement>)
    requires forall m :: m in a ==> m in b
    ensures LargestInflow(a) <= LargestInflow(b)
  {
    LargestInflowIsMaximal(a);
    LargestInflowIsMaximal(b);
    if LargestInflow(a) != 0 {
      var i :| 0 <= i < |a| && IsInflow(a[i]) && a[i].amount == LargestInflow(a);
      assert a[i] in b;
    } else if LargestInflow(b) != 0 {
      var i :| 0 <= i < |b| && IsInflow(b[i]) && b[i].amount == LargestInflow(b);
    }
  }

  lemma HasKindByMembers(a: seq<Movement>, b: seq<Movement>, kind: Kind)
    requires forall m :: m in a ==> m in b
    ensures HasKind(a, kind) ==> HasKind(b, kind)
    ensures HasDeduction(a) ==> HasDeduction(b)
  {
    if HasKind(a, kind) {
      var i :| 0 <= i < |a| && a[i].kind == Some(kind);
      assert a[i] in b;
    }
    if HasDeduction(a) {
      var i :| 0 <= i < |a| && IsDeduction(a[i]);
      assert a[i] in b;
    }
  }

  /** The group test of the fee-split rule. */
  predicate GroupSplits(group: seq<Movement>) {
    HasKind(group, Capture) && HasKind(group, Fee) && HasDeduction(group)
    && DeductionsBelowLargestInflow(group)
  }

  lemma GroupSplitsPermutes(a: seq<Movement>, b: seq<Movement>)
    requires multiset(a) == multiset(b)
    ensures GroupSplits(a) ==> GroupSplits(b)
  {
    SameMembers(a, b);
    HasKindByMembers(a, b, Capture);
    HasKindByMembers(a, b, Fee);
    DeductionsPermute(a, b);
    LargestInflowAtMost(a, b);
    if DeductionsBelowLargestInflow(a) {
      var i :| 0 <= i < |a| && IsInflow(a[i]);
      assert a[i] in b;
    }
  }

  lemma UnreconciledPermutes(s: Movement, a: seq<Movement>, b: seq<Movement>)
    requires multiset(a) == multiset(b)
    ensures multiset(UnreconciledGroup(Evidence(s, a))) == multiset(UnreconciledGroup(Evidence(s, b)))
  {
    FilterPermutes((m: Movement) => !m.matched, a, b);
  }

  lemma OffsetsPermute(s: Movement, kind: Kind, a: seq<Movement>, b: seq<Movement>)
    requires multiset(a) == multiset(b)
    ensures var x, y := BookedOffsetsOfType(Evidence(s, a), kind), BookedOffsetsOfType(Evidence(s, b), kind);
            |x| == |y| && (|x| == 1 ==> x == y)
  {
    FilterPermutes((m: Movement) => m.matched && m.kind == Some(kind) && m.amount == -s.amount, a, b);
    var x, y := BookedOffsetsOfType(Evidence(s, a), kind), BookedOffsetsOfType(Evidence(s, b), kind);
    assert multiset(x) == multiset(y);
    SameMembers(x, y);
    if |x| == 1 {
      assert x[0] in y;
    }
  }

  lemma SplitPermutes(s: Movement, a: seq<Movement>, b: seq<Movement>)
    requires multiset(a) == multiset(b)
    ensures SplitsFeesFromACapture(Evidence(s, a)) ==> SplitsFeesFromACapture(Evidence(s, b))
  {
    UnreconciledPermutes(s, a, b);
    GroupSplitsPermutes(UnreconciledGroup(Evidence(s, a)), UnreconciledGroup(Evidence(s, b)));
    SameMembers(a, b);
    if AnyBookedOffset(Evidence(s, b)) {
      var i :| 0 <= i < |b| && b[i].matched && b[i].amount == -s.amount;
      assert b[i] in a;
    }
  }

  /** A verdict depends on the related movements as a multiset only. */
  lemma JudgePermutes(s: Movement, a: seq<Movement>, b: seq<Movement>)
    requires multiset(a) == multiset(b)
    ensures Judge(Evidence(s, a)) == Judge(Evidence(s, b))
  {
    OffsetsPermute(s, Chargeback, a, b);
    OffsetsPermute(s, Capture, a, b);
    SplitPermutes(s, a, b);
    SplitPermutes(s, b, a);
    assert forall r :: RuleHolds(r, Evidence(s, a)) == RuleHolds(r, Evidence(s, b));
    WinnerDependsOnRules(Evidence(s, a), Evidence(s, b));
  }

  lemma WinnerDependsOnRules(d: Evidence, e: Evidence)
    requires forall r :: RuleHolds(r, d) == RuleHolds(r, e)
    ensures Judge(d) == Judge(e)
  {
    FilterAgrees((r: Rule) => RuleHolds(r, d), (r: Rule) => RuleHolds(r, e), RULE_PRECEDENCE);
  }

  lemma {:induction false} FilterAgrees<T>(p: T -> bool, q: T -> bool, ms: seq<T>)
    requires forall x :: x in ms ==> p(x) == q(x)
    ensures Filter(p, ms) == Filter(q, ms)
  {
    if ms != [] {
      FilterAgrees(p, q, ms[..|ms| - 1]);
    }
  }

  // ----- deduplication ----------------------------------------------------------------------

  /** Records that share an id are the same record. */
  predicate IdFunctional(ms: seq<Movement>) {
    forall i, j :: 0 <= i < |ms| && 0 <= j < |ms| && ms[i].id == ms[j].id ==> ms[i] == ms[j]
  }

  lemma {:induction false} FirstOccurrencesCounts(ms: seq<Movement>, x: Movement)
    requires IdFunctional(ms)
    ensures multiset(FirstOccurrences(ms))[x] == if x in ms then 1 else 0
  {
    if ms != [] {
      var init, last := ms[..|ms| - 1], ms[|ms| - 1];
      FirstOccurrencesCounts(init, x);
      assert ms == init + [last];
      if HasId(init, last.id) {
        var i :| 0 <= i < |init| && init[i].id == last.id;
        assert ms[i] == init[i] == last;
        assert last in init;
      } else {
        assert last !in init;
      }
    }
  }

  lemma SameRecordsIdFunctional(a: seq<Movement>, b: seq<Movement>)
    requires IdFunctional(a) && forall m :: m in a <==> m in b
    ensures IdFunctional(b)
  {
    forall i, j | 0 <= i < |b| && 0 <= j < |b| && b[i].id == b[j].id ensures b[i] == b[j] {
      assert b[i] in a && b[j] in a;
    }
  }

  /** Two contexts holding the same records, in any order and with any repetition, relate the same
      movements to every subject. */
  lemma RelatedIgnoresOrder(s: Movement, a: seq<Movement>, b: seq<Movement>)
    requires IdFunctional(a) && forall m :: m in a <==> m in b
    ensures multiset(Related(s, a)) == multiset(Related(s, b))
  {
    SameRecordsIdFunctional(a, b);
    forall x: Movement
      ensures multiset(FirstOccurrences(a))[x] == multiset(FirstOccurrences(b))[x]
    {
      FirstOccurrencesCounts(a, x);
      FirstOccurrencesCounts(b, x);
    }
    assert multiset(FirstOccurrences(a)) == multiset(FirstOccurrences(b));
    if s.reference.Some? {
      var key := (m: Movement) => SameOrder(m, s.reference.value, s.currency);
      FilterPermutes(key, FirstOccurrences(a), FirstOccurrences(b));
      FilterPermutes((m: Movement) => m.id != s.id,
                     Filter(key, FirstOccurrences(a)), Filter(key, FirstOccurrences(b)));
    }
  }

  /** Order independence: the decision for a subject depends on the records present, not on where
      they stand or how often they are listed. */
  lemma DecisionIgnoresOrder(s: Movement, a: seq<Movement>, b: seq<Movement>)
    requires IdFunctional(a) && forall m :: m in a <==> m in b
    ensures Decide(s, a) == Decide(s, b)
  {
    RelatedIgnoresOrder(s, a, b);
    JudgePermutes(s, Related(s, a), Related(s, b));
  }

  lemma {:induction false} MapPermutes(f: Movement -> Classification, a: seq<Movement>, b: seq<Movement>,
                                       x: seq<Classification>, y: seq<Classification>)
    requires multiset(a) == multiset(b) && |x| == |a| && |y| == |b|
    requires forall i :: 0 <= i < |a| ==> x[i] == f(a[i])
    requires forall i :: 0 <= i < |b| ==> y[i] == f(b[i])
    ensures multiset(x) == multiset(y)
  {
    SameMembers(a, b);
    if a != [] {
      var n := |a| - 1;
      var k := FindLast(a, b);
      MapPermutes(f, a[..n], b[..k] + b[k + 1..], x[..n], y[..k] + y[k + 1..]);
      WithoutOne(y, k);
      WithoutOne(x, n);
      assert x[..n] + x[n + 1..] == x[..n];
      assert x[n] == y[k];
    }
  }

  /** Permuting the subjects and rearranging or repeating the context only permutes the output. */
  lemma ClassificationIgnoresOrder(s1: seq<Movement>, s2: seq<Movement>, c1: seq<Movement>, c2: seq<Movement>)
    requires multiset(s1) == multiset(s2)
    requires forall m :: m in c1 + s1 <==> m in c2 + s2
    requires IdFunctional(c1 + s1)
    ensures multiset(Classified(s1, c1)) == multiset(Classified(s2, c2))
  {
    var f := (m: Movement) => Classification(m.id, Decide(m, c1 + s1));
    forall i | 0 <= i < |s2| ensures Classified(s2, c2)[i] == f(s2[i]) {
      DecisionIgnoresOrder(s2[i], c1 + s1, c2 + s2);
    }
    MapPermutes(f, s1, s2, Classified(s1, c1), Classified(s2, c2));
  }

  /** Without the proviso it fails: with two different records under one id, the first one wins. */
  lemma OrderMattersWithConflictingRecords()
    ensures exists s, a, b :: multiset(a) == multiset(b) && Decide(s, a) != Decide(s, b)
  {
    var day := Date(2026, 6, 1);
    var s := Movement(0, Some("o"), Some(ChargebackReversal), 5, "EUR", day, false);
    var m := Movement(1, Some("o"), Some(Chargeback), -5, "EUR", day, true);
    var n := m.(matched := false);
    RelatedToOne(s, m, n);
    RelatedToOne(s, n, m);
    var p := (x: Movement) => x.matched && x.kind == Some(Chargeback) && x.amount == -s.amount;
    assert [m][..0] == [] && [n][..0] == [];
    assert Filter(p, [m]) == Filter(p, []) + [m] && Filter(p, [n]) == Filter(p, []);
    assert BookedOffsetsOfType(Evidence(s, [m]), Chargeback) == [m];
    assert BookedOffsetsOfType(Evidence(s, [n]), Chargeback) == [];
    FirstRuleWins(Evidence(s, [m]));
    assert Decide(s, [m, n]) == Judge(Evidence(s, [m]));
    assert Decide(s, [n, m]) == Judge(Evidence(s, [n]));
    WinnerFires(Evidence(s, [n]));
    assert multiset([m, n]) == multiset([n, m]);
  }

  lemma RelatedToOne(s: Movement, m: Movement, n: Movement)
    requires s.reference.Some? && SameOrder(m, s.reference.value, s.currency)
    requires m.id == n.id != s.id
    ensures Related(s, [m, n]) == [m]
  {
    var key := (x: Movement) => SameOrder(x, s.reference.value, s.currency);
    var other := (x: Movement) => x.id != s.id;
    assert [m, n][..1] == [m] && [m][..0] == [];
    assert FirstOccurrences([m]) == FirstOccurrences([]) + [m];
    assert [m][0].id == n.id && HasId([m], n.id);
    assert FirstOccurrences([m, n]) == [m];
    assert Filter(key, [m]) == Filter(key, []) + [m];
    assert Filter(other, [m]) == Filter(other, []) + [m];
  }

  lemma FirstRuleWins(e: Evidence)
    requires ReversesBookedChargeback(e)
    ensures Judge(e).rule == ReversalOfBookedChargeback
  {
    var p := (r: Rule) => RuleHolds(r, e);
    FilterKeepsFirst(p, RULE_PRECEDENCE);
  }

  lemma {:induction false} FilterKeepsFirst<T>(keep: T -> bool, ms: seq<T>)
    requires ms != [] && keep(ms[0])
    ensures |Filter(keep, ms)| > 0 && Filter(keep, ms)[0] == ms[0]
  {
    if |ms| > 1 {
      FilterKeepsFirst(keep, ms[..|ms| - 1]);
    } else {
      assert ms[..0] == [];
    }
  }

  /** The rule recorded is one that fired, or none did. */
  lemma WinnerFires(e: Evidence)
    ensures var r := Judge(e).rule;
            if r == NoRuleMatched then forall q :: !RuleHolds(q, e) else RuleHolds(r, e)
  {
    var p := (r: Rule) => RuleHolds(r, e);
    var fired := Filter(p, RULE_PRECEDENCE);
    FilterMembers(p, RULE_PRECEDENCE);
    if fired != [] {
      assert fired[0] in fired;
    } else {
      forall q ensures !RuleHolds(q, e) {
        assert q != NoRuleMatched ==>
          q == RULE_PRECEDENCE[0] || q == RULE_PRECEDENCE[1] || q == RULE_PRECEDENCE[2];
        assert q != NoRuleMatched ==> q in RULE_PRECEDENCE;
      }
    }
  }

  lemma FilterMembers<T>(keep: T -> bool, ms: seq<T>)
    ensures forall x :: x in Filter(keep, ms) <==> x in ms && keep(x)
  {
    forall x ensures x in Filter(keep, ms) <==> x in ms && keep(x) {
      FilterCounts(keep, ms, x);
      assert x in multiset(Filter(keep, ms)) <==> x in Filter(keep, ms);
      assert x in multiset(ms) <==> x in ms;
    }
  }

  // ----- what the index means ---------------------------------------------------------------

  /** The first record of each id, in order, is exactly what deduplication keeps. */
  lemma {:induction false} FirstOccurrencesKeeps(ms: seq<Movement>, x: Movement)
    ensures x in FirstOccurrences(ms) <==>
            exists i :: 0 <= i < |ms| && ms[i] == x && !HasId(ms[..i], x.id)
  {
    if ms != [] {
      var n := |ms| - 1;
      FirstOccurrencesKeeps(ms[..n], x);
      if i :| 0 <= i < |ms| && ms[i] == x && !HasId(ms[..i], x.id) {
        if i < n { assert ms[..n][i] == x && ms[..n][..i] == ms[..i]; }
      }
      if i :| 0 <= i < n && ms[..n][i] == x && !HasId(ms[..n][..i], x.id) {
        assert ms[i] == x && ms[..n][..i] == ms[..i];
      }
    }
  }

  /** The index agrees with the plain definition: a movement is related to a subject exactly when it
      is the first record of another id with the same non-null reference and the same currency. */
  lemma RelatedMeans(s: Movement, context: seq<Movement>, m: Movement)
    ensures m in Related(s, context) <==>
            && s.reference.Some? && m.reference == s.reference && m.currency == s.currency
            && m.id != s.id
            && exists i :: 0 <= i < |context| && context[i] == m && !HasId(context[..i], m.id)
  {
    if s.reference.Some? {
      var key := (x: Movement) => SameOrder(x, s.reference.value, s.currency);
      FilterMembers(key, FirstOccurrences(context));
      FilterMembers((x: Movement) => x.id != s.id, Filter(key, FirstOccurrences(context)));
      FirstOccurrencesKeeps(context, m);
    }
  }

  /** A record of another order, or of no order, changes no decision wherever it is inserted. */
  lemma UnrelatedRecordChangesNothing(s: Movement, a: seq<Movement>, x: Movement, b: seq<Movement>)
    requires IdFunctional(a + [x] + b)
    requires s.reference.None? || x.reference != s.reference || x.currency != s.currency || x.id == s.id
    ensures Decide(s, a + [x] + b) == Decide(s, a + b)
  {
    var with, without := a + [x] + b, a + b;
    assert forall m :: m in with <==> m in without || m == x;
    forall i | 0 <= i < |without| ensures without[i] in with {}
    assert IdFunctional(without) by {
      forall i, j | 0 <= i < |without| && 0 <= j < |without| && without[i].id == without[j].id
        ensures without[i] == without[j]
      {
        var k, l := if i < |a| then i else i + 1, if j < |a| then j else j + 1;
        assert with[k] == without[i] && with[l] == without[j];
      }
    }
    if s.reference.Some? {
      forall m: Movement
        ensures multiset(Related(s, with))[m] == multiset(Related(s, without))[m]
      {
        RelatedCounts(s, with, m);
        RelatedCounts(s, without, m);
      }
      assert multiset(Related(s, with)) == multiset(Related(s, without));
      JudgePermutes(s, Related(s, with), Related(s, without));
    }
  }

  lemma RelatedCounts(s: Movement, context: seq<Movement>, m: Movement)
    requires IdFunctional(context) && s.reference.Some?
    ensures multiset(Related(s, context))[m] ==
            if m in context && SameOrder(m, s.reference.value, s.currency) && m.id != s.id then 1 else 0
  {
    var key := (x: Movement) => SameOrder(x, s.reference.value, s.currency);
    FirstOccurrencesCounts(context, m);
    FilterCounts(key, FirstOccurrences(context), m);
    FilterCounts((x: Movement) => x.id != s.id, Filter(key, FirstOccurrences(context)), m);
  }

  // ----- fee splits are a verdict about the group -------------------------------------------

  lemma {:induction false} UnreconciledCounts(s: Movement, context: seq<Movement>, m: Movement)
    requires IdFunctional(context) && s in context && s.reference.Some? && !s.matched
    ensures multiset(UnreconciledGroup(Evidence(s, Related(s, context))))[m] ==
            if m in context && SameOrder(m, s.reference.value, s.currency) && !m.matched then 1 else 0
  {
    RelatedCounts(s, context, m);
    FilterCounts((x: Movement) => !x.matched, Related(s, context), m);
    if m.id == s.id && m in context {
      var i :| 0 <= i < |context| && context[i] == m;
      var j :| 0 <= j < |context| && context[j] == s;
      assert m == s;
    }
  }

  /** Two unmatched subjects of one order read the same unreconciled group. */
  lemma SameUnreconciledGroup(s: Movement, t: Movement, context: seq<Movement>)
    requires IdFunctional(context) && s in context && t in context && !s.matched && !t.matched
    requires s.reference.Some? && s.reference == t.reference && s.currency == t.currency
    ensures multiset(UnreconciledGroup(Evidence(s, Related(s, context))))
            == multiset(UnreconciledGroup(Evidence(t, Related(t, context))))
  {
    forall m: Movement
      ensures multiset(UnreconciledGroup(Evidence(s, Related(s, context))))[m]
              == multiset(UnreconciledGroup(Evidence(t, Related(t, context))))[m]
    {
      UnreconciledCounts(s, context, m);
      UnreconciledCounts(t, context, m);
    }
  }

  /** Fee-split coherence: unmatched capture and fee lines of one order that no booked movement
      exactly reverses all receive the same verdict. */
  lemma FeeSplitCoherence(s: Movement, t: Movement, context: seq<Movement>)
    requires IdFunctional(context) && s in context && t in context && !s.matched && !t.matched
    requires s.reference.Some? && s.reference == t.reference && s.currency == t.currency
    requires s.kind in {Some(Capture), Some(Fee)} && t.kind in {Some(Capture), Some(Fee)}
    requires !AnyBookedOffset(Evidence(s, Related(s, context)))
    requires !AnyBookedOffset(Evidence(t, Related(t, context)))
    ensures Decide(s, context) == Decide(t, context)
    ensures Decide(s, context).class_ == FeeSplit <==>
            GroupSplits(UnreconciledGroup(Evidence(s, Related(s, context))))
  {
    var d, e := Evidence(s, Related(s, context)), Evidence(t, Related(t, context));
    SameUnreconciledGroup(s, t, context);
    GroupSplitsPermutes(UnreconciledGroup(d), UnreconciledGroup(e));
    GroupSplitsPermutes(UnreconciledGroup(e), UnreconciledGroup(d));
    assert SplitsFeesFromACapture(d) == GroupSplits(UnreconciledGroup(d));
    assert SplitsFeesFromACapture(e) == GroupSplits(UnreconciledGroup(e));
    assert forall r :: RuleHolds(r, d) == RuleHolds(r, e);
    WinnerDependsOnRules(d, e);
    WinnerFires(d);
  }

  /** The three things a residual can be explained by, said without the rules. */
  ghost predicate ExplainedByFees(s: Movement, context: seq<Movement>) {
    var related := Related(s, context);
    var group := UnreconciledGroup(Evidence(s, related));
    && s.kind in {Some(Capture), Some(Fee)}
    && (forall m :: m in related && m.matched ==> m.amount != -s.amount)
    && 0 < TotalDeductions(group)
    && exists m :: m in group && IsInflow(m) && TotalDeductions(group) < m.amount
  }

  ghost predicate ExplainedByChargeback(s: Movement, context: seq<Movement>) {
    && s.kind == Some(ChargebackReversal) && s.amount > 0
    && exists m :: m in context && Reverses(s, Chargeback, m)
                   && forall n :: n in context && Reverses(s, Chargeback, n) ==> n == m
  }

  ghost predicate ExplainedByEarlierCapture(s: Movement, context: seq<Movement>) {
    && s.kind == Some(Refund) && s.amount < 0
    && exists m :: m in context && Reverses(s, Capture, m)
                   && (forall n :: n in context && Reverses(s, Capture, n) ==> n == m)
                   && !(m.valueDate.year == s.valueDate.year && m.valueDate.month == s.valueDate.month)
  }

  /** Fee split, said without the rule: the subject is a capture or a fee, no booked movement of its
      order exactly reverses it, and the order's unreconciled deductions are positive and add up to less
      than some unreconciled capture. */
  lemma FeeSplitIff(s: Movement, context: seq<Movement>)
    ensures var related := Related(s, context);
            var group := UnreconciledGroup(Evidence(s, related));
            Decide(s, context).class_ == FeeSplit <==>
            && s.kind in {Some(Capture), Some(Fee)}
            && (forall m :: m in related && m.matched ==> m.amount != -s.amount)
            && 0 < TotalDeductions(group)
            && exists m :: m in group && IsInflow(m) && TotalDeductions(group) < m.amount
    ensures Decide(s, context).class_ == FeeSplit <==> ExplainedByFees(s, context)
  {
    var e := Evidence(s, Related(s, context));
    WinnerFires(e);
    GroupSplitsIff(UnreconciledGroup(e));
    assert AnyBookedOffset(e) <==> exists m :: m in e.related && m.matched && m.amount == -s.amount by {
      if m :| m in e.related && m.matched && m.amount == -s.amount {
        var i :| 0 <= i < |e.related| && e.related[i] == m;
      }
    }
    if SplitsFeesFromACapture(e) {
      OnlyRule(e, FeesDeductedFromACapture);
    }
  }

  lemma GroupSplitsIff(group: seq<Movement>)
    ensures GroupSplits(group) <==>
            0 < TotalDeductions(group)
            && exists m :: m in group && IsInflow(m) && TotalDeductions(group) < m.amount
  {
    DeductionsPositive(group);
    LargestInflowIsMaximal(group);
    if GroupSplits(group) {
      var i :| 0 <= i < |group| && IsInflow(group[i]) && group[i].amount == LargestInflow(group);
      assert group[i] in group;
    }
    if m :| m in group && IsInflow(m) && TotalDeductions(group) < m.amount {
      var i :| 0 <= i < |group| && group[i] == m;
      assert HasKind(group, Capture);
    }
  }

  /** The rules test different declared kinds, so at most one fires. */
  lemma OnlyRule(e: Evidence, rule: Rule)
    requires RuleHolds(rule, e)
    ensures Judge(e).rule == rule
  {
    WinnerFires(e);
  }

  /** The one booked movement of the subject's order, of the given kind, that exactly reverses it. */
  predicate Reverses(s: Movement, kind: Kind, m: Movement) {
    && s.reference.Some? && m.reference == s.reference && m.currency == s.currency && m.id != s.id
    && m.matched && m.kind == Some(kind) && m.amount == -s.amount
  }

  lemma OffsetsAre(s: Movement, context: seq<Movement>, kind: Kind, m: Movement)
    requires IdFunctional(context)
    ensures multiset(BookedOffsetsOfType(Evidence(s, Related(s, context)), kind))[m]
            == if m in context && Reverses(s, kind, m) then 1 else 0
  {
    if s.reference.Some? {
      RelatedCounts(s, context, m);
    }
    FilterCounts((x: Movement) => x.matched && x.kind == Some(kind) && x.amount == -s.amount,
                 Related(s, context), m);
  }

  /** A sequence without repetitions has length one exactly when it has a single member. */
  lemma OneMember<T>(ms: seq<T>)
    requires forall m :: multiset(ms)[m] <= 1
    ensures |ms| == 1 <==> exists m :: OnlyMember(ms, m)
  {
    if |ms| == 1 {
      assert OnlyMember(ms, ms[0]);
    }
    if m :| OnlyMember(ms, m) {
      OnlyMemberRepeats(ms, m);
    }
  }

  predicate OnlyMember<T(==)>(ms: seq<T>, m: T) {
    m in ms && forall i :: 0 <= i < |ms| ==> ms[i] == m
  }

  lemma OnlyMemberRepeats<T>(ms: seq<T>, m: T)
    requires OnlyMember(ms, m)
    ensures |ms| > 1 ==> multiset(ms)[m] >= 2
  {
    if |ms| > 1 {
      assert ms == [m] + ([m] + ms[2..]);
    }
  }

  lemma SingleOffset(s: Movement, context: seq<Movement>, kind: Kind)
    requires IdFunctional(context)
    ensures var offsets := BookedOffsetsOfType(Evidence(s, Related(s, context)), kind);
            && (|offsets| == 1 <==>
                 exists m :: m in context && Reverses(s, kind, m)
                             && forall n :: n in context && Reverses(s, kind, n) ==> n == m)
            && (|offsets| == 1 ==> offsets[0] in context && Reverses(s, kind, offsets[0]))
  {
    var offsets := BookedOffsetsOfType(Evidence(s, Related(s, context)), kind);
    forall m: Movement
      ensures multiset(offsets)[m] <= 1
      ensures m in offsets <==> m in context && Reverses(s, kind, m)
    {
      OffsetsAre(s, context, kind, m);
      assert m in multiset(offsets) <==> m in offsets;
    }
    OneMember(offsets);
    if |offsets| == 1 {
      assert forall n :: n in context && Reverses(s, kind, n) ==> n in offsets && n == offsets[0];
      assert offsets[0] in offsets;
    }
    if m :| m in context && Reverses(s, kind, m)
            && forall n :: n in context && Reverses(s, kind, n) ==> n == m
    {
      assert forall i :: 0 <= i < |offsets| ==> offsets[i] in offsets;
      assert OnlyMember(offsets, m);
    }
  }

  /** A chargeback reversal, said without the rule: a positive reversal line with exactly one booked
      chargeback of its order that it exactly reverses. */
  lemma ChargebackReversedIff(s: Movement, context: seq<Movement>)
    requires IdFunctional(context)
    ensures Decide(s, context).class_ == ChargebackReversed <==>
            && s.kind == Some(ChargebackReversal) && s.amount > 0
            && exists m :: m in context && Reverses(s, Chargeback, m)
                           && forall n :: n in context && Reverses(s, Chargeback, n) ==> n == m
    ensures Decide(s, context).class_ == ChargebackReversed <==> ExplainedByChargeback(s, context)
  {
    var e := Evidence(s, Related(s, context));
    SingleOffset(s, context, Chargeback);
    WinnerFires(e);
    if ReversesBookedChargeback(e) {
      OnlyRule(e, ReversalOfBookedChargeback);
    }
  }

  /** A cross-period refund, said without the rule: a negative refund line with exactly one booked
      capture of its order that it exactly reverses, in another calendar month. */
  lemma CrossPeriodRefundIff(s: Movement, context: seq<Movement>)
    requires IdFunctional(context)
    ensures Decide(s, context).class_ == CrossPeriodRefund <==>
            && s.kind == Some(Refund) && s.amount < 0
            && exists m :: m in context && Reverses(s, Capture, m)
                           && (forall n :: n in context && Reverses(s, Capture, n) ==> n == m)
                           && !(m.valueDate.year == s.valueDate.year && m.valueDate.month == s.valueDate.month)
    ensures Decide(s, context).class_ == CrossPeriodRefund <==> ExplainedByEarlierCapture(s, context)
  {
    var e := Evidence(s, Related(s, context));
    SingleOffset(s, context, Capture);
    WinnerFires(e);
    if RefundsBookedCaptureAcrossPeriods(e) {
      OnlyRule(e, RefundOfBookedCaptureAcrossPeriods);
    }
  }

  /** Two classes are never assigned, and a line is unclassified exactly when nothing explains it. */
  lemma UnclassifiedIff(s: Movement, context: seq<Movement>)
    requires IdFunctional(context)
    ensures Decide(s, context).class_ !in {PartialCapture, FxRounding}
    ensures Decide(s, context).class_ == Unclassified <==>
            && !ExplainedByFees(s, context)
            && !ExplainedByChargeback(s, context)
            && !ExplainedByEarlierCapture(s, context)
  {
    FeeSplitIff(s, context);
    ChargebackReversedIff(s, context);
    CrossPeriodRefundIff(s, context);
    WinnerFires(Evidence(s, Related(s, context)));
  }

  /** What `classify` returns, record by record: each subject's own id, and the class its explanation among the
      context and all the subjects gives. */
  lemma ClassifiedMeans(subjects: seq<Movement>, context: seq<Movement>, i: nat)
    requires i < |subjects| && IdFunctional(context + subjects)
    ensures var s, all := subjects[i], context + subjects;
            var c := Classified(subjects, context)[i];
            && |Classified(subjects, context)| == |subjects| && c.lineId == s.id
            && c.verdict.class_ == if ExplainedByFees(s, all) then FeeSplit
                                   else if ExplainedByChargeback(s, all) then ChargebackReversed
                                   else if ExplainedByEarlierCapture(s, all) then CrossPeriodRefund
                                   else Unclassified
  {
    FeeSplitIff(subjects[i], context + subjects);
    ChargebackReversedIff(subjects[i], context + subjects);
    CrossPeriodRefundIff(subjects[i], context + subjects);
    UnclassifiedIff(subjects[i], context + subjects);
  }

  /** The rule recorded names the class, and the other way round. */
  lemma RuleNamesClass(s: Movement, context: seq<Movement>)
    ensures var v := Decide(s, context);
            && (v.class_ == ChargebackReversed <==> v.rule == ReversalOfBookedChargeback)
            && (v.class_ == CrossPeriodRefund <==> v.rule == RefundOfBookedCaptureAcrossPeriods)
            && (v.class_ == FeeSplit <==> v.rule == FeesDeductedFromACapture)
            && (v.class_ == Unclassified <==> v.rule == NoRuleMatched)
  {
    WinnerFires(Evidence(s, Related(s, context)));
  }

  /** What the deductions of a group are: they add up record by record, and a record deducts what a negative fee
      takes. */
  lemma {:induction false} DeductionsAddUp(a: seq<Movement>, b: seq<Movement>)
    ensures TotalDeductions(a + b) == TotalDeductions(a) + TotalDeductions(b)
    ensures TotalDeductions([]) == 0
    ensures forall m :: TotalDeductions([m]) == if m.kind == Some(Fee) && m.amount < 0 then -m.amount else 0
  {
    forall m ensures TotalDeductions([m]) == if m.kind == Some(Fee) && m.amount < 0 then -m.amount else 0 {
      DeductionOfOne(m);
    }
    if b == [] {
      assert a + b == a;
    } else {
      var n := |b| - 1;
      DeductionsAddUp(a, b[..n]);
      assert (a + b)[..|a + b| - 1] == a + b[..n];
    }
  }

  /** The group of an unmatched subject: every unmatched record of its order, once each, and nothing else. */
  lemma GroupIsUnmatchedOrder(s: Movement, context: seq<Movement>, m: Movement)
    requires IdFunctional(context) && s in context && s.reference.Some? && !s.matched
    ensures multiset(UnreconciledGroup(Evidence(s, Related(s, context))))[m] ==
            if m in context && m.reference == s.reference && m.currency == s.currency && !m.matched then 1 else 0
  {
    UnreconciledCounts(s, context, m);
  }

  // ----- the declared types ---------------------------------------------------------------------------------

  /** How a settlement file spells each type. */
  function Spelling(kind: Kind): string {
    match kind
    case Capture => "capture"
    case Fee => "fee"
    case Refund => "refund"
    case Chargeback => "chargeback"
    case ChargebackReversal => "chargeback_reversal"
    case AdjustmentKind => "adjustment"
  }

  /** A declared type is recognised exactly when it is one of the spellings, letter for letter. */
  lemma MovementTypeIff(declared: Option<string>, kind: Kind)
    ensures MovementType(declared) == Some(kind) <==> declared == Some(Spelling(kind))
  {
    assert "chargeback"[0] != "capture"[1] && |"chargeback"| != |"chargeback_reversal"|;
    assert "capture"[1] == 'a' && "chargeback"[1] == 'h' && "fee"[0] == 'f' && "refund"[0] == 'r';
    assert "adjustment"[0] == 'a' && "chargeback_reversal"[1] == 'h';
  }

  lemma {:induction false} DeductionsPositive(group: seq<Movement>)
    ensures TotalDeductions(group) >= 0
    ensures TotalDeductions(group) > 0 <==> HasDeduction(group)
  {
    if group != [] {
      var n := |group| - 1;
      DeductionsPositive(group[..n]);
      if HasDeduction(group[..n]) {
        var i :| 0 <= i < n && IsDeduction(group[..n][i]);
        assert IsDeduction(group[i]);
      }
      if i :| 0 <= i < |group| && IsDeduction(group[i]) {
        if i < n { assert IsDeduction(group[..n][i]); }
      }
    }
  }
}
