/** The residual classifier: a decision over the settlement lines that share a residual's order.

    Amounts are exact: an integer number of ten-thousandths, the smallest unit a stored amount has. */
module Engine {
  import opened Wrappers

  type LineId = nat

  datatype Kind = Capture | Fee | Refund | Chargeback | ChargebackReversal | AdjustmentKind

  datatype Date = Date(year: int, month: int, day: int)

  /** One settlement line as the classifier sees it. */
  datatype Movement = Movement(
    id: LineId, reference: Option<string>, kind: Option<Kind>, amount: int, currency: string,
    valueDate: Date, matched: bool)

  datatype Rule = ReversalOfBookedChargeback | RefundOfBookedCaptureAcrossPeriods
                | FeesDeductedFromACapture | NoRuleMatched

  datatype Class = PartialCapture | FeeSplit | ChargebackReversed | FxRounding
                 | CrossPeriodRefund | Unclassified

  datatype Verdict = Verdict(class_: Class, rule: Rule)

  datatype Classification = Classification(lineId: LineId, verdict: Verdict)

  /** A residual and every other movement that shares its reference and currency. */
  datatype Evidence = Evidence(subject: Movement, related: seq<Movement>)

  /** `MovementType(declared)`: exact spellings only, anything else is no evidence. */
  function MovementType(declared: Option<string>): Option<Kind> {
    match declared
    case None => None
    case Some(s) =>
      if s == "capture" then Some(Capture)
      else if s == "fee" then Some(Fee)
      else if s == "refund" then Some(Refund)
      else if s == "chargeback" then Some(Chargeback)
      else if s == "chargeback_reversal" then Some(ChargebackReversal)
      else if s == "adjustment" then Some(AdjustmentKind)
      else None
  }

  /** The calendar month of a business date. */
  function AccountingPeriod(d: Date): (int, int) {
    (d.year, d.month)
  }

  function Filter<T>(keep: T -> bool, ms: seq<T>): seq<T> {
    if ms == [] then []
    else
      var init, last := Filter(keep, ms[..|ms| - 1]), ms[|ms| - 1];
      if keep(last) then init + [last] else init
  }

  // ----- what the rules read --------------------------------------------------------------

  function BookedOffsetsOfType(e: Evidence, kind: Kind): seq<Movement> {
    Filter((m: Movement) => m.matched && m.kind == Some(kind) && m.amount == -e.subject.amount,
           e.related)
  }

  predicate AnyBookedOffset(e: Evidence) {
    exists i :: 0 <= i < |e.related| && e.related[i].matched && e.related[i].amount == -e.subject.amount
  }

  function UnreconciledGroup(e: Evidence): seq<Movement> {
    [e.subject] + Filter((m: Movement) => !m.matched, e.related)
  }

  predicate HasKind(group: seq<Movement>, kind: Kind) {
    exists i :: 0 <= i < |group| && group[i].kind == Some(kind)
  }

  predicate IsInflow(m: Movement) {
    m.kind == Some(Capture) && m.amount > 0
  }

  predicate IsDeduction(m: Movement) {
    m.kind == Some(Fee) && m.amount < 0
  }

  /** `sum(deductions)`. */
  function TotalDeductions(group: seq<Movement>): int {
    if group == [] then 0
    else
      var last := group[|group| - 1];
      TotalDeductions(group[..|group| - 1]) + if IsDeduction(last) then -last.amount else 0
  }

  predicate HasDeduction(group: seq<Movement>) {
    exists i :: 0 <= i < |group| && IsDeduction(group[i])
  }

  /** `inflows` is not empty and `sum(deductions) < max(inflows)`. */
  predicate DeductionsBelowLargestInflow(group: seq<Movement>) {
    exists i :: 0 <= i < |group| && IsInflow(group[i]) && TotalDeductions(group) < LargestInflow(group)
  }

  /** `max(inflows)`, or zero where there is none; every inflow is positive. */
  function LargestInflow(group: seq<Movement>): int {
    if group == [] then 0
    else
      var best, last := LargestInflow(group[..|group| - 1]), group[|group| - 1];
      if IsInflow(last) && last.amount > best then last.amount else best
  }

  // ----- the rules ------------------------------------------------------------------------

  predicate ReversesBookedChargeback(e: Evidence) {
    && e.subject.kind == Some(ChargebackReversal)
    && e.subject.amount > 0
    && |BookedOffsetsOfType(e, Chargeback)| == 1
  }

  predicate RefundsBookedCaptureAcrossPeriods(e: Evidence) {
    && e.subject.kind == Some(Refund)
    && e.subject.amount < 0
    && var offsets := BookedOffsetsOfType(e, Capture);
       |offsets| == 1
       && AccountingPeriod(offsets[0].valueDate) != AccountingPeriod(e.subject.valueDate)
  }

  predicate SplitsFeesFromACapture(e: Evidence) {
    && e.subject.kind in {Some(Capture), Some(Fee)}
    && !AnyBookedOffset(e)
    && var group := UnreconciledGroup(e);
       && HasKind(group, Capture) && HasKind(group, Fee)
       && HasDeduction(group)
       && DeductionsBelowLargestInflow(group)
  }

  predicate RuleHolds(rule: Rule, e: Evidence) {
    match rule
    case ReversalOfBookedChargeback => ReversesBookedChargeback(e)
    case RefundOfBookedCaptureAcrossPeriods => RefundsBookedCaptureAcrossPeriods(e)
    case FeesDeductedFromACapture => SplitsFeesFromACapture(e)
    case NoRuleMatched => false
  }

  const RULE_PRECEDENCE: seq<Rule> :=
    [ReversalOfBookedChargeback, RefundOfBookedCaptureAcrossPeriods, FeesDeductedFromACapture]

  function RuleClassification(rule: Rule): Class {
    match rule
    case ReversalOfBookedChargeback => ChargebackReversed
    case RefundOfBookedCaptureAcrossPeriods => CrossPeriodRefund
    case FeesDeductedFromACapture => FeeSplit
    case NoRuleMatched => Unclassified
  }

  /** Every rule is evaluated; the winner is the first in precedence order that fired. */
  function Judge(e: Evidence): Verdict {
    var fired := Filter((r: Rule) => RuleHolds(r, e), RULE_PRECEDENCE);
    var winner := if fired == [] then NoRuleMatched else fired[0];
    Verdict(RuleClassification(winner), winner)
  }

  // ----- relating a subject to its context --------------------------------------------------

  predicate HasId(ms: seq<Movement>, id: LineId) {
    exists i :: 0 <= i < |ms| && ms[i].id == id
  }

  /** The context with every repeated id dropped, first occurrence kept. */
  function FirstOccurrences(ms: seq<Movement>): seq<Movement> {
    if ms == [] then []
    else
      var init, last := FirstOccurrences(ms[..|ms| - 1]), ms[|ms| - 1];
      if HasId(ms[..|ms| - 1], last.id) then init else init + [last]
  }

  predicate SameOrder(m: Movement, reference: string, currency: string) {
    m.reference == Some(reference) && m.currency == currency
  }

  /** The plain definition of a subject's related movements. A missing reference relates nothing. */
  function Related(s: Movement, context: seq<Movement>): seq<Movement> {
    if s.reference.None? then []
    else
      Filter((m: Movement) => m.id != s.id,
        Filter((m: Movement) => SameOrder(m, s.reference.value, s.currency), FirstOccurrences(context)))
  }

  /** The decision for one subject given everything that might explain it. */
  function Decide(s: Movement, context: seq<Movement>): Verdict {
    Judge(Evidence(s, Related(s, context)))
  }

  // ----- the code: an index built in one pass ----------------------------------------------

  type Key = (string, string)

  function Group(byKey: map<Key, seq<Movement>>, key: Key): seq<Movement> {
    if key in byKey then byKey[key] else []
  }

  /** The first loop of `_relate`: index the context by order, dropping repeated ids and records without
      a reference. */
  method BuildIndex(context: seq<Movement>) returns (byKey: map<Key, seq<Movement>>)
    ensures forall r, c :: Group(byKey, (r, c))
                == Filter((m: Movement) => SameOrder(m, r, c), FirstOccurrences(context))
  {
    byKey := map[];
    var seen: set<LineId> := {};
    var n := 0;
    while n < |context|
      invariant 0 <= n <= |context|
      invariant forall id :: id in seen <==> HasId(context[..n], id)
      invariant forall r, c :: Group(byKey, (r, c))
                  == Filter((m: Movement) => SameOrder(m, r, c), FirstOccurrences(context[..n]))
    {
      var movement := context[n];
      assert context[..n + 1][..n] == context[..n];
      if movement.id !in seen {
        seen := seen + {movement.id};
        ghost var before := FirstOccurrences(context[..n]);
        assert FirstOccurrences(context[..n + 1]) == before + [movement];
        assert (before + [movement])[..|before|] == before;
        if movement.reference.Some? {
          var key := (movement.reference.value, movement.currency);
          byKey := byKey[key := Group(byKey, key) + [movement]];
        }
      }
      n := n + 1;
    }
    assert context[..n] == context;
  }

  /** `_relate`: the keyed, deduplicated index agrees with the plain definition for every subject. */
  method Relate(subjects: seq<Movement>, context: seq<Movement>) returns (evidence: seq<Evidence>)
    ensures |evidence| == |subjects|
    ensures forall i :: 0 <= i < |subjects| ==>
              evidence[i] == Evidence(subjects[i], Related(subjects[i], context))
  {
    var byKey := BuildIndex(context);
    evidence := [];
    for i := 0 to |subjects|
      invariant |evidence| == i
      invariant forall k :: 0 <= k < i ==>
                  evidence[k] == Evidence(subjects[k], Related(subjects[k], context))
    {
      var subject := subjects[i];
      var related := [];
      if subject.reference.Some? {
        var candidates := Group(byKey, (subject.reference.value, subject.currency));
        related := Filter((m: Movement) => m.id != subject.id, candidates);
      }
      evidence := evidence + [Evidence(subject, related)];
    }
  }

  /** What `classify` returns: subjects are folded into the context, output in subject order. */
  function Classified(subjects: seq<Movement>, context: seq<Movement>): seq<Classification> {
    seq(|subjects|, i requires 0 <= i < |subjects| =>
      Classification(subjects[i].id, Decide(subjects[i], context + subjects)))
  }

  method Classify(subjects: seq<Movement>, context: seq<Movement>)
    returns (results: seq<Classification>)
    ensures results == Classified(subjects, context)
  {
    var evidence := Relate(subjects, context + subjects);
    results := [];
    for i := 0 to |evidence|
      invariant |results| == i
      invariant forall k :: 0 <= k < i ==> results[k] == Classified(subjects, context)[k]
    {
      var e := evidence[i];
      results := results + [Classification(e.subject.id, Judge(e))];
    }
  }
}
