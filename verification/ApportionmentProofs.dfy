/** The arithmetic guarantees of the allocation: total, coverage, quota and order. */
module ApportionmentProofs {
  import opened Apportionment
  import opened Arithmetic

  // ----- sums -------------------------------------------------------------------------------

  lemma {:induction false} SumUpdate(xs: seq<int>, i: nat, v: int)
    requires i < |xs|
    ensures Sum(xs[i := v]) == Sum(xs) - xs[i] + v
  {
    var n := |xs| - 1;
    var ys := xs[i := v];
    if i < n {
      SumUpdate(xs[..n], i, v);
      assert ys[..n] == xs[..n][i := v];
    } else {
      assert ys[..n] == xs[..n];
    }
  }

  lemma {:induction false} SumBounds(xs: seq<int>, low: int, high: int)
    requires forall i :: 0 <= i < |xs| ==> low <= xs[i] <= high
    ensures |xs| * low <= Sum(xs) <= |xs| * high
  {
    if xs != [] {
      var n := |xs| - 1;
      SumBounds(xs[..n], low, high);
      OneMore(n, low);
      OneMore(n, high);
    }
  }

  lemma {:induction false} SumAdds(xs: seq<int>, ys: seq<int>, zs: seq<int>)
    requires |xs| == |ys| == |zs|
    requires forall i :: 0 <= i < |xs| ==> zs[i] == xs[i] + ys[i]
    ensures Sum(zs) == Sum(xs) + Sum(ys)
  {
    if xs != [] {
      var n := |xs| - 1;
      SumAdds(xs[..n], ys[..n], zs[..n]);
    }
  }

  lemma {:induction false} SumScales(xs: seq<int>, k: int, zs: seq<int>)
    requires |xs| == |zs| && forall i :: 0 <= i < |xs| ==> zs[i] == k * xs[i]
    ensures Sum(zs) == k * Sum(xs)
  {
    if xs != [] {
      var n := |xs| - 1;
      SumScales(xs[..n], k, zs[..n]);
    }
  }

  /** Pointwise at least, with the same total, means equal. */
  lemma {:induction false} SumSqueeze(xs: seq<int>, ys: seq<int>)
    requires |xs| == |ys| && forall i :: 0 <= i < |xs| ==> xs[i] <= ys[i]
    ensures Sum(xs) <= Sum(ys)
    ensures Sum(xs) == Sum(ys) ==> xs == ys
  {
    if xs != [] {
      var n := |xs| - 1;
      SumSqueeze(xs[..n], ys[..n]);
      if Sum(xs) == Sum(ys) {
        assert xs[..n] == ys[..n] && xs[n] == ys[n];
        assert xs == xs[..n] + [xs[n]] && ys == ys[..n] + [ys[n]];
      }
    }
  }

  // ----- the leftover is smaller than the number of entries ----------------------------------

  ghost predicate Sized(weights: seq<int>, instances: int) {
    weights != [] && Positive(weights) && Sum(weights) > 0 && instances >= |weights|
  }

  lemma DivisionExact(x: int, d: int)
    requires d > 0
    ensures x == d * (x / d) + x % d && 0 <= x % d < d
  {}

  lemma ShareSplits(weights: seq<int>, instances: int, i: nat)
    requires Sized(weights, instances) && i < |weights|
    ensures weights[i] * instances
            == Sum(weights) * Floors(weights, instances)[i] + Remainders(weights, instances)[i]
    ensures 0 <= Remainders(weights, instances)[i] < Sum(weights)
  {
    DivisionExact(weights[i] * instances, Sum(weights));
  }

  /** Exact shares: total times the leftover is the sum of the remainders. */
  lemma LeftoverIsRemainders(weights: seq<int>, instances: int)
    requires Sized(weights, instances)
    ensures Sum(weights) * Leftover(weights, instances) == Sum(Remainders(weights, instances))
  {
    var total, floors, rems := Sum(weights), Floors(weights, instances), Remainders(weights, instances);
    var scaled := seq(|weights|, i requires 0 <= i < |weights| => total * floors[i]);
    var shares := seq(|weights|, i requires 0 <= i < |weights| => instances * weights[i]);
    SumScales(floors, total, scaled);
    SumScales(weights, instances, shares);
    forall i | 0 <= i < |weights| ensures shares[i] == scaled[i] + rems[i] {
      ShareSplits(weights, instances, i);
    }
    SumAdds(scaled, rems, shares);
    Distribute(total, instances, Sum(floors));
  }

  lemma Distribute(t: int, a: int, b: int)
    ensures t * (a - b) == a * t - t * b
  {}

  /** Fewer units are left over than there are entries, so no entry gets two. */
  lemma LeftoverBounds(weights: seq<int>, instances: int)
    requires Sized(weights, instances)
    ensures 0 <= Leftover(weights, instances) < |weights|
  {
    var total, rems := Sum(weights), Remainders(weights, instances);
    LeftoverIsRemainders(weights, instances);
    forall i | 0 <= i < |weights| ensures 0 <= rems[i] <= total - 1 {
      ShareSplits(weights, instances, i);
    }
    SumBounds(rems, 0, total - 1);
    LeftoverFromProduct(total, Leftover(weights, instances), |weights|);
  }

  lemma LeftoverFromProduct(total: int, left: int, n: int)
    requires total > 0 && n > 0 && 0 <= total * left <= n * (total - 1)
    ensures 0 <= left < n
  {
    MulMonotone(total, n, left);
    MulMonotone(total, left, -1);
  }

  // ----- the largest-remainder pass ------------------------------------------------------------

  lemma {:induction false} UnitsTotal(floors: seq<int>, order: seq<nat>, given: nat)
    requires given <= |order| == |floors|
    requires forall p :: 0 <= p < |order| ==> order[p] < |floors|
    requires forall p, q :: 0 <= p < q < |order| ==> order[p] != order[q]
    ensures Sum(WithUnits(floors, order, given)) == Sum(floors) + given
  {
    if given == 0 {
      assert WithUnits(floors, order, 0) == floors;
    } else {
      UnitsTotal(floors, order, given - 1);
      var prev, i := WithUnits(floors, order, given - 1), order[given - 1];
      assert order[..given] == order[..given - 1] + [i];
      assert i !in order[..given - 1];
      assert WithUnits(floors, order, given) == prev[i := prev[i] + 1];
      SumUpdate(prev, i, prev[i] + 1);
    }
  }

  ghost predicate GetsUnit(weights: seq<int>, instances: int, i: int)
    requires Sized(weights, instances) && 0 <= i < |weights|
  {
    Hamilton(weights, instances)[i] == Floors(weights, instances)[i] + 1
  }

  /** Hamilton's method hands out exactly the instances asked for, one unit or none above each floor. */
  lemma HamiltonTotal(weights: seq<int>, instances: int)
    requires Sized(weights, instances)
    ensures var h := Hamilton(weights, instances);
            && |h| == |weights| && Sum(h) == instances
            && forall i :: 0 <= i < |weights| ==>
                 h[i] == Floors(weights, instances)[i] || h[i] == Floors(weights, instances)[i] + 1
  {
    LeftoverBounds(weights, instances);
    var order := Ranking(Remainders(weights, instances));
    UnitsTotal(Floors(weights, instances), order, Leftover(weights, instances));
  }

  /** Priority: a position outranked by a position without a unit has none either. */
  lemma UnitsGoByRank(weights: seq<int>, instances: int, i: nat, j: nat)
    requires Sized(weights, instances) && i < |weights| && j < |weights|
    requires Before(Remainders(weights, instances), i, j)
    ensures GetsUnit(weights, instances, j) ==> GetsUnit(weights, instances, i)
  {
    LeftoverBounds(weights, instances);
    var rems := Remainders(weights, instances);
    var order, given := Ranking(rems), Leftover(weights, instances);
    if j in order[..given] {
      var q :| 0 <= q < given && order[q] == j;
      RankingCovers(rems, i);
      var p :| 0 <= p < |order| && order[p] == i;
      assert p <= q;
      assert order[..given][p] == i;
    }
  }

  lemma RankingCovers(rems: seq<int>, i: nat)
    requires i < |rems|
    ensures exists p :: 0 <= p < |Ranking(rems)| && Ranking(rems)[p] == i
  {
    var order := RankingOf(rems, |rems|);
    assert i in order;
    assert Ranking(rems) == order;
  }

  /** A count is strictly within one of the exact share `instances * weight / total`. */
  ghost predicate WithinOne(count: int, weights: seq<int>, instances: int, i: int)
    requires 0 <= i < |weights|
  {
    -Sum(weights) < Sum(weights) * count - weights[i] * instances < Sum(weights)
  }

  /** Quota for the largest-remainder pass: floor or ceiling of the exact share. */
  lemma HamiltonQuota(weights: seq<int>, instances: int, i: nat)
    requires Sized(weights, instances) && i < |weights|
    ensures WithinOne(Hamilton(weights, instances)[i], weights, instances, i)
    ensures Remainders(weights, instances)[i] == 0 ==>
              Sum(weights) * Hamilton(weights, instances)[i] == weights[i] * instances
  {
    HamiltonTotal(weights, instances);
    ShareSplits(weights, instances, i);
    if Remainders(weights, instances)[i] == 0 {
      NoUnitWithoutRemainder(weights, instances, i);
    }
    QuotaArithmetic(Sum(weights), weights[i] * instances, Floors(weights, instances)[i],
                    Remainders(weights, instances)[i], Hamilton(weights, instances)[i]);
  }

  lemma QuotaArithmetic(t: int, x: int, q: int, r: int, h: int)
    requires x == t * q + r && 0 <= r < t && (h == q || (h == q + 1 && r > 0))
    ensures -t < t * h - x < t
    ensures r == 0 ==> t * h == x
  {
    if h == q + 1 {
      assert t * h == t * q + t;
    }
  }

  /** The total weight for every position with an extra unit, zero for the others. */
  ghost function UnitWorth(weights: seq<int>, instances: int): (u: seq<int>)
    requires Sized(weights, instances)
    ensures |u| == |weights|
  {
    seq(|weights|, k requires 0 <= k < |weights| =>
      if GetsUnit(weights, instances, k) then Sum(weights) else 0)
  }

  lemma UnitWorthTotal(weights: seq<int>, instances: int)
    requires Sized(weights, instances)
    ensures Sum(UnitWorth(weights, instances)) == Sum(Remainders(weights, instances))
  {
    HamiltonTotal(weights, instances);
    LeftoverIsRemainders(weights, instances);
    var floors, h := Floors(weights, instances), Hamilton(weights, instances);
    var units := UnitsGiven(weights, instances);
    SumAdds(floors, units, h);
    forall k | 0 <= k < |weights| ensures UnitWorth(weights, instances)[k] == Sum(weights) * units[k] {
      WorthOfUnit(weights, instances, k);
    }
    SumScales(units, Sum(weights), UnitWorth(weights, instances));
  }

  ghost function UnitsGiven(weights: seq<int>, instances: int): (u: seq<int>)
    requires Sized(weights, instances)
    ensures |u| == |weights|
    ensures forall k :: 0 <= k < |u| ==> u[k] == if GetsUnit(weights, instances, k) then 1 else 0
    ensures forall k :: 0 <= k < |u| ==> Hamilton(weights, instances)[k] == Floors(weights, instances)[k] + u[k]
  {
    HamiltonTotal(weights, instances);
    seq(|weights|, k requires 0 <= k < |weights| => if GetsUnit(weights, instances, k) then 1 else 0)
  }

  lemma WorthOfUnit(weights: seq<int>, instances: int, k: nat)
    requires Sized(weights, instances) && k < |weights|
    ensures UnitWorth(weights, instances)[k] == Sum(weights) * UnitsGiven(weights, instances)[k]
  {
    TimesUnit(Sum(weights), GetsUnit(weights, instances, k));
  }

  lemma TimesUnit(x: int, given: bool)
    ensures x * (if given then 1 else 0) == if given then x else 0
  {}

  /** A zero remainder never earns a unit: it would have to share the leftover with every positive
      remainder, and those alone are worth less than that. */
  lemma NoUnitWithoutRemainder(weights: seq<int>, instances: int, i: nat)
    requires Sized(weights, instances) && i < |weights|
    requires Remainders(weights, instances)[i] == 0
    ensures !GetsUnit(weights, instances, i)
  {
    if GetsUnit(weights, instances, i) {
      var rems := Remainders(weights, instances);
      UnitWorthTotal(weights, instances);
      forall k | 0 <= k < |weights| ensures rems[k] <= UnitWorth(weights, instances)[k] {
        ShareSplits(weights, instances, k);
        if rems[k] > 0 {
          UnitsGoByRank(weights, instances, k, i);
        }
      }
      SumSqueeze(rems, UnitWorth(weights, instances));
      assert false;
    }
  }

  lemma FloorsMonotone(x: int, y: int, d: int)
    requires d > 0 && x >= y
    ensures x / d >= y / d
    ensures x / d == y / d ==> x % d >= y % d
  {
    DivisionExact(x, d);
    DivisionExact(y, d);
    MulMonotone(d, x / d + 1, y / d);
  }

  lemma HamiltonOrderAt(weights: seq<int>, instances: int, i: nat, j: nat)
    requires Sized(weights, instances) && i < j < |weights| && weights[i] >= weights[j]
    ensures Hamilton(weights, instances)[i] >= Hamilton(weights, instances)[j]
  {
    HamiltonTotal(weights, instances);
    MulMonotone(instances, weights[j], weights[i]);
    FloorsMonotone(weights[i] * instances, weights[j] * instances, Sum(weights));
    if Floors(weights, instances)[i] == Floors(weights, instances)[j] {
      UnitsGoByRank(weights, instances, i, j);
    }
  }

  /** Order: on weakly decreasing weights the largest-remainder counts are weakly decreasing. */
  lemma HamiltonKeepsOrder(weights: seq<int>, instances: int)
    requires Sized(weights, instances) && WeaklyDecreasing(weights)
    ensures WeaklyDecreasing(Hamilton(weights, instances))
  {
    HamiltonTotal(weights, instances);
    var h := Hamilton(weights, instances);
    forall i, j | 0 <= i < j < |h| ensures h[i] >= h[j] {
      HamiltonOrderAt(weights, instances, i, j);
    }
  }

  // ----- the coverage pass -------------------------------------------------------------------

  /** Units each position has given away after the first `m` visits. */
  ghost function Given(base: seq<int>, m: nat): (g: seq<int>)
    requires m <= |base|
    ensures |g| == |base|
  {
    if m == 0 then seq(|base|, _ => 0)
    else
      var prev, list := Given(base, m - 1), Covered(base, m - 1);
      if list[m - 1] == 0 then prev[Donor(list) := prev[Donor(list)] + 1] else prev
  }

  /** How many of the first `m` positions started at zero. */
  ghost function ZerosBefore(base: seq<int>, m: nat): int
    requires m <= |base|
  {
    if m == 0 then 0 else ZerosBefore(base, m - 1) + if base[m - 1] == 0 then 1 else 0
  }

  ghost predicate Coverable(base: seq<int>) {
    base != [] && Sum(base) >= |base| && forall i :: 0 <= i < |base| ==> base[i] >= 0
  }

  /** Where a position stands after `m` visits: raised to one if it was zero and visited, less what it
      gave. */
  ghost predicate Ledger(base: seq<int>, m: nat, i: int)
    requires m <= |base| && 0 <= i < |base|
  {
    var list, given := Covered(base, m), Given(base, m);
    && list[i] == (if base[i] == 0 && i < m then 1 else base[i]) - given[i]
    && given[i] >= 0 && list[i] >= 0
    && (given[i] > 0 ==> base[i] >= 2 && list[i] >= 1)
    && (i < m ==> list[i] >= 1)
  }

  lemma {:induction false} SomeoneHoldsTwo(xs: seq<int>, k: nat)
    requires k < |xs| && xs[k] == 0 && Sum(xs) >= |xs|
    ensures xs[Donor(xs)] >= 2
  {
    if xs[Donor(xs)] < 2 {
      var ys := xs[k := 1];
      SumUpdate(xs, k, 1);
      SumAtMostLength(ys);
    }
  }

  lemma {:induction false} SumAtMostLength(xs: seq<int>)
    requires forall i :: 0 <= i < |xs| ==> xs[i] <= 1
    ensures Sum(xs) <= |xs|
  {
    if xs != [] {
      SumAtMostLength(xs[..|xs| - 1]);
    }
  }

  ghost predicate LedgerBalances(base: seq<int>, m: nat)
    requires m <= |base|
  {
    && Sum(Covered(base, m)) == Sum(base)
    && Sum(Given(base, m)) == ZerosBefore(base, m)
    && forall i :: 0 <= i < |base| ==> Ledger(base, m, i)
  }

  /** The list and the donations after a visit that finds a zero: its donor holds at least two. */
  lemma VisitZeroStep(base: seq<int>, m: nat) returns (d: nat)
    requires Coverable(base) && 0 < m <= |base| && LedgerBalances(base, m - 1)
    requires Covered(base, m - 1)[m - 1] == 0
    ensures var list, given := Covered(base, m - 1), Given(base, m - 1);
            && d < |base| && d != m - 1 && list[d] >= 2
            && Covered(base, m) == list[d := list[d] - 1][m - 1 := 1]
            && Given(base, m) == given[d := given[d] + 1]
  {
    var list := Covered(base, m - 1);
    SomeoneHoldsTwo(list, m - 1);
    d := Donor(list);
    VisitAtZero(base, m);
  }

  lemma VisitAtZero(base: seq<int>, m: nat)
    requires base != [] && 0 < m <= |base| && Covered(base, m - 1)[m - 1] == 0
    ensures var list, given := Covered(base, m - 1), Given(base, m - 1);
            && Covered(base, m) == list[Donor(list) := list[Donor(list)] - 1][m - 1 := 1]
            && Given(base, m) == given[Donor(list) := given[Donor(list)] + 1]
  {}

  lemma VisitKeepsTotal(base: seq<int>, m: nat)
    requires Coverable(base) && 0 < m <= |base| && LedgerBalances(base, m - 1)
    requires Covered(base, m - 1)[m - 1] == 0
    ensures Sum(Covered(base, m)) == Sum(base)
  {
    var d := VisitZeroStep(base, m);
    MoveUnit(Covered(base, m - 1), d, m - 1);
  }

  lemma VisitCountsDonation(base: seq<int>, m: nat)
    requires Coverable(base) && 0 < m <= |base| && LedgerBalances(base, m - 1)
    requires Covered(base, m - 1)[m - 1] == 0
    ensures Sum(Given(base, m)) == ZerosBefore(base, m)
  {
    var given := Given(base, m - 1);
    var d := VisitZeroStep(base, m);
    SumUpdate(given, d, given[d] + 1);
    ZeroWasThere(base, m);
    ZeroCounts(base, m);
  }

  lemma ZeroCounts(base: seq<int>, m: nat)
    requires 0 < m <= |base| && base[m - 1] == 0
    ensures ZerosBefore(base, m) == ZerosBefore(base, m - 1) + 1
  {}

  lemma ZeroWasThere(base: seq<int>, m: nat)
    requires 0 < m <= |base| && Ledger(base, m - 1, m - 1) && Covered(base, m - 1)[m - 1] == 0
    ensures base[m - 1] == 0
  {}

  lemma MoveUnit(list: seq<int>, d: nat, k: nat)
    requires d < |list| && k < |list| && d != k && list[k] == 0
    ensures Sum(list[d := list[d] - 1][k := 1]) == Sum(list)
  {
    SumUpdate(list, d, list[d] - 1);
    SumUpdate(list[d := list[d] - 1], k, 1);
  }

  lemma VisitZero(base: seq<int>, m: nat)
    requires Coverable(base) && 0 < m <= |base| && LedgerBalances(base, m - 1)
    requires Covered(base, m - 1)[m - 1] == 0
    ensures LedgerBalances(base, m)
  {
    VisitKeepsTotal(base, m);
    VisitCountsDonation(base, m);
    var d := VisitZeroStep(base, m);
    assert Ledger(base, m - 1, m - 1);
    forall i | 0 <= i < |base| ensures Ledger(base, m, i) {
      assert Ledger(base, m - 1, i);
    }
  }

  lemma VisitNonZero(base: seq<int>, m: nat)
    requires 0 < m <= |base| && LedgerBalances(base, m - 1)
    requires Covered(base, m - 1)[m - 1] != 0
    ensures LedgerBalances(base, m)
  {
    assert Ledger(base, m - 1, m - 1);
    assert Covered(base, m) == Covered(base, m - 1) && Given(base, m) == Given(base, m - 1);
    forall i | 0 <= i < |base| ensures Ledger(base, m, i) {
      assert Ledger(base, m - 1, i);
    }
  }

  /** Coverage never strands a position, never creates or loses a unit, and the list mutated while it
      is enumerated still has a donor holding two whenever one is needed. */
  lemma {:induction false} CoverageLedger(base: seq<int>, m: nat)
    requires Coverable(base) && m <= |base|
    ensures LedgerBalances(base, m)
  {
    if m == 0 {
      SumBounds(Given(base, 0), 0, 0);
    } else {
      CoverageLedger(base, m - 1);
      if Covered(base, m - 1)[m - 1] == 0 {
        VisitZero(base, m);
      } else {
        VisitNonZero(base, m);
      }
    }
  }

  lemma HamiltonCoverable(weights: seq<int>, instances: int)
    requires Sized(weights, instances)
    ensures Coverable(Hamilton(weights, instances))
  {
    HamiltonTotal(weights, instances);
    forall i | 0 <= i < |weights| ensures Hamilton(weights, instances)[i] >= 0 {
      HamiltonNonNegative(weights, instances, i);
    }
  }

  lemma HamiltonNonNegative(weights: seq<int>, instances: int, i: nat)
    requires Sized(weights, instances) && i < |weights|
    ensures |Hamilton(weights, instances)| == |weights| && Hamilton(weights, instances)[i] >= 0
  {
    HamiltonTotal(weights, instances);
    ShareNonNegative(weights, instances, i);
  }

  lemma ShareNonNegative(weights: seq<int>, instances: int, i: nat)
    requires Sized(weights, instances) && i < |weights|
    ensures Floors(weights, instances)[i] >= 0
  {
    MulMonotone(instances, 0, weights[i]);
    FloorNonNegative(weights[i] * instances, Sum(weights));
  }

  lemma FloorNonNegative(x: int, d: int)
    requires d > 0 && x >= 0
    ensures x / d >= 0
  {}

  /** Total and coverage: the counts add up to exactly the size, and every entry appears. */
  lemma AllocationTotalAndCoverage(weights: seq<int>, instances: int)
    requires Sized(weights, instances)
    ensures var a := Allocation(weights, instances);
            && |a| == |weights| && Sum(a) == instances
            && forall i :: 0 <= i < |a| ==> a[i] >= 1
  {
    HamiltonTotal(weights, instances);
    HamiltonCoverable(weights, instances);
    var base := Hamilton(weights, instances);
    CoverageLedger(base, |base|);
    forall i | 0 <= i < |base| ensures Covered(base, |base|)[i] >= 1 {
      assert Ledger(base, |base|, i);
    }
  }

  /** Quota: a position that gives nothing ends strictly within one of its exact share, and together
      the donors give exactly one unit for each position raised from zero. */
  lemma AllocationQuota(weights: seq<int>, instances: int)
    requires Sized(weights, instances)
    ensures var h := Hamilton(weights, instances);
            var given := Given(h, |h|);
            && |h| == |weights| && Sum(given) == ZerosBefore(h, |h|)
            && forall i :: 0 <= i < |h| ==>
                 && given[i] >= 0
                 && Allocation(weights, instances)[i] == (if h[i] == 0 then 1 else h[i]) - given[i]
                 && (given[i] == 0 ==> WithinOne(Allocation(weights, instances)[i], weights, instances, i))
  {
    HamiltonTotal(weights, instances);
    HamiltonCoverable(weights, instances);
    var h := Hamilton(weights, instances);
    CoverageLedger(h, |h|);
    forall i | 0 <= i < |h|
      ensures && Given(h, |h|)[i] >= 0
              && Allocation(weights, instances)[i] == (if h[i] == 0 then 1 else h[i]) - Given(h, |h|)[i]
              && (Given(h, |h|)[i] == 0 ==> WithinOne(Allocation(weights, instances)[i], weights, instances, i))
    {
      assert Ledger(h, |h|, i);
      HamiltonQuota(weights, instances, i);
      if h[i] == 0 {
        RaisedIsWithinOne(Sum(weights), weights[i], instances);
      }
    }
  }

  /** A zero count within one of a positive share is within one of it after being raised to one. */
  lemma RaisedIsWithinOne(t: int, w: int, n: int)
    requires w >= 1 && n >= 1
    ensures t * 0 - w * n > -t ==> -t < t * 1 - w * n < t
  {
    MulMonotone(n, 1, w);
  }

  /** At sizes of at least the total weight the coverage pass never acts: every count is the floor or
      the ceiling of its exact share, and at a multiple of the total it is the exact share. */
  lemma LargeSizesAreExactHamilton(weights: seq<int>, instances: int)
    requires Sized(weights, instances) && instances >= Sum(weights)
    ensures Allocation(weights, instances) == Hamilton(weights, instances)
    ensures forall i :: 0 <= i < |weights| ==>
              WithinOne(Allocation(weights, instances)[i], weights, instances, i)
    ensures instances % Sum(weights) == 0 ==>
              forall i :: 0 <= i < |weights| ==>
                Allocation(weights, instances)[i] == weights[i] * (instances / Sum(weights))
  {
    HamiltonTotal(weights, instances);
    var h := Hamilton(weights, instances);
    forall i | 0 <= i < |weights| ensures h[i] >= 1 {
      FullShare(weights, instances, i);
    }
    CoverageIdle(h, |h|);
    forall i | 0 <= i < |weights| ensures WithinOne(h[i], weights, instances, i) {
      HamiltonQuota(weights, instances, i);
    }
    if instances % Sum(weights) == 0 {
      forall i | 0 <= i < |weights| ensures h[i] == weights[i] * (instances / Sum(weights)) {
        MultipleIsExact(weights[i], instances, Sum(weights));
        HamiltonQuota(weights, instances, i);
        SameProduct(Sum(weights), h[i], weights[i] * (instances / Sum(weights)));
      }
    }
  }

  lemma FullShare(weights: seq<int>, instances: int, i: nat)
    requires Sized(weights, instances) && instances >= Sum(weights) && i < |weights|
    ensures Floors(weights, instances)[i] >= 1
  {
    MulMonotone(instances, 1, weights[i]);
    FloorsMonotone(weights[i] * instances, Sum(weights), Sum(weights));
    SelfQuotient(Sum(weights));
  }

  lemma SelfQuotient(d: int)
    requires d > 0
    ensures d / d == 1
  {}

  lemma SameProduct(t: int, x: int, y: int)
    requires t > 0 && t * x == t * y
    ensures x == y
  {}

  lemma MultipleIsExact(w: int, n: int, total: int)
    requires total > 0 && n % total == 0
    ensures w * n == total * (w * (n / total)) && w * n % total == 0
  {
    DivisionExact(n, total);
    Rotate(w, total, n / total);
    RemainderOfMultiple(total, w * (n / total));
  }

  lemma Rotate(a: int, b: int, c: int)
    ensures a * (b * c) == b * (a * c)
  {}

  lemma RemainderOfMultiple(total: int, q: int)
    requires total > 0
    ensures total * q % total == 0
  {
    var x := total * q;
    DivisionExact(x, total);
    var d := q - x / total;
    assert total * d == x % total by { Distribute(total, q, x / total); }
    MulMonotone(total, 1, d);
    MulMonotone(total, d, -1);
  }

  lemma {:induction false} CoverageIdle(base: seq<int>, m: nat)
    requires m <= |base| && forall i :: 0 <= i < |base| ==> base[i] >= 1
    ensures Covered(base, m) == base
  {
    if m > 0 {
      CoverageIdle(base, m - 1);
    }
  }
}
