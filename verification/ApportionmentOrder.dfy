/** When the finished counts are weakly decreasing: exactly, for any weights, and always for the
    catalogue's own. */
module ApportionmentOrder {
  import opened Apportionment
  import opened ApportionmentProofs

  /** What a position holds above level `c`. */
  ghost function Excess(base: seq<int>, c: int): (e: seq<int>)
    ensures |e| == |base|
  {
    seq(|base|, i requires 0 <= i < |base| => if base[i] > c then base[i] - c else 0)
  }

  /** A donor is never more than one below any other position, and never below an earlier one. */
  ghost predicate Drained(base: seq<int>, m: nat)
    requires m <= |base|
  {
    forall i, j :: 0 <= i < |base| && 0 <= j < |base| ==> DrainedAt(Covered(base, m), Given(base, m), i, j)
  }

  ghost predicate DrainedAt(list: seq<int>, given: seq<int>, i: int, j: int)
    requires 0 <= i < |list| == |given| && 0 <= j < |list|
  {
    given[i] > 0 ==> list[j] <= list[i] + 1 && (j < i ==> list[j] <= list[i])
  }

  /** Taking the unit from the earliest largest position keeps the donors drained. */
  lemma DrainedMove(list: seq<int>, d: nat, k: nat, i: nat, j: nat)
    requires d < |list| && k < |list| && i < |list| && j < |list|
    requires d == Donor(list) && d != k && i != k && list[k] == 0 && list[d] >= 2
    requires i != d ==> list[i] >= 1 && list[j] <= list[i] + 1 && (j < i ==> list[j] <= list[i])
    ensures var after := list[d := list[d] - 1][k := 1];
            after[j] <= after[i] + 1 && (j < i ==> after[j] <= after[i])
  {}

  lemma DrainedStep(list: seq<int>, given: seq<int>, d: nat, k: nat, i: nat, j: nat)
    requires d < |list| == |given| && k < |list| && i < |list| && j < |list|
    requires d == Donor(list) && d != k && list[k] == 0 && list[d] >= 2 && given[k] == 0
    requires given[i] > 0 ==> list[i] >= 1
    requires DrainedAt(list, given, i, j)
    ensures DrainedAt(list[d := list[d] - 1][k := 1], given[d := given[d] + 1], i, j)
  {
    if i != k && (i == d || given[i] > 0) {
      DrainedMove(list, d, k, i, j);
    }
  }

  lemma DonorIs(list: seq<int>, d: nat, after: seq<int>, k: nat)
    requires list != [] && d < |list| && k < |list| && d != k && list[k] == 0 && list[d] >= 2
    requires after == Visit(list, k)
    requires after == list[d := list[d] - 1][k := 1]
    ensures d == Donor(list)
  {
    assert after[d] == list[d] - 1;
  }

  lemma LedgerAt(base: seq<int>, m: nat, i: nat)
    requires 0 < m <= |base| && i < |base| && Ledger(base, m - 1, i)
    ensures Given(base, m - 1)[i] > 0 ==> Covered(base, m - 1)[i] >= 1
    ensures Covered(base, m - 1)[i] == 0 ==> Given(base, m - 1)[i] == 0
  {}

  lemma DrainedMoves(list: seq<int>, given: seq<int>, d: nat, k: nat, after: seq<int>, givenAfter: seq<int>)
    requires d < |list| == |given| && k < |list|
    requires d == Donor(list) && d != k && list[k] == 0 && list[d] >= 2 && given[k] == 0
    requires DonorsHold(list, given)
    requires forall i, j :: 0 <= i < |list| && 0 <= j < |list| ==> DrainedAt(list, given, i, j)
    requires after == list[d := list[d] - 1][k := 1] && givenAfter == given[d := given[d] + 1]
    ensures forall i, j :: 0 <= i < |list| && 0 <= j < |list| ==> DrainedAt(after, givenAfter, i, j)
  {
    forall i: nat, j: nat | i < |list| && j < |list| ensures DrainedAt(after, givenAfter, i, j) {
      DrainedStep(list, given, d, k, i, j);
    }
  }

  /** Whoever has given still holds something. */
  ghost predicate DonorsHold(list: seq<int>, given: seq<int>) {
    |list| == |given| && forall i :: 0 <= i < |list| && given[i] > 0 ==> list[i] >= 1
  }

  lemma DonorsHoldSome(base: seq<int>, m: nat)
    requires 0 < m <= |base| && LedgerBalances(base, m - 1)
    ensures DonorsHold(Covered(base, m - 1), Given(base, m - 1))
    ensures Covered(base, m - 1)[m - 1] == 0 ==> Given(base, m - 1)[m - 1] == 0
  {
    var list, given := Covered(base, m - 1), Given(base, m - 1);
    forall i | 0 <= i < |base| && given[i] > 0 ensures list[i] >= 1 {
      LedgerAt(base, m, i);
    }
    LedgerAt(base, m, m - 1);
  }

  /** A visit that finds a zero moves one unit from the donor, which is another position holding two. */
  ghost predicate MovesUnit(list: seq<int>, given: seq<int>, k: nat, after: seq<int>, givenAfter: seq<int>) {
    && list != [] && |list| == |given| && k < |list| && list[k] == 0
    && Donor(list) != k && list[Donor(list)] >= 2
    && after == list[Donor(list) := list[Donor(list)] - 1][k := 1]
    && givenAfter == given[Donor(list) := given[Donor(list)] + 1]
  }

  lemma VisitMovesUnit(base: seq<int>, m: nat)
    requires Coverable(base) && 0 < m <= |base| && LedgerBalances(base, m - 1)
    requires Covered(base, m - 1)[m - 1] == 0
    ensures MovesUnit(Covered(base, m - 1), Given(base, m - 1), m - 1, Covered(base, m), Given(base, m))
  {
    var d := VisitZeroStep(base, m);
    DonorIs(Covered(base, m - 1), d, Covered(base, m), m - 1);
  }

  lemma DrainedZero(base: seq<int>, m: nat)
    requires Coverable(base) && 0 < m <= |base| && LedgerBalances(base, m - 1) && Drained(base, m - 1)
    requires Covered(base, m - 1)[m - 1] == 0
    ensures Drained(base, m)
  {
    var list, given := Covered(base, m - 1), Given(base, m - 1);
    VisitMovesUnit(base, m);
    DonorsHoldSome(base, m);
    DrainedMoves(list, given, Donor(list), m - 1, Covered(base, m), Given(base, m));
  }

  lemma DrainedNonZero(base: seq<int>, m: nat)
    requires 0 < m <= |base| && Drained(base, m - 1) && Covered(base, m - 1)[m - 1] != 0
    ensures Drained(base, m)
  {
    assert Covered(base, m) == Covered(base, m - 1) && Given(base, m) == Given(base, m - 1);
  }

  lemma {:induction false} CoverageDrains(base: seq<int>, m: nat)
    requires Coverable(base) && m <= |base|
    ensures Drained(base, m)
  {
    if m > 0 {
      CoverageDrains(base, m - 1);
      CoverageLedger(base, m - 1);
      if Covered(base, m - 1)[m - 1] == 0 {
        DrainedZero(base, m);
      } else {
        DrainedNonZero(base, m);
      }
    }
  }

  /** If the units needed are exactly what stands above some level `c`, every position gives exactly
      what it holds above `c`. */
  lemma LevelFixesGiven(base: seq<int>, c: int)
    requires Coverable(base) && c >= 1 && Sum(Excess(base, c)) == ZerosBefore(base, |base|)
    ensures Given(base, |base|) == Excess(base, c)
  {
    var n := |base|;
    CoverageLedger(base, n);
    CoverageDrains(base, n);
    var given, excess, list := Given(base, n), Excess(base, c), Covered(base, n);
    assert Sum(given) == Sum(excess);
    if i :| 0 <= i < n && given[i] > 0 && list[i] < c {
      BelowLevel(base, c, i, i);
      forall j | 0 <= j < n ensures excess[j] <= given[j] {
        BelowLevel(base, c, i, j);
      }
      SumSqueeze(excess, given);
    } else {
      forall j | 0 <= j < n ensures given[j] <= excess[j] {
        assert Ledger(base, n, j);
      }
      SumSqueeze(given, excess);
    }
  }

  /** With some donor left below the level, every position gave at least what it held above it. */
  lemma BelowLevel(base: seq<int>, c: int, i: nat, j: nat)
    requires i < |base| && j < |base| && c >= 1
    requires Ledger(base, |base|, i) && Ledger(base, |base|, j) && Drained(base, |base|)
    requires Given(base, |base|)[i] > 0 && Covered(base, |base|)[i] < c
    ensures Excess(base, c)[j] <= Given(base, |base|)[j]
    ensures Excess(base, c)[i] < Given(base, |base|)[i]
  {
    assert DrainedAt(Covered(base, |base|), Given(base, |base|), i, j);
    AboveLevel(base, c, i);
    AboveLevel(base, c, j);
  }

  lemma AboveLevel(base: seq<int>, c: int, i: nat)
    requires i < |base| && c >= 1 && Ledger(base, |base|, i)
    ensures Covered(base, |base|)[i] < c && Given(base, |base|)[i] > 0 ==>
              Excess(base, c)[i] < Given(base, |base|)[i]
    ensures Covered(base, |base|)[i] <= c ==> Excess(base, c)[i] <= Given(base, |base|)[i]
  {}

  /** If the result is weakly decreasing, its first count is such a level. */
  lemma DecreasingHasLevel(base: seq<int>)
    requires Coverable(base) && WeaklyDecreasing(base)
    requires WeaklyDecreasing(Covered(base, |base|))
    ensures Covered(base, |base|)[0] >= 1
    ensures Given(base, |base|) == Excess(base, Covered(base, |base|)[0])
  {
    var n := |base|;
    CoverageLedger(base, n);
    CoverageDrains(base, n);
    var given, list := Given(base, n), Covered(base, n);
    assert Ledger(base, n, 0);
    forall i | 0 <= i < n ensures given[i] == Excess(base, list[0])[i] {
      assert Ledger(base, n, i);
      assert list[i] <= list[0];
      assert DrainedAt(list, given, i, 0);
    }
  }

  /** The coverage pass keeps weakly decreasing counts weakly decreasing exactly when the number of
      zeros it must fill is what stands above some level of the counts. */
  lemma CoverageKeepsOrderIff(base: seq<int>)
    requires Coverable(base) && WeaklyDecreasing(base)
    ensures WeaklyDecreasing(Covered(base, |base|)) <==>
            exists c :: c >= 1 && Sum(Excess(base, c)) == ZerosBefore(base, |base|)
  {
    var n := |base|;
    CoverageLedger(base, n);
    if WeaklyDecreasing(Covered(base, n)) {
      DecreasingHasLevel(base);
      assert Sum(Excess(base, Covered(base, n)[0])) == ZerosBefore(base, n);
    }
    if c :| c >= 1 && Sum(Excess(base, c)) == ZerosBefore(base, n) {
      LevelFixesGiven(base, c);
      forall i, j | 0 <= i < j < n ensures Covered(base, n)[i] >= Covered(base, n)[j] {
        assert Ledger(base, n, i) && Ledger(base, n, j);
      }
    }
  }

  lemma AllocationKeepsOrderIff(weights: seq<int>, instances: int)
    requires Sized(weights, instances) && WeaklyDecreasing(weights)
    ensures var h := Hamilton(weights, instances);
            WeaklyDecreasing(Allocation(weights, instances)) <==>
            exists c :: c >= 1 && Sum(Excess(h, c)) == ZerosBefore(h, |h|)
  {
    HamiltonTotal(weights, instances);
    HamiltonCoverable(weights, instances);
    HamiltonKeepsOrder(weights, instances);
    CoverageKeepsOrderIff(Hamilton(weights, instances));
  }

  // ----- a distribution that loses its order -------------------------------------------------

  lemma SumPrefix(xs: seq<int>, k: nat)
    requires k < |xs|
    ensures Sum(xs[..k + 1]) == Sum(xs[..k]) + xs[k]
  {
    assert xs[..k + 1][..k] == xs[..k];
  }

  lemma SumOfThree(xs: seq<int>)
    requires |xs| == 3
    ensures Sum(xs) == xs[0] + xs[1] + xs[2]
  {
    SumPrefix(xs, 0);
    SumPrefix(xs, 1);
    SumPrefix(xs, 2);
    assert xs[..0] == [] && xs[..3] == xs;
  }

  /** Shares and remainders as numbers: a larger remainder earns its unit first. */
  lemma OutrankedUnit(w: seq<int>, n: int, total: int, i: nat, j: nat, wi: int, wj: int)
    requires Sized(w, n) && Sum(w) == total && i < |w| && j < |w| && w[i] == wi && w[j] == wj
    requires wi * n % total > wj * n % total
    ensures |Hamilton(w, n)| == |w|
    ensures Hamilton(w, n)[j] == wj * n / total + 1 ==> Hamilton(w, n)[i] == wi * n / total + 1
  {
    HamiltonTotal(w, n);
    assert GetsUnit(w, n, j) <==> Hamilton(w, n)[j] == wj * n / total + 1;
    assert Before(Remainders(w, n), i, j);
    UnitsGoByRank(w, n, i, j);
  }

  lemma HamiltonOfTenTenOne(w: seq<int>, n: int)
    requires w == [10, 10, 1] && n == 6
    ensures Sized(w, n) && Hamilton(w, n) == [3, 3, 0]
  {
    SumOfThree(w);
    HamiltonTotal(w, n);
    SumOfThree(Hamilton(w, n));
    OutrankedUnit(w, n, 21, 0, 2, 10, 1);
    OutrankedUnit(w, n, 21, 1, 2, 10, 1);
    FloorsOfTenTenOne(w, n);
  }

  lemma FloorsOfTenTenOne(w: seq<int>, n: int)
    requires w == [10, 10, 1] && n == 6 && Sized(w, n) && Sum(w) == 21
    ensures Floors(w, n) == [2, 2, 0]
  {}

  /** The catalogue's order promise does not extend to every weakly decreasing distribution. */
  lemma OrderFailsForTenTenOne()
    ensures Sized([10, 10, 1], 6) && WeaklyDecreasing([10, 10, 1])
    ensures Allocation([10, 10, 1], 6) == [2, 3, 1]
  {
    AllocationOfTenTenOne([10, 10, 1], 6);
  }

  lemma AllocationOfTenTenOne(w: seq<int>, n: int)
    requires w == [10, 10, 1] && n == 6
    ensures Sized(w, n) && WeaklyDecreasing(w) && Allocation(w, n) == [2, 3, 1]
  {
    HamiltonOfTenTenOne(w, n);
    CoverThreeThreeZero(Hamilton(w, n));
  }

  lemma CoverThreeThreeZero(h: seq<int>)
    requires h == [3, 3, 0]
    ensures Covered(h, 3) == [2, 3, 1]
  {
    CoverStep(h, 1);
    CoverStep(h, 2);
    CoverStep(h, 3);
    assert Donor(h) == 0;
  }

  lemma CoverStep(base: seq<int>, m: nat)
    requires 0 < m <= |base|
    ensures Covered(base, m) == Visit(Covered(base, m - 1), m - 1)
    ensures m == 1 ==> Covered(base, m - 1) == base
  {}

  // ----- the catalogue -----------------------------------------------------------------------

  /** The declared weights, in catalogue order. */
  const CATALOGUE: seq<int> := [147, 16, 12, 6, 4, 4, 4, 2, 2, 1, 1, 1]

  lemma SumOfTwelve(xs: seq<int>)
    requires |xs| == 12
    ensures Sum(xs) == xs[0] + xs[1] + xs[2] + xs[3] + xs[4] + xs[5]
                       + xs[6] + xs[7] + xs[8] + xs[9] + xs[10] + xs[11]
  {
    SumPrefix(xs, 0); SumPrefix(xs, 1); SumPrefix(xs, 2); SumPrefix(xs, 3);
    SumPrefix(xs, 4); SumPrefix(xs, 5); SumPrefix(xs, 6); SumPrefix(xs, 7);
    SumPrefix(xs, 8); SumPrefix(xs, 9); SumPrefix(xs, 10); SumPrefix(xs, 11);
    WholeIsPrefix(xs);
  }

  lemma WholeIsPrefix(xs: seq<int>)
    ensures Sum(xs[..0]) == 0 && xs[..|xs|] == xs
  {}

  ghost function Zero(x: int): int {
    if x == 0 then 1 else 0
  }

  lemma ZerosOfTwelve(xs: seq<int>)
    requires |xs| == 12
    ensures ZerosBefore(xs, 12) == Zero(xs[0]) + Zero(xs[1]) + Zero(xs[2]) + Zero(xs[3])
                                   + Zero(xs[4]) + Zero(xs[5]) + Zero(xs[6]) + Zero(xs[7])
                                   + Zero(xs[8]) + Zero(xs[9]) + Zero(xs[10]) + Zero(xs[11])
  {
    ZerosStep(xs, 1); ZerosStep(xs, 2); ZerosStep(xs, 3); ZerosStep(xs, 4);
    ZerosStep(xs, 5); ZerosStep(xs, 6); ZerosStep(xs, 7); ZerosStep(xs, 8);
    ZerosStep(xs, 9); ZerosStep(xs, 10); ZerosStep(xs, 11); ZerosStep(xs, 12);
  }

  lemma ZerosStep(xs: seq<int>, m: nat)
    requires 0 < m <= |xs|
    ensures ZerosBefore(xs, m) == ZerosBefore(xs, m - 1) + Zero(xs[m - 1])
    ensures m == 1 ==> ZerosBefore(xs, m - 1) == 0
  {}

  lemma CatalogueSized(n: int)
    requires n >= 12
    ensures Sum(CATALOGUE) == 200 && Sized(CATALOGUE, n) && WeaklyDecreasing(CATALOGUE)
  {
    SumOfTwelve(CATALOGUE);
  }

  /** One count: the floor of its share of `n`, with at most one unit more. */
  ghost predicate Near(h: int, weight: int, n: int) {
    weight * n / 200 <= h <= weight * n / 200 + 1
  }

  lemma CatalogueShare(n: int, i: nat)
    requires n >= 12 && i < 12
    ensures Sized(CATALOGUE, n) && Near(Hamilton(CATALOGUE, n)[i], CATALOGUE[i], n)
  {
    CatalogueSized(n);
    HamiltonTotal(CATALOGUE, n);
  }

  /** Twelve counts that total `n`, each near its share. */
  ghost predicate Shares(h: seq<int>, n: int) {
    && |h| == 12
    && n == h[0] + h[1] + h[2] + h[3] + h[4] + h[5] + h[6] + h[7] + h[8] + h[9] + h[10] + h[11]
    && Near(h[0], 147, n) && Near(h[1], 16, n) && Near(h[2], 12, n) && Near(h[3], 6, n)
    && Near(h[4], 4, n) && Near(h[5], 4, n) && Near(h[6], 4, n) && Near(h[7], 2, n)
    && Near(h[8], 2, n) && Near(h[9], 1, n) && Near(h[10], 1, n) && Near(h[11], 1, n)
  }

  lemma CatalogueShares(n: int)
    requires n >= 12
    ensures Sized(CATALOGUE, n) && Shares(Hamilton(CATALOGUE, n), n)
  {
    CatalogueSized(n);
    HamiltonTotal(CATALOGUE, n);
    SumOfTwelve(Hamilton(CATALOGUE, n));
    CatalogueShare(n, 0); CatalogueShare(n, 1); CatalogueShare(n, 2); CatalogueShare(n, 3);
    CatalogueShare(n, 4); CatalogueShare(n, 5); CatalogueShare(n, 6); CatalogueShare(n, 7);
    CatalogueShare(n, 8); CatalogueShare(n, 9); CatalogueShare(n, 10); CatalogueShare(n, 11);
  }

  /** The first bucket can give a unit to every zero and still hold the most. */
  ghost predicate FirstSuffices(h: seq<int>)
    requires |h| == 12
  {
    h[0] - ZerosBefore(h, 12) >= h[1] && h[0] > ZerosBefore(h, 12)
  }

  /** From size 17 on, at least three buckets have a whole share and the first towers over the rest. */
  lemma FirstSufficesFrom17(n: int)
    requires 17 <= n < 200
    ensures Sized(CATALOGUE, n) && |Hamilton(CATALOGUE, n)| == 12 && FirstSuffices(Hamilton(CATALOGUE, n))
  {
    CatalogueShares(n);
    var h := Hamilton(CATALOGUE, n);
    ZerosOfTwelve(h);
    assert h[0] >= 1 && h[1] >= 1 && h[2] >= 1;
    assert ZerosBefore(h, 12) <= 9;
  }

  /** At size 13 the second bucket's remainder is outranked by three others, and three units are left. */
  lemma NoUnitForSecondAt13(n: int)
    requires n == 13
    ensures Sized(CATALOGUE, n) && |Hamilton(CATALOGUE, n)| == 12 && Hamilton(CATALOGUE, n)[1] == 1
  {
    CatalogueSized(n);
    CatalogueShares(n);
    SecondIsOutranked(n, CATALOGUE);
    ThirteenUnits(n, Hamilton(CATALOGUE, n));
  }

  lemma SecondIsOutranked(n: int, w: seq<int>)
    requires n == 13 && Sized(w, n) && |w| == 12 && Sum(w) == 200
    requires w[0] == 147 && w[1] == 16 && w[2] == 12 && w[3] == 6
    ensures var h := Hamilton(w, n);
            |h| == 12 && (h[1] == 2 ==> h[0] == 10 && h[2] == 1 && h[3] == 1)
  {
    OutrankedUnit(w, n, 200, 0, 1, 147, 16);
    OutrankedUnit(w, n, 200, 2, 1, 12, 16);
    OutrankedUnit(w, n, 200, 3, 1, 6, 16);
  }

  lemma ThirteenUnits(n: int, h: seq<int>)
    requires |h| == 12
    ensures n == 13 && Shares(h, n) && (h[1] == 2 ==> h[0] == 10 && h[2] == 1 && h[3] == 1) ==> h[1] == 1
  {}

  lemma FirstSufficesBelow17(n: int)
    requires 12 <= n < 17
    ensures Sized(CATALOGUE, n) && |Hamilton(CATALOGUE, n)| == 12 && FirstSuffices(Hamilton(CATALOGUE, n))
  {
    CatalogueShares(n);
    var h := Hamilton(CATALOGUE, n);
    ZerosOfTwelve(h);
    if n == 13 {
      NoUnitForSecondAt13(n);
    }
    SmallSizes(n, h);
  }

  /** Below size 17 a weight of at most 12 has a share under one: its count is one unit or a zero. */
  lemma OneOrZero(h: int, weight: int, n: int)
    requires 12 <= n < 17 && 1 <= weight <= 12 && Near(h, weight, n)
    ensures h + Zero(h) == 1
  {
    assert 0 <= weight * n < 200;
  }

  lemma SmallSizes(n: int, h: seq<int>)
    requires 12 <= n < 17 && Shares(h, n)
    requires ZerosBefore(h, 12) == Zero(h[0]) + Zero(h[1]) + Zero(h[2]) + Zero(h[3])
                                   + Zero(h[4]) + Zero(h[5]) + Zero(h[6]) + Zero(h[7])
                                   + Zero(h[8]) + Zero(h[9]) + Zero(h[10]) + Zero(h[11])
    requires n == 13 ==> h[1] == 1
    ensures FirstSuffices(h)
  {
    TenUnitsOrZeros(n, h);
    FirstTwoAreLarge(n, h[0], h[1]);
  }

  lemma TenUnitsOrZeros(n: int, h: seq<int>)
    requires 12 <= n < 17 && Shares(h, n)
    ensures h[2] + h[3] + h[4] + h[5] + h[6] + h[7] + h[8] + h[9] + h[10] + h[11]
            + Zero(h[2]) + Zero(h[3]) + Zero(h[4]) + Zero(h[5]) + Zero(h[6]) + Zero(h[7])
            + Zero(h[8]) + Zero(h[9]) + Zero(h[10]) + Zero(h[11]) == 10
  {
    OneOrZero(h[2], 12, n); OneOrZero(h[3], 6, n); OneOrZero(h[4], 4, n); OneOrZero(h[5], 4, n);
    OneOrZero(h[6], 4, n); OneOrZero(h[7], 2, n); OneOrZero(h[8], 2, n); OneOrZero(h[9], 1, n);
    OneOrZero(h[10], 1, n); OneOrZero(h[11], 1, n);
  }

  lemma FirstTwoAreLarge(n: int, first: int, second: int)
    requires 12 <= n < 17 && Near(first, 147, n) && Near(second, 16, n)
    ensures first >= 8 && Zero(first) == 0 && 0 <= second <= 2
    ensures n >= 13 ==> second >= 1
    ensures n == 12 ==> second <= 1
  {}

  lemma {:induction false} ExcessOfFirst(h: seq<int>, c: int)
    requires h != [] && h[0] >= c && forall i :: 0 < i < |h| ==> h[i] <= c
    ensures Sum(Excess(h, c)) == h[0] - c
  {
    var zeros := seq(|h|, _ => 0);
    SumBounds(zeros, 0, 0);
    assert Excess(h, c) == zeros[0 := h[0] - c];
    SumUpdate(zeros, 0, h[0] - c);
  }

  lemma FirstSufficesFrom200(n: int)
    requires n >= 200
    ensures Sized(CATALOGUE, n) && |Hamilton(CATALOGUE, n)| == 12 && FirstSuffices(Hamilton(CATALOGUE, n))
  {
    CatalogueShares(n);
    var h := Hamilton(CATALOGUE, n);
    ZerosOfTwelve(h);
    NoZerosFrom200(n, h);
  }

  lemma NoZerosFrom200(n: int, h: seq<int>)
    requires n >= 200 && Shares(h, n)
    ensures h[0] >= h[1] >= 1 && forall i :: 0 <= i < 12 ==> h[i] >= 1
  {}

  lemma FirstAlwaysSuffices(n: int)
    requires n >= 12
    ensures Sized(CATALOGUE, n) && |Hamilton(CATALOGUE, n)| == 12 && FirstSuffices(Hamilton(CATALOGUE, n))
  {
    if n < 17 {
      FirstSufficesBelow17(n);
    } else if n < 200 {
      FirstSufficesFrom17(n);
    } else {
      FirstSufficesFrom200(n);
    }
  }

  /** Where the first bucket can serve every zero, the zeros are what stands above its final count. */
  lemma FirstIsLevel(n: int)
    requires n >= 12 && Sized(CATALOGUE, n)
    requires |Hamilton(CATALOGUE, n)| == 12 && FirstSuffices(Hamilton(CATALOGUE, n))
    ensures var h := Hamilton(CATALOGUE, n);
            var c := h[0] - ZerosBefore(h, 12);
            && c >= 1 && Sum(Excess(h, c)) == ZerosBefore(h, 12)
            && forall i :: 0 < i < 12 ==> h[i] <= c
  {
    var h := Hamilton(CATALOGUE, n);
    CatalogueSized(n);
    HamiltonKeepsOrder(CATALOGUE, n);
    ZerosNonNegative(h, 12);
    ExcessOfFirst(h, h[0] - ZerosBefore(h, 12));
  }

  /** The catalogue's promise: for every size of at least one instance per scenario, the counts are
      weakly decreasing in catalogue order. */
  lemma CatalogueCountsDecrease(n: int)
    requires n >= 12
    ensures Sized(CATALOGUE, n) && WeaklyDecreasing(Allocation(CATALOGUE, n))
  {
    FirstAlwaysSuffices(n);
    FirstIsLevel(n);
    CatalogueSized(n);
    AllocationKeepsOrderIff(CATALOGUE, n);
  }

  /** The catalogue's other promise: only the dominant bucket gives, and it absorbs the whole adjustment;
      every other bucket ends strictly within one of its exact share, at every size. */
  lemma OnlyDominantBucketGives(n: int)
    requires n >= 12
    ensures Sized(CATALOGUE, n)
    ensures var h, a := Hamilton(CATALOGUE, n), Allocation(CATALOGUE, n);
            && |h| == |a| == 12
            && a[0] == h[0] - ZerosBefore(h, 12)
            && forall i :: 0 < i < 12 ==> Given(h, 12)[i] == 0 && WithinOne(a[i], CATALOGUE, n, i)
  {
    FirstAlwaysSuffices(n);
    FirstIsLevel(n);
    AllocationTotalAndCoverage(CATALOGUE, n);
    HamiltonCoverable(CATALOGUE, n);
    var h := Hamilton(CATALOGUE, n);
    var c := h[0] - ZerosBefore(h, 12);
    LevelFixesGiven(h, c);
    ZerosNonNegative(h, 12);
    AllocationQuota(CATALOGUE, n);
    assert Given(h, 12) == Excess(h, c);
  }

  lemma {:induction false} ZerosNonNegative(base: seq<int>, m: nat)
    requires m <= |base|
    ensures ZerosBefore(base, m) >= 0
  {
    if m > 0 {
      ZerosNonNegative(base, m - 1);
    }
  }
}
