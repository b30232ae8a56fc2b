/** How many times each catalogue entry is built: Hamilton's largest-remainder method followed by a
    coverage pass that leaves no entry at zero. */
module Apportionment {

  // ----- vocabulary -------------------------------------------------------------------------

  function Sum(xs: seq<int>): int {
    if xs == [] then 0 else Sum(xs[..|xs| - 1]) + xs[|xs| - 1]
  }

  predicate Positive(weights: seq<int>) {
    forall i :: 0 <= i < |weights| ==> weights[i] >= 1
  }

  predicate WeaklyDecreasing(xs: seq<int>) {
    forall i, j :: 0 <= i < j < |xs| ==> xs[i] >= xs[j]
  }

  // ----- Hamilton's method -------------------------------------------------------------------

  function Floors(weights: seq<int>, instances: int): seq<int>
    requires Positive(weights)
    requires weights == [] || Sum(weights) > 0
  {
    seq(|weights|, i requires 0 <= i < |weights| => weights[i] * instances / Sum(weights))
  }

  function Remainders(weights: seq<int>, instances: int): seq<int>
    requires Positive(weights)
    requires weights == [] || Sum(weights) > 0
  {
    seq(|weights|, i requires 0 <= i < |weights| => weights[i] * instances % Sum(weights))
  }

  /** `(remainder, -index)` in descending order: the larger remainder first, then the earlier entry. */
  predicate Before(remainders: seq<int>, i: int, j: int)
    requires 0 <= i < |remainders| && 0 <= j < |remainders|
  {
    remainders[i] > remainders[j] || (remainders[i] == remainders[j] && i < j)
  }

  predicate Ranked(remainders: seq<int>, order: seq<nat>) {
    && (forall p :: 0 <= p < |order| ==> order[p] < |remainders|)
    && (forall p, q :: 0 <= p < q < |order| ==> Before(remainders, order[p], order[q]))
  }

  predicate IsRanking(remainders: seq<int>, order: seq<nat>) {
    |order| == |remainders| && Ranked(remainders, order)
  }

  /** A ranked list followed by an index all of it outranks. */
  lemma RankedAppend(remainders: seq<int>, order: seq<nat>, last: nat)
    requires Ranked(remainders, order) && last < |remainders|
    requires forall x :: x in order ==> x < |remainders| && Before(remainders, x, last)
    ensures Ranked(remainders, order + [last])
  {
    assert forall p :: 0 <= p < |order| ==> order[p] in order;
  }

  lemma LastIsOutranked(remainders: seq<int>, order: seq<nat>)
    requires order != [] && Ranked(remainders, order)
    ensures var n := |order| - 1;
            Ranked(remainders, order[..n])
            && forall x :: x in order[..n] ==> x < |remainders| && Before(remainders, x, order[n])
  {}

  /** Inserting one more index into a ranked list of smaller indices. */
  function Insert(remainders: seq<int>, order: seq<nat>, i: nat): (r: seq<nat>)
    requires i < |remainders| && (forall p :: 0 <= p < |order| ==> order[p] < i) && Ranked(remainders, order)
    ensures |r| == |order| + 1
    ensures forall x: nat :: x in r <==> x in order || x == i
    ensures Ranked(remainders, r)
  {
    if order == [] then [i]
    else
      var last := order[|order| - 1];
      LastIsOutranked(remainders, order);
      if Before(remainders, last, i) then
        RankedAppend(remainders, order, i);
        order + [i]
      else
        var rest := Insert(remainders, order[..|order| - 1], i);
        RankedAppend(remainders, rest, last);
        rest + [last]
  }

  /** `sorted(..., reverse=True)` over the remainders, as the positions in that order. */
  function RankingOf(remainders: seq<int>, n: nat): (order: seq<nat>)
    requires n <= |remainders|
    ensures |order| == n && (forall x: nat :: x in order <==> x < n) && Ranked(remainders, order)
  {
    if n == 0 then []
    else
      var rest := RankingOf(remainders, n - 1);
      assert forall p :: 0 <= p < n - 1 ==> rest[p] in rest;
      Insert(remainders, rest, n - 1)
  }

  function Ranking(remainders: seq<int>): (order: seq<nat>)
    ensures IsRanking(remainders, order)
  {
    RankingOf(remainders, |remainders|)
  }

  function Leftover(weights: seq<int>, instances: int): int
    requires Positive(weights)
    requires weights == [] || Sum(weights) > 0
  {
    instances - Sum(Floors(weights, instances))
  }

  /** The floors with one extra unit for each of the first `given` positions of `order`. */
  function WithUnits(floors: seq<int>, order: seq<nat>, given: nat): seq<int>
    requires given <= |order|
  {
    seq(|floors|, i requires 0 <= i < |floors| => floors[i] + if i in order[..given] then 1 else 0)
  }

  /** Python's `remainders[:k]` for a `k` that may exceed the length or be negative. */
  function SliceLength(k: int, length: nat): nat {
    if k < 0 then (if length + k < 0 then 0 else length + k)
    else if k < length then k else length
  }

  function Hamilton(weights: seq<int>, instances: int): seq<int>
    requires Positive(weights)
    requires weights == [] || Sum(weights) > 0
  {
    var order := Ranking(Remainders(weights, instances));
    WithUnits(Floors(weights, instances), order, SliceLength(Leftover(weights, instances), |order|))
  }

  // ----- the coverage pass -------------------------------------------------------------------

  /** The position with the largest count, the earliest of several. */
  function Donor(base: seq<int>): (d: nat)
    requires base != []
    ensures d < |base|
    ensures forall i :: 0 <= i < |base| ==> base[i] <= base[d]
    ensures forall i :: 0 <= i < d ==> base[i] < base[d]
  {
    if |base| == 1 then 0
    else
      var d := Donor(base[..|base| - 1]);
      assert forall i :: 0 <= i < |base| - 1 ==> base[..|base| - 1][i] == base[i];
      if base[|base| - 1] > base[d] then |base| - 1 else d
  }

  /** One visit: a zero is raised to one and the donor gives a unit. */
  function Visit(base: seq<int>, index: nat): seq<int>
    requires index < |base|
  {
    if base[index] == 0
    then base[Donor(base) := base[Donor(base)] - 1][index := 1]
    else base
  }

  /** The list after the first `m` positions were visited. */
  function Covered(base: seq<int>, m: nat): (r: seq<int>)
    requires m <= |base|
    ensures |r| == |base|
  {
    if m == 0 then base else Visit(Covered(base, m - 1), m - 1)
  }

  /** The allocation contract of the `bulk` profile. */
  function Allocation(weights: seq<int>, instances: int): seq<int>
    requires Positive(weights)
    requires weights == [] || Sum(weights) > 0
  {
    Covered(Hamilton(weights, instances), |weights|)
  }

  // ----- the code ---------------------------------------------------------------------------

  datatype Profile = Canonical | Bulk

  datatype Result<T> = Ok(value: T) | TooFewInstances

  lemma {:induction false} SumPositive(weights: seq<int>)
    requires Positive(weights)
    ensures Sum(weights) >= |weights|
  {
    if weights != [] {
      SumPositive(weights[..|weights| - 1]);
    }
  }

  /** `_instance_counts`, with the list updated in place. */
  method InstanceCounts(profile: Profile, weights: seq<int>, instances: int) returns (r: Result<seq<int>>)
    requires Positive(weights)
    ensures weights == [] || Sum(weights) > 0
    ensures r == if profile == Canonical then Ok(seq(|weights|, _ => 1))
                 else if instances < |weights| then TooFewInstances
                 else Ok(Allocation(weights, instances))
  {
    SumPositive(weights);
    if profile == Canonical {
      return Ok(seq(|weights|, _ => 1));
    }
    if instances < |weights| {
      return TooFewInstances;
    }
    var total := Sum(weights);
    var base := new int[|weights|];
    for i := 0 to base.Length
      invariant forall k :: 0 <= k < i ==> base[k] == Floors(weights, instances)[k]
    {
      base[i] := weights[i] * instances / total;
    }
    assert base[..] == Floors(weights, instances);
    var order := Ranking(Remainders(weights, instances));
    var units := SliceLength(instances - Sum(base[..]), |order|);
    AddUnits(base, order, units);
    assert base[..] == Hamilton(weights, instances);
    Cover(base);
    r := Ok(base[..]);
  }

  /** The remainder loop: `base[-negative_index] += 1` over the leading slice. */
  method AddUnits(base: array<int>, order: seq<nat>, units: nat)
    requires units <= |order| == base.Length
    requires forall p :: 0 <= p < |order| ==> order[p] < base.Length
    requires forall p, q :: 0 <= p < q < |order| ==> order[p] != order[q]
    modifies base
    ensures base[..] == WithUnits(old(base[..]), order, units)
  {
    for n := 0 to units
      invariant base[..] == WithUnits(old(base[..]), order, n)
    {
      var index := order[n];
      assert order[..n + 1] == order[..n] + [index];
      assert index !in order[..n];
      base[index] := base[index] + 1;
      assert base[..] == WithUnits(old(base[..]), order, n + 1);
    }
  }

  /** The coverage loop, reading the list it is changing. */
  method Cover(base: array<int>)
    modifies base
    ensures base[..] == Covered(old(base[..]), base.Length)
  {
    for index := 0 to base.Length
      invariant base[..] == Covered(old(base[..]), index)
    {
      ghost var before := base[..];
      if base[index] == 0 {
        var donor := Donor(base[..]);
        base[donor] := base[donor] - 1;
        base[index] := 1;
      }
      assert base[..] == Visit(before, index);
    }
  }
}
