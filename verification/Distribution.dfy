/** Counts, means and nearest-rank percentiles over recorded values. */
module Distributions {
  import opened Basics
  import opened Remainders

  /** How many values do not exceed v. */
  function CountAtMost(values: seq<nat>, v: nat): nat {
    if values == [] then 0
    else CountAtMost(values[..|values| - 1], v) + if values[|values| - 1] <= v then 1 else 0
  }

  predicate Sorted(values: seq<nat>) {
    forall i, j :: 0 <= i <= j < |values| ==> values[i] <= values[j]
  }

  lemma {:induction false} CountSplits(a: seq<nat>, b: seq<nat>, v: nat)
    ensures CountAtMost(a + b, v) == CountAtMost(a, v) + CountAtMost(b, v)
  {
    if b == [] {
      assert a + b == a;
    } else {
      CountSplits(a, b[..|b| - 1], v);
      assert (a + b)[..|a + b| - 1] == a + b[..|b| - 1];
    }
  }

  lemma {:induction false} CountBound(values: seq<nat>, v: nat)
    ensures CountAtMost(values, v) <= |values|
    ensures (forall x :: x in values ==> x <= v) ==> CountAtMost(values, v) == |values|
    ensures (forall x :: x in values ==> x > v) ==> CountAtMost(values, v) == 0
  {
    if values != [] {
      var init, last := values[..|values| - 1], values[|values| - 1];
      assert values == init + [last] && last in values;
      assert forall x :: x in init ==> x in values;
      CountBound(init, v);
    }
  }

  /** The same values in another order, seen by counting. */
  ghost predicate SameCounts(a: seq<nat>, b: seq<nat>) {
    multiset(a) == multiset(b) && forall v: nat :: CountAtMost(a, v) == CountAtMost(b, v)
  }

  /** Puts one value into a sorted sequence. */
  method Insert(sorted: seq<nat>, x: nat) returns (r: seq<nat>)
    requires Sorted(sorted)
    ensures Sorted(r) && SameCounts(r, sorted + [x])
  {
    var i := |sorted|;
    while i > 0 && sorted[i - 1] > x
      invariant 0 <= i <= |sorted|
      invariant forall k :: i <= k < |sorted| ==> sorted[k] > x
    {
      i := i - 1;
    }
    r := sorted[..i] + [x] + sorted[i..];
    InsertKeepsCounts(sorted, x, i);
  }

  lemma InsertKeepsCounts(s: seq<nat>, x: nat, i: nat)
    requires i <= |s|
    ensures SameCounts(s[..i] + [x] + s[i..], s + [x])
  {
    var r := s[..i] + [x] + s[i..];
    assert s == s[..i] + s[i..];
    forall v: nat ensures CountAtMost(r, v) == CountAtMost(s + [x], v) {
      CountSplits(s[..i] + [x], s[i..], v);
      CountSplits(s[..i], [x], v);
      CountSplits(s[..i], s[i..], v);
      CountSplits(s, [x], v);
    }
  }

  method Sort(values: seq<nat>) returns (sorted: seq<nat>)
    ensures Sorted(sorted) && |sorted| == |values| && SameCounts(sorted, values)
  {
    sorted := [];
    var i := 0;
    while i < |values|
      invariant 0 <= i <= |values| && |sorted| == i && Sorted(sorted) && SameCounts(sorted, values[..i])
    {
      var next := Insert(sorted, values[i]);
      OneMoreCount(sorted, values[..i], values[i], next);
      assert values[..i + 1] == values[..i] + [values[i]];
      sorted := next;
      i := i + 1;
    }
    assert values[..i] == values;
  }

  lemma OneMoreCount(sorted: seq<nat>, prefix: seq<nat>, x: nat, next: seq<nat>)
    requires SameCounts(sorted, prefix) && SameCounts(next, sorted + [x])
    ensures SameCounts(next, prefix + [x]) && |next| == |sorted| + 1
  {
    forall v: nat ensures CountAtMost(next, v) == CountAtMost(prefix + [x], v) {
      CountSplits(sorted, [x], v);
      CountSplits(prefix, [x], v);
    }
    assert |multiset(next)| == |next| && |multiset(sorted + [x])| == |sorted + [x]|;
  }

  // ---- nearest rank ----

  /** n less its twentieth part is nineteen twentieths of n, rounded up. */
  lemma RankIsCeiling(n: nat)
    ensures n - n / 20 == (19 * n + 19) / 20
    ensures 20 * (n - n / 20) >= 19 * n && (n > 0 ==> 0 < n - n / 20 <= n && 20 * (n - n / 20 - 1) < 19 * n)
  {
  }

  /** At least 95 of 100 values do not exceed v. */
  predicate Covers(values: seq<nat>, v: nat) {
    20 * CountAtMost(values, v) >= 19 * |values|
  }

  /** v was recorded, covers 95 of 100 values, and no smaller recorded value does. */
  ghost predicate IsP95(values: seq<nat>, v: nat) {
    v in values && Covers(values, v) && forall u :: u in values && Covers(values, u) ==> v <= u
  }

  lemma RankedIsP95(values: seq<nat>, sorted: seq<nat>)
    requires values != [] && Sorted(sorted) && SameCounts(sorted, values) && |sorted| == |values|
    ensures IsP95(values, sorted[|sorted| - |sorted| / 20 - 1])
  {
    var n := |sorted|;
    var rank := n - n / 20;
    RankIsCeiling(n);
    var v := sorted[rank - 1];
    assert v in multiset(values);
    FirstCount(sorted, rank, v);
    forall u | u in values && u < v ensures !Covers(values, u) {
      LastCount(sorted, rank - 1, u);
    }
  }

  lemma FirstCount(sorted: seq<nat>, k: nat, v: nat)
    requires k <= |sorted| && forall i :: 0 <= i < k ==> sorted[i] <= v
    ensures CountAtMost(sorted, v) >= k
  {
    CountSplits(sorted[..k], sorted[k..], v);
    assert sorted == sorted[..k] + sorted[k..];
    CountBound(sorted[..k], v);
  }

  lemma LastCount(sorted: seq<nat>, k: nat, v: nat)
    requires k <= |sorted| && forall i :: k <= i < |sorted| ==> sorted[i] > v
    ensures CountAtMost(sorted, v) <= k
  {
    CountSplits(sorted[..k], sorted[k..], v);
    assert sorted == sorted[..k] + sorted[k..];
    CountBound(sorted[..k], v);
    CountBound(sorted[k..], v);
  }

  lemma {:induction false} SumBounded(values: seq<nat>, most: nat)
    requires forall x :: x in values ==> x <= most
    ensures Sum(values) <= |values| * most
  {
    if values != [] {
      var init, last := values[..|values| - 1], values[|values| - 1];
      assert values == init + [last] && last in values;
      assert forall x :: x in init ==> x in values;
      SumBounded(init, most);
      assert |values| * most == (|values| - 1) * most + most;
    }
  }

  // ---- the accumulator ----

  datatype Distribution = Distribution(count: nat, mean: Option<nat>, p95: Option<nat>, max: Option<nat>)

  /** What a distribution says about the recorded values. */
  ghost predicate Describes(d: Distribution, values: seq<nat>) {
    && d.count == |values|
    && (values == [] ==> d.mean.None? && d.p95.None? && d.max.None?)
    && (values != [] ==>
          && d.mean.Some? && d.p95.Some? && d.max.Some?
          && d.mean.value == Sum(values) / |values|
          && IsP95(values, d.p95.value)
          && d.max.value in values && (forall x :: x in values ==> x <= d.max.value)
          && d.mean.value <= d.max.value && d.p95.value <= d.max.value)
  }

  class DistributionAccumulator {
    var values: seq<nat>
    var sum: nat

    /** The sum is kept and fits 64 bits. */
    ghost predicate Valid()
      reads this
    {
      sum == Sum(values) && sum <= U64_MAX
    }

    constructor ()
      ensures Valid() && values == []
    {
      values, sum := [], 0;
    }

    /** Refuses a value whose addition would not fit 64 bits. */
    method Add(value: nat) returns (ok: bool)
      requires Valid() && value <= U64_MAX
      modifies this
      ensures Valid() && ok == (Sum(old(values)) + value <= U64_MAX)
      ensures values == if ok then old(values) + [value] else old(values)
    {
      if sum > U64_MAX - value {
        return false;
      }
      sum := sum + value;
      assert (values + [value])[..|values|] == values;
      values := values + [value];
      ok := true;
    }

    method Finish() returns (d: Distribution)
      requires Valid()
      modifies this`values
      ensures Describes(d, old(values))
    {
      if values == [] {
        return Distribution(0, None, None, None);
      }
      ghost var recorded := values;
      values := Sort(values);
      RankIsCeiling(|values|);
      SortedDescribes(recorded, values);
      d := Ranked(values, sum);
    }
  }

  /** What sorted values give. */
  function Ranked(sorted: seq<nat>, sum: nat): Distribution
    requires sorted != []
  {
    RankIsCeiling(|sorted|);
    var rank := |sorted| - |sorted| / 20;
    Distribution(|sorted|, Some(sum / |sorted|), Some(sorted[rank - 1]), Some(sorted[|sorted| - 1]))
  }

  /** The last of the sorted values is the greatest recorded one. */
  lemma LastIsMax(values: seq<nat>, sorted: seq<nat>)
    requires values != [] && Sorted(sorted) && SameCounts(sorted, values) && |sorted| == |values|
    ensures sorted[|sorted| - 1] in values && forall x :: x in values ==> x <= sorted[|sorted| - 1]
  {
    assert sorted[|sorted| - 1] in multiset(values);
    forall x | x in values ensures x <= sorted[|sorted| - 1] {
      assert x in multiset(sorted);
      var i :| 0 <= i < |sorted| && sorted[i] == x;
    }
  }

  lemma SortedDescribes(values: seq<nat>, sorted: seq<nat>)
    requires values != [] && Sorted(sorted) && SameCounts(sorted, values) && |sorted| == |values|
    ensures Describes(Ranked(sorted, Sum(values)), values)
  {
    var n := |sorted|;
    RankedIsP95(values, sorted);
    LastIsMax(values, sorted);
    SumBounded(values, sorted[n - 1]);
    MeanAtMost(Sum(values), n, sorted[n - 1]);
  }

  lemma MeanAtMost(sum: nat, n: nat, most: nat)
    requires n > 0 && sum <= n * most
    ensures sum / n <= most
  {
    assert n * (sum / n) <= sum;
    ProductsOrder(n, sum / n, most);
  }
}
