/** The round-trip histogram as the exporter prints it: counts accumulate from bucket to bucket. */
module RttHistogram {
  import opened Basics
  import opened Decimals
  import opened DecimalSeconds
  import opened CommandLedger
  import opened Distributions

  const NAME: string := "ddcs_command_rtt_seconds"

  /** How many observations the first i buckets hold. */
  function Cumulative(buckets: Buckets, i: nat): nat
    requires i <= |buckets|
  {
    Sum(buckets[..i])
  }

  /** The line of the i-th bound. */
  function BoundLine(buckets: Buckets, i: nat): string
    requires i < |RTT_BOUNDS|
  {
    NAME + "_bucket{le=\"" + SecondsText(RTT_BOUNDS[i]) + "\"} " + Decimal(Cumulative(buckets, i + 1)) + "\n"
  }

  function BoundLines(buckets: Buckets, n: nat): string
    requires n <= |RTT_BOUNDS|
  {
    if n == 0 then "" else BoundLines(buckets, n - 1) + BoundLine(buckets, n - 1)
  }

  /** The lines that say what the metric is. */
  function HeaderLines(name: string, help: string, kind: string): string {
    "# HELP " + name + " " + help + "\n# TYPE " + name + " " + kind + "\n"
  }

  const HELP: string := "Command dispatch-to-outcome latency in seconds."

  /** The lines after the bounds: everything, the sum and the count. */
  function TotalLines(buckets: Buckets, sum: nat): string {
    NAME + "_bucket{le=\"+Inf\"} " + Decimal(Sum(buckets)) + "\n"
    + NAME + "_sum " + SecondsText(sum) + "\n"
    + NAME + "_count " + Decimal(Sum(buckets)) + "\n"
  }

  method AppendBoundLine(before: string, i: nat, cumulative: nat, ghost buckets: Buckets) returns (out: string)
    requires i < |RTT_BOUNDS| && cumulative == Cumulative(buckets, i + 1)
    ensures out == before + BoundLine(buckets, i)
  {
    var line := NAME + "_bucket{le=\"";
    line := AppendMicrosecondsAsSeconds(line, RTT_BOUNDS[i]);
    line := line + "\"} " + Decimal(cumulative) + "\n";
    out := before + line;
  }

  method AppendTotalLines(before: string, cumulative: nat, sum: nat, ghost buckets: Buckets) returns (out: string)
    requires cumulative == Sum(buckets)
    ensures out == before + TotalLines(buckets, sum)
  {
    var seconds := AppendMicrosecondsAsSeconds("", sum);
    assert "" + SecondsText(sum) == SecondsText(sum);
    out := before + (NAME + "_bucket{le=\"+Inf\"} " + Decimal(cumulative) + "\n"
                     + NAME + "_sum " + seconds + "\n" + NAME + "_count " + Decimal(cumulative) + "\n");
  }

  /** One line for each bound, with the counts so far added up. */
  method AppendBoundLines(before: string, buckets: Buckets) returns (out: string, cumulative: nat)
    ensures out == before + BoundLines(buckets, |RTT_BOUNDS|) && cumulative == Cumulative(buckets, |RTT_BOUNDS|)
  {
    out, cumulative := before, 0;
    var i := 0;
    while i < |RTT_BOUNDS|
      invariant 0 <= i <= |RTT_BOUNDS| && cumulative == Cumulative(buckets, i)
      invariant out == before + BoundLines(buckets, i)
    {
      OneMoreBucket(buckets, i);
      cumulative := cumulative + buckets[i];
      out := AppendBoundLine(out, i, cumulative, buckets);
      Regrouped(before, BoundLines(buckets, i), BoundLine(buckets, i));
      i := i + 1;
    }
  }

  lemma Regrouped(a: string, b: string, c: string)
    ensures a + b + c == a + (b + c)
  {
  }

  method AppendRttHistogram(before: string, buckets: Buckets, sum: nat) returns (out: string)
    ensures out == before + HeaderLines(NAME, HELP, "histogram") + BoundLines(buckets, |RTT_BOUNDS|)
                   + TotalLines(buckets, sum)
  {
    var cumulative;
    out, cumulative := AppendBoundLines(before + HeaderLines(NAME, HELP, "histogram"), buckets);
    OneMoreBucket(buckets, |RTT_BOUNDS|);
    assert buckets[..|RTT_BOUNDS| + 1] == buckets;
    out := AppendTotalLines(out, cumulative + buckets[|RTT_BOUNDS|], sum, buckets);
  }

  lemma OneMoreBucket(buckets: Buckets, i: nat)
    requires i < |buckets|
    ensures Cumulative(buckets, i + 1) == Cumulative(buckets, i) + buckets[i]
  {
    assert buckets[..i + 1][..i] == buckets[..i];
  }

  // ---- what the lines mean ----

  /** The buckets after these round trips, each counted as the command service counts it. */
  function Counted(rtts: seq<nat>): Buckets {
    if rtts == [] then Zeros(|RTT_BOUNDS| + 1)
    else
      var front, us := Counted(rtts[..|rtts| - 1]), rtts[|rtts| - 1];
      BucketIsLeastBound(us, 0);
      front[BucketFrom(us, 0) := front[BucketFrom(us, 0)] + 1]
  }

  lemma {:induction false} ZerosAreZero(n: nat)
    ensures forall i :: 0 <= i <= n ==> Sum(Zeros(n)[..i]) == 0
  {
    if n > 0 {
      ZerosAreZero(n - 1);
      forall i | 0 <= i <= n ensures Sum(Zeros(n)[..i]) == 0 {
        if i < n {
          assert Zeros(n)[..i] == Zeros(n - 1)[..i];
        } else {
          assert Zeros(n)[..n] == Zeros(n);
        }
      }
    }
  }

  /** A bound no less than a round trip is reached at or after the round trip's bucket, and the other way around. */
  lemma BoundsAscend(us: nat, i: nat)
    requires i < |RTT_BOUNDS|
    ensures us <= RTT_BOUNDS[i] <==> BucketFrom(us, 0) <= i
  {
    BucketIsLeastBound(us, 0);
    var b := BucketFrom(us, 0);
    if b <= i && b < |RTT_BOUNDS| {
      assert RTT_BOUNDS[b] <= RTT_BOUNDS[i];
    }
  }

  lemma CumulativeAfterOne(before: Buckets, b: nat, i: nat)
    requires b < |before| && i <= |before|
    ensures var after := before[b := before[b] + 1];
            && Sum(after[..i]) == Sum(before[..i]) + (if b < i then 1 else 0)
            && (i == |before| ==> after[..i] == after && before[..i] == before)
  {
    var after := before[b := before[b] + 1];
    if b < i {
      SumBump(before[..i], b);
      assert after[..i] == before[..i][b := before[..i][b] + 1];
    } else {
      assert after[..i] == before[..i];
    }
  }

  /** One more round trip counts at the bounds it does not exceed, and in all. */
  lemma OneMoreRoundTrip(before: Buckets, us: nat, i: nat)
    requires i < |RTT_BOUNDS| && BucketFrom(us, 0) <= |RTT_BOUNDS|
    ensures var b := BucketFrom(us, 0);
            var after := before[b := before[b] + 1];
            && Cumulative(after, i + 1) == Cumulative(before, i + 1) + (if us <= RTT_BOUNDS[i] then 1 else 0)
            && Sum(after) == Sum(before) + 1
  {
    BoundsAscend(us, i);
    CumulativeAfterOne(before, BucketFrom(us, 0), i + 1);
    SumBump(before, BucketFrom(us, 0));
  }

  lemma NothingCounted(i: nat)
    requires i < |RTT_BOUNDS|
    ensures Cumulative(Counted([]), i + 1) == 0 && Sum(Counted([])) == 0
  {
    ZerosAreZero(|RTT_BOUNDS| + 1);
  }

  /** The count at a bound is the number of round trips that do not exceed it; the count at infinity is all. */
  lemma {:induction false} LinesCountRoundTrips(rtts: seq<nat>, i: nat)
    requires i < |RTT_BOUNDS|
    ensures Cumulative(Counted(rtts), i + 1) == CountAtMost(rtts, RTT_BOUNDS[i])
    ensures Sum(Counted(rtts)) == |rtts|
  {
    if rtts == [] {
      NothingCounted(i);
    } else {
      var front, us := rtts[..|rtts| - 1], rtts[|rtts| - 1];
      LinesCountRoundTrips(front, i);
      BucketIsLeastBound(us, 0);
      OneMoreRoundTrip(Counted(front), us, i);
    }
  }
}
