/** Checking a recording against the tick counters the exporter printed. */
module CrossCheck {
  import opened Basics
  import opened JsonValues
  import opened Distributions
  import opened Recordings
  import opened TickSamples
  import opened TickSummaries
  import opened Analysis

  datatype Snapshot = Snapshot(ticksTotal: nat, durationMicrosTotal: nat)

  datatype CheckError =
    | NoError
    | IncompleteRecording
    | SampleCountMismatch
    | CompletedCountMismatch
    | DurationMismatch

  method VerifySnapshot(header: Header, m: Summary, metrics: Snapshot) returns (error: CheckError)
    ensures error == NoError <==>
            && header.dropped == 0 && m.selected == metrics.ticksTotal && m.completed == metrics.ticksTotal
            && m.durationMicros == metrics.durationMicrosTotal
    ensures error == IncompleteRecording <==> header.dropped != 0
    ensures error == SampleCountMismatch <==> header.dropped == 0 && m.selected != metrics.ticksTotal
    ensures error == CompletedCountMismatch <==>
            header.dropped == 0 && m.selected == metrics.ticksTotal != m.completed
    ensures error == DurationMismatch <==>
            && header.dropped == 0 && m.selected == m.completed == metrics.ticksTotal
            && m.durationMicros != metrics.durationMicrosTotal
  {
    var complete := header.dropped == 0;
    if !complete || header.dropped != 0 {
      return IncompleteRecording;
    }
    if m.selected != metrics.ticksTotal {
      return SampleCountMismatch;
    }
    if m.completed != metrics.ticksTotal {
      return CompletedCountMismatch;
    }
    if m.durationMicros != metrics.durationMicrosTotal {
      return DurationMismatch;
    }
    error := NoError;
  }

  lemma {:induction false} AllCompleted(ticks: seq<TickSample>)
    requires CountOf(ticks, Completed) == |ticks|
    ensures forall s :: s in ticks ==> s.outcome == Completed
  {
    if ticks != [] {
      OutcomesPartition(ticks[..|ticks| - 1]);
      AllCompleted(ticks[..|ticks| - 1]);
      assert ticks == ticks[..|ticks| - 1] + [ticks[|ticks| - 1]];
    }
  }

  /** As many ids as their greatest allows, from 1 on and increasing, are exactly the ids from 1. */
  lemma IdsWithoutRoom(ticks: seq<TickSample>, most: nat, i: nat)
    requires Ascending(ticks) && i < |ticks| == most && ticks[0].id >= 1 && ticks[|ticks| - 1].id <= most
    ensures ticks[i].id == i + 1
  {
    CountedByIds(ticks, i);
  }

  lemma {:induction false} NoGapsInARow(ticks: seq<TickSample>)
    requires forall i :: 0 <= i < |ticks| ==> ticks[i].id == i + 1
    ensures Gaps(ticks) == 0
  {
    if |ticks| >= 2 {
      NoGapsInARow(ticks[..|ticks| - 1]);
    }
  }

  /** When the counters agree with the analysis of the ticks up to the counted one, the recording holds exactly the
      ticks 1, 2, ... up to it from the start, all of them completed, and its whole microseconds add up to the
      exported time. */
  lemma PassingPinsTicks(elements: seq<Value>, metrics: Snapshot, m: Summary)
    requires var w := Window(None, None, Some(metrics.ticksTotal));
             && Acceptable(elements, w) && Summarizes(m, Selected(LogOf(elements).value, w))
    requires m.selected == metrics.ticksTotal && m.completed == metrics.ticksTotal
    requires m.durationMicros == metrics.durationMicrosTotal
    ensures var log := LogOf(elements).value;
            && metrics.ticksTotal <= |log|
            && (forall i :: 0 <= i < metrics.ticksTotal ==> log[i].id == i + 1 && log[i].outcome == Completed)
            && (forall i :: metrics.ticksTotal <= i < |log| ==> log[i].id > metrics.ticksTotal)
            && MicrosTotal(log[..metrics.ticksTotal]) == metrics.durationMicrosTotal
            && m.gaps == 0
  {
    PinnedTicks(LogOf(elements).value, metrics.ticksTotal);
  }

  /** A stretch as long as its greatest id is the beginning of the log. */
  lemma PinnedStretch(log: seq<TickSample>, lo: nat, hi: nat)
    requires WellOrdered(log) && lo < hi <= |log| && Ascending(log[lo..hi]) && log[hi - 1].id <= hi - lo
    ensures lo == 0 && forall i :: 0 <= i < hi ==> log[i].id == i + 1
  {
    var ticks := log[lo..hi];
    assert ticks[0] in log;
    forall i: nat | i < hi - lo ensures ticks[i].id == i + 1 {
      IdsWithoutRoom(ticks, hi - lo, i);
    }
    assert log[0] in log;
    CountedByIds(log, lo);
  }

  lemma PinnedTicks(log: seq<TickSample>, n: nat)
    requires WellOrdered(log)
    requires var ticks := Selected(log, Window(None, None, Some(n)));
             |ticks| == n && CountOf(ticks, Completed) == n
    ensures n <= |log| && Selected(log, Window(None, None, Some(n))) == log[..n] && Gaps(log[..n]) == 0
    ensures forall i :: 0 <= i < n ==> log[i].id == i + 1 && log[i].outcome == Completed
    ensures forall i :: n <= i < |log| ==> log[i].id > n
  {
    var w := Window(None, None, Some(n));
    var lo, hi := SelectedIsContiguous(log, w);
    if n > 0 {
      SelectedAscends(log, w);
      assert InWindow(log[hi - 1], w);
      PinnedStretch(log, lo, hi);
      AllCompleted(log[..n]);
      NoGapsInARow(log[..n]);
    }
  }
}
