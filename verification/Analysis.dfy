/** The analysis of a recording. */
module Analysis {
  import opened Basics
  import opened JsonValues
  import opened JsonGrammar
  import opened JsonRoundTrip
  import opened JsonText
  import opened Distributions
  import opened Recordings
  import opened TickSamples
  import opened TickSummaries

  datatype Error = InvalidJson | UnsupportedSchema | InvalidWindow | InvalidRecording | ArithmeticOverflow

  datatype Result = Accepted(header: Header, summary: Summary) | Refused(error: Error)

  /** Time spent in completed ticks. */
  function TickTime(ticks: seq<TickSample>): nat {
    Sum(Spans(ticks, WholeTick))
  }

  /** The running figures. */
  class Tally {
    const tick: DistributionAccumulator
    const command: DistributionAccumulator
    const session: DistributionAccumulator
    const policy: DistributionAccumulator
    const interval: DistributionAccumulator
    var selected: nat
    var completed: nat
    var durationMicros: nat
    var commandFailures: nat
    var sessionFailures: nat
    var policyFailures: nat
    var gaps: nat

    ghost predicate Apart() {
      && tick != command && tick != session && tick != policy && tick != interval
      && command != session && command != policy && command != interval
      && session != policy && session != interval && policy != interval
    }

    /** The phase times are those of these ticks. */
    ghost predicate Phases(ticks: seq<TickSample>)
      reads this, tick, command, session, policy
    {
      && tick.Valid() && tick.values == Spans(ticks, WholeTick)
      && command.Valid() && command.values == Spans(ticks, CommandSweep)
      && session.Valid() && session.values == Spans(ticks, SessionSweep)
      && policy.Valid() && policy.values == Spans(ticks, PolicyEvaluate)
      && completed == CountOf(ticks, Completed) && durationMicros == MicrosTotal(ticks)
    }

    ghost predicate Failures(ticks: seq<TickSample>)
      reads this
    {
      && commandFailures == CountOf(ticks, CommandSweepThrew)
      && sessionFailures == CountOf(ticks, SessionSweepThrew)
      && policyFailures == CountOf(ticks, PolicyEvaluateThrew)
    }

    ghost predicate Starts(ticks: seq<TickSample>)
      reads this, interval
    {
      interval.Valid() && interval.values == Intervals(ticks) && gaps == Gaps(ticks) && selected == |ticks|
    }

    /** The figures are those of these ticks. */
    ghost predicate Of(ticks: seq<TickSample>)
      reads this, tick, command, session, policy, interval
    {
      Apart() && Phases(ticks) && Failures(ticks) && Starts(ticks)
    }

    constructor ()
      ensures Of([])
      ensures fresh(tick) && fresh(command) && fresh(session) && fresh(policy) && fresh(interval)
    {
      tick := new DistributionAccumulator();
      command := new DistributionAccumulator();
      session := new DistributionAccumulator();
      policy := new DistributionAccumulator();
      interval := new DistributionAccumulator();
      selected, completed, durationMicros, commandFailures, sessionFailures, policyFailures, gaps := 0, 0, 0, 0, 0, 0, 0;
    }

    /** Adds one time to each accumulator; refuses when one of them would not fit. */
    method AddTimes(whole: nat, c: nat, s: nat, p: nat) returns (ok: bool)
      requires Apart() && tick.Valid() && command.Valid() && session.Valid() && policy.Valid()
      requires whole <= U64_MAX && c <= U64_MAX && s <= U64_MAX && p <= U64_MAX
      modifies tick, command, session, policy
      ensures ok == (Sum(old(tick.values)) + whole <= U64_MAX && Sum(old(command.values)) + c <= U64_MAX
                     && Sum(old(session.values)) + s <= U64_MAX && Sum(old(policy.values)) + p <= U64_MAX)
      ensures tick.Valid() && command.Valid() && session.Valid() && policy.Valid()
      ensures ok ==> tick.values == old(tick.values) + [whole] && command.values == old(command.values) + [c]
                     && session.values == old(session.values) + [s] && policy.values == old(policy.values) + [p]
    {
      ok := tick.Add(whole);
      if !ok {
        return false;
      }
      ok := command.Add(c);
      if !ok {
        return false;
      }
      ok := session.Add(s);
      if !ok {
        return false;
      }
      ok := policy.Add(p);
    }

    /** The times of a completed tick. They fit exactly when the whole ticks' times do. */
    method AddCompletedDurations(s: TickSample, ghost ticks: seq<TickSample>) returns (ok: bool)
      requires Apart() && Phases(ticks) && ValidSample(s) && Fits(s) && s.outcome == Completed
      requires forall t :: t in ticks ==> ValidSample(t)
      requires |ticks| < U64_MAX
      modifies this`completed, this`durationMicros, tick, command, session, policy
      ensures ok == (TickTime(ticks + [s]) <= U64_MAX)
      ensures ok ==> Phases(ticks + [s])
    {
      CompletedFits(ticks, s);
      CompletedGrows(ticks, s);
      ok := AddTimes(s.finished - s.started, s.commandEnded - s.started, s.sessionEnded - s.commandEnded,
                     s.policyEnded - s.sessionEnded);
      if !ok {
        return false;
      }
      var micros := (s.finished - s.started) / 1000;
      if durationMicros > U64_MAX - micros {
        return false;
      }
      durationMicros := durationMicros + micros;
      if completed == U64_MAX {
        return false;
      }
      completed := completed + 1;
    }

    /** Counts a selected tick and its distance from the one before. Neither can overflow. */
    method AddStart(s: TickSample, previous: Option<TickSample>, previousSelected: bool, ghost ticks: seq<TickSample>)
      returns (ok: bool)
      requires Apart() && Starts(ticks) && Ascending(ticks + [s]) && Fits(s) && (ticks + [s])[0].id >= 1
      requires previous.Some? && previousSelected <==> ticks != []
      requires ticks != [] ==> previous == Some(ticks[|ticks| - 1])
      modifies this`selected, this`gaps, interval
      ensures ok && Starts(ticks + [s])
    {
      StartFits(ticks, s);
      StartGrows(ticks, s);
      if selected == U64_MAX {
        return false;
      }
      selected := selected + 1;
      if previous.Some? && previousSelected {
        if s.id - previous.value.id == 1 {
          ok := interval.Add(s.started - previous.value.started);
          if !ok {
            return false;
          }
        } else {
          if gaps == U64_MAX {
            return false;
          }
          gaps := gaps + 1;
        }
      }
      ok := true;
    }

    /** Counts how a selected tick ended. */
    method AddOutcome(s: TickSample, ghost ticks: seq<TickSample>) returns (ok: bool)
      requires Apart() && Phases(ticks) && Failures(ticks) && ValidSample(s) && Fits(s)
      requires forall t :: t in ticks ==> ValidSample(t)
      requires |ticks| < U64_MAX
      modifies this`completed, this`durationMicros, this`commandFailures, this`sessionFailures, this`policyFailures
      modifies tick, command, session, policy
      ensures ok == (TickTime(ticks + [s]) <= U64_MAX)
      ensures ok ==> Phases(ticks + [s]) && Failures(ticks + [s])
    {
      OutcomesPartition(ticks);
      OutcomeGrows(ticks, s);
      match s.outcome
      case Completed =>
        ok := AddCompletedDurations(s, ticks);
      case CommandSweepThrew =>
        if commandFailures == U64_MAX {
          return false;
        }
        commandFailures, ok := commandFailures + 1, true;
      case SessionSweepThrew =>
        if sessionFailures == U64_MAX {
          return false;
        }
        sessionFailures, ok := sessionFailures + 1, true;
      case PolicyEvaluateThrew =>
        if policyFailures == U64_MAX {
          return false;
        }
        policyFailures, ok := policyFailures + 1, true;
    }

    method Finish(ghost ticks: seq<TickSample>) returns (m: Summary)
      requires Of(ticks)
      modifies tick, command, session, policy, interval
      ensures Summarizes(m, ticks)
    {
      var t := tick.Finish();
      var c := command.Finish();
      var s := session.Finish();
      var p := policy.Finish();
      var i := interval.Finish();
      m := Summary(selected, completed, durationMicros, commandFailures, sessionFailures, policyFailures, t, c, s, p, i,
                   gaps);
    }
  }

  lemma StartGrows(ticks: seq<TickSample>, s: TickSample)
    ensures var after := ticks + [s];
            if ticks == [] then Intervals(after) == Intervals(ticks) && Gaps(after) == Gaps(ticks)
            else
              var last := ticks[|ticks| - 1];
              if Next(last, s) then
                Intervals(after) == Intervals(ticks) + [Elapsed(last.started, s.started)] && Gaps(after) == Gaps(ticks)
              else Intervals(after) == Intervals(ticks) && Gaps(after) == Gaps(ticks) + 1
  {
    assert (ticks + [s])[..|ticks|] == ticks;
  }

  /** Ids and start times are 64-bit numbers, so the count, the gaps and the sum of the intervals are. */
  lemma StartFits(ticks: seq<TickSample>, s: TickSample)
    requires Ascending(ticks + [s]) && Fits(s) && (ticks + [s])[0].id >= 1
    ensures |ticks| < U64_MAX && Gaps(ticks) < U64_MAX
    ensures ticks != [] ==>
              && Follows(ticks[|ticks| - 1], s)
              && (Next(ticks[|ticks| - 1], s) ==>
                    Sum(Intervals(ticks)) + (s.started - ticks[|ticks| - 1].started) <= U64_MAX)
  {
    var after := ticks + [s];
    CountedByIds(after, |ticks|);
    IntervalsAndGaps(ticks);
    IntervalsTelescope(after);
    StartGrows(ticks, s);
    if ticks != [] {
      var last := ticks[|ticks| - 1];
      assert Follows(after[|ticks| - 1], after[|ticks|]);
      SumOfAppended(Intervals(ticks), Elapsed(last.started, s.started));
    }
  }

  lemma OutcomeGrows(ticks: seq<TickSample>, s: TickSample)
    ensures var after := ticks + [s];
            && (forall o :: CountOf(after, o) == CountOf(ticks, o) + if s.outcome == o then 1 else 0)
            && (s.outcome != Completed ==>
                  && MicrosTotal(after) == MicrosTotal(ticks)
                  && (forall p :: Spans(after, p) == Spans(ticks, p)))
  {
    assert (ticks + [s])[..|ticks|] == ticks;
    if s.outcome != Completed {
      forall p ensures Spans(ticks + [s], p) == Spans(ticks, p) {
        SpansGrow(ticks, s, p);
      }
    }
  }

  lemma CompletedGrows(ticks: seq<TickSample>, s: TickSample)
    requires ValidSample(s) && s.outcome == Completed
    ensures var after := ticks + [s];
            && Spans(after, WholeTick) == Spans(ticks, WholeTick) + [s.finished - s.started]
            && Spans(after, CommandSweep) == Spans(ticks, CommandSweep) + [s.commandEnded - s.started]
            && Spans(after, SessionSweep) == Spans(ticks, SessionSweep) + [s.sessionEnded - s.commandEnded]
            && Spans(after, PolicyEvaluate) == Spans(ticks, PolicyEvaluate) + [s.policyEnded - s.sessionEnded]
            && CountOf(after, Completed) == CountOf(ticks, Completed) + 1
            && MicrosTotal(after) == MicrosTotal(ticks) + (s.finished - s.started) / 1000
  {
    SpansGrow(ticks, s, WholeTick);
    SpansGrow(ticks, s, CommandSweep);
    SpansGrow(ticks, s, SessionSweep);
    SpansGrow(ticks, s, PolicyEvaluate);
    assert (ticks + [s])[..|ticks|] == ticks;
  }

  /** Where the whole ticks fit, everything that is added up with them does. */
  lemma CompletedFits(ticks: seq<TickSample>, s: TickSample)
    requires forall t :: t in ticks ==> ValidSample(t)
    requires ValidSample(s) && s.outcome == Completed
    ensures TickTime(ticks + [s]) == TickTime(ticks) + (s.finished - s.started)
    ensures TickTime(ticks + [s]) <= U64_MAX ==>
              && Sum(Spans(ticks, CommandSweep)) + (s.commandEnded - s.started) <= U64_MAX
              && Sum(Spans(ticks, SessionSweep)) + (s.sessionEnded - s.commandEnded) <= U64_MAX
              && Sum(Spans(ticks, PolicyEvaluate)) + (s.policyEnded - s.sessionEnded) <= U64_MAX
              && MicrosTotal(ticks) + (s.finished - s.started) / 1000 <= U64_MAX
    ensures CountOf(ticks, Completed) <= |ticks|
  {
    PhasesAddUp(ticks);
    OutcomesPartition(ticks);
    SpanAdded(ticks + [s], WholeTick);
    assert (ticks + [s])[..|ticks|] == ticks;
  }

  // ---- the loop over the samples ----

  /** What an analysis accepts: samples in order whose selected completed ticks' times add up within 64 bits. */
  ghost predicate Acceptable(elements: seq<Value>, w: Window) {
    && LogOf(elements).Some?
    && WellOrdered(LogOf(elements).value)
    && TickTime(Selected(LogOf(elements).value, w)) <= U64_MAX
  }

  lemma LogLength(elements: seq<Value>)
    ensures LogOf(elements).Some? ==>
              && |LogOf(elements).value| == |elements|
              && forall i :: 0 <= i < |elements| ==> SampleOf(elements[i]) == Some(LogOf(elements).value[i])
  {
    if elements != [] {
      LogLength(elements[..|elements| - 1]);
    }
  }

  lemma {:induction false} AcceptableFront(elements: seq<Value>, n: nat, w: Window)
    requires n <= |elements| && Acceptable(elements, w)
    ensures Acceptable(elements[..n], w)
    decreases |elements| - n
  {
    if n == |elements| {
      assert elements[..n] == elements;
    } else {
      AcceptableFront(elements, n + 1, w);
      LogOneMore(elements, n);
      AcceptableLess(LogOf(elements[..n]).value, SampleOf(elements[n]).value, w);
    }
  }

  lemma AcceptableLess(log: seq<TickSample>, s: TickSample, w: Window)
    requires WellOrdered(log + [s])
    ensures WellOrdered(log) && TickTime(Selected(log, w)) <= TickTime(Selected(log + [s], w))
  {
    var after := log + [s];
    assert after[..|log|] == log;
    FrontIsOrdered(after, |log|);
    SelectedAreValid(after, w);
    var ticks := Selected(after, w);
    PhasesAddUp(ticks);
    if InWindow(s, w) {
      assert ticks == Selected(log, w) + [s];
      assert ticks[..|ticks| - 1] == Selected(log, w);
    } else {
      assert ticks == Selected(log, w) + [];
      assert ticks == Selected(log, w);
    }
  }

  lemma {:induction false} SelectedAreValid(log: seq<TickSample>, w: Window)
    ensures forall s :: s in Selected(log, w) ==> s in log && InWindow(s, w)
  {
    if log != [] {
      SelectedAreValid(log[..|log| - 1], w);
      assert forall s :: s in log[..|log| - 1] ==> s in log;
    }
  }

  /** The selected ticks of an ordered log are in order. */
  lemma SelectedAscends(log: seq<TickSample>, w: Window)
    requires WellOrdered(log)
    ensures Ascending(Selected(log, w))
    ensures Selected(log, w) != [] ==> Selected(log, w)[0].id >= 1
  {
    var lo, hi := SelectedIsContiguous(log, w);
    forall i | 0 < i < hi - lo ensures Follows(log[lo..hi][i - 1], log[lo..hi][i]) {
      assert Follows(log[lo + i - 1], log[lo + i]);
    }
    if lo < hi {
      assert log[lo] in log;
    }
  }

  /** What the loop knows after some samples. */
  ghost predicate Seen(log: seq<TickSample>, previous: Option<TickSample>, previousSelected: bool, w: Window) {
    && WellOrdered(log) && (forall s :: s in log ==> Fits(s))
    && previous == (if log == [] then None else Some(log[|log| - 1]))
    && previousSelected == (log != [] && InWindow(log[|log| - 1], w))
  }

  lemma SeenOneMore(log: seq<TickSample>, previous: Option<TickSample>, previousSelected: bool, w: Window, s: TickSample)
    requires Seen(log, previous, previousSelected, w) && ValidSample(s) && Fits(s)
    requires log != [] ==> Follows(log[|log| - 1], s)
    ensures Seen(log + [s], Some(s), InWindow(s, w), w)
    ensures Selected(log + [s], w) == Selected(log, w) + if InWindow(s, w) then [s] else []
    ensures InWindow(s, w) ==>
              && (previous.Some? && previousSelected <==> Selected(log, w) != [])
              && (Selected(log, w) != [] ==> previous == Some(Selected(log, w)[|Selected(log, w)| - 1]))
              && Ascending(Selected(log, w) + [s]) && (Selected(log, w) + [s])[0].id >= 1
  {
    var after := log + [s];
    assert after[..|log|] == log;
    forall i | 0 < i < |after| ensures Follows(after[i - 1], after[i]) {
      if i < |log| {
        assert Follows(log[i - 1], log[i]);
      }
    }
    if log != [] {
      var last := log[|log| - 1];
      assert Selected(log, w) == Selected(log[..|log| - 1], w) + if InWindow(last, w) then [last] else [];
    }
    if InWindow(s, w) {
      SelectedAscends(after, w);
      if Selected(log, w) != [] {
        PreviousSelected(after, |log|, w);
      }
    }
  }

  /** Adds one sample to the figures if the window selects it. */
  method AddSample(tally: Tally, s: TickSample, previous: Option<TickSample>, previousSelected: bool, w: Window,
                   ghost log: seq<TickSample>) returns (ok: bool)
    requires tally.Of(Selected(log, w))
    requires Seen(log, previous, previousSelected, w) && ValidSample(s) && Fits(s)
    requires log != [] ==> Follows(log[|log| - 1], s)
    modifies tally, tally.tick, tally.command, tally.session, tally.policy, tally.interval
    ensures ok == (TickTime(Selected(log + [s], w)) <= U64_MAX)
    ensures ok ==> tally.Of(Selected(log + [s], w)) && Seen(log + [s], Some(s), InWindow(s, w), w)
  {
    ghost var ticks := Selected(log, w);
    SeenOneMore(log, previous, previousSelected, w, s);
    if !InWindow(s, w) {
      assert ticks + [] == ticks;
      return true;
    }
    SelectedAreValid(log, w);
    StartFits(ticks, s);
    ok := tally.AddStart(s, previous, previousSelected, ticks);
    if !ok {
      return false;
    }
    ok := tally.AddOutcome(s, ticks);
  }

  lemma LogOneMore(elements: seq<Value>, i: nat)
    requires i < |elements|
    ensures var front, s := LogOf(elements[..i]), SampleOf(elements[i]);
            LogOf(elements[..i + 1]) == if front.None? || s.None? then None else Some(front.value + [s.value])
  {
    assert elements[..i + 1][..i] == elements[..i];
  }

  /** A sample is malformed or out of order. */
  ghost predicate Spoiled(elements: seq<Value>) {
    LogOf(elements).None? || !WellOrdered(LogOf(elements).value)
  }

  /** Reads the next sample; one that is malformed or out of order spoils the recording. */
  method NextSample(elements: seq<Value>, i: nat, previous: Option<TickSample>, ghost log: seq<TickSample>,
                    ghost room: nat) returns (r: Option<TickSample>)
    requires i < |elements| && Canonical(elements[i], room)
    requires LogOf(elements[..i]) == Some(log) && previous == if log == [] then None else Some(log[|log| - 1])
    ensures r.None? ==> Spoiled(elements[..i + 1])
    ensures r.Some? ==>
              && LogOf(elements[..i + 1]) == Some(log + [r.value])
              && ValidSample(r.value) && Fits(r.value) && (log != [] ==> Follows(log[|log| - 1], r.value))
  {
    r := SampleOf(elements[i]);
    LogOneMore(elements, i);
    if r.None? {
      return;
    }
    SampleFits(elements[i], room);
    if previous.Some? && (r.value.id <= previous.value.id || r.value.started < previous.value.started) {
      var after := log + [r.value];
      assert !Follows(after[|log| - 1], after[|log|]);
      r := None;
    }
  }

  /** Some beginning of the samples is in order but its selected ticks' times do not add up within 64 bits. */
  ghost predicate Overflows(elements: seq<Value>, w: Window) {
    exists n :: 0 <= n <= |elements| && TooLong(elements[..n], w)
  }

  ghost predicate TooLong(elements: seq<Value>, w: Window) {
    && LogOf(elements).Some? && WellOrdered(LogOf(elements).value)
    && TickTime(Selected(LogOf(elements).value, w)) > U64_MAX
  }

  lemma OverflowIsNotAcceptable(elements: seq<Value>, n: nat, w: Window)
    requires n <= |elements| && TooLong(elements[..n], w)
    ensures Overflows(elements, w) && !Acceptable(elements, w)
  {
    if Acceptable(elements, w) {
      AcceptableFront(elements, n, w);
    }
  }

  lemma SpoiledStays(elements: seq<Value>, n: nat)
    requires n <= |elements| && Spoiled(elements[..n])
    ensures Spoiled(elements)
  {
    if LogOf(elements[..n]).None? {
      LogKeepsFailing(elements, n);
    } else {
      OrderKeepsFailing(elements, n);
    }
  }

  /** Where the samples before it were acceptable, a spoiled one comes before any overflow. */
  lemma SpoiledFirst(elements: seq<Value>, i: nat, w: Window)
    requires i < |elements| && Acceptable(elements[..i], w) && Spoiled(elements[..i + 1])
    ensures !Acceptable(elements, w) && !Overflows(elements, w)
  {
    SpoiledStays(elements, i + 1);
    forall n | 0 <= n <= |elements| ensures !TooLong(elements[..n], w) {
      if n <= i {
        assert elements[..i][..n] == elements[..n];
        AcceptableFront(elements[..i], n, w);
      } else {
        assert elements[..n][..i + 1] == elements[..i + 1];
        SpoiledStays(elements[..n], i + 1);
      }
    }
  }

  /** Why samples are refused, if they are: an overflow if some beginning of them, in order itself, has one. */
  ghost function SamplesError(elements: seq<Value>, w: Window): Option<Error> {
    if Acceptable(elements, w) then None
    else if Overflows(elements, w) then Some(ArithmeticOverflow)
    else Some(InvalidRecording)
  }

  /** The first i samples have been gone through. */
  ghost predicate Through(elements: seq<Value>, i: nat, log: seq<TickSample>, previous: Option<TickSample>,
                          previousSelected: bool, w: Window)
  {
    && i <= |elements| && LogOf(elements[..i]) == Some(log)
    && Seen(log, previous, previousSelected, w) && TickTime(Selected(log, w)) <= U64_MAX
  }

  /** Reads the next sample and adds it to the figures. */
  method TallyNext(tally: Tally, elements: seq<Value>, i: nat, previous: Option<TickSample>, previousSelected: bool,
                   w: Window, ghost log: seq<TickSample>, ghost room: nat)
    returns (error: Option<Error>, sample: Option<TickSample>)
    requires i < |elements| && Canonical(elements[i], room)
    requires Through(elements, i, log, previous, previousSelected, w) && tally.Of(Selected(log, w))
    modifies tally, tally.tick, tally.command, tally.session, tally.policy, tally.interval
    ensures error.Some? ==> error == SamplesError(elements, w)
    ensures error.None? ==>
              && sample.Some?
              && Through(elements, i + 1, log + [sample.value], sample, InWindow(sample.value, w), w)
              && tally.Of(Selected(log + [sample.value], w))
  {
    sample := NextSample(elements, i, previous, log, room);
    if sample.None? {
      SpoiledFirst(elements, i, w);
      return Some(InvalidRecording), None;
    }
    var ok := AddSample(tally, sample.value, previous, previousSelected, w, log);
    if !ok {
      SeenOneMore(log, previous, previousSelected, w, sample.value);
      OverflowIsNotAcceptable(elements, i + 1, w);
      return Some(ArithmeticOverflow), None;
    }
    error := None;
  }

  /** Goes through the samples, adding up the figures, until one of them spoils the recording or a sum does not fit. */
  method TallySamples(tally: Tally, elements: seq<Value>, w: Window, ghost room: nat) returns (error: Option<Error>)
    requires forall e :: e in elements ==> Canonical(e, room)
    requires tally.Of([])
    modifies tally, tally.tick, tally.command, tally.session, tally.policy, tally.interval
    ensures error.None? ==> Acceptable(elements, w) && tally.Of(Selected(LogOf(elements).value, w))
    ensures error.Some? ==> error == SamplesError(elements, w)
  {
    var previous: Option<TickSample> := None;
    var previousSelected := false;
    var i := 0;
    ghost var log: seq<TickSample> := [];
    while i < |elements|
      invariant 0 <= i <= |elements|
      invariant Through(elements, i, log, previous, previousSelected, w) && tally.Of(Selected(log, w))
    {
      var sample;
      error, sample := TallyNext(tally, elements, i, previous, previousSelected, w, log, room);
      if error.Some? {
        return error;
      }
      log := log + [sample.value];
      previous, previousSelected := sample, InWindow(sample.value, w);
      i := i + 1;
    }
    assert elements[..i] == elements;
    error := None;
  }

  /** Exactly the acceptable samples are accepted, and the summary is that of the selected ticks. */
  method AnalyzeSamples(elements: seq<Value>, w: Window, ghost room: nat)
    returns (error: Option<Error>, m: Option<Summary>)
    requires forall e :: e in elements ==> Canonical(e, room)
    ensures m.Some? <==> error.None?
    ensures m.Some? <==> Acceptable(elements, w)
    ensures m.Some? ==> Summarizes(m.value, Selected(LogOf(elements).value, w))
    ensures error.Some? ==> error == SamplesError(elements, w)
  {
    var tally := new Tally();
    error := TallySamples(tally, elements, w, room);
    if error.Some? {
      return error, None;
    }
    var summary := tally.Finish(Selected(LogOf(elements).value, w));
    m := Some(summary);
  }

  lemma {:induction false} LogKeepsFailing(elements: seq<Value>, n: nat)
    requires n <= |elements| && LogOf(elements[..n]).None?
    ensures LogOf(elements).None?
    decreases |elements| - n
  {
    if n == |elements| {
      assert elements[..n] == elements;
    } else {
      LogOneMore(elements, n);
      LogKeepsFailing(elements, n + 1);
    }
  }

  lemma {:induction false} OrderKeepsFailing(elements: seq<Value>, n: nat)
    requires n <= |elements| && LogOf(elements[..n]).Some? && !WellOrdered(LogOf(elements[..n]).value)
    ensures LogOf(elements).None? || !WellOrdered(LogOf(elements).value)
    decreases |elements| - n
  {
    if n == |elements| {
      assert elements[..n] == elements;
    } else {
      LogOneMore(elements, n);
      if LogOf(elements[..n + 1]).None? {
        LogKeepsFailing(elements, n + 1);
      } else {
        DisorderStays(LogOf(elements[..n]).value, SampleOf(elements[n]).value);
        OrderKeepsFailing(elements, n + 1);
      }
    }
  }

  lemma DisorderStays(log: seq<TickSample>, s: TickSample)
    requires !WellOrdered(log)
    ensures !WellOrdered(log + [s])
  {
    if WellOrdered(log + [s]) {
      FrontIsOrdered(log + [s], |log|);
    }
    assert (log + [s])[..|log|] == log;
  }

  predicate Backwards(w: Window) {
    w.from.Some? && w.to.Some? && w.from.value > w.to.value
  }

  /** Why a recording is refused, if it is. */
  ghost function RecordingError(f: Floats, text: string, w: Window): Option<Error> {
    if Backwards(w) then Some(InvalidWindow)
    else if Parse(f, text).None? then Some(InvalidJson)
    else
      match HeaderOf(Parse(f, text).value)
      case Malformed => Some(InvalidRecording)
      case Unsupported => Some(UnsupportedSchema)
      case Read(_, samples) => SamplesError(samples, w)
  }

  /** The analysis from text to summary. */
  method AnalyzeRecording(f: Floats, text: string, w: Window) returns (result: Result)
    ensures forall error :: result == Refused(error) <==> RecordingError(f, text, w) == Some(error)
    ensures result == Refused(InvalidWindow) <==> w.from.Some? && w.to.Some? && w.from.value > w.to.value
    ensures result.Accepted? ==>
              && Parse(f, text).Some? && HeaderOf(Parse(f, text).value).Read?
              && result.header == HeaderOf(Parse(f, text).value).header
              && Acceptable(HeaderOf(Parse(f, text).value).samples, w)
              && Summarizes(result.summary, Selected(LogOf(HeaderOf(Parse(f, text).value).samples).value, w))
  {
    if w.from.Some? && w.to.Some? && w.from.value > w.to.value {
      return Refused(InvalidWindow);
    }
    var root := ParseText(f, text);
    if root.None? {
      return Refused(InvalidJson);
    }
    var header := HeaderOf(root.value);
    match header {
      case Malformed => return Refused(InvalidRecording);
      case Unsupported => return Refused(UnsupportedSchema);
      case Read(h, samples) =>
        ParsedIsCanonical(f, text, 0);
        SamplesAreCanonical(root.value, MAX_DEPTH);
        var error, m := AnalyzeSamples(samples, w, MAX_DEPTH - 2);
        result := if m.Some? then Accepted(h, m.value) else Refused(error.value);
    }
  }
}
