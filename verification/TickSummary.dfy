/** What an analysis says about the selected ticks, told by the ticks themselves. */
module TickSummaries {
  import opened Basics
  import opened Distributions
  import opened TickSamples

  /** Ticks in order; a selection from an accepted log is. */
  ghost predicate Ascending(ticks: seq<TickSample>) {
    forall i :: 0 < i < |ticks| ==> Follows(ticks[i - 1], ticks[i])
  }

  lemma FrontAscends(ticks: seq<TickSample>)
    requires Ascending(ticks) && ticks != []
    ensures Ascending(ticks[..|ticks| - 1])
  {
    var front := ticks[..|ticks| - 1];
    forall i | 0 < i < |front| ensures Follows(front[i - 1], front[i]) {
      assert Follows(ticks[i - 1], ticks[i]);
    }
  }

  function Elapsed(from: nat, to: nat): nat {
    if to >= from then to - from else 0
  }

  datatype Phase = WholeTick | CommandSweep | SessionSweep | PolicyEvaluate

  /** How long a completed tick spent in a phase. */
  function Span(s: TickSample, p: Phase): nat {
    match p
    case WholeTick => Elapsed(s.started, s.finished)
    case CommandSweep => Elapsed(s.started, s.commandEnded)
    case SessionSweep => Elapsed(s.commandEnded, s.sessionEnded)
    case PolicyEvaluate => Elapsed(s.sessionEnded, s.policyEnded)
  }

  /** The phase's times of the completed ticks. */
  function Spans(ticks: seq<TickSample>, p: Phase): seq<nat> {
    if ticks == [] then []
    else
      var last := ticks[|ticks| - 1];
      Spans(ticks[..|ticks| - 1], p) + if last.outcome == Completed then [Span(last, p)] else []
  }

  /** Whole microseconds of each completed tick, added up. */
  function MicrosTotal(ticks: seq<TickSample>): nat {
    if ticks == [] then 0
    else
      var last := ticks[|ticks| - 1];
      MicrosTotal(ticks[..|ticks| - 1]) + if last.outcome == Completed then Span(last, WholeTick) / 1000 else 0
  }

  function CountOf(ticks: seq<TickSample>, o: Outcome): nat {
    if ticks == [] then 0
    else CountOf(ticks[..|ticks| - 1], o) + if ticks[|ticks| - 1].outcome == o then 1 else 0
  }

  /** The next tick by id. */
  predicate Next(a: TickSample, b: TickSample) {
    b.id == a.id + 1
  }

  /** From start to start of ticks with neighbouring ids. */
  function Intervals(ticks: seq<TickSample>): seq<nat> {
    if |ticks| < 2 then []
    else
      var a, b := ticks[|ticks| - 2], ticks[|ticks| - 1];
      Intervals(ticks[..|ticks| - 1]) + if Next(a, b) then [Elapsed(a.started, b.started)] else []
  }

  /** How often an id is missing between two ticks. */
  function Gaps(ticks: seq<TickSample>): nat {
    if |ticks| < 2 then 0
    else Gaps(ticks[..|ticks| - 1]) + if Next(ticks[|ticks| - 2], ticks[|ticks| - 1]) then 0 else 1
  }

  /** Between two neighbours there is an interval or a gap. */
  lemma {:induction false} IntervalsAndGaps(ticks: seq<TickSample>)
    ensures |Intervals(ticks)| + Gaps(ticks) == if ticks == [] then 0 else |ticks| - 1
  {
    if |ticks| >= 2 {
      IntervalsAndGaps(ticks[..|ticks| - 1]);
    }
  }

  /** The intervals add up to no more than the time from the first start to the last, and to exactly that without
      gaps. So their sum fits whatever the start times fit. */
  lemma {:induction false} IntervalsTelescope(ticks: seq<TickSample>)
    requires Ascending(ticks) && ticks != []
    ensures ticks[0].started <= ticks[|ticks| - 1].started
    ensures Sum(Intervals(ticks)) <= ticks[|ticks| - 1].started - ticks[0].started
    ensures Gaps(ticks) == 0 ==> Sum(Intervals(ticks)) == ticks[|ticks| - 1].started - ticks[0].started
  {
    if |ticks| >= 2 {
      FrontAscends(ticks);
      var front := ticks[..|ticks| - 1];
      IntervalsTelescope(front);
      var a, b := ticks[|ticks| - 2], ticks[|ticks| - 1];
      assert Follows(a, b) && front[|front| - 1] == a && front[0] == ticks[0];
      SumOfAppended(Intervals(front), Elapsed(a.started, b.started));
      assert Intervals(front) + [] == Intervals(front);
    }
  }

  /** Every tick either completed or failed in one phase. */
  lemma {:induction false} OutcomesPartition(ticks: seq<TickSample>)
    ensures |ticks| == CountOf(ticks, Completed) + CountOf(ticks, CommandSweepThrew)
                       + CountOf(ticks, SessionSweepThrew) + CountOf(ticks, PolicyEvaluateThrew)
    ensures forall p :: |Spans(ticks, p)| == CountOf(ticks, Completed)
  {
    if ticks != [] {
      OutcomesPartition(ticks[..|ticks| - 1]);
    }
  }

  /** The phases of the completed ticks add up to the ticks; the whole microseconds fall short of the ticks by less than
      one for each. */
  lemma {:induction false} PhasesAddUp(ticks: seq<TickSample>)
    requires forall s :: s in ticks ==> ValidSample(s)
    ensures Sum(Spans(ticks, WholeTick)) ==
            Sum(Spans(ticks, CommandSweep)) + Sum(Spans(ticks, SessionSweep)) + Sum(Spans(ticks, PolicyEvaluate))
    ensures 1000 * MicrosTotal(ticks) <= Sum(Spans(ticks, WholeTick))
            <= 1000 * MicrosTotal(ticks) + 999 * CountOf(ticks, Completed)
    ensures ticks != [] ==> Sum(Spans(ticks[..|ticks| - 1], WholeTick)) <= Sum(Spans(ticks, WholeTick))
  {
    if ticks != [] {
      var front, last := ticks[..|ticks| - 1], ticks[|ticks| - 1];
      PhasesAddUp(front);
      assert ValidSample(last);
      SpanAdded(ticks, WholeTick);
      SpanAdded(ticks, CommandSweep);
      SpanAdded(ticks, SessionSweep);
      SpanAdded(ticks, PolicyEvaluate);
      if last.outcome == Completed {
        PhasesOfOne(last);
      }
    }
  }

  lemma SpanAdded(ticks: seq<TickSample>, p: Phase)
    requires ticks != []
    ensures var front, last := ticks[..|ticks| - 1], ticks[|ticks| - 1];
            Sum(Spans(ticks, p)) == Sum(Spans(front, p)) + if last.outcome == Completed then Span(last, p) else 0
  {
    var front, last := ticks[..|ticks| - 1], ticks[|ticks| - 1];
    SumOfAppended(Spans(front, p), Span(last, p));
    assert Spans(front, p) + [] == Spans(front, p);
  }

  /** A completed tick's phases follow one another from its start to its end. */
  lemma PhasesOfOne(s: TickSample)
    requires ValidSample(s) && s.outcome == Completed
    ensures s.started + Span(s, CommandSweep) == s.commandEnded
    ensures s.commandEnded + Span(s, SessionSweep) == s.sessionEnded
    ensures s.sessionEnded + Span(s, PolicyEvaluate) == s.policyEnded
    ensures Span(s, WholeTick) == Span(s, CommandSweep) + Span(s, SessionSweep) + Span(s, PolicyEvaluate)
  {
  }

  lemma SpansGrow(ticks: seq<TickSample>, s: TickSample, p: Phase)
    ensures Spans(ticks + [s], p) == if s.outcome == Completed then Spans(ticks, p) + [Span(s, p)] else Spans(ticks, p)
  {
    assert (ticks + [s])[..|ticks|] == ticks;
  }

  /** Strictly increasing ids from 1 on leave room for no more than the last id says. */
  lemma {:induction false} CountedByIds(ticks: seq<TickSample>, i: nat)
    requires Ascending(ticks) && i < |ticks| && ticks[0].id >= 1
    ensures ticks[i].id >= i + 1
    ensures |ticks| - 1 - i <= ticks[|ticks| - 1].id - ticks[i].id
  {
    if i > 0 {
      CountedByIds(ticks, i - 1);
      assert Follows(ticks[i - 1], ticks[i]);
    }
    IdsAhead(ticks, i);
  }

  lemma {:induction false} IdsAhead(ticks: seq<TickSample>, i: nat)
    requires Ascending(ticks) && i < |ticks|
    ensures |ticks| - 1 - i <= ticks[|ticks| - 1].id - ticks[i].id
    decreases |ticks| - i
  {
    if i + 1 < |ticks| {
      assert Follows(ticks[i], ticks[i + 1]);
      IdsAhead(ticks, i + 1);
    }
  }

  /** Every gap is at least one missing id, and without gaps none is missing. */
  lemma {:induction false} GapsAreMissingIds(ticks: seq<TickSample>)
    requires Ascending(ticks) && ticks != []
    ensures var missing := ticks[|ticks| - 1].id - ticks[0].id - (|ticks| - 1);
            Gaps(ticks) <= missing && (Gaps(ticks) == 0 ==> missing == 0)
  {
    if |ticks| >= 2 {
      FrontAscends(ticks);
      var front := ticks[..|ticks| - 1];
      GapsAreMissingIds(front);
      assert front[|front| - 1] == ticks[|ticks| - 2] && front[0] == ticks[0];
      assert Follows(ticks[|ticks| - 2], ticks[|ticks| - 1]);
    }
  }

  // ---- the summary ----

  datatype Summary = Summary(
    selected: nat, completed: nat, durationMicros: nat,
    commandFailures: nat, sessionFailures: nat, policyFailures: nat,
    tick: Distribution, command: Distribution, session: Distribution, policy: Distribution,
    interval: Distribution, gaps: nat)

  /** Every figure is the selected ticks' own. */
  ghost predicate Summarizes(m: Summary, ticks: seq<TickSample>) {
    && m.selected == |ticks|
    && m.completed == CountOf(ticks, Completed)
    && m.durationMicros == MicrosTotal(ticks)
    && m.commandFailures == CountOf(ticks, CommandSweepThrew)
    && m.sessionFailures == CountOf(ticks, SessionSweepThrew)
    && m.policyFailures == CountOf(ticks, PolicyEvaluateThrew)
    && Describes(m.tick, Spans(ticks, WholeTick))
    && Describes(m.command, Spans(ticks, CommandSweep))
    && Describes(m.session, Spans(ticks, SessionSweep))
    && Describes(m.policy, Spans(ticks, PolicyEvaluate))
    && Describes(m.interval, Intervals(ticks))
    && m.gaps == Gaps(ticks)
  }

  /** In every summary the counts fit together. */
  lemma SummaryIsConsistent(m: Summary, ticks: seq<TickSample>)
    requires Summarizes(m, ticks)
    ensures m.selected == m.completed + m.commandFailures + m.sessionFailures + m.policyFailures
    ensures m.interval.count + m.gaps == if m.selected == 0 then 0 else m.selected - 1
    ensures m.tick.count == m.command.count == m.session.count == m.policy.count == m.completed
  {
    OutcomesPartition(ticks);
    IntervalsAndGaps(ticks);
  }
}
