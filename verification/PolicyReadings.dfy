/** What the policy service issues, over a run of evaluations, told by the loads and temperatures reported. */
module PolicyReadings {
  import opened Basics
  import opened DeviceControls
  import opened DeviceReadings
  import opened PolicyServices

  // ---- the average ----

  /** So many times the same load. */
  function Repeated(load: real, n: nat): real {
    if n == 0 then 0.0 else Repeated(load, n - 1) + load
  }

  lemma {:induction false} RepeatedIsProduct(load: real, n: nat)
    ensures Repeated(load, n) == load * n as real
  {
    if n > 0 {
      RepeatedIsProduct(load, n - 1);
      assert load * n as real == load * (n - 1) as real + load;
    }
  }

  lemma {:induction false} SumIsBetween(rules: Rules, shadows: Shadows, g: Group, active: seq<DeviceId>, low: real,
                                        high: real)
    requires forall d :: d in active && Member(rules, shadows, g, d) ==> low <= shadows[d].status.value.load <= high
    ensures var n := MemberCount(rules, shadows, g, active);
            Repeated(low, n) <= LoadSum(rules, shadows, g, active) <= Repeated(high, n)
  {
    if active != [] {
      var n := |active| - 1;
      SumIsBetween(rules, shadows, g, active[..n], low, high);
    }
  }

  lemma QuotientBetween(sum: real, n: nat, low: real, high: real)
    requires n > 0 && Repeated(low, n) <= sum <= Repeated(high, n)
    ensures low <= sum / n as real <= high
  {
    RepeatedIsProduct(low, n);
    RepeatedIsProduct(high, n);
    var q := sum / n as real;
    assert q * n as real == sum;
    LessTimes(q, low, n as real);
    LessTimes(high, q, n as real);
  }

  lemma LessTimes(a: real, b: real, n: real)
    requires n > 0.0 && b * n <= a * n
    ensures b <= a
  {
  }

  /** The average lies between the least and the greatest of the members' loads. */
  lemma AverageIsBetween(rules: Rules, shadows: Shadows, g: Group, active: seq<DeviceId>, low: real, high: real)
    requires MemberCount(rules, shadows, g, active) > 0
    requires forall d :: d in active && Member(rules, shadows, g, d) ==> low <= shadows[d].status.value.load <= high
    ensures low <= AverageLoad(rules, shadows, g, active) <= high
  {
    SumIsBetween(rules, shadows, g, active, low, high);
    QuotientBetween(LoadSum(rules, shadows, g, active), MemberCount(rules, shadows, g, active), low, high);
  }

  /** The device is in this group, and something has been heard of its load and temperature. */
  predicate Reports(shadows: Shadows, g: Group, d: DeviceId) {
    d in shadows && shadows[d].group == g && shadows[d].status.Some?
  }

  /** One more reporting device moves the average toward its own load, by its share of the group; any other device
      leaves the average as it is. */
  lemma OneMoreMember(rules: Rules, shadows: Shadows, g: Group, active: seq<DeviceId>, d: DeviceId)
    requires g in rules && g != "" && MemberCount(rules, shadows, g, active) > 0
    ensures var n, m := MemberCount(rules, shadows, g, active), MemberCount(rules, shadows, g, active + [d]);
            var average := AverageLoad(rules, shadows, g, active);
            if Reports(shadows, g, d) then
              && m == n + 1
              && AverageLoad(rules, shadows, g, active + [d]) * m as real ==
                 average * n as real + shadows[d].status.value.load
            else m == n && AverageLoad(rules, shadows, g, active + [d]) == average
  {
    assert (active + [d])[..|active|] == active;
  }

  /** A group is judged if and only if it has a rule and a name and an active device of it reports. */
  lemma {:induction false} CountedIffReporting(rules: Rules, shadows: Shadows, g: Group, active: seq<DeviceId>)
    ensures MemberCount(rules, shadows, g, active) > 0 <==>
            g in rules && g != "" && exists d :: d in active && Reports(shadows, g, d)
  {
    if active != [] {
      var n := |active| - 1;
      CountedIffReporting(rules, shadows, g, active[..n]);
      assert forall d :: d in active <==> d in active[..n] || d == active[n];
      assert Member(rules, shadows, g, active[n]) ==> Reports(shadows, g, active[n]);
      forall d | d in active[..n] && Reports(shadows, g, d) ensures d in active && Reports(shadows, g, d) {
      }
    }
  }

  /** If some device of the group reports and all that do are above the busy threshold the group is judged busy, and
      likewise idle; if none reports its judgement stands. */
  lemma UnanimousGroup(rules: Rules, shadows: Shadows, regimes: map<Group, LoadRegime>, active: seq<DeviceId>,
                       g: Group, load: real)
    requires g in rules && g != "" && rules[g].WellFormed()
    ensures var some := exists d :: d in active && Reports(shadows, g, d);
            var now := Judged(rules, shadows, regimes, active, g);
            && (load > rules[g].busyLoad && some
                && (forall d :: d in active && Reports(shadows, g, d) ==> shadows[d].status.value.load >= load)
                ==> now.BusyLoad?)
            && (load < rules[g].idleLoad && some
                && (forall d :: d in active && Reports(shadows, g, d) ==> shadows[d].status.value.load <= load)
                ==> now.IdleLoad?)
            && (!some ==> now == RegimeOf(regimes, g))
  {
    CountedIffReporting(rules, shadows, g, active);
    if exists d :: d in active && Reports(shadows, g, d) {
      var high := GreatestLoad(rules, shadows, g, active);
      if load > rules[g].busyLoad
         && forall d :: d in active && Reports(shadows, g, d) ==> shadows[d].status.value.load >= load {
        AverageIsBetween(rules, shadows, g, active, load, high.0);
      }
      if load < rules[g].idleLoad
         && forall d :: d in active && Reports(shadows, g, d) ==> shadows[d].status.value.load <= load {
        AverageIsBetween(rules, shadows, g, active, high.1, load);
      }
    }
  }

  /** Some bounds on the members' loads. */
  lemma {:induction false} GreatestLoad(rules: Rules, shadows: Shadows, g: Group, active: seq<DeviceId>)
    returns (bounds: (real, real))
    ensures forall d :: d in active && Member(rules, shadows, g, d) ==>
              bounds.1 <= shadows[d].status.value.load <= bounds.0
  {
    if active == [] {
      bounds := (0.0, 0.0);
    } else {
      var n := |active| - 1;
      bounds := GreatestLoad(rules, shadows, g, active[..n]);
      assert active == active[..n] + [active[n]];
      if Member(rules, shadows, g, active[n]) {
        var load := shadows[active[n]].status.value.load;
        bounds := (if load > bounds.0 then load else bounds.0, if load < bounds.1 then load else bounds.1);
      }
    }
  }

  // ---- runs ----

  /** Under one policy: an evaluation, or one device's record told of a dispatch, a failure or a release. */
  datatype Step = Pass(shadows: Shadows, active: seq<DeviceId>) | Told(device: DeviceId, event: Event)

  ghost predicate Moves(rules: Rules, step: Step, before: State, after: State, queue: seq<(DeviceId, Mode)>) {
    match step
    case Pass(shadows, active) =>
      && (forall i, j :: 0 <= i < j < |active| ==> active[i] != active[j])
      && Evaluated(rules, shadows, active, before, after, queue)
    case Told(d, event) =>
      && !event.Evaluate? && queue == []
      && after == before.(controls := if d in before.controls
                                      then before.controls[d := React(before.controls[d], event)]
                                      else before.controls)
  }

  ghost predicate IsRun(rules: Rules, steps: seq<Step>, states: seq<State>, queues: seq<seq<(DeviceId, Mode)>>) {
    && |states| == |steps| + 1 && |queues| == |steps|
    && (forall g :: g in rules ==> rules[g].WellFormed())
    && forall i :: 0 <= i < |steps| ==> Moves(rules, steps[i], states[i], states[i + 1], queues[i])
  }

  /** The average loads of a group, from the passes in which some member reported. */
  function LoadsOf(rules: Rules, g: Group, steps: seq<Step>): seq<real> {
    if steps == [] then []
    else
      var front, last := LoadsOf(rules, g, steps[..|steps| - 1]), steps[|steps| - 1];
      if last.Pass? && MemberCount(rules, last.shadows, g, last.active) > 0
      then front + [AverageLoad(rules, last.shadows, g, last.active)] else front
  }

  /** The pass looks at this device. */
  predicate Sees(rules: Rules, step: Step, d: DeviceId) {
    step.Pass? && d in step.active && Counts(rules, step.shadows, d)
  }

  function TempsOf(rules: Rules, d: DeviceId, steps: seq<Step>): seq<real> {
    if steps == [] then []
    else
      var front, last := TempsOf(rules, d, steps[..|steps| - 1]), steps[|steps| - 1];
      if Sees(rules, last, d) then front + [last.shadows[d].status.value.temp] else front
  }

  /** The device stays in one group. */
  ghost predicate StaysIn(rules: Rules, d: DeviceId, g: Group, steps: seq<Step>) {
    forall i :: 0 <= i < |steps| && Sees(rules, steps[i], d) ==> steps[i].shadows[d].group == g
  }

  lemma {:induction false} RegimeFollowsLoads(rules: Rules, steps: seq<Step>, states: seq<State>,
                                              queues: seq<seq<(DeviceId, Mode)>>, k: nat, g: Group)
    requires IsRun(rules, steps, states, queues) && k <= |steps| && g in rules
    ensures RegimeOf(states[k].regimes, g) ==
            LoadAfter(rules[g], RegimeOf(states[0].regimes, g), LoadsOf(rules, g, steps[..k]))
  {
    if k > 0 {
      RegimeFollowsLoads(rules, steps, states, queues, k - 1, g);
      assert steps[..k][..k - 1] == steps[..k - 1];
      assert Moves(rules, steps[k - 1], states[k - 1], states[k], queues[k - 1]);
      var loads := LoadsOf(rules, g, steps[..k]);
      assert loads != LoadsOf(rules, g, steps[..k - 1]) ==> loads[..|loads| - 1] == LoadsOf(rules, g, steps[..k - 1]);
    }
  }

  lemma ThermalAfterStep(rules: Rules, step: Step, s: State, s': State, queue: seq<(DeviceId, Mode)>, d: DeviceId)
    requires Moves(rules, step, s, s', queue)
    ensures ControlOf(s'.controls, d).thermal ==
            if Sees(rules, step, d) then
              rules[step.shadows[d].group].NextThermal(ControlOf(s.controls, d).thermal,
                                                       step.shadows[d].status.value.temp)
            else ControlOf(s.controls, d).thermal
  {
  }

  lemma {:induction false} ThermalFollowsTemps(rules: Rules, steps: seq<Step>, states: seq<State>,
                                               queues: seq<seq<(DeviceId, Mode)>>, k: nat, d: DeviceId, g: Group)
    requires IsRun(rules, steps, states, queues) && k <= |steps| && g in rules && StaysIn(rules, d, g, steps[..k])
    ensures ControlOf(states[k].controls, d).thermal ==
            ThermalAfter(rules[g], ControlOf(states[0].controls, d).thermal, TempsOf(rules, d, steps[..k]))
  {
    if k > 0 {
      assert steps[..k][..k - 1] == steps[..k - 1] && steps[..k][k - 1] == steps[k - 1];
      assert StaysIn(rules, d, g, steps[..k - 1]) by {
        assert forall i :: 0 <= i < k - 1 ==> steps[..k - 1][i] == steps[..k][i];
      }
      ThermalFollowsTemps(rules, steps, states, queues, k - 1, d, g);
      ThermalAfterStep(rules, steps[k - 1], states[k - 1], states[k], queues[k - 1], d);
      var temps := TempsOf(rules, d, steps[..k]);
      assert Sees(rules, steps[k - 1], d) ==> temps[..|temps| - 1] == TempsOf(rules, d, steps[..k - 1]);
    }
  }

  /** What is queued for a device is its decision. */
  lemma {:induction false} QueuedIsDecided(rules: Rules, shadows: Shadows, s: State, active: seq<DeviceId>, upTo: nat,
                                           d: DeviceId, m: Mode)
    requires upTo <= |active|
    ensures (d, m) in Issued(rules, shadows, s.regimes, s.controls, active, upTo) <==>
            d in active[..upTo] && Counts(rules, shadows, d)
            && Decision(rules, shadows, s.regimes, s.controls, active, d).1 == Some(m)
  {
    if upTo > 0 {
      QueuedIsDecided(rules, shadows, s, active, upTo - 1, d, m);
      assert active[..upTo] == active[..upTo - 1] + [active[upTo - 1]];
    }
  }

  /** The mode queued for a device, if any, told from the queue. */
  ghost predicate QueuedFor(queue: seq<(DeviceId, Mode)>, d: DeviceId, issue: Option<Mode>) {
    forall m :: (d, m) in queue <==> issue == Some(m)
  }

  lemma PassDecides(rules: Rules, step: Step, s: State, s': State, queue: seq<(DeviceId, Mode)>, d: DeviceId)
    requires Moves(rules, step, s, s', queue) && Sees(rules, step, d)
    ensures var rule := rules[step.shadows[d].group];
            var (next, issue) := ControlOf(s.controls, d).Decided(rule, RegimeOf(s'.regimes, step.shadows[d].group),
                                                                  step.shadows[d].status.value.temp);
            ControlOf(s'.controls, d) == next && QueuedFor(queue, d, issue)
  {
    forall m: Mode
      ensures (d, m) in queue <==>
              Decision(rules, step.shadows, s.regimes, s.controls, step.active, d).1 == Some(m)
    {
      QueuedIsDecided(rules, step.shadows, s, step.active, |step.active|, d, m);
      assert step.active[..|step.active|] == step.active;
    }
  }

  /** A device that is not active, or has not reported, or whose group has no name or no rule, is left alone. */
  lemma OthersAreLeftAlone(rules: Rules, step: Step, s: State, s': State, queue: seq<(DeviceId, Mode)>, d: DeviceId,
                           m: Mode)
    requires Moves(rules, step, s, s', queue) && step.Pass?
    requires d !in step.active || d !in step.shadows || step.shadows[d].group == "" || step.shadows[d].group !in rules
             || !Reports(step.shadows, step.shadows[d].group, d)
    ensures ControlOf(s'.controls, d) == ControlOf(s.controls, d) && (d, m) !in queue
  {
    QueuedIsDecided(rules, step.shadows, s, step.active, |step.active|, d, m);
    assert step.active[..|step.active|] == step.active;
  }

  /** Under one policy, over every run of evaluations with dispatches, failures and releases between them: an
      evaluation with an active device that reports leaves its record at the hot mode if the temperatures it was seen
      with say hot, and otherwise at the busy or idle mode as its group's average loads say, and queues that mode
      exactly if the record did not stand there. */
  lemma QueueFollowsReadings(rules: Rules, steps: seq<Step>, states: seq<State>, queues: seq<seq<(DeviceId, Mode)>>,
                             k: nat, d: DeviceId, g: Group)
    requires IsRun(rules, steps, states, queues) && k < |steps| && StaysIn(rules, d, g, steps[..k + 1])
    requires steps[k].Pass? && d in steps[k].active && Reports(steps[k].shadows, g, d) && g in rules && g != ""
    ensures var loads, temps := LoadsOf(rules, g, steps[..k + 1]), TempsOf(rules, d, steps[..k + 1]);
            var rule, regime := rules[g], RegimeOf(states[0].regimes, g);
            var was, c := ControlOf(states[0].controls, d).thermal, ControlOf(states[k].controls, d);
            var next := ControlOf(states[k + 1].controls, d);
            exists issue :: QueuedFor(queues[k], d, issue) &&
              if Overheated(rule, was, temps) then
                rule.thermal.Some? && Driven(c, next, issue, rule.thermal.value.hotMode)
              else
                && (LoadedBusy(rule, regime, loads) ==> Driven(c, next, issue, rule.busyMode))
                && (LoadedIdle(rule, regime, loads) ==> Driven(c, next, issue, rule.idleMode))
  {
    assert steps[..k + 1][k] == steps[k];
    RegimeFollowsLoads(rules, steps, states, queues, k + 1, g);
    ThermalFollowsTemps(rules, steps, states, queues, k + 1, d, g);
    ThermalIsLastCrossing(rules[g], ControlOf(states[0].controls, d).thermal, TempsOf(rules, d, steps[..k + 1]));
    LoadIsLastCrossing(rules[g], RegimeOf(states[0].regimes, g), LoadsOf(rules, g, steps[..k + 1]));
    assert Moves(rules, steps[k], states[k], states[k + 1], queues[k]);
    PassDecides(rules, steps[k], states[k], states[k + 1], queues[k], d);
  }
}
