/** What a device is driven to, told by the loads and temperatures that were read and not by the rule's own code. */
module DeviceReadings {
  import opened Basics
  import opened DeviceControls

  /** The load was above the band and not below it since, or busy already and always in the band. */
  ghost predicate LoadedBusy(rule: GroupRule, start: LoadRegime, loads: seq<real>) {
    || (exists k: nat :: LastCrossing(rule.busyLoad, rule.idleLoad, loads, k))
    || (start.BusyLoad? && forall k :: 0 <= k < |loads| ==> rule.idleLoad <= loads[k] <= rule.busyLoad)
  }

  ghost predicate LoadedIdle(rule: GroupRule, start: LoadRegime, loads: seq<real>) {
    || (exists k: nat :: LastCrossingBelow(rule.busyLoad, rule.idleLoad, loads, k))
    || (start.IdleLoad? && forall k :: 0 <= k < |loads| ==> rule.idleLoad <= loads[k] <= rule.busyLoad)
  }

  lemma LoadIsLastCrossing(rule: GroupRule, start: LoadRegime, loads: seq<real>)
    requires rule.WellFormed()
    ensures LoadedBusy(rule, start, loads) <==> LoadAfter(rule, start, loads).BusyLoad?
    ensures LoadedIdle(rule, start, loads) <==> LoadAfter(rule, start, loads).IdleLoad?
  {
    LoadRegimeIsLastCrossing(rule, start, loads);
  }

  // ---- a device's history ----

  /** Every evaluation among these events was under this rule. */
  ghost predicate AllUnder(rule: GroupRule, events: seq<Event>) {
    forall i :: 0 <= i < |events| && events[i].Evaluate? ==> events[i].rule == rule
  }

  function Temps(events: seq<Event>): seq<real> {
    if events == [] then []
    else
      var front, last := Temps(events[..|events| - 1]), events[|events| - 1];
      if last.Evaluate? then front + [last.temp] else front
  }

  lemma TempsGrow(front: seq<Event>, e: Event)
    ensures Temps(front + [e]) == if e.Evaluate? then Temps(front) + [e.temp] else Temps(front)
  {
    assert (front + [e])[..|front|] == front;
  }

  lemma ThermalGrows(rule: GroupRule, start: ThermalRegime, temps: seq<real>, temp: real)
    ensures ThermalAfter(rule, start, temps + [temp]) == rule.NextThermal(ThermalAfter(rule, start, temps), temp)
  {
    assert (temps + [temp])[..|temps|] == temps;
  }

  lemma AfterGrows(events: seq<Event>, e: Event)
    ensures After(events + [e]) == React(After(events), e)
  {
    assert (events + [e])[..|events|] == events;
  }

  lemma ThermalReacts(c: Control, e: Event)
    ensures React(c, e).thermal == if e.Evaluate? then e.rule.NextThermal(c.thermal, e.temp) else c.thermal
  {
  }

  /** Dispatches, failures, releases and policy replacements do not touch the thermal judgement. */
  lemma {:induction false} ThermalFollowsReadings(before: seq<Event>, since: seq<Event>, rule: GroupRule)
    requires AllUnder(rule, since)
    ensures After(before + since).thermal == ThermalAfter(rule, After(before).thermal, Temps(since))
  {
    if since == [] {
      assert before + since == before;
    } else {
      var front, e := since[..|since| - 1], since[|since| - 1];
      assert since == front + [e] && before + since == before + front + [e];
      ThermalFollowsReadings(before, front, rule);
      AfterGrows(before + front, e);
      ThermalReacts(After(before + front), e);
      TempsGrow(front, e);
      if e.Evaluate? {
        ThermalGrows(rule, After(before).thermal, Temps(front), e.temp);
      }
    }
  }

  /** The record stands at this mode, unfailed, and a command was issued exactly if it had not stood there before. */
  predicate Driven(c: Control, next: Control, issue: Option<Mode>, mode: Mode) {
    && next.mode == Some(mode) && !next.failed
    && issue == (if c.mode == Some(mode) && !c.failed then None else Some(mode))
    && (issue.Some? ==> next.awaiting)
  }

  /** One evaluation, told by the device's temperature after it and the group's regime. */
  lemma RegimesDecide(c: Control, rule: GroupRule, regime: LoadRegime, temp: real)
    ensures var (next, issue) := c.Decided(rule, regime, temp);
            && next.thermal == rule.NextThermal(c.thermal, temp)
            && (next.thermal.Hot? ==> rule.thermal.Some? && Driven(c, next, issue, rule.thermal.value.hotMode))
            && (next.thermal.Cool? && regime.BusyLoad? ==> Driven(c, next, issue, rule.busyMode))
            && (next.thermal.Cool? && regime.IdleLoad? ==> Driven(c, next, issue, rule.idleMode))
  {
  }

  /** The device is hot after this reading, told by all the readings since the rule came into force. */
  lemma TemperatureDecides(before: seq<Event>, since: seq<Event>, rule: GroupRule, temp: real)
    requires rule.WellFormed() && AllUnder(rule, since)
    ensures rule.NextThermal(After(before + since).thermal, temp).Hot? <==>
            Overheated(rule, After(before).thermal, Temps(since) + [temp])
  {
    var temps := Temps(since) + [temp];
    assert temps[..|temps| - 1] == Temps(since);
    ThermalFollowsReadings(before, since, rule);
    ThermalIsLastCrossing(rule, After(before).thermal, temps);
  }

  /** Whatever happened to a device before, and whatever commands came and went since its rule came into force: an
      evaluation drives it to the rule's hot mode if the temperatures read since say hot, and otherwise to its busy
      or idle mode as the group's loads say. */
  lemma ReadingsDecide(before: seq<Event>, since: seq<Event>, rule: GroupRule, start: LoadRegime, loads: seq<real>,
                       temp: real)
    requires rule.WellFormed() && AllUnder(rule, since)
    ensures var c, temps := After(before + since), Temps(since) + [temp];
            var (next, issue) := c.Decided(rule, LoadAfter(rule, start, loads), temp);
            if Overheated(rule, After(before).thermal, temps) then
              next.thermal.Hot? && rule.thermal.Some? && Driven(c, next, issue, rule.thermal.value.hotMode)
            else
              && next.thermal.Cool?
              && (LoadedBusy(rule, start, loads) ==> Driven(c, next, issue, rule.busyMode))
              && (LoadedIdle(rule, start, loads) ==> Driven(c, next, issue, rule.idleMode))
  {
    TemperatureDecides(before, since, rule, temp);
    LoadIsLastCrossing(rule, start, loads);
    RegimesDecide(After(before + since), rule, LoadAfter(rule, start, loads), temp);
  }
}
