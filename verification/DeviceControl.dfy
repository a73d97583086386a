/** The policy's decision state for one device: the thermal latch, the record of what was last issued, and the
    protection latch that brings a cooled device back when its group's load is still unknown. */
module DeviceControls {
  import opened Basics

  datatype LoadRegime = UnknownLoad | IdleLoad | BusyLoad

  datatype ThermalRegime = Cool | Hot

  datatype ThermalRule = ThermalRule(hotTemp: real, coolTemp: real, hotMode: Mode)

  /** Load hysteresis band, target modes and an optional thermal override. */
  datatype GroupRule = GroupRule(
    busyLoad: real, idleLoad: real, busyMode: Mode, idleMode: Mode, thermal: Option<ThermalRule>)
  {
    /** The bands must not be empty or inverted. */
    static function Create(busyLoad: real, idleLoad: real, busyMode: Mode, idleMode: Mode,
                           thermal: Option<ThermalRule>): (r: Option<GroupRule>)
      ensures r.Some? <==> GroupRule(busyLoad, idleLoad, busyMode, idleMode, thermal).WellFormed()
      ensures r.Some? ==> r.value == GroupRule(busyLoad, idleLoad, busyMode, idleMode, thermal)
    {
      if !(idleLoad < busyLoad) then None
      else if thermal.Some? && !(thermal.value.coolTemp < thermal.value.hotTemp) then None
      else Some(GroupRule(busyLoad, idleLoad, busyMode, idleMode, thermal))
    }

    predicate WellFormed() {
      idleLoad < busyLoad && (thermal.Some? ==> thermal.value.coolTemp < thermal.value.hotTemp)
    }

    function NextRegime(prev: LoadRegime, avg: real): LoadRegime {
      if avg > busyLoad then BusyLoad else if avg < idleLoad then IdleLoad else prev
    }

    function NextThermal(prev: ThermalRegime, temp: real): ThermalRegime {
      if thermal.None? then Cool
      else if temp > thermal.value.hotTemp then Hot
      else if temp < thermal.value.coolTemp then Cool
      else prev
    }
  }

  /** A load in the dead band. */
  ghost predicate KeepsRegime(rule: GroupRule, avg: real) {
    forall prev :: rule.NextRegime(prev, avg) == prev
  }

  ghost predicate KeepsThermal(rule: GroupRule, temp: real) {
    forall prev :: rule.NextThermal(prev, temp) == prev
  }

  /** A rule can be created exactly if its dead bands are wider than a point. */
  lemma CreatedIffBandsAreWide(busyLoad: real, idleLoad: real, busyMode: Mode, idleMode: Mode,
                               thermal: Option<ThermalRule>)
    ensures var rule := GroupRule(busyLoad, idleLoad, busyMode, idleMode, thermal);
            GroupRule.Create(busyLoad, idleLoad, busyMode, idleMode, thermal).Some? <==>
            && (exists a, b :: a < b && KeepsRegime(rule, a) && KeepsRegime(rule, b))
            && (thermal.Some? ==> exists a, b :: a < b && KeepsThermal(rule, a) && KeepsThermal(rule, b))
  {
    var rule := GroupRule(busyLoad, idleLoad, busyMode, idleMode, thermal);
    forall avg ensures KeepsRegime(rule, avg) <==> idleLoad <= avg <= busyLoad {
      assert rule.NextRegime(UnknownLoad, avg) == UnknownLoad <==> idleLoad <= avg <= busyLoad;
    }
    if idleLoad < busyLoad {
      assert KeepsRegime(rule, idleLoad) && KeepsRegime(rule, busyLoad);
    }
    if thermal.Some? {
      forall temp ensures KeepsThermal(rule, temp) <==> thermal.value.coolTemp <= temp <= thermal.value.hotTemp {
        assert rule.NextThermal(Cool, temp) == Cool && rule.NextThermal(Hot, temp) == Hot <==>
               thermal.value.coolTemp <= temp <= thermal.value.hotTemp;
      }
      assert thermal.value.coolTemp < thermal.value.hotTemp ==>
          KeepsThermal(rule, thermal.value.coolTemp) && KeepsThermal(rule, thermal.value.hotTemp);
    }
  }

  /** The fields of the control object. Command 0 is "no command". */
  datatype Control = Control(
    thermal: ThermalRegime, protectionCommanded: bool,
    mode: Option<Mode>, command: nat, failed: bool, awaiting: bool)
  {
    /** The mode this evaluation wants the device to be in, if it wants one. */
    function Target(rule: GroupRule, regime: LoadRegime): Option<Mode> {
      if thermal.Hot? && rule.thermal.Some? then Some(rule.thermal.value.hotMode)
      else match regime
        case IdleLoad => Some(rule.idleMode)
        case BusyLoad => Some(rule.busyMode)
        case UnknownLoad => if protectionCommanded then Some(rule.idleMode) else if failed then mode else None
    }

    /** One evaluation: the next state and the mode to issue now, if any. */
    function Decided(rule: GroupRule, regime: LoadRegime, temp: real): (Control, Option<Mode>) {
      var heated := this.(thermal := rule.NextThermal(thermal, temp));
      var target := heated.Target(rule, regime);
      if target.None? || (mode == target && !failed) then (heated, None)
      else
        (heated.(mode := target, failed := false, awaiting := true,
                 protectionCommanded :=
                   heated.thermal.Hot? || (regime.UnknownLoad? && protectionCommanded)),
         target)
    }

    /** The first send of the decided command came back with this id (0 when it was not sent). */
    function Dispatched(id: nat): Control {
      if !awaiting then this else this.(awaiting := false, command := id, failed := id == 0)
    }

    /** A command was given up. */
    function Failed(id: nat): Control {
      if id == command then this.(failed := true) else this
    }

    /** The policy was replaced or the device's session ended. */
    function Cleared(): Control {
      this.(mode := None, command := 0, failed := false, awaiting := false)
    }
  }

  const FRESH: Control := Control(Cool, false, None, 0, false, false)

  /** The control object itself, updated in place. */
  class DeviceControl {
    var thermal: ThermalRegime
    var protectionCommanded: bool
    var mode: Option<Mode>
    var command: nat
    var failed: bool
    var awaiting: bool

    function Value(): Control
      reads this
    {
      Control(thermal, protectionCommanded, mode, command, failed, awaiting)
    }

    constructor ()
      ensures Value() == FRESH
    {
      thermal, protectionCommanded := Cool, false;
      mode, command, failed, awaiting := None, 0, false, false;
    }

    method Decide(rule: GroupRule, regime: LoadRegime, temp: real) returns (issue: Option<Mode>)
      modifies this
      ensures (Value(), issue) == old(Value()).Decided(rule, regime, temp)
    {
      thermal := rule.NextThermal(thermal, temp);
      var target: Option<Mode> := None;
      if thermal.Hot? && rule.thermal.Some? {
        target := Some(rule.thermal.value.hotMode);
      } else {
        match regime {
          case IdleLoad => target := Some(rule.idleMode);
          case BusyLoad => target := Some(rule.busyMode);
          case UnknownLoad =>
            if protectionCommanded {
              target := Some(rule.idleMode);
            } else if failed {
              target := mode;
            }
        }
      }
      if target.None? {
        return None;
      }
      if mode == target && !failed {
        return None;
      }
      mode := target;
      failed := false;
      awaiting := true;
      if thermal.Hot? {
        protectionCommanded := true;
      } else if !regime.UnknownLoad? {
        protectionCommanded := false;
      }
      return target;
    }

    method RecordDispatch(id: nat)
      modifies this
      ensures Value() == old(Value()).Dispatched(id)
    {
      if !awaiting {
        return;
      }
      awaiting := false;
      command := id;
      failed := id == 0;
    }

    method RecordFailure(id: nat)
      modifies this
      ensures Value() == old(Value()).Failed(id)
    {
      if id == command {
        failed := true;
      }
    }

    method ClearRecord()
      modifies this
      ensures Value() == old(Value()).Cleared()
    {
      mode := None;
      command := 0;
      failed := false;
      awaiting := false;
    }
  }

  // ---------------------------------------------------------------------------------------------------------------
  // Hysteresis: each latch remembers on which side of its band the last reading outside the band lay.

  function LoadAfter(rule: GroupRule, start: LoadRegime, loads: seq<real>): LoadRegime {
    if loads == [] then start
    else rule.NextRegime(LoadAfter(rule, start, loads[..|loads| - 1]), loads[|loads| - 1])
  }

  /** The reading at k is above the band and no later reading is below it. */
  ghost predicate LastCrossing(above: real, below: real, readings: seq<real>, k: nat) {
    k < |readings| && readings[k] > above && forall j :: k < j < |readings| ==> !(readings[j] < below)
  }

  ghost predicate LastCrossingBelow(above: real, below: real, readings: seq<real>, k: nat) {
    k < |readings| && readings[k] < below && forall j :: k < j < |readings| ==> !(readings[j] > above)
  }

  /** Busy exactly when some load was above the band and none below it since; idle the other way round; and the
      starting judgement is kept exactly when every load stayed in the band. */
  lemma {:induction false} LoadRegimeIsLastCrossing(rule: GroupRule, start: LoadRegime, loads: seq<real>)
    requires rule.WellFormed()
    ensures (exists k: nat :: LastCrossing(rule.busyLoad, rule.idleLoad, loads, k))
            ==> LoadAfter(rule, start, loads) == BusyLoad
    ensures (exists k: nat :: LastCrossingBelow(rule.busyLoad, rule.idleLoad, loads, k))
            ==> LoadAfter(rule, start, loads) == IdleLoad
    ensures (forall k :: 0 <= k < |loads| ==> rule.idleLoad <= loads[k] <= rule.busyLoad)
            ==> LoadAfter(rule, start, loads) == start
    ensures (exists k: nat :: LastCrossing(rule.busyLoad, rule.idleLoad, loads, k))
            || (exists k: nat :: LastCrossingBelow(rule.busyLoad, rule.idleLoad, loads, k))
            || (forall k :: 0 <= k < |loads| ==> rule.idleLoad <= loads[k] <= rule.busyLoad)
  {
    if loads != [] {
      var n := |loads| - 1;
      var before := loads[..n];
      LoadRegimeIsLastCrossing(rule, start, before);
      if loads[n] > rule.busyLoad {
        assert LastCrossing(rule.busyLoad, rule.idleLoad, loads, n);
      } else if loads[n] < rule.idleLoad {
        assert LastCrossingBelow(rule.busyLoad, rule.idleLoad, loads, n);
      }
      forall k: nat | LastCrossing(rule.busyLoad, rule.idleLoad, loads, k) && k < n
        ensures LastCrossing(rule.busyLoad, rule.idleLoad, before, k)
      {
        assert forall j :: k < j < n ==> before[j] == loads[j];
      }
      forall k: nat | LastCrossingBelow(rule.busyLoad, rule.idleLoad, loads, k) && k < n
        ensures LastCrossingBelow(rule.busyLoad, rule.idleLoad, before, k)
      {
        assert forall j :: k < j < n ==> before[j] == loads[j];
      }
      if k: nat :| LastCrossing(rule.busyLoad, rule.idleLoad, before, k) {
        assert loads[n] < rule.idleLoad || LastCrossing(rule.busyLoad, rule.idleLoad, loads, k);
      } else if k: nat :| LastCrossingBelow(rule.busyLoad, rule.idleLoad, before, k) {
        assert loads[n] > rule.busyLoad || LastCrossingBelow(rule.busyLoad, rule.idleLoad, loads, k);
      }
    }
  }

  function ThermalAfter(rule: GroupRule, start: ThermalRegime, temps: seq<real>): ThermalRegime {
    if temps == [] then start
    else rule.NextThermal(ThermalAfter(rule, start, temps[..|temps| - 1]), temps[|temps| - 1])
  }

  /** With a thermal rule, hot exactly when some reading was above its band and none below it since, or when it was hot
      already and every reading stayed in the band. Without one, cool. */
  ghost predicate Overheated(rule: GroupRule, start: ThermalRegime, temps: seq<real>) {
    if rule.thermal.None? then temps == [] && start.Hot?
    else
      var hot, cool := rule.thermal.value.hotTemp, rule.thermal.value.coolTemp;
      || (exists k: nat :: LastCrossing(hot, cool, temps, k))
      || (start.Hot? && forall k :: 0 <= k < |temps| ==> cool <= temps[k] <= hot)
  }

  lemma {:induction false} ThermalIsLastCrossing(rule: GroupRule, start: ThermalRegime, temps: seq<real>)
    requires rule.WellFormed()
    ensures ThermalAfter(rule, start, temps).Hot? <==> Overheated(rule, start, temps)
  {
    if temps != [] {
      var n := |temps| - 1;
      ThermalIsLastCrossing(rule, start, temps[..n]);
      if rule.thermal.Some? {
        LastCrossingGrows(rule.thermal.value.hotTemp, rule.thermal.value.coolTemp, temps);
      }
    }
  }

  /** Where the last crossing upward is, is decided by the last reading, or else as before it. */
  lemma LastCrossingGrows(above: real, below: real, readings: seq<real>)
    requires readings != [] && below < above
    ensures var n := |readings| - 1;
            (exists k: nat :: LastCrossing(above, below, readings, k)) <==>
              readings[n] > above
              || (readings[n] >= below && exists k: nat :: LastCrossing(above, below, readings[..n], k))
  {
    var n := |readings| - 1;
    if readings[n] > above {
      assert LastCrossing(above, below, readings, n);
    } else if readings[n] >= below {
      forall k: nat ensures LastCrossing(above, below, readings, k) <==> LastCrossing(above, below, readings[..n], k) {
        if k < n {
          assert forall j :: k < j < n ==> readings[..n][j] == readings[j];
        }
      }
    }
  }

  // ---------------------------------------------------------------------------------------------------------------
  // The protection latch against the whole history of a device.

  datatype Event =
    | Evaluate(rule: GroupRule, regime: LoadRegime, temp: real)
    | DispatchedAs(id: nat)
    | GivenUp(id: nat)
    | Clear

  /** What one issued command was issued under. */
  datatype Issue = Issue(hot: bool, known: bool)

  function React(c: Control, e: Event): Control {
    match e
    case Evaluate(rule, regime, temp) => c.Decided(rule, regime, temp).0
    case DispatchedAs(id) => c.Dispatched(id)
    case GivenUp(id) => c.Failed(id)
    case Clear => c.Cleared()
  }

  /** The issue this event makes, as a sequence of at most one. */
  function IssueOf(c: Control, e: Event): seq<Issue> {
    if e.Evaluate? && c.Decided(e.rule, e.regime, e.temp).1.Some?
    then [Issue(e.rule.NextThermal(c.thermal, e.temp).Hot?, !e.regime.UnknownLoad?)]
    else []
  }

  function After(events: seq<Event>): Control {
    if events == [] then FRESH else React(After(events[..|events| - 1]), events[|events| - 1])
  }

  function Issues(events: seq<Event>): seq<Issue> {
    if events == [] then []
    else
      var before := events[..|events| - 1];
      Issues(before) + IssueOf(After(before), events[|events| - 1])
  }

  /** Issue k was hot, and every later issue was hot too or was made while the load was unknown. */
  ghost predicate Owed(issues: seq<Issue>, k: nat) {
    k < |issues| && issues[k].hot && forall j :: k < j < |issues| ==> issues[j].hot || !issues[j].known
  }

  ghost predicate SomeOwed(issues: seq<Issue>) {
    exists k: nat :: Owed(issues, k)
  }

  /** One more issue: a hot one is owed, one made unknowing leaves what was owed, and a cool one made knowing settles
      everything. */
  lemma OwedAfter(issues: seq<Issue>, i: Issue)
    ensures SomeOwed(issues + [i]) <==> i.hot || (!i.known && SomeOwed(issues))
  {
    var more, n := issues + [i], |issues|;
    if i.hot {
      assert Owed(more, n);
    } else if !i.known && SomeOwed(issues) {
      var k: nat :| Owed(issues, k);
      forall j | k < j < |more| ensures more[j].hot || !more[j].known {
        assert j < n ==> more[j] == issues[j];
      }
      assert Owed(more, k);
    }
    if SomeOwed(more) && !i.hot {
      var k: nat :| Owed(more, k);
      assert k < n && more[k] == issues[k];
      forall j | k < j < n ensures issues[j].hot || !issues[j].known {
        assert more[j] == issues[j];
      }
      assert Owed(issues, k) && more[n] == i;
    }
  }

  /** An evaluation that issues a command sets the latch when hot, clears it when it knows the load, and otherwise,
      like every other event, leaves it. */
  lemma LatchAfter(c: Control, e: Event)
    ensures React(c, e).protectionCommanded ==
            var issue := IssueOf(c, e);
            if issue == [] then c.protectionCommanded
            else issue[0].hot || (!issue[0].known && c.protectionCommanded)
  {
  }

  /** Over every history of evaluations, dispatch results, failures, releases and policy replacements, the latch
      is set exactly when a hot issue is still owed its way back. */
  lemma {:induction false} ProtectionHistory(events: seq<Event>)
    ensures After(events).protectionCommanded <==> SomeOwed(Issues(events))
  {
    if events != [] {
      var before, last := events[..|events| - 1], events[|events| - 1];
      ProtectionHistory(before);
      LatchAfter(After(before), last);
      var issue := IssueOf(After(before), last);
      if issue == [] {
        assert Issues(before) + [] == Issues(before);
      } else {
        OwedAfter(Issues(before), issue[0]);
      }
    }
  }

  /** A device that is owed its way back and reads cool while the load is unknown is driven to the idle mode of the
      rule in force, even one with no thermal part: the evaluation leaves the record at that mode and unfailed, and
      issues a command unless the record already stood there unfailed. The latch itself stays. */
  lemma CooledDeviceReturnsToIdle(events: seq<Event>, rule: GroupRule, temp: real)
    requires SomeOwed(Issues(events))
    requires rule.NextThermal(After(events).thermal, temp).Cool?
    ensures var c := After(events);
            var (next, issue) := c.Decided(rule, UnknownLoad, temp);
            && next.mode == Some(rule.idleMode) && !next.failed && next.protectionCommanded
            && issue == (if c.mode == Some(rule.idleMode) && !c.failed then None else Some(rule.idleMode))
  {
    ProtectionHistory(events);
  }

  /** A device never commanded into protection is left alone while the load is unknown and it is cool, except that
      the target of a failed command is tried again. */
  lemma UnknownLoadLeavesDeviceAlone(events: seq<Event>, rule: GroupRule, temp: real)
    requires !SomeOwed(Issues(events))
    requires rule.NextThermal(After(events).thermal, temp).Cool?
    ensures var c := After(events);
            c.Decided(rule, UnknownLoad, temp).1 == if c.failed then c.mode else None
  {
    ProtectionHistory(events);
  }
}
