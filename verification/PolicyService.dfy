/** The policy service: judges each group's load and each device's temperature, and issues what has changed. */
module PolicyServices {
  import opened Basics
  import opened DeviceControls
  import opened CommandSlots
  import opened CommandServices
  import Ledgers = CommandLedger

  type Group = string

  datatype Status = Status(load: real, temp: real)

  /** What the controller last heard from a device. */
  datatype Shadow = Shadow(group: Group, status: Option<Status>)

  type Shadows = map<DeviceId, Shadow>

  type Rules = map<Group, GroupRule>

  /** A device that counts toward a group: it has reported, and its group has a name and a rule. */
  predicate Counts(rules: Rules, shadows: Shadows, d: DeviceId) {
    d in shadows && shadows[d].status.Some? && shadows[d].group != "" && shadows[d].group in rules
  }

  predicate Member(rules: Rules, shadows: Shadows, g: Group, d: DeviceId) {
    Counts(rules, shadows, d) && shadows[d].group == g
  }

  function MemberCount(rules: Rules, shadows: Shadows, g: Group, active: seq<DeviceId>): nat {
    if active == [] then 0
    else
      var n := |active| - 1;
      MemberCount(rules, shadows, g, active[..n]) + (if Member(rules, shadows, g, active[n]) then 1 else 0)
  }

  function LoadSum(rules: Rules, shadows: Shadows, g: Group, active: seq<DeviceId>): real {
    if active == [] then 0.0
    else
      var n := |active| - 1;
      LoadSum(rules, shadows, g, active[..n]) +
      (if Member(rules, shadows, g, active[n]) then shadows[active[n]].status.value.load else 0.0)
  }

  function AverageLoad(rules: Rules, shadows: Shadows, g: Group, active: seq<DeviceId>): real
    requires MemberCount(rules, shadows, g, active) > 0
  {
    LoadSum(rules, shadows, g, active) / MemberCount(rules, shadows, g, active) as real
  }

  function RegimeOf(regimes: map<Group, LoadRegime>, g: Group): LoadRegime {
    if g in regimes then regimes[g] else UnknownLoad
  }

  /** A group's judgement after this evaluation: only groups with a member that reported are judged. */
  function Judged(rules: Rules, shadows: Shadows, regimes: map<Group, LoadRegime>, active: seq<DeviceId>, g: Group)
    : LoadRegime
  {
    if g !in rules || MemberCount(rules, shadows, g, active) == 0 then RegimeOf(regimes, g)
    else rules[g].NextRegime(RegimeOf(regimes, g), AverageLoad(rules, shadows, g, active))
  }

  function ControlOf(controls: map<DeviceId, Control>, d: DeviceId): Control {
    if d in controls then controls[d] else FRESH
  }

  /** The decision for one counted device. */
  function Decision(rules: Rules, shadows: Shadows, regimes: map<Group, LoadRegime>,
                    controls: map<DeviceId, Control>, active: seq<DeviceId>, d: DeviceId): (Control, Option<Mode>)
    requires Counts(rules, shadows, d)
  {
    var g := shadows[d].group;
    ControlOf(controls, d).Decided(rules[g], Judged(rules, shadows, regimes, active, g),
                                   shadows[d].status.value.temp)
  }

  /** A device's control after the evaluation has or has not come to it. */
  function Ruled(rules: Rules, shadows: Shadows, regimes: map<Group, LoadRegime>, controls: map<DeviceId, Control>,
                 active: seq<DeviceId>, d: DeviceId, reached: bool): Control
  {
    if reached && Counts(rules, shadows, d) then Decision(rules, shadows, regimes, controls, active, d).0
    else ControlOf(controls, d)
  }

  /** What the evaluation issues, in the order the active devices are enumerated. */
  function Issued(rules: Rules, shadows: Shadows, regimes: map<Group, LoadRegime>, controls: map<DeviceId, Control>,
                  active: seq<DeviceId>, upTo: nat): seq<(DeviceId, Mode)>
    requires upTo <= |active|
  {
    if upTo == 0 then []
    else
      var d := active[upTo - 1];
      var before := Issued(rules, shadows, regimes, controls, active, upTo - 1);
      if Counts(rules, shadows, d) && Decision(rules, shadows, regimes, controls, active, d).1.Some?
      then before + [(d, Decision(rules, shadows, regimes, controls, active, d).1.value)]
      else before
  }

  datatype State = State(regimes: map<Group, LoadRegime>, controls: map<DeviceId, Control>)

  /** What one evaluation does. */
  ghost predicate Evaluated(rules: Rules, shadows: Shadows, active: seq<DeviceId>, before: State, after: State,
                            queue: seq<(DeviceId, Mode)>)
  {
    && (forall g :: RegimeOf(after.regimes, g) == Judged(rules, shadows, before.regimes, active, g))
    && (forall d :: ControlOf(after.controls, d)
                    == Ruled(rules, shadows, before.regimes, before.controls, active, d, d in active))
    && queue == Issued(rules, shadows, before.regimes, before.controls, active, |active|)
  }

  lemma {:induction false} CountedMember(rules: Rules, shadows: Shadows, g: Group, active: seq<DeviceId>, d: DeviceId)
    requires d in active && Member(rules, shadows, g, d)
    ensures MemberCount(rules, shadows, g, active) > 0
  {
    var n := |active| - 1;
    if d != active[n] {
      CountedMember(rules, shadows, g, active[..n], d);
    }
  }

  /** Once a group's load is known it stays known. */
  lemma KnownLoadStaysKnown(rules: Rules, shadows: Shadows, regimes: map<Group, LoadRegime>, active: seq<DeviceId>,
                            g: Group)
    requires !RegimeOf(regimes, g).UnknownLoad?
    ensures !Judged(rules, shadows, regimes, active, g).UnknownLoad?
  {
  }

  class PolicyService {
    const commands: CommandService
    var rules: Rules
    var regimes: map<Group, LoadRegime>
    var controls: map<DeviceId, Control>
    var queue: seq<(DeviceId, Mode)>

    constructor (commands: CommandService)
      ensures this.commands == commands && rules == map[] && regimes == map[] && controls == map[] && queue == []
    {
      this.commands := commands;
      rules, regimes, controls, queue := map[], map[], map[], [];
    }

    method SetPolicy(rules: Rules)
      modifies this`rules, this`controls
      ensures this.rules == rules
      ensures controls == map d | d in old(controls) :: old(controls)[d].Cleared()
    {
      this.rules := rules;
      controls := map d | d in controls :: controls[d].Cleared();
    }

    method OnDeviceReleased(d: DeviceId)
      modifies this`controls
      ensures controls == if d in old(controls) then old(controls)[d := old(controls)[d].Cleared()] else old(controls)
    {
      if d in controls {
        controls := controls[d := controls[d].Cleared()];
      }
    }

    method OnCommandFailed(d: DeviceId, id: nat)
      modifies this`controls
      ensures controls == if d in old(controls) then old(controls)[d := old(controls)[d].Failed(id)] else old(controls)
    {
      if d in controls {
        controls := controls[d := controls[d].Failed(id)];
      }
    }

    /** Judge the groups that have a member reporting. */
    method JudgeGroups(shadows: Shadows, active: seq<DeviceId>)
      modifies this`regimes
      ensures forall g :: RegimeOf(regimes, g) == Judged(rules, shadows, old(regimes), active, g)
    {
      var left := rules.Keys;
      while left != {}
        invariant left <= rules.Keys
        invariant forall g :: RegimeOf(regimes, g) ==
                    if g in left then RegimeOf(old(regimes), g) else Judged(rules, shadows, old(regimes), active, g)
        decreases left
      {
        var g :| g in left;
        var count, sum := Aggregate(shadows, active, g);
        if count != 0 {
          regimes := regimes[g := rules[g].NextRegime(RegimeOf(regimes, g), sum / count as real)];
        }
        left := left - {g};
      }
    }

    method Aggregate(shadows: Shadows, active: seq<DeviceId>, g: Group) returns (count: nat, sum: real)
      ensures count == MemberCount(rules, shadows, g, active) && sum == LoadSum(rules, shadows, g, active)
    {
      count, sum := 0, 0.0;
      for i := 0 to |active|
        invariant count == MemberCount(rules, shadows, g, active[..i])
        invariant sum == LoadSum(rules, shadows, g, active[..i])
      {
        assert active[..i + 1][..i] == active[..i];
        if Member(rules, shadows, g, active[i]) {
          count := count + 1;
          sum := sum + shadows[active[i]].status.value.load;
        }
      }
      assert active[..|active|] == active;
    }

    /** Judge groups and devices and collect what is to be issued; nothing is sent while enumerating. */
    method Evaluate(shadows: Shadows, active: seq<DeviceId>)
      requires forall i, j :: 0 <= i < j < |active| ==> active[i] != active[j]
      modifies this`regimes, this`controls, this`queue
      ensures rules == map[] ==> unchanged(this)
      ensures rules != map[] ==>
                Evaluated(rules, shadows, active, old(State(regimes, controls)), State(regimes, controls), queue)
    {
      if rules == map[] {
        return;
      }
      JudgeGroups(shadows, active);
      queue := [];
      for i := 0 to |active|
        invariant forall d :: ControlOf(controls, d)
                              == Ruled(rules, shadows, old(regimes), old(controls), active, d, d in active[..i])
        invariant queue == Issued(rules, shadows, old(regimes), old(controls), active, i)
        modifies this`controls, this`queue
      {
        var d := active[i];
        assert d !in active[..i];
        assert forall e :: e in active[..i + 1] <==> e in active[..i] || e == d;
        assert ControlOf(controls, d) == ControlOf(old(controls), d);
        ghost var before := controls;
        if Counts(rules, shadows, d) {
          var g := shadows[d].group;
          CountedMember(rules, shadows, g, active, d);
          var (c, issue) := ControlOf(controls, d).Decided(rules[g], RegimeOf(regimes, g), shadows[d].status.value.temp);
          assert (c, issue) == Decision(rules, shadows, old(regimes), old(controls), active, d);
          controls := controls[d := c];
          if issue.Some? {
            queue := queue + [(d, issue.value)];
          }
        }
        forall e
          ensures ControlOf(controls, e)
               == Ruled(rules, shadows, old(regimes), old(controls), active, e, e in active[..i + 1])
        {
          if e != d {
            assert ControlOf(controls, e) == ControlOf(before, e);
          }
        }
      }
      assert active[..|active|] == active;
    }

    /** Dispatch one queued command. `lost` are the devices whose sessions the send ended before it returned: their
        records are cleared first, so a result for one of them is ignored. */
    method CommandOne(device: DeviceId, mode: Mode, now: Time, sent: SendResult, lost: seq<DeviceId>)
      requires commands.Valid()
      modifies this`controls, commands
      ensures commands.Valid()
      ensures commands.Value() == Ledgers.Dispatch(commands.cfg, old(commands.Value()), device,
                                                   SetMode(EncodeMode(mode)), now, Some(0), sent)
      ensures controls.Keys == old(controls).Keys
      ensures forall d :: d in controls ==>
                var c := if d in lost then old(controls)[d].Cleared() else old(controls)[d];
                controls[d] == if d != device then c
                               else c.Dispatched(if sent.Sent? then old(commands.nextId) else 0)
    {
      var id := commands.Dispatch(device, SetMode(EncodeMode(mode)), now, Some(0), sent);
      for i := 0 to |lost|
        invariant controls.Keys == old(controls).Keys
        invariant forall d :: d in controls ==>
                    controls[d] == if d in lost[..i] then old(controls)[d].Cleared() else old(controls)[d]
        modifies this`controls
      {
        assert forall d :: d in lost[..i + 1] <==> d in lost[..i] || d == lost[i];
        OnDeviceReleased(lost[i]);
      }
      if device in controls {
        controls := controls[device := controls[device].Dispatched(id)];
      }
    }
  }
}
