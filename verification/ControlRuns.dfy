/** Every run of the control loop is, for the command service, a run of its own. */
module ControlRuns {
  import opened Basics
  import opened CommandSlots
  import opened AgentSessions
  import opened ControlLoop
  import opened ControlSafety
  import Ledgers = CommandLedger

  /** What a step of the loop means to the command service. */
  function ServiceEvents(s: System, e: SystemStep): seq<Ledgers.Event>
    requires SystemEnabled(s, e)
  {
    match e
    case At(d, DispatchQueued(now, transit)) =>
      var w := s.worlds[d];
      [Ledgers.DispatchEvent(d, SetMode(EncodeMode(w.queued.value)), now, Some(0), SendResultOf(w, transit))]
    case At(d, SweepCommand(now, transit)) =>
      var sent := SendResultOf(s.worlds[d], transit);
      [Ledgers.SweepEvent([d], now, Always(sent))]
    case At(d, ControllerReceives(k, now, _, _)) => MessageEvents(s.worlds[d], d, k, now)
    case _ => []
  }

  function Always(sent: SendResult): DeviceId -> SendResult {
    _ => sent
  }

  function MessageEvents(w: World, d: DeviceId, k: ConnectionId, now: Time): seq<Ledgers.Event>
    requires w.HasMessage(k)
  {
    if !w.links[k].phase.Operating? then []
    else
      match w.links[k].up[0]
      case CommandAck(id) => [Ledgers.AckEvent(d, id, now)]
      case CommandOutcome(id, code) => [Ledgers.OutcomeEvent(d, id, code.Success?, now)]
      case _ => []
  }

  function AfterAll(cfg: Config, l: Ledgers.Ledger, events: seq<Ledgers.Event>): Ledgers.Ledger
    requires |events| <= 1
  {
    if events == [] then l else Ledgers.Happens(cfg, l, events[0])
  }

  /** Loop and service track the same commands and give out the same ids. */
  ghost predicate Agree(s: System, l: Ledgers.Ledger) {
    && l.nextId == s.nextId && l.pending.Keys <= s.worlds.Keys
    && forall d :: d in s.worlds ==> SlotIn(l, d) == s.worlds[d].slot
                                     && (s.worlds[d].slot.Some? ==> s.worlds[d].slot.value.sink == Some(0))
  }

  // ---- one step ----

  /** Only device d's command has changed, and alike. */
  lemma AgreeAfterOne(s: System, l: Ledgers.Ledger, d: DeviceId, w: World, nextId: nat, l': Ledgers.Ledger)
    requires Agree(s, l) && d in s.worlds && l'.nextId == nextId
    requires l'.pending - {d} == l.pending - {d} && SlotIn(l', d) == w.slot
    requires w.slot.Some? ==> w.slot.value.sink == Some(0)
    ensures Agree(System(nextId, s.worlds[d := w]), l')
  {
    forall c | c in s.worlds && c != d ensures SlotIn(l', c) == SlotIn(l, c) {
      assert c in l'.pending - {d} <==> c in l'.pending;
      assert c in l.pending - {d} <==> c in l.pending;
    }
    forall c | c in l'.pending ensures c in s.worlds {
      if c != d {
        assert c in l'.pending - {d};
      }
    }
  }

  lemma SweptAlone(cfg: Config, l: Ledgers.Ledger, d: DeviceId, now: Time, sent: SendResult)
    ensures var l' := Ledgers.Sweep(cfg, l, [d], now, Always(sent));
            && l' == Ledgers.SweepOne(cfg, l, d, now, sent)
            && l'.nextId == l.nextId && l'.pending - {d} == l.pending - {d}
            && (d in l'.pending ==> d in l.pending && l'.pending[d].sink == l.pending[d].sink)
  {
    assert [d][..0] == [];
  }

  lemma SweepAgrees(cfg: Config, s: System, l: Ledgers.Ledger, d: DeviceId, now: Time, transit: Transit)
    requires Agree(s, l) && SystemEnabled(s, At(d, SweepCommand(now, transit)))
    ensures var e := At(d, SweepCommand(now, transit));
            Agree(SystemNext(cfg, s, e), AfterAll(cfg, l, ServiceEvents(s, e)))
  {
    var w := s.worlds[d];
    var sent := SendResultOf(w, transit);
    SweptAlone(cfg, l, d, now, sent);
    ServiceSweeps(cfg, l, w, d, now, transit);
    AgreeAfterOne(s, l, d, SweepTracked(cfg, w, now, transit), s.nextId, Ledgers.SweepOne(cfg, l, d, now, sent));
  }

  lemma DispatchAgrees(cfg: Config, s: System, l: Ledgers.Ledger, d: DeviceId, now: Time, transit: Transit)
    requires Agree(s, l) && SystemEnabled(s, At(d, DispatchQueued(now, transit)))
    ensures var e := At(d, DispatchQueued(now, transit));
            Agree(SystemNext(cfg, s, e), AfterAll(cfg, l, ServiceEvents(s, e)))
  {
    var w := s.worlds[d];
    var l' := Ledgers.Dispatch(cfg, l, d, SetMode(EncodeMode(w.queued.value)), now, Some(0), SendResultOf(w, transit));
    ServiceDispatches(cfg, l, w, d, now, transit);
    AgreeAfterOne(s, l, d, DispatchDecided(cfg, w, s.nextId, now, transit), s.nextId + 1, l');
  }

  /** What a message does to the tracked command. */
  function SlotAfterMessage(cfg: Config, slot: Option<Slot>, m: Up, now: Time): Option<Slot> {
    match m
    case CommandAck(id) =>
      if slot.Some? && slot.value.id == id then Some(Acknowledged(cfg, slot.value, now)) else slot
    case CommandOutcome(id, code) =>
      if slot.None? || slot.value.id != id then slot
      else if code.Success? then None
      else AttemptFailed(cfg, slot.value, now)
    case _ => slot
  }

  lemma SlotAfterHearing(cfg: Config, w: World, k: ConnectionId, now: Time, transit: Transit, keep: nat)
    requires w.HasMessage(k) && (w.bound.Some? ==> w.bound.value in w.links)
    ensures Hear(cfg, w, k, now, transit, keep).slot ==
            if w.links[k].phase.Operating? then SlotAfterMessage(cfg, w.slot, w.links[k].up[0], now) else w.slot
  {
  }

  lemma ServiceHears(cfg: Config, l: Ledgers.Ledger, w: World, d: DeviceId, k: ConnectionId, now: Time)
    requires w.HasMessage(k) && SlotIn(l, d) == w.slot && (w.slot.Some? ==> w.slot.value.sink == Some(0))
    ensures var l' := AfterAll(cfg, l, MessageEvents(w, d, k, now));
            && l'.nextId == l.nextId && l'.pending - {d} == l.pending - {d}
            && SlotIn(l', d) == (if w.links[k].phase.Operating?
                                 then SlotAfterMessage(cfg, w.slot, w.links[k].up[0], now) else w.slot)
            && (SlotIn(l', d).Some? ==> SlotIn(l', d).value.sink == Some(0))
  {
  }

  lemma MessageAgrees(cfg: Config, s: System, l: Ledgers.Ledger, d: DeviceId, k: ConnectionId, now: Time,
                      transit: Transit, keep: nat)
    requires Agree(s, l) && SystemEnabled(s, At(d, ControllerReceives(k, now, transit, keep)))
    ensures var e := At(d, ControllerReceives(k, now, transit, keep));
            Agree(SystemNext(cfg, s, e), AfterAll(cfg, l, ServiceEvents(s, e)))
  {
    var w := s.worlds[d];
    SlotAfterHearing(cfg, w, k, now, transit, keep);
    ServiceHears(cfg, l, w, d, k, now);
    AgreeAfterOne(s, l, d, Hear(cfg, w, k, now, transit, keep), s.nextId,
                  AfterAll(cfg, l, MessageEvents(w, d, k, now)));
  }

  /** The other steps leave every tracked command alone. */
  lemma OtherStepsTrackAlike(cfg: Config, w: World, step: Step, nextId: nat)
    requires Enabled(w, step) && !step.DispatchQueued? && !step.SweepCommand? && !step.ControllerReceives?
    ensures Next(cfg, w, step, nextId).slot == w.slot
  {
  }

  lemma StepAgrees(cfg: Config, s: System, e: SystemStep, l: Ledgers.Ledger)
    requires Agree(s, l) && SystemEnabled(s, e)
    ensures Agree(SystemNext(cfg, s, e), AfterAll(cfg, l, ServiceEvents(s, e)))
  {
    match e
    case At(d, DispatchQueued(now, transit)) => DispatchAgrees(cfg, s, l, d, now, transit);
    case At(d, SweepCommand(now, transit)) => SweepAgrees(cfg, s, l, d, now, transit);
    case At(d, ControllerReceives(k, now, transit, keep)) => MessageAgrees(cfg, s, l, d, k, now, transit, keep);
    case At(d, step) =>
      OtherStepsTrackAlike(cfg, s.worlds[d], step, s.nextId);
      AgreeAfterOne(s, l, d, Next(cfg, s.worlds[d], step, s.nextId), s.nextId, l);
    case ReplaceEverywhere =>
  }

  // ---- whole runs ----

  /** What the service has been through when the run has reached state k. */
  ghost function ServiceRun(cfg: Config, modes: map<DeviceId, Mode>, steps: seq<SystemStep>, states: seq<System>,
                            k: nat): seq<Ledgers.Event>
    requires IsRun(cfg, modes, steps, states) && k < |states|
  {
    if k == 0 then []
    else
      assert Follows(cfg, states[k - 1], steps[k - 1], states[k]);
      ServiceRun(cfg, modes, steps, states, k - 1) + ServiceEvents(states[k - 1], steps[k - 1])
  }

  lemma AfterMore(cfg: Config, events: seq<Ledgers.Event>, more: seq<Ledgers.Event>)
    requires |more| <= 1
    ensures Ledgers.After(cfg, events + more) == AfterAll(cfg, Ledgers.After(cfg, events), more)
  {
    if more == [] {
      assert events + more == events;
    } else {
      assert (events + more)[..|events|] == events;
    }
  }

  /** Seen from the command service, every run of the loop is a run of the service: it tracks the same command for
      every device, with the same ids, in every state. */
  lemma {:induction false} LoopRunsTheService(cfg: Config, modes: map<DeviceId, Mode>, steps: seq<SystemStep>,
                                              states: seq<System>, k: nat)
    requires IsRun(cfg, modes, steps, states) && k < |states|
    ensures Agree(states[k], Ledgers.After(cfg, ServiceRun(cfg, modes, steps, states, k)))
  {
    if k > 0 {
      var s, e := states[k - 1], steps[k - 1];
      assert Follows(cfg, s, e, states[k]);
      var events, more := ServiceRun(cfg, modes, steps, states, k - 1), ServiceEvents(s, e);
      LoopRunsTheService(cfg, modes, steps, states, k - 1);
      StepAgrees(cfg, s, e, Ledgers.After(cfg, events));
      AfterMore(cfg, events, more);
      assert ServiceRun(cfg, modes, steps, states, k) == events + more;
    }
  }

  /** So the service's accounts balance in every state of every run of the loop, with the loop's own tracked commands
      as the pending ones. */
  lemma AccountsBalanceInTheLoop(cfg: Config, modes: map<DeviceId, Mode>, steps: seq<SystemStep>,
                                 states: seq<System>, k: nat)
    requires IsRun(cfg, modes, steps, states) && k < |states|
    ensures var l := Ledgers.After(cfg, ServiceRun(cfg, modes, steps, states, k));
            && Ledgers.Balanced(cfg, l)
            && forall d :: d in l.pending <==> d in states[k].worlds && states[k].worlds[d].slot.Some?
  {
    LoopRunsTheService(cfg, modes, steps, states, k);
    Ledgers.EveryRunBalances(cfg, ServiceRun(cfg, modes, steps, states, k));
    var l := Ledgers.After(cfg, ServiceRun(cfg, modes, steps, states, k));
    forall d ensures d in l.pending <==> d in states[k].worlds && states[k].worlds[d].slot.Some? {
      assert d in states[k].worlds ==> SlotIn(l, d) == states[k].worlds[d].slot;
    }
  }
}
