/** A command that the device accepts is settled as a success once its outcome gets through. */
module ControlOutcomes {
  import opened Basics
  import opened DeviceControls
  import opened CommandSlots
  import opened AgentSessions
  import opened ControlLoop
  import opened ControlInvariant
  import opened ControlSafety
  import opened ControlRuns
  import Ledgers = CommandLedger

  // ---- the controller's steps ----

  /** The agent is as it was, and every link holds no more from it than before. */
  ghost predicate OnlyReads(w: World, w': World) {
    && w'.agent == w.agent && w'.current == w.current && w'.links.Keys == w.links.Keys
    && forall k :: k in w.links ==> forall m :: m in w'.links[k].up ==> m in w.links[k].up
  }

  lemma CloseOnlyReads(w: World, k: ConnectionId, keep: nat)
    requires k in w.links
    ensures OnlyReads(w, CloseLink(w, k, keep))
  {
  }

  lemma SendOnlyReads(w: World, id: nat, command: Command, transit: Transit)
    requires w.Reachable()
    ensures OnlyReads(w, SendCommand(w, id, command, transit))
  {
    if transit.teardown.Some? {
      CloseOnlyReads(Enqueue(w, id, command, transit.kept), w.bound.value, transit.teardown.value);
    }
  }

  lemma RegisterOnlyReads(w: World, k: ConnectionId, transit: Transit, keep: nat)
    requires k in w.links && (w.bound.Some? ==> w.bound.value in w.links)
    ensures OnlyReads(w, Register(w, k, transit, keep))
  {
    if w.bound.Some? {
      CloseOnlyReads(w, w.bound.value, keep);
    }
    if transit.teardown.Some? {
      CloseOnlyReads(Bind(Evicted(w, keep), k, transit.kept), k, transit.teardown.value);
    }
  }

  lemma TakeOnlyReads(w: World, k: ConnectionId, l: Link)
    requires w.HasMessage(k) && l.up == w.links[k].up[1..]
    ensures OnlyReads(w, SetLink(w, k, l))
  {
  }

  lemma HearOnlyReads(cfg: Config, w: World, k: ConnectionId, now: Time, transit: Transit, keep: nat)
    requires w.HasMessage(k) && (w.bound.Some? ==> w.bound.value in w.links)
    ensures OnlyReads(w, Hear(cfg, w, k, now, transit, keep))
  {
    var l := w.links[k];
    var w' := SetLink(w, k, l.(up := l.up[1..]));
    TakeOnlyReads(w, k, l.(up := l.up[1..]));
    CloseOnlyReads(w', k, keep);
    match l.phase
    case Handshaking => RegisterOnlyReads(w', k, transit, keep);
    case _ =>
  }

  predicate AgentStep(step: Step) {
    step.Connect? || step.AgentHangsUp? || step.AgentReceives? || step.AgentReports?
  }

  lemma ControllerOnlyReads(cfg: Config, w: World, step: Step, nextId: nat)
    requires Enabled(w, step) && !AgentStep(step)
    ensures OnlyReads(w, Next(cfg, w, step, nextId))
  {
    match step
    case ControllerReceives(k, now, transit, keep) => HearOnlyReads(cfg, w, k, now, transit, keep);
    case ControllerCloses(k, keep) => CloseOnlyReads(w, k, keep);
    case SweepCommand(now, transit) =>
      if w.Reachable() {
        SendOnlyReads(w, w.slot.value.id, w.slot.value.command, transit);
      }
    case DispatchQueued(now, transit) =>
      if w.Reachable() {
        SendOnlyReads(w, nextId, SetMode(EncodeMode(w.queued.value)), transit);
      }
    case _ =>
  }

  // ---- the outcomes on the way speak of what was heard ----

  /** What the agent has sent on its connection is about commands up to the last one it heard. */
  ghost predicate UpToLast(w: World) {
    w.current.Some? && w.current.value in w.links ==>
      forall m :: m in w.links[w.current.value].up && m.CommandOutcome? ==> m.id <= w.agent.lastId
  }

  lemma UpToLastKeeps(cfg: Config, w: World, step: Step, nextId: nat)
    requires Inv(w, nextId) && UpToLast(w) && Enabled(w, step)
    ensures UpToLast(Next(cfg, w, step, nextId))
  {
    if AgentStep(step) {
      AgentUpToLast(cfg, w, step, nextId);
    } else {
      ControllerOnlyReads(cfg, w, step, nextId);
    }
  }

  lemma AgentUpToLast(cfg: Config, w: World, step: Step, nextId: nat)
    requires Inv(w, nextId) && UpToLast(w) && Enabled(w, step) && AgentStep(step)
    ensures UpToLast(Next(cfg, w, step, nextId))
  {
    if step.AgentReceives? {
      HeardIsNext(w, step.reaction);
    }
  }

  /** What the agent hears while it is active is a command no older than the last one. */
  lemma HeardIsNext(w: World, reaction: Reaction)
    requires AgentOk(w) && w.MayReceive()
    ensures var m := w.links[w.current.value].down[0];
            w.agent.state.Active? ==> m.CommandRequest? && Genuine(w, m.request) && w.agent.lastId <= m.request.id
  {
    var down := w.links[w.current.value].down;
    assert InboxOk(w, down);
    if w.agent.state.Active? {
      assert Awaited(w, down[0]);
    }
  }

  /** Every outcome of this command on connection k is a success, and so is what the agent would answer again. */
  ghost predicate AllSuccess(w: World, k: ConnectionId, id: nat) {
    && k in w.links
    && (forall m :: m in w.links[k].up && m.CommandOutcome? && m.id == id ==> m.code == Success)
    && (w.OnCurrent(k) ==> w.agent.lastId > id || (w.agent.lastId == id && w.agent.lastCode == Success))
  }

  lemma AgentAllSuccess(cfg: Config, w: World, step: Step, nextId: nat, k: ConnectionId, id: nat)
    requires Inv(w, nextId) && AllSuccess(w, k, id) && Enabled(w, step) && AgentStep(step) && id >= 1
    ensures AllSuccess(Next(cfg, w, step, nextId), k, id)
  {
    if step.AgentReceives? {
      HeardIsNext(w, step.reaction);
    }
  }

  lemma AllSuccessKeeps(cfg: Config, w: World, step: Step, nextId: nat, k: ConnectionId, id: nat)
    requires Inv(w, nextId) && AllSuccess(w, k, id) && Enabled(w, step) && id >= 1
    ensures AllSuccess(Next(cfg, w, step, nextId), k, id)
  {
    if AgentStep(step) {
      AgentAllSuccess(cfg, w, step, nextId, k, id);
    } else {
      ControllerOnlyReads(cfg, w, step, nextId);
    }
  }

  // ---- runs ----

  lemma {:induction false} EveryStateUpToLast(cfg: Config, modes: map<DeviceId, Mode>, steps: seq<SystemStep>,
                                              states: seq<System>, i: nat, d: DeviceId)
    requires IsRun(cfg, modes, steps, states) && i < |states| && d in states[i].worlds
    ensures UpToLast(states[i].worlds[d])
  {
    if i > 0 {
      assert Follows(cfg, states[i - 1], steps[i - 1], states[i]);
      EveryStateSafe(cfg, modes, steps, states, i - 1);
      EveryStateUpToLast(cfg, modes, steps, states, i - 1, d);
      SystemUpToLast(cfg, states[i - 1], steps[i - 1], states[i], d);
    }
  }

  lemma SystemUpToLast(cfg: Config, s: System, e: SystemStep, s': System, d: DeviceId)
    requires Follows(cfg, s, e, s') && d in s'.worlds && d in s.worlds
    requires Inv(s.worlds[d], s.nextId) && UpToLast(s.worlds[d])
    ensures UpToLast(s'.worlds[d])
  {
    if e.At? && e.device == d {
      UpToLastKeeps(cfg, s.worlds[d], e.step, s.nextId);
    }
  }

  lemma SystemAllSuccess(cfg: Config, s: System, e: SystemStep, s': System, d: DeviceId, k: ConnectionId, id: nat)
    requires Follows(cfg, s, e, s') && d in s.worlds && Inv(s.worlds[d], s.nextId) && id >= 1
    requires AllSuccess(s.worlds[d], k, id)
    ensures d in s'.worlds && AllSuccess(s'.worlds[d], k, id)
  {
    if e.At? && e.device == d {
      AllSuccessKeeps(cfg, s.worlds[d], e.step, s.nextId, k, id);
    }
  }

  lemma AllSuccessNext(cfg: Config, modes: map<DeviceId, Mode>, steps: seq<SystemStep>, states: seq<System>, j: nat,
                       d: DeviceId, k: ConnectionId, id: nat)
    requires IsRun(cfg, modes, steps, states) && j < |steps| && d in states[j].worlds && id >= 1
    requires AllSuccess(states[j].worlds[d], k, id)
    ensures d in states[j + 1].worlds && AllSuccess(states[j + 1].worlds[d], k, id)
  {
    assert Follows(cfg, states[j], steps[j], states[j + 1]);
    EveryStateSafe(cfg, modes, steps, states, j);
    SystemAllSuccess(cfg, states[j], steps[j], states[j + 1], d, k, id);
  }

  lemma {:induction false} StaysAllSuccess(cfg: Config, modes: map<DeviceId, Mode>, steps: seq<SystemStep>,
                                           states: seq<System>, i: nat, j: nat, d: DeviceId, k: ConnectionId, id: nat)
    requires IsRun(cfg, modes, steps, states) && i <= j < |states| && d in states[i].worlds && id >= 1
    requires AllSuccess(states[i].worlds[d], k, id)
    ensures d in states[j].worlds && AllSuccess(states[j].worlds[d], k, id)
  {
    if i < j {
      StaysAllSuccess(cfg, modes, steps, states, i, j - 1, d, k, id);
      AllSuccessNext(cfg, modes, steps, states, j - 1, d, k, id);
    }
  }

  /** The agent reads this request, which does not repeat the last one, and the device accepts what it asks. */
  predicate HearsAnew(w: World, step: Step, k: ConnectionId, r: Request) {
    && step.AgentReceives? && step.reaction.accepts && w.MayReceive() && w.OnCurrent(k) && w.agent.state.Active?
    && w.links[k].down[0] == CommandRequest(r) && !Repeats(w.agent, r)
  }

  lemma AcceptedStarts(cfg: Config, w: World, step: Step, nextId: nat, k: ConnectionId, r: Request)
    requires Inv(w, nextId) && UpToLast(w) && HearsAnew(w, step, k, r)
    ensures var w' := Next(cfg, w, step, nextId);
            r.id >= 1 && AllSuccess(w', k, r.id) && AsksFor(r, w'.agent.mode)
  {
    HeardIsNext(w, step.reaction);
    AnswerSaysWhy(w.agent, r, step.reaction);
    assert r.payload == [w.sentCommands[r.id].mode];
    assert AsksFor(r, DecodeMode(r.payload[0]).value);
  }

  /** The controller reads, on the device's operating session, an outcome of the command it tracks. */
  predicate HearsOutcome(w: World, step: Step, k: ConnectionId, id: nat) {
    && step.ControllerReceives? && step.k == k && w.HasMessage(k) && w.links[k].phase.Operating?
    && w.links[k].up[0].CommandOutcome? && w.links[k].up[0].id == id
    && w.slot.Some? && w.slot.value.id == id
  }

  lemma SuccessSettles(cfg: Config, w: World, step: Step, nextId: nat, k: ConnectionId, id: nat)
    requires Inv(w, nextId) && Enabled(w, step) && HearsOutcome(w, step, k, id) && w.links[k].up[0].code == Success
    ensures var w' := Next(cfg, w, step, nextId);
            w'.slot.None? && w'.control == w.control && !w'.control.failed
  {
  }

  lemma SuccessIsCounted(cfg: Config, s: System, e: SystemStep, l: Ledgers.Ledger, k: ConnectionId, id: nat)
    requires Agree(s, l) && SystemEnabled(s, e) && e.At? && HearsOutcome(s.worlds[e.device], e.step, k, id)
    requires s.worlds[e.device].links[k].up[0].code == Success
    ensures AfterAll(cfg, l, ServiceEvents(s, e)).metrics.succeeded == l.metrics.succeeded + 1
  {
    assert SlotIn(l, e.device) == s.worlds[e.device].slot;
  }

  lemma AcceptedReaches(cfg: Config, modes: map<DeviceId, Mode>, steps: seq<SystemStep>, states: seq<System>, i: nat,
                        j: nat, d: DeviceId, k: ConnectionId, r: Request)
    requires IsRun(cfg, modes, steps, states) && i < j < |steps| && d in states[i].worlds
    requires steps[i].At? && steps[i].device == d && HearsAnew(states[i].worlds[d], steps[i].step, k, r)
    ensures d in states[i + 1].worlds && AsksFor(r, states[i + 1].worlds[d].agent.mode)
    ensures r.id >= 1 && d in states[j].worlds && AllSuccess(states[j].worlds[d], k, r.id)
  {
    assert Follows(cfg, states[i], steps[i], states[i + 1]);
    EveryStateSafe(cfg, modes, steps, states, i);
    EveryStateUpToLast(cfg, modes, steps, states, i, d);
    AcceptedStarts(cfg, states[i].worlds[d], steps[i].step, states[i].nextId, k, r);
    StaysAllSuccess(cfg, modes, steps, states, i + 1, j, d, k, r.id);
  }

  lemma SuccessCountsInTheRun(cfg: Config, modes: map<DeviceId, Mode>, steps: seq<SystemStep>, states: seq<System>,
                              j: nat, d: DeviceId, k: ConnectionId, id: nat)
    requires IsRun(cfg, modes, steps, states) && j < |steps| && d in states[j].worlds
    requires steps[j].At? && steps[j].device == d && HearsOutcome(states[j].worlds[d], steps[j].step, k, id)
    requires states[j].worlds[d].links[k].up[0].code == Success
    ensures Ledgers.After(cfg, ServiceRun(cfg, modes, steps, states, j + 1)).metrics.succeeded ==
            Ledgers.After(cfg, ServiceRun(cfg, modes, steps, states, j)).metrics.succeeded + 1
  {
    assert Follows(cfg, states[j], steps[j], states[j + 1]);
    LoopRunsTheService(cfg, modes, steps, states, j);
    var events := ServiceRun(cfg, modes, steps, states, j);
    SuccessIsCounted(cfg, states[j], steps[j], Ledgers.After(cfg, events), k, id);
    AfterMore(cfg, events, ServiceEvents(states[j], steps[j]));
  }

  /** From acceptance to settlement, in every run: the agent hears a command anew in step i and the device accepts;
      later, in step j, the controller reads an outcome of it on the same connection, as the device's operating
      session, while it still tracks the command. Then the device was put into the mode asked for, the outcome is a
      success, no command is tracked any more, the record stands unfailed, and one more success is counted. */
  lemma AcceptedCommandSucceeds(cfg: Config, modes: map<DeviceId, Mode>, steps: seq<SystemStep>, states: seq<System>,
                                i: nat, j: nat, d: DeviceId, k: ConnectionId, r: Request)
    requires IsRun(cfg, modes, steps, states) && i < j < |steps| && d in states[i].worlds && d in states[j].worlds
    requires steps[i].At? && steps[i].device == d && HearsAnew(states[i].worlds[d], steps[i].step, k, r)
    requires steps[j].At? && steps[j].device == d && HearsOutcome(states[j].worlds[d], steps[j].step, k, r.id)
    ensures d in states[i + 1].worlds && AsksFor(r, states[i + 1].worlds[d].agent.mode)
    ensures states[j].worlds[d].links[k].up[0].code == Success
    ensures d in states[j + 1].worlds && states[j + 1].worlds[d].slot.None?
    ensures states[j + 1].worlds[d].control == states[j].worlds[d].control && !states[j].worlds[d].control.failed
    ensures Ledgers.After(cfg, ServiceRun(cfg, modes, steps, states, j + 1)).metrics.succeeded ==
            Ledgers.After(cfg, ServiceRun(cfg, modes, steps, states, j)).metrics.succeeded + 1
  {
    assert Follows(cfg, states[j], steps[j], states[j + 1]);
    AcceptedReaches(cfg, modes, steps, states, i, j, d, k, r);
    var up := states[j].worlds[d].links[k].up;
    assert up[0] in up;
    EveryStateSafe(cfg, modes, steps, states, j);
    SuccessSettles(cfg, states[j].worlds[d], steps[j].step, states[j].nextId, k, r.id);
    SuccessCountsInTheRun(cfg, modes, steps, states, j, d, k, r.id);
  }
}
