/** The two ends of the control loop speak one protocol: neither is ever told something it does not expect. */
module ControlProtocol {
  import opened Basics
  import opened DeviceControls
  import opened CommandSlots
  import opened AgentSessions
  import opened ControlLoop
  import opened ControlInvariant
  import opened ControlSafety
  import opened ControlOutcomes
  import opened ControlWire
  import M = Messages
  import T = Transport

  /** What an agent says once it has registered: no registration any more, and an outcome right behind the
      acknowledgement of the same command, unless that has been read already. */
  predicate SaidInPlace(up: seq<Up>, i: nat)
    requires i < |up|
  {
    match up[i]
    case RegisterRequest => false
    case RegisterAck => false
    case Telemetry => true
    case CommandAck(_) => true
    case CommandOutcome(id, _) => i == 0 || up[i - 1] == CommandAck(id)
  }

  ghost predicate WellSpoken(up: seq<Up>) {
    forall i :: 0 <= i < |up| ==> SaidInPlace(up, i)
  }

  /** An agent that has registered has said so first; one that has not has said nothing. */
  ghost predicate LinkSpeaks(w: World, k: ConnectionId, l: Link) {
    match l.phase
    case Handshaking => true
    case Confirming =>
      && (l.up != [] ==> l.up[0] == RegisterAck && WellSpoken(l.up[1..]))
      && (w.OnCurrent(k) ==> (w.agent.state.Active? <==> l.up != []))
    case Operating => WellSpoken(l.up)
    case Closed => true
  }

  ghost predicate Speaks(w: World) {
    forall k :: k in w.links ==> LinkSpeaks(w, k, w.links[k])
  }

  lemma MoreSaid(up: seq<Up>, sent: seq<Up>)
    requires WellSpoken(up)
    requires sent == [Telemetry] || (|sent| == 2 && sent[0].CommandAck? && sent[1].CommandOutcome?
                                     && sent[0].id == sent[1].id)
    ensures WellSpoken(up + sent)
  {
    var all := up + sent;
    forall i | 0 <= i < |all| ensures SaidInPlace(all, i) {
      if i < |up| {
        assert SaidInPlace(up, i);
      }
    }
  }

  lemma LessSaid(up: seq<Up>, keep: nat)
    requires WellSpoken(up)
    ensures WellSpoken(Prefix(up, keep)) && (up != [] ==> WellSpoken(up[1..]))
  {
    forall i: nat | i < |Prefix(up, keep)| ensures SaidInPlace(Prefix(up, keep), i) {
      assert SaidInPlace(up, i);
    }
    if up != [] {
      forall i: nat | i < |up[1..]| ensures SaidInPlace(up[1..], i) {
        assert SaidInPlace(up, i + 1);
      }
    }
  }

  // ---- the agent's steps ----

  lemma LeaveSpeaks(w: World, keep: nat)
    requires Speaks(w) && w.current.Some? && w.current.value in w.links
    ensures Speaks(AgentLeaves(w, keep))
  {
    var w' := AgentLeaves(w, keep);
    forall k | k in w'.links ensures LinkSpeaks(w', k, w'.links[k]) {
      var l := w.links[k];
      assert LinkSpeaks(w, k, l);
      if k == w.current.value && l.phase.Operating? {
        LessSaid(l.up, keep);
      }
      if k == w.current.value && l.phase.Confirming? && l.up != [] {
        LessSaid(l.up[1..], if keep == 0 then 0 else keep - 1);
        assert keep > 0 ==> Prefix(l.up, keep)[1..] == Prefix(l.up[1..], keep - 1);
      }
    }
  }

  /** What the agent answers to what it reads, given the phase its connection is in. */
  lemma AnswerInPlace(w: World, reaction: Reaction, nextId: nat)
    requires Inv(w, nextId) && Speaks(w) && w.MayReceive()
    ensures var k := w.current.value;
            var l := w.links[k];
            var next := Received(w.agent, l.down[0], reaction);
            && next.Some?
            && (l.phase.Closed?
                || (l.phase.Confirming? && l.up == [] && next.value.0.state.Active?
                    && next.value.1 == [RegisterAck, Telemetry])
                || (l.phase.Operating? && WellSpoken(l.up + next.value.1)))
  {
    var k := w.current.value;
    var l := w.links[k];
    assert LinkOk(w, k, l) && LinkSpeaks(w, k, l);
    HeardIsNext(w, reaction);
    assert InboxOk(w, l.down);
    if l.phase.Operating? {
      MoreSaid(l.up, Received(w.agent, l.down[0], reaction).value.1);
    }
  }

  lemma AgentSpeaks(cfg: Config, w: World, step: Step, nextId: nat)
    requires Inv(w, nextId) && Speaks(w) && Enabled(w, step) && AgentStep(step)
    ensures Speaks(Next(cfg, w, step, nextId))
  {
    match step
    case AgentHangsUp(keep) => LeaveSpeaks(w, keep);
    case AgentReceives(reaction, keep) => AnswerSpeaks(w, reaction, keep, nextId);
    case AgentReports => ReportSpeaks(cfg, w, nextId);
    case Connect(k) =>
      var w' := Next(cfg, w, step, nextId);
      forall j | j in w'.links ensures LinkSpeaks(w', j, w'.links[j]) {
        assert j != k ==> LinkSpeaks(w, j, w.links[j]);
      }
  }

  lemma AnswerSpeaks(w: World, reaction: Reaction, keep: nat, nextId: nat)
    requires Inv(w, nextId) && Speaks(w) && w.MayReceive()
    ensures Speaks(AgentHears(w, reaction, keep))
  {
    AnswerInPlace(w, reaction, nextId);
    var w' := AgentHears(w, reaction, keep);
    forall k | k in w'.links ensures LinkSpeaks(w', k, w'.links[k]) {
      assert LinkSpeaks(w, k, w.links[k]);
      if w'.links[k].phase.Confirming? && k == w.current.value {
        assert WellSpoken(w'.links[k].up[1..]);
      }
    }
  }

  lemma ReportSpeaks(cfg: Config, w: World, nextId: nat)
    requires Inv(w, nextId) && Speaks(w) && Enabled(w, AgentReports)
    ensures Speaks(Next(cfg, w, AgentReports, nextId))
  {
    var w' := Next(cfg, w, AgentReports, nextId);
    forall k | k in w'.links ensures LinkSpeaks(w', k, w'.links[k]) {
      var l := w.links[k];
      assert LinkSpeaks(w, k, l) && LinkOk(w, k, l);
      if k == w.current.value {
        if l.phase.Operating? {
          MoreSaid(l.up, [Telemetry]);
        }
        if l.phase.Confirming? {
          MoreSaid(l.up[1..], [Telemetry]);
          assert w'.links[k].up[1..] == l.up[1..] + [Telemetry];
        }
      }
    }
  }

  // ---- the controller's steps ----

  /** Closing a connection, and putting something on its way to the agent, leave what the agents have said. */
  lemma CloseSpeaks(w: World, k: ConnectionId, keep: nat)
    requires Speaks(w) && k in w.links
    ensures Speaks(CloseLink(w, k, keep))
  {
    var w' := CloseLink(w, k, keep);
    forall j | j in w'.links ensures LinkSpeaks(w', j, w'.links[j]) {
      assert LinkSpeaks(w, j, w.links[j]);
    }
  }

  lemma SendSpeaks(w: World, id: nat, command: Command, transit: Transit)
    requires Speaks(w) && w.Reachable()
    ensures Speaks(SendCommand(w, id, command, transit))
  {
    var w' := Enqueue(w, id, command, transit.kept);
    forall j | j in w'.links ensures LinkSpeaks(w', j, w'.links[j]) {
      assert LinkSpeaks(w, j, w.links[j]);
    }
    if transit.teardown.Some? {
      CloseSpeaks(w', w.bound.value, transit.teardown.value);
    }
  }

  /** A connection that has said nothing since it asked to register may be bound. */
  lemma BindSpeaks(w: World, k: ConnectionId, kept: bool)
    requires Speaks(w) && k in w.links && w.links[k].up == [] && (w.OnCurrent(k) ==> !w.agent.state.Active?)
    ensures Speaks(Bind(w, k, kept))
  {
    var w' := Bind(w, k, kept);
    forall j | j in w'.links ensures LinkSpeaks(w', j, w'.links[j]) {
      assert LinkSpeaks(w, j, w.links[j]);
    }
  }

  lemma RegisterSpeaks(w: World, k: ConnectionId, transit: Transit, keep: nat)
    requires Speaks(w) && k in w.links && w.links[k].up == [] && (w.OnCurrent(k) ==> !w.agent.state.Active?)
    requires w.bound.Some? ==> w.bound.value in w.links
    ensures Speaks(Register(w, k, transit, keep))
  {
    if w.bound.Some? {
      CloseSpeaks(w, w.bound.value, keep);
    }
    var e := Evicted(w, keep);
    BindSpeaks(e, k, transit.kept);
    if transit.teardown.Some? {
      CloseSpeaks(Bind(e, k, transit.kept), k, transit.teardown.value);
    }
  }

  /** Taking a message that is expected in its phase. */
  lemma TakeSpeaks(w: World, k: ConnectionId, l: Link)
    requires Speaks(w) && w.HasMessage(k) && l.up == w.links[k].up[1..]
    requires match w.links[k].phase
             case Handshaking => l.phase.Handshaking?
             case _ => l.phase.Operating?
    ensures Speaks(SetLink(w, k, l))
  {
    var w' := SetLink(w, k, l);
    forall j | j in w'.links ensures LinkSpeaks(w', j, w'.links[j]) {
      assert LinkSpeaks(w, j, w.links[j]);
      if j == k && w.links[k].phase.Operating? {
        LessSaid(w.links[k].up, 0);
      }
    }
  }

  lemma HearSpeaks(cfg: Config, w: World, k: ConnectionId, now: Time, transit: Transit, keep: nat, nextId: nat)
    requires Inv(w, nextId) && Speaks(w) && w.HasMessage(k)
    ensures Speaks(Hear(cfg, w, k, now, transit, keep))
  {
    var l := w.links[k];
    var rest := l.(up := l.up[1..]);
    assert LinkOk(w, k, l) && LinkSpeaks(w, k, l);
    match l.phase
    case Handshaking =>
      TakeSpeaks(w, k, rest);
      RegisterSpeaks(SetLink(w, k, rest), k, transit, keep);
    case Confirming => TakeSpeaks(w, k, Link(Operating, l.down, l.up[1..]));
    case Operating =>
      TakeSpeaks(w, k, rest);
      OperateSpeaks(cfg, SetLink(w, k, rest), k, l.up[0], now, keep);
  }

  lemma OperateSpeaks(cfg: Config, w: World, k: ConnectionId, m: Up, now: Time, keep: nat)
    requires Speaks(w) && k in w.links
    ensures Speaks(Operate(cfg, w, k, m, now, keep))
  {
    CloseSpeaks(w, k, keep);
    var w' := Operate(cfg, w, k, m, now, keep);
    if w' != CloseLink(w, k, keep) {
      forall j | j in w'.links ensures LinkSpeaks(w', j, w'.links[j]) {
        assert LinkSpeaks(w, j, w.links[j]);
      }
    }
  }

  /** Neither the record nor the tracked command matters here. */
  lemma SameLinksSpeak(w: World, w': World)
    requires Speaks(w) && w'.links == w.links && w'.current == w.current && w'.agent == w.agent
    ensures Speaks(w')
  {
    forall j | j in w'.links ensures LinkSpeaks(w', j, w'.links[j]) {
      assert LinkSpeaks(w, j, w.links[j]);
    }
  }

  lemma StepSpeaks(cfg: Config, w: World, step: Step, nextId: nat)
    requires Inv(w, nextId) && Speaks(w) && Enabled(w, step)
    ensures Speaks(Next(cfg, w, step, nextId))
  {
    var w' := Next(cfg, w, step, nextId);
    if AgentStep(step) {
      AgentSpeaks(cfg, w, step, nextId);
    } else if step.ControllerReceives? {
      HearSpeaks(cfg, w, step.k, step.now, step.transit, step.keep, nextId);
    } else if step.ControllerCloses? {
      CloseSpeaks(w, step.k, step.keep);
    } else if step.DispatchQueued? && w.Reachable() {
      var command := SetMode(EncodeMode(w.queued.value));
      SendSpeaks(w, nextId, command, step.transit);
      var sent := SendResultOf(w, step.transit).Sent?;
      SameLinksSpeak(if sent then SendCommand(w, nextId, command, step.transit) else w, w');
    } else if step.SweepCommand? && w.Reachable() {
      var s := w.slot.value;
      SendSpeaks(w, s.id, s.command, step.transit);
      SameLinksSpeak(if w'.links == w.links then w else SendCommand(w, s.id, s.command, step.transit), w');
    } else {
      SameLinksSpeak(w, w');
    }
  }

  // ---- runs ----

  lemma {:induction false} EveryStateSpeaks(cfg: Config, modes: map<DeviceId, Mode>, steps: seq<SystemStep>,
                                            states: seq<System>, i: nat, d: DeviceId)
    requires IsRun(cfg, modes, steps, states) && i < |states| && d in states[i].worlds
    ensures Speaks(states[i].worlds[d])
  {
    if i > 0 {
      assert Follows(cfg, states[i - 1], steps[i - 1], states[i]);
      EveryStateSafe(cfg, modes, steps, states, i - 1);
      EveryStateSpeaks(cfg, modes, steps, states, i - 1, d);
      SystemSpeaks(cfg, states[i - 1], steps[i - 1], states[i], d);
    }
  }

  lemma SystemSpeaks(cfg: Config, s: System, e: SystemStep, s': System, d: DeviceId)
    requires Follows(cfg, s, e, s') && d in s'.worlds && d in s.worlds
    requires Inv(s.worlds[d], s.nextId) && Speaks(s.worlds[d])
    ensures Speaks(s'.worlds[d])
  {
    if e.At? && e.device == d {
      StepSpeaks(cfg, s.worlds[d], e.step, s.nextId);
    } else {
      SameLinksSpeak(s.worlds[d], s'.worlds[d]);
    }
  }

  /** Neither end is ever hung up on for what it says. In every state of every run: whatever bytes stand for the next
      message to the controller, its session service expects that message at the session's stage; and the agent
      accepts the next message it reads. */
  lemma NobodySpeaksOutOfTurn(cfg: Config, modes: map<DeviceId, Mode>, steps: seq<SystemStep>, states: seq<System>,
                              i: nat, d: DeviceId, k: ConnectionId, m: M.Message, device: seq<Byte> -> DeviceId,
                              reaction: Reaction)
    requires IsRun(cfg, modes, steps, states) && i < |states| && d in states[i].worlds
    ensures var w := states[i].worlds[d];
            w.HasMessage(k) && HeardUp(Some(m)) == Some(w.links[k].up[0]) ==>
              T.Expected(StageOf(w.links[k].phase), HeardByService(Some(m), device))
    ensures var w := states[i].worlds[d];
            w.MayReceive() ==> Received(w.agent, w.links[w.current.value].down[0], reaction).Some?
  {
    EveryStateSafe(cfg, modes, steps, states, i);
    EveryStateSpeaks(cfg, modes, steps, states, i, d);
    var w := states[i].worlds[d];
    if w.HasMessage(k) {
      assert LinkOk(w, k, w.links[k]) && LinkSpeaks(w, k, w.links[k]);
      assert w.links[k].phase.Operating? ==> SaidInPlace(w.links[k].up, 0);
    }
    if w.MayReceive() {
      AnswerInPlace(w, reaction, states[i].nextId);
    }
  }

  /** On a device's operating session every outcome that is not the next message comes directly behind the
      acknowledgement of the same command. */
  lemma AcknowledgedBeforeAnswered(cfg: Config, modes: map<DeviceId, Mode>, steps: seq<SystemStep>,
                                   states: seq<System>, i: nat, d: DeviceId, k: ConnectionId, j: nat)
    requires IsRun(cfg, modes, steps, states) && i < |states| && d in states[i].worlds
    requires k in states[i].worlds[d].links && states[i].worlds[d].links[k].phase.Operating?
    ensures var up := states[i].worlds[d].links[k].up;
            0 < j < |up| && up[j].CommandOutcome? ==> up[j - 1] == CommandAck(up[j].id)
  {
    EveryStateSpeaks(cfg, modes, steps, states, i, d);
    var w := states[i].worlds[d];
    assert LinkSpeaks(w, k, w.links[k]);
    assert j < |w.links[k].up| ==> SaidInPlace(w.links[k].up, j);
  }
}
