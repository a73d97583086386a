/** What holds in every run of the control loop, with any number of devices under one controller. */
module ControlSafety {
  import opened Basics
  import opened DeviceControls
  import opened CommandSlots
  import opened AgentSessions
  import opened ControlLoop
  import opened ControlInvariant
  import Ledgers = CommandLedger

  /** The devices share the counter that command ids come from. */
  datatype System = System(nextId: nat, worlds: map<DeviceId, World>)

  /** One device's step, or a policy replacement, which reaches every device at once. */
  datatype SystemStep = At(device: DeviceId, step: Step) | ReplaceEverywhere

  predicate SystemEnabled(s: System, e: SystemStep) {
    match e
    case At(d, step) => d in s.worlds && Enabled(s.worlds[d], step)
    case ReplaceEverywhere => forall d :: d in s.worlds ==> s.worlds[d].queued.None?
  }

  function SystemNext(cfg: Config, s: System, e: SystemStep): System
    requires SystemEnabled(s, e)
  {
    match e
    case At(d, step) =>
      System(if step.DispatchQueued? then s.nextId + 1 else s.nextId,
             s.worlds[d := Next(cfg, s.worlds[d], step, s.nextId)])
    case ReplaceEverywhere =>
      s.(worlds := map d | d in s.worlds :: s.worlds[d].(control := s.worlds[d].control.Cleared()))
  }

  /** The states of a run that starts with every device in some mode and no connection. */
  ghost predicate IsRun(cfg: Config, modes: map<DeviceId, Mode>, steps: seq<SystemStep>, states: seq<System>) {
    && |states| == |steps| + 1
    && states[0] == System(1, map d | d in modes :: Initial(modes[d]))
    && forall i :: 0 <= i < |steps| ==> Follows(cfg, states[i], steps[i], states[i + 1])
  }

  ghost predicate Follows(cfg: Config, s: System, e: SystemStep, s': System) {
    SystemEnabled(s, e) && s' == SystemNext(cfg, s, e)
  }

  ghost predicate SystemInv(s: System) {
    s.nextId >= 1 && forall d :: d in s.worlds ==> Inv(s.worlds[d], s.nextId)
  }

  lemma SystemStepKeeps(cfg: Config, s: System, e: SystemStep)
    requires SystemInv(s) && SystemEnabled(s, e)
    ensures SystemInv(SystemNext(cfg, s, e))
  {
    var s' := SystemNext(cfg, s, e);
    forall d | d in s'.worlds
      ensures Inv(s'.worlds[d], s'.nextId)
    {
      match e
      case At(moved, step) =>
        if d != moved {
          LaterIdsKeep(s.worlds[d], s.nextId, s'.nextId);
        } else if step.DispatchQueued? {
          StepKeeps(cfg, s.worlds[d], step, s.nextId);
        } else {
          OtherStepsUseNoId(cfg, s.worlds[d], step, s.nextId);
        }
      case ReplaceEverywhere => ReplaceKeeps(s.worlds[d], s.nextId);
    }
  }

  lemma {:induction false} EveryStateSafe(cfg: Config, modes: map<DeviceId, Mode>, steps: seq<SystemStep>,
                                          states: seq<System>, k: nat)
    requires IsRun(cfg, modes, steps, states) && k < |states|
    ensures SystemInv(states[k])
  {
    if k == 0 {
      forall d | d in modes
        ensures Inv(Initial(modes[d]), 1)
      {
        InitialOk(modes[d]);
      }
    } else {
      EveryStateSafe(cfg, modes, steps, states, k - 1);
      assert Follows(cfg, states[k - 1], steps[k - 1], states[k]);
      SystemStepKeeps(cfg, states[k - 1], steps[k - 1]);
    }
  }

  // ---------------------------------------------------------------------------------------------------------------

  /** Belief matches truth. In every state of every run: if a device's record holds a mode, has not failed, is not
      waiting for its dispatch, and its command is no longer tracked, then the device is in that mode. */
  lemma BeliefMatchesTruth(cfg: Config, modes: map<DeviceId, Mode>, steps: seq<SystemStep>, states: seq<System>,
                           k: nat, d: DeviceId)
    requires IsRun(cfg, modes, steps, states) && k < |states| && d in states[k].worlds
    ensures var w := states[k].worlds[d];
            w.control.mode.Some? && !w.control.failed && !w.control.awaiting
            && (w.slot.Some? ==> w.slot.value.id != w.control.command)
            ==> w.control.mode == Some(w.agent.mode)
  {
    EveryStateSafe(cfg, modes, steps, states, k);
  }

  /** No failure is lost. An unfailed record's command is tracked with exactly the record's mode, or was carried
      out; a failed record's command is not tracked; a record stands only while the device has a session. */
  lemma NoLostFailure(cfg: Config, modes: map<DeviceId, Mode>, steps: seq<SystemStep>, states: seq<System>,
                      k: nat, d: DeviceId)
    requires IsRun(cfg, modes, steps, states) && k < |states| && d in states[k].worlds
    ensures var w := states[k].worlds[d];
            var c := w.control;
            c.mode.Some? && !c.awaiting ==>
              && w.Reachable()
              && (c.failed ==> w.slot.None?)
              && (!c.failed ==>
                    if w.slot.Some?
                    then w.slot.value.id == c.command && DecodeMode(w.slot.value.command.mode) == c.mode
                    else c.mode == Some(w.agent.mode))
  {
    EveryStateSafe(cfg, modes, steps, states, k);
  }

  // ---- a command that outlives its record ----

  /** The device's operating session ended. */
  predicate SessionEnded(w: World, w': World) {
    w.Reachable() && w.bound.value in w'.links && w'.links[w.bound.value].phase.Closed?
  }

  /** A mode decided for a device whose record is gone by now finds no session to be sent on. */
  predicate Stranded(w: World) {
    w.queued.Some? && w.control.mode.None? ==> w.bound.None?
  }

  lemma StrandedKeeps(cfg: Config, w: World, step: Step, nextId: nat)
    requires Stranded(w) && Enabled(w, step)
    ensures Stranded(Next(cfg, w, step, nextId))
  {
  }

  /** If a command is tracked without a record now, it was so before, or the session has ended. */
  predicate RecordLost(w: World, w': World) {
    w'.control.mode.None? && w'.slot.Some? ==>
      if w.control.mode.None? then w.slot.Some? && w.slot.value.id == w'.slot.value.id
      else SessionEnded(w, w')
  }

  predicate RecordNeedsSession(w: World) {
    (w.bound.Some? ==> w.bound.value in w.links) && (w.control.mode.Some? ==> w.Reachable())
  }

  lemma MessageLosesRecord(cfg: Config, w: World, k: ConnectionId, now: Time, transit: Transit, keep: nat)
    requires RecordNeedsSession(w) && w.HasMessage(k) && (w.links[k].phase.Handshaking? ==> w.bound != Some(k))
    ensures RecordLost(w, Hear(cfg, w, k, now, transit, keep))
  {
    match w.links[k].phase
    case Handshaking =>
    case Confirming =>
    case Operating =>
    case Closed =>
  }

  lemma DispatchLosesRecord(cfg: Config, w: World, now: Time, transit: Transit, nextId: nat)
    requires RecordNeedsSession(w) && Stranded(w) && w.queued.Some?
    ensures RecordLost(w, DispatchDecided(cfg, w, nextId, now, transit))
  {
  }

  lemma SweepLosesRecord(cfg: Config, w: World, now: Time, transit: Transit)
    requires RecordNeedsSession(w) && w.slot.Some?
    ensures RecordLost(w, SweepTracked(cfg, w, now, transit))
  {
  }

  /** A tracked command without a record had none before, or its record was cleared in this very step: the session
      ended or the policy was replaced. */
  lemma HowARecordGoes(cfg: Config, w: World, step: Step, nextId: nat)
    requires Inv(w, nextId) && Stranded(w) && Enabled(w, step)
    ensures step.ReplacePolicy? || RecordLost(w, Next(cfg, w, step, nextId))
    ensures w.control.mode.None? ==> RecordLost(w, Next(cfg, w, step, nextId))
  {
    match step
    case ControllerReceives(k, now, transit, keep) => 
      assert LinkOk(w, k, w.links[k]);
      MessageLosesRecord(cfg, w, k, now, transit, keep);
    case SweepCommand(now, transit) => SweepLosesRecord(cfg, w, now, transit);
    case DispatchQueued(now, transit) => DispatchLosesRecord(cfg, w, now, transit, nextId);
    case ControllerCloses(k, _) => assert LinkOk(w, k, w.links[k]);
    case _ =>
  }

  /** In this step the device's record was cleared, because its session ended or the policy was replaced. */
  predicate ClearedAt(s: System, e: SystemStep, s': System, d: DeviceId) {
    && d in s.worlds && d in s'.worlds && s.worlds[d].control.mode.Some? && s'.worlds[d].control.mode.None?
    && (e == ReplaceEverywhere || e == At(d, ReplacePolicy)
        || (e.At? && e.device == d && SessionEnded(s.worlds[d], s'.worlds[d])))
  }

  predicate TrackedAlone(s: System, d: DeviceId, id: nat) {
    && d in s.worlds && s.worlds[d].control.mode.None?
    && s.worlds[d].slot.Some? && s.worlds[d].slot.value.id == id
  }

  /** It was cleared in step j, and up to state k the command stayed tracked without a record. */
  ghost predicate ClearedSince(steps: seq<SystemStep>, states: seq<System>, j: nat, k: nat, d: DeviceId, id: nat)
    requires |states| == |steps| + 1
  {
    && j < k < |states| && ClearedAt(states[j], steps[j], states[j + 1], d)
    && forall m :: j < m <= k ==> TrackedAlone(states[m], d, id)
  }

  lemma StrandedKeepsEverywhere(cfg: Config, s: System, e: SystemStep, s': System, d: DeviceId)
    requires Follows(cfg, s, e, s') && d in s'.worlds && (d in s.worlds ==> Stranded(s.worlds[d]))
    ensures Stranded(s'.worlds[d])
  {
    if e.At? && e.device == d {
      StrandedKeeps(cfg, s.worlds[d], e.step, s.nextId);
    }
  }

  lemma {:induction false} EveryStateStranded(cfg: Config, modes: map<DeviceId, Mode>, steps: seq<SystemStep>,
                                              states: seq<System>, k: nat, d: DeviceId)
    requires IsRun(cfg, modes, steps, states) && k < |states| && d in states[k].worlds
    ensures Stranded(states[k].worlds[d])
  {
    if k > 0 {
      assert Follows(cfg, states[k - 1], steps[k - 1], states[k]);
      EveryStateStranded(cfg, modes, steps, states, k - 1, d);
      StrandedKeepsEverywhere(cfg, states[k - 1], steps[k - 1], states[k], d);
    }
  }

  lemma ClearedNowOrBefore(cfg: Config, s: System, e: SystemStep, s': System, d: DeviceId, id: nat)
    requires Follows(cfg, s, e, s') && TrackedAlone(s', d, id)
    requires d in s.worlds && Inv(s.worlds[d], s.nextId) && Stranded(s.worlds[d])
    ensures if s.worlds[d].control.mode.Some? then ClearedAt(s, e, s', d) else TrackedAlone(s, d, id)
  {
    if e.At? && e.device == d {
      HowARecordGoes(cfg, s.worlds[d], e.step, s.nextId);
    }
  }

  lemma {:induction false} ClearedBefore(cfg: Config, modes: map<DeviceId, Mode>, steps: seq<SystemStep>,
                                         states: seq<System>, k: nat, d: DeviceId, id: nat) returns (j: nat)
    requires IsRun(cfg, modes, steps, states) && k < |states| && TrackedAlone(states[k], d, id)
    ensures ClearedSince(steps, states, j, k, d, id)
  {
    assert k > 0;
    assert Follows(cfg, states[k - 1], steps[k - 1], states[k]);
    EveryStateSafe(cfg, modes, steps, states, k - 1);
    EveryStateStranded(cfg, modes, steps, states, k - 1, d);
    ClearedNowOrBefore(cfg, states[k - 1], steps[k - 1], states[k], d, id);
    if states[k - 1].worlds[d].control.mode.Some? {
      j := k - 1;
    } else {
      j := ClearedBefore(cfg, modes, steps, states, k - 1, d, id);
    }
  }

  /** A tracked command is replaced by one with the same mode only when its record was cleared earlier, by the end of
      a session or a policy replacement, and the command has been tracked without a record ever since. */
  lemma SameModeReplacementNeedsClearedRecord(
      cfg: Config, modes: map<DeviceId, Mode>, steps: seq<SystemStep>, states: seq<System>, k: nat, d: DeviceId,
      rule: GroupRule, regime: LoadRegime, temp: real)
    requires IsRun(cfg, modes, steps, states) && k < |states| && d in states[k].worlds
    requires Enabled(states[k].worlds[d], Step.Evaluate(rule, regime, temp))
    ensures var w := states[k].worlds[d];
            var issue := w.control.Decided(rule, regime, temp).1;
            issue.Some? && w.slot.Some? && DecodeMode(w.slot.value.command.mode) == issue
            ==> w.control.mode.None? && exists j: nat :: ClearedSince(steps, states, j, k, d, w.slot.value.id)
  {
    EveryStateSafe(cfg, modes, steps, states, k);
    var w := states[k].worlds[d];
    var issue := w.control.Decided(rule, regime, temp).1;
    if issue.Some? && w.slot.Some? && DecodeMode(w.slot.value.command.mode) == issue {
      assert TrackedAlone(states[k], d, w.slot.value.id);
      var j := ClearedBefore(cfg, modes, steps, states, k, d, w.slot.value.id);
    }
  }

  /** Two requests heard on one connection, the earlier first: ids do not decrease; if both were applied they differ;
      and if they have one id they are the same request and got the same answer. */
  ghost predicate HeardInOrder(w: World, i: nat, j: nat)
    requires i < j < |w.heard|
  {
    var a, b := w.heard[i].0, w.heard[j].0;
    && a.id <= b.id
    && (Applies(w.start, w.heard, i) && Applies(w.start, w.heard, j) ==> a.id < b.id)
    && (a.id == b.id ==> a == b && AnswerTo(w.start, w.heard, i) == AnswerTo(w.start, w.heard, j))
  }

  lemma HistoryInOrder(w: World, i: nat, j: nat)
    requires HistoryOk(w) && i < j < |w.heard|
    ensures HeardInOrder(w, i, j)
  {
    AppliedOncePerId(w.start, w.heard, i, j);
    assert Genuine(w, w.heard[i].0) && Genuine(w, w.heard[j].0);
  }

  /** At most once per session. What the agent has heard on its current connection are commands as they were issued,
      with ids that do not decrease; so it applied each id once, in increasing order, and gave the same answer every
      time it was asked again. */
  lemma AtMostOncePerSession(cfg: Config, modes: map<DeviceId, Mode>, steps: seq<SystemStep>, states: seq<System>,
                             k: nat, d: DeviceId)
    requires IsRun(cfg, modes, steps, states) && k < |states| && d in states[k].worlds
    ensures var w := states[k].worlds[d];
            && w.agent == SessionAfter(w.start, w.heard)
            && (forall i :: 0 <= i < |w.heard| ==> Genuine(w, w.heard[i].0))
            && (forall i, j :: 0 <= i < j < |w.heard| ==> HeardInOrder(w, i, j))
  {
    EveryStateSafe(cfg, modes, steps, states, k);
    var w := states[k].worlds[d];
    assert HistoryOk(w);
    forall i, j | 0 <= i < j < |w.heard|
      ensures HeardInOrder(w, i, j)
    {
      HistoryInOrder(w, i, j);
    }
  }

  /** What is still on its way to an active agent continues that order: commands as they were issued, with ids that
      do not decrease and are not below the last one heard. */
  lemma QueueContinuesSession(cfg: Config, modes: map<DeviceId, Mode>, steps: seq<SystemStep>, states: seq<System>,
                              k: nat, d: DeviceId)
    requires IsRun(cfg, modes, steps, states) && k < |states| && d in states[k].worlds
    requires states[k].worlds[d].MayReceive() && states[k].worlds[d].agent.state.Active?
    ensures var w := states[k].worlds[d];
            var down := w.links[w.current.value].down;
            && Ascending(down)
            && (forall j :: 0 <= j < |down| ==> Awaited(w, down[j]))
            && (w.heard != [] ==> w.heard[|w.heard| - 1].0.id == w.agent.lastId)
  {
    EveryStateSafe(cfg, modes, steps, states, k);
  }

  /** A device has one session: whichever connection registered last, whatever became of the others. */
  lemma OneSessionPerDevice(cfg: Config, modes: map<DeviceId, Mode>, steps: seq<SystemStep>, states: seq<System>,
                            k: nat, d: DeviceId)
    requires IsRun(cfg, modes, steps, states) && k < |states| && d in states[k].worlds
    ensures var w := states[k].worlds[d];
            forall c :: c in w.links && (w.links[c].phase.Confirming? || w.links[c].phase.Operating?) <==>
                        w.bound == Some(c)
  {
    EveryStateSafe(cfg, modes, steps, states, k);
    var w := states[k].worlds[d];
    forall c | c in w.links
      ensures (w.links[c].phase.Confirming? || w.links[c].phase.Operating?) <==> w.bound == Some(c)
    {
      assert LinkOk(w, c, w.links[c]);
    }
  }

  // ---------------------------------------------------------------------------------------------------------------
  // The loop's tracked command is the command service's.

  function SlotIn(l: Ledgers.Ledger, d: DeviceId): Option<Slot> {
    if d in l.pending then Some(l.pending[d]) else None
  }

  lemma ServiceDispatches(cfg: Config, l: Ledgers.Ledger, w: World, d: DeviceId, now: Time, transit: Transit)
    requires w.queued.Some?
    ensures var command := SetMode(EncodeMode(w.queued.value));
            var l' := Ledgers.Dispatch(cfg, l, d, command, now, Some(0), SendResultOf(w, transit));
            SlotIn(l', d) == DispatchDecided(cfg, w, l.nextId, now, transit).slot
  {
  }

  /** The service tells the failure sink exactly when the loop tells the record. */
  lemma ServiceSweeps(cfg: Config, l: Ledgers.Ledger, w: World, d: DeviceId, now: Time, transit: Transit)
    requires SlotIn(l, d) == w.slot && w.slot.Some? && w.slot.value.sink.Some?
    ensures var l' := Ledgers.SweepOne(cfg, l, d, now, SendResultOf(w, transit));
            var w' := SweepTracked(cfg, w, now, transit);
            && SlotIn(l', d) == w'.slot
            && l'.notices == (if w'.slot.Some? then l.notices
                              else l.notices + [Ledgers.Notice(w.slot.value.sink.value, d, w.slot.value.id)])
            && (w'.slot.None? ==> w'.control == w.control.Failed(w.slot.value.id))
  {
  }

  lemma ServiceSettles(cfg: Config, l: Ledgers.Ledger, w: World, d: DeviceId, k: ConnectionId, id: nat, code: Code,
                       now: Time, keep: nat)
    requires SlotIn(l, d) == w.slot && k in w.links && (w.slot.Some? ==> w.slot.value.sink.Some?)
    ensures var l' := Ledgers.Settle(cfg, l, d, id, code.Success?, now);
            var w' := Operate(cfg, w, k, CommandOutcome(id, code), now, keep);
            && SlotIn(l', d) == w'.slot
            && w'.control == if l'.notices == l.notices then w.control else w.control.Failed(id)
  {
  }
}
