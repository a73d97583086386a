/** The invariant of the control loop, kept by every step, and what follows from it. */
module ControlInvariant {
  import opened Basics
  import opened DeviceControls
  import opened CommandSlots
  import opened AgentSessions
  import opened ControlLoop

  // ---- what is on the wire ----

  /** The device is in the mode this command asked for. */
  ghost predicate Holds(w: World, id: nat) {
    id in w.sentCommands && DecodeMode(w.sentCommands[id].mode) == Some(w.agent.mode)
  }

  /** The id was sent, with a command in the vocabulary, and the largest id sent is not smaller. */
  ghost predicate Known(w: World, id: nat) {
    id in w.sentCommands && 1 <= id <= w.latest && DecodeMode(w.sentCommands[id].mode).Some?
  }

  ghost predicate Genuine(w: World, r: Request) {
    Known(w, r.id) && r == RequestFor(r.id, w.sentCommands[r.id])
  }

  ghost predicate IdsOk(w: World, nextId: nat) {
    && w.latest < nextId
    && (forall id :: id in w.sentCommands ==> Known(w, id))
    && (w.slot.Some? ==> w.slot.value.id == w.latest && Known(w, w.latest)
                         && w.slot.value.command == w.sentCommands[w.latest])
  }

  // ---- connections ----

  /** What the agent has answered can be trusted about the newest command. */
  ghost predicate AnswerOk(w: World, k: ConnectionId, m: Up) {
    m.CommandOutcome? ==>
      && m.id <= w.latest
      && (m.id == w.latest && m.code.Success? ==>
            Holds(w, w.latest) && (w.OnCurrent(k) ==> w.agent.lastId == w.latest))
  }

  ghost predicate Quiet(l: Link) {
    forall i :: 0 <= i < |l.up| ==> !l.up[i].CommandOutcome?
  }

  ghost predicate Answers(w: World, k: ConnectionId, l: Link) {
    forall i :: 0 <= i < |l.up| ==> AnswerOk(w, k, l.up[i])
  }

  ghost predicate LinkOk(w: World, k: ConnectionId, l: Link) {
    && ((l.phase.Confirming? || l.phase.Operating?) <==> w.bound == Some(k))
    && match l.phase
       case Handshaking =>
         && l.down == [] && (l.up == [] || l.up == [RegisterRequest])
         && (w.OnCurrent(k) ==> w.agent.state.Registering?)
       case Confirming =>
         && Quiet(l)
         && (w.OnCurrent(k) ==> w.agent.lastId == 0 && (RegisterAck in l.up ==> w.agent.state.Active?)
                                && (w.agent.state.Active? ==> l.down == []))
       case Operating =>
         && Answers(w, k, l)
         && (w.OnCurrent(k) ==> w.agent.state.Active?)
       case Closed => l.up == []
  }

  ghost predicate LinksOk(w: World) {
    && (w.bound.Some? ==> w.bound.value in w.links)
    && (w.current.Some? ==> w.current.value in w.links)
    && (forall k :: k in w.links ==> LinkOk(w, k, w.links[k]))
  }

  // ---- the agent ----

  ghost predicate Ascending(down: seq<Down>) {
    forall i, j :: 0 <= i < j < |down| && down[i].CommandRequest? && down[j].CommandRequest? ==>
      down[i].request.id <= down[j].request.id
  }

  ghost predicate Awaited(w: World, m: Down) {
    m.CommandRequest? && Genuine(w, m.request) && w.agent.lastId <= m.request.id
  }

  /** What the agent will read next on its connection. */
  ghost predicate InboxOk(w: World, down: seq<Down>) {
    match w.agent.state
    case Idle => false
    case Registering => down == [] || down == [RegisterOutcome(true)]
    case Active => Ascending(down) && forall i :: 0 <= i < |down| ==> Awaited(w, down[i])
  }

  ghost predicate MemoryOk(w: World) {
    && (w.agent.lastId != 0 ==> Known(w, w.agent.lastId))
    && (w.agent.lastId != 0 && w.agent.lastCode.Success? ==> Holds(w, w.agent.lastId))
    && (!w.agent.state.Active? ==> w.agent.lastId == 0)
  }

  ghost predicate HistoryOk(w: World) {
    && w.start.lastId == 0 && w.agent == SessionAfter(w.start, w.heard)
    && NondecreasingIds(w.heard)
    && (forall i :: 0 <= i < |w.heard| ==> Genuine(w, w.heard[i].0))
    && (w.heard != [] ==> w.heard[|w.heard| - 1].0.id == w.agent.lastId)
  }

  ghost predicate AgentOk(w: World) {
    && (w.current.None? <==> w.agent.state.Idle?)
    && (w.current.Some? && w.current.value in w.links ==> InboxOk(w, w.links[w.current.value].down))
    && MemoryOk(w)
    && HistoryOk(w)
  }

  /** When the device's operating session is not the agent's connection, the agent has not got a new one going. */
  ghost predicate ElsewhereOk(w: World) {
    w.bound.Some? && w.bound.value in w.links && !w.OnCurrent(w.bound.value)
    && (w.links[w.bound.value].phase.Operating? || RegisterAck in w.links[w.bound.value].up) ==>
      !w.agent.state.Active? && (w.current.Some? && w.current.value in w.links ==> w.links[w.current.value].down == [])
  }

  // ---- the policy's record ----

  /** The newest command was carried out and nothing on the way can undo that. */
  ghost predicate Settled(w: World) {
    Holds(w, w.latest) && (w.bound.Some? && w.OnCurrent(w.bound.value) ==> w.agent.lastId == w.latest)
  }

  ghost predicate RecordOk(w: World) {
    var c := w.control;
    if c.mode.None? then !c.awaiting && c.command == 0 && !c.failed
    else
      && w.Reachable()
      && if c.awaiting then !c.failed && w.queued == c.mode
         else
           && w.queued.None?
           && if c.failed then w.slot.None?
              else
                && c.command == w.latest && Known(w, w.latest)
                && DecodeMode(w.sentCommands[w.latest].mode) == c.mode
                && (w.slot.None? ==> Settled(w))
  }

  ghost predicate Inv(w: World, nextId: nat) {
    IdsOk(w, nextId) && LinksOk(w) && AgentOk(w) && ElsewhereOk(w) && RecordOk(w)
  }

  lemma InitialOk(mode: Mode)
    ensures Inv(Initial(mode), 1)
  {
  }

  // ---------------------------------------------------------------------------------------------------------------
  // Every step keeps it. First the pieces the steps are made of.

  lemma CloseUnboundKeeps(w: World, k: ConnectionId, keep: nat, nextId: nat)
    requires Inv(w, nextId) && k in w.links && !w.links[k].phase.Closed? && w.bound != Some(k)
    ensures Inv(SetLink(w, k, Link(Closed, Prefix(w.links[k].down, keep), [])), nextId)
  {
    var w' := SetLink(w, k, Link(Closed, Prefix(w.links[k].down, keep), []));
    forall j | j in w'.links
      ensures LinkOk(w', j, w'.links[j])
    {
      assert LinkOk(w, j, w.links[j]);
      assert j != k ==> (Answers(w, j, w.links[j]) ==> Answers(w', j, w'.links[j]));
    }
    assert AgentOk(w');
  }

  lemma CloseBoundKeeps(w: World, k: ConnectionId, keep: nat, nextId: nat)
    requires Inv(w, nextId) && k in w.links && w.bound == Some(k)
    ensures Inv(SetLink(w, k, Link(Closed, Prefix(w.links[k].down, keep), []))
                .(bound := None, control := w.control.Cleared()), nextId)
  {
    var w' := SetLink(w, k, Link(Closed, Prefix(w.links[k].down, keep), []))
              .(bound := None, control := w.control.Cleared());
    forall j | j in w'.links
      ensures LinkOk(w', j, w'.links[j])
    {
      assert LinkOk(w, j, w.links[j]);
      assert j != k ==> (Answers(w, j, w.links[j]) ==> Answers(w', j, w'.links[j]));
    }
    assert AgentOk(w');
  }

  lemma CloseKeeps(w: World, k: ConnectionId, keep: nat, nextId: nat)
    requires Inv(w, nextId) && k in w.links
    ensures Inv(CloseLink(w, k, keep), nextId)
  {
    assert LinkOk(w, k, w.links[k]);
    if !w.links[k].phase.Closed? {
      if w.bound == Some(k) {
        CloseBoundKeeps(w, k, keep, nextId);
      } else {
        CloseUnboundKeeps(w, k, keep, nextId);
      }
    }
  }

  lemma ConnectKeeps(w: World, k: ConnectionId, nextId: nat)
    requires Inv(w, nextId) && w.current.None? && k !in w.links
    ensures var a := w.agent.(state := Registering);
            Inv(SetLink(w, k, Link(Handshaking, [], [RegisterRequest]))
                .(current := Some(k), agent := a, start := a, heard := []), nextId)
  {
    var a := w.agent.(state := Registering);
    var w' := SetLink(w, k, Link(Handshaking, [], [RegisterRequest]))
              .(current := Some(k), agent := a, start := a, heard := []);
    forall j | j in w'.links
      ensures LinkOk(w', j, w'.links[j])
    {
      if j != k {
        assert LinkOk(w, j, w.links[j]);
        forall i | 0 <= i < |w.links[j].up| && AnswerOk(w, j, w.links[j].up[i])
          ensures AnswerOk(w', j, w.links[j].up[i])
        {
        }
      }
    }
  }

  lemma LeaveKeeps(w: World, keep: nat, nextId: nat)
    requires Inv(w, nextId) && w.current.Some?
    ensures Inv(AgentLeaves(w, keep), nextId)
  {
    var w' := AgentLeaves(w, keep);
    forall j | j in w'.links
      ensures LinkOk(w', j, w'.links[j])
    {
      assert LinkOk(w, j, w.links[j]);
      forall i | 0 <= i < |w.links[j].up| && AnswerOk(w, j, w.links[j].up[i])
        ensures AnswerOk(w', j, w.links[j].up[i])
      {
      }
    }
  }

  lemma ReportKeeps(w: World, nextId: nat)
    requires Inv(w, nextId) && w.current.Some? && w.agent.state.Active?
    ensures Inv(SetLink(w, w.current.value, Reply(w.links[w.current.value], [Telemetry])), nextId)
  {
    var w' := SetLink(w, w.current.value, Reply(w.links[w.current.value], [Telemetry]));
    forall j | j in w'.links
      ensures LinkOk(w', j, w'.links[j])
    {
      assert LinkOk(w, j, w.links[j]);
      forall i | 0 <= i < |w.links[j].up| && AnswerOk(w, j, w.links[j].up[i])
        ensures AnswerOk(w', j, w.links[j].up[i])
      {
      }
    }
  }

  /** The agent is told that it is registered. */
  lemma BecomeActiveKeeps(w: World, reaction: Reaction, keep: nat, nextId: nat)
    requires Inv(w, nextId) && w.MayReceive() && w.agent.state.Registering?
    ensures Inv(AgentHears(w, reaction, keep), nextId)
  {
    var k := w.current.value;
    var l := w.links[k];
    assert LinkOk(w, k, l) && l.down == [RegisterOutcome(true)];
    var w' := AgentHears(w, reaction, keep);
    assert w'.links[k].down == [];
    forall j | j in w'.links
      ensures LinkOk(w', j, w'.links[j])
    {
      assert LinkOk(w, j, w.links[j]);
      assert j != k ==> (Answers(w, j, w.links[j]) ==> Answers(w', j, w'.links[j]));
    }
  }

  lemma HistoryGrows(w: World, r: Request, reaction: Reaction)
    requires HistoryOk(w) && w.agent.lastId <= r.id && Genuine(w, r)
    ensures var w' := w.(agent := Handled(w.agent, r, reaction), heard := w.heard + [(r, reaction)]);
            HistoryOk(w')
  {
    var heard := w.heard + [(r, reaction)];
    assert heard[..|w.heard|] == w.heard;
    assert w.heard != [] ==> w.heard[|w.heard| - 1].0.id <= r.id;
    forall i | 0 <= i < |heard|
      ensures Genuine(w, heard[i].0)
    {
      assert i < |w.heard| ==> Genuine(w, w.heard[i].0);
    }
  }

  /** The agent handles a command: a new one moves the memory and the mode together, a repeated one neither. */
  lemma CommandKeeps(w: World, reaction: Reaction, keep: nat, nextId: nat)
    requires Inv(w, nextId) && w.MayReceive() && w.agent.state.Active?
    ensures Inv(AgentHears(w, reaction, keep), nextId)
  {
    var k := w.current.value;
    var l := w.links[k];
    assert LinkOk(w, k, l);
    var m := l.down[0];
    assert Awaited(w, m);
    var r := m.request;
    var w' := AgentHears(w, reaction, keep);
    var l' := w'.links[k];
    HistoryGrows(w, r, reaction);
    CommandInboxOk(w, r, l.down, reaction);
    assert Known(w', r.id) && InboxOk(w', l'.down);
    assert AgentOk(w');
    forall j | j in w'.links
      ensures LinkOk(w', j, w'.links[j])
    {
      assert LinkOk(w, j, w.links[j]);
      if j == k {
        if l.phase.Operating? {
          forall i | 0 <= i < |l'.up|
            ensures AnswerOk(w', k, l'.up[i])
          {
            assert i < |l.up| ==> AnswerOk(w, k, l.up[i]);
          }
        }
      } else if w.links[j].phase.Operating? {
        assert false;
      }
    }
  }

  lemma CommandInboxOk(w: World, r: Request, down: seq<Down>, reaction: Reaction)
    requires InboxOk(w, down) && w.agent.state.Active? && down != [] && down[0] == CommandRequest(r)
    ensures var w' := w.(agent := Handled(w.agent, r, reaction));
            InboxOk(w', down[1..])
  {
    var w' := w.(agent := Handled(w.agent, r, reaction));
    forall i | 0 <= i < |down[1..]|
      ensures Awaited(w', down[1..][i])
    {
      assert Awaited(w, down[i + 1]) && down[1..][i] == down[i + 1];
    }
  }

  lemma TakeLink(w: World, k: ConnectionId, l: Link)
    requires LinkOk(w, k, l) && l.up != []
    ensures LinkOk(w, k, l.(up := l.up[1..]))
  {
    var l' := l.(up := l.up[1..]);
    assert RegisterAck in l'.up ==> RegisterAck in l.up;
    assert Quiet(l) ==> Quiet(l');
    assert Answers(w, k, l) ==> Answers(w, k, l');
  }

  /** The controller takes the first message off a connection. */
  lemma TakeKeeps(w: World, k: ConnectionId, nextId: nat)
    requires Inv(w, nextId) && w.HasMessage(k)
    ensures Inv(SetLink(w, k, w.links[k].(up := w.links[k].up[1..])), nextId)
  {
    var l := w.links[k];
    var w' := SetLink(w, k, l.(up := l.up[1..]));
    TakeLink(w, k, l);
    LinksCarryOver(w, w', k);
    TakeElsewhere(w, k);
  }

  /** What the agent will read, and who is reachable, is not touched by taking a message the other way. */
  lemma TakeElsewhere(w: World, k: ConnectionId)
    requires w.HasMessage(k)
    ensures var w' := SetLink(w, k, w.links[k].(up := w.links[k].up[1..]));
            && (AgentOk(w) ==> AgentOk(w'))
            && (ElsewhereOk(w) ==> ElsewhereOk(w'))
            && (RecordOk(w) ==> RecordOk(w'))
  {
    var l := w.links[k];
    assert RegisterAck in l.up[1..] ==> RegisterAck in l.up;
  }

  /** Facts about connections that mention nothing but the agent, the ids and who is bound. */
  lemma LinksCarryOver(w: World, w': World, k: ConnectionId)
    requires LinksOk(w) && k in w.links && w' == w.(links := w'.links)
    requires w'.links.Keys == w.links.Keys && LinkOk(w, k, w'.links[k])
    requires forall j :: j in w.links && j != k ==> w'.links[j] == w.links[j]
    ensures LinksOk(w')
  {
    forall j | j in w'.links
      ensures LinkOk(w', j, w'.links[j])
    {
      assert LinkOk(w, j, w'.links[j]);
      assert Answers(w, j, w'.links[j]) ==> Answers(w', j, w'.links[j]);
    }
  }

  lemma BindKeeps(w: World, k: ConnectionId, kept: bool, nextId: nat)
    requires Inv(w, nextId) && k in w.links && w.links[k].phase.Handshaking? && w.links[k].up == []
    requires w.bound.None?
    ensures Inv(Bind(w, k, kept), nextId)
  {
    var w' := Bind(w, k, kept);
    assert LinkOk(w, k, w.links[k]);
    forall j | j in w'.links
      ensures LinkOk(w', j, w'.links[j])
    {
      assert LinkOk(w, j, w.links[j]);
      assert Answers(w, j, w.links[j]) ==> Answers(w', j, w.links[j]);
    }
  }

  lemma EvictKeeps(w: World, k: ConnectionId, keep: nat, nextId: nat)
    requires Inv(w, nextId) && k in w.links && w.links[k].phase.Handshaking?
    ensures var w' := Evicted(w, keep);
            Inv(w', nextId) && w'.bound.None? && k in w'.links && w'.links[k] == w.links[k]
  {
    assert LinkOk(w, k, w.links[k]);
    if w.bound.Some? {
      assert LinkOk(w, w.bound.value, w.links[w.bound.value]);
      CloseKeeps(w, w.bound.value, keep, nextId);
    }
  }

  lemma RegisterKeeps(w: World, k: ConnectionId, transit: Transit, keep: nat, nextId: nat)
    requires Inv(w, nextId) && k in w.links && w.links[k].phase.Handshaking? && w.links[k].up == []
    ensures Inv(Register(w, k, transit, keep), nextId)
  {
    EvictKeeps(w, k, keep, nextId);
    BindKeeps(Evicted(w, keep), k, transit.kept, nextId);
    if transit.teardown.Some? {
      CloseKeeps(Bind(Evicted(w, keep), k, transit.kept), k, transit.teardown.value, nextId);
    }
  }

  /** The agent's confirmation makes the session an operating one. */
  lemma ConfirmKeeps(w: World, k: ConnectionId, nextId: nat)
    requires Inv(w, nextId) && k in w.links && w.links[k].phase.Confirming?
    requires w.links[k].up != [] && w.links[k].up[0] == RegisterAck
    ensures Inv(SetLink(w, k, Link(Operating, w.links[k].down, w.links[k].up[1..])), nextId)
  {
    var l := w.links[k];
    var w' := SetLink(w, k, Link(Operating, l.down, l.up[1..]));
    assert RegisterAck in l.up;
    forall j | j in w'.links
      ensures LinkOk(w', j, w'.links[j])
    {
      assert LinkOk(w, j, w.links[j]);
      assert Answers(w, j, w.links[j]) ==> Answers(w', j, w.links[j]);
      if j == k {
        forall i | 0 <= i < |w'.links[j].up|
          ensures AnswerOk(w', j, w'.links[j].up[i])
        {
          assert !l.up[i + 1].CommandOutcome?;
        }
      }
    }
  }

  // ---- the tracked command ----

  lemma SameElsewhere(w: World, w': World)
    requires w' == w.(slot := w'.slot, control := w'.control, queued := w'.queued)
    ensures LinksOk(w) ==> LinksOk(w')
    ensures AgentOk(w) ==> AgentOk(w')
    ensures ElsewhereOk(w) ==> ElsewhereOk(w')
  {
    forall k | k in w.links && LinkOk(w, k, w.links[k])
      ensures LinkOk(w', k, w.links[k])
    {
      assert Answers(w, k, w.links[k]) ==> Answers(w', k, w.links[k]);
    }
  }

  lemma SlotKeeps(w: World, s: Slot, nextId: nat)
    requires Inv(w, nextId) && w.slot.Some?
    requires s.id == w.slot.value.id && s.command == w.slot.value.command
    ensures Inv(w.(slot := Some(s)), nextId)
  {
    SameElsewhere(w, w.(slot := Some(s)));
  }

  lemma AbandonedKeeps(w: World, nextId: nat)
    requires Inv(w, nextId) && w.slot.Some? && w.queued.None?
    ensures Inv(Abandoned(w), nextId)
  {
    SameElsewhere(w, Abandoned(w));
  }

  lemma AttemptEndsKeeps(cfg: Config, w: World, now: Time, nextId: nat)
    requires Inv(w, nextId) && w.slot.Some? && w.queued.None?
    ensures Inv(AttemptEnds(cfg, w, now), nextId)
  {
    var next := AttemptFailed(cfg, w.slot.value, now);
    if next.None? {
      AbandonedKeeps(w, nextId);
    } else {
      SlotKeeps(w, next.value, nextId);
    }
  }

  /** A success the agent reported for the tracked command settles it. */
  lemma SuccessKeeps(w: World, k: ConnectionId, nextId: nat)
    requires Inv(w, nextId) && w.slot.Some? && w.bound == Some(k)
    requires AnswerOk(w, k, CommandOutcome(w.slot.value.id, Success))
    ensures Inv(w.(slot := None), nextId)
  {
    SameElsewhere(w, w.(slot := None));
  }

  lemma OperateKeeps(cfg: Config, w: World, k: ConnectionId, m: Up, now: Time, keep: nat, nextId: nat)
    requires Inv(w, nextId) && w.bound == Some(k) && w.queued.None? && AnswerOk(w, k, m)
    ensures Inv(Operate(cfg, w, k, m, now, keep), nextId)
  {
    match m
    case Telemetry =>
    case CommandAck(id) =>
      if w.slot.Some? && w.slot.value.id == id {
        SlotKeeps(w, Acknowledged(cfg, w.slot.value, now), nextId);
      }
    case CommandOutcome(id, code) =>
      if w.slot.Some? && w.slot.value.id == id {
        if code.Success? {
          SuccessKeeps(w, k, nextId);
        } else {
          AttemptEndsKeeps(cfg, w, now, nextId);
        }
      }
    case RegisterRequest => CloseKeeps(w, k, keep, nextId);
    case RegisterAck => CloseKeeps(w, k, keep, nextId);
  }

  lemma HearKeeps(cfg: Config, w: World, k: ConnectionId, now: Time, transit: Transit, keep: nat, nextId: nat)
    requires Inv(w, nextId) && w.HasMessage(k) && w.queued.None?
    ensures Inv(Hear(cfg, w, k, now, transit, keep), nextId)
  {
    var l := w.links[k];
    var m := l.up[0];
    var w' := SetLink(w, k, l.(up := l.up[1..]));
    assert LinkOk(w, k, l);
    TakeKeeps(w, k, nextId);
    match l.phase
    case Handshaking => RegisterKeeps(w', k, transit, keep, nextId);
    case Confirming =>
      if m.RegisterAck? {
        ConfirmKeeps(w, k, nextId);
      } else {
        CloseKeeps(w', k, keep, nextId);
      }
    case Operating =>
      assert AnswerOk(w, k, l.up[0]);
      OperateKeeps(cfg, w', k, m, now, keep, nextId);
    case Closed =>
  }

  // ---- sending ----

  /** The id is that of the tracked command again, or a new one. */
  ghost predicate Sendable(w: World, id: nat, command: Command, nextId: nat, next: nat) {
    && DecodeMode(command.mode).Some? && nextId <= next
    && if id == nextId then 1 <= nextId < next && (w.control.mode.None? || w.control.awaiting)
       else w.slot.Some? && id == w.latest && command == w.slot.value.command && w.queued.None?
  }

  lemma KnownStays(w: World, w': World, id: nat, command: Command, nextId: nat, next: nat)
    requires Inv(w, nextId) && Sendable(w, id, command, nextId, next)
    requires w'.sentCommands == w.sentCommands[id := command] && w'.latest == id
    ensures Known(w', id)
    ensures forall i :: Known(w, i) ==> Known(w', i) && w'.sentCommands[i] == w.sentCommands[i]
  {
  }

  /** The agent's queue stays well formed. */
  lemma EnqueueInbox(w: World, id: nat, command: Command, kept: bool, nextId: nat, next: nat)
    requires Inv(w, nextId) && w.Reachable() && Sendable(w, id, command, nextId, next)
    ensures AgentOk(Enqueue(w, id, command, kept))
  {
    var k := w.bound.value;
    var w' := Enqueue(w, id, command, kept);
    var l, l' := w.links[k], w'.links[k];
    assert LinkOk(w, k, l);
    KnownStays(w, w', id, command, nextId, next);
    HistoryStays(w, w');
    if w.OnCurrent(k) {
      forall i | 0 <= i < |l.down|
        ensures Awaited(w', l.down[i]) && l.down[i].request.id <= id
      {
        assert Awaited(w, l.down[i]);
      }
      assert InboxOk(w', l'.down);
    } else if w.current.Some? {
      InboxStays(w, w', w.links[w.current.value].down);
    }
  }

  lemma EnqueueLinks(w: World, id: nat, command: Command, kept: bool, nextId: nat, next: nat)
    requires Inv(w, nextId) && w.Reachable() && Sendable(w, id, command, nextId, next)
    ensures LinksOk(Enqueue(w, id, command, kept))
  {
    var k := w.bound.value;
    var w' := Enqueue(w, id, command, kept);
    assert LinkOk(w, k, w.links[k]);
    forall j | j in w'.links
      ensures LinkOk(w', j, w'.links[j])
    {
      assert LinkOk(w, j, w.links[j]);
      forall i | 0 <= i < |w.links[j].up| && AnswerOk(w, j, w.links[j].up[i])
        ensures AnswerOk(w', j, w.links[j].up[i])
      {
      }
      assert Answers(w, j, w.links[j]) ==> Answers(w', j, w.links[j]);
    }
  }

  /** Sending a command and then setting its slot. */
  lemma EnqueueKeeps(w: World, id: nat, command: Command, s: Slot, kept: bool, nextId: nat, next: nat)
    requires Inv(w, nextId) && w.Reachable() && Sendable(w, id, command, nextId, next)
    requires s.id == id && s.command == command
    ensures Inv(Enqueue(w, id, command, kept).(slot := Some(s)), next)
  {
    var w' := Enqueue(w, id, command, kept);
    var w'' := w'.(slot := Some(s));
    EnqueueInbox(w, id, command, kept, nextId, next);
    EnqueueLinks(w, id, command, kept, nextId, next);
    SameElsewhere(w', w'');
    KnownStays(w, w'', id, command, nextId, next);
    assert ElsewhereOk(w'');
    assert RecordOk(w'');
  }

  lemma HistoryStays(w: World, w': World)
    requires HistoryOk(w) && w'.start == w.start && w'.heard == w.heard && w'.agent == w.agent
    requires forall i :: Known(w, i) ==> Known(w', i) && w'.sentCommands[i] == w.sentCommands[i]
    ensures HistoryOk(w')
  {
    forall i | 0 <= i < |w.heard|
      ensures Genuine(w', w.heard[i].0)
    {
      assert Genuine(w, w.heard[i].0);
    }
  }

  lemma InboxStays(w: World, w': World, down: seq<Down>)
    requires InboxOk(w, down) && w'.agent == w.agent
    requires forall i :: Known(w, i) ==> Known(w', i) && w'.sentCommands[i] == w.sentCommands[i]
    ensures InboxOk(w', down)
  {
    if w.agent.state.Active? {
      forall i | 0 <= i < |down|
        ensures Awaited(w', down[i])
      {
        assert Awaited(w, down[i]);
      }
    }
  }

  lemma SweepKeeps(cfg: Config, w: World, now: Time, transit: Transit, nextId: nat)
    requires Inv(w, nextId) && w.slot.Some? && w.queued.None?
    ensures Inv(SweepTracked(cfg, w, now, transit), nextId)
  {
    var s := w.slot.value;
    if Due(s, now) {
      if s.state.InFlight? {
        AttemptEndsKeeps(cfg, w, now, nextId);
      } else if SendResultOf(w, transit).Sent? {
        SendKeeps(w, s.id, s.command, Resent(cfg, s, now), transit, nextId, nextId);
      } else {
        AbandonedKeeps(w, nextId);
      }
    }
  }

  /** A whole send, with the connection torn down in the middle or not. */
  lemma SendKeeps(w: World, id: nat, command: Command, s: Slot, transit: Transit, nextId: nat, next: nat)
    requires Inv(w, nextId) && w.Reachable() && Sendable(w, id, command, nextId, next)
    requires s.id == id && s.command == command
    ensures Inv(SendCommand(w, id, command, transit).(slot := Some(s)), next)
  {
    var w' := Enqueue(w, id, command, transit.kept).(slot := Some(s));
    EnqueueKeeps(w, id, command, s, transit.kept, nextId, next);
    if transit.teardown.Some? {
      CloseKeeps(w', w.bound.value, transit.teardown.value, next);
      assert CloseLink(w', w.bound.value, transit.teardown.value)
          == SendCommand(w, id, command, transit).(slot := Some(s));
    }
  }

  lemma DispatchKeeps(cfg: Config, w: World, nextId: nat, now: Time, transit: Transit)
    requires Inv(w, nextId) && nextId >= 1 && w.queued.Some?
    ensures Inv(DispatchDecided(cfg, w, nextId, now, transit), nextId + 1)
  {
    if SendResultOf(w, transit).Sent? {
      DispatchSentKeeps(cfg, w, nextId, now, transit);
    } else {
      SameElsewhere(w, DispatchDecided(cfg, w, nextId, now, transit));
    }
  }

  /** The result is taken by the record that awaits it; a record cleared by losing the connection ignores it. */
  lemma DispatchedRecordOk(w: World, nextId: nat, m: Mode)
    requires IdsOk(w, nextId + 1) && RecordOk(w) && nextId >= 1 && w.queued == Some(m)
    requires w.slot.Some? && w.slot.value.id == nextId && w.slot.value.command == SetMode(EncodeMode(m))
    ensures var w' := w.(queued := None, control := w.control.Dispatched(nextId));
            IdsOk(w', nextId + 1) && RecordOk(w')
  {
  }

  lemma DispatchSentKeeps(cfg: Config, w: World, nextId: nat, now: Time, transit: Transit)
    requires Inv(w, nextId) && nextId >= 1 && w.queued.Some? && SendResultOf(w, transit).Sent?
    ensures Inv(DispatchDecided(cfg, w, nextId, now, transit), nextId + 1)
  {
    var command := SetMode(EncodeMode(w.queued.value));
    var s := NewSlot(cfg, nextId, command, now, Some(0));
    var sent := SendCommand(w, nextId, command, transit).(slot := Some(s));
    SendKeeps(w, nextId, command, s, transit, nextId, nextId + 1);
    var w' := sent.(queued := None, control := sent.control.Dispatched(nextId));
    assert sent.queued == w.queued && w' == DispatchDecided(cfg, w, nextId, now, transit);
    DispatchedRecordOk(sent, nextId, w.queued.value);
    SameElsewhere(sent, w');
  }

  lemma EvaluateKeeps(w: World, rule: GroupRule, regime: LoadRegime, temp: real, nextId: nat)
    requires Inv(w, nextId) && w.queued.None? && w.Reachable()
    ensures var (c, issue) := w.control.Decided(rule, regime, temp);
            Inv(w.(control := c, queued := issue), nextId)
  {
    var (c, issue) := w.control.Decided(rule, regime, temp);
    SameElsewhere(w, w.(control := c, queued := issue));
  }

  lemma ReplaceKeeps(w: World, nextId: nat)
    requires Inv(w, nextId) && w.queued.None?
    ensures Inv(w.(control := w.control.Cleared()), nextId)
  {
    SameElsewhere(w, w.(control := w.control.Cleared()));
  }

  /** Ids issued to other devices in the meantime do no harm. */
  lemma LaterIdsKeep(w: World, nextId: nat, later: nat)
    requires Inv(w, nextId) && nextId <= later
    ensures Inv(w, later)
  {
  }

  /** Only dispatching takes an id. */
  lemma OtherStepsUseNoId(cfg: Config, w: World, s: Step, nextId: nat)
    requires Inv(w, nextId) && nextId >= 1 && Enabled(w, s) && !s.DispatchQueued?
    ensures Inv(Next(cfg, w, s, nextId), nextId)
  {
    match s
    case Connect(k) => ConnectKeeps(w, k, nextId);
    case AgentHangsUp(keep) => LeaveKeeps(w, keep, nextId);
    case AgentReceives(reaction, keep) =>
      if w.agent.state.Registering? {
        BecomeActiveKeeps(w, reaction, keep, nextId);
      } else {
        CommandKeeps(w, reaction, keep, nextId);
      }
    case AgentReports => ReportKeeps(w, nextId);
    case ControllerReceives(k, now, transit, keep) => HearKeeps(cfg, w, k, now, transit, keep, nextId);
    case ControllerCloses(k, keep) => CloseKeeps(w, k, keep, nextId);
    case SweepCommand(now, transit) => SweepKeeps(cfg, w, now, transit, nextId);
    case Evaluate(rule, regime, temp) => EvaluateKeeps(w, rule, regime, temp, nextId);
    case ReplacePolicy => ReplaceKeeps(w, nextId);
  }

  /** Every step of the loop keeps the invariant. */
  lemma StepKeeps(cfg: Config, w: World, s: Step, nextId: nat)
    requires Inv(w, nextId) && nextId >= 1 && Enabled(w, s)
    ensures Inv(Next(cfg, w, s, nextId), nextId + 1)
  {
    if s.DispatchQueued? {
      DispatchKeeps(cfg, w, nextId, s.now, s.transit);
    } else {
      OtherStepsUseNoId(cfg, w, s, nextId);
      LaterIdsKeep(Next(cfg, w, s, nextId), nextId, nextId + 1);
    }
  }
}
