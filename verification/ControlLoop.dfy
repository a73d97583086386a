/** The whole control loop for one device, as a step system: the policy's record, the tracked command, the
    connections the device's agent has opened with the two message queues of each, and the agent itself. Each step
    is one thing the controller or the agent does, and uses the functions the classes are proved against. */
module ControlLoop {
  import opened Basics
  import opened DeviceControls
  import opened CommandSlots
  import opened AgentSessions

  /** The controller's side of a connection. A session that is confirming or operating is bound to the device. */
  datatype Phase = Handshaking | Confirming | Operating | Closed

  /** A connection: what the controller has sent that the agent has yet to read, and the other way round. */
  datatype Link = Link(phase: Phase, down: seq<Down>, up: seq<Up>)

  /** `queued` is the mode decided in this evaluation and not yet dispatched; `bound` is the device's entry in the
      session index; `current` is the connection the agent is on. The rest is history: the commands sent so far and
      the largest id among them, and what the agent heard on its current connection, starting from `start`. */
  datatype World = World(
    control: Control, queued: Option<Mode>, slot: Option<Slot>,
    links: map<ConnectionId, Link>, bound: Option<ConnectionId>, current: Option<ConnectionId>,
    agent: Agent,
    sentCommands: map<nat, Command>, latest: nat, start: Agent, heard: Requests)
  {
    predicate OnCurrent(k: ConnectionId) {
      current == Some(k)
    }

    /** Whether commands can be sent: the device has an operating session. */
    predicate Reachable() {
      bound.Some? && bound.value in links && links[bound.value].phase.Operating?
    }

    predicate MayReceive() {
      current.Some? && current.value in links && links[current.value].down != []
    }

    predicate HasMessage(k: ConnectionId) {
      k in links && !links[k].phase.Closed? && links[k].up != []
    }
  }

  function Initial(mode: Mode): World {
    var a := Agent(Idle, 0, Success, mode);
    World(FRESH, None, None, map[], None, None, a, map[], 0, a, [])
  }

  /** How one send goes: whether it is encoded, whether the transport keeps the message, and whether it finds the
      connection broken and tears it down, with so many of the messages already sent still arriving. */
  datatype Transit = Transit(encodes: bool, kept: bool, teardown: Option<nat>)

  datatype Step =
    | Connect(k: ConnectionId)
    | AgentHangsUp(keep: nat)
    | AgentReceives(reaction: Reaction, keep: nat)
    | AgentReports
    | ControllerReceives(k: ConnectionId, now: Time, transit: Transit, keep: nat)
    | ControllerCloses(k: ConnectionId, keep: nat)
    | SweepCommand(now: Time, transit: Transit)
    | Evaluate(rule: GroupRule, regime: LoadRegime, temp: real)
    | DispatchQueued(now: Time, transit: Transit)
    | ReplacePolicy

  function Prefix<T>(s: seq<T>, n: nat): seq<T> {
    if n < |s| then s[..n] else s
  }

  function SetLink(w: World, k: ConnectionId, l: Link): World {
    w.(links := w.links[k := l])
  }

  // ---- connections ----

  /** The controller ends a connection: what it sent may arrive in part, what it was sent is dropped, and a bound
      device is released. */
  function CloseLink(w: World, k: ConnectionId, keep: nat): World
    requires k in w.links
  {
    if w.links[k].phase.Closed? then w
    else
      var l := Link(Closed, Prefix(w.links[k].down, keep), []);
      if w.bound == Some(k) then SetLink(w, k, l).(bound := None, control := w.control.Cleared())
      else SetLink(w, k, l)
  }

  function Teardown(w: World, k: ConnectionId, teardown: Option<nat>): World
    requires k in w.links
  {
    if teardown.None? then w else CloseLink(w, k, teardown.value)
  }

  /** The agent ends its connection: part of what it sent may still arrive. */
  function AgentLeaves(w: World, keep: nat): World
    requires w.current.Some? && w.current.value in w.links
  {
    var l := w.links[w.current.value];
    SetLink(w, w.current.value, Link(l.phase, [], Prefix(l.up, keep)))
    .(current := None, agent := w.agent.Disconnected(), start := w.agent.Disconnected(), heard := [])
  }

  function Reply(l: Link, sent: seq<Up>): Link {
    if l.phase.Closed? then l else l.(up := l.up + sent)
  }

  function AgentHears(w: World, reaction: Reaction, keep: nat): World
    requires w.MayReceive()
  {
    var l := w.links[w.current.value];
    var m := l.down[0];
    var next := Received(w.agent, m, reaction);
    if next.None? then AgentLeaves(w, keep)
    else
      var w' := SetLink(w, w.current.value, Reply(l.(down := l.down[1..]), next.value.1)).(agent := next.value.0);
      if w.agent.state.Active? && m.CommandRequest? then w'.(heard := w.heard + [(m.request, reaction)])
      else w'.(start := next.value.0)
  }

  // ---- commands ----

  function SendResultOf(w: World, transit: Transit): SendResult {
    if !w.Reachable() then Offline else if !transit.encodes then EncodeFailed else Sent
  }

  /** Put a command on the operating session, if the transport keeps it. */
  function Enqueue(w: World, id: nat, command: Command, kept: bool): World
    requires w.Reachable()
  {
    var l := w.links[w.bound.value];
    SetLink(w, w.bound.value,
            if kept then l.(down := l.down + [CommandRequest(RequestFor(id, command))]) else l)
    .(sentCommands := w.sentCommands[id := command], latest := id)
  }

  /** The send may tear the connection down before it returns. */
  function SendCommand(w: World, id: nat, command: Command, transit: Transit): World
    requires w.Reachable()
  {
    Teardown(Enqueue(w, id, command, transit.kept), w.bound.value, transit.teardown)
  }

  /** The tracked command is given up and the policy is told. */
  function Abandoned(w: World): World
    requires w.slot.Some?
  {
    w.(slot := None, control := w.control.Failed(w.slot.value.id))
  }

  function AttemptEnds(cfg: Config, w: World, now: Time): World
    requires w.slot.Some?
  {
    var next := AttemptFailed(cfg, w.slot.value, now);
    if next.None? then Abandoned(w) else w.(slot := next)
  }

  function SweepTracked(cfg: Config, w: World, now: Time, transit: Transit): World
    requires w.slot.Some?
  {
    var s := w.slot.value;
    if !Due(s, now) then w
    else if s.state.InFlight? then AttemptEnds(cfg, w, now)
    else if SendResultOf(w, transit).Sent? then
      SendCommand(w, s.id, s.command, transit).(slot := Some(Resent(cfg, s, now)))
    else Abandoned(w)
  }

  function DispatchDecided(cfg: Config, w: World, nextId: nat, now: Time, transit: Transit): World
    requires w.queued.Some?
  {
    var command := SetMode(EncodeMode(w.queued.value));
    if SendResultOf(w, transit).Sent? then
      var sent := SendCommand(w, nextId, command, transit);
      sent.(slot := Some(NewSlot(cfg, nextId, command, now, Some(0))), queued := None,
            control := sent.control.Dispatched(nextId))
    else
      w.(slot := None, queued := None, control := w.control.Dispatched(0))
  }

  // ---- messages to the controller ----

  /** The device's old session, if any, goes first. */
  function Evicted(w: World, keep: nat): World
    requires w.bound.Some? ==> w.bound.value in w.links
  {
    if w.bound.Some? then CloseLink(w, w.bound.value, keep) else w
  }

  /** The connection becomes the device's session, and is told so if the transport keeps the message. */
  function Bind(w: World, k: ConnectionId, kept: bool): World
    requires k in w.links
  {
    var l := w.links[k];
    SetLink(w, k, Link(Confirming, if kept then l.down + [RegisterOutcome(true)] else l.down, l.up))
    .(bound := Some(k))
  }

  function Register(w: World, k: ConnectionId, transit: Transit, keep: nat): World
    requires k in w.links && (w.bound.Some? ==> w.bound.value in w.links)
  {
    Teardown(Bind(Evicted(w, keep), k, transit.kept), k, transit.teardown)
  }

  function Operate(cfg: Config, w: World, k: ConnectionId, m: Up, now: Time, keep: nat): World
    requires k in w.links
  {
    match m
    case Telemetry => w
    case CommandAck(id) =>
      if w.slot.Some? && w.slot.value.id == id then w.(slot := Some(Acknowledged(cfg, w.slot.value, now))) else w
    case CommandOutcome(id, code) =>
      if w.slot.None? || w.slot.value.id != id then w
      else if code.Success? then w.(slot := None)
      else AttemptEnds(cfg, w, now)
    case _ => CloseLink(w, k, keep)
  }

  function Hear(cfg: Config, w: World, k: ConnectionId, now: Time, transit: Transit, keep: nat): World
    requires w.HasMessage(k) && (w.bound.Some? ==> w.bound.value in w.links)
  {
    var l := w.links[k];
    var m := l.up[0];
    var w' := SetLink(w, k, l.(up := l.up[1..]));
    match l.phase
    case Handshaking => if m.RegisterRequest? then Register(w', k, transit, keep) else CloseLink(w', k, keep)
    case Confirming => if m.RegisterAck? then SetLink(w, k, Link(Operating, l.down, l.up[1..]))
                       else CloseLink(w', k, keep)
    case Operating => Operate(cfg, w', k, m, now, keep)
    case Closed => w
  }

  // ---- the step relation ----

  /** Between deciding and dispatching, the controller does nothing else for the device but lose connections. */
  predicate Enabled(w: World, s: Step) {
    match s
    case Connect(k) => w.current.None? && k !in w.links
    case AgentHangsUp(_) => w.current.Some? && w.current.value in w.links
    case AgentReceives(_, _) => w.MayReceive()
    case AgentReports => w.agent.state.Active? && w.current.Some? && w.current.value in w.links
    case ControllerReceives(k, _, _, _) =>
      w.queued.None? && w.HasMessage(k) && (w.bound.Some? ==> w.bound.value in w.links)
    case ControllerCloses(k, _) => k in w.links
    case SweepCommand(_, _) => w.queued.None? && w.slot.Some?
    case Evaluate(_, _, _) => w.queued.None? && w.Reachable()
    case DispatchQueued(_, _) => w.queued.Some?
    case ReplacePolicy => w.queued.None?
  }

  function Next(cfg: Config, w: World, s: Step, nextId: nat): World
    requires Enabled(w, s)
  {
    match s
    case Connect(k) =>
      var a := w.agent.(state := Registering);
      SetLink(w, k, Link(Handshaking, [], [RegisterRequest])).(current := Some(k), agent := a, start := a, heard := [])
    case AgentHangsUp(keep) => AgentLeaves(w, keep)
    case AgentReceives(reaction, keep) => AgentHears(w, reaction, keep)
    case AgentReports => SetLink(w, w.current.value, Reply(w.links[w.current.value], [Telemetry]))
    case ControllerReceives(k, now, transit, keep) => Hear(cfg, w, k, now, transit, keep)
    case ControllerCloses(k, keep) => CloseLink(w, k, keep)
    case SweepCommand(now, transit) => SweepTracked(cfg, w, now, transit)
    case Evaluate(rule, regime, temp) =>
      var (c, issue) := w.control.Decided(rule, regime, temp);
      w.(control := c, queued := issue)
    case DispatchQueued(now, transit) => DispatchDecided(cfg, w, nextId, now, transit)
    case ReplacePolicy => w.(control := w.control.Cleared())
  }
}
