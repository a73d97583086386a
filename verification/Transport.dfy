/** Connection teardown under re-entrancy: the transport server and the session service call each other while a
    message is being handled, and a connection may go at any of those calls. */
module Transport {
  import opened Basics
  import opened Sessions
  import opened Callbacks

  datatype Reason =
    | PeerClosed | FrameError | IoError | Kicked | HandshakeExpired | LivenessExpired
    | BadMessage | UnexpectedMessage | RegisterRejected | InternalError | Shutdown

  /** A decoded message from a device. */
  datatype Message =
    | RegisterRequest(device: DeviceId) | RegisterAck
    | Heartbeat | StatusReport | CommandAck(id: nat) | CommandOutcome(id: nat, success: bool)
    | WrongWay

  type Reap = (ConnectionId, Reason)

  /** Connections by id; false once the connection is off the reactor and waiting to be reaped. */
  type Connections = map<ConnectionId, bool>

  ghost function Waiting(queue: seq<Reap>): set<ConnectionId> {
    set i | 0 <= i < |queue| :: queue[i].0
  }

  ghost function Torn(connections: Connections): set<ConnectionId> {
    set c | c in connections && !connections[c]
  }

  /** What is left once everything waiting has been reaped. */
  ghost function Alive(connections: Connections): Connections {
    map c | c in connections && connections[c] :: true
  }

  ghost predicate Distinct(queue: seq<Reap>) {
    forall i, j :: 0 <= i < j < |queue| ==> queue[i].0 != queue[j].0
  }

  /** The queue holds each connection that is off the reactor, once, and nothing else. */
  ghost predicate QueueOk(connections: Connections, queue: seq<Reap>) {
    Distinct(queue) && Waiting(queue) == Torn(connections)
  }

  /** The application has been told of exactly the present connections, and of the end of all others it knew. */
  ghost predicate Told(connections: Connections, next: ConnectionId, calls: seq<Callback>, c: ConnectionId) {
    var l := LifeOf(calls, c);
    !l.Broken? && (l.Open? <==> c in connections) && (c >= next ==> l.Unseen?)
  }

  ghost function Restrict(sessions: SessionTable, connections: Connections): SessionTable {
    map c | c in sessions && c in connections :: sessions[c]
  }

  /** Sessions went, and of those left only this connection's may have changed, by being seen now. */
  ghost predicate OnlySeen(before: SessionTable, after: SessionTable, c: ConnectionId, now: Time) {
    forall e :: e in after ==> e in before && (after[e] == before[e] || (e == c && after[e].lastSeen == now))
  }

  /** Connections went, and nothing else happened to the table. */
  ghost predicate Shrunk(before: Connections, after: Connections) {
    forall c :: c in after ==> c in before && after[c] == before[c]
  }

  /** What each stage of a session expects to hear. */
  predicate Expected(state: SessionState, m: Option<Message>) {
    m.Some? && match state
               case Handshaking => m.value.RegisterRequest?
               case Confirming => m.value.RegisterAck?
               case Active => m.value.Heartbeat? || Forwarded(m.value)
  }

  predicate Forwarded(m: Message) {
    m.StatusReport? || m.CommandAck? || m.CommandOutcome?
  }

  /** The device a registration asks for, if it names one. */
  function Claims(m: Option<Message>): Option<DeviceId> {
    if m.Some? && m.value.RegisterRequest? && m.value.device != NO_DEVICE then Some(m.value.device) else None
  }

  /** The device a message on this connection claims. */
  function ClaimedBy(sessions: SessionTable, c: ConnectionId, m: Option<Message>): Option<DeviceId> {
    if c in sessions && sessions[c].state.Handshaking? then Claims(m) else None
  }

  /** Connections on the reactor other than c stay, except the one that had the claimed device. */
  ghost predicate OthersStay(before: Connections, after: Connections, sessions: SessionTable, c: ConnectionId,
                             claimed: Option<DeviceId>)
  {
    forall e :: e in before && before[e] && e != c && !HadDevice(sessions, e, claimed) ==> e in after
  }

  predicate HadDevice(sessions: SessionTable, e: ConnectionId, claimed: Option<DeviceId>) {
    e in sessions && claimed == Some(sessions[e].device)
  }

  /** How long a session may stay silent in its stage. */
  function SilenceAllowed(s: Session, handshakeTimeout: Time, livenessTimeout: Time): Time {
    if s.state.Active? then livenessTimeout else handshakeTimeout
  }

  /** The session side: it reacts to connections coming, going and speaking. */
  class SessionService {
    const registry: SessionRegistry
    const handshakeTimeout: Time
    const livenessTimeout: Time
    ghost var released: seq<DeviceId>
    ghost var forwarded: seq<(DeviceId, Message)>

    constructor (handshakeTimeout: Time, livenessTimeout: Time)
      ensures fresh(registry) && registry.Valid() && registry.sessions == map[] && registry.index == map[]
      ensures released == [] && forwarded == []
      ensures this.handshakeTimeout == handshakeTimeout && this.livenessTimeout == livenessTimeout
    {
      this.handshakeTimeout, this.livenessTimeout := handshakeTimeout, livenessTimeout;
      released, forwarded := [], [];
      registry := new SessionRegistry();
    }

    method OnConnected(c: ConnectionId, now: Time)
      requires registry.Valid()
      modifies registry
      ensures registry.Valid() && registry.index == old(registry.index)
      ensures registry.sessions == if c in old(registry.sessions) then old(registry.sessions)
                                   else old(registry.sessions)[c := Session(c, NO_DEVICE, Handshaking, now)]
    {
      var ok := registry.Add(c, now);
    }

    /** The session goes, and a bound device is released. */
    method OnDisconnected(c: ConnectionId)
      requires registry.Valid()
      modifies registry, this`released
      ensures registry.Valid() && registry.sessions == old(registry.sessions) - {c}
      ensures released == if c in old(registry.sessions) && old(registry.sessions)[c].device != NO_DEVICE
                          then old(released) + [old(registry.sessions)[c].device] else old(released)
    {
      var device := if c in registry.sessions then registry.sessions[c].device else NO_DEVICE;
      var erased := registry.Erase(c);
      if erased && device != NO_DEVICE {
        released := released + [device];
      }
    }

    /** First collect what has expired; then disconnect each. */
    method Sweep(server: Server, now: Time)
      requires server.service == this && server.Valid() && server.reapQueue == []
      modifies server, this, registry
      ensures server.Valid() && server.reapQueue == []
      ensures server.listening == old(server.listening)
      ensures forall c :: c in server.connections <==>
                c in old(server.connections)
                && now - old(registry.sessions)[c].lastSeen
                   <= SilenceAllowed(old(registry.sessions)[c], handshakeTimeout, livenessTimeout)
      ensures registry.sessions == Restrict(old(registry.sessions), server.connections)
      ensures server.nextConn == old(server.nextConn)
    {
      var registering, active := CollectExpired(now);
      ghost var before := registry.sessions;
      DisconnectAll(server, registering, HandshakeExpired);
      DisconnectAll(server, active, LivenessExpired);
      assert registry.sessions == Restrict(before, server.connections);
    }

    method DisconnectAll(server: Server, stale: seq<ConnectionId>, reason: Reason)
      requires server.service == this && server.Valid() && server.reapQueue == []
      modifies server, this, registry
      ensures server.Valid() && server.reapQueue == []
      ensures server.listening == old(server.listening) && server.nextConn == old(server.nextConn)
      ensures registry.sessions == Restrict(old(registry.sessions), server.connections)
      ensures forall c :: c in server.connections <==> c in old(server.connections) && c !in stale
    {
      for i := 0 to |stale|
        invariant server.Valid() && server.reapQueue == []
        invariant server.listening == old(server.listening) && server.nextConn == old(server.nextConn)
        invariant registry.sessions == Restrict(old(registry.sessions), server.connections)
        invariant forall c :: c in server.connections <==> c in old(server.connections) && c !in stale[..i]
      {
        assert forall c :: c in stale[..i + 1] <==> c in stale[..i] || c == stale[i];
        server.Disconnect(stale[i], reason);
      }
      assert stale[..|stale|] == stale;
    }

    method CollectExpired(now: Time) returns (registering: seq<ConnectionId>, active: seq<ConnectionId>)
      requires registry.Valid()
      ensures forall c :: c in registering <==>
                c in registry.sessions && !registry.sessions[c].state.Active?
                && now - registry.sessions[c].lastSeen > handshakeTimeout
      ensures forall c :: c in active <==>
                c in registry.sessions && registry.sessions[c].state.Active?
                && now - registry.sessions[c].lastSeen > livenessTimeout
    {
      registering, active := [], [];
      var left := registry.sessions.Keys;
      while left != {}
        invariant left <= registry.sessions.Keys
        invariant forall c :: c in registering <==>
                    c in registry.sessions && c !in left && !registry.sessions[c].state.Active?
                    && now - registry.sessions[c].lastSeen > handshakeTimeout
        invariant forall c :: c in active <==>
                    c in registry.sessions && c !in left && registry.sessions[c].state.Active?
                    && now - registry.sessions[c].lastSeen > livenessTimeout
        decreases left
      {
        var c :| c in left;
        left := left - {c};
        var s := registry.sessions[c];
        if s.state.Active? {
          if now - s.lastSeen > livenessTimeout {
            active := active + [c];
          }
        } else if now - s.lastSeen > handshakeTimeout {
          registering := registering + [c];
        }
      }
    }

    /** A message: `modifyOk` says whether sending leaves the connection standing. */
    method OnMessage(server: Server, c: ConnectionId, m: Option<Message>, now: Time, modifyOk: bool)
      requires server.service == this && server.Valid() && c in server.connections && server.connections[c]
      modifies server, this, registry
      ensures server.Valid() && server.nextConn == old(server.nextConn)
      ensures server.listening == old(server.listening)
      ensures Shrunk(old(server.connections), server.connections)
      ensures !Expected(old(registry.sessions)[c].state, m) ==> c !in server.connections
      ensures old(registry.sessions)[c].state.Handshaking? ==>
                (c in server.connections <==> Claims(m).Some? && modifyOk)
      ensures OthersStay(old(server.connections), server.connections, old(registry.sessions), c,
                         ClaimedBy(old(registry.sessions), c, m))
      ensures OnlySeen(old(registry.sessions), registry.sessions, c, now)
      ensures OnlyEndings(old(server.calls), server.calls)
      ensures forwarded == if old(registry.sessions)[c].state.Active? && m.Some? && Forwarded(m.value)
                           then old(forwarded) + [(old(registry.sessions)[c].device, m.value)] else old(forwarded)
      ensures Expected(old(registry.sessions)[c].state, m) ==>
                match old(registry.sessions)[c].state
                case Handshaking => Registered(server, c, m.value.device)
                case Confirming =>
                  && server.connections == old(server.connections)
                  && registry.sessions == old(registry.sessions)
                                          [c := old(registry.sessions)[c].(state := Active, lastSeen := now)]
                case Active =>
                  && server.connections == old(server.connections)
                  && registry.sessions == old(registry.sessions)[c := old(registry.sessions)[c].(lastSeen := now)]
    {
      var session := registry.sessions[c];
      if m.None? {
        server.Disconnect(c, BadMessage);
        return;
      }
      match session.state {
        case Handshaking =>
          if m.value.RegisterRequest? {
            HandleRegister(server, c, m.value.device, now, modifyOk);
          } else {
            server.Disconnect(c, UnexpectedMessage);
          }
        case Confirming =>
          if m.value.RegisterAck? {
            var ok := registry.Confirm(c, now);
          } else {
            server.Disconnect(c, UnexpectedMessage);
          }
        case Active =>
          HandleActive(server, c, m.value, now);
      }
    }

    /** A connection that asked for a device has it to itself, or is gone. */
    ghost predicate Registered(server: Server, c: ConnectionId, d: DeviceId)
      reads this, registry, server
    {
      c in server.connections ==>
        && c in registry.sessions && registry.sessions[c].device == d && registry.sessions[c].state.Confirming?
        && forall e :: e in registry.sessions && e != c ==> registry.sessions[e].device != d
    }

    /** The device's old connection is disconnected first, then the device is bound to the new one. */
    method TakeOver(server: Server, c: ConnectionId, d: DeviceId, now: Time)
      requires server.service == this && server.Valid() && c in server.connections && server.connections[c]
      requires registry.sessions[c].state.Handshaking? && d != NO_DEVICE
      modifies server, this, registry
      ensures server.Valid() && server.nextConn == old(server.nextConn) && server.listening == old(server.listening)
      ensures Shrunk(old(server.connections), server.connections) && forwarded == old(forwarded)
      ensures OthersStay(old(server.connections), server.connections, old(registry.sessions), c, Some(d))
      ensures OnlySeen(old(registry.sessions), registry.sessions, c, now)
      ensures OnlyEndings(old(server.calls), server.calls)
      ensures c in server.connections && Registered(server, c, d)
    {
      var former := registry.FindDevice(d);
      if former.Some? {
        server.Disconnect(former.value.conn, Kicked);
      }
      assert forall e :: e in registry.sessions ==> registry.sessions[e].device != d;
      var ok := registry.Bind(c, d, now);
      assert ok by {
        assert d in registry.index ==> Agrees(registry.sessions, d, registry.index[d]);
      }
    }

    /** Registration: a named device goes over to the new connection, which is told so; a nameless one is rejected. */
    method HandleRegister(server: Server, c: ConnectionId, d: DeviceId, now: Time, modifyOk: bool)
      requires server.service == this && server.Valid() && c in server.connections && server.connections[c]
      requires registry.sessions[c].state.Handshaking?
      modifies server, this, registry
      ensures server.Valid() && server.nextConn == old(server.nextConn) && server.listening == old(server.listening)
      ensures Shrunk(old(server.connections), server.connections) && forwarded == old(forwarded)
      ensures OthersStay(old(server.connections), server.connections, old(registry.sessions), c,
                         if d == NO_DEVICE then None else Some(d))
      ensures OnlySeen(old(registry.sessions), registry.sessions, c, now)
      ensures OnlyEndings(old(server.calls), server.calls)
      ensures c in server.connections <==> d != NO_DEVICE && modifyOk
      ensures Registered(server, c, d)
    {
      if d == NO_DEVICE {
        server.Send(c, modifyOk);
        server.Disconnect(c, RegisterRejected);
        return;
      }
      TakeOver(server, c, d, now);
      server.Send(c, modifyOk);
    }

    /** Once active, every message but one of the wrong direction is a sign of life and goes to its service. */
    method HandleActive(server: Server, c: ConnectionId, m: Message, now: Time)
      requires server.service == this && server.Valid() && c in server.connections && server.connections[c]
      requires registry.sessions[c].state.Active?
      modifies server, this, registry
      ensures server.Valid() && server.nextConn == old(server.nextConn)
      ensures server.listening == old(server.listening)
      ensures Shrunk(old(server.connections), server.connections)
      ensures !Expected(Active, Some(m)) ==> c !in server.connections
      ensures Expected(Active, Some(m)) ==>
                && server.connections == old(server.connections)
                && registry.sessions == old(registry.sessions)[c := old(registry.sessions)[c].(lastSeen := now)]
      ensures OthersStay(old(server.connections), server.connections, old(registry.sessions), c, None)
      ensures OnlySeen(old(registry.sessions), registry.sessions, c, now)
      ensures OnlyEndings(old(server.calls), server.calls)
      ensures forwarded == if Forwarded(m) then old(forwarded) + [(old(registry.sessions)[c].device, m)]
                           else old(forwarded)
    {
      match m {
        case Heartbeat =>
          registry.UpdateSeen(c, now);
        case StatusReport =>
          registry.UpdateSeen(c, now);
          forwarded := forwarded + [(registry.sessions[c].device, m)];
        case CommandAck(_) =>
          registry.UpdateSeen(c, now);
          forwarded := forwarded + [(registry.sessions[c].device, m)];
        case CommandOutcome(_, _) =>
          registry.UpdateSeen(c, now);
          forwarded := forwarded + [(registry.sessions[c].device, m)];
        case _ =>
          server.Disconnect(c, UnexpectedMessage);
      }
    }
  }

  /** What a readable connection yields: a message, or bytes that are no frame. */
  datatype Incoming = Frame(message: Option<Message>, modifyOk: bool) | BadFrame

  datatype ReceiveEnd = WouldBlock | HungUp | ReceiveError

  /** The transport side: connections, and a queue of those to be reaped. */
  class Server {
    const service: SessionService
    var connections: Connections
    var reapQueue: seq<Reap>
    var nextConn: ConnectionId
    var listening: bool
    ghost var calls: seq<Callback>

    ghost predicate Valid()
      reads this, service, service.registry
    {
      && service.registry.Valid()
      && service.registry.sessions.Keys == connections.Keys
      && QueueOk(connections, reapQueue)
      && forall c :: Told(connections, nextConn, calls, c)
    }

    constructor (service: SessionService)
      requires service.registry.Valid() && service.registry.sessions == map[]
      ensures Valid() && this.service == service && reapQueue == [] && connections == map[] && listening
      ensures nextConn == 1
    {
      this.service := service;
      connections, reapQueue, nextConn, listening, calls := map[], [], 1, true, [];
    }

    /** Off the reactor and into the queue, unless it is there already. */
    method ScheduleReap(c: ConnectionId, reason: Reason)
      requires Valid() && c in connections
      modifies this`connections, this`reapQueue
      ensures Valid() && connections == old(connections)[c := false]
    {
      if !connections[c] {
        assert connections == connections[c := false];
        return;
      }
      ghost var queue, before := reapQueue, connections;
      connections := connections[c := false];
      reapQueue := reapQueue + [(c, reason)];
      assert c !in Torn(before);
      assert Waiting(reapQueue) == Waiting(queue) + {c} by {
        assert reapQueue[|queue|].0 == c;
        forall x | x in Waiting(queue)
          ensures x in Waiting(reapQueue)
        {
          var i :| 0 <= i < |queue| && queue[i].0 == x;
          assert reapQueue[i].0 == x;
        }
      }
      assert Torn(connections) == Torn(before) + {c};
      assert forall i :: 0 <= i < |queue| ==> queue[i].0 in Waiting(queue);
      assert forall e :: Told(before, nextConn, calls, e) ==> Told(connections, nextConn, calls, e);
    }

    /** Take connections off the queue one by one; the application hears of each after it is gone from the table. */
    method ReapScheduled()
      requires Valid()
      modifies this`connections, this`reapQueue, this`calls, service`released, service.registry
      ensures Valid() && reapQueue == []
      ensures connections == Alive(old(connections))
      ensures service.registry.sessions == Restrict(old(service.registry.sessions), connections)
      ensures OnlyEndings(old(calls), calls)
    {
      while reapQueue != []
        invariant Valid()
        invariant forall c :: c in connections ==> c in old(connections) && connections[c] == old(connections)[c]
        invariant forall c :: c in old(connections) && old(connections)[c] ==> c in connections
        invariant service.registry.sessions == Restrict(old(service.registry.sessions), connections)
        invariant OnlyEndings(old(calls), calls)
        decreases |reapQueue|
      {
        ReapOne();
      }
      assert Torn(connections) == {};
      assert forall c :: c in connections ==> c !in Torn(connections);
      assert connections == Alive(old(connections));
    }

    method ReapOne()
      requires Valid() && reapQueue != []
      modifies this`connections, this`reapQueue, this`calls, service`released, service.registry
      ensures Valid() && reapQueue == old(reapQueue)[1..] && calls == old(calls) + [Ended(old(reapQueue)[0].0)]
      ensures var c := old(reapQueue)[0].0;
              && c in old(connections) && !old(connections)[c] && connections == old(connections) - {c}
              && service.registry.sessions == old(service.registry.sessions) - {c}
    {
      var entry := reapQueue[0];
      ghost var queue, before := reapQueue, connections;
      reapQueue := reapQueue[1..];
      var c := entry.0;
      assert c in Waiting(queue);
      if c !in connections {
        assert false;
      }
      connections := connections - {c};
      service.OnDisconnected(c);
      QueueTail(before, queue);
      forall e
        ensures Told(connections, nextConn, calls + [Ended(c)], e)
      {
        assert Told(before, nextConn, calls, e);
        LifeOfAppend(calls, Ended(c), e);
      }
      calls := calls + [Ended(c)];
    }

    method Disconnect(c: ConnectionId, reason: Reason)
      requires Valid()
      modifies this`connections, this`reapQueue, this`calls, service`released, service.registry
      ensures Valid()
      ensures connections == if c in old(connections) then Alive(old(connections)) - {c} else old(connections)
      ensures old(reapQueue) == [] ==> reapQueue == [] && connections == old(connections) - {c}
      ensures service.registry.sessions == Restrict(old(service.registry.sessions), connections)
      ensures OnlyEndings(old(calls), calls)
    {
      assert Torn(connections) == Waiting(reapQueue);
      if c !in connections {
        assert Restrict(service.registry.sessions, connections) == service.registry.sessions;
        assert connections - {c} == connections;
        return;
      }
      ghost var before := connections;
      ScheduleReap(c, reason);
      ReapScheduled();
      assert connections == Alive(before) - {c};
      if old(reapQueue) == [] {
        assert forall e :: e in before ==> e !in Torn(before);
        assert connections == before - {c};
      }
    }

    /** Sending may find the connection broken. */
    method Send(c: ConnectionId, modifyOk: bool)
      requires Valid()
      modifies this`connections, this`reapQueue, this`calls, service`released, service.registry
      ensures Valid()
      ensures connections == if c !in old(connections) || !old(connections)[c] then old(connections)
                             else if modifyOk then Alive(old(connections)) else Alive(old(connections)) - {c}
      ensures old(reapQueue) == [] ==> reapQueue == []
      ensures service.registry.sessions == Restrict(old(service.registry.sessions), connections)
      ensures OnlyEndings(old(calls), calls)
    {
      if c !in connections || !connections[c] {
        assert Restrict(service.registry.sessions, connections) == service.registry.sessions;
        return;
      }
      ghost var before := connections;
      if !modifyOk {
        ScheduleReap(c, IoError);
      }
      ReapScheduled();
      assert connections == if modifyOk then Alive(before) else Alive(before) - {c};
    }

    /** A connection the reactor refuses leaves no trace; one it takes is announced. */
    method OnAccepted(addOk: bool, now: Time)
      requires Valid() && reapQueue == []
      modifies this, service`released, service.registry
      ensures Valid() && reapQueue == [] && listening == old(listening)
      ensures nextConn == old(nextConn) + 1
      ensures connections == if addOk then old(connections)[old(nextConn) := true] else old(connections)
      ensures forall e :: e in service.registry.sessions ==>
                if e in old(service.registry.sessions)
                then service.registry.sessions[e] == old(service.registry.sessions)[e]
                else e == old(nextConn) && service.registry.sessions[e].lastSeen == now
    {
      var c := nextConn;
      assert Told(connections, nextConn, calls, c);
      nextConn := nextConn + 1;
      if !addOk {
        assert forall e :: Told(connections, c, calls, e) ==> Told(connections, nextConn, calls, e);
        return;
      }
      ghost var before := connections;
      connections := connections[c := true];
      service.OnConnected(c, now);
      assert Torn(connections) == Torn(before);
      forall e
        ensures Told(connections, nextConn, calls + [Opened(c)], e)
      {
        assert Told(before, c, calls, e);
        LifeOfAppend(calls, Opened(c), e);
      }
      calls := calls + [Opened(c)];
      assert Torn(connections) == {};
      ReapScheduled();
      assert forall e :: e in before ==> e !in Torn(before);
      assert connections == before[c := true];
    }

    /** Hand one message to the session service. */
    method NotifyMessage(c: ConnectionId, m: Option<Message>, now: Time, modifyOk: bool)
      requires Valid() && c in connections && connections[c]
      modifies this, service, service.registry
      ensures Valid() && nextConn == old(nextConn) && listening == old(listening)
      ensures Shrunk(old(connections), connections)
      ensures OnlySeen(old(service.registry.sessions), service.registry.sessions, c, now)
      ensures OnlyEndings(old(calls) + [Delivered(c)], calls)
      ensures Deliveries(calls, c) == Deliveries(old(calls), c) + 1
      ensures OthersStay(old(connections), connections, old(service.registry.sessions), c,
                         ClaimedBy(old(service.registry.sessions), c, m))
    {
      forall e
        ensures Told(connections, nextConn, calls + [Delivered(c)], e)
      {
        assert Told(connections, nextConn, calls, e) && Told(connections, nextConn, calls, c);
        LifeOfAppend(calls, Delivered(c), e);
      }
      calls := calls + [Delivered(c)];
      DeliveredOnce(old(calls), c);
      service.OnMessage(this, c, m, now, modifyOk);
      EndingsDeliverNothing(old(calls) + [Delivered(c)], calls, c);
    }

    /** Deliver what was read, looking the connection up again before each frame, for any callback may have ended it. */
    method HandleReadable(c: ConnectionId, batch: seq<Incoming>, end: ReceiveEnd, now: Time)
      requires Valid()
      modifies this, service, service.registry
      ensures Valid() && nextConn == old(nextConn) && listening == old(listening)
      ensures forall e :: e in connections && e != c ==> e in old(connections) && connections[e] == old(connections)[e]
      ensures OnlySeen(old(service.registry.sessions), service.registry.sessions, c, now)
      ensures batch == [] ==> service.registry.sessions == old(service.registry.sessions)
      ensures c in connections ==> c in old(connections)
      ensures c in connections && connections[c] ==>
                end.WouldBlock? && BadFrame !in batch && Deliveries(calls, c) == Deliveries(old(calls), c) + |batch|
    {
      for i := 0 to |batch|
        invariant Valid() && nextConn == old(nextConn) && listening == old(listening)
        invariant Shrunk(old(connections), connections)
        invariant OnlySeen(old(service.registry.sessions), service.registry.sessions, c, now)
        invariant i == 0 ==> service.registry.sessions == old(service.registry.sessions)
        invariant c in connections && connections[c] ==>
                    BadFrame !in batch[..i] && Deliveries(calls, c) == Deliveries(old(calls), c) + i
      {
        if c !in connections || !connections[c] {
          return;
        }
        assert batch[..i + 1] == batch[..i] + [batch[i]];
        match batch[i] {
          case BadFrame =>
            ScheduleReap(c, FrameError);
            return;
          case Frame(m, modifyOk) =>
            NotifyMessage(c, m, now, modifyOk);
        }
      }
      assert batch[..|batch|] == batch;
      if c !in connections || !connections[c] {
        return;
      }
      match end {
        case WouldBlock =>
        case HungUp => ScheduleReap(c, PeerClosed);
        case ReceiveError => ScheduleReap(c, IoError);
      }
    }

    /** One event from the reactor. However the callbacks re-entered the server, nothing is left waiting after it. */
    method OnConnectionEvent(c: ConnectionId, readable: Option<(seq<Incoming>, ReceiveEnd)>, failed: bool,
                             transmitOk: bool, modifyOk: bool, now: Time)
      requires Valid() && reapQueue == []
      modifies this, service, service.registry
      ensures Valid() && reapQueue == [] && nextConn == old(nextConn) && listening == old(listening)
      ensures OnlySeen(old(service.registry.sessions), service.registry.sessions, c, now)
      ensures readable.None? || readable.value.0 == [] ==> forall e :: e in service.registry.sessions ==>
                service.registry.sessions[e] == old(service.registry.sessions)[e]
      ensures forall e :: e in connections ==> e in old(connections) && connections[e]
      ensures c in connections ==>
                && !failed && transmitOk && modifyOk
                && (readable.Some? ==>
                      && readable.value.1.WouldBlock? && BadFrame !in readable.value.0
                      && Deliveries(calls, c) == Deliveries(old(calls), c) + |readable.value.0|)
    {
      assert c in connections ==> c !in Torn(connections);
      if c in connections && connections[c] {
        if readable.Some? {
          HandleReadable(c, readable.value.0, readable.value.1, now);
        }
        if c in connections && connections[c] {
          if failed {
            ScheduleReap(c, IoError);
          } else {
            if !transmitOk {
              ScheduleReap(c, IoError);
            }
            if connections[c] && !modifyOk {
              ScheduleReap(c, IoError);
            }
          }
        }
      }
      ghost var told := calls;
      ReapScheduled();
      EndingsDeliverNothing(told, calls, c);
    }

    /** Stop listening and disconnect everyone. */
    method Stop()
      requires Valid() && reapQueue == []
      modifies this, service`released, service.registry
      ensures Valid() && reapQueue == [] && !listening && nextConn == old(nextConn)
      ensures connections == if old(listening) then map[] else old(connections)
      ensures forall e :: e in service.registry.sessions ==>
                e in old(service.registry.sessions)
                && service.registry.sessions[e] == old(service.registry.sessions)[e]
    {
      if !listening {
        return;
      }
      listening := false;
      var left := connections.Keys;
      while left != {}
        invariant Valid() && left <= connections.Keys == old(connections.Keys) && !listening
        invariant nextConn == old(nextConn)
        invariant forall c :: c in connections && c !in left ==> !connections[c]
        decreases left
      {
        var c :| c in left;
        ScheduleReap(c, Shutdown);
        left := left - {c};
      }
      ReapScheduled();
    }
  }

  lemma QueueTail(connections: Connections, queue: seq<Reap>)
    requires QueueOk(connections, queue) && queue != []
    ensures QueueOk(connections - {queue[0].0}, queue[1..])
    ensures queue[0].0 in connections && !connections[queue[0].0]
  {
    var c := queue[0].0;
    assert c in Waiting(queue);
    assert Waiting(queue[1..]) == Waiting(queue) - {c} by {
      forall x | x in Waiting(queue) && x != c
        ensures x in Waiting(queue[1..])
      {
        var i :| 0 <= i < |queue| && queue[i].0 == x;
        assert queue[1..][i - 1].0 == x;
      }
    }
    assert Torn(connections - {c}) == Torn(connections) - {c};
  }

  // ---------------------------------------------------------------------------------------------------------------

  /** What can happen while no callback is running: something reaches the controller from outside, or a command that
      was decided or is due goes out, on whatever connection it is routed to. */
  datatype Outside =
    | Accept(addOk: bool, at: Time)
    | Ready(conn: ConnectionId, readable: Option<(seq<Incoming>, ReceiveEnd)>, failed: bool,
            transmitOk: bool, modifyOk: bool, at: Time)
    | CommandSend(to: ConnectionId, modifyOk: bool)
    | Tick(at: Time)
    | StopAll

  /** How many connections have been accepted, taken or not. */
  function Accepts(events: seq<Outside>): nat {
    if events == [] then 0 else Accepts(events[..|events| - 1]) + if events[|events| - 1].Accept? then 1 else 0
  }

  /** With this event the connection comes into being, or frames are read from it. */
  predicate SignOfLife(events: seq<Outside>, j: nat, c: ConnectionId)
    requires j < |events|
  {
    || (events[j].Accept? && c == 1 + Accepts(events[..j]))
    || (events[j].Ready? && events[j].conn == c && events[j].readable.Some? && events[j].readable.value.0 != [])
  }

  ghost predicate SeenAt(events: seq<Outside>, n: nat, c: ConnectionId, at: Time)
    requires n <= |events|
  {
    exists j: nat :: j < n && SignOfLife(events, j, c) && events[j].at == at
  }

  predicate Timed(e: Outside) {
    e.Accept? || e.Ready? || e.Tick?
  }

  /** Time does not go back. */
  ghost predicate InTime(events: seq<Outside>) {
    forall i, j :: 0 <= i < j < |events| && Timed(events[i]) && Timed(events[j]) ==> events[i].at <= events[j].at
  }

  /** No tick among the first n events found the session silent for too long. */
  ghost predicate OutlastsTicks(events: seq<Outside>, n: nat, s: Session, handshakeTimeout: Time, livenessTimeout: Time)
    requires n <= |events|
  {
    forall i: nat :: i < n && events[i].Tick? ==>
      events[i].at - s.lastSeen <= SilenceAllowed(s, handshakeTimeout, livenessTimeout)
  }

  ghost predicate Lively(events: seq<Outside>, n: nat, sessions: SessionTable, handshakeTimeout: Time,
                         livenessTimeout: Time)
    requires n <= |events|
  {
    forall c :: c in sessions ==>
      && SeenAt(events, n, c, sessions[c].lastSeen)
      && OutlastsTicks(events, n, sessions[c], handshakeTimeout, livenessTimeout)
  }

  /** What is left is as it was or was seen with this event, and if this event is a tick, none of it has expired. */
  ghost predicate SeenOrKept(events: seq<Outside>, n: nat, before: SessionTable, after: SessionTable,
                             handshakeTimeout: Time, livenessTimeout: Time)
    requires n < |events|
  {
    forall c :: c in after ==>
      || (SignOfLife(events, n, c) && after[c].lastSeen == events[n].at)
      || (c in before && after[c] == before[c]
          && (events[n].Tick? ==>
                events[n].at - after[c].lastSeen <= SilenceAllowed(after[c], handshakeTimeout, livenessTimeout)))
  }

  lemma StaysLively(events: seq<Outside>, n: nat, before: SessionTable, after: SessionTable, handshakeTimeout: Time,
                    livenessTimeout: Time)
    requires n < |events| && InTime(events) && handshakeTimeout >= 0 && livenessTimeout >= 0
    requires Lively(events, n, before, handshakeTimeout, livenessTimeout)
    requires SeenOrKept(events, n, before, after, handshakeTimeout, livenessTimeout)
    ensures Lively(events, n + 1, after, handshakeTimeout, livenessTimeout)
  {
    forall c | c in after
      ensures SeenAt(events, n + 1, c, after[c].lastSeen)
      ensures OutlastsTicks(events, n + 1, after[c], handshakeTimeout, livenessTimeout)
    {
      if c in before && after[c] == before[c] {
        assert SeenAt(events, n, c, before[c].lastSeen);
      }
    }
  }

  /** One event. A tick ends exactly the connections that were silent for longer than their stage allows. */
  method DriveOne(server: Server, events: seq<Outside>, i: nat)
    requires server.Valid() && server.reapQueue == [] && i < |events|
    requires server.nextConn == 1 + Accepts(events[..i])
    modifies server, server.service, server.service.registry
    ensures server.Valid() && server.reapQueue == [] && server.nextConn == 1 + Accepts(events[..i + 1])
    ensures SeenOrKept(events, i, old(server.service.registry.sessions), server.service.registry.sessions,
                       server.service.handshakeTimeout, server.service.livenessTimeout)
    ensures events[i].Tick? ==> forall c :: c in old(server.connections) ==>
              var s := old(server.service.registry.sessions)[c];
              var silence := events[i].at - s.lastSeen;
              c in server.connections <==>
                if s.state.Active? then silence <= server.service.livenessTimeout
                else silence <= server.service.handshakeTimeout
  {
    assert events[..i + 1][..i] == events[..i];
    assert server.nextConn !in server.connections by {
      assert Told(server.connections, server.nextConn, server.calls, server.nextConn);
    }
    match events[i] {
      case Accept(addOk, at) => server.OnAccepted(addOk, at);
      case Ready(c, readable, failed, transmitOk, modifyOk, at) =>
        server.OnConnectionEvent(c, readable, failed, transmitOk, modifyOk, at);
      case CommandSend(c, modifyOk) => server.Send(c, modifyOk);
      case Tick(at) => server.service.Sweep(server, at);
      case StopAll => server.Stop();
    }
  }

  /** Over every sequence of such events: when no callback is running, nothing waits to be reaped, the server's
      connections are exactly the sessions, the device index is exactly the inverse of the bound sessions, and each
      connection the application was told of is present, or was ended once and never mentioned again. If time does not
      go back, every connection that is left was accepted, or frames were read from it, no longer before any tick than
      its stage allows. */
  method Drive(handshakeTimeout: Time, livenessTimeout: Time, events: seq<Outside>) returns (server: Server)
    ensures server.reapQueue == [] && (forall c :: c in server.connections ==> server.connections[c])
    ensures server.service.registry.sessions.Keys == server.connections.Keys
    ensures Inverse(server.service.registry.sessions, server.service.registry.index)
    ensures forall c :: Opened(c) in server.calls ==>
              if c in server.connections then LifeOf(server.calls, c).Open? else LifeOf(server.calls, c).Over?
    ensures InTime(events) && handshakeTimeout >= 0 && livenessTimeout >= 0 ==>
              Lively(events, |events|, server.service.registry.sessions, handshakeTimeout, livenessTimeout)
  {
    var service := new SessionService(handshakeTimeout, livenessTimeout);
    server := new Server(service);
    for i := 0 to |events|
      invariant server.service == service && server.Valid() && server.reapQueue == []
      invariant server.nextConn == 1 + Accepts(events[..i])
      invariant InTime(events) && handshakeTimeout >= 0 && livenessTimeout >= 0 ==>
                  Lively(events, i, service.registry.sessions, handshakeTimeout, livenessTimeout)
    {
      ghost var before := service.registry.sessions;
      DriveOne(server, events, i);
      if InTime(events) && handshakeTimeout >= 0 && livenessTimeout >= 0 {
        StaysLively(events, i, before, service.registry.sessions, handshakeTimeout, livenessTimeout);
      }
    }
    assert events[..|events|] == events;
    assert forall c :: c in server.connections ==> c !in Torn(server.connections);
    forall c | Opened(c) in server.calls
      ensures if c in server.connections then LifeOf(server.calls, c).Open? else LifeOf(server.calls, c).Over?
    {
      assert Told(server.connections, server.nextConn, server.calls, c);
      OpenedIsSeen(server.calls, c);
    }
  }

  lemma {:induction false} OpenedIsSeen(calls: seq<Callback>, c: ConnectionId)
    requires Opened(c) in calls
    ensures !LifeOf(calls, c).Unseen?
  {
    var n := |calls| - 1;
    assert calls == calls[..n] + [calls[n]];
    if Opened(c) in calls[..n] {
      OpenedIsSeen(calls[..n], c);
    }
  }
}
