/** A command's way onto the wire: routed to the device's active session and assembled in place in one buffer. */
module CommandSenders {
  import opened Basics
  import opened Memory
  import opened LinearBuffers
  import opened FrameStream
  import opened Sessions
  import M = Messages
  import MessageCodec

  const COMMAND_HEADER_SIZE: nat := 10

  /** The message that carries a command. */
  function MessageFor(id: nat, command: Command): M.Message {
    M.CommandRequest(id, SET_MODE, [command.mode])
  }

  lemma RequestSize(id: nat, command: Command)
    requires id < M.Limit(8)
    ensures M.Encodable(MessageFor(id, command)) && |M.Encoded(MessageFor(id, command))| == COMMAND_HEADER_SIZE + 1
    ensures M.Encoded(MessageFor(id, command)) == M.Encoded(M.CommandRequest(id, SET_MODE, [])) + [command.mode]
    ensures |M.Encoded(M.CommandRequest(id, SET_MODE, []))| == COMMAND_HEADER_SIZE
  {
  }

  /** A buffer from the pool, with room kept for the frame header. */
  method MakeMessageBuffer() returns (message: LinearBuffer)
    ensures message.Valid() && fresh(message) && fresh(message.storage)
    ensures message.storage.Length == MAX_FRAME && message.Contents() == [] && message.Headroom() == HEADER_SIZE
  {
    message := new LinearBuffer(MAX_FRAME);
    var _ := message.SetHeadroom(HEADER_SIZE);
  }

  /** Puts the frame header in front of a message that is not too long and has kept room for it. */
  method EncodeFrame(message: LinearBuffer) returns (ok: bool)
    requires message.Valid()
    modifies message, message.storage
    ensures message.Valid()
    ensures ok == (|old(message.Contents())| <= MAX_PAYLOAD && old(message.Headroom()) >= HEADER_SIZE)
    ensures message.Contents() == if ok then Framed(old(message.Contents())) else old(message.Contents())
  {
    if message.Size() > MAX_PAYLOAD {
      return false;
    }
    ok := message.Prepend(Header(message.Size()));
  }

  class CommandSender {
    const sessions: SessionRegistry

    constructor (sessions: SessionRegistry)
      ensures this.sessions == sessions
    {
      this.sessions := sessions;
    }

    /** Sends to the device's active session only. `open` says whether the transport still has that connection; if
        not the message is dropped and the sender is not told. The buffer always has room for all headers, so
        encoding does not fail. */
    method Send(device: DeviceId, id: nat, command: Command, open: bool)
      returns (result: SendResult, wire: Option<(ConnectionId, seq<Byte>)>)
      requires sessions.Valid() && id < M.Limit(8)
      ensures result == Sent || result == Offline
      ensures result == Sent <==>
              exists c :: c in sessions.sessions && device != NO_DEVICE && sessions.sessions[c].device == device
                          && sessions.sessions[c].state == Active
      ensures wire.Some? <==> result == Sent && open
      ensures wire.Some? ==>
                && wire.value.0 in sessions.sessions && sessions.sessions[wire.value.0].device == device
                && sessions.sessions[wire.value.0].state == Active
                && |M.Encoded(MessageFor(id, command))| <= MAX_PAYLOAD
                && wire.value.1 == Framed(M.Encoded(MessageFor(id, command)))
    {
      var target := sessions.FindDevice(device);
      if target.None? || target.value.state != Active {
        RoutedOnce(sessions, device, target);
        return Offline, None;
      }
      assert device != NO_DEVICE by {
        assert WellFormed(target.value.conn, target.value);
      }
      var message := MakeMessageBuffer();
      var encoded := Assemble(message, id, command);
      if !encoded {
        return EncodeFailed, None;
      }
      result := Sent;
      wire := None;
      if open {
        var framed := EncodeFrame(message);
        if framed {
          wire := Some((target.value.conn, message.storage[message.dataOffset..message.tailOffset]));
        }
      }
    }
  }

  /** Payload first, behind the room for both headers; then the command header in front of it. */
  method Assemble(message: LinearBuffer, id: nat, command: Command) returns (ok: bool)
    requires message.Valid() && id < M.Limit(8)
    requires message.storage.Length == MAX_FRAME && message.Contents() == [] && message.Headroom() == HEADER_SIZE
    modifies message, message.storage
    ensures ok && message.Valid() && message.Contents() == M.Encoded(MessageFor(id, command))
    ensures message.Headroom() == HEADER_SIZE
  {
    RequestSize(id, command);
    ok := message.GrowHeadroom(COMMAND_HEADER_SIZE);
    var written := EncodeSetMode(message.storage, message.tailOffset, command.mode);
    if written.None? {
      return false;
    }
    ok := message.Commit(written.value);
    if !ok {
      return false;
    }
    assert message.Contents() == [command.mode];
    var header := new Byte[COMMAND_HEADER_SIZE];
    var size := MessageCodec.EncodeCommandRequestHeader(header, id, SET_MODE);
    if size.None? {
      return false;
    }
    assert header[..] == M.Encoded(M.CommandRequest(id, SET_MODE, []));
    ok := message.Prepend(header[..]);
  }

  /** The body of a set-mode command is its one byte. */
  method EncodeSetMode(out: array<Byte>, at: nat, mode: Byte) returns (size: Option<nat>)
    requires at <= out.Length
    modifies out
    ensures size == if at < out.Length then Some(1) else None
    ensures out[..] == if at < out.Length then Overwritten(old(out[..]), at, [mode]) else old(out[..])
  {
    if at == out.Length {
      return None;
    }
    out[at] := mode;
    size := Some(1);
  }

  lemma RoutedOnce(sessions: SessionRegistry, device: DeviceId, target: Option<Session>)
    requires sessions.Valid()
    requires target.None? ==>
               forall c :: c in sessions.sessions ==> sessions.sessions[c].device != device || device == NO_DEVICE
    requires target.Some? ==>
               && target.value.state != Active && target.value.device == device
               && target.value.conn in sessions.sessions && sessions.sessions[target.value.conn] == target.value
    ensures !exists c :: c in sessions.sessions && device != NO_DEVICE && sessions.sessions[c].device == device
                         && sessions.sessions[c].state == Active
  {
    if c :| c in sessions.sessions && device != NO_DEVICE && sessions.sessions[c].device == device
            && sessions.sessions[c].state == Active {
      if target.Some? {
        BoundOnce(sessions.sessions, sessions.index, c, target.value.conn);
      }
    }
  }
}
