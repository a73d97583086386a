/** The control loop's messages are the ones on the wire: a link's queue is the messages whose bytes are under way,
    and losing a queue's tail is losing the end of a byte stream. */
module ControlWire {
  import opened Basics
  import opened CommandSlots
  import opened AgentSessions
  import opened ControlLoop
  import opened FrameStream
  import opened WirePath
  import M = Messages
  import T = Transport
  import Sessions
  import CommandSenders

  // ---- what each end makes of a decoded message ----

  /** The agent: a message that does not decode, or is not for an agent, is misdirected. */
  function HeardDown(m: Option<M.Message>): Down {
    match m
    case Some(RegisterOutcome(code)) => RegisterOutcome(code == 0)
    case Some(CommandRequest(id, kind, payload)) => CommandRequest(Request(id, kind, payload))
    case _ => Misdirected
  }

  function CodeOf(code: Byte): Code {
    match code
    case 0 => Success
    case 2 => ApplyFailed
    case 3 => BadMode
    case 4 => BadPayload
    case 5 => UnknownType
    case _ => Failure
  }

  /** The controller, in the loop; an agent sends nothing else. */
  function HeardUp(m: Option<M.Message>): Option<Up> {
    match m
    case Some(RegisterRequest(_, _)) => Some(RegisterRequest)
    case Some(RegisterAck) => Some(RegisterAck)
    case Some(Heartbeat) => Some(Telemetry)
    case Some(StatusReport(_, _, _)) => Some(Telemetry)
    case Some(CommandAck(id)) => Some(CommandAck(id))
    case Some(CommandOutcome(id, code)) => Some(CommandOutcome(id, CodeOf(code)))
    case _ => None
  }

  /** The controller, in its session service, which looks up the device of an identity. */
  function HeardByService(m: Option<M.Message>, device: seq<Byte> -> DeviceId): Option<T.Message> {
    match m
    case None => None
    case Some(RegisterRequest(uuid, _)) => Some(T.RegisterRequest(device(uuid)))
    case Some(RegisterAck) => Some(T.RegisterAck)
    case Some(Heartbeat) => Some(T.Heartbeat)
    case Some(StatusReport(_, _, _)) => Some(T.StatusReport)
    case Some(CommandAck(id)) => Some(T.CommandAck(id))
    case Some(CommandOutcome(id, code)) => Some(T.CommandOutcome(id, code == 0))
    case _ => Some(T.WrongWay)
  }

  function StageOf(phase: Phase): Sessions.SessionState
    requires !phase.Closed?
  {
    match phase
    case Handshaking => Sessions.Handshaking
    case Confirming => Sessions.Confirming
    case Operating => Sessions.Active
  }

  /** The loop and the session service expect the same messages: what the service does not expect at its stage ends
      the connection in the loop, too. */
  lemma UnexpectedEndsTheLink(cfg: Config, w: World, k: ConnectionId, m: Option<M.Message>,
                              device: seq<Byte> -> DeviceId, now: Time, transit: Transit, keep: nat)
    requires w.HasMessage(k) && (w.bound.Some? ==> w.bound.value in w.links)
    requires HeardUp(m) == Some(w.links[k].up[0])
    ensures var l := w.links[k];
            !T.Expected(StageOf(l.phase), HeardByService(m, device)) ==>
              Hear(cfg, w, k, now, transit, keep) == CloseLink(SetLink(w, k, l.(up := l.up[1..])), k, keep)
  {
  }

  /** And what the loop hears is, of the service's messages, the one with the same id and verdict. */
  lemma BothHearTheSame(m: Option<M.Message>, device: seq<Byte> -> DeviceId, id: nat)
    ensures HeardUp(m) == Some(Up.CommandAck(id)) <==> HeardByService(m, device) == Some(T.CommandAck(id))
    ensures HeardUp(m) == Some(Up.CommandOutcome(id, Success)) <==>
            HeardByService(m, device) == Some(T.CommandOutcome(id, true))
    ensures (exists code :: code != Success && HeardUp(m) == Some(Up.CommandOutcome(id, code))) <==>
            HeardByService(m, device) == Some(T.CommandOutcome(id, false))
    ensures HeardUp(m).None? <==> m.None? || HeardByService(m, device) == Some(T.WrongWay)
    ensures m.Some? && m.value.StatusReport? <==> HeardByService(m, device) == Some(T.StatusReport)
  {
    if HeardByService(m, device) == Some(T.CommandOutcome(id, false)) {
      assert HeardUp(m) == Some(Up.CommandOutcome(id, CodeOf(m.value.code)));
    }
  }

  // ---- the bytes of an answer ----

  /** The codes in the order of their bytes. */
  const CODES: seq<Code> := [Success, Failure, ApplyFailed, BadMode, BadPayload, UnknownType]

  /** The controller hears an agent's outcome with the code its last byte says, and a code it does not know as a
      failure. */
  lemma OutcomeBytesAreHeard(id: nat, code: Byte)
    requires id < M.Limit(8)
    ensures HeardUp(M.Decoded([0x22] + M.Le(id, 8) + [code])) ==
            Some(CommandOutcome(id, if code < 6 then CODES[code] else Failure))
  {
    M.OutcomeReadsBack(id, code);
  }

  /** The agent hears that it is registered exactly if the code is zero. */
  lemma RegistrationBytesAreHeard(code: Byte)
    ensures HeardDown(M.Decoded([0x02, code])) == RegisterOutcome(if code == 0 then true else false)
  {
    M.DecodeInvertsEncode(M.RegisterOutcome(code));
  }

  // ---- a link's queue ----

  /** These messages, sent and not yet read, are what the loop has in the queue. */
  ghost predicate CarriesDown(ms: seq<M.Message>, down: seq<Down>) {
    Sendable(ms) && |ms| == |down| && forall i :: 0 <= i < |ms| ==> HeardDown(Some(ms[i])) == down[i]
  }

  ghost predicate CarriesUp(ms: seq<M.Message>, up: seq<Up>) {
    Sendable(ms) && |ms| == |up| && forall i :: 0 <= i < |ms| ==> HeardUp(Some(ms[i])) == Some(up[i])
  }

  function Heard(payloads: seq<seq<Byte>>): seq<Down> {
    seq(|payloads|, i requires 0 <= i < |payloads| => HeardDown(M.Decoded(payloads[i])))
  }

  function HeardBack(payloads: seq<seq<Byte>>): seq<Option<Up>> {
    seq(|payloads|, i requires 0 <= i < |payloads| => HeardUp(M.Decoded(payloads[i])))
  }

  function Somes(up: seq<Up>): seq<Option<Up>> {
    seq(|up|, i requires 0 <= i < |up| => Some(up[i]))
  }

  /** Whatever of the bytes arrives, in whatever chunks, is heard as a front of the queue; all of them as all of it. */
  lemma QueueArrives(ms: seq<M.Message>, down: seq<Down>, chunks: seq<seq<Byte>>, keeps: nat -> bool)
    requires CarriesDown(ms, down) && (forall k :: keeps(k)) && Joined(chunks) <= SentBytes(ms)
    ensures var heard := Heard(Fed(chunks, keeps).payloads);
            heard == Prefix(down, |heard|) && (Joined(chunks) == SentBytes(ms) ==> heard == down)
  {
    MessagesArrive(ms, chunks, keeps);
    var got := Fed(chunks, keeps).payloads;
    var heard := Heard(got);
    forall i | 0 <= i < |heard| ensures heard[i] == down[i] {
      assert DecodedAll(got)[i] == M.Decoded(got[i]);
    }
  }

  lemma QueueArrivesBack(ms: seq<M.Message>, up: seq<Up>, chunks: seq<seq<Byte>>, keeps: nat -> bool)
    requires CarriesUp(ms, up) && (forall k :: keeps(k)) && Joined(chunks) <= SentBytes(ms)
    ensures var heard := HeardBack(Fed(chunks, keeps).payloads);
            heard == Somes(Prefix(up, |heard|)) && (Joined(chunks) == SentBytes(ms) ==> heard == Somes(up))
  {
    MessagesArrive(ms, chunks, keeps);
    var got := Fed(chunks, keeps).payloads;
    var heard := HeardBack(got);
    forall i | 0 <= i < |heard| ensures heard[i] == Some(up[i]) {
      assert DecodedAll(got)[i] == M.Decoded(got[i]);
    }
  }

  /** Every front of the queue is what some beginning of the bytes is heard as. */
  lemma EveryFrontCanArrive(ms: seq<M.Message>, down: seq<Down>, keep: nat, keeps: nat -> bool)
    requires CarriesDown(ms, down) && forall k :: keeps(k)
    ensures exists bytes :: bytes <= SentBytes(ms) && Heard(Fed([bytes], keeps).payloads) == Prefix(down, keep)
  {
    var n := if keep < |ms| then keep else |ms|;
    assert Sendable(ms[..n]) && CarriesDown(ms[..n], down[..n]);
    var bytes := SentBytes(ms[..n]);
    SentInFront(ms, n);
    var chunks := [bytes];
    assert chunks[..0] == [];
    assert Joined(chunks) == [] + bytes;
    QueueArrives(ms[..n], down[..n], [bytes], keeps);
    assert down[..|down|] == down;
  }

  lemma {:induction false} FramesInFront(payloads: seq<seq<Byte>>, n: nat)
    requires n <= |payloads| && forall p :: p in payloads ==> |p| <= MAX_PAYLOAD
    ensures Frames(payloads) == Frames(payloads[..n]) + Frames(payloads[n..])
  {
    if n == 0 {
      assert payloads[n..] == payloads;
    } else {
      var rest := payloads[1..];
      FramesInFront(rest, n - 1);
      assert rest[..n - 1] == payloads[..n][1..] && rest[n - 1..] == payloads[n..];
    }
  }

  lemma SentInFront(ms: seq<M.Message>, n: nat)
    requires Sendable(ms) && n <= |ms|
    ensures Sendable(ms[..n]) && Sendable(ms[n..]) && SentBytes(ms) == SentBytes(ms[..n]) + SentBytes(ms[n..])
  {
    AllFit(ms);
    AllFit(ms[..n]);
    AllFit(ms[n..]);
    FramesInFront(EncodedAll(ms), n);
    assert EncodedAll(ms)[..n] == EncodedAll(ms[..n]) && EncodedAll(ms)[n..] == EncodedAll(ms[n..]);
  }

  /** What the command sender puts on the wire is what the loop puts into the queue. */
  lemma SendingEnqueues(w: World, id: nat, command: Command, ms: seq<M.Message>)
    requires w.Reachable() && id < M.Limit(8) && CarriesDown(ms, w.links[w.bound.value].down)
    ensures var m := CommandSenders.MessageFor(id, command);
            && CarriesDown(ms + [m], Enqueue(w, id, command, true).links[w.bound.value].down)
            && |M.Encoded(m)| <= MAX_PAYLOAD
            && SentBytes(ms + [m]) == SentBytes(ms) + Framed(M.Encoded(m))
  {
    var m := CommandSenders.MessageFor(id, command);
    CommandSenders.RequestSize(id, command);
    assert Sendable(ms + [m]);
    SentInFront(ms + [m], |ms|);
    assert (ms + [m])[..|ms|] == ms && (ms + [m])[|ms|..] == [m];
    assert EncodedAll([m]) == [M.Encoded(m)];
    assert Frames([M.Encoded(m)]) == Framed(M.Encoded(m)) + [];
  }
}
