/** The agent's half of a session: registering, then answering each command exactly as it answered it before. */
module AgentSessions {
  import opened Basics

  /** What a command request carries. */
  datatype Request = Request(id: nat, kind: Byte, payload: seq<Byte>)

  function RequestFor(id: nat, command: Command): Request {
    match command
    case SetMode(mode) => Request(id, SET_MODE, [mode])
  }

  datatype Code = Success | Failure | ApplyFailed | BadMode | BadPayload | UnknownType

  /** Controller to agent. */
  datatype Down = RegisterOutcome(accepted: bool) | CommandRequest(request: Request) | Misdirected

  /** Agent to controller. */
  datatype Up = RegisterRequest | RegisterAck | Telemetry | CommandAck(id: nat) | CommandOutcome(id: nat, code: Code)

  datatype AgentState = Idle | Registering | Active

  /** The session's memory and the mode the device is really in. */
  datatype Agent = Agent(state: AgentState, lastId: nat, lastCode: Code, mode: Mode)
  {
    /** What is left when the connection goes: only the device's mode. */
    function Disconnected(): Agent {
      Agent(Idle, 0, Success, mode)
    }
  }

  /** The device's answer to being told a mode: whether it accepted, and the mode it is in if it did not. */
  datatype Reaction = Reaction(accepts: bool, residue: Mode)

  /** The mode a request asks for, if it is well formed. */
  function Wanted(r: Request): Option<Mode> {
    if r.kind == SET_MODE && |r.payload| == 1 then DecodeMode(r.payload[0]) else None
  }

  function Verdict(r: Request, reaction: Reaction): Code {
    if r.kind != SET_MODE then UnknownType
    else if |r.payload| != 1 then BadPayload
    else if DecodeMode(r.payload[0]).None? then BadMode
    else if reaction.accepts then Success
    else ApplyFailed
  }

  function ModeAfter(mode: Mode, r: Request, reaction: Reaction): Mode {
    if Wanted(r).None? then mode else if reaction.accepts then Wanted(r).value else reaction.residue
  }

  /** Whether the request repeats the last one of this session. */
  predicate Repeats(a: Agent, r: Request) {
    r.id != 0 && r.id == a.lastId
  }

  function Handled(a: Agent, r: Request, reaction: Reaction): Agent {
    if Repeats(a, r) then a
    else a.(lastId := r.id, lastCode := Verdict(r, reaction), mode := ModeAfter(a.mode, r, reaction))
  }

  /** The code the agent answers with. */
  function Answer(a: Agent, r: Request, reaction: Reaction): Code {
    if Repeats(a, r) then a.lastCode else Verdict(r, reaction)
  }

  function Replies(a: Agent, r: Request, reaction: Reaction): seq<Up> {
    [CommandAck(r.id), CommandOutcome(r.id, Answer(a, r, reaction))]
  }

  /** A received message: the next state and what is sent; None when the agent hangs up instead. */
  function Received(a: Agent, m: Down, reaction: Reaction): Option<(Agent, seq<Up>)> {
    match a.state
    case Idle => Some((a, []))
    case Registering =>
      if m == RegisterOutcome(true) then Some((a.(state := Active), [RegisterAck, Telemetry])) else None
    case Active =>
      if m.CommandRequest? then Some((Handled(a, m.request, reaction), Replies(a, m.request, reaction))) else None
  }

  // ---- a send that ends the connection ----

  /** Which of a handler's two sends, if any, finds the connection broken: the transport then resets the session and
      drops what was sent, while the handler goes on. */
  datatype Fault = NoFault | FirstSend | SecondSend

  /** Registering ends by becoming active, and a new command by being remembered, whatever happened in between. */
  function BrokenOff(a: Agent, m: Down, reaction: Reaction, fault: Fault): Agent
    requires !fault.NoFault?
  {
    if a.state.Registering? then
      if fault.FirstSend? then a.Disconnected().(state := Active) else a.Disconnected()
    else if m.CommandRequest? && !Repeats(a, m.request) then Handled(a, m.request, reaction).(state := Idle)
    else a.Disconnected()
  }

  /** A received message, whatever becomes of the sends: the next state, what is sent, and whether the connection
      is still there. */
  function Outcome(a: Agent, m: Option<Down>, reaction: Reaction, fault: Fault): (Agent, seq<Up>, bool) {
    if a.state.Idle? then (a, [], true)
    else if m.None? || Received(a, m.value, reaction).None? then (a.Disconnected(), [], false)
    else if fault.NoFault? then
      var next := Received(a, m.value, reaction).value;
      (next.0, next.1, true)
    else (BrokenOff(a, m.value, reaction, fault), [], false)
  }

  /** The session is as a disconnection should leave it. */
  predicate Forgotten(a: Agent) {
    a.state.Idle? && a.lastId == 0
  }

  class Device {
    var mode: Mode

    constructor (mode: Mode)
      ensures this.mode == mode
    {
      this.mode := mode;
    }

    method Apply(m: Mode, reaction: Reaction) returns (ok: bool)
      modifies this
      ensures ok == reaction.accepts && mode == if ok then m else reaction.residue
    {
      ok := reaction.accepts;
      mode := if ok then m else reaction.residue;
    }
  }

  class AgentSession {
    const device: Device
    var state: AgentState
    var lastId: nat
    var lastCode: Code

    function Value(): Agent
      reads this, device
    {
      Agent(state, lastId, lastCode, device.mode)
    }

    constructor (device: Device)
      ensures this.device == device && Value() == Agent(Idle, 0, Success, device.mode)
    {
      this.device := device;
      state, lastId, lastCode := Idle, 0, Success;
    }

    method OnConnected() returns (sent: seq<Up>)
      modifies this
      ensures old(state) != Idle ==> Value() == old(Value()) && sent == []
      ensures old(state) == Idle ==> Value() == old(Value()).(state := Registering) && sent == [RegisterRequest]
    {
      if state != Idle {
        return [];
      }
      state := Registering;
      return [RegisterRequest];
    }

    method OnDisconnected()
      modifies this
      ensures Value() == old(Value()).Disconnected()
    {
      state := Idle;
      lastId := 0;
      lastCode := Success;
    }

    /** `message` is what decoding the payload gave. A connection that is gone on return was ended by the session or
        by a send. */
    method OnReceive(message: Option<Down>, reaction: Reaction, fault: Fault)
      returns (sent: seq<Up>, connected: bool)
      modifies this, device
      ensures (Value(), sent, connected) == Outcome(old(Value()), message, reaction, fault)
    {
      if state == Idle {
        return [], true;
      }
      if message.Some? {
        if state == Registering && message.value == RegisterOutcome(true) {
          sent, connected := HandleRegisterOutcome(fault);
          return;
        }
        if state == Active && message.value.CommandRequest? {
          sent, connected := HandleCommand(message.value.request, reaction, fault);
          return;
        }
      }
      OnDisconnected();
      return [], false;
    }

    method HandleRegisterOutcome(fault: Fault) returns (sent: seq<Up>, connected: bool)
      requires state == Registering
      modifies this
      ensures (Value(), sent, connected) ==
              Outcome(old(Value()), Some(RegisterOutcome(true)), Reaction(true, device.mode), fault)
    {
      sent, connected := Send([], true, RegisterAck, fault == FirstSend);
      state := Active;
      sent, connected := Send(sent, connected, Telemetry, fault == SecondSend);
      assert fault == NoFault ==> sent == [RegisterAck, Telemetry];
    }

    /** On a connection that is gone nothing is sent; if sending ends the connection the session is told. */
    method Send(before: seq<Up>, connected: bool, m: Up, breaks: bool) returns (sent: seq<Up>, still: bool)
      modifies this
      ensures still == (connected && !breaks)
      ensures sent == (if !connected then before else if breaks then [] else before + [m])
      ensures Value() == if connected && breaks then old(Value()).Disconnected() else old(Value())
    {
      if !connected {
        return before, false;
      }
      if breaks {
        OnDisconnected();
        return [], false;
      }
      return before + [m], true;
    }

    method HandleCommand(r: Request, reaction: Reaction, fault: Fault) returns (sent: seq<Up>, connected: bool)
      requires state == Active
      modifies this, device
      ensures (Value(), sent, connected) == Outcome(old(Value()), Some(CommandRequest(r)), reaction, fault)
    {
      if r.id != 0 && r.id == lastId {
        sent, connected := Send([], true, CommandAck(r.id), fault == FirstSend);
        sent, connected := Send(sent, connected, CommandOutcome(r.id, lastCode), fault == SecondSend);
        assert fault == NoFault ==> sent == [CommandAck(r.id), CommandOutcome(r.id, lastCode)];
        return;
      }
      sent, connected := Send([], true, CommandAck(r.id), fault == FirstSend);
      var code := Success;
      if r.kind == SET_MODE {
        if |r.payload| == 1 {
          var mode := DecodeMode(r.payload[0]);
          if mode.Some? {
            var ok := device.Apply(mode.value, reaction);
            if !ok {
              code := ApplyFailed;
            }
          } else {
            code := BadMode;
          }
        } else {
          code := BadPayload;
        }
      } else {
        code := UnknownType;
      }
      sent, connected := Send(sent, connected, CommandOutcome(r.id, code), fault == SecondSend);
      assert fault == NoFault ==> sent == [CommandAck(r.id), CommandOutcome(r.id, code)];
      lastId := r.id;
      lastCode := code;
    }
  }

  // ---------------------------------------------------------------------------------------------------------------
  // Remembering only the last id is enough on a stream of requests whose ids do not decrease.

  /** One session's requests with the device's reactions. */
  type Requests = seq<(Request, Reaction)>

  function SessionAfter(a: Agent, rs: Requests): Agent {
    if rs == [] then a
    else var before := SessionAfter(a, rs[..|rs| - 1]); Handled(before, rs[|rs| - 1].0, rs[|rs| - 1].1)
  }

  /** Whether request k is applied rather than answered from memory. */
  predicate Applies(a: Agent, rs: Requests, k: nat)
    requires k < |rs|
  {
    !Repeats(SessionAfter(a, rs[..k]), rs[k].0)
  }

  function AnswerTo(a: Agent, rs: Requests, k: nat): Code
    requires k < |rs|
  {
    Answer(SessionAfter(a, rs[..k]), rs[k].0, rs[k].1)
  }

  ghost predicate NondecreasingIds(rs: Requests) {
    (forall k :: 0 <= k < |rs| ==> rs[k].0.id >= 1)
    && forall j, k :: 0 <= j < k < |rs| ==> rs[j].0.id <= rs[k].0.id
  }

  lemma {:induction false} LastIdRemembered(a: Agent, rs: Requests)
    requires rs != [] && rs[|rs| - 1].0.id >= 1
    ensures var end := SessionAfter(a, rs);
            end.lastId == rs[|rs| - 1].0.id && end.lastCode == AnswerTo(a, rs, |rs| - 1)
  {
  }

  /** From a fresh session, on nondecreasing ids: a request is applied exactly when its id is new, so each id is
      applied once and in increasing order, and every answer to one id is the same. */
  lemma {:induction false} AppliedOncePerId(a: Agent, rs: Requests, j: nat, k: nat)
    requires a.lastId == 0 && NondecreasingIds(rs) && j < k < |rs|
    ensures Applies(a, rs, k) <==> rs[k - 1].0.id < rs[k].0.id
    ensures Applies(a, rs, j) && Applies(a, rs, k) ==> rs[j].0.id < rs[k].0.id
    ensures rs[j].0.id == rs[k].0.id ==> AnswerTo(a, rs, j) == AnswerTo(a, rs, k)
    decreases k - j
  {
    assert rs[..k][..k - 1] == rs[..k - 1] && rs[..k][k - 1] == rs[k - 1];
    LastIdRemembered(a, rs[..k]);
    assert AnswerTo(a, rs[..k], k - 1) == AnswerTo(a, rs, k - 1);
    assert rs[k - 1].0.id <= rs[k].0.id && rs[j].0.id <= rs[k - 1].0.id;
    if j < k - 1 {
      AppliedOncePerId(a, rs, j, k - 1);
    }
  }

  /** The memory is exactly that short: a smaller id after a larger one is applied a second time. */
  lemma DecreasingIdIsAppliedTwice(a: Agent, first: Request, second: Request, reaction: Reaction)
    requires a.lastId == 0 && 1 <= first.id < second.id
    ensures var rs := [(first, reaction), (second, reaction), (first, reaction)];
            Applies(a, rs, 0) && Applies(a, rs, 1) && Applies(a, rs, 2)
  {
    var rs := [(first, reaction), (second, reaction), (first, reaction)];
    assert rs[..1] == [(first, reaction)] && rs[..2] == [(first, reaction), (second, reaction)];
    LastIdRemembered(a, rs[..1]);
    LastIdRemembered(a, rs[..2]);
  }

  // ---- exactly when each id is applied once ----

  lemma {:induction false} LastIdIs(a: Agent, rs: Requests)
    requires rs != []
    ensures SessionAfter(a, rs).lastId == rs[|rs| - 1].0.id
  {
  }

  lemma AppliesUnlessRepeated(a: Agent, rs: Requests, k: nat)
    requires a.lastId == 0 && k < |rs|
    ensures Applies(a, rs, k) <==> k == 0 || rs[k].0.id == 0 || rs[k - 1].0.id != rs[k].0.id
  {
    if k > 0 {
      LastIdIs(a, rs[..k]);
    }
  }

  ghost predicate AppliedAtMostOnce(a: Agent, rs: Requests) {
    forall j, k :: 0 <= j < k < |rs| && Applies(a, rs, j) && Applies(a, rs, k) ==> rs[j].0.id != rs[k].0.id
  }

  /** Requests with one id stand together, and id 0 comes once. */
  ghost predicate Grouped(rs: Requests) {
    forall j, k :: 0 <= j < k < |rs| && rs[j].0.id == rs[k].0.id ==> rs[j].0.id != 0 && SameIds(rs, j, k)
  }

  predicate SameIds(rs: Requests, j: nat, k: nat)
    requires j <= k < |rs|
  {
    forall m :: j <= m <= k ==> rs[m].0.id == rs[k].0.id
  }

  /** The first request of the run of equal ids that k is in. */
  lemma {:induction false} RunStart(a: Agent, rs: Requests, k: nat) returns (j: nat)
    requires a.lastId == 0 && k < |rs|
    ensures j <= k && Applies(a, rs, j) && SameIds(rs, j, k)
  {
    AppliesUnlessRepeated(a, rs, k);
    if Applies(a, rs, k) {
      j := k;
    } else {
      j := RunStart(a, rs, k - 1);
    }
  }

  /** Remembering only the last id is enough exactly for streams in which equal ids stand together. */
  lemma AppliedOnceIffGrouped(a: Agent, rs: Requests)
    requires a.lastId == 0
    ensures AppliedAtMostOnce(a, rs) <==> Grouped(rs)
  {
    if Grouped(rs) {
      forall j, k | 0 <= j < k < |rs| && rs[j].0.id == rs[k].0.id ensures !Applies(a, rs, k) {
        AppliesUnlessRepeated(a, rs, k);
        assert SameIds(rs, j, k) && rs[k - 1].0.id == rs[k].0.id;
      }
    }
    if AppliedAtMostOnce(a, rs) {
      forall j, k | 0 <= j < k < |rs| && rs[j].0.id == rs[k].0.id ensures rs[j].0.id != 0 && SameIds(rs, j, k) {
        OnceMeansTogether(a, rs, j, k);
      }
    }
  }

  lemma OnceMeansTogether(a: Agent, rs: Requests, j: nat, k: nat)
    requires a.lastId == 0 && AppliedAtMostOnce(a, rs) && j < k < |rs| && rs[j].0.id == rs[k].0.id
    ensures rs[j].0.id != 0 && SameIds(rs, j, k)
  {
    AppliesUnlessRepeated(a, rs, j);
    AppliesUnlessRepeated(a, rs, k);
    var first := RunStart(a, rs, j);
    var second := RunStart(a, rs, k);
    assert first == second;
  }

  // ---- sends that end the connection ----

  /** When a send of the handler ends the connection, the session is left as a disconnection should leave it exactly
      if the message was the outcome of a registration and the second send failed, or a command that was answered
      from memory or has id 0. */
  lemma WhenAFaultIsForgotten(a: Agent, m: Down, reaction: Reaction, fault: Fault)
    requires !fault.NoFault? && !a.state.Idle? && Received(a, m, reaction).Some?
    ensures Forgotten(Outcome(a, Some(m), reaction, fault).0) <==>
            if a.state.Registering? then fault.SecondSend? else Repeats(a, m.request) || m.request.id == 0
  {
  }

  /** What the handler remembered after the reset reaches the next session: if that begins with a command of the same
      id, the command is not applied but answered from memory, whatever it asks for. */
  lemma BrokenOffCommandIsRemembered(a: Agent, r: Request, reaction: Reaction, fault: Fault, next: Request,
                                     reaction': Reaction)
    requires a.state.Active? && !fault.NoFault? && !Repeats(a, r) && r.id != 0 && next.id == r.id
    ensures var idle := Outcome(a, Some(CommandRequest(r)), reaction, fault).0;
            var registered := Received(idle.(state := Registering), RegisterOutcome(true), reaction').value.0;
            && Handled(registered, next, reaction') == registered
            && Answer(registered, next, reaction') == Verdict(r, reaction)
  {
  }

  // ---- what the answer says ----

  /** A set-mode request for a mode of the vocabulary. */
  predicate AsksFor(r: Request, mode: Mode) {
    r.kind == 1 && r.payload == [match mode case Safe => 0 case Normal => 1 case Performance => 2]
  }

  /** The answer to a request that does not repeat the last one: success exactly if it asks for a known mode and the
      device accepts, and then the device is in that mode; every other code has exactly one cause, and but for a
      device that did not accept, nothing has happened to its mode. */
  lemma AnswerSaysWhy(a: Agent, r: Request, reaction: Reaction)
    requires !Repeats(a, r)
    ensures var code, after := Answer(a, r, reaction), Handled(a, r, reaction);
            && (code == Success <==> (exists mode :: AsksFor(r, mode)) && reaction.accepts)
            && (code == ApplyFailed <==> (exists mode :: AsksFor(r, mode)) && !reaction.accepts)
            && (code == BadMode <==> r.kind == 1 && |r.payload| == 1 && r.payload[0] > 2)
            && (code == BadPayload <==> r.kind == 1 && |r.payload| != 1)
            && (code == UnknownType <==> r.kind != 1)
            && (forall mode :: AsksFor(r, mode) ==> after.mode == if reaction.accepts then mode else reaction.residue)
            && ((forall mode :: !AsksFor(r, mode)) ==> after.mode == a.mode)
  {
    if r.kind == 1 && |r.payload| == 1 && r.payload[0] <= 2 {
      assert r.payload == [r.payload[0]];
      assert AsksFor(r, match r.payload[0] case 0 => Safe case 1 => Normal case _ => Performance);
    }
  }

  /** Resending a command the agent refused cannot help within the session: it is answered from memory. */
  lemma RefusalIsRepeated(a: Agent, r: Request, reaction: Reaction, again: Reaction)
    requires r.id >= 1 && Answer(a, r, reaction) != Success
    ensures var refused := Handled(a, r, reaction);
            Handled(refused, r, again) == refused && Answer(refused, r, again) == Answer(a, r, reaction)
  {
  }
}
