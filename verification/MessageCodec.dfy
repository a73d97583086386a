/** Encoders and the decoder as the program runs them: a cursor over a span of bytes. */
module MessageCodec {
  import opened Basics
  import opened Memory
  import opened Messages

  /** Where an encoder writes next. */
  class OutSpan {
    const bytes: array<Byte>
    var cur: nat

    ghost predicate Valid()
      reads this
    {
      cur <= bytes.Length
    }

    constructor (bytes: array<Byte>)
      ensures Valid() && this.bytes == bytes && cur == 0
    {
      this.bytes, cur := bytes, 0;
    }

    /** All the bytes or, without room, none. */
    method Append(src: seq<Byte>) returns (ok: bool)
      requires Valid()
      modifies this, bytes
      ensures Valid() && ok == (old(cur) + |src| <= bytes.Length)
      ensures cur == old(cur) + if ok then |src| else 0
      ensures bytes[..cur] == old(bytes[..cur]) + if ok then src else []
      ensures bytes[cur..] == old(bytes[..])[cur..]
    {
      if bytes.Length - cur < |src| {
        return false;
      }
      Copy(bytes, cur, src);
      cur := cur + |src|;
      ok := true;
    }
  }

  /** The message is at the front of the span and the rest is as it was, or there is no room and no message. */
  ghost predicate Wrote(before: seq<Byte>, after: seq<Byte>, size: Option<nat>, m: Message) {
    && |after| == |before|
    && (size.Some? <==> Encodable(m) && |Encoded(m)| <= |before|)
    && (size.Some? ==> size.value == |Encoded(m)| && after == Overwritten(before, 0, Encoded(m)))
  }

  /** An encoder's state between two fields: what is written so far is the front of the message. */
  ghost predicate Writing(before: seq<Byte>, after: seq<Byte>, cur: nat, m: Message) {
    && |after| == |before| && cur <= |before|
    && after[..cur] <= Encoded(m)
    && after[cur..] == before[cur..]
  }

  lemma Started(before: seq<Byte>, m: Message)
    ensures Writing(before, before, 0, m)
  {
  }

  /** One more field. */
  lemma Continued(before: seq<Byte>, mid: seq<Byte>, cur: nat, after: seq<Byte>, field: seq<Byte>, m: Message)
    requires Writing(before, mid, cur, m) && cur + |field| <= |before| && |after| == |before|
    requires cur + |field| <= |Encoded(m)| && Encoded(m)[cur..cur + |field|] == field
    requires after[..cur + |field|] == mid[..cur] + field && after[cur + |field|..] == mid[cur + |field|..]
    ensures Writing(before, after, cur + |field|, m)
  {
    assert after[cur + |field|..] == mid[cur..][|field|..] == before[cur..][|field|..];
  }

  lemma Finished(before: seq<Byte>, after: seq<Byte>, cur: nat, m: Message)
    requires Encodable(m) && Writing(before, after, cur, m) && cur == |Encoded(m)|
    ensures Wrote(before, after, Some(cur), m)
  {
    assert after == after[..cur] + after[cur..];
  }

  /** One fixed field of a message; the cursor of a message under way moves over it. */
  method AppendField(span: OutSpan, field: seq<Byte>, ghost before: seq<Byte>, ghost m: Message) returns (ok: bool)
    requires span.Valid() && Writing(before, span.bytes[..], span.cur, m)
    requires span.cur + |field| <= |Encoded(m)| && Encoded(m)[span.cur..span.cur + |field|] == field
    modifies span, span.bytes
    ensures span.Valid() && Writing(before, span.bytes[..], span.cur, m)
    ensures ok ==> span.cur == old(span.cur) + |field|
    ensures !ok ==> |Encoded(m)| > |before|
  {
    ghost var mid, cur := span.bytes[..], span.cur;
    ok := span.Append(field);
    if ok {
      Continued(before, mid, cur, span.bytes[..], field, m);
    } else {
      assert span.bytes[..] == span.bytes[..cur] + span.bytes[cur..];
    }
  }

  method EncodeRegisterRequest(out: array<Byte>, uuid: seq<Byte>, group: seq<Byte>) returns (size: Option<nat>)
    requires |uuid| == 16
    modifies out
    ensures Wrote(old(out[..]), out[..], size, RegisterRequest(uuid, group))
  {
    ghost var before, m := out[..], RegisterRequest(uuid, group);
    var span := new OutSpan(out);
    Started(before, m);
    var ok := AppendField(span, [0x01], before, m);
    if !ok {
      return None;
    }
    ok := AppendField(span, uuid, before, m);
    if !ok {
      return None;
    }
    if |group| >= Limit(2) {
      return None;
    }
    ok := AppendField(span, Le(|group|, 2), before, m);
    if !ok {
      return None;
    }
    ok := AppendField(span, group, before, m);
    if !ok {
      return None;
    }
    Finished(before, out[..], span.cur, m);
    size := Some(span.cur);
  }

  method EncodeRegisterOutcome(out: array<Byte>, code: Byte) returns (size: Option<nat>)
    modifies out
    ensures Wrote(old(out[..]), out[..], size, RegisterOutcome(code))
  {
    ghost var before, m := out[..], RegisterOutcome(code);
    var span := new OutSpan(out);
    Started(before, m);
    var ok := AppendField(span, [0x02], before, m);
    if !ok {
      return None;
    }
    ok := AppendField(span, [code], before, m);
    if !ok {
      return None;
    }
    Finished(before, out[..], span.cur, m);
    size := Some(span.cur);
  }

  method EncodeRegisterAck(out: array<Byte>) returns (size: Option<nat>)
    modifies out
    ensures Wrote(old(out[..]), out[..], size, RegisterAck)
  {
    ghost var before, m := out[..], RegisterAck;
    var span := new OutSpan(out);
    Started(before, m);
    var ok := AppendField(span, [0x03], before, m);
    if !ok {
      return None;
    }
    Finished(before, out[..], span.cur, m);
    size := Some(span.cur);
  }

  method EncodeHeartbeat(out: array<Byte>) returns (size: Option<nat>)
    modifies out
    ensures Wrote(old(out[..]), out[..], size, Heartbeat)
  {
    ghost var before, m := out[..], Heartbeat;
    var span := new OutSpan(out);
    Started(before, m);
    var ok := AppendField(span, [0x10], before, m);
    if !ok {
      return None;
    }
    Finished(before, out[..], span.cur, m);
    size := Some(span.cur);
  }

  method EncodeStatusReport(out: array<Byte>, mode: Byte, load: nat, temp: nat) returns (size: Option<nat>)
    requires load < Limit(8) && temp < Limit(8)
    modifies out
    ensures Wrote(old(out[..]), out[..], size, StatusReport(mode, load, temp))
  {
    ghost var before, m := out[..], StatusReport(mode, load, temp);
    var span := new OutSpan(out);
    Started(before, m);
    var ok := AppendField(span, [0x11], before, m);
    if !ok {
      return None;
    }
    ok := AppendField(span, [mode], before, m);
    if !ok {
      return None;
    }
    ok := AppendField(span, Le(load, 8), before, m);
    if !ok {
      return None;
    }
    ok := AppendField(span, Le(temp, 8), before, m);
    if !ok {
      return None;
    }
    Finished(before, out[..], span.cur, m);
    size := Some(span.cur);
  }

  /** Everything but the payload, which the caller has already put behind. */
  method EncodeCommandRequestHeader(out: array<Byte>, id: nat, kind: Byte) returns (size: Option<nat>)
    requires id < Limit(8)
    modifies out
    ensures Wrote(old(out[..]), out[..], size, CommandRequest(id, kind, []))
  {
    ghost var before, m := out[..], CommandRequest(id, kind, []);
    var span := new OutSpan(out);
    Started(before, m);
    var ok := AppendField(span, [0x20], before, m);
    if !ok {
      return None;
    }
    ok := AppendField(span, Le(id, 8), before, m);
    if !ok {
      return None;
    }
    ok := AppendField(span, [kind], before, m);
    if !ok {
      return None;
    }
    Finished(before, out[..], span.cur, m);
    size := Some(span.cur);
  }

  method EncodeCommandAck(out: array<Byte>, id: nat) returns (size: Option<nat>)
    requires id < Limit(8)
    modifies out
    ensures Wrote(old(out[..]), out[..], size, CommandAck(id))
  {
    ghost var before, m := out[..], CommandAck(id);
    var span := new OutSpan(out);
    Started(before, m);
    var ok := AppendField(span, [0x21], before, m);
    if !ok {
      return None;
    }
    ok := AppendField(span, Le(id, 8), before, m);
    if !ok {
      return None;
    }
    Finished(before, out[..], span.cur, m);
    size := Some(span.cur);
  }

  method EncodeCommandOutcome(out: array<Byte>, id: nat, code: Byte) returns (size: Option<nat>)
    requires id < Limit(8)
    modifies out
    ensures Wrote(old(out[..]), out[..], size, CommandOutcome(id, code))
  {
    ghost var before, m := out[..], CommandOutcome(id, code);
    var span := new OutSpan(out);
    Started(before, m);
    var ok := AppendField(span, [0x22], before, m);
    if !ok {
      return None;
    }
    ok := AppendField(span, Le(id, 8), before, m);
    if !ok {
      return None;
    }
    ok := AppendField(span, [code], before, m);
    if !ok {
      return None;
    }
    Finished(before, out[..], span.cur, m);
    size := Some(span.cur);
  }

  /** What a decoder has not read yet. */
  class InSpan {
    var bytes: seq<Byte>

    constructor (bytes: seq<Byte>)
      ensures this.bytes == bytes
    {
      this.bytes := bytes;
    }

    method Extract(n: nat) returns (r: Option<seq<Byte>>)
      modifies this
      ensures r == if n <= |old(bytes)| then Some(old(bytes)[..n]) else None
      ensures bytes == if r.Some? then old(bytes)[n..] else old(bytes)
    {
      if |bytes| < n {
        return None;
      }
      r := Some(bytes[..n]);
      bytes := bytes[n..];
    }

    method ExtractLe(width: nat) returns (r: Option<nat>)
      modifies this
      ensures r == if width <= |old(bytes)| then Some(FromLe(old(bytes)[..width])) else None
      ensures bytes == if r.Some? then old(bytes)[width..] else old(bytes)
    {
      var raw := Extract(width);
      r := if raw.Some? then Some(FromLe(raw.value)) else None;
    }

    method ExtractByte() returns (r: Option<Byte>)
      modifies this
      ensures r == if old(bytes) == [] then None else Some(old(bytes)[0])
      ensures bytes == if r.Some? then old(bytes)[1..] else old(bytes)
    {
      var raw := Extract(1);
      r := if raw.Some? then Some(raw.value[0]) else None;
    }

    method ExtractString() returns (r: Option<seq<Byte>>)
      modifies this
      ensures r.Some? <==> |old(bytes)| >= 2 && |old(bytes)| >= 2 + FromLe(old(bytes)[..2])
      ensures r.Some? ==> r.value + bytes == old(bytes)[2..] && |r.value| == FromLe(old(bytes)[..2])
    {
      var length := ExtractLe(2);
      if length.None? {
        return None;
      }
      r := Extract(length.value);
    }
  }

  method DecodeRegisterRequest(body: seq<Byte>) returns (m: Option<Message>)
    ensures m == DecodedRegisterRequest(body)
  {
    var span := new InSpan(body);
    var uuid := span.Extract(16);
    if uuid.None? {
      return None;
    }
    assert |body| >= 18 ==> body[16..][..2] == body[16..18] && body[16..][2..] == body[18..];
    var group := span.ExtractString();
    if group.None? {
      return None;
    }
    assert |group.value + span.bytes| == |body[18..]|;
    if span.bytes != [] {
      return None;
    }
    assert group.value + [] == group.value;
    m := Some(RegisterRequest(uuid.value, group.value));
  }

  method DecodeStatusReport(body: seq<Byte>) returns (m: Option<Message>)
    ensures m == DecodedStatusReport(body)
  {
    var span := new InSpan(body);
    var mode := span.ExtractByte();
    if mode.None? {
      return None;
    }
    var load := span.ExtractLe(8);
    if load.None? {
      return None;
    }
    var temp := span.ExtractLe(8);
    if temp.None? || span.bytes != [] {
      return None;
    }
    assert body[1..][..8] == body[1..9];
    assert body[1..][8..] == body[9..];
    assert body[9..][..8] == body[9..];
    m := Some(StatusReport(mode.value, load.value, temp.value));
  }

  method DecodeCommandRequest(body: seq<Byte>) returns (m: Option<Message>)
    ensures m == if |body| < 9 then None else Some(CommandRequest(FromLe(body[..8]), body[8], body[9..]))
  {
    var span := new InSpan(body);
    var id := span.ExtractLe(8);
    if id.None? {
      return None;
    }
    var kind := span.ExtractByte();
    if kind.None? {
      return None;
    }
    assert body[8..][1..] == body[9..];
    m := Some(CommandRequest(id.value, kind.value, span.bytes));
  }

  method DecodeCommandOutcome(body: seq<Byte>) returns (m: Option<Message>)
    ensures m == if |body| == 9 then Some(CommandOutcome(FromLe(body[..8]), body[8])) else None
  {
    var span := new InSpan(body);
    var id := span.ExtractLe(8);
    if id.None? {
      return None;
    }
    var code := span.ExtractByte();
    if code.None? || span.bytes != [] {
      return None;
    }
    m := Some(CommandOutcome(id.value, code.value));
  }

  method DecodeCommandAck(body: seq<Byte>) returns (m: Option<Message>)
    ensures m == if |body| == 8 then Some(CommandAck(FromLe(body))) else None
  {
    var span := new InSpan(body);
    var id := span.ExtractLe(8);
    if id.None? || span.bytes != [] {
      return None;
    }
    assert body[..8] == body;
    m := Some(CommandAck(id.value));
  }

  method DecodeRegisterOutcome(body: seq<Byte>) returns (m: Option<Message>)
    ensures m == if |body| == 1 then Some(RegisterOutcome(body[0])) else None
  {
    var span := new InSpan(body);
    var code := span.ExtractByte();
    if code.None? || span.bytes != [] {
      return None;
    }
    m := Some(RegisterOutcome(code.value));
  }

  /** The decoder computes `Decoded`. */
  method DecodeMessage(input: seq<Byte>) returns (m: Option<Message>)
    ensures m == Decoded(input)
  {
    if input == [] {
      return None;
    }
    var body := input[1..];
    match input[0]
    case 0x01 => m := DecodeRegisterRequest(body);
    case 0x02 => m := DecodeRegisterOutcome(body);
    case 0x03 => m := if body == [] then Some(RegisterAck) else None;
    case 0x10 => m := if body == [] then Some(Heartbeat) else None;
    case 0x11 => m := DecodeStatusReport(body);
    case 0x20 => m := DecodeCommandRequest(body);
    case 0x21 => m := DecodeCommandAck(body);
    case 0x22 => m := DecodeCommandOutcome(body);
    case _ => m := None;
  }
}
