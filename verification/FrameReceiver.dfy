/** Receiving: bytes from a socket through the ring into messages. */
module FrameReceiver {
  import opened Basics
  import opened Memory
  import opened Remainders
  import opened CircularBuffers
  import opened LinearBuffers
  import opened FrameStream

  /** Decodes one frame from the ring into a cleared buffer. Reading what was seen to be there cannot fail. */
  method DecodeFrame(rx: CircularBuffer, out: LinearBuffer) returns (result: DecodeResult)
    requires rx.Valid() && out.Valid() && out.Contents() == [] && out.Headroom() == 0
    requires out.storage.Length == MAX_FRAME && out.storage != rx.storage
    modifies rx`readSeq, out, out.storage
    ensures rx.Valid() && out.Valid() && result != ReadError
    ensures match DecodeOne(old(rx.Contents()))
            case Frame(payload, rest) => result == Ok && out.Contents() == payload && rx.Contents() == rest
            case NoFrame(reason) => result == reason && rx.Contents() == old(rx.Contents()) && out.Contents() == []
  {
    ghost var s := rx.Contents();
    if rx.Size() < HEADER_SIZE {
      return Incomplete;
    }
    var header := new Byte[HEADER_SIZE];
    var _ := rx.Peek(header, 0, HEADER_SIZE);
    assert header[..] == s[..HEADER_SIZE];
    assert header[0] == s[0] && header[1] == s[1] && header[2] == s[2] && header[3] == s[3];
    if header[0] != 0xDD || header[1] != 0xC5 {
      return BadMagic;
    }
    var length := 256 * (header[2] as nat) + header[3] as nat;
    if length > MAX_PAYLOAD {
      return TooLong;
    }
    if rx.Size() < HEADER_SIZE + length {
      return Incomplete;
    }
    result := ExtractPayload(rx, out, length);
  }

  /** Moves a payload that is there, behind its header, into a cleared buffer. */
  method ExtractPayload(rx: CircularBuffer, out: LinearBuffer, length: nat) returns (result: DecodeResult)
    requires rx.Valid() && out.Valid() && out.Contents() == [] && out.Headroom() == 0
    requires length <= out.storage.Length && out.storage != rx.storage && HEADER_SIZE + length <= rx.Size()
    modifies rx`readSeq, out, out.storage
    ensures rx.Valid() && out.Valid() && result == Ok
    ensures out.Contents() == old(rx.Contents())[HEADER_SIZE..HEADER_SIZE + length]
    ensures rx.Contents() == old(rx.Contents())[HEADER_SIZE + length..]
  {
    ghost var s := rx.Contents();
    var ok := rx.Consume(HEADER_SIZE);
    if !ok {
      return ReadError;
    }
    assert s[HEADER_SIZE..][..length] == s[HEADER_SIZE..HEADER_SIZE + length];
    assert s[HEADER_SIZE..][length..] == s[HEADER_SIZE + length..];
    if length > 0 {
      ok := rx.Read(out.storage, out.tailOffset, length);
      if !ok {
        return ReadError;
      }
      ok := out.Commit(length);
      if !ok {
        return ReadError;
      }
    }
    result := Ok;
  }

  /** After these payloads, decoding what is left completes the whole outcome. */
  ghost predicate Completes(whole: Outcome, payloads: seq<seq<Byte>>, s: seq<Byte>, keeps: nat -> bool) {
    var o := Stream(s, keeps, |payloads|);
    whole == Outcome(payloads + o.payloads, o.ending, o.rest)
  }

  lemma OneMore(whole: Outcome, payloads: seq<seq<Byte>>, s: seq<Byte>, keeps: nat -> bool)
    requires Completes(whole, payloads, s, keeps)
    ensures match DecodeOne(s)
            case NoFrame(reason) =>
              whole == Outcome(payloads, if reason == Incomplete then Waiting else Rejected(reason), s)
            case Frame(payload, rest) =>
              if keeps(|payloads|) then Completes(whole, payloads + [payload], rest, keeps)
              else whole == Outcome(payloads + [payload], Gone, rest)
  {
    match DecodeOne(s)
    case NoFrame(_) => assert payloads + [] == payloads;
    case Frame(payload, rest) =>
      var o := Stream(rest, keeps, |payloads| + 1);
      assert payloads + ([payload] + o.payloads) == payloads + [payload] + o.payloads;
  }

  /** Takes every complete frame out of the ring, as long as the connection is active. What was delivered before and
      what the ring holds make up `whole`, and that is what has been delivered in the end. */
  method DispatchFrames(rx: CircularBuffer, keeps: nat -> bool, delivered: seq<seq<Byte>>, ghost whole: Outcome)
    returns (payloads: seq<seq<Byte>>, ending: Ending)
    requires rx.Valid() && Completes(whole, delivered, rx.Contents(), keeps)
    modifies rx`readSeq
    ensures rx.Valid() && Outcome(payloads, ending, rx.Contents()) == whole
  {
    payloads := delivered;
    while true
      invariant rx.Valid() && Completes(whole, payloads, rx.Contents(), keeps)
      decreases rx.Size()
    {
      OneMore(whole, payloads, rx.Contents(), keeps);
      var buffer := new LinearBuffer(MAX_FRAME);
      var result := DecodeFrame(rx, buffer);
      if result == Incomplete {
        return payloads, Waiting;
      }
      if result != Ok {
        return payloads, Rejected(result);
      }
      var active := keeps(|payloads|);
      payloads := payloads + [buffer.storage[buffer.dataOffset..buffer.tailOffset]];
      if !active {
        return payloads, Gone;
      }
    }
  }

  // ---- receiving ----

  /** How reading the socket stopped. */
  datatype ReceiveCode = WouldBlock | Full | PeerClosed | ReceiveError

  /** Reads what the socket holds until the ring is full or the socket has no more. `grab(k)` is how many bytes the
      k-th read returns, of those that are there and fit. */
  method ReceiveInto(rx: CircularBuffer, incoming: seq<Byte>, grab: nat -> nat, last: ReceiveCode)
    returns (code: ReceiveCode, taken: nat)
    requires rx.Valid() && last != Full
    modifies rx`writeSeq, rx.storage
    ensures rx.Valid() && taken <= |incoming| && rx.Contents() == old(rx.Contents()) + incoming[..taken]
    ensures code == Full <==> rx.Writable() == 0
    ensures code != Full ==> code == last && taken == |incoming|
    ensures old(rx.Writable()) > 0 && incoming != [] ==> taken > 0
  {
    taken := 0;
    var calls := 0;
    while true
      invariant rx.Valid() && taken <= |incoming| && rx.Contents() == old(rx.Contents()) + incoming[..taken]
      invariant calls > 0 ==> taken > 0
      decreases |incoming| - taken
    {
      var room := rx.ContiguousWritable();
      if room == 0 {
        NoRoom(rx);
        return Full, taken;
      }
      if taken == |incoming| {
        return last, taken;
      }
      var most := if room < |incoming| - taken then room else |incoming| - taken;
      var n := if 0 < grab(calls) <= most then grab(calls) else most;
      rx.Deposit(incoming[taken..taken + n]);
      assert incoming[..taken] + incoming[taken..taken + n] == incoming[..taken + n];
      taken, calls := taken + n, calls + 1;
    }
  }

  lemma NoRoom(rx: CircularBuffer)
    requires rx.Valid()
    ensures rx.ContiguousWritable() == 0 <==> rx.Writable() == 0
  {
  }

  /** What was delivered and what the ring holds make up what decoding all bytes so far gives. */
  ghost predicate InStep(got: seq<Byte>, delivered: seq<seq<Byte>>, s: seq<Byte>, keeps: nat -> bool) {
    Completes(Stream(got, keeps, 0), delivered, s, keeps)
  }

  /** An outcome after which more bytes came. */
  ghost predicate Extends(o: Outcome, more: seq<Byte>, keeps: nat -> bool, n: nat, longer: Outcome) {
    longer == if o.ending == Waiting then Resumed(o, more, keeps, n) else Outcome(o.payloads, o.ending, o.rest + more)
  }

  lemma BothExtend(o: Outcome, longer: Outcome, delivered: seq<seq<Byte>>, chunk: seq<Byte>, keeps: nat -> bool)
    requires Extends(o, chunk, keeps, |delivered|, longer)
    ensures Extends(Outcome(delivered + o.payloads, o.ending, o.rest), chunk, keeps, 0,
                    Outcome(delivered + longer.payloads, longer.ending, longer.rest))
  {
    if o.ending == Waiting {
      var p := Stream(o.rest + chunk, keeps, |delivered| + |o.payloads|);
      assert delivered + o.payloads + p.payloads == delivered + (o.payloads + p.payloads);
    }
  }

  /** More bytes behind what waits keep the two in step. */
  lemma ReadInStep(got: seq<Byte>, chunk: seq<Byte>, delivered: seq<seq<Byte>>, s: seq<Byte>, keeps: nat -> bool)
    requires InStep(got, delivered, s, keeps)
    ensures InStep(got + chunk, delivered, s + chunk, keeps)
  {
    StreamSplits(got, chunk, keeps, 0);
    StreamSplits(s, chunk, keeps, |delivered|);
    BothExtend(Stream(s, keeps, |delivered|), Stream(s + chunk, keeps, |delivered|), delivered, chunk, keeps);
  }

  lemma WaitingInStep(got: seq<Byte>, payloads: seq<seq<Byte>>, s: seq<Byte>, keeps: nat -> bool)
    requires Stream(got, keeps, 0) == Outcome(payloads, Waiting, s)
    ensures InStep(got, payloads, s, keeps) && |s| < MAX_FRAME
  {
    WaitingIsShort(got, keeps, 0);
    assert payloads + [] == payloads;
  }

  lemma StartInStep(start: seq<Byte>, keeps: nat -> bool)
    ensures InStep(start, [], start, keeps)
  {
    var o := Stream(start, keeps, 0);
    assert [] + o.payloads == o.payloads;
  }

  /** One turn: read, then dispatch what is complete. */
  method Turn(rx: CircularBuffer, incoming: seq<Byte>, before: nat, grab: nat -> nat, last: ReceiveCode,
              keeps: nat -> bool, delivered: seq<seq<Byte>>, ghost start: seq<Byte>)
    returns (payloads: seq<seq<Byte>>, ending: Ending, code: ReceiveCode, taken: nat)
    requires rx.Valid() && rx.Capacity() >= MAX_FRAME && last != Full && before <= |incoming|
    requires InStep(start + incoming[..before], delivered, rx.Contents(), keeps)
    modifies rx, rx.storage
    ensures rx.Valid() && before <= taken <= |incoming|
    ensures Stream(start + incoming[..taken], keeps, 0) == Outcome(payloads, ending, rx.Contents())
    ensures ending == Waiting ==> InStep(start + incoming[..taken], payloads, rx.Contents(), keeps) && rx.Writable() > 0
    ensures code != Full ==> code == last && taken == |incoming|
    ensures old(rx.Writable()) > 0 ==> taken > before || code != Full
  {
    ghost var s, got := rx.Contents(), start + incoming[..before];
    var more;
    code, more := ReceiveInto(rx, incoming[before..], grab, last);
    taken := before + more;
    ReadInStep(got, incoming[before..][..more], delivered, s, keeps);
    assert got + incoming[before..][..more] == start + incoming[..taken];
    payloads, ending := DispatchFrames(rx, keeps, delivered, Stream(start + incoming[..taken], keeps, 0));
    if ending == Waiting {
      WaitingInStep(start + incoming[..taken], payloads, rx.Contents(), keeps);
    }
  }

  /** Reads and dispatches in turn until the socket has no more, the peer's bytes are rejected or the connection is
      gone. With room for the longest frame each turn after a full ring reads on. */
  method ReceiveAll(rx: CircularBuffer, incoming: seq<Byte>, grab: nat -> nat, last: ReceiveCode, keeps: nat -> bool)
    returns (payloads: seq<seq<Byte>>, ending: Ending, taken: nat)
    requires rx.Valid() && rx.Capacity() >= MAX_FRAME && last != Full
    modifies rx, rx.storage
    ensures rx.Valid() && taken <= |incoming|
    ensures Stream(old(rx.Contents()) + incoming[..taken], keeps, 0) == Outcome(payloads, ending, rx.Contents())
    ensures ending == Waiting ==> taken == |incoming| && rx.Writable() > 0
  {
    payloads, ending, taken := [], Waiting, 0;
    ghost var start, first := rx.Contents(), true;
    StartInStep(start, keeps);
    assert start + incoming[..0] == start;
    while true
      invariant rx.Valid() && taken <= |incoming|
      invariant InStep(start + incoming[..taken], payloads, rx.Contents(), keeps) && (!first ==> rx.Writable() > 0)
      decreases |incoming| - taken, first
    {
      var code;
      payloads, ending, code, taken := Turn(rx, incoming, taken, grab, last, keeps, payloads, start);
      first := false;
      if ending != Waiting || code != Full {
        return;
      }
    }
  }

  /** One readable event: however the socket hands out its bytes, what is delivered is what the stream holds. */
  method HandleReadable(rx: CircularBuffer, incoming: seq<Byte>, grab: nat -> nat, last: ReceiveCode, keeps: nat -> bool)
    returns (payloads: seq<seq<Byte>>, ending: Ending, taken: nat)
    requires rx.Valid() && rx.Capacity() >= MAX_FRAME && last != Full
    modifies rx, rx.storage
    ensures rx.Valid() && taken <= |incoming|
    ensures Same(Outcome(payloads, ending, rx.Contents()), Stream(old(rx.Contents()) + incoming, keeps, 0))
    ensures ending == Waiting ==> taken == |incoming| && rx.Writable() > 0
  {
    ghost var start := rx.Contents();
    payloads, ending, taken := ReceiveAll(rx, incoming, grab, last, keeps);
    EndOfReceive(start, incoming, taken, Outcome(payloads, ending, rx.Contents()), keeps);
  }

  lemma EndOfReceive(start: seq<Byte>, incoming: seq<Byte>, taken: nat, o: Outcome, keeps: nat -> bool)
    requires taken <= |incoming| && o == Stream(start + incoming[..taken], keeps, 0)
    requires o.ending == Waiting ==> taken == |incoming|
    ensures Same(o, Stream(start + incoming, keeps, 0))
  {
    StreamSplits(start + incoming[..taken], incoming[taken..], keeps, 0);
    assert start + incoming == start + incoming[..taken] + incoming[taken..];
    assert taken == |incoming| ==> incoming[..taken] == incoming;
  }
}
