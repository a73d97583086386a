/** From message to message: encoders, frames, arbitrary chunks, decoders. */
module WirePath {
  import opened Basics
  import opened FrameStream
  import M = Messages
  import CommandSenders

  function EncodedAll(ms: seq<M.Message>): (ps: seq<seq<Byte>>)
    ensures |ps| == |ms| && forall i :: 0 <= i < |ms| ==> ps[i] == M.Encoded(ms[i])
  {
    seq(|ms|, i requires 0 <= i < |ms| => M.Encoded(ms[i]))
  }

  function DecodedAll(ps: seq<seq<Byte>>): seq<Option<M.Message>> {
    seq(|ps|, i requires 0 <= i < |ps| => M.Decoded(ps[i]))
  }

  /** Messages a sender can frame. */
  ghost predicate Sendable(ms: seq<M.Message>) {
    forall m :: m in ms ==> M.Encodable(m) && |M.Encoded(m)| <= MAX_PAYLOAD
  }

  lemma AllFit(ms: seq<M.Message>)
    requires Sendable(ms)
    ensures forall p :: p in EncodedAll(ms) ==> |p| <= MAX_PAYLOAD
  {
    forall p | p in EncodedAll(ms) ensures |p| <= MAX_PAYLOAD {
      var i :| 0 <= i < |ms| && EncodedAll(ms)[i] == p;
      assert ms[i] in ms;
    }
  }

  /** What goes over the connection for these messages. */
  ghost function SentBytes(ms: seq<M.Message>): seq<Byte>
    requires Sendable(ms)
  {
    AllFit(ms);
    Frames(EncodedAll(ms))
  }

  /** Of a stream of frames cut off anywhere, the receiver delivers the first payloads and waits for more. */
  lemma {:induction false} CutStreamDeliversPrefix(payloads: seq<seq<Byte>>, s: seq<Byte>, keeps: nat -> bool, n: nat)
    requires forall p :: p in payloads ==> |p| <= MAX_PAYLOAD
    requires s <= Frames(payloads) && forall k :: keeps(k)
    ensures var o := Stream(s, keeps, n); o.payloads <= payloads && o.ending == Waiting
    decreases |payloads|
  {
    if payloads != [] {
      var first := Framed(payloads[0]);
      assert payloads[0] in payloads;
      if |s| >= |first| {
        var rest := s[|first|..];
        PrefixOfBoth(s, first, Frames(payloads[1..]));
        DecodeInvertsEncode(s, payloads[0], rest);
        CutStreamDeliversPrefix(payloads[1..], rest, keeps, n + 1);
        assert [payloads[0]] + payloads[1..] == payloads;
      } else {
        PrefixOfBoth(s, first, Frames(payloads[1..]));
        CutFrameWaits(payloads[0], s);
      }
    }
  }

  lemma PrefixOfBoth(s: seq<Byte>, a: seq<Byte>, b: seq<Byte>)
    requires s <= a + b
    ensures if |s| >= |a| then s == a + s[|a|..] && s[|a|..] <= b else s < a
  {
    assert s == (a + b)[..|s|];
    if |s| >= |a| {
      assert (a + b)[..|s|] == a + b[..|s| - |a|];
    } else {
      assert (a + b)[..|s|] == a[..|s|];
    }
  }

  lemma CutFrameWaits(payload: seq<Byte>, s: seq<Byte>)
    requires |payload| <= MAX_PAYLOAD && s < Framed(payload)
    ensures DecodeOne(s) == NoFrame(Incomplete)
  {
    if |s| >= HEADER_SIZE {
      assert s[0] == 0xDD && s[1] == 0xC5 && s[2] == |payload| / 256 && s[3] == |payload| % 256;
    }
  }

  /** Whatever messages are sent, and however their bytes are cut into chunks, the receiver decodes exactly them, in
      order; of a stream that broke off it decodes the first ones. */
  lemma MessagesArrive(ms: seq<M.Message>, chunks: seq<seq<Byte>>, keeps: nat -> bool)
    requires Sendable(ms) && forall k :: keeps(k)
    requires Joined(chunks) <= SentBytes(ms)
    ensures var got := DecodedAll(Fed(chunks, keeps).payloads);
            && |got| <= |ms| && (forall i :: 0 <= i < |got| ==> got[i] == Some(ms[i]))
            && (Joined(chunks) == SentBytes(ms) ==> |got| == |ms|)
            && Fed(chunks, keeps).ending == Waiting
  {
    AllFit(ms);
    var payloads := EncodedAll(ms);
    ChunkingDoesNotMatter(chunks, keeps);
    CutStreamDeliversPrefix(payloads, Joined(chunks), keeps, 0);
    if Joined(chunks) == Frames(payloads) {
      assert Frames(payloads) + [] == Frames(payloads);
      FramesDeliverPayloads(payloads, [], keeps, 0);
    }
    var got := Fed(chunks, keeps).payloads;
    forall i | 0 <= i < |got| ensures M.Decoded(got[i]) == Some(ms[i]) {
      assert got[i] == payloads[i];
      assert ms[i] in ms;
      M.DecodeInvertsEncode(ms[i]);
    }
  }

  /** The bytes of a command, cut into any chunks, reach the agent as that command with its id. */
  lemma CommandArrives(id: nat, command: Command, chunks: seq<seq<Byte>>, keeps: nat -> bool)
    requires id < M.Limit(8) && forall k :: keeps(k)
    requires |M.Encoded(CommandSenders.MessageFor(id, command))| <= MAX_PAYLOAD
    requires Joined(chunks) == Framed(M.Encoded(CommandSenders.MessageFor(id, command)))
    ensures DecodedAll(Fed(chunks, keeps).payloads) == [Some(M.CommandRequest(id, SET_MODE, [command.mode]))]
  {
    var m := CommandSenders.MessageFor(id, command);
    CommandSenders.RequestSize(id, command);
    AllFit([m]);
    assert EncodedAll([m]) == [M.Encoded(m)];
    assert Frames([M.Encoded(m)]) == Framed(M.Encoded(m));
    MessagesArrive([m], chunks, keeps);
  }

  /** The fifteen bytes of a command: mark, length of what follows with the high byte first, kind of message, the
      id with the low byte first, kind of command, mode. */
  lemma CommandBytes(id: nat, command: Command)
    requires id < M.Limit(8) && |M.Encoded(CommandSenders.MessageFor(id, command))| <= MAX_PAYLOAD
    ensures var b := Framed(M.Encoded(CommandSenders.MessageFor(id, command)));
            && |b| == 15 && b[..5] == [0xDD, 0xC5, 0, 11, 0x20] && b[13..] == [1, command.mode]
            && forall i: nat :: i < 8 ==> M.Limit(i) >= 1 && b[5 + i] == id / M.Limit(i) % 256
  {
    CommandSenders.RequestSize(id, command);
    var b := Framed(M.Encoded(CommandSenders.MessageFor(id, command)));
    forall i: nat | i < 8 ensures M.Limit(i) >= 1 && b[5 + i] == id / M.Limit(i) % 256 {
      M.LittleEndian(id, 8, i);
      assert b[5 + i] == M.Le(id, 8)[i];
    }
  }
}
