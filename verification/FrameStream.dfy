/** Frames in a stream of bytes, as functions of the whole stream. */
module FrameStream {
  import opened Basics
  import opened Remainders

  const HEADER_SIZE: nat := 4
  const MAX_PAYLOAD: nat := 1024
  const MAX_FRAME: nat := HEADER_SIZE + MAX_PAYLOAD
  const MAX_RX: nat := 0x10_0000

  // ---- ring capacity ----

  /** The first of p, 2p, 4p, ... that is at least n. */
  function DoubledTo(p: nat, n: nat): nat
    requires p > 0
    decreases n - p
  {
    if p >= n then p else DoubledTo(2 * p, n)
  }

  function FitRxCapacity(requested: nat): nat {
    DoubledTo(1, if requested < MAX_FRAME then MAX_FRAME else requested)
  }

  lemma {:induction false} DoubledToFits(p: nat, n: nat)
    requires PowerOfTwo(p)
    ensures var c := DoubledTo(p, n);
            PowerOfTwo(c) && c >= n && c >= p && (c > p ==> c < 2 * n)
    decreases n - p
  {
    if p < n {
      DoubledToFits(2 * p, n);
    }
  }

  lemma {:induction false} PowersAreDoubled(p: nat, n: nat)
    requires PowerOfTwo(p) && PowerOfTwo(n) && p <= n
    ensures DoubledTo(p, n) == n
    decreases n - p
  {
    if p < n {
      var k := PowersDivide(p, n);
      ProductsOrder(p, k, 1);
      ProductsOrder(p, 2, k);
      PowersAreDoubled(2 * p, n);
    }
  }

  /** The capacity is a power of two that holds what was asked for and the longest frame, with less than twice the
      room needed; a capacity that fits is kept. */
  lemma CapacityFits(requested: nat)
    ensures var c := FitRxCapacity(requested);
            && PowerOfTwo(c) && c >= requested && c >= MAX_FRAME
            && (c < 2 * requested || c < 2 * MAX_FRAME)
            && (PowerOfTwo(requested) && requested >= MAX_FRAME ==> c == requested)
  {
    DoubledToFits(1, if requested < MAX_FRAME then MAX_FRAME else requested);
    if PowerOfTwo(requested) && requested >= MAX_FRAME {
      PowersAreDoubled(1, requested);
    }
  }

  // ---- one frame ----

  /** What decoding at the front of a ring says. */
  datatype DecodeResult = Ok | Incomplete | BadMagic | TooLong | ReadError

  datatype Decoded =
    | Frame(payload: seq<Byte>, rest: seq<Byte>)
    | NoFrame(reason: DecodeResult)

  function Header(length: nat): seq<Byte>
    requires length < 0x1_0000
  {
    [0xDD, 0xC5, length / 256, length % 256]
  }

  function Framed(payload: seq<Byte>): seq<Byte>
    requires |payload| <= MAX_PAYLOAD
  {
    Header(|payload|) + payload
  }

  function DecodeOne(s: seq<Byte>): Decoded {
    if |s| < HEADER_SIZE then NoFrame(Incomplete)
    else if s[0] != 0xDD || s[1] != 0xC5 then NoFrame(BadMagic)
    else
      var length := 256 * (s[2] as nat) + s[3] as nat;
      if length > MAX_PAYLOAD then NoFrame(TooLong)
      else if |s| < HEADER_SIZE + length then NoFrame(Incomplete)
      else Frame(s[HEADER_SIZE..HEADER_SIZE + length], s[HEADER_SIZE + length..])
  }

  /** A frame is decoded exactly from its encoding, whatever follows. */
  lemma DecodeInvertsEncode(s: seq<Byte>, payload: seq<Byte>, rest: seq<Byte>)
    ensures DecodeOne(s) == Frame(payload, rest) <==> |payload| <= MAX_PAYLOAD && s == Framed(payload) + rest
  {
    if DecodeOne(s) == Frame(payload, rest) {
      var length := 256 * (s[2] as nat) + s[3] as nat;
      assert s[..HEADER_SIZE] == Header(length);
      assert s == s[..HEADER_SIZE] + payload + rest;
    }
    if |payload| <= MAX_PAYLOAD && s == Framed(payload) + rest {
      assert s[..HEADER_SIZE] == Header(|payload|);
      assert s[2] == |payload| / 256 && s[3] == |payload| % 256;
      assert s[HEADER_SIZE..HEADER_SIZE + |payload|] == payload && s[HEADER_SIZE + |payload|..] == rest;
    }
  }

  /** More bytes never change what has been decided. */
  lemma DecidedForGood(s: seq<Byte>, more: seq<Byte>)
    ensures match DecodeOne(s)
            case Frame(payload, rest) => DecodeOne(s + more) == Frame(payload, rest + more)
            case NoFrame(reason) => reason != Incomplete ==> DecodeOne(s + more) == NoFrame(reason)
  {
    if DecodeOne(s).Frame? {
      var n := HEADER_SIZE + |DecodeOne(s).payload|;
      assert (s + more)[HEADER_SIZE..n] == s[HEADER_SIZE..n] && (s + more)[n..] == s[n..] + more;
    }
  }

  // ---- the stream ----

  /** How a run of decoding ended: for want of bytes, because the connection went away in a callback, or rejecting
      what it saw. */
  datatype Ending = Waiting | Gone | Rejected(reason: DecodeResult)

  datatype Outcome = Outcome(payloads: seq<seq<Byte>>, ending: Ending, rest: seq<Byte>)

  /** Decodes frame after frame. `keeps(n)` says whether the connection is still active after the callback for the
      n-th frame. */
  function Stream(s: seq<Byte>, keeps: nat -> bool, n: nat): Outcome
    decreases |s|
  {
    match DecodeOne(s)
    case NoFrame(reason) => Outcome([], if reason == Incomplete then Waiting else Rejected(reason), s)
    case Frame(payload, rest) =>
      if !keeps(n) then Outcome([payload], Gone, rest)
      else
        var o := Stream(rest, keeps, n + 1);
        Outcome([payload] + o.payloads, o.ending, o.rest)
  }

  /** What is left waiting is less than one frame, so it does not fill a ring that holds the longest frame. */
  lemma {:induction false} WaitingIsShort(s: seq<Byte>, keeps: nat -> bool, n: nat)
    ensures var o := Stream(s, keeps, n);
            && |o.rest| <= |s|
            && (o.ending == Waiting ==> |o.rest| < MAX_FRAME && DecodeOne(o.rest) == NoFrame(Incomplete))
            && (o.ending.Rejected? ==>
                  && |o.rest| >= HEADER_SIZE
                  && o.ending.reason == if o.rest[..2] == [0xDD, 0xC5] then TooLong else BadMagic)
    decreases |s|
  {
    match DecodeOne(s)
    case NoFrame(_) =>
    case Frame(_, rest) =>
      if keeps(n) {
        WaitingIsShort(rest, keeps, n + 1);
      }
  }

  /** Goes on with more bytes where a run stopped waiting. After any other ending no more bytes are looked at. */
  function Resumed(o: Outcome, more: seq<Byte>, keeps: nat -> bool, n: nat): Outcome {
    if o.ending != Waiting then o
    else
      var p := Stream(o.rest + more, keeps, n + |o.payloads|);
      Outcome(o.payloads + p.payloads, p.ending, p.rest)
  }

  /** The same payloads, ended the same way; the same bytes waiting if it waits. */
  predicate Same(a: Outcome, b: Outcome) {
    a.payloads == b.payloads && a.ending == b.ending && (a.ending == Waiting ==> a.rest == b.rest)
  }

  lemma OneFrameThenResumed(payload: seq<Byte>, o: Outcome, more: seq<Byte>, keeps: nat -> bool, n: nat)
    ensures Resumed(Outcome([payload] + o.payloads, o.ending, o.rest), more, keeps, n) ==
            (var p := Resumed(o, more, keeps, n + 1); Outcome([payload] + p.payloads, p.ending, p.rest))
  {
    if o.ending == Waiting {
      var p := Stream(o.rest + more, keeps, n + 1 + |o.payloads|);
      assert n + |[payload] + o.payloads| == n + 1 + |o.payloads|;
      assert [payload] + o.payloads + p.payloads == [payload] + (o.payloads + p.payloads);
    }
  }

  /** Decoding the front of a stream and then going on with the back is decoding the stream. */
  lemma {:induction false} StreamSplits(a: seq<Byte>, b: seq<Byte>, keeps: nat -> bool, n: nat)
    ensures Same(Resumed(Stream(a, keeps, n), b, keeps, n), Stream(a + b, keeps, n))
    ensures var o := Stream(a, keeps, n);
            Stream(a + b, keeps, n) ==
            if o.ending == Waiting then Resumed(o, b, keeps, n) else Outcome(o.payloads, o.ending, o.rest + b)
    decreases |a|
  {
    DecidedForGood(a, b);
    match DecodeOne(a)
    case NoFrame(reason) =>
      if reason == Incomplete {
        assert [] + Stream(a + b, keeps, n).payloads == Stream(a + b, keeps, n).payloads;
      }
    case Frame(payload, rest) =>
      if keeps(n) {
        StreamSplits(rest, b, keeps, n + 1);
        OneFrameThenResumed(payload, Stream(rest, keeps, n + 1), b, keeps, n);
      }
  }

  function Joined(chunks: seq<seq<Byte>>): seq<Byte> {
    if chunks == [] then [] else Joined(chunks[..|chunks| - 1]) + chunks[|chunks| - 1]
  }

  /** Decoding chunk by chunk as they arrive. */
  function Fed(chunks: seq<seq<Byte>>, keeps: nat -> bool): Outcome {
    if chunks == [] then Outcome([], Waiting, [])
    else Resumed(Fed(chunks[..|chunks| - 1], keeps), chunks[|chunks| - 1], keeps, 0)
  }

  /** However a stream is cut into chunks, the same payloads are delivered and it ends the same way. */
  lemma {:induction false} ChunkingDoesNotMatter(chunks: seq<seq<Byte>>, keeps: nat -> bool)
    ensures Same(Fed(chunks, keeps), Stream(Joined(chunks), keeps, 0))
  {
    if chunks != [] {
      var front, last := chunks[..|chunks| - 1], chunks[|chunks| - 1];
      ChunkingDoesNotMatter(front, keeps);
      StreamSplits(Joined(front), last, keeps, 0);
    }
  }

  function Frames(payloads: seq<seq<Byte>>): seq<Byte>
    requires forall p :: p in payloads ==> |p| <= MAX_PAYLOAD
  {
    if payloads == [] then [] else Framed(payloads[0]) + Frames(payloads[1..])
  }

  /** From frames put one behind the other, and the beginning of another, exactly their payloads are delivered. */
  lemma {:induction false} FramesDeliverPayloads(payloads: seq<seq<Byte>>, tail: seq<Byte>, keeps: nat -> bool, n: nat)
    requires forall p :: p in payloads ==> |p| <= MAX_PAYLOAD
    requires DecodeOne(tail) == NoFrame(Incomplete) && forall k :: keeps(k)
    ensures Stream(Frames(payloads) + tail, keeps, n) == Outcome(payloads, Waiting, tail)
  {
    if payloads == [] {
      assert Frames(payloads) + tail == tail;
    } else {
      var rest := Frames(payloads[1..]) + tail;
      FramesDeliverPayloads(payloads[1..], tail, keeps, n + 1);
      assert Frames(payloads) + tail == Framed(payloads[0]) + rest;
      assert payloads[0] in payloads;
      DecodeInvertsEncode(Frames(payloads) + tail, payloads[0], rest);
      assert [payloads[0]] + payloads[1..] == payloads;
    }
  }

  /** Whatever the stream: what was delivered are the payloads of whole frames from its start, one behind the other, and
      nothing between them is skipped. */
  lemma {:induction false} DeliveredWereFramed(s: seq<Byte>, keeps: nat -> bool, n: nat)
    ensures var o := Stream(s, keeps, n);
            (forall p :: p in o.payloads ==> |p| <= MAX_PAYLOAD) && s == Frames(o.payloads) + o.rest
    decreases |s|
  {
    match DecodeOne(s)
    case NoFrame(_) => assert s == Frames([]) + s;
    case Frame(payload, rest) =>
      DecodeInvertsEncode(s, payload, rest);
      var after := if keeps(n) then Stream(rest, keeps, n + 1) else Outcome([], Gone, rest);
      if keeps(n) {
        DeliveredWereFramed(rest, keeps, n + 1);
      } else {
        assert rest == Frames([]) + rest;
      }
      OneFrameInFront(payload, after.payloads, after.rest);
  }

  lemma OneFrameInFront(payload: seq<Byte>, payloads: seq<seq<Byte>>, rest: seq<Byte>)
    requires |payload| <= MAX_PAYLOAD && forall p :: p in payloads ==> |p| <= MAX_PAYLOAD
    ensures var all := [payload] + payloads;
            && (forall p :: p in all ==> |p| <= MAX_PAYLOAD)
            && Frames(all) + rest == Framed(payload) + (Frames(payloads) + rest)
  {
    assert ([payload] + payloads)[1..] == payloads;
  }
}
