/** The messages and their bytes. Doubles are their 64 bits; codes outside the vocabulary are kept as they came. */
module Messages {
  import opened Basics
  import opened Memory
  import opened Remainders

  // ---- little-endian numbers ----

  function Limit(n: nat): (l: nat)
    ensures l > 0
  {
    if n == 0 then 1 else 256 * Limit(n - 1)
  }

  function Le(v: nat, n: nat): (s: seq<Byte>)
    ensures |s| == n
  {
    if n == 0 then [] else [v % 256] + Le(v / 256, n - 1)
  }

  function FromLe(s: seq<Byte>): nat {
    if s == [] then 0 else s[0] as nat + 256 * FromLe(s[1..])
  }

  lemma {:induction false} LeReadsBack(v: nat, n: nat)
    requires v < Limit(n)
    ensures FromLe(Le(v, n)) == v
  {
    if n > 0 {
      LeReadsBack(v / 256, n - 1);
      assert Le(v, n)[1..] == Le(v / 256, n - 1);
    }
  }

  lemma {:induction false} LeRewrites(s: seq<Byte>)
    ensures FromLe(s) < Limit(|s|) && Le(FromLe(s), |s|) == s
  {
    if s != [] {
      LeRewrites(s[1..]);
      assert FromLe(s) / 256 == FromLe(s[1..]) && FromLe(s) % 256 == s[0];
      assert s == [s[0]] + s[1..];
    }
  }

  lemma QuotientTwice(v: nat, a: nat, b: nat)
    requires a > 0 && b > 0
    ensures a * b > 0 && v / a / b == v / (a * b)
  {
    var q, r := v / a, v % a;
    assert v == a * (b * (q / b) + q % b) + r;
    assert v == (q / b) * (a * b) + (a * (q % b) + r);
    ProductsOrder(a, q % b + 1, b);
    assert a * (q % b) + r < a * (q % b + 1);
    DivModUnique(v, q / b, a * (q % b) + r, a * b);
  }

  /** The least significant byte comes first. */
  lemma {:induction false} LittleEndian(v: nat, n: nat, i: nat)
    requires i < n
    ensures Le(v, n)[i] == v / Limit(i) % 256
  {
    if i > 0 {
      LittleEndian(v / 256, n - 1, i - 1);
      QuotientTwice(v, 256, Limit(i - 1));
    }
  }

  // ---- messages ----

  datatype Message =
    | RegisterRequest(uuid: seq<Byte>, group: seq<Byte>)
    | RegisterOutcome(code: Byte)
    | RegisterAck
    | Heartbeat
    | StatusReport(mode: Byte, load: nat, temp: nat)
    | CommandRequest(id: nat, kind: Byte, payload: seq<Byte>)
    | CommandAck(id: nat)
    | CommandOutcome(id: nat, code: Byte)

  /** Fields are as wide as their types; a group name has a 16-bit length. */
  predicate Encodable(m: Message) {
    match m
    case RegisterRequest(uuid, group) => |uuid| == 16 && |group| < Limit(2)
    case StatusReport(_, load, temp) => load < Limit(8) && temp < Limit(8)
    case CommandRequest(id, _, _) => id < Limit(8)
    case CommandAck(id) => id < Limit(8)
    case CommandOutcome(id, _) => id < Limit(8)
    case _ => true
  }

  function Encoded(m: Message): seq<Byte> {
    match m
    case RegisterRequest(uuid, group) => [0x01] + uuid + Le(|group|, 2) + group
    case RegisterOutcome(code) => [0x02, code]
    case RegisterAck => [0x03]
    case Heartbeat => [0x10]
    case StatusReport(mode, load, temp) => [0x11, mode] + Le(load, 8) + Le(temp, 8)
    case CommandRequest(id, kind, payload) => [0x20] + Le(id, 8) + [kind] + payload
    case CommandAck(id) => [0x21] + Le(id, 8)
    case CommandOutcome(id, code) => [0x22] + Le(id, 8) + [code]
  }

  function DecodedRegisterRequest(b: seq<Byte>): Option<Message> {
    if |b| < 18 || |b| != 18 + FromLe(b[16..18]) then None else Some(RegisterRequest(b[..16], b[18..]))
  }

  function DecodedStatusReport(b: seq<Byte>): Option<Message> {
    if |b| != 17 then None else Some(StatusReport(b[0], FromLe(b[1..9]), FromLe(b[9..])))
  }

  /** Fixed-size bodies must have their size to the byte; a command's payload is whatever is left. */
  function Decoded(s: seq<Byte>): Option<Message> {
    if s == [] then None
    else
      var b := s[1..];
      match s[0]
      case 0x01 => DecodedRegisterRequest(b)
      case 0x02 => if |b| == 1 then Some(RegisterOutcome(b[0])) else None
      case 0x03 => if b == [] then Some(RegisterAck) else None
      case 0x10 => if b == [] then Some(Heartbeat) else None
      case 0x11 => DecodedStatusReport(b)
      case 0x20 => if |b| < 9 then None else Some(CommandRequest(FromLe(b[..8]), b[8], b[9..]))
      case 0x21 => if |b| == 8 then Some(CommandAck(FromLe(b))) else None
      case 0x22 => if |b| == 9 then Some(CommandOutcome(FromLe(b[..8]), b[8])) else None
      case _ => None
  }

  lemma RegisterRequestReadsBack(uuid: seq<Byte>, group: seq<Byte>)
    requires |uuid| == 16 && |group| < Limit(2)
    ensures DecodedRegisterRequest(uuid + Le(|group|, 2) + group) == Some(RegisterRequest(uuid, group))
  {
    var b := uuid + Le(|group|, 2) + group;
    LeReadsBack(|group|, 2);
    assert b[16..18] == Le(|group|, 2) && b[..16] == uuid && b[18..] == group;
  }

  lemma StatusReportReadsBack(mode: Byte, load: nat, temp: nat)
    requires load < Limit(8) && temp < Limit(8)
    ensures DecodedStatusReport([mode] + Le(load, 8) + Le(temp, 8)) == Some(StatusReport(mode, load, temp))
  {
    var b := [mode] + Le(load, 8) + Le(temp, 8);
    LeReadsBack(load, 8);
    LeReadsBack(temp, 8);
    assert b[1..9] == Le(load, 8) && b[9..] == Le(temp, 8);
  }

  lemma IdReadsBack(kind: Byte, id: nat, tail: seq<Byte>)
    requires id < Limit(8)
    ensures var s := [kind] + Le(id, 8) + tail;
            s[1..] == Le(id, 8) + tail && s[1..][..8] == Le(id, 8) && s[1..][8..] == tail && FromLe(s[1..][..8]) == id
  {
    LeReadsBack(id, 8);
    var s := [kind] + Le(id, 8) + tail;
    assert s[1..] == Le(id, 8) + tail;
    assert s[1..][..8] == Le(id, 8);
  }

  lemma CommandReadsBack(id: nat, kind: Byte, payload: seq<Byte>)
    requires id < Limit(8)
    ensures Decoded([0x20] + Le(id, 8) + [kind] + payload) == Some(CommandRequest(id, kind, payload))
  {
    IdReadsBack(0x20, id, [kind] + payload);
    var s := [0x20] + Le(id, 8) + [kind] + payload;
    assert s == [0x20] + Le(id, 8) + ([kind] + payload);
    var b := s[1..];
    assert b[8] == kind && b[9..] == payload;
  }

  lemma AckReadsBack(id: nat)
    requires id < Limit(8)
    ensures Decoded([0x21] + Le(id, 8)) == Some(CommandAck(id))
  {
    LeReadsBack(id, 8);
    assert ([0x21] + Le(id, 8))[1..] == Le(id, 8);
  }

  lemma OutcomeReadsBack(id: nat, code: Byte)
    requires id < Limit(8)
    ensures Decoded([0x22] + Le(id, 8) + [code]) == Some(CommandOutcome(id, code))
  {
    IdReadsBack(0x22, id, [code]);
    var b := ([0x22] + Le(id, 8) + [code])[1..];
    assert b[8] == code;
  }

  /** Decoding inverts every encoder. */
  lemma DecodeInvertsEncode(m: Message)
    requires Encodable(m)
    ensures Decoded(Encoded(m)) == Some(m)
  {
    match m
    case RegisterRequest(uuid, group) =>
      RegisterRequestReadsBack(uuid, group);
      assert Encoded(m)[1..] == uuid + Le(|group|, 2) + group;
    case StatusReport(mode, load, temp) =>
      StatusReportReadsBack(mode, load, temp);
      assert Encoded(m)[1..] == [mode] + Le(load, 8) + Le(temp, 8);
    case CommandRequest(id, kind, payload) => CommandReadsBack(id, kind, payload);
    case CommandAck(id) => AckReadsBack(id);
    case CommandOutcome(id, code) => OutcomeReadsBack(id, code);
    case _ =>
  }

  lemma RegisterRequestRewrites(b: seq<Byte>)
    requires |b| >= 18 && |b| == 18 + FromLe(b[16..18])
    ensures Encodable(RegisterRequest(b[..16], b[18..])) && Encoded(RegisterRequest(b[..16], b[18..])) == [0x01] + b
  {
    LeRewrites(b[16..18]);
    assert b == b[..16] + b[16..18] + b[18..];
  }

  lemma StatusReportRewrites(b: seq<Byte>)
    requires |b| == 17
    ensures var m := StatusReport(b[0], FromLe(b[1..9]), FromLe(b[9..])); Encodable(m) && Encoded(m) == [0x11] + b
  {
    LeRewrites(b[1..9]);
    LeRewrites(b[9..]);
    assert b == [b[0]] + b[1..9] + b[9..];
  }

  lemma CommandRewrites(b: seq<Byte>)
    requires |b| >= 9
    ensures var m := CommandRequest(FromLe(b[..8]), b[8], b[9..]); Encodable(m) && Encoded(m) == [0x20] + b
  {
    LeRewrites(b[..8]);
    assert b == b[..8] + [b[8]] + b[9..];
  }

  lemma AckRewrites(b: seq<Byte>)
    requires |b| == 8
    ensures Encodable(CommandAck(FromLe(b))) && Encoded(CommandAck(FromLe(b))) == [0x21] + b
  {
    LeRewrites(b);
  }

  lemma OutcomeRewrites(b: seq<Byte>)
    requires |b| == 9
    ensures var m := CommandOutcome(FromLe(b[..8]), b[8]); Encodable(m) && Encoded(m) == [0x22] + b
  {
    LeRewrites(b[..8]);
    assert b == b[..8] + [b[8]];
  }

  /** Whatever is accepted is encodable and encodes to the same bytes. */
  lemma EncodeInvertsDecode(s: seq<Byte>)
    requires Decoded(s).Some?
    ensures Encodable(Decoded(s).value) && Encoded(Decoded(s).value) == s
  {
    var b := s[1..];
    assert s == [s[0]] + b;
    match s[0]
    case 0x01 => RegisterRequestRewrites(b);
    case 0x11 => StatusReportRewrites(b);
    case 0x20 => CommandRewrites(b);
    case 0x21 => AckRewrites(b);
    case 0x22 => OutcomeRewrites(b);
    case _ =>
  }

  // ---- where the bytes are ----

  /** The i-th byte of a number, counted from the least significant one. */
  function ByteOf(v: nat, i: nat): Byte {
    v / Limit(i) % 256
  }

  /** The eight bytes from this place on are the number's, the least significant first. */
  ghost predicate NumberAt(s: seq<Byte>, at: nat, v: nat) {
    at + 8 <= |s| && forall i: nat :: i < 8 ==> s[at..at + 8][i] == ByteOf(v, i)
  }

  lemma NumberIsAt(s: seq<Byte>, at: nat, v: nat)
    requires at + 8 <= |s|
    ensures NumberAt(s, at, v) <==> s[at..at + 8] == Le(v, 8)
  {
    forall i: nat | i < 8 ensures Le(v, 8)[i] == ByteOf(v, i) {
      LittleEndian(v, 8, i);
    }
  }

  /** Where each field of each message is. */
  ghost predicate LaidOut(m: Message, s: seq<Byte>) {
    match m
    case RegisterRequest(uuid, group) =>
      && |s| == 19 + |group| && s[0] == 0x01 && s[1..17] == uuid
      && s[17] == |group| % 256 && s[18] == |group| / 256 && s[19..] == group
    case RegisterOutcome(code) => s == [0x02, code]
    case RegisterAck => s == [0x03]
    case Heartbeat => s == [0x10]
    case StatusReport(mode, load, temp) =>
      |s| == 18 && s[0] == 0x11 && s[1] == mode && NumberAt(s, 2, load) && NumberAt(s, 10, temp)
    case CommandRequest(id, kind, payload) =>
      |s| == 10 + |payload| && s[0] == 0x20 && NumberAt(s, 1, id) && s[9] == kind && s[10..] == payload
    case CommandAck(id) => |s| == 9 && s[0] == 0x21 && NumberAt(s, 1, id)
    case CommandOutcome(id, code) => |s| == 10 && s[0] == 0x22 && NumberAt(s, 1, id) && s[9] == code
  }

  lemma RegisterRequestIsExact(uuid: seq<Byte>, group: seq<Byte>, s: seq<Byte>)
    requires Encodable(RegisterRequest(uuid, group))
    ensures var m := RegisterRequest(uuid, group); LaidOut(m, s) <==> s == Encoded(m)
  {
    var n := Le(|group|, 2);
    LittleEndian(|group|, 2, 0);
    LittleEndian(|group|, 2, 1);
    assert Limit(0) == 1 && Limit(1) == 256 && Limit(2) == 0x1_0000;
    assert n == [|group| % 256, |group| / 256];
    var t := [0x01] + uuid + n + group;
    assert t[1..17] == uuid && t[17] == n[0] && t[18] == n[1] && t[19..] == group;
    if LaidOut(RegisterRequest(uuid, group), s) {
      assert s == [s[0]] + s[1..17] + [s[17], s[18]] + s[19..];
    }
  }

  lemma StatusReportIsExact(mode: Byte, load: nat, temp: nat, s: seq<Byte>)
    ensures var m := StatusReport(mode, load, temp); LaidOut(m, s) <==> s == Encoded(m)
  {
    var t := [0x11, mode] + Le(load, 8) + Le(temp, 8);
    assert t[2..10] == Le(load, 8) && t[10..18] == Le(temp, 8);
    NumberIsAt(t, 2, load);
    NumberIsAt(t, 10, temp);
    if |s| == 18 {
      NumberIsAt(s, 2, load);
      NumberIsAt(s, 10, temp);
      assert s == [s[0], s[1]] + s[2..10] + s[10..18];
    }
  }

  lemma CommandIsExact(kind: Byte, id: nat, tail: seq<Byte>, s: seq<Byte>)
    ensures |s| == 9 + |tail| && s[0] == kind && NumberAt(s, 1, id) && s[9..] == tail <==> s == [kind] + Le(id, 8) + tail
  {
    var t := [kind] + Le(id, 8) + tail;
    assert t[1..9] == Le(id, 8) && t[9..] == tail;
    NumberIsAt(t, 1, id);
    if |s| == 9 + |tail| {
      NumberIsAt(s, 1, id);
      assert s == [s[0]] + s[1..9] + s[9..];
    }
  }

  /** The bytes of a message are the only ones laid out like it. */
  lemma LayoutIsExact(m: Message, s: seq<Byte>)
    requires Encodable(m)
    ensures LaidOut(m, s) <==> s == Encoded(m)
  {
    match m
    case RegisterRequest(uuid, group) => RegisterRequestIsExact(uuid, group, s);
    case StatusReport(mode, load, temp) => StatusReportIsExact(mode, load, temp, s);
    case CommandRequest(id, kind, payload) =>
      CommandIsExact(0x20, id, [kind] + payload, s);
      assert [0x20] + Le(id, 8) + [kind] + payload == [0x20] + Le(id, 8) + ([kind] + payload);
      if |s| >= 10 {
        assert s[9..] == [s[9]] + s[10..];
      }
    case CommandAck(id) =>
      CommandIsExact(0x21, id, [], s);
      assert [0x21] + Le(id, 8) + [] == [0x21] + Le(id, 8);
    case CommandOutcome(id, code) =>
      CommandIsExact(0x22, id, [code], s);
      if |s| == 10 {
        assert s[9..] == [s[9]];
      }
    case _ =>
  }
}
