/** Vocabulary shared by the controller and the agent models. */
module Basics {

  datatype Option<+T> = None | Some(value: T)

  type Byte = b: int | 0 <= b < 256

  /** Sixty-four-bit counters count modulo this. */
  const U64: nat := 0x1_0000_0000_0000_0000
  const U64_MAX: nat := 0xFFFF_FFFF_FFFF_FFFF

  function Sum(values: seq<nat>): nat {
    if values == [] then 0 else Sum(values[..|values| - 1]) + values[|values| - 1]
  }

  lemma SumOfAppended(values: seq<nat>, v: nat)
    ensures Sum(values + [v]) == Sum(values) + v
  {
    assert (values + [v])[..|values|] == values;
  }

  /** A device, by its identity. */
  type DeviceId = nat

  /** A transport connection. */
  type ConnectionId = nat

  /** The operating modes a device can be commanded into. */
  datatype Mode = Safe | Normal | Performance

  function EncodeMode(m: Mode): Byte {
    match m
    case Safe => 0
    case Normal => 1
    case Performance => 2
  }

  /** A byte outside the vocabulary has no mode. */
  function DecodeMode(wire: Byte): Option<Mode> {
    match wire
    case 0 => Some(Safe)
    case 1 => Some(Normal)
    case 2 => Some(Performance)
    case _ => None
  }

  /** A command the controller can send to a device. A new kind of command would be a new constructor. */
  datatype Command = SetMode(mode: Byte)

  /** How a command's kind is written on the wire. */
  const SET_MODE: Byte := 1

  /** The kind of a command. A device has at most one tracked command of each kind. */
  function Family(c: Command): nat {
    match c
    case SetMode(_) => 0
  }

  /** What the transport said about one attempt to send a command. */
  datatype SendResult = Sent | Offline | EncodeFailed
}
