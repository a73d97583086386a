/** The sending discipline of the command service: what its accepted sends look like, seen over a whole run. */
module CommandTraffic {
  import opened Basics
  import opened CommandSlots

  /** One send the transport accepted. */
  datatype Transmission = Transmission(device: DeviceId, id: nat, command: Command)

  type Wire = seq<Transmission>

  type Tracked = map<DeviceId, Slot>

  function Carried(d: DeviceId, s: Slot): Transmission {
    Transmission(d, s.id, s.command)
  }

  /** A later send of the same id is the same send again, and a device is never sent a smaller id after a larger. */
  predicate Follows(a: Transmission, b: Transmission) {
    (a.id == b.id ==> a == b) && (a.device == b.device ==> a.id <= b.id)
  }

  ghost predicate InOrder(wire: Wire) {
    forall i, j :: 0 <= i < j < |wire| ==> Follows(wire[i], wire[j])
  }

  ghost predicate Issued(wire: Wire, nextId: nat) {
    forall i :: 0 <= i < |wire| ==> 1 <= wire[i].id < nextId
  }

  /** The tracked command of a device is the last thing the device was sent. */
  ghost predicate Newest(wire: Wire, d: DeviceId, s: Slot) {
    Carried(d, s) in wire && forall i :: 0 <= i < |wire| && wire[i].device == d ==> wire[i].id <= s.id
  }

  ghost predicate Disciplined(pending: Tracked, wire: Wire, nextId: nat) {
    nextId >= 1 && InOrder(wire) && Issued(wire, nextId) && forall d :: d in pending ==> Newest(wire, d, pending[d])
  }

  /** How often an id was put on the wire. */
  function SendsOf(wire: Wire, id: nat): nat {
    if wire == [] then 0
    else SendsOf(wire[..|wire| - 1], id) + (if wire[|wire| - 1].id == id then 1 else 0)
  }

  ghost predicate Counted(cfg: Config, wire: Wire, s: Slot) {
    Sound(cfg, s) && SendsOf(wire, s.id) == s.attempts
  }

  /** No id goes on the wire more often than the configured number of attempts, or once. */
  ghost predicate Sparing(cfg: Config, pending: Tracked, wire: Wire) {
    && (forall id :: SendsOf(wire, id) <= MaxOne(cfg.maxAttempts))
    && (forall d :: d in pending ==> Counted(cfg, wire, pending[d]))
  }

  lemma {:induction false} SendsOfAppend(wire: Wire, t: Transmission)
    ensures forall id :: SendsOf(wire + [t], id) == SendsOf(wire, id) + (if t.id == id then 1 else 0)
  {
    assert (wire + [t])[..|wire|] == wire;
  }

  lemma {:induction false} NeverSent(wire: Wire, nextId: nat)
    requires Issued(wire, nextId)
    ensures SendsOf(wire, nextId) == 0
  {
    if wire != [] {
      NeverSent(wire[..|wire| - 1], nextId);
    }
  }

  lemma InOrderAppend(wire: Wire, t: Transmission)
    requires InOrder(wire) && forall i :: 0 <= i < |wire| ==> Follows(wire[i], t)
    ensures InOrder(wire + [t])
  {
  }

  /** A new id for device d keeps the discipline. */
  lemma FirstSend(pending: Tracked, wire: Wire, nextId: nat, d: DeviceId, s: Slot)
    requires Disciplined(pending, wire, nextId) && s.id == nextId
    ensures Disciplined(pending[d := s], wire + [Carried(d, s)], nextId + 1)
  {
    var t := Carried(d, s);
    InOrderAppend(wire, t);
    assert (wire + [t])[|wire|] == t;
    var pending' := pending[d := s];
    forall e | e in pending'
      ensures Newest(wire + [t], e, pending'[e])
    {
      if e != d {
        assert Newest(wire, e, pending[e]);
      }
    }
  }

  /** Ceasing to track a device's command keeps it too, whatever becomes of the next id. */
  lemma Forget(cfg: Config, pending: Tracked, wire: Wire, nextId: nat, d: DeviceId, next: nat)
    requires Disciplined(pending, wire, nextId) && Sparing(cfg, pending, wire) && nextId <= next
    ensures Disciplined(pending - {d}, wire, next) && Sparing(cfg, pending - {d}, wire)
  {
  }

  /** So does sending the tracked command once more. */
  lemma AnotherSend(pending: Tracked, wire: Wire, nextId: nat, d: DeviceId, s: Slot)
    requires Disciplined(pending, wire, nextId) && d in pending && Carried(d, s) == Carried(d, pending[d])
    ensures Disciplined(pending[d := s], wire + [Carried(d, s)], nextId)
  {
    var t := Carried(d, s);
    assert Newest(wire, d, pending[d]);
    var k :| 0 <= k < |wire| && wire[k] == t;
    forall i | 0 <= i < |wire|
      ensures Follows(wire[i], t)
    {
      if wire[i].id == t.id && i != k {
        assert i < k ==> Follows(wire[i], wire[k]);
        assert k < i ==> Follows(wire[k], wire[i]);
      }
    }
    InOrderAppend(wire, t);
    var pending' := pending[d := s];
    forall e | e in pending'
      ensures Newest(wire + [t], e, pending'[e])
    {
      assert Newest(wire, e, pending[e]);
    }
  }

  /** And changing anything else that is known of the tracked command. */
  lemma Retouch(pending: Tracked, wire: Wire, nextId: nat, d: DeviceId, s: Slot)
    requires Disciplined(pending, wire, nextId) && d in pending && Carried(d, s) == Carried(d, pending[d])
    ensures Disciplined(pending[d := s], wire, nextId)
  {
    assert Newest(wire, d, pending[d]);
    assert Newest(wire, d, s);
  }

  lemma FirstSendCounts(cfg: Config, pending: Tracked, wire: Wire, nextId: nat, d: DeviceId, s: Slot)
    requires Disciplined(pending, wire, nextId) && Sparing(cfg, pending, wire)
    requires s.id == nextId && s.attempts == 1 && s.state.InFlight?
    ensures Sparing(cfg, pending[d := s], wire + [Carried(d, s)])
  {
    SendsOfAppend(wire, Carried(d, s));
    NeverSent(wire, nextId);
    var pending' := pending[d := s];
    forall e | e in pending'
      ensures Counted(cfg, wire + [Carried(d, s)], pending'[e])
    {
      if e != d {
        assert Newest(wire, e, pending[e]) && Counted(cfg, wire, pending[e]);
      }
    }
  }

  lemma AnotherSendCounts(cfg: Config, pending: Tracked, wire: Wire, nextId: nat, d: DeviceId, s: Slot)
    requires Disciplined(pending, wire, nextId) && Sparing(cfg, pending, wire)
    requires d in pending && pending[d].state.Backoff? && Carried(d, s) == Carried(d, pending[d])
    requires s.attempts == pending[d].attempts + 1 && s.state.InFlight?
    ensures Sparing(cfg, pending[d := s], wire + [Carried(d, s)])
  {
    SendsOfAppend(wire, Carried(d, s));
    assert Newest(wire, d, pending[d]) && Counted(cfg, wire, pending[d]);
    var k :| 0 <= k < |wire| && wire[k] == Carried(d, s);
    forall e | e in pending && e != d
      ensures Counted(cfg, wire + [Carried(d, s)], pending[e])
    {
      assert Newest(wire, e, pending[e]) && Counted(cfg, wire, pending[e]);
      var i :| 0 <= i < |wire| && wire[i] == Carried(e, pending[e]);
      assert i < k ==> Follows(wire[i], wire[k]);
      assert k < i ==> Follows(wire[k], wire[i]);
    }
  }

  lemma RetouchCounts(cfg: Config, pending: Tracked, wire: Wire, d: DeviceId, s: Slot)
    requires Sparing(cfg, pending, wire)
    requires d in pending && Carried(d, s) == Carried(d, pending[d]) && s.attempts == pending[d].attempts
    requires Sound(cfg, s)
    ensures Sparing(cfg, pending[d := s], wire)
  {
    assert Counted(cfg, wire, pending[d]);
    assert Counted(cfg, wire, s);
  }

  lemma SizeAfterUpdate(pending: Tracked, d: DeviceId, s: Slot)
    ensures |pending[d := s]| == if d in pending then |pending| else |pending| + 1
    ensures |pending - {d}| == if d in pending then |pending| - 1 else |pending|
  {
    var keys := pending.Keys;
    assert |pending| == |keys|;
    assert pending[d := s].Keys == keys + {d};
    assert (pending - {d}).Keys == keys - {d};
    assert |pending[d := s].Keys| == |pending[d := s]| && |(pending - {d}).Keys| == |pending - {d}|;
    assert d in keys ==> keys + {d} == keys;
    assert d !in keys ==> keys - {d} == keys;
  }
}
