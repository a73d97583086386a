/** The controller's sessions: one per connection, and an index from devices to the connection they are bound to. */
module Sessions {
  import opened Basics

  type Time = int

  /** The nil device, carried by a session that has not registered. */
  const NO_DEVICE: DeviceId := 0

  datatype SessionState = Handshaking | Confirming | Active

  datatype Session = Session(conn: ConnectionId, device: DeviceId, state: SessionState, lastSeen: Time)

  type SessionTable = map<ConnectionId, Session>

  type DeviceIndex = map<DeviceId, ConnectionId>

  /** A session has a device exactly when it is past its handshake. */
  ghost predicate WellFormed(c: ConnectionId, s: Session) {
    s.conn == c && (s.state.Handshaking? <==> s.device == NO_DEVICE)
  }

  /** The index entry of a device and the session it names agree. */
  ghost predicate Agrees(sessions: SessionTable, d: DeviceId, c: ConnectionId) {
    d != NO_DEVICE && c in sessions && sessions[c].device == d
  }

  /** The index is exactly the inverse of the bound sessions. */
  ghost predicate Inverse(sessions: SessionTable, index: DeviceIndex) {
    && (forall c :: c in sessions ==> WellFormed(c, sessions[c]))
    && (forall d :: d in index ==> Agrees(sessions, d, index[d]))
    && (forall c :: c in sessions && sessions[c].device != NO_DEVICE ==>
          sessions[c].device in index && index[sessions[c].device] == c)
  }

  /** So no two sessions are bound to one device. */
  lemma BoundOnce(sessions: SessionTable, index: DeviceIndex, a: ConnectionId, b: ConnectionId)
    requires Inverse(sessions, index) && a in sessions && b in sessions
    requires sessions[a].device == sessions[b].device != NO_DEVICE
    ensures a == b
  {
    assert index[sessions[a].device] == a;
  }

  class SessionRegistry {
    var sessions: SessionTable
    var index: DeviceIndex

    ghost predicate Valid()
      reads this
    {
      Inverse(sessions, index)
    }

    constructor ()
      ensures Valid() && sessions == map[] && index == map[]
    {
      sessions, index := map[], map[];
    }

    /** The session bound to a device, by the index. */
    method FindDevice(d: DeviceId) returns (s: Option<Session>)
      requires Valid()
      ensures s.None? ==> forall c :: c in sessions ==> sessions[c].device != d || d == NO_DEVICE
      ensures s.Some? ==> s.value.conn in sessions && sessions[s.value.conn] == s.value && s.value.device == d
      ensures s.Some? ==> s.value.state != Handshaking && index[d] == s.value.conn
    {
      if d !in index || index[d] !in sessions {
        return None;
      }
      assert Agrees(sessions, d, index[d]) && WellFormed(index[d], sessions[index[d]]);
      return Some(sessions[index[d]]);
    }

    method Add(c: ConnectionId, now: Time) returns (ok: bool)
      requires Valid()
      modifies this
      ensures Valid() && index == old(index) && ok == (c !in old(sessions))
      ensures sessions == if ok then old(sessions)[c := Session(c, NO_DEVICE, Handshaking, now)] else old(sessions)
    {
      if c in sessions {
        return false;
      }
      ghost var before := sessions;
      sessions := sessions[c := Session(c, NO_DEVICE, Handshaking, now)];
      assert forall d :: d in index ==> Agrees(before, d, index[d]);
      return true;
    }

    /** The device is claimed in the index first, and given back when the session turns out not to be bindable. */
    method Bind(c: ConnectionId, d: DeviceId, now: Time) returns (ok: bool)
      requires Valid()
      modifies this
      ensures Valid()
      ensures ok <==> c in old(sessions) && old(sessions)[c].state.Handshaking? && d != NO_DEVICE && d !in old(index)
      ensures !ok ==> sessions == old(sessions) && index == old(index)
      ensures ok ==> sessions == old(sessions)[c := Session(c, d, Confirming, now)] && index == old(index)[d := c]
    {
      if c !in sessions {
        return false;
      }
      if d in index {
        return false;
      }
      ghost var before, was := sessions, index;
      index := index[d := c];
      var s := sessions[c];
      if s.state != Handshaking || d == NO_DEVICE {
        index := index - {d};
        assert index == was;
        return false;
      }
      assert WellFormed(c, s);
      sessions := sessions[c := s.(device := d, state := Confirming, lastSeen := now)];
      assert forall e :: e in was ==> Agrees(before, e, was[e]);
      return true;
    }

    /** The session's confirmation arrived. */
    method Confirm(c: ConnectionId, now: Time) returns (ok: bool)
      requires Valid() && c in sessions
      modifies this`sessions
      ensures Valid() && ok == old(sessions)[c].state.Confirming?
      ensures sessions == if ok then old(sessions)[c := old(sessions)[c].(state := Active, lastSeen := now)]
                          else old(sessions)
    {
      if sessions[c].state != Confirming {
        return false;
      }
      ghost var before := sessions;
      assert WellFormed(c, sessions[c]);
      sessions := sessions[c := sessions[c].(state := Active, lastSeen := now)];
      assert forall d :: d in index ==> Agrees(before, d, index[d]);
      return true;
    }

    method UpdateSeen(c: ConnectionId, now: Time)
      requires Valid() && c in sessions
      modifies this`sessions
      ensures Valid() && sessions == old(sessions)[c := old(sessions)[c].(lastSeen := now)]
    {
      ghost var before := sessions;
      assert WellFormed(c, sessions[c]);
      sessions := sessions[c := sessions[c].(lastSeen := now)];
      assert forall d :: d in index ==> Agrees(before, d, index[d]);
    }

    method Erase(c: ConnectionId) returns (ok: bool)
      requires Valid()
      modifies this
      ensures Valid() && ok == (c in old(sessions)) && sessions == old(sessions) - {c}
      ensures index == if ok && old(sessions)[c].device != NO_DEVICE then old(index) - {old(sessions)[c].device}
                       else old(index)
    {
      if c !in sessions {
        assert sessions - {c} == sessions;
        return false;
      }
      ghost var before, was := sessions, index;
      if sessions[c].device != NO_DEVICE {
        index := index - {sessions[c].device};
      }
      sessions := sessions - {c};
      forall d | d in index
        ensures Agrees(sessions, d, index[d])
      {
        assert Agrees(before, d, was[d]);
      }
      return true;
    }
  }
}
