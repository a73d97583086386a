/** The command service: tracked commands by device, updated in place by dispatches, answers and sweeps. Results of
    sending and calls of failure sinks cross the service's boundary: the former come in as arguments, the latter are
    recorded. Every operation is proved against its function on ledgers. */
module CommandServices {
  import opened Basics
  import opened CommandSlots
  import opened CommandTraffic
  import opened CommandLedger

  type Slots = seq<Slot>

  /** No two commands of one kind, and no empty entry left behind. */
  ghost predicate OnePerFamily(slots: Slots) {
    slots != [] && forall i, j :: 0 <= i < j < |slots| ==> Family(slots[i].command) != Family(slots[j].command)
  }

  lemma SoleSlot(slots: Slots)
    requires OnePerFamily(slots)
    ensures |slots| == 1
  {
    assert |slots| > 1 ==> Family(slots[0].command) != Family(slots[1].command);
  }

  ghost predicate Tidy(pending: map<DeviceId, Slots>) {
    forall d :: d in pending ==> OnePerFamily(pending[d])
  }

  ghost function View(pending: map<DeviceId, Slots>): Tracked
    requires Tidy(pending)
  {
    map d | d in pending :: pending[d][0]
  }

  lemma ViewOfUpdate(pending: map<DeviceId, Slots>, d: DeviceId, s: Slot)
    requires Tidy(pending)
    ensures Tidy(pending[d := [s]]) && View(pending[d := [s]]) == View(pending)[d := s]
    ensures Tidy(pending - {d}) && View(pending - {d}) == View(pending) - {d}
  {
  }

  class CommandService {
    const cfg: Config
    var nextId: nat
    var pending: map<DeviceId, Slots>
    var metrics: Metrics
    ghost var wire: Wire
    ghost var notices: seq<Notice>
    ghost var orphaned: nat

    ghost predicate Valid()
      reads this
    {
      Tidy(pending)
    }

    ghost function Value(): Ledger
      requires Valid()
      reads this
    {
      Ledger(View(pending), nextId, metrics, wire, notices, orphaned)
    }

    constructor (cfg: Config)
      ensures Valid() && Value() == EMPTY && this.cfg == cfg
    {
      this.cfg := cfg;
      nextId, pending, metrics := 1, map[], EMPTY.metrics;
      wire, notices, orphaned := [], [], 0;
    }

    method PendingCount() returns (total: nat)
      requires Valid()
      ensures total == |Value().pending|
    {
      total := 0;
      var left := pending.Keys;
      assert View(pending).Keys == pending.Keys;
      while left != {}
        invariant left <= pending.Keys
        invariant total + |left| == |pending.Keys|
        decreases left
      {
        var d :| d in left;
        SoleSlot(pending[d]);
        total := total + |pending[d]|;
        left := left - {d};
      }
      assert |View(pending)| == |View(pending).Keys|;
    }

    /** Where the device's slots hold this id, if they do. */
    method FindSlot(device: DeviceId, id: nat) returns (found: bool)
      requires Valid()
      ensures found <==> Value().Tracks(device, id)
      ensures found ==> pending[device] == [Value().pending[device]]
    {
      if device !in pending {
        return false;
      }
      SoleSlot(pending[device]);
      var i := 0;
      while i < |pending[device]|
        invariant i <= |pending[device]|
        invariant forall j :: 0 <= j < i ==> pending[device][j].id != id
      {
        if pending[device][i].id == id {
          return true;
        }
        i := i + 1;
      }
      return false;
    }

    /** Start tracking a command, in place of one of the same kind. A failed first send does not bring the replaced
        command back. Returns the new id, or 0. */
    method Dispatch(device: DeviceId, command: Command, now: Time, sink: Option<nat>, sent: SendResult)
      returns (id: nat)
      requires Valid()
      modifies this
      ensures Valid()
      ensures Value() == CommandLedger.Dispatch(cfg, old(Value()), device, command, now, sink, sent)
      ensures id == if sent.Sent? then old(nextId) else 0
    {
      var slots := if device in pending then pending[device] else [];
      ViewOfUpdate(pending, device, NewSlot(cfg, nextId, command, now, sink));
      if slots != [] {
        SoleSlot(slots);
        metrics := metrics.(superseded := metrics.superseded + 1);
        slots := [];
      }
      var commandId := nextId;
      nextId := nextId + 1;
      metrics := CountDispatch(metrics, sent);
      if !sent.Sent? {
        pending := pending - {device};
        return 0;
      }
      var slot := NewSlot(cfg, commandId, command, now, sink);
      pending := pending[device := slots + [slot]];
      assert slots + [slot] == [slot];
      wire := wire + [Carried(device, slot)];
      return commandId;
    }

    method Acknowledge(device: DeviceId, id: nat, now: Time)
      requires Valid()
      modifies this
      ensures Valid() && Value() == CommandLedger.Acknowledge(cfg, old(Value()), device, id, now)
    {
      var found := FindSlot(device, id);
      if !found {
        metrics := metrics.(stale := metrics.stale + 1);
        return;
      }
      var s := pending[device][0].(state := InFlight, nextAt := now + cfg.timeout);
      ViewOfUpdate(pending, device, s);
      pending := pending[device := [s]];
    }

    /** The first bucket whose bound is not exceeded, or the last one. */
    method Bucket(us: nat) returns (b: nat)
      ensures b == BucketFrom(us, 0)
    {
      b := 0;
      while b < |RTT_BOUNDS| && us > RTT_BOUNDS[b]
        invariant b <= |RTT_BOUNDS|
        invariant BucketFrom(us, b) == BucketFrom(us, 0)
      {
        b := b + 1;
      }
    }

    method Settle(device: DeviceId, id: nat, success: bool, now: Time)
      requires Valid()
      modifies this
      ensures Valid() && Value() == CommandLedger.Settle(cfg, old(Value()), device, id, success, now)
    {
      var found := FindSlot(device, id);
      if !found {
        metrics := metrics.(stale := metrics.stale + 1);
        return;
      }
      if !success {
        FailAttempt(device, id, now, true);
        return;
      }
      var us := Microseconds(now - pending[device][0].dispatchedAt);
      var b := Bucket(us);
      BucketIsLeastBound(us, 0);
      metrics := metrics.(succeeded := metrics.succeeded + 1, rttSum := (metrics.rttSum + us) % U64,
                          rttBuckets := metrics.rttBuckets[b := metrics.rttBuckets[b] + 1]);
      CloseSlot(device);
    }

    method CloseSlot(device: DeviceId)
      requires Valid() && device in pending
      modifies this`pending
      ensures Valid() && Value() == old(Value()).(pending := old(Value()).pending - {device})
    {
      ViewOfUpdate(pending, device, pending[device][0]);
      pending := pending - {device};
    }

    /** Stop tracking first, then tell the sink: the call may come back into the service. */
    method CloseFailedSlot(device: DeviceId)
      requires Valid() && device in pending
      modifies this`pending, this`notices, this`orphaned
      ensures Valid() && Value() == GiveUp(old(Value()), device)
    {
      var slot := pending[device][0];
      CloseSlot(device);
      if slot.sink.Some? {
        notices := notices + [Notice(slot.sink.value, device, slot.id)];
      } else {
        orphaned := orphaned + 1;
      }
    }

    method Backoff(attempts: int) returns (d: Time)
      ensures d == BackoffFor(cfg, attempts)
    {
      d := cfg.backoffBase;
      var i := 1;
      while i < attempts && i < 16
        invariant 1 <= i <= 16 && (attempts <= 1 ==> i == 1) && (attempts > 1 ==> i <= attempts)
        invariant d == cfg.backoffBase * Power2(i - 1)
      {
        assert Power2(i) == 2 * Power2(i - 1);
        d := d * 2;
        i := i + 1;
      }
    }

    method FailAttempt(device: DeviceId, id: nat, now: Time, byAgent: bool)
      requires Valid() && Value().Tracks(device, id)
      modifies this
      ensures Valid()
      ensures Value() == CommandLedger.FailAttempt(
                           cfg, old(Value()).(metrics := CountFailedAttempt(old(metrics), byAgent)), device, now)
    {
      SoleSlot(pending[device]);
      metrics := CountFailedAttempt(metrics, byAgent);
      if pending[device][0].attempts >= cfg.maxAttempts {
        metrics := metrics.(failedExhausted := metrics.failedExhausted + 1);
        CloseFailedSlot(device);
        return;
      }
      var wait := Backoff(pending[device][0].attempts);
      var s := pending[device][0].(state := SlotState.Backoff, nextAt := now + wait);
      ViewOfUpdate(pending, device, s);
      pending := pending[device := [s]];
    }

    method Resend(device: DeviceId, id: nat, now: Time, sent: SendResult)
      requires Valid() && Value().Tracks(device, id)
      modifies this
      ensures Valid() && Value() == CommandLedger.Resend(cfg, old(Value()), device, now, sent)
    {
      SoleSlot(pending[device]);
      if !sent.Sent? {
        metrics := CountFailedSend(metrics, sent);
        CloseFailedSlot(device);
        return;
      }
      metrics := metrics.(resends := metrics.resends + 1);
      var slot := pending[device][0];
      var s := slot.(attempts := slot.attempts + 1, state := InFlight, nextAt := now + cfg.timeout);
      ViewOfUpdate(pending, device, s);
      pending := pending[device := [s]];
      wire := wire + [Carried(device, s)];
    }

    /** First collect what is due, in whatever order the table yields it; then treat each, skipping what is gone. */
    method Sweep(now: Time, sent: DeviceId -> SendResult) returns (ghost order: seq<DeviceId>)
      requires Valid()
      modifies this
      ensures Valid() && NoRepeats(order)
      ensures forall d :: d in order <==> d in old(pending) && Due(old(Value()).pending[d], now)
      ensures Value() == CommandLedger.Sweep(cfg, old(Value()), order, now, sent)
    {
      var due: seq<(DeviceId, nat)> := CollectDue(now);
      order := [];
      var i := 0;
      ghost var start := Value();
      while i < |due|
        invariant i <= |due| && |order| == i
        invariant Valid()
        invariant forall j :: 0 <= j < i ==> order[j] == due[j].0
        invariant Value() == CommandLedger.Sweep(cfg, start, order, now, sent)
        invariant forall j :: i <= j < |due| ==>
                    due[j].0 in Value().pending && Value().pending[due[j].0] == start.pending[due[j].0]
      {
        var (device, id) := due[i];
        SweepDue(device, id, now, sent(device));
        assert (order + [device])[..i] == order;
        order := order + [device];
        i := i + 1;
      }
      DistinctDevices(due, order);
    }

    /** Treat one command that was collected as due. */
    method SweepDue(device: DeviceId, id: nat, now: Time, sent: SendResult)
      requires Valid() && Value().Tracks(device, id) && Due(Value().pending[device], now)
      modifies this
      ensures Valid() && Value() == SweepOne(cfg, old(Value()), device, now, sent)
      ensures forall d :: d in old(Value()).pending && d != device ==>
                d in Value().pending && Value().pending[d] == old(Value()).pending[d]
    {
      var found := FindSlot(device, id);
      if !found {
        return;
      }
      if pending[device][0].state.InFlight? {
        FailAttempt(device, id, now, false);
      } else {
        Resend(device, id, now, sent);
      }
    }

    method CollectDue(now: Time) returns (due: seq<(DeviceId, nat)>)
      requires Valid()
      ensures forall i, j :: 0 <= i < j < |due| ==> due[i].0 != due[j].0
      ensures forall i :: 0 <= i < |due| ==>
                Value().Tracks(due[i].0, due[i].1) && Due(Value().pending[due[i].0], now)
      ensures forall d :: d in pending && Due(Value().pending[d], now) ==>
                exists i :: 0 <= i < |due| && due[i].0 == d
    {
      due := [];
      var left := pending.Keys;
      while left != {}
        invariant left <= pending.Keys
        invariant forall i, j :: 0 <= i < j < |due| ==> due[i].0 != due[j].0
        invariant forall i :: 0 <= i < |due| ==>
                    due[i].0 !in left && Value().Tracks(due[i].0, due[i].1) && Due(Value().pending[due[i].0], now)
        invariant forall d :: d in pending && d !in left && Due(Value().pending[d], now) ==>
                    exists i :: 0 <= i < |due| && due[i].0 == d
        decreases left
      {
        var d :| d in left;
        SoleSlot(pending[d]);
        left := left - {d};
        if pending[d][0].nextAt < now {
          ghost var before := due;
          due := due + [(d, pending[d][0].id)];
          assert due[|before|].0 == d;
          assert forall i :: 0 <= i < |before| ==> due[i] == before[i];
        }
      }
    }

    method DetachFailureSink(sink: nat)
      requires Valid()
      modifies this
      ensures Valid() && Value() == Detach(old(Value()), sink)
    {
      ghost var was := Value();
      var left := pending.Keys;
      while left != {}
        invariant Valid() && left <= pending.Keys
        invariant Value() == was.(pending := DetachedOutside(was.pending, left, sink))
        decreases left
      {
        var d :| d in left;
        DetachedOutsideLess(was.pending, left, d, sink);
        SoleSlot(pending[d]);
        var slot := Detached(pending[d][0], sink);
        ViewOfUpdate(pending, d, slot);
        pending := pending[d := [slot]];
        left := left - {d};
      }
      assert DetachedOutside(was.pending, {}, sink) == Detach(was, sink).pending;
    }
  }

  /** The sink is gone from all slots but those still to be gone through. */
  function DetachedOutside(pending: map<DeviceId, Slot>, left: set<DeviceId>, sink: nat): map<DeviceId, Slot> {
    map d | d in pending :: if d in left then pending[d] else Detached(pending[d], sink)
  }

  lemma DetachedOutsideLess(pending: map<DeviceId, Slot>, left: set<DeviceId>, d: DeviceId, sink: nat)
    requires d in left && d in pending
    ensures var before := DetachedOutside(pending, left, sink);
            DetachedOutside(pending, left - {d}, sink) == before[d := Detached(before[d], sink)]
  {
  }

  lemma DistinctDevices(due: seq<(DeviceId, nat)>, order: seq<DeviceId>)
    requires |order| == |due| && forall j :: 0 <= j < |due| ==> order[j] == due[j].0
    requires forall i, j :: 0 <= i < j < |due| ==> due[i].0 != due[j].0
    ensures NoRepeats(order)
  {
    if order != [] {
      var n := |order| - 1;
      DistinctDevices(due[..n], order[..n]);
      assert order == order[..n] + [order[n]];
      assert multiset(order) == multiset(order[..n]) + multiset{order[n]};
      assert order[n] !in order[..n];
    }
  }
}
