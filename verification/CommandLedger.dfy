/** What the command service knows and has done, as a value: the tracked commands, the counters, and the history of
    accepted sends and failure notifications. Each operation is a function here; the service's methods are proved
    against these functions, and the accounting laws are proved about them. */
module CommandLedger {
  import opened Basics
  import opened CommandSlots
  import opened CommandTraffic

  /** One count for each bound on a round trip, and one for those over every bound. */
  type Buckets = s: seq<nat> | |s| == 11 witness [0, 0, 0, 0, 0, 0, 0, 0, 0, 0, 0]

  datatype Metrics = Metrics(
    dispatched: nat, superseded: nat, succeeded: nat,
    failedExhausted: nat, failedOffline: nat, failedEncode: nat,
    dispatchOffline: nat, dispatchEncode: nat,
    agentFailures: nat, timeouts: nat, resends: nat, stale: nat,
    rttSum: nat, rttBuckets: Buckets)

  /** One call of a failure sink. */
  datatype Notice = Notice(sink: nat, device: DeviceId, id: nat)

  /** `orphaned` counts the commands given up that had no sink to tell. */
  datatype Ledger = Ledger(
    pending: Tracked, nextId: nat, metrics: Metrics,
    wire: Wire, notices: seq<Notice>, orphaned: nat)
  {
    predicate Tracks(device: DeviceId, id: nat) {
      device in pending && pending[device].id == id
    }
  }

  const RTT_BOUNDS: seq<nat> := [1000, 2000, 5000, 10000, 20000, 50000, 100000, 250000, 500000, 1000000]

  function Zeros(n: nat): (z: seq<nat>)
    ensures |z| == n && Sum(z) == 0
  {
    if n == 0 then [] else Zeros(n - 1) + [0]
  }

  const EMPTY: Ledger :=
    Ledger(map[], 1, Metrics(0, 0, 0, 0, 0, 0, 0, 0, 0, 0, 0, 0, 0, Zeros(|RTT_BOUNDS| + 1)), [], [], 0)

  /** Whole microseconds, rounded toward zero and cast to 64 unsigned bits. */
  function Microseconds(d: Time): nat {
    (if d >= 0 then d / 1000 else -(-d / 1000)) % U64
  }

  function BucketFrom(us: nat, i: nat): nat
    requires i <= |RTT_BOUNDS|
    decreases |RTT_BOUNDS| - i
  {
    if i < |RTT_BOUNDS| && us > RTT_BOUNDS[i] then BucketFrom(us, i + 1) else i
  }

  /** A round trip lands in the bucket of the least bound it does not exceed, or in the last bucket. */
  lemma {:induction false} BucketIsLeastBound(us: nat, i: nat)
    requires i <= |RTT_BOUNDS|
    ensures i <= BucketFrom(us, i) <= |RTT_BOUNDS|
    ensures forall j :: i <= j < BucketFrom(us, i) ==> us > RTT_BOUNDS[j]
    ensures BucketFrom(us, i) < |RTT_BOUNDS| ==> us <= RTT_BOUNDS[BucketFrom(us, i)]
    decreases |RTT_BOUNDS| - i
  {
    if i < |RTT_BOUNDS| && us > RTT_BOUNDS[i] {
      BucketIsLeastBound(us, i + 1);
    }
  }

  function CountFailedSend(m: Metrics, sent: SendResult): Metrics {
    match sent
    case Sent => m
    case Offline => m.(failedOffline := m.failedOffline + 1)
    case EncodeFailed => m.(failedEncode := m.failedEncode + 1)
  }

  function CountDispatch(m: Metrics, sent: SendResult): Metrics {
    match sent
    case Sent => m.(dispatched := m.dispatched + 1)
    case Offline => m.(dispatchOffline := m.dispatchOffline + 1)
    case EncodeFailed => m.(dispatchEncode := m.dispatchEncode + 1)
  }

  /** Stop tracking a command and count its round trip. */
  function Complete(l: Ledger, device: DeviceId, now: Time): Ledger
    requires device in l.pending
  {
    var us := Microseconds(now - l.pending[device].dispatchedAt);
    BucketIsLeastBound(us, 0);
    var b := BucketFrom(us, 0);
    l.(pending := l.pending - {device},
       metrics := l.metrics.(succeeded := l.metrics.succeeded + 1,
                             rttSum := (l.metrics.rttSum + us) % U64,
                             rttBuckets := l.metrics.rttBuckets[b := l.metrics.rttBuckets[b] + 1]))
  }

  /** Stop tracking a command that was given up, and tell its sink. */
  function GiveUp(l: Ledger, device: DeviceId): Ledger
    requires device in l.pending
  {
    var s := l.pending[device];
    var closed := l.(pending := l.pending - {device});
    if s.sink.Some? then closed.(notices := l.notices + [Notice(s.sink.value, device, s.id)])
    else closed.(orphaned := l.orphaned + 1)
  }

  /** The device's tracked command of this kind is replaced, whether or not the send succeeds. */
  function Dispatch(cfg: Config, l: Ledger, device: DeviceId, command: Command, now: Time, sink: Option<nat>,
                    sent: SendResult): Ledger
  {
    var s := NewSlot(cfg, l.nextId, command, now, sink);
    Ledger(if sent.Sent? then l.pending[device := s] else l.pending - {device},
           l.nextId + 1,
           CountDispatch(if device in l.pending then l.metrics.(superseded := l.metrics.superseded + 1) else l.metrics,
                         sent),
           if sent.Sent? then l.wire + [Carried(device, s)] else l.wire,
           l.notices, l.orphaned)
  }

  function Stale(l: Ledger): Ledger {
    l.(metrics := l.metrics.(stale := l.metrics.stale + 1))
  }

  function Acknowledge(cfg: Config, l: Ledger, device: DeviceId, id: nat, now: Time): Ledger {
    if l.Tracks(device, id) then l.(pending := l.pending[device := Acknowledged(cfg, l.pending[device], now)])
    else Stale(l)
  }

  function CountFailedAttempt(m: Metrics, byAgent: bool): Metrics {
    if byAgent then m.(agentFailures := m.agentFailures + 1) else m.(timeouts := m.timeouts + 1)
  }

  /** One attempt failed, by the agent's word or by silence; `l` has it counted. */
  function FailAttempt(cfg: Config, l: Ledger, device: DeviceId, now: Time): Ledger
    requires device in l.pending
  {
    var next := AttemptFailed(cfg, l.pending[device], now);
    if next.None? then
      GiveUp(l.(metrics := l.metrics.(failedExhausted := l.metrics.failedExhausted + 1)), device)
    else l.(pending := l.pending[device := next.value])
  }

  function Settle(cfg: Config, l: Ledger, device: DeviceId, id: nat, success: bool, now: Time): Ledger {
    if !l.Tracks(device, id) then Stale(l)
    else if success then Complete(l, device, now)
    else FailAttempt(cfg, l.(metrics := CountFailedAttempt(l.metrics, true)), device, now)
  }

  function Resend(cfg: Config, l: Ledger, device: DeviceId, now: Time, sent: SendResult): Ledger
    requires device in l.pending
  {
    var s := l.pending[device];
    if sent.Sent? then
      l.(pending := l.pending[device := Resent(cfg, s, now)],
         metrics := l.metrics.(resends := l.metrics.resends + 1),
         wire := l.wire + [Carried(device, Resent(cfg, s, now))])
    else GiveUp(l.(metrics := CountFailedSend(l.metrics, sent)), device)
  }

  /** One device's share of a sweep. */
  function SweepOne(cfg: Config, l: Ledger, device: DeviceId, now: Time, sent: SendResult): Ledger {
    if device !in l.pending || !Due(l.pending[device], now) then l
    else if l.pending[device].state.InFlight? then
      FailAttempt(cfg, l.(metrics := CountFailedAttempt(l.metrics, false)), device, now)
    else Resend(cfg, l, device, now, sent)
  }

  /** A sweep that visits the devices in the given order. */
  function Sweep(cfg: Config, l: Ledger, order: seq<DeviceId>, now: Time, sent: DeviceId -> SendResult): Ledger {
    if order == [] then l
    else
      var before := Sweep(cfg, l, order[..|order| - 1], now, sent);
      var last := order[|order| - 1];
      SweepOne(cfg, before, last, now, sent(last))
  }

  function Detached(s: Slot, sink: nat): Slot {
    if s.sink == Some(sink) then s.(sink := None) else s
  }

  function Detach(l: Ledger, sink: nat): Ledger {
    l.(pending := map d | d in l.pending :: Detached(l.pending[d], sink))
  }

  // ---------------------------------------------------------------------------------------------------------------
  // The accounting laws.

  lemma {:induction false} SumBump(xs: seq<nat>, i: nat)
    requires i < |xs|
    ensures Sum(xs[i := xs[i] + 1]) == Sum(xs) + 1
  {
    var ys, n := xs[i := xs[i] + 1], |xs| - 1;
    if i == n {
      assert ys[..n] == xs[..n];
    } else {
      SumBump(xs[..n], i);
      assert ys[..n] == xs[..n][i := xs[..n][i] + 1];
    }
  }

  function Failures(m: Metrics): nat {
    m.failedExhausted + m.failedOffline + m.failedEncode
  }

  /** Every first send that was accepted is accounted for once; every accepted send is a first one or a resend; every
      success has its round trip counted; every command given up was told to its sink or had none. */
  ghost predicate Accounts(m: Metrics, tracked: nat, sends: nat, notices: nat, orphaned: nat) {
    && m.dispatched == m.succeeded + Failures(m) + m.superseded + tracked
    && sends == m.dispatched + m.resends
    && Sum(m.rttBuckets) == m.succeeded
    && notices + orphaned == Failures(m)
  }

  ghost predicate Books(l: Ledger) {
    Accounts(l.metrics, |l.pending|, |l.wire|, |l.notices|, l.orphaned)
  }

  ghost predicate Balanced(cfg: Config, l: Ledger) {
    Books(l) && Disciplined(l.pending, l.wire, l.nextId) && Sparing(cfg, l.pending, l.wire)
  }

  lemma {:induction false} GiveUpBooks(l: Ledger, m: Metrics, device: DeviceId)
    requires Books(l) && device in l.pending
    requires m.dispatched == l.metrics.dispatched && m.succeeded == l.metrics.succeeded
    requires m.superseded == l.metrics.superseded && m.resends == l.metrics.resends
    requires m.rttBuckets == l.metrics.rttBuckets && Failures(m) == Failures(l.metrics) + 1
    ensures Books(GiveUp(l.(metrics := m), device))
  {
    SizeAfterUpdate(l.pending, device, l.pending[device]);
  }

  lemma {:induction false} CompleteBooks(l: Ledger, device: DeviceId, now: Time)
    requires Books(l) && device in l.pending
    ensures Books(Complete(l, device, now))
  {
    var us := Microseconds(now - l.pending[device].dispatchedAt);
    BucketIsLeastBound(us, 0);
    SumBump(l.metrics.rttBuckets, BucketFrom(us, 0));
    SizeAfterUpdate(l.pending, device, l.pending[device]);
  }

  lemma {:induction false} DispatchBooks(cfg: Config, l: Ledger, device: DeviceId, command: Command, now: Time,
                                         sink: Option<nat>, sent: SendResult)
    requires Books(l)
    ensures Books(Dispatch(cfg, l, device, command, now, sink, sent))
  {
    SizeAfterUpdate(l.pending, device, NewSlot(cfg, l.nextId, command, now, sink));
  }

  lemma {:induction false} DispatchBalances(cfg: Config, l: Ledger, device: DeviceId, command: Command, now: Time,
                                            sink: Option<nat>, sent: SendResult)
    requires Balanced(cfg, l)
    ensures Balanced(cfg, Dispatch(cfg, l, device, command, now, sink, sent))
  {
    var s := NewSlot(cfg, l.nextId, command, now, sink);
    DispatchBooks(cfg, l, device, command, now, sink, sent);
    if sent.Sent? {
      FirstSend(l.pending, l.wire, l.nextId, device, s);
      FirstSendCounts(cfg, l.pending, l.wire, l.nextId, device, s);
    } else {
      Forget(cfg, l.pending, l.wire, l.nextId, device, l.nextId + 1);
    }
  }

  lemma {:induction false} AcknowledgeBalances(cfg: Config, l: Ledger, device: DeviceId, id: nat, now: Time)
    requires Balanced(cfg, l)
    ensures Balanced(cfg, Acknowledge(cfg, l, device, id, now))
  {
    if l.Tracks(device, id) {
      var s := Acknowledged(cfg, l.pending[device], now);
      assert Counted(cfg, l.wire, l.pending[device]);
      SizeAfterUpdate(l.pending, device, s);
      Retouch(l.pending, l.wire, l.nextId, device, s);
      RetouchCounts(cfg, l.pending, l.wire, device, s);
    }
  }

  lemma {:induction false} FailAttemptBalances(cfg: Config, l: Ledger, device: DeviceId, now: Time)
    requires Balanced(cfg, l) && device in l.pending
    ensures Balanced(cfg, FailAttempt(cfg, l, device, now))
  {
    var next := AttemptFailed(cfg, l.pending[device], now);
    if next.None? {
      GiveUpBooks(l, l.metrics.(failedExhausted := l.metrics.failedExhausted + 1), device);
      Forget(cfg, l.pending, l.wire, l.nextId, device, l.nextId);
    } else {
      assert Counted(cfg, l.wire, l.pending[device]);
      SizeAfterUpdate(l.pending, device, next.value);
      Retouch(l.pending, l.wire, l.nextId, device, next.value);
      RetouchCounts(cfg, l.pending, l.wire, device, next.value);
    }
  }

  lemma {:induction false} ResendBalances(cfg: Config, l: Ledger, device: DeviceId, now: Time, sent: SendResult)
    requires Balanced(cfg, l) && device in l.pending && l.pending[device].state.Backoff?
    ensures Balanced(cfg, Resend(cfg, l, device, now, sent))
  {
    if sent.Sent? {
      var s := Resent(cfg, l.pending[device], now);
      SizeAfterUpdate(l.pending, device, s);
      AnotherSend(l.pending, l.wire, l.nextId, device, s);
      AnotherSendCounts(cfg, l.pending, l.wire, l.nextId, device, s);
    } else {
      GiveUpBooks(l, CountFailedSend(l.metrics, sent), device);
      Forget(cfg, l.pending, l.wire, l.nextId, device, l.nextId);
    }
  }

  lemma {:induction false} SettleBalances(cfg: Config, l: Ledger, device: DeviceId, id: nat, success: bool, now: Time)
    requires Balanced(cfg, l)
    ensures Balanced(cfg, Settle(cfg, l, device, id, success, now))
  {
    if l.Tracks(device, id) {
      if success {
        CompleteBooks(l, device, now);
        Forget(cfg, l.pending, l.wire, l.nextId, device, l.nextId);
      } else {
        FailAttemptBalances(cfg, l.(metrics := CountFailedAttempt(l.metrics, true)), device, now);
      }
    }
  }

  lemma {:induction false} SweepBalances(cfg: Config, l: Ledger, order: seq<DeviceId>, now: Time,
                                         sent: DeviceId -> SendResult)
    requires Balanced(cfg, l)
    ensures Balanced(cfg, Sweep(cfg, l, order, now, sent))
  {
    if order != [] {
      var n := |order| - 1;
      var before := Sweep(cfg, l, order[..n], now, sent);
      SweepBalances(cfg, l, order[..n], now, sent);
      if order[n] in before.pending && Due(before.pending[order[n]], now) {
        if before.pending[order[n]].state.InFlight? {
          FailAttemptBalances(cfg, before.(metrics := CountFailedAttempt(before.metrics, false)), order[n], now);
        } else {
          ResendBalances(cfg, before, order[n], now, sent(order[n]));
        }
      }
    }
  }

  lemma {:induction false} DetachBalances(cfg: Config, l: Ledger, sink: nat)
    requires Balanced(cfg, l)
    ensures Balanced(cfg, Detach(l, sink))
  {
    var detached := Detach(l, sink).pending;
    assert detached.Keys == l.pending.Keys;
    assert |detached| == |detached.Keys| == |l.pending.Keys| == |l.pending|;
    forall d | d in detached
      ensures Newest(l.wire, d, detached[d]) && Counted(cfg, l.wire, detached[d])
    {
      assert Newest(l.wire, d, l.pending[d]) && Counted(cfg, l.wire, l.pending[d]);
    }
  }

  /** Anything the rest of the controller can do to the service. */
  datatype Event =
    | DispatchEvent(device: DeviceId, command: Command, at: Time, sink: Option<nat>, sent: SendResult)
    | AckEvent(device: DeviceId, id: nat, at: Time)
    | OutcomeEvent(device: DeviceId, id: nat, success: bool, at: Time)
    | SweepEvent(order: seq<DeviceId>, at: Time, results: DeviceId -> SendResult)
    | DetachEvent(gone: nat)

  function Happens(cfg: Config, l: Ledger, e: Event): Ledger {
    match e
    case DispatchEvent(device, command, at, sink, sent) => Dispatch(cfg, l, device, command, at, sink, sent)
    case AckEvent(device, id, at) => Acknowledge(cfg, l, device, id, at)
    case OutcomeEvent(device, id, success, at) => Settle(cfg, l, device, id, success, at)
    case SweepEvent(order, at, results) => Sweep(cfg, l, order, at, results)
    case DetachEvent(gone) => Detach(l, gone)
  }

  lemma {:induction false} EmptyBalances(cfg: Config)
    ensures Balanced(cfg, EMPTY)
  {
  }

  lemma {:induction false} EventBalances(cfg: Config, l: Ledger, e: Event)
    requires Balanced(cfg, l)
    ensures Balanced(cfg, Happens(cfg, l, e))
  {
    match e
    case DispatchEvent(device, command, at, sink, sent) => DispatchBalances(cfg, l, device, command, at, sink, sent);
    case AckEvent(device, id, at) => AcknowledgeBalances(cfg, l, device, id, at);
    case OutcomeEvent(device, id, success, at) => SettleBalances(cfg, l, device, id, success, at);
    case SweepEvent(order, at, results) => SweepBalances(cfg, l, order, at, results);
    case DetachEvent(gone) => DetachBalances(cfg, l, gone);
  }

  function After(cfg: Config, events: seq<Event>): Ledger {
    if events == [] then EMPTY else Happens(cfg, After(cfg, events[..|events| - 1]), events[|events| - 1])
  }

  /** The accounting identity, the sending discipline and the bound on sends hold after every run. */
  lemma {:induction false} EveryRunBalances(cfg: Config, events: seq<Event>)
    ensures Balanced(cfg, After(cfg, events))
  {
    if events == [] {
      EmptyBalances(cfg);
    } else {
      var n := |events| - 1;
      EveryRunBalances(cfg, events[..n]);
      EventBalances(cfg, After(cfg, events[..n]), events[n]);
    }
  }

  // ---------------------------------------------------------------------------------------------------------------
  // A sweep does not depend on the order in which the devices are visited.

  /** Equal but for the order in which sends and notices were made. */
  ghost predicate Same(a: Ledger, b: Ledger) {
    && a.pending == b.pending && a.nextId == b.nextId && a.metrics == b.metrics && a.orphaned == b.orphaned
    && multiset(a.wire) == multiset(b.wire) && multiset(a.notices) == multiset(b.notices)
  }

  /** The share one device has in a sweep; it depends on the device's own slot alone. */
  datatype Share = Share(
    next: Option<Slot>, exhausted: nat, offline: nat, encode: nat, timeouts: nat, resends: nat,
    sends: Wire, told: seq<Notice>, silent: nat)

  function GivenUp(device: DeviceId, s: Slot, share: Share): Share {
    if s.sink.Some? then share.(next := None, told := [Notice(s.sink.value, device, s.id)])
    else share.(next := None, silent := 1)
  }

  function ShareOf(cfg: Config, device: DeviceId, s: Slot, now: Time, sent: SendResult): Share {
    var idle := Share(Some(s), 0, 0, 0, 0, 0, [], [], 0);
    if !Due(s, now) then idle
    else if s.state.InFlight? then
      (if Exhausted(cfg, s) then GivenUp(device, s, idle.(exhausted := 1, timeouts := 1))
       else idle.(next := AttemptFailed(cfg, s, now), timeouts := 1))
    else match sent
      case Sent =>
        idle.(next := Some(Resent(cfg, s, now)), resends := 1, sends := [Carried(device, Resent(cfg, s, now))])
      case Offline => GivenUp(device, s, idle.(offline := 1))
      case EncodeFailed => GivenUp(device, s, idle.(encode := 1))
  }

  function Put(pending: Tracked, device: DeviceId, next: Option<Slot>): Tracked {
    if next.Some? then pending[device := next.value] else pending - {device}
  }

  function Tally(m: Metrics, h: Share): Metrics {
    m.(failedExhausted := m.failedExhausted + h.exhausted, failedOffline := m.failedOffline + h.offline,
       failedEncode := m.failedEncode + h.encode, timeouts := m.timeouts + h.timeouts,
       resends := m.resends + h.resends)
  }

  function Add(l: Ledger, device: DeviceId, h: Share): Ledger {
    Ledger(Put(l.pending, device, h.next), l.nextId, Tally(l.metrics, h),
           l.wire + h.sends, l.notices + h.told, l.orphaned + h.silent)
  }

  lemma {:induction false} SweepOneAddsShare(cfg: Config, l: Ledger, device: DeviceId, now: Time, sent: SendResult)
    requires device in l.pending
    ensures SweepOne(cfg, l, device, now, sent) == Add(l, device, ShareOf(cfg, device, l.pending[device], now, sent))
  {
  }

  lemma {:induction false} AddCommutes(l: Ledger, a: DeviceId, h: Share, b: DeviceId, k: Share)
    requires a != b
    ensures Same(Add(Add(l, a, h), b, k), Add(Add(l, b, k), a, h))
  {
    assert Put(Put(l.pending, a, h.next), b, k.next) == Put(Put(l.pending, b, k.next), a, h.next);
  }

  lemma {:induction false} SweepOneCommutes(cfg: Config, l: Ledger, a: DeviceId, b: DeviceId, now: Time,
                                            sent: DeviceId -> SendResult)
    requires a != b
    ensures Same(SweepOne(cfg, SweepOne(cfg, l, a, now, sent(a)), b, now, sent(b)),
                 SweepOne(cfg, SweepOne(cfg, l, b, now, sent(b)), a, now, sent(a)))
  {
    if a in l.pending && b in l.pending {
      var h, k := ShareOf(cfg, a, l.pending[a], now, sent(a)), ShareOf(cfg, b, l.pending[b], now, sent(b));
      SweepOneAddsShare(cfg, l, a, now, sent(a));
      SweepOneAddsShare(cfg, l, b, now, sent(b));
      SweepOneAddsShare(cfg, Add(l, a, h), b, now, sent(b));
      SweepOneAddsShare(cfg, Add(l, b, k), a, now, sent(a));
      AddCommutes(l, a, h, b, k);
    } else if a in l.pending {
      SweepOneAddsShare(cfg, l, a, now, sent(a));
    } else if b in l.pending {
      SweepOneAddsShare(cfg, l, b, now, sent(b));
    }
  }

  lemma {:induction false} SweepOneRespectsSame(cfg: Config, a: Ledger, b: Ledger, d: DeviceId, now: Time,
                                                sent: SendResult)
    requires Same(a, b)
    ensures Same(SweepOne(cfg, a, d, now, sent), SweepOne(cfg, b, d, now, sent))
  {
    if d in a.pending {
      SweepOneAddsShare(cfg, a, d, now, sent);
      SweepOneAddsShare(cfg, b, d, now, sent);
    }
  }

  lemma SweptLast(cfg: Config, l: Ledger, order: seq<DeviceId>, d: DeviceId, now: Time, sent: DeviceId -> SendResult)
    ensures Sweep(cfg, l, order + [d], now, sent) == SweepOne(cfg, Sweep(cfg, l, order, now, sent), d, now, sent(d))
  {
    assert (order + [d])[..|order|] == order;
  }

  /** After the same ledgers, a device swept last could as well have been swept one place later. */
  lemma OnePlaceLater(cfg: Config, l: Ledger, k: Ledger, a: DeviceId, b: DeviceId, now: Time,
                      sent: DeviceId -> SendResult)
    requires a != b && Same(k, SweepOne(cfg, l, a, now, sent(a)))
    ensures Same(SweepOne(cfg, k, b, now, sent(b)), SweepOne(cfg, SweepOne(cfg, l, b, now, sent(b)), a, now, sent(a)))
  {
    SweepOneRespectsSame(cfg, k, SweepOne(cfg, l, a, now, sent(a)), b, now, sent(b));
    SweepOneCommutes(cfg, l, a, b, now, sent);
  }

  lemma {:induction false} SweepLastMovesBack(cfg: Config, l: Ledger, before: seq<DeviceId>, a: DeviceId,
                                              after: seq<DeviceId>, now: Time, sent: DeviceId -> SendResult)
    requires a !in after
    ensures Same(Sweep(cfg, l, before + [a] + after, now, sent), Sweep(cfg, l, before + after + [a], now, sent))
    decreases |after|
  {
    if after == [] {
      assert before + [a] + after == before + after + [a];
    } else {
      var n := |after| - 1;
      var rest, last := after[..n], after[n];
      SweepLastMovesBack(cfg, l, before, a, rest, now, sent);
      SweptLast(cfg, l, before + rest, a, now, sent);
      OnePlaceLater(cfg, Sweep(cfg, l, before + rest, now, sent), Sweep(cfg, l, before + [a] + rest, now, sent), a, last,
                    now, sent);
      SweptLast(cfg, l, before + [a] + rest, last, now, sent);
      SweptLast(cfg, l, before + rest, last, now, sent);
      SweptLast(cfg, l, before + rest + [last], a, now, sent);
      assert before + [a] + rest + [last] == before + [a] + after;
      assert before + rest + [last] == before + after;
    }
  }

  ghost predicate NoRepeats(order: seq<DeviceId>) {
    forall d :: multiset(order)[d] <= 1
  }

  lemma {:induction false} WithoutOne(order: seq<DeviceId>, i: nat)
    requires i < |order|
    ensures var rest := order[..i] + order[i + 1..];
            multiset(rest) == multiset(order) - multiset{order[i]} && |rest| == |order| - 1
    ensures NoRepeats(order) ==> NoRepeats(order[..i] + order[i + 1..])
    ensures NoRepeats(order) ==> order[i] !in order[..i] && order[i] !in order[i + 1..]
  {
    var rest := order[..i] + order[i + 1..];
    assert order == order[..i] + [order[i]] + order[i + 1..];
    assert multiset(order) == multiset(rest) + multiset{order[i]};
    if NoRepeats(order) {
      assert multiset(order)[order[i]] <= 1;
      assert order[i] !in multiset(rest);
      assert forall d :: multiset(rest)[d] <= multiset(order)[d];
    }
  }

  /** The last of p is somewhere in q; without it the two still have the same elements. */
  lemma LastOccurs(p: seq<DeviceId>, q: seq<DeviceId>) returns (i: nat)
    requires p != [] && NoRepeats(p) && NoRepeats(q) && multiset(p) == multiset(q)
    ensures i < |q| && q[i] == p[|p| - 1]
    ensures NoRepeats(p[..|p| - 1]) && NoRepeats(q[..i] + q[i + 1..])
    ensures multiset(p[..|p| - 1]) == multiset(q[..i] + q[i + 1..])
    ensures p[|p| - 1] !in q[..i] + q[i + 1..]
  {
    var n := |p| - 1;
    WithoutOne(p, n);
    assert p[..n] + p[n + 1..] == p[..n];
    assert p[n] in multiset(q);
    i :| 0 <= i < |q| && q[i] == p[n];
    WithoutOne(q, i);
  }

  /** Whatever order the hash table yields, one sweep leaves the same tracked commands and counters, and makes the
      same sends and the same notifications. */
  lemma {:induction false} SweepOrderIrrelevant(cfg: Config, l: Ledger, p: seq<DeviceId>, q: seq<DeviceId>, now: Time,
                                                sent: DeviceId -> SendResult)
    requires NoRepeats(p) && NoRepeats(q) && multiset(p) == multiset(q)
    ensures Same(Sweep(cfg, l, p, now, sent), Sweep(cfg, l, q, now, sent))
    decreases |p|
  {
    if p == [] {
      assert |multiset(q)| == |multiset(p)| == 0;
    } else {
      var n := |p| - 1;
      var a := p[n];
      var i := LastOccurs(p, q);
      var rest := q[..i] + q[i + 1..];
      SweepOrderIrrelevant(cfg, l, p[..n], rest, now, sent);
      SweepOneRespectsSame(cfg, Sweep(cfg, l, p[..n], now, sent), Sweep(cfg, l, rest, now, sent), a, now, sent(a));
      assert (rest + [a])[..|rest|] == rest;
      assert q == q[..i] + [a] + q[i + 1..];
      SweepLastMovesBack(cfg, l, q[..i], a, q[i + 1..], now, sent);
    }
  }

  /** What a sweep leaves of a device's command depends on that command alone. */
  predicate Alone(cfg: Config, before: Tracked, after: Tracked, d: DeviceId, visited: bool, now: Time,
                  sent: SendResult)
  {
    if visited && d in before
    then (if d in after then Some(after[d]) else None) == Swept(cfg, before[d], now, sent)
    else (d in after <==> d in before) && (d in after ==> after[d] == before[d])
  }

  lemma OneSweptAlone(cfg: Config, l: Ledger, d: DeviceId, e: DeviceId, now: Time, sent: SendResult)
    ensures Alone(cfg, l.pending, SweepOne(cfg, l, d, now, sent).pending, e, e == d, now, sent)
  {
  }

  /** A sweep treats each device on its own. */
  lemma {:induction false} SweepIsPointwise(cfg: Config, l: Ledger, order: seq<DeviceId>, now: Time,
                                            sent: DeviceId -> SendResult)
    requires NoRepeats(order)
    ensures forall d :: Alone(cfg, l.pending, Sweep(cfg, l, order, now, sent).pending, d, d in order, now, sent(d))
  {
    if order != [] {
      var n := |order| - 1;
      WithoutOne(order, n);
      assert order[..n] + order[n + 1..] == order[..n];
      SweepIsPointwise(cfg, l, order[..n], now, sent);
      var before := Sweep(cfg, l, order[..n], now, sent);
      forall d ensures Alone(cfg, l.pending, Sweep(cfg, l, order, now, sent).pending, d, d in order, now, sent(d)) {
        assert Alone(cfg, l.pending, before.pending, d, d in order[..n], now, sent(d));
        OneSweptAlone(cfg, before, order[n], d, now, sent(order[n]));
        assert d in order <==> d in order[..n] || d == order[n];
      }
    }
  }
}
