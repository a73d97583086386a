/** When a command is answered for, resent and given up, told by the times of the events and not by the deadlines the
    service keeps. */
module CommandTiming {
  import opened Basics
  import opened CommandSlots
  import opened CommandTraffic
  import opened CommandLedger

  function AfterFrom(cfg: Config, l: Ledger, events: seq<Event>): Ledger {
    if events == [] then l else Happens(cfg, AfterFrom(cfg, l, events[..|events| - 1]), events[|events| - 1])
  }

  /** The slot without its sink, which can be detached at any time. */
  function Bare(s: Slot): Slot {
    s.(sink := None)
  }

  function BareIn(l: Ledger, d: DeviceId): Option<Slot> {
    if d in l.pending then Some(Bare(l.pending[d])) else None
  }

  // ---- only the sweeps that visit it touch a command that is not answered or replaced ----

  type Visits = seq<(Time, SendResult)>

  function VisitsIn(order: seq<DeviceId>, at: Time, results: DeviceId -> SendResult, d: DeviceId): Visits {
    if order == [] then []
    else
      var n := |order| - 1;
      VisitsIn(order[..n], at, results, d) + (if order[n] == d then [(at, results(d))] else [])
  }

  function VisitsOf(events: seq<Event>, d: DeviceId): Visits {
    if events == [] then []
    else
      var front, e := VisitsOf(events[..|events| - 1], d), events[|events| - 1];
      front + (if e.SweepEvent? then VisitsIn(e.order, e.at, e.results, d) else [])
  }

  /** The event neither answers nor replaces the device's command with this id. */
  predicate Silent(e: Event, d: DeviceId, id: nat) {
    match e
    case DispatchEvent(device, _, _, _, _) => device != d
    case AckEvent(device, i, _) => device != d || i != id
    case OutcomeEvent(device, i, _, _) => device != d || i != id
    case _ => true
  }

  /** The slot a run of visits leaves. */
  function Visited(cfg: Config, s: Option<Slot>, visits: Visits): Option<Slot> {
    if s.None? then None else Unanswered(cfg, s.value, visits)
  }

  lemma {:induction false} VisitedSplits(cfg: Config, s: Option<Slot>, a: Visits, b: Visits)
    ensures Visited(cfg, s, a + b) == Visited(cfg, Visited(cfg, s, a), b)
    decreases |a|
  {
    if a == [] {
      assert a + b == b;
    } else if s.Some? {
      assert (a + b)[1..] == a[1..] + b;
      VisitedSplits(cfg, Swept(cfg, s.value, a[0].0, a[0].1), a[1..], b);
    }
  }

  lemma OneVisit(cfg: Config, s: Slot, now: Time, sent: SendResult)
    ensures Visited(cfg, Some(s), [(now, sent)]) == Swept(cfg, s, now, sent)
  {
    assert [(now, sent)][1..] == [];
    if Swept(cfg, s, now, sent).Some? {
      assert Unanswered(cfg, Swept(cfg, s, now, sent).value, []) == Swept(cfg, s, now, sent);
    }
  }

  lemma SweepOneVisits(cfg: Config, l: Ledger, c: DeviceId, now: Time, sent: SendResult, d: DeviceId)
    ensures BareIn(SweepOne(cfg, l, c, now, sent), d) ==
            if c == d then Visited(cfg, BareIn(l, d), [(now, sent)]) else BareIn(l, d)
  {
    if c == d && d in l.pending {
      OneVisit(cfg, Bare(l.pending[d]), now, sent);
    }
  }

  lemma NoVisit(cfg: Config, s: Option<Slot>)
    ensures Visited(cfg, s, []) == s
  {
  }

  lemma {:induction false} SweepVisits(cfg: Config, l: Ledger, order: seq<DeviceId>, now: Time,
                                       results: DeviceId -> SendResult, d: DeviceId)
    ensures BareIn(Sweep(cfg, l, order, now, results), d) ==
            Visited(cfg, BareIn(l, d), VisitsIn(order, now, results, d))
  {
    NoVisit(cfg, BareIn(l, d));
    if order != [] {
      var n := |order| - 1;
      var front := Sweep(cfg, l, order[..n], now, results);
      SweepVisits(cfg, l, order[..n], now, results, d);
      SweepOneVisits(cfg, front, order[n], now, results(order[n]), d);
      NoVisit(cfg, BareIn(front, d));
      assert order[n] != d ==> VisitsIn(order, now, results, d) == VisitsIn(order[..n], now, results, d);
      VisitedSplits(cfg, BareIn(l, d), VisitsIn(order[..n], now, results, d), [(now, results(d))]);
    }
  }

  lemma SilentEventVisits(cfg: Config, l: Ledger, e: Event, d: DeviceId, id: nat)
    requires Silent(e, d, id) && (d in l.pending ==> l.pending[d].id == id)
    ensures var l' := Happens(cfg, l, e);
            && BareIn(l', d) == Visited(cfg, BareIn(l, d), VisitsOf([e], d))
            && (d in l'.pending ==> l'.pending[d].id == id)
  {
    assert [e][..0] == [];
    if e.SweepEvent? {
      SweepVisits(cfg, l, e.order, e.at, e.results, d);
      assert VisitsOf([e], d) == [] + VisitsIn(e.order, e.at, e.results, d) == VisitsIn(e.order, e.at, e.results, d);
      VisitedKeepsId(cfg, BareIn(l, d), VisitsOf([e], d));
    } else {
      assert VisitsOf([e], d) == [];
      NoVisit(cfg, BareIn(l, d));
    }
  }

  lemma {:induction false} VisitedKeepsId(cfg: Config, s: Option<Slot>, visits: Visits)
    ensures var s' := Visited(cfg, s, visits);
            s'.Some? ==> s.Some? && s'.value.id == s.value.id && s'.value.dispatchedAt == s.value.dispatchedAt
                         && s'.value.command == s.value.command
    decreases |visits|
  {
    if visits != [] && s.Some? {
      VisitedKeepsId(cfg, Swept(cfg, s.value, visits[0].0, visits[0].1), visits[1..]);
    }
  }

  /** Over any silent stretch the command goes the way the visiting sweeps take it, whatever else happens. */
  lemma {:induction false} SilenceIsVisits(cfg: Config, l: Ledger, events: seq<Event>, d: DeviceId, id: nat)
    requires d in l.pending ==> l.pending[d].id == id
    requires forall i :: 0 <= i < |events| ==> Silent(events[i], d, id)
    ensures BareIn(AfterFrom(cfg, l, events), d) == Visited(cfg, BareIn(l, d), VisitsOf(events, d))
    ensures d in AfterFrom(cfg, l, events).pending ==> AfterFrom(cfg, l, events).pending[d].id == id
  {
    if events != [] {
      var n := |events| - 1;
      SilenceIsVisits(cfg, l, events[..n], d, id);
      SilentEventVisits(cfg, AfterFrom(cfg, l, events[..n]), events[n], d, id);
      var last := VisitsOf([events[n]], d);
      assert [events[n]][..0] == [];
      assert VisitsOf(events, d) == VisitsOf(events[..n], d) + last;
      VisitedSplits(cfg, BareIn(l, d), VisitsOf(events[..n], d), last);
    }
  }

  // ---- waiting for an answer ----

  /** A sweep that passes no device twice. */
  ghost predicate Fair(e: Event) {
    e.SweepEvent? && NoRepeats(e.order)
  }

  /** At time t the command of device d was dispatched, acknowledged, or put on the wire again. */
  ghost predicate Asked(cfg: Config, l: Ledger, e: Event, d: DeviceId, t: Time) {
    match e
    case DispatchEvent(device, _, at, _, sent) => device == d && at == t && sent.Sent?
    case AckEvent(device, id, at) => device == d && at == t && l.Tracks(d, id)
    case SweepEvent(_, at, _) =>
      var l' := Happens(cfg, l, e);
      Fair(e) && at == t && d in l.pending && d in l'.pending && l'.pending[d].attempts > l.pending[d].attempts
    case _ => false
  }

  lemma {:induction false} VisitedOnce(order: seq<DeviceId>, at: Time, results: DeviceId -> SendResult, d: DeviceId)
    requires NoRepeats(order)
    ensures VisitsIn(order, at, results, d) == if d in order then [(at, results(d))] else []
  {
    if order != [] {
      var n := |order| - 1;
      WithoutOne(order, n);
      assert order[..n] + order[n + 1..] == order[..n];
      VisitedOnce(order[..n], at, results, d);
    }
  }

  lemma AskedAwaits(cfg: Config, l: Ledger, e: Event, d: DeviceId, t: Time)
    requires Asked(cfg, l, e, d, t)
    ensures var l' := Happens(cfg, l, e);
            d in l'.pending && l'.pending[d].state.InFlight? && l'.pending[d].nextAt == t + cfg.timeout
  {
    if e.SweepEvent? {
      SweepVisits(cfg, l, e.order, e.at, e.results, d);
      VisitedOnce(e.order, e.at, e.results, d);
      OneVisit(cfg, Bare(l.pending[d]), e.at, e.results(d));
    }
  }

  /** These visits come no later than a time, and are followed by one that comes later. */
  predicate UpTo(visits: Visits, limit: Time) {
    forall i :: 0 <= i < |visits| ==> visits[i].0 <= limit
  }

  predicate LateAtLast(visits: Visits, limit: Time) {
    visits != [] && visits[|visits| - 1].0 > limit && UpTo(visits[..|visits| - 1], limit)
  }

  lemma {:induction false} NotDueYet(cfg: Config, s: Slot, visits: Visits)
    requires UpTo(visits, s.nextAt)
    ensures Visited(cfg, Some(s), visits) == Some(s)
    decreases |visits|
  {
    if visits != [] {
      assert visits[0].0 <= s.nextAt;
      assert forall i :: 0 <= i < |visits[1..]| ==> visits[1..][i] == visits[i + 1];
      NotDueYet(cfg, s, visits[1..]);
    }
  }

  lemma DueAtLast(cfg: Config, s: Slot, visits: Visits)
    requires LateAtLast(visits, s.nextAt)
    ensures var last := visits[|visits| - 1];
            Visited(cfg, Some(s), visits) == Swept(cfg, s, last.0, last.1) && Due(s, last.0)
  {
    var n := |visits| - 1;
    var last := visits[n];
    assert visits == visits[..n] + [last];
    NotDueYet(cfg, s, visits[..n]);
    VisitedSplits(cfg, Some(s), visits[..n], [last]);
    OneVisit(cfg, s, last.0, last.1);
  }

  /** A command that was dispatched, acknowledged or resent at t and is not answered: every sweep up to t + timeout
      leaves it alone; the first one after that fails its attempt, which gives it up or sets it back to be resent. */
  lemma AnswerIsAwaited(cfg: Config, l: Ledger, e: Event, t: Time, later: seq<Event>, d: DeviceId)
    requires Asked(cfg, l, e, d, t) && var asked := Happens(cfg, l, e);
             d in asked.pending && forall i :: 0 <= i < |later| ==> Silent(later[i], d, asked.pending[d].id)
    ensures var asked := Happens(cfg, l, e).pending[d];
            var now, visits := BareIn(AfterFrom(cfg, Happens(cfg, l, e), later), d), VisitsOf(later, d);
            && asked.state.InFlight?
            && (UpTo(visits, t + cfg.timeout) ==> now == Some(Bare(asked)))
            && (LateAtLast(visits, t + cfg.timeout) ==>
                  if asked.attempts >= cfg.maxAttempts then now == None
                  else now.Some? && now.value.state.Backoff? && now.value.attempts == asked.attempts)
  {
    AskedAwaits(cfg, l, e, d, t);
    var asked, visits := Happens(cfg, l, e), VisitsOf(later, d);
    var s := Bare(asked.pending[d]);
    SilenceIsVisits(cfg, asked, later, d, s.id);
    if UpTo(visits, s.nextAt) {
      NotDueYet(cfg, s, visits);
    }
    if LateAtLast(visits, s.nextAt) {
      DueAtLast(cfg, s, visits);
    }
  }

  // ---- waiting to be resent ----

  /** The wait after the k-th failed attempt: the base wait, doubled k - 1 times, but at most fifteen times. */
  function WaitAfter(cfg: Config, k: int): Time {
    cfg.backoffBase * Power2(if k - 1 > 15 then 15 else if k - 1 > 0 then k - 1 else 0)
  }

  /** At time t the attempt of device d's command failed, by the agent's word or by silence, and it is not given up. */
  ghost predicate Refused(cfg: Config, l: Ledger, e: Event, d: DeviceId, t: Time) {
    && d in l.pending && d in Happens(cfg, l, e).pending
    && match e
       case OutcomeEvent(device, id, success, at) => device == d && at == t && l.Tracks(d, id) && !success
       case SweepEvent(_, at, _) =>
         && Fair(e) && at == t && l.pending[d].state.InFlight? && Happens(cfg, l, e).pending[d].state.Backoff?
       case _ => false
  }

  lemma RefusedWaits(cfg: Config, l: Ledger, e: Event, d: DeviceId, t: Time)
    requires Refused(cfg, l, e, d, t)
    ensures var s := Happens(cfg, l, e).pending[d];
            && s.state.Backoff? && s.attempts == l.pending[d].attempts < cfg.maxAttempts
            && s.nextAt == t + WaitAfter(cfg, s.attempts)
  {
    if e.SweepEvent? {
      SweepVisits(cfg, l, e.order, e.at, e.results, d);
      VisitedOnce(e.order, e.at, e.results, d);
      OneVisit(cfg, Bare(l.pending[d]), e.at, e.results(d));
    }
  }

  /** A command whose k-th attempt failed at t, and which nobody answers: no sweep up to the end of its wait resends
      it; the first one after that puts it on the wire once more, or gives it up if it cannot be sent. */
  lemma ResendIsAwaited(cfg: Config, l: Ledger, e: Event, t: Time, later: seq<Event>, d: DeviceId)
    requires Refused(cfg, l, e, d, t) && var refused := Happens(cfg, l, e);
             forall i :: 0 <= i < |later| ==> Silent(later[i], d, refused.pending[d].id)
    ensures var refused, k := Happens(cfg, l, e).pending[d], l.pending[d].attempts;
            var now, visits := BareIn(AfterFrom(cfg, Happens(cfg, l, e), later), d), VisitsOf(later, d);
            && refused.state.Backoff? && refused.attempts == k
            && (UpTo(visits, t + WaitAfter(cfg, k)) ==> now == Some(Bare(refused)))
            && (LateAtLast(visits, t + WaitAfter(cfg, k)) ==>
                  if visits[|visits| - 1].1.Sent?
                  then now.Some? && now.value.state.InFlight? && now.value.attempts == k + 1
                  else now == None)
  {
    RefusedWaits(cfg, l, e, d, t);
    var refused, visits := Happens(cfg, l, e), VisitsOf(later, d);
    var s := Bare(refused.pending[d]);
    SilenceIsVisits(cfg, refused, later, d, s.id);
    if UpTo(visits, s.nextAt) {
      NotDueYet(cfg, s, visits);
    }
    if LateAtLast(visits, s.nextAt) {
      DueAtLast(cfg, s, visits);
    }
  }

  // ---- the whole time ----

  /** What the attempts after the k-th take at least: each waits to be resent, and then for its answer. */
  function RestTakes(cfg: Config, k: int): Time
    decreases cfg.maxAttempts - k
  {
    if k >= cfg.maxAttempts then 0 else WaitAfter(cfg, k) + cfg.timeout + RestTakes(cfg, k + 1)
  }

  /** No sweep up to this time gives the command up for want of an answer. */
  function Horizon(cfg: Config, s: Slot): Time {
    if s.state.InFlight? then s.nextAt + RestTakes(cfg, s.attempts)
    else s.nextAt + cfg.timeout + RestTakes(cfg, s.attempts + 1)
  }

  predicate AllSent(visits: Visits) {
    forall i :: 0 <= i < |visits| ==> visits[i].1.Sent?
  }

  lemma {:induction false} NotGivenUpYet(cfg: Config, s: Slot, visits: Visits)
    requires (s.state.Backoff? ==> s.attempts < cfg.maxAttempts) && AllSent(visits) && UpTo(visits, Horizon(cfg, s))
    ensures Visited(cfg, Some(s), visits).Some?
    decreases |visits|
  {
    if visits != [] {
      var next := Swept(cfg, s, visits[0].0, visits[0].1);
      assert visits[0].0 <= Horizon(cfg, s) && visits[0].1.Sent?;
      assert next.Some? && Horizon(cfg, next.value) >= Horizon(cfg, s);
      assert forall i :: 0 <= i < |visits[1..]| ==> visits[1..][i] == visits[i + 1];
      NotGivenUpYet(cfg, next.value, visits[1..]);
    }
  }

  /** A command dispatched at t that nobody answers, while sending works, is not given up by any sweep before its
      answer timeout for each attempt and the waits between the attempts have passed. */
  lemma SilenceTakesTime(cfg: Config, l: Ledger, command: Command, t: Time, sink: Option<nat>, later: seq<Event>,
                         d: DeviceId)
    requires forall i :: 0 <= i < |later| ==> Silent(later[i], d, l.nextId)
    requires AllSent(VisitsOf(later, d)) && UpTo(VisitsOf(later, d), t + cfg.timeout + RestTakes(cfg, 1))
    ensures var l' := AfterFrom(cfg, Happens(cfg, l, DispatchEvent(d, command, t, sink, Sent)), later);
            d in l'.pending && l'.pending[d].id == l.nextId
  {
    var e := DispatchEvent(d, command, t, sink, Sent);
    AskedAwaits(cfg, l, e, d, t);
    var asked := Happens(cfg, l, e);
    SilenceIsVisits(cfg, asked, later, d, l.nextId);
    NotGivenUpYet(cfg, Bare(asked.pending[d]), VisitsOf(later, d));
  }

  // ---- round trips ----

  lemma WholeMicroseconds(took: Time)
    requires 0 <= took < 1000 * U64
    ensures Microseconds(took) * 1000 <= took < (Microseconds(took) + 1) * 1000
  {
    assert took / 1000 < U64;
    assert Microseconds(took) == took / 1000;
  }

  ghost predicate Timed(m: Metrics, m': Metrics, took: Time, us: nat, b: nat) {
    && us * 1000 <= took < (us + 1) * 1000
    && m'.rttSum == (m.rttSum + us) % U64
    && b <= |RTT_BOUNDS|
    && (forall j :: 0 <= j < b ==> took >= (RTT_BOUNDS[j] + 1) * 1000)
    && (b < |RTT_BOUNDS| ==> took < (RTT_BOUNDS[b] + 1) * 1000)
    && m'.rttBuckets == m.rttBuckets[b := m.rttBuckets[b] + 1]
  }

  /** A completed command's round trip is the time since its dispatch in whole microseconds, rounded down; it counts
      in the first bucket whose bound the time does not exceed by a whole microsecond. */
  lemma CompletedRoundTrip(cfg: Config, l: Ledger, d: DeviceId, id: nat, now: Time) returns (us: nat, b: nat)
    requires l.Tracks(d, id) && 0 <= now - l.pending[d].dispatchedAt < 1000 * U64
    ensures Timed(l.metrics, Settle(cfg, l, d, id, true, now).metrics, now - l.pending[d].dispatchedAt, us, b)
  {
    var took := now - l.pending[d].dispatchedAt;
    us := Microseconds(took);
    WholeMicroseconds(took);
    BucketIsLeastBound(us, 0);
    b := BucketFrom(us, 0);
    var m' := Settle(cfg, l, d, id, true, now).metrics;
    assert forall j :: 0 <= j < b ==> us >= RTT_BOUNDS[j] + 1;
    assert b < |RTT_BOUNDS| ==> us + 1 <= RTT_BOUNDS[b] + 1;
    assert m'.rttSum == (l.metrics.rttSum + us) % U64;
    assert m'.rttBuckets == l.metrics.rttBuckets[b := l.metrics.rttBuckets[b] + 1];
  }

  /** A command's dispatch time stays what it was, however often it is resent. */
  lemma DispatchTimeStays(cfg: Config, l: Ledger, e: Event, d: DeviceId)
    requires d in l.pending && d in Happens(cfg, l, e).pending
    requires Happens(cfg, l, e).pending[d].id == l.pending[d].id && (e.DispatchEvent? ==> l.nextId != l.pending[d].id)
    ensures Happens(cfg, l, e).pending[d].dispatchedAt == l.pending[d].dispatchedAt
  {
    if e.SweepEvent? {
      SweepVisits(cfg, l, e.order, e.at, e.results, d);
      VisitedKeepsId(cfg, BareIn(l, d), VisitsIn(e.order, e.at, e.results, d));
    }
  }

  lemma DispatchTimeIsNoted(cfg: Config, l: Ledger, d: DeviceId, command: Command, t: Time, sink: Option<nat>)
    ensures var l' := Happens(cfg, l, DispatchEvent(d, command, t, sink, Sent));
            d in l'.pending && l'.pending[d].id == l.nextId && l'.pending[d].dispatchedAt == t
            && l'.pending[d].command == command
  {
  }
}
