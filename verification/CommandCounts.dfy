/** Every counter of the command service counts exactly the happenings it is named for. */
module CommandCounts {
  import opened Basics
  import opened CommandSlots
  import opened CommandLedger

  /** What can happen to a command. */
  datatype Happening =
    | FirstSent | NotSentOffline | NotSentEncoding | Replaced
    | Done | RefusedByAgent | TimedOut | SentAgain
    | LostOffline | LostEncoding | LostAttempts
    | AnsweredStale

  type Happenings = multiset<Happening>

  function OfDispatch(l: Ledger, d: DeviceId, sent: SendResult): Happenings {
    (if d in l.pending then multiset{Replaced} else multiset{})
    + (match sent
       case Sent => multiset{FirstSent}
       case Offline => multiset{NotSentOffline}
       case EncodeFailed => multiset{NotSentEncoding})
  }

  /** A failed attempt is the last one if as many have been made as are allowed. */
  function LastAttempt(cfg: Config, s: Slot): Happenings {
    if s.attempts >= cfg.maxAttempts then multiset{LostAttempts} else multiset{}
  }

  function OfOutcome(cfg: Config, l: Ledger, d: DeviceId, id: nat, success: bool): Happenings {
    if !l.Tracks(d, id) then multiset{AnsweredStale}
    else if success then multiset{Done}
    else multiset{RefusedByAgent} + LastAttempt(cfg, l.pending[d])
  }

  function OfVisit(cfg: Config, l: Ledger, d: DeviceId, now: Time, sent: SendResult): Happenings {
    if d !in l.pending || now <= l.pending[d].nextAt then multiset{}
    else if l.pending[d].state.InFlight? then multiset{TimedOut} + LastAttempt(cfg, l.pending[d])
    else
      match sent
      case Sent => multiset{SentAgain}
      case Offline => multiset{LostOffline}
      case EncodeFailed => multiset{LostEncoding}
  }

  function OfSweep(cfg: Config, l: Ledger, order: seq<DeviceId>, now: Time, sent: DeviceId -> SendResult): Happenings {
    if order == [] then multiset{}
    else
      var n := |order| - 1;
      OfSweep(cfg, l, order[..n], now, sent)
      + OfVisit(cfg, Sweep(cfg, l, order[..n], now, sent), order[n], now, sent(order[n]))
  }

  function OfEvent(cfg: Config, l: Ledger, e: Event): Happenings {
    match e
    case DispatchEvent(d, _, _, _, sent) => OfDispatch(l, d, sent)
    case AckEvent(d, id, _) => if l.Tracks(d, id) then multiset{} else multiset{AnsweredStale}
    case OutcomeEvent(d, id, success, _) => OfOutcome(cfg, l, d, id, success)
    case SweepEvent(order, at, results) => OfSweep(cfg, l, order, at, results)
    case DetachEvent(_) => multiset{}
  }

  function OfRun(cfg: Config, events: seq<Event>): Happenings {
    if events == [] then multiset{}
    else
      var n := |events| - 1;
      OfRun(cfg, events[..n]) + OfEvent(cfg, After(cfg, events[..n]), events[n])
  }

  /** These counters have grown by these happenings. */
  predicate Grown(m: Metrics, m': Metrics, h: Happenings) {
    && m'.dispatched == m.dispatched + h[FirstSent]
    && m'.dispatchOffline == m.dispatchOffline + h[NotSentOffline]
    && m'.dispatchEncode == m.dispatchEncode + h[NotSentEncoding]
    && m'.superseded == m.superseded + h[Replaced]
    && m'.succeeded == m.succeeded + h[Done]
    && m'.agentFailures == m.agentFailures + h[RefusedByAgent]
    && m'.timeouts == m.timeouts + h[TimedOut]
    && m'.resends == m.resends + h[SentAgain]
    && m'.failedOffline == m.failedOffline + h[LostOffline]
    && m'.failedEncode == m.failedEncode + h[LostEncoding]
    && m'.failedExhausted == m.failedExhausted + h[LostAttempts]
    && m'.stale == m.stale + h[AnsweredStale]
  }

  lemma VisitGrows(cfg: Config, l: Ledger, d: DeviceId, now: Time, sent: SendResult)
    ensures Grown(l.metrics, SweepOne(cfg, l, d, now, sent).metrics, OfVisit(cfg, l, d, now, sent))
  {
  }

  lemma {:induction false} SweepGrows(cfg: Config, l: Ledger, order: seq<DeviceId>, now: Time,
                                      sent: DeviceId -> SendResult)
    ensures Grown(l.metrics, Sweep(cfg, l, order, now, sent).metrics, OfSweep(cfg, l, order, now, sent))
  {
    if order != [] {
      var n := |order| - 1;
      SweepGrows(cfg, l, order[..n], now, sent);
      VisitGrows(cfg, Sweep(cfg, l, order[..n], now, sent), order[n], now, sent(order[n]));
    }
  }

  lemma DispatchGrows(cfg: Config, l: Ledger, d: DeviceId, command: Command, at: Time, sink: Option<nat>,
                      sent: SendResult)
    ensures Grown(l.metrics, Dispatch(cfg, l, d, command, at, sink, sent).metrics, OfDispatch(l, d, sent))
  {
  }

  lemma OutcomeGrows(cfg: Config, l: Ledger, d: DeviceId, id: nat, success: bool, at: Time)
    ensures Grown(l.metrics, Settle(cfg, l, d, id, success, at).metrics, OfOutcome(cfg, l, d, id, success))
  {
  }

  lemma EventGrows(cfg: Config, l: Ledger, e: Event)
    ensures Grown(l.metrics, Happens(cfg, l, e).metrics, OfEvent(cfg, l, e))
  {
    match e
    case DispatchEvent(d, command, at, sink, sent) => DispatchGrows(cfg, l, d, command, at, sink, sent);
    case OutcomeEvent(d, id, success, at) => OutcomeGrows(cfg, l, d, id, success, at);
    case SweepEvent(order, at, results) => SweepGrows(cfg, l, order, at, results);
    case _ =>
  }

  /** After every run each counter is the number of its happenings. */
  lemma {:induction false} CountersCount(cfg: Config, events: seq<Event>)
    ensures Grown(EMPTY.metrics, After(cfg, events).metrics, OfRun(cfg, events))
  {
    if events != [] {
      var n := |events| - 1;
      CountersCount(cfg, events[..n]);
      EventGrows(cfg, After(cfg, events[..n]), events[n]);
    }
  }
}
