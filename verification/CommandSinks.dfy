/** Who is told that a command was given up: the sink it was dispatched with, unless that was detached meanwhile. */
module CommandSinks {
  import opened Basics
  import opened CommandSlots
  import opened CommandLedger

  /** The sink the command with this id was dispatched with, as long as it has not been detached. */
  function Promised(cfg: Config, events: seq<Event>, id: nat): Option<nat> {
    if events == [] then None
    else
      var before, e := events[..|events| - 1], events[|events| - 1];
      var sink := Promised(cfg, before, id);
      match e
      case DispatchEvent(_, _, _, given, _) => if After(cfg, before).nextId == id then given else sink
      case DetachEvent(gone) => if sink == Some(gone) then None else sink
      case _ => sink
  }

  /** The commands that are still tracked have the sinks they had. */
  ghost predicate KeepsSinks(l: Ledger, l': Ledger) {
    && l'.nextId == l.nextId
    && forall d :: d in l'.pending ==>
         d in l.pending && l'.pending[d].id == l.pending[d].id && l'.pending[d].sink == l.pending[d].sink
  }

  /** This is told about a command tracked here, and to its sink. */
  predicate Told(l: Ledger, n: Notice) {
    l.Tracks(n.device, n.id) && l.pending[n.device].sink == Some(n.sink)
  }

  ghost predicate Tells(l: Ledger, l': Ledger) {
    l.notices <= l'.notices && forall i :: |l.notices| <= i < |l'.notices| ==> Told(l, l'.notices[i])
  }

  lemma VisitTells(cfg: Config, l: Ledger, d: DeviceId, now: Time, sent: SendResult)
    ensures KeepsSinks(l, SweepOne(cfg, l, d, now, sent)) && Tells(l, SweepOne(cfg, l, d, now, sent))
  {
  }

  lemma {:induction false} SweepTells(cfg: Config, l: Ledger, order: seq<DeviceId>, now: Time,
                                      sent: DeviceId -> SendResult)
    ensures KeepsSinks(l, Sweep(cfg, l, order, now, sent)) && Tells(l, Sweep(cfg, l, order, now, sent))
  {
    if order != [] {
      var n := |order| - 1;
      SweepTells(cfg, l, order[..n], now, sent);
      VisitTells(cfg, Sweep(cfg, l, order[..n], now, sent), order[n], now, sent(order[n]));
    }
  }

  lemma SettleTells(cfg: Config, l: Ledger, d: DeviceId, id: nat, success: bool, now: Time)
    ensures KeepsSinks(l, Settle(cfg, l, d, id, success, now)) && Tells(l, Settle(cfg, l, d, id, success, now))
  {
  }

  lemma EventTells(cfg: Config, l: Ledger, e: Event)
    ensures Tells(l, Happens(cfg, l, e))
    ensures !e.DispatchEvent? && !e.DetachEvent? ==> KeepsSinks(l, Happens(cfg, l, e))
  {
    match e
    case OutcomeEvent(d, id, success, at) => SettleTells(cfg, l, d, id, success, at);
    case SweepEvent(order, at, results) => SweepTells(cfg, l, order, at, results);
    case _ =>
  }

  /** After every run a tracked command has exactly the sink that was promised. */
  lemma {:induction false} TrackedAsPromised(cfg: Config, events: seq<Event>, d: DeviceId)
    requires d in After(cfg, events).pending
    ensures var l := After(cfg, events);
            l.pending[d].id < l.nextId && l.pending[d].sink == Promised(cfg, events, l.pending[d].id)
  {
    var before, e := events[..|events| - 1], events[|events| - 1];
    if d in After(cfg, before).pending {
      TrackedAsPromised(cfg, before, d);
    }
    EventTells(cfg, After(cfg, before), e);
  }

  /** Whoever was told that a command was given up was promised that: at some moment of the run the command was tracked
      for that device, and that sink was the one it had been dispatched with and had not been detached. */
  lemma {:induction false} ToldAsPromised(cfg: Config, events: seq<Event>, i: nat) returns (k: nat)
    requires i < |After(cfg, events).notices|
    ensures k < |events|
    ensures var n := After(cfg, events).notices[i];
            After(cfg, events[..k]).Tracks(n.device, n.id) && Promised(cfg, events[..k], n.id) == Some(n.sink)
  {
    var m := |events| - 1;
    var before := After(cfg, events[..m]);
    EventTells(cfg, before, events[m]);
    if i < |before.notices| {
      k := ToldAsPromised(cfg, events[..m], i);
      assert events[..m][..k] == events[..k];
    } else {
      k := m;
      var n := After(cfg, events).notices[i];
      assert Told(before, n);
      TrackedAsPromised(cfg, events[..m], n.device);
    }
  }

  ghost predicate NotGiven(events: seq<Event>, sink: nat) {
    forall i :: 0 <= i < |events| && events[i].DispatchEvent? ==> events[i].sink != Some(sink)
  }

  lemma {:induction false} NothingPromised(cfg: Config, events: seq<Event>, later: seq<Event>, sink: nat, id: nat)
    requires NotGiven(later, sink)
    ensures Promised(cfg, events + [DetachEvent(sink)] + later, id) != Some(sink)
  {
    var all := events + [DetachEvent(sink)] + later;
    var n := |later| - 1;
    if later == [] {
      assert all[..|all| - 1] == events;
    } else {
      assert all[..|all| - 1] == events + [DetachEvent(sink)] + later[..n];
      NothingPromised(cfg, events, later[..n], sink, id);
    }
  }

  /** A sink that was detached is told nothing any more, until it is given to another dispatch. */
  lemma {:induction false} DetachedIsToldNothing(cfg: Config, events: seq<Event>, later: seq<Event>, sink: nat)
    requires NotGiven(later, sink)
    ensures var told := After(cfg, events).notices;
            var all := After(cfg, events + [DetachEvent(sink)] + later).notices;
            told <= all && forall i :: |told| <= i < |all| ==> all[i].sink != sink
  {
    var all := events + [DetachEvent(sink)] + later;
    var n := |later| - 1;
    if later == [] {
      assert all[..|all| - 1] == events;
    } else {
      var before := events + [DetachEvent(sink)] + later[..n];
      assert all[..|all| - 1] == before;
      DetachedIsToldNothing(cfg, events, later[..n], sink);
      EventTells(cfg, After(cfg, before), later[n]);
      forall i | |After(cfg, before).notices| <= i < |After(cfg, all).notices|
        ensures After(cfg, all).notices[i].sink != sink
      {
        var notice := After(cfg, all).notices[i];
        assert Told(After(cfg, before), notice);
        TrackedAsPromised(cfg, before, notice.device);
        NothingPromised(cfg, events, later[..n], sink, notice.id);
      }
    }
  }
}
