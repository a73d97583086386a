/** The history of calls the transport makes into the application, one connection at a time. */
module Callbacks {
  import opened Basics

  datatype Callback =
    | Opened(conn: ConnectionId)
    | Delivered(conn: ConnectionId)
    | Ended(conn: ConnectionId)

  /** Where a connection is in its life, as far as the application has been told. */
  datatype Life = Unseen | Open | Over | Broken

  function LifeStep(l: Life, k: Callback, c: ConnectionId): Life {
    if k.conn != c then l
    else match k
      case Opened(_) => if l.Unseen? then Open else Broken
      case Delivered(_) => if l.Open? then Open else Broken
      case Ended(_) => if l.Open? then Over else Broken
  }

  function LifeOf(calls: seq<Callback>, c: ConnectionId): Life {
    if calls == [] then Unseen
    else LifeStep(LifeOf(calls[..|calls| - 1], c), calls[|calls| - 1], c)
  }

  lemma {:induction false} LifeOfAppend(calls: seq<Callback>, k: Callback, c: ConnectionId)
    ensures LifeOf(calls + [k], c) == LifeStep(LifeOf(calls, c), k, c)
  {
    assert (calls + [k])[..|calls|] == calls;
  }

  lemma {:induction false} BrokenStaysBroken(calls: seq<Callback>, n: nat, c: ConnectionId)
    requires n <= |calls| && LifeOf(calls[..n], c).Broken?
    ensures LifeOf(calls, c).Broken?
    decreases |calls| - n
  {
    if n < |calls| {
      assert calls[..n + 1][..n] == calls[..n];
      BrokenStaysBroken(calls, n + 1, c);
    } else {
      assert calls[..n] == calls;
    }
  }

  lemma {:induction false} OverStaysOver(calls: seq<Callback>, m: nat, n: nat, c: ConnectionId)
    requires m <= n <= |calls| && LifeOf(calls[..m], c).Over? && !LifeOf(calls[..n], c).Broken?
    ensures LifeOf(calls[..n], c).Over?
    decreases n - m
  {
    if m < n {
      assert calls[..m + 1][..m] == calls[..m];
      if LifeOf(calls[..m + 1], c).Broken? {
        assert calls[..n][..m + 1] == calls[..m + 1];
        BrokenStaysBroken(calls[..n], m + 1, c);
      } else {
        OverStaysOver(calls, m + 1, n, c);
      }
    }
  }

  /** An unbroken life is one opening first, messages, and at most one ending last. */
  lemma {:induction false} EndedOnceAndLast(calls: seq<Callback>, c: ConnectionId, i: nat, j: nat)
    requires !LifeOf(calls, c).Broken? && i < j < |calls| && calls[i].conn == calls[j].conn == c
    ensures !calls[i].Ended? && !calls[j].Opened?
  {
    forall n: nat | n <= |calls|
      ensures !LifeOf(calls[..n], c).Broken?
    {
      if LifeOf(calls[..n], c).Broken? {
        BrokenStaysBroken(calls, n, c);
      }
    }
    assert calls[..i + 1][..i] == calls[..i] && calls[..j + 1][..j] == calls[..j];
    if calls[i].Ended? {
      OverStaysOver(calls, i + 1, j, c);
    }
    if calls[j].Opened? {
      UnseenWasUnseen(calls, i + 1, j, c);
    }
  }

  lemma {:induction false} UnseenWasUnseen(calls: seq<Callback>, m: nat, n: nat, c: ConnectionId)
    requires m <= n <= |calls| && LifeOf(calls[..n], c).Unseen?
    ensures LifeOf(calls[..m], c).Unseen?
    decreases n - m
  {
    if m < n {
      assert calls[..n][..n - 1] == calls[..n - 1];
      UnseenWasUnseen(calls, m, n - 1, c);
    }
  }

  /** A life that is over was opened and was ended. */
  lemma {:induction false} OverWasEnded(calls: seq<Callback>, c: ConnectionId)
    requires LifeOf(calls, c).Over?
    ensures Ended(c) in calls && Opened(c) in calls
  {
    var n := |calls| - 1;
    assert calls == calls[..n] + [calls[n]];
    if calls[n].conn != c {
      OverWasEnded(calls[..n], c);
    } else {
      OpenWasOpened(calls[..n], c);
    }
  }

  lemma {:induction false} OpenWasOpened(calls: seq<Callback>, c: ConnectionId)
    requires LifeOf(calls, c).Open?
    ensures Opened(c) in calls
  {
    var n := |calls| - 1;
    assert calls == calls[..n] + [calls[n]];
    if calls[n].conn != c || calls[n].Delivered? {
      OpenWasOpened(calls[..n], c);
    }
  }

  /** How often messages of a connection were handed over. */
  function Deliveries(calls: seq<Callback>, c: ConnectionId): nat {
    if calls == [] then 0
    else Deliveries(calls[..|calls| - 1], c) + if calls[|calls| - 1] == Delivered(c) then 1 else 0
  }

  /** Since then only endings were announced. */
  ghost predicate OnlyEndings(before: seq<Callback>, after: seq<Callback>) {
    before <= after && forall i :: |before| <= i < |after| ==> after[i].Ended?
  }

  lemma {:induction false} EndingsDeliverNothing(before: seq<Callback>, after: seq<Callback>, c: ConnectionId)
    requires OnlyEndings(before, after)
    ensures Deliveries(after, c) == Deliveries(before, c)
    decreases |after|
  {
    if |after| == |before| {
      assert after == before;
    } else {
      var front := after[..|after| - 1];
      assert OnlyEndings(before, front);
      EndingsDeliverNothing(before, front, c);
    }
  }

  lemma DeliveredOnce(calls: seq<Callback>, c: ConnectionId)
    ensures Deliveries(calls + [Delivered(c)], c) == Deliveries(calls, c) + 1
  {
    assert (calls + [Delivered(c)])[..|calls|] == calls;
  }
}
