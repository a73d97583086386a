/** The timer service: heap, slot table and the one armed deadline, as one map from live tokens to timers. */
module TimerSchedulers {
  import opened Basics
  import opened TimerHistory
  import opened TimerQueues
  import opened TimerRegistries

  /** What a callback may do. */
  datatype Action =
    | ScheduleAt(deadline: int, handler: Handler)
    | Cancel(id: Token)
    | Start
    | Stop

  ghost predicate OnlyLater(actions: seq<Action>, now: int) {
    forall a :: a in actions && a.ScheduleAt? ==> a.deadline > now
  }

  /** One action leaves one event, or none if it starts or stops the scheduler. */
  ghost predicate Step(a: Action, before: seq<Event>, h: seq<Event>) {
    match a
    case ScheduleAt(deadline, handler) =>
      && before <= h && |h| == |before| + 1 && h[|before|].Scheduled?
      && h[|before|].deadline == deadline && h[|before|].handler == handler
    case Cancel(id) => h == before + [Cancelled(id)]
    case _ => h == before
  }

  /** These events are what the actions do, one by one. */
  ghost predicate Does(actions: seq<Action>, start: seq<Event>, h: seq<Event>)
    decreases |actions|, 1
  {
    if actions == [] then h == start
    else exists before :: DoesVia(actions, start, before, h)
  }

  ghost predicate DoesVia(actions: seq<Action>, start: seq<Event>, before: seq<Event>, h: seq<Event>)
    requires actions != []
    decreases |actions|, 0
  {
    Does(actions[..|actions| - 1], start, before) && Step(actions[|actions| - 1], before, h)
  }

  lemma DoesOneMore(actions: seq<Action>, i: nat, start: seq<Event>, before: seq<Event>, h: seq<Event>)
    requires i < |actions| && Does(actions[..i], start, before) && Step(actions[i], before, h)
    ensures Does(actions[..i + 1], start, h)
  {
    var more := actions[..i + 1];
    assert more[..|more| - 1] == actions[..i] && more[|more| - 1] == actions[i];
    assert DoesVia(more, start, before, h);
  }

  /** Actions fire nothing, and schedule only what they say. */
  lemma {:induction false} DoesOnly(actions: seq<Action>, start: seq<Event>, h: seq<Event>, now: int)
    requires Does(actions, start, h)
    ensures start <= h && forall j :: |start| <= j < |h| ==> !h[j].Fired?
    ensures OnlyLater(actions, now) ==> LaterOnly(h, |start|, now)
  {
    if actions != [] {
      var n := |actions| - 1;
      var before :| DoesVia(actions, start, before, h);
      DoesOnly(actions[..n], start, before, now);
      forall j | |start| <= j < |h|
        ensures !h[j].Fired? && (OnlyLater(actions, now) && h[j].Scheduled? ==> h[j].deadline > now)
      {
        assert j < |before| ==> h[j] == before[j];
        assert actions[n] in actions;
        assert OnlyLater(actions, now) ==> OnlyLater(actions[..n], now);
      }
    }
  }

  /** Whether the scheduler is active after the actions. */
  function ActiveAfter(actions: seq<Action>, active: bool): bool {
    if actions == [] then active
    else
      var a := actions[|actions| - 1];
      if a.Start? then true else if a.Stop? then false else ActiveAfter(actions[..|actions| - 1], active)
  }

  /** What the n-th callback of a dispatch does; from some callback on, nothing is scheduled that is due already. */
  type Script = nat -> seq<Action>

  /** Whether the scheduler is active after so many callbacks. */
  ghost predicate ActiveThrough(script: Script, calls: nat, active: bool) {
    if calls == 0 then active else ActiveAfter(script(calls - 1), ActiveThrough(script, calls - 1, active))
  }

  /** Only the last of so many callbacks may have left it inactive. */
  ghost predicate StoppedLast(script: Script, calls: nat, active: bool) {
    calls > 1 ==> ActiveThrough(script, calls - 1, active) && StoppedLast(script, calls - 1, active)
  }

  ghost predicate QuietFrom(script: Script, bound: nat, now: int) {
    forall n: nat :: n >= bound ==> OnlyLater(script(n), now)
  }

  /** The deadline to be woken at. */
  ghost predicate NextIs(live: map<Token, Timer>, d: Option<int>) {
    && (d.None? ==> live == map[])
    && (d.Some? ==> (exists id :: id in live && live[id].deadline == d.value)
                    && forall id :: id in live ==> live[id].deadline >= d.value)
  }

  /** Slot table and history tell the same, and every token of the history came from the table. */
  ghost predicate TableAgrees(table: Table, history: seq<Event>) {
    && FromTable(history) && table == TableAfter(history)
    && (forall t: Token :: Resolved(table.slots, t) ==
                           if t in Live(history) then Some(Live(history)[t].handler) else None)
    && (forall t: Token :: Issued(table.slots, t) <==> EverScheduled(history, t))
  }

  /** Every waiting timer is in the heap; the heap may also hold ended tokens. */
  ghost predicate HeapAgrees(heap: seq<Entry>, slots: seq<Slot>, live: map<Token, Timer>) {
    && (forall t :: t in live ==> Entry(live[t].deadline, t) in heap)
    && (forall e :: e in heap ==> Issued(slots, e.id))
    && (forall e :: e in heap && e.id in live ==> e.deadline == live[e.id].deadline)
  }

  ghost predicate FrontIsNext(live: map<Token, Timer>, top: Option<Entry>) {
    && (top.None? ==> live == map[])
    && (top.Some? ==> Least(live, top.value.id) && live[top.value.id].deadline == top.value.deadline
                      && NextIs(live, Some(top.value.deadline)))
  }

  lemma LeastOfHeap(heap: seq<Entry>, slots: seq<Slot>, live: map<Token, Timer>, top: Entry)
    requires HeapAgrees(heap, slots, live) && top in heap && top.id in live
    requires forall e :: e in heap ==> AtMost(top, e)
    ensures Least(live, top.id) && live[top.id].deadline == top.deadline && NextIs(live, Some(top.deadline))
  {
    forall k | k in live ensures AtMost(top, Entry(live[k].deadline, k)) {
    }
    forall id | id in live ensures live[id].deadline >= top.deadline {
      assert AtMost(top, Entry(live[id].deadline, id));
    }
  }

  lemma HeapAfterPush(before: seq<Entry>, after: seq<Entry>, e: Entry)
    requires multiset(after) == multiset(before) + multiset{e}
    ensures forall x :: x in after <==> x in before || x == e
  {
    forall x ensures x in after <==> x in before || x == e {
      assert x in after <==> x in multiset(after);
      assert x in before <==> x in multiset(before);
    }
  }

  lemma HeapAfterPop(before: seq<Entry>, after: seq<Entry>, e: Entry)
    requires multiset(before) == multiset(after) + multiset{e}
    ensures |before| == |after| + 1
    ensures forall x :: x in before <==> x in after || x == e
  {
    HeapAfterPush(after, before, e);
    assert |multiset(before)| == |before| && |multiset(after)| == |after|;
  }

  /** A scheduled event's id is the one new id. */
  lemma EverScheduledAfter(h: seq<Event>, e: Event)
    ensures forall t: Token :: EverScheduled(h + [e], t) <==> EverScheduled(h, t) || (e.Scheduled? && e.id == t)
  {
    forall t: Token
      ensures EverScheduled(h + [e], t) <==> EverScheduled(h, t) || (e.Scheduled? && e.id == t)
    {
      var g := h + [e];
      assert g[|h|] == e;
      if EverScheduled(h, t) {
        var i :| 0 <= i < |h| && h[i].Scheduled? && h[i].id == t;
        assert g[i] == h[i];
      }
      if EverScheduled(g, t) {
        var i :| 0 <= i < |g| && g[i].Scheduled? && g[i].id == t;
        assert i < |h| ==> g[i] == h[i];
      }
    }
  }

  function Due(live: map<Token, Timer>, now: int): set<Token> {
    set id | id in live && live[id].deadline <= now
  }

  ghost function Left(h: seq<Event>, now: int): nat {
    |Due(Live(h), now)|
  }

  lemma DueShrinks(h: seq<Event>, n: nat, now: int)
    requires n <= |h| && LaterOnly(h, n, now)
    ensures Due(Live(h), now) <= Due(Live(h[..n]), now)
  {
    assert h[..|h|] == h;
    forall id | id in Due(Live(h), now) ensures id in Due(Live(h[..n]), now) {
      DueSinceStart(h, n, |h|, now, id);
    }
  }

  lemma SmallerSet(a: set<Token>, b: set<Token>, x: Token)
    requires a <= b - {x} && x in b
    ensures |a| < |b|
  {
    Cardinal(a, b - {x});
  }

  lemma {:induction false} Cardinal(a: set<Token>, b: set<Token>)
    requires a <= b
    ensures |a| <= |b|
  {
    if a != {} {
      var x :| x in a;
      Cardinal(a - {x}, b - {x});
    }
  }

  lemma NextAfterSchedule(live: map<Token, Timer>, d: int, id: Token, timer: Timer)
    requires NextIs(live, Some(d)) && id !in live && timer.deadline >= d
    ensures NextIs(live[id := timer], Some(d))
  {
    var k :| k in live && live[k].deadline == d;
    assert live[id := timer][k].deadline == d;
  }

  /** Cancelling a timer that was not the next one leaves the next deadline, and cancelling nothing leaves it, too. */
  lemma NextAfterCancel(live: map<Token, Timer>, top: Option<Entry>, id: Token, d: Option<int>)
    requires FrontIsNext(live, top) && NextIs(live, d) && !(top.Some? && top.value.id == id && id in live)
    ensures NextIs(live - {id}, d)
  {
    if top.None? || id !in live {
      assert live - {id} == live;
    } else {
      var k :| k in live && live[k].deadline == d.value;
      assert AtMost(Entry(live[top.value.id].deadline, top.value.id), Entry(live[k].deadline, k));
      assert (live - {id})[top.value.id].deadline == d.value;
    }
  }

  lemma TableAfterInsert(before: Table, after: Table, h: seq<Event>, e: Event)
    requires TableAgrees(before, h) && e.Scheduled? && e.id == NextToken(before) && after == Inserted(before, e.handler)
    requires !Issued(before.slots, e.id) && Issued(after.slots, e.id) && Resolved(after.slots, e.id) == Some(e.handler)
    requires forall t: Token :: t != e.id ==> Resolved(after.slots, t) == Resolved(before.slots, t)
    requires forall t: Token :: t != e.id ==> Issued(after.slots, t) == Issued(before.slots, t)
    requires Legal(h)
    ensures TableAgrees(after, h + [e]) && Legal(h + [e]) && Live(h + [e]) == After(Live(h), e) && e.id !in Live(h)
  {
    assert !EverScheduled(h, e.id);
    LegalStep(h, e);
    EverScheduledAfter(h, e);
    FromTableStep(h, e);
    assert e.id !in Live(h) by {
      assert Resolved(before.slots, e.id) == None;
    }
  }

  /** Likewise for a cancelled or fired token, and for a cancel that finds nothing. */
  lemma TableAfterEnd(before: Table, after: Table, h: seq<Event>, e: Event)
    requires TableAgrees(before, h) && Legal(h) && !e.Scheduled? && Allowed(h, e)
    requires after == Released(before, e.id) && Resolved(after.slots, e.id) == None
    requires forall t: Token :: t != e.id ==> Resolved(after.slots, t) == Resolved(before.slots, t)
    requires forall t: Token :: Issued(after.slots, t) == Issued(before.slots, t)
    ensures TableAgrees(after, h + [e]) && Legal(h + [e]) && Live(h + [e]) == After(Live(h), e)
  {
    LegalStep(h, e);
    EverScheduledAfter(h, e);
    FromTableStep(h, e);
  }

  lemma HeapAfterSchedule(before: seq<Entry>, after: seq<Entry>, s: seq<Slot>, t: seq<Slot>, live: map<Token, Timer>,
                          e: Event)
    requires HeapAgrees(before, s, live) && e.Scheduled? && !Issued(s, e.id) && Issued(t, e.id)
    requires forall id: Token :: id != e.id ==> Issued(t, id) == Issued(s, id)
    requires forall x :: x in after <==> x in before || x == Entry(e.deadline, e.id)
    ensures HeapAgrees(after, t, After(live, e))
  {
  }

  /** An ended token may stay in the heap, or be the one entry that was taken out. */
  lemma HeapAfterEnd(before: seq<Entry>, after: seq<Entry>, s: seq<Slot>, t: seq<Slot>, live: map<Token, Timer>,
                     id: Token)
    requires HeapAgrees(before, s, live)
    requires forall k: Token :: Issued(t, k) == Issued(s, k)
    requires forall x :: x in after ==> x in before
    requires forall x :: x in before && x.id != id ==> x in after
    ensures HeapAgrees(after, t, live - {id})
  {
  }

  lemma HeapAfterFiring(before: seq<Entry>, after: seq<Entry>, e: Entry, s: seq<Slot>, t: seq<Slot>,
                        live: map<Token, Timer>)
    requires HeapAgrees(before, s, live) && multiset(before) == multiset(after) + multiset{e}
    requires forall k: Token :: Issued(t, k) == Issued(s, k)
    ensures HeapAgrees(after, t, live - {e.id})
  {
    HeapAfterPop(before, after, e);
    HeapAfterEnd(before, after, s, t, live, e.id);
  }

  /** A timer that was due has fired. */
  ghost predicate Took(before: seq<Event>, taken: seq<Event>, now: int) {
    && |taken| == |before| + 1 && before <= taken
    && (var e := taken[|before|];
        && e.Fired? && e.id in Live(before) && Live(before)[e.id].deadline <= now
        && e.handler == Live(before)[e.id].handler && Live(taken) == Live(before) - {e.id})
  }

  /** Taking the due front of the heap fires it. */
  lemma FiringFront(heap: seq<Entry>, rest: seq<Entry>, front: Entry, s: Table, t: Table, h: seq<Event>, e: Event,
                    now: int)
    requires TableAgrees(s, h) && HeapAgrees(heap, s.slots, Live(h)) && Legal(h)
    requires Least(Live(h), front.id) && Live(h)[front.id].deadline == front.deadline <= now
    requires multiset(heap) == multiset(rest) + multiset{front} && e == Fired(front.id, Live(h)[front.id].handler)
    requires t == Released(s, e.id) && Resolved(t.slots, e.id) == None
    requires forall k: Token :: k != e.id ==> Resolved(t.slots, k) == Resolved(s.slots, k)
    requires forall k: Token :: Issued(t.slots, k) == Issued(s.slots, k)
    ensures TableAgrees(t, h + [e]) && HeapAgrees(rest, t.slots, Live(h + [e])) && Legal(h + [e])
    ensures Took(h, h + [e], now)
  {
    TableAfterEnd(s, t, h, e);
    HeapAfterFiring(heap, rest, front, s.slots, t.slots, Live(h));
  }

  class TimerScheduler {
    const queue: TimerQueue
    const registry: TimerRegistry
    var active: bool
    /** The deadline the one kernel timer is set to, if it is set. */
    var armed: Option<int>
    ghost var history: seq<Event>

    ghost predicate Valid()
      reads this, queue, registry
    {
      && queue.Valid() && registry.Valid() && Legal(history)
      && TableAgrees(registry.Now(), history)
      && HeapAgrees(queue.heap, registry.slots, Live(history))
    }

    /** While active the kernel timer is set to the least live deadline. */
    ghost predicate Settled()
      reads this
    {
      active ==> NextIs(Live(history), armed)
    }

    constructor ()
      ensures Valid() && Settled() && !active && history == []
      ensures fresh(queue) && fresh(registry)
    {
      queue := new TimerQueue();
      registry := new TimerRegistry();
      active, armed, history := false, None, [];
    }

    /** Drops ended tokens from the front of the heap. */
    method PruneCancelled()
      requires Valid()
      modifies queue
      ensures Valid()
      ensures queue.heap == [] ==> Live(history) == map[]
      ensures queue.heap != [] ==> queue.heap[0].id in Live(history)
    {
      while true
        invariant Valid()
        decreases |queue.heap|
      {
        var top := queue.Top();
        if top.None? {
          return;
        }
        var live := registry.Contains(top.value.id);
        if live {
          return;
        }
        ghost var before := queue.heap;
        queue.Pop();
        HeapAfterPop(before, queue.heap, before[0]);
        assert before[0].id !in Live(history);
      }
    }

    /** The least waiting timer, once ended tokens are out of the way. */
    method NextTimer() returns (top: Option<Entry>)
      requires Valid()
      modifies queue
      ensures Valid() && FrontIsNext(Live(history), top)
      ensures top.Some? ==> queue.heap != [] && queue.heap[0] == top.value
    {
      PruneCancelled();
      top := queue.Top();
      if top.Some? {
        LeastOfHeap(queue.heap, registry.slots, Live(history), top.value);
      }
    }

    method NextDeadline() returns (d: Option<int>)
      requires Valid()
      modifies queue
      ensures Valid() && NextIs(Live(history), d)
    {
      var top := NextTimer();
      d := if top.None? then None else Some(top.value.deadline);
    }

    method UpdateTimerfd()
      requires Valid()
      modifies queue, this`armed
      ensures Valid() && Settled()
    {
      if !active {
        return;
      }
      armed := NextDeadline();
    }

    method StartTimer()
      requires Valid()
      modifies queue, this`armed, this`active
      ensures Valid() && active && (old(Settled()) ==> Settled())
    {
      if active {
        return;
      }
      active := true;
      UpdateTimerfd();
    }

    method StopTimer()
      requires Valid()
      modifies this`armed, this`active
      ensures Valid() && !active && armed == None
    {
      active, armed := false, None;
    }

    /** Issues a token and queues its deadline. */
    method Register(deadline: int, handler: Handler) returns (id: Token)
      requires Valid()
      modifies this`history, queue, registry
      ensures Valid() && history == old(history) + [Scheduled(id, deadline, handler)]
      ensures Live(history) == Live(old(history))[id := Timer(deadline, handler)] && id !in Live(old(history))
      ensures id == NextToken(TableAfter(old(history)))
    {
      ghost var heap, table := queue.heap, registry.Now();
      id := registry.Insert(handler);
      queue.Push(deadline, id);
      ghost var e := Scheduled(id, deadline, handler);
      HeapAfterPush(heap, queue.heap, Entry(deadline, id));
      TableAfterInsert(table, registry.Now(), history, e);
      HeapAfterSchedule(heap, queue.heap, table.slots, registry.slots, Live(history), e);
      history := history + [e];
    }

    /** A new token waits; an active scheduler stays armed for the least deadline. */
    method ScheduleTimer(deadline: int, handler: Handler) returns (id: Token)
      requires Valid()
      modifies this`armed, this`history, queue, registry
      ensures Valid() && (old(Settled()) ==> Settled())
      ensures history == old(history) + [Scheduled(id, deadline, handler)]
      ensures Live(history) == Live(old(history))[id := Timer(deadline, handler)] && id !in Live(old(history))
      ensures id == NextToken(TableAfter(old(history)))
    {
      ghost var live := Live(history);
      var previous := NextDeadline();
      id := Register(deadline, handler);
      if previous.None? || deadline < previous.value {
        UpdateTimerfd();
      } else if NextIs(live, armed) {
        NextIsUnique(live, armed, previous);
        NextAfterSchedule(live, previous.value, id, Timer(deadline, handler));
      }
    }

    method EraseTimer(id: Token) returns (erased: bool)
      requires Valid()
      modifies this`history, registry
      ensures Valid() && history == old(history) + [Cancelled(id)]
      ensures Live(history) == Live(old(history)) - {id} && erased == (id in Live(old(history)))
    {
      ghost var table := registry.Now();
      erased := registry.Erase(id);
      assert erased == (id in Live(history));
      TableAfterEnd(table, registry.Now(), history, Cancelled(id));
      HeapAfterEnd(queue.heap, queue.heap, table.slots, registry.slots, Live(history), id);
      history := history + [Cancelled(id)];
    }

    /** The token waits no longer; a stale or unknown token changes nothing that waits. */
    method CancelTimer(id: Token)
      requires Valid()
      modifies this`armed, this`history, queue, registry
      ensures Valid() && (old(Settled()) ==> Settled())
      ensures history == old(history) + [Cancelled(id)]
      ensures Live(history) == Live(old(history)) - {id}
    {
      ghost var live := Live(history);
      var nextTimer := NextTimer();
      var wasNextTimer := nextTimer.Some? && nextTimer.value.id == id;
      var erased := EraseTimer(id);
      if NextIs(live, armed) && !(erased && wasNextTimer) {
        NextAfterCancel(live, nextTimer, id, armed);
      }
      if !erased {
        return;
      }
      if wasNextTimer {
        UpdateTimerfd();
      }
    }

    /** One thing a callback does. */
    method PerformOne(a: Action)
      requires Valid()
      modifies this`active, this`armed, this`history, queue, registry
      ensures Valid() && Step(a, old(history), history) && active == ActiveAfter([a], old(active))
      ensures old(Settled()) ==> Settled()
    {
      match a {
        case ScheduleAt(deadline, handler) =>
          var _ := ScheduleTimer(deadline, handler);
        case Cancel(id) => CancelTimer(id);
        case Start => StartTimer();
        case Stop => StopTimer();
      }
    }

    /** What a callback does, action by action. */
    method Perform(actions: seq<Action>)
      requires Valid()
      modifies this`active, this`armed, this`history, queue, registry
      ensures Valid() && Does(actions, old(history), history) && active == ActiveAfter(actions, old(active))
    {
      var i := 0;
      while i < |actions|
        invariant 0 <= i <= |actions| && Valid()
        invariant Does(actions[..i], old(history), history) && active == ActiveAfter(actions[..i], old(active))
        decreases |actions| - i
      {
        ghost var before := history;
        PerformOne(actions[i]);
        DoesOneMore(actions, i, old(history), before, history);
        assert actions[..i + 1][..i] == actions[..i];
        i := i + 1;
      }
      assert actions[..i] == actions;
    }

    /** Removes the least timer, which is due, and gives its handler: the callback is about to run. */
    method TakeExpired(now: int) returns (fired: Option<Token>)
      requires Valid()
      modifies this`history, queue, registry
      ensures Valid() && active == old(active)
      ensures fired.None? ==> history == old(history) && NothingDue(Live(history), now)
      ensures fired.Some? ==> Took(old(history), history, now) && history[|old(history)|].id == fired.value
    {
      var timer := NextTimer();
      if timer.None? || timer.value.deadline > now {
        return None;
      }
      ghost var heap, table := queue.heap, registry.Now();
      queue.Pop();
      var id := timer.value.id;
      var handler := registry.Consume(id);
      assert handler == Some(Live(history)[id].handler);
      ghost var e := Fired(id, handler.value);
      FiringFront(heap, queue.heap, timer.value, table, registry.Now(), history, e, now);
      history := history + [e];
      fired := Some(id);
    }

    /** Takes the least due timer, if there is one, and runs its callback. */
    method FireOne(now: int, script: Script, calls: nat, ghost start: seq<Event>, ghost first: bool, ghost bound: nat)
      returns (fired: bool)
      requires Valid() && QuietFrom(script, bound, now) && Dispatched(script, calls, start, history, now, bound)
      requires active == ActiveThrough(script, calls, first)
      modifies this`active, this`armed, this`history, queue, registry
      ensures Valid()
      ensures !fired ==> history == old(history) && active == old(active) && NothingDue(Live(history), now)
      ensures fired ==> Dispatched(script, calls + 1, start, history, now, bound)
      ensures fired ==> active == ActiveThrough(script, calls + 1, first)
      ensures fired && calls >= bound ==> Left(history, now) < Left(old(history), now)
    {
      var id := TakeExpired(now);
      if id.None? {
        return false;
      }
      ghost var taken := history;
      Perform(script(calls));
      OneCallback(script, calls, start, old(history), taken, history, now, bound);
      fired := true;
    }

    /** Fires until nothing is due, or until a callback has stopped it. */
    method FireDue(now: int, script: Script, ghost bound: nat) returns (calls: nat, stopped: bool)
      requires Valid() && QuietFrom(script, bound, now)
      modifies this`active, this`armed, this`history, queue, registry
      ensures Valid() && Dispatched(script, calls, old(history), history, now, bound)
      ensures active == ActiveThrough(script, calls, old(active)) && StoppedLast(script, calls, old(active))
      ensures if stopped then !active && calls > 0 else NothingDue(Live(history), now)
    {
      calls := 0;
      ghost var start, first := history, active;
      while true
        invariant Valid() && Dispatched(script, calls, start, history, now, bound)
        invariant active == ActiveThrough(script, calls, first) && StoppedLast(script, calls + 1, first)
        decreases if calls < bound then bound - calls else 0, Left(history, now)
      {
        var fired := FireOne(now, script, calls, start, first, bound);
        if !fired {
          return calls, false;
        }
        calls := calls + 1;
        if !active {
          return calls, true;
        }
      }
    }

    /** Fires the due timers, least first, while callbacks schedule, cancel, stop and restart. It ends because from
        some callback on nothing is scheduled that is already due, or at once when a callback has stopped it. */
    method DispatchExpired(now: int, script: Script, ghost bound: nat) returns (calls: nat)
      requires Valid() && QuietFrom(script, bound, now)
      modifies this`active, this`armed, this`history, queue, registry
      ensures Valid() && old(history) <= history && DueFirings(history, |old(history)|, now)
      ensures active || calls == 0 ==> NothingDue(Live(history), now)
      ensures active == ActiveThrough(script, calls, old(active)) && StoppedLast(script, calls, old(active))
      ensures Settled()
      ensures bound == 0 ==> LaterOnly(history, |old(history)|, now)
      ensures Ran(script, calls, old(history), history)
    {
      var stopped;
      calls, stopped := FireDue(now, script, bound);
      if !stopped {
        UpdateTimerfd();
      }
    }
  }

  lemma NextIsUnique(live: map<Token, Timer>, c: Option<int>, d: Option<int>)
    requires NextIs(live, c) && NextIs(live, d)
    ensures c == d
  {
  }

  /** So many timers have fired, and after each its callback did what the script says. */
  ghost predicate Ran(script: Script, calls: nat, start: seq<Event>, h: seq<Event>)
    decreases calls, 1
  {
    if calls == 0 then h == start else exists taken: seq<Event> :: RanVia(script, calls, start, taken, h)
  }

  ghost predicate RanVia(script: Script, calls: nat, start: seq<Event>, taken: seq<Event>, h: seq<Event>)
    requires calls > 0
    decreases calls, 0
  {
    && taken != [] && taken[|taken| - 1].Fired? && Ran(script, calls - 1, start, taken[..|taken| - 1])
    && Does(script(calls - 1), taken, h)
  }

  /** A firing and what its callback did. */
  ghost predicate Round(before: seq<Event>, taken: seq<Event>, h: seq<Event>, now: int) {
    && Took(before, taken, now) && taken <= h
    && (forall j :: |taken| <= j < |h| ==> !h[j].Fired?)
  }

  /** What a dispatch that began at `start` has done so far. */
  ghost predicate SoFar(start: seq<Event>, h: seq<Event>, now: int, bound: nat) {
    && start <= h
    && DueFirings(h, |start|, now)
    && (bound == 0 ==> LaterOnly(h, |start|, now))
  }

  ghost predicate Dispatched(script: Script, calls: nat, start: seq<Event>, h: seq<Event>, now: int, bound: nat) {
    SoFar(start, h, now, bound) && Ran(script, calls, start, h)
  }

  lemma OneRound(start: seq<Event>, before: seq<Event>, taken: seq<Event>, h: seq<Event>, now: int, bound: nat)
    requires Round(before, taken, h, now) && SoFar(start, before, now, bound)
    requires bound == 0 ==> LaterOnly(h, |taken|, now)
    ensures SoFar(start, h, now, bound)
  {
    var n := |start|;
    forall j | n <= j < |h| && h[j].Fired?
      ensures h[j].id in Live(h[..j]) && Live(h[..j])[h[j].id].deadline <= now
    {
      assert j <= |before| && h[j] == taken[j];
      assert h[..j] == before[..j];
      assert before[..|before|] == before;
      assert j < |before| ==> h[j] == before[j];
    }
    if bound == 0 {
      forall j | n <= j < |h| && h[j].Scheduled? ensures h[j].deadline > now {
        assert j < |taken| ==> h[j] == taken[j];
        assert j < |before| ==> h[j] == before[j];
      }
    }
  }

  /** One firing with its callback keeps what holds of a dispatch; once nothing due is scheduled, less is due. */
  lemma OneCallback(script: Script, calls: nat, start: seq<Event>, before: seq<Event>, taken: seq<Event>,
                    h: seq<Event>, now: int, bound: nat)
    requires QuietFrom(script, bound, now) && Dispatched(script, calls, start, before, now, bound)
    requires Took(before, taken, now) && Does(script(calls), taken, h)
    ensures Dispatched(script, calls + 1, start, h, now, bound)
    ensures calls >= bound ==> Left(h, now) < Left(before, now)
  {
    DoesOnly(script(calls), taken, h, now);
    OneRound(start, before, taken, h, now, bound);
    assert taken[..|taken| - 1] == before;
    assert RanVia(script, calls + 1, start, taken, h);
    if calls >= bound {
      RoundShrinksDue(before, taken, h, now, taken[|before|].id);
    }
  }

  lemma RoundShrinksDue(before: seq<Event>, taken: seq<Event>, h: seq<Event>, now: int, id: Token)
    requires Round(before, taken, h, now) && id == taken[|before|].id && LaterOnly(h, |taken|, now)
    ensures |Due(Live(h), now)| < |Due(Live(before), now)|
  {
    assert h[..|taken|] == taken;
    DueShrinks(h, |taken|, now);
    SmallerSet(Due(Live(h), now), Due(Live(before), now), id);
  }

  // ---- a whole run ----

  /** What can be asked of the scheduler from outside a callback. `bound` is a callback from which on nothing is
      scheduled that is already due. */
  datatype Request = Ask(action: Action) | Expire(now: int, script: Script, bound: nat)

  datatype Moment = Moment(history: seq<Event>, active: bool, armed: Option<int>)

  /** No wakeup is lost: while active the kernel timer is set to the least live deadline. */
  ghost predicate Awake(m: Moment) {
    m.active ==> NextIs(Live(m.history), m.armed)
  }

  /** From position n on exactly the timers fired that were due at n, less those cancelled first. */
  ghost predicate FiredTheDue(h: seq<Event>, n: nat, now: int)
    requires n <= |h|
  {
    forall id :: FiredFrom(h, n, id) <==>
                 id in Live(h[..n]) && Live(h[..n])[id].deadline <= now && !CutFrom(h, n, id)
  }

  ghost predicate Served(r: Request, before: Moment, after: Moment) {
    match r
    case Ask(action) =>
      Step(action, before.history, after.history) && after.active == ActiveAfter([action], before.active)
    case Expire(now, script, bound) => exists calls: nat :: DispatchedAll(now, script, bound, calls, before, after)
  }

  /** So many callbacks ran. If the last one did not stop it nothing due is left, and then, if callbacks schedule
      only for later, exactly the due timers have fired. */
  ghost predicate DispatchedAll(now: int, script: Script, bound: nat, calls: nat, before: Moment, after: Moment) {
    && before.history <= after.history && Ran(script, calls, before.history, after.history)
    && DueFirings(after.history, |before.history|, now)
    && after.active == ActiveThrough(script, calls, before.active) && StoppedLast(script, calls, before.active)
    && (after.active || calls == 0 ==>
          && NothingDue(Live(after.history), now)
          && (bound == 0 ==> FiredTheDue(after.history, |before.history|, now)))
  }

  /** One request. */
  method ServeOne(s: TimerScheduler, r: Request)
    requires s.Valid() && s.Settled() && (r.Expire? ==> QuietFrom(r.script, r.bound, r.now))
    modifies s`active, s`armed, s`history, s.queue, s.registry
    ensures s.Valid() && s.Settled()
    ensures Served(r, old(Moment(s.history, s.active, s.armed)), Moment(s.history, s.active, s.armed))
  {
    match r {
      case Ask(action) => s.PerformOne(action);
      case Expire(now, script, bound) =>
        var calls := s.DispatchExpired(now, script, bound);
        ghost var n := |old(s.history)|;
        assert s.history[..n] == old(s.history);
        if (s.active || calls == 0) && bound == 0 {
          forall id ensures FiredFrom(s.history, n, id) <==>
                            id in Live(s.history[..n]) && Live(s.history[..n])[id].deadline <= now
                            && !CutFrom(s.history, n, id)
          {
            DispatchFiresExactlyTheDue(s.history, n, now, id);
          }
        }
        assert DispatchedAll(now, script, bound, calls, old(Moment(s.history, s.active, s.armed)),
                             Moment(s.history, s.active, s.armed));
    }
  }

  /** Over every sequence of requests to a new scheduler: each does exactly what it asks, every dispatch fires the
      due timers, no wakeup is lost between requests, and the history is legal with every token from the table. */
  method Serve(requests: seq<Request>) returns (s: TimerScheduler, ghost moments: seq<Moment>)
    requires forall r :: r in requests && r.Expire? ==> QuietFrom(r.script, r.bound, r.now)
    ensures |moments| == |requests| + 1 && moments[0].history == [] && !moments[0].active
    ensures moments[|requests|] == Moment(s.history, s.active, s.armed)
    ensures forall k :: 0 <= k < |requests| ==> Served(requests[k], moments[k], moments[k + 1])
    ensures forall k :: 0 <= k < |moments| ==> Awake(moments[k])
    ensures Legal(s.history) && FromTable(s.history)
  {
    s := new TimerScheduler();
    moments := [Moment(s.history, s.active, s.armed)];
    for i := 0 to |requests|
      invariant s.Valid() && s.Settled() && fresh(s) && fresh(s.queue) && fresh(s.registry)
      invariant |moments| == i + 1 && moments[0].history == [] && !moments[0].active
      invariant moments[i] == Moment(s.history, s.active, s.armed)
      invariant forall k :: 0 <= k < i ==> Served(requests[k], moments[k], moments[k + 1])
      invariant forall k :: 0 <= k < |moments| ==> Awake(moments[k])
    {
      assert requests[i] in requests;
      ServeOne(s, requests[i]);
      moments := moments + [Moment(s.history, s.active, s.armed)];
    }
  }

  // ---- dispatches that go on ----

  /** The callback ends by scheduling for now or earlier. */
  predicate Reschedules(actions: seq<Action>, now: int) {
    actions != [] && actions[|actions| - 1].ScheduleAt? && actions[|actions| - 1].deadline <= now
  }

  /** Without the condition on deadlines a dispatch need not end: as long as every callback ends by scheduling for now,
      something is due, however many callbacks have run. */
  lemma ReschedulingNeverEnds(script: Script, calls: nat, start: seq<Event>, h: seq<Event>, now: int)
    requires Ran(script, calls, start, h) && !NothingDue(Live(start), now)
    requires forall n :: 0 <= n < calls ==> Reschedules(script(n), now)
    ensures !NothingDue(Live(h), now)
  {
    if calls > 0 {
      var actions := script(calls - 1);
      var taken :| RanVia(script, calls, start, taken, h);
      assert Does(actions, taken, h);
      var before :| DoesVia(actions, taken, before, h);
      assert h[..|h| - 1] == before;
      var e := h[|before|];
      assert e.id in Live(h) && Live(h)[e.id].deadline <= now;
    }
  }

  lemma {:induction false} StaysActive(script: Script, calls: nat)
    requires forall n :: 0 <= n < calls ==> NeverStops(script(n))
    ensures ActiveThrough(script, calls, true)
  {
    if calls > 0 {
      StaysActive(script, calls - 1);
      StaysActiveIn(script(calls - 1));
    }
  }

  predicate NeverStops(actions: seq<Action>) {
    Stop !in actions
  }

  lemma {:induction false} StaysActiveIn(actions: seq<Action>)
    requires NeverStops(actions)
    ensures ActiveAfter(actions, true)
  {
    if actions != [] {
      StaysActiveIn(actions[..|actions| - 1]);
    }
  }

  /** An active scheduler with something due can be kept dispatching for any number of callbacks. */
  method DispatchManyTimes(s: TimerScheduler, now: int, n: nat) returns (calls: nat)
    requires s.Valid() && s.active && !NothingDue(Live(s.history), now)
    modifies s`active, s`armed, s`history, s.queue, s.registry
    ensures s.Valid() && calls > n
  {
    var script := (k: nat) => if k < n then [ScheduleAt(now, 0)] else [];
    calls := s.DispatchExpired(now, script, n);
    StaysActive(script, calls);
    if calls <= n {
      ReschedulingNeverEnds(script, calls, old(s.history), s.history, now);
    }
  }

  // ---- timers with one deadline ----

  /** Whether the earlier of two timers will fire first can be told before the second is scheduled: unless it fires
      before that, exactly if its token precedes the one the table would hand out next. */
  lemma TieIsDecidedByTheTable(h: seq<Event>, p: nat, q: nat, i: nat, j: nat)
    requires Legal(h) && FromTable(h)
    requires p < q < |h| && h[p].Scheduled? && h[q].Scheduled? && h[p].deadline == h[q].deadline
    requires i < |h| && h[i].Fired? && h[i].id == h[p].id && j < |h| && h[j].Fired? && h[j].id == h[q].id
    ensures i < j <==> i < q || Precedes(h[p].id, NextToken(TableAfter(h[..q])))
  {
    TieFollowsScheduleOrder(h, p, q, i, j);
    TokenIsNext(h, q);
  }

  lemma {:induction false} OnlyNewSlots(h: seq<Event>)
    requires FromTable(h) && forall k :: 0 <= k < |h| ==> h[k].Scheduled?
    ensures TableAfter(h).free == [] && |TableAfter(h).slots| == |h|
  {
    if h != [] {
      OnlyNewSlots(h[..|h| - 1]);
    }
  }

  /** As long as nothing was cancelled and nothing fired before the later one was scheduled, the order is kept. */
  lemma UnusedSlotsKeepOrder(h: seq<Event>, p: nat, q: nat, i: nat, j: nat)
    requires Legal(h) && FromTable(h) && p < q < |h| && (forall k :: 0 <= k <= q ==> h[k].Scheduled?)
    requires h[p].deadline == h[q].deadline
    requires i < |h| && h[i].Fired? && h[i].id == h[p].id && j < |h| && h[j].Fired? && h[j].id == h[q].id
    ensures i < j
  {
    TieIsDecidedByTheTable(h, p, q, i, j);
    FromTablePrefix(h, p);
    FromTablePrefix(h, q);
    OnlyNewSlots(h[..p]);
    OnlyNewSlots(h[..q]);
    TokenIsNext(h, p);
  }

  lemma {:induction false} FromTablePrefix(h: seq<Event>, n: nat)
    requires FromTable(h) && n <= |h|
    ensures FromTable(h[..n])
  {
    if n < |h| {
      FromTablePrefix(h[..|h| - 1], n);
      assert h[..|h| - 1][..n] == h[..n];
    } else {
      assert h[..n] == h;
    }
  }

  /** Slot 0 is used, freed and used again; then slot 1. */
  lemma TokensAfterReuse(h: seq<Event>)
    requires FromTable(h) && |h| == 4 && h[0].Scheduled? && h[1] == Cancelled(h[0].id)
    requires h[2].Scheduled? && h[3].Scheduled?
    ensures h[2].id == Token(2, 0) && h[3].id == Token(1, 1)
  {
    assert h[..0] == [];
    forall k: nat | k < 3 ensures h[..k + 1][..k] == h[..k] && h[..k + 1][k] == h[k] {
    }
    assert TableAfter(h[..0]) == Table([], []);
    TokenIsNext(h, 0);
    assert h[..1][..0] == h[..0] && h[..2][..1] == h[..1] && h[..3][..2] == h[..2];
    assert TableAfter(h[..1]) == Table([Slot(Some(h[0].handler), 1, true)], []);
    assert TableAfter(h[..2]) == Table([Slot(None, 2, false)], [0]);
    TokenIsNext(h, 2);
    assert TableAfter(h[..3]) == Table([Slot(Some(h[2].handler), 2, true)], []);
    TokenIsNext(h, 3);
  }

  lemma {:induction false} IdleCallbacksOnlyFire(script: Script, calls: nat, start: seq<Event>, h: seq<Event>)
    requires Ran(script, calls, start, h) && forall n :: 0 <= n < calls ==> script(n) == []
    ensures start <= h && forall j :: |start| <= j < |h| ==> h[j].Fired?
  {
    if calls > 0 {
      var taken :| RanVia(script, calls, start, taken, h);
      IdleCallbacksOnlyFire(script, calls - 1, start, taken[..|taken| - 1]);
    }
  }

  lemma LastTwoWait(h: seq<Event>)
    requires |h| == 4 && h[2].Scheduled? && h[3].Scheduled? && h[2].id != h[3].id
    ensures h[2].id in Live(h) && Live(h)[h[2].id].deadline == h[2].deadline
    ensures h[3].id in Live(h) && Live(h)[h[3].id].deadline == h[3].deadline
  {
    assert h[..3] == h[..2] + [h[2]] && h == h[..3] + [h[3]];
    LivePrefix(h, 2);
  }

  lemma ReusedSlotFiresLater(before: seq<Event>, h: seq<Event>, now: int)
    requires FromTable(before) && |before| == 4 && before[0].Scheduled? && before[1] == Cancelled(before[0].id)
    requires before[2].Scheduled? && before[3].Scheduled? && before[2].deadline == before[3].deadline <= now
    requires before <= h && Legal(h) && DueFirings(h, 4, now) && NothingDue(Live(h), now)
    requires forall j :: 4 <= j < |h| ==> h[j].Fired?
    ensures FiresBefore(h, before[3].id, before[2].id)
  {
    TokensAfterReuse(before);
    LastTwoWait(before);
    assert h[..4] == before;
    DispatchFiresExactlyTheDue(h, 4, now, before[2].id);
    DispatchFiresExactlyTheDue(h, 4, now, before[3].id);
    LesserTokenFiresFirst(h, 4, now, before[3].id, before[2].id);
  }

  method ScheduleInReusedSlot(deadline: int) returns (s: TimerScheduler, first: Token, second: Token)
    ensures s.Valid() && fresh(s) && fresh(s.queue) && fresh(s.registry) && |s.history| == 4
    ensures s.history[0].Scheduled? && s.history[1] == Cancelled(s.history[0].id)
    ensures s.history[2] == Scheduled(first, deadline, 1) && s.history[3] == Scheduled(second, deadline, 2)
  {
    s := new TimerScheduler();
    var used := s.ScheduleTimer(deadline, 0);
    s.CancelTimer(used);
    first := s.ScheduleTimer(deadline, 1);
    second := s.ScheduleTimer(deadline, 2);
  }

  /** Timers with one deadline do not always fire in the order they were scheduled: a timer in a reused slot fires
      after one that was scheduled later, into a new slot. */
  method TiesIgnoreScheduleOrder(deadline: int, now: int) returns (s: TimerScheduler, first: Token, second: Token)
    requires deadline <= now
    ensures |s.history| >= 4
    ensures s.history[2] == Scheduled(first, deadline, 1) && s.history[3] == Scheduled(second, deadline, 2)
    ensures FiresBefore(s.history, second, first)
  {
    s, first, second := ScheduleInReusedSlot(deadline);
    s.StartTimer();
    ghost var before := s.history;
    var script := (n: nat) => [];
    var calls := s.DispatchExpired(now, script, 0);
    StaysActive(script, calls);
    IdleCallbacksOnlyFire(script, calls, before, s.history);
    ReusedSlotFiresLater(before, s.history, now);
  }
}
