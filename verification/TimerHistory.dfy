/** What a timer service promises, told by the history of what happened to each token. */
module TimerHistory {
  import opened Basics
  import opened Remainders

  /** A slot index with the slot's generation. Generations count from 1 without end here; `Packed` is the 64-bit id. */
  datatype Token = Token(generation: nat, index: nat)

  type Handler = nat

  datatype Timer = Timer(deadline: int, handler: Handler)

  datatype Entry = Entry(deadline: int, id: Token)

  /** By generation, then by slot. */
  predicate Precedes(a: Token, b: Token) {
    a.generation < b.generation || (a.generation == b.generation && a.index < b.index)
  }

  /** By deadline, then by token. */
  predicate AtMost(a: Entry, b: Entry) {
    || a.deadline < b.deadline
    || (a.deadline == b.deadline
        && (a.id.generation < b.id.generation
            || (a.id.generation == b.id.generation && a.id.index <= b.id.index)))
  }

  // ---- 32-bit generations ----

  const U32: int := 0x1_0000_0000

  /** The generation field after one more release; zero is skipped. */
  function NextGeneration(g: nat): nat
    requires g < U32
  {
    if (g + 1) % U32 == 0 then 1 else (g + 1) % U32
  }

  /** The generation field a slot shows in its n-th life. */
  function GenerationField(n: nat): (g: nat)
    ensures 0 < g < U32
    decreases n
  {
    if n <= 1 then 1 else NextGeneration(GenerationField(n - 1))
  }

  function Packed(t: Token): nat {
    GenerationField(t.generation) * U32 + t.index
  }

  lemma {:induction false} FieldIsRemainder(n: nat)
    requires n >= 1
    ensures GenerationField(n) == (n - 1) % (U32 - 1) + 1
  {
    if n > 1 {
      FieldIsRemainder(n - 1);
      RemainderAfter(n - 2, U32 - 1);
      var g := GenerationField(n - 1);
      assert (g + 1) % U32 == if g + 1 == U32 then 0 else g + 1;
    }
  }

  /** Two tokens get the same 64-bit id exactly when they share the slot and their generations are a multiple of
      2^32 - 1 releases apart. */
  lemma SameIdAfterFullTurn(a: Token, b: Token)
    requires a.generation >= 1 && b.generation >= 1 && a.index < U32 && b.index < U32
    ensures Packed(a) == Packed(b) <==>
            a.index == b.index && (a.generation - b.generation) % (U32 - 1) == 0
  {
    FieldIsRemainder(a.generation);
    FieldIsRemainder(b.generation);
    SameRemainder(a.generation - 1, b.generation - 1, U32 - 1);
    var f, g := GenerationField(a.generation), GenerationField(b.generation);
    assert f * U32 + a.index == g * U32 + b.index <==> f == g && a.index == b.index;
  }

  /** As long as no slot has been released 2^32 - 2 times, comparing ids is comparing generations, then slots. */
  lemma IdOrder(a: Entry, b: Entry)
    requires 1 <= a.id.generation < U32 && 1 <= b.id.generation < U32 && a.id.index < U32 && b.id.index < U32
    ensures AtMost(a, b) <==>
            a.deadline < b.deadline || (a.deadline == b.deadline && Packed(a.id) <= Packed(b.id))
  {
    FieldIsRemainder(a.id.generation);
    FieldIsRemainder(b.id.generation);
    DivModUnique(a.id.generation - 1, 0, a.id.generation - 1, U32 - 1);
    DivModUnique(b.id.generation - 1, 0, b.id.generation - 1, U32 - 1);
  }

  // ---- histories ----

  datatype Event =
    | Scheduled(id: Token, deadline: int, handler: Handler)
    | Cancelled(id: Token)
    | Fired(id: Token, handler: Handler)

  /** The timers that wait. */
  function Live(h: seq<Event>): map<Token, Timer> {
    if h == [] then map[]
    else After(Live(h[..|h| - 1]), h[|h| - 1])
  }

  function After(live: map<Token, Timer>, e: Event): map<Token, Timer> {
    if e.Scheduled? then live[e.id := Timer(e.deadline, e.handler)] else live - {e.id}
  }

  ghost predicate EverScheduled(h: seq<Event>, id: Token) {
    exists i :: 0 <= i < |h| && h[i].Scheduled? && h[i].id == id
  }

  /** No waiting timer comes before this one. */
  ghost predicate Least(live: map<Token, Timer>, id: Token) {
    && id in live
    && forall k :: k in live ==> AtMost(Entry(live[id].deadline, id), Entry(live[k].deadline, k))
  }

  /** What may happen next: a token is new, a firing is the least waiting timer and calls its handler. Anything may
      be cancelled. */
  ghost predicate Allowed(h: seq<Event>, e: Event) {
    match e
    case Scheduled(id, _, _) => !EverScheduled(h, id)
    case Cancelled(_) => true
    case Fired(id, handler) => Least(Live(h), id) && Live(h)[id].handler == handler
  }

  ghost predicate Legal(h: seq<Event>) {
    forall i :: 0 <= i < |h| ==> Allowed(h[..i], h[i])
  }

  lemma LegalStep(h: seq<Event>, e: Event)
    requires Legal(h) && Allowed(h, e)
    ensures Legal(h + [e]) && Live(h + [e]) == After(Live(h), e)
  {
    var g := h + [e];
    assert g[..|g| - 1] == h;
    forall i | 0 <= i < |g| ensures Allowed(g[..i], g[i]) {
      if i < |h| {
        assert g[..i] == h[..i];
      }
    }
  }

  lemma LivePrefix(h: seq<Event>, i: nat)
    requires i < |h|
    ensures Live(h[..i + 1]) == After(Live(h[..i]), h[i])
  {
    assert h[..i + 1][..i] == h[..i];
  }

  /** Only what was scheduled waits. */
  lemma {:induction false} LiveWasScheduled(h: seq<Event>, i: nat, id: Token)
    requires i <= |h| && id in Live(h[..i])
    ensures EverScheduled(h[..i], id)
  {
    assert h[..0] == [];
    if i > 0 {
      LivePrefix(h, i - 1);
      if h[i - 1].Scheduled? && h[i - 1].id == id {
        assert h[..i][i - 1] == h[i - 1];
      } else {
        LiveWasScheduled(h, i - 1, id);
        var j :| 0 <= j < i - 1 && h[..i - 1][j].Scheduled? && h[..i - 1][j].id == id;
        assert h[..i][j] == h[..i - 1][j];
      }
    }
  }

  /** Once issued and gone, a token never waits again. */
  lemma {:induction false} GoneForGood(h: seq<Event>, i: nat, j: nat, id: Token)
    requires Legal(h) && i <= j <= |h| && EverScheduled(h[..i], id) && id !in Live(h[..i])
    ensures id !in Live(h[..j])
    decreases j - i
  {
    if i < j {
      assert Allowed(h[..i], h[i]);
      LivePrefix(h, i);
      var k :| 0 <= k < i && h[..i][k].Scheduled? && h[..i][k].id == id;
      assert h[..i + 1][k] == h[..i][k];
      GoneForGood(h, i + 1, j, id);
    }
  }

  /** A token fires at most once. */
  lemma FiresAtMostOnce(h: seq<Event>, i: nat, j: nat)
    requires Legal(h) && i < j < |h| && h[i].Fired? && h[j].Fired?
    ensures h[i].id != h[j].id
  {
    assert Allowed(h[..i], h[i]) && Allowed(h[..j], h[j]);
    var id := h[i].id;
    LiveWasScheduled(h, i, id);
    var k :| 0 <= k < i && h[..i][k].Scheduled? && h[..i][k].id == id;
    assert h[..i + 1][k] == h[..i][k];
    LivePrefix(h, i);
    GoneForGood(h, i + 1, j, id);
  }

  /** A token that was cancelled after it was issued does not fire any more. */
  lemma CancelledNeverFires(h: seq<Event>, i: nat, j: nat)
    requires Legal(h) && i < j < |h| && h[i].Cancelled? && EverScheduled(h[..i], h[i].id)
    ensures !(h[j].Fired? && h[j].id == h[i].id)
  {
    var id := h[i].id;
    var k :| 0 <= k < i && h[..i][k].Scheduled? && h[..i][k].id == id;
    assert h[..i + 1][k] == h[..i][k];
    LivePrefix(h, i);
    GoneForGood(h, i + 1, j, id);
    assert Allowed(h[..j], h[j]);
  }

  // ---- one dispatch ----

  /** Everything that fired from position n on was due. */
  ghost predicate DueFirings(h: seq<Event>, n: nat, now: int) {
    forall j :: n <= j < |h| && h[j].Fired? ==> h[j].id in Live(h[..j]) && Live(h[..j])[h[j].id].deadline <= now
  }

  /** Nothing scheduled from position n on is due. */
  predicate LaterOnly(h: seq<Event>, n: nat, now: int) {
    forall j :: n <= j < |h| && h[j].Scheduled? ==> h[j].deadline > now
  }

  predicate NothingDue(live: map<Token, Timer>, now: int) {
    forall id :: id in live ==> live[id].deadline > now
  }

  predicate FiredFrom(h: seq<Event>, n: nat, id: Token) {
    exists j :: n <= j < |h| && h[j].Fired? && h[j].id == id
  }

  /** Cancelled from position n on while it still waited. */
  predicate CutFrom(h: seq<Event>, n: nat, id: Token) {
    exists j :: n <= j < |h| && h[j] == Cancelled(id) && id in Live(h[..j])
  }

  lemma EndedFromExtends(h: seq<Event>, n: nat, p: nat, id: Token)
    requires n <= p < |h| && (FiredFrom(h[..p], n, id) || CutFrom(h[..p], n, id))
    ensures FiredFrom(h[..p + 1], n, id) || CutFrom(h[..p + 1], n, id)
  {
    if FiredFrom(h[..p], n, id) {
      var j :| n <= j < |h[..p]| && h[..p][j].Fired? && h[..p][j].id == id;
      assert h[..p + 1][j] == h[..p][j];
    } else {
      var j :| n <= j < |h[..p]| && h[..p][j] == Cancelled(id) && id in Live(h[..p][..j]);
      assert h[..p + 1][j] == h[..p][j] && h[..p + 1][..j] == h[..p][..j];
    }
  }

  /** A timer that waits at n and not at m has fired or was cancelled in between. */
  lemma {:induction false} HowItEnded(h: seq<Event>, n: nat, m: nat, id: Token)
    requires Legal(h) && n <= m <= |h| && id in Live(h[..n])
    ensures id in Live(h[..m]) || FiredFrom(h[..m], n, id) || CutFrom(h[..m], n, id)
    decreases m - n
  {
    if n < m {
      var p := m - 1;
      HowItEnded(h, n, p, id);
      LivePrefix(h, p);
      if id in Live(h[..p]) {
        assert h[..m][p] == h[p] && h[..m][..p] == h[..p];
      } else {
        EndedFromExtends(h, n, p, id);
      }
    }
  }

  /** Where nothing new is due, a due timer that waits has been waiting with the same deadline. */
  lemma {:induction false} DueSinceStart(h: seq<Event>, n: nat, j: nat, now: int, id: Token)
    requires n <= j <= |h| && LaterOnly(h, n, now)
    requires id in Live(h[..j]) && Live(h[..j])[id].deadline <= now
    ensures id in Live(h[..n]) && Live(h[..n])[id] == Live(h[..j])[id]
    decreases j - n
  {
    if n < j {
      LivePrefix(h, j - 1);
      DueSinceStart(h, n, j - 1, now, id);
    }
  }

  lemma ScheduledStays(h: seq<Event>, n: nat, m: nat, id: Token)
    requires n <= m <= |h| && EverScheduled(h[..n], id)
    ensures EverScheduled(h[..m], id)
  {
    var k :| 0 <= k < n && h[..n][k].Scheduled? && h[..n][k].id == id;
    assert h[..m][k] == h[..n][k];
  }

  /** A waiting timer is never changed. */
  lemma {:induction false} KeepsDeadline(h: seq<Event>, n: nat, m: nat, id: Token)
    requires Legal(h) && n <= m <= |h| && id in Live(h[..n]) && id in Live(h[..m])
    ensures Live(h[..m])[id] == Live(h[..n])[id]
    decreases m - n
  {
    if n < m {
      LivePrefix(h, m - 1);
      assert Allowed(h[..m - 1], h[m - 1]);
      LiveWasScheduled(h, n, id);
      ScheduledStays(h, n, m - 1, id);
      if id in Live(h[..m - 1]) {
        KeepsDeadline(h, n, m - 1, id);
      }
    }
  }

  /** A token that fires was not cancelled while it waited. */
  lemma FiredIsNotCut(h: seq<Event>, n: nat, j: nat)
    requires Legal(h) && n <= j < |h| && h[j].Fired?
    ensures !CutFrom(h, n, h[j].id)
  {
    var id := h[j].id;
    forall k | n <= k < |h| && h[k] == Cancelled(id) ensures id !in Live(h[..k]) {
      if k > j {
        FiredStaysGone(h, j, k);
      } else if id in Live(h[..k]) {
        LiveWasScheduled(h, k, id);
        CancelledNeverFires(h, k, j);
      }
    }
  }

  /** A dispatch that ran to its end, whose callbacks scheduled only for later, fired exactly the timers that were
      due when it began, less those a callback cancelled first. */
  lemma DispatchFiresExactlyTheDue(h: seq<Event>, n: nat, now: int, id: Token)
    requires Legal(h) && n <= |h| && DueFirings(h, n, now) && LaterOnly(h, n, now) && NothingDue(Live(h), now)
    ensures FiredFrom(h, n, id) <==>
            id in Live(h[..n]) && Live(h[..n])[id].deadline <= now && !CutFrom(h, n, id)
  {
    assert h[..|h|] == h;
    if FiredFrom(h, n, id) {
      var j :| n <= j < |h| && h[j].Fired? && h[j].id == id;
      DueSinceStart(h, n, j, now, id);
      FiredIsNotCut(h, n, j);
    } else if id in Live(h[..n]) {
      HowItEnded(h, n, |h|, id);
      if id in Live(h) {
        KeepsDeadline(h, n, |h|, id);
      }
    }
  }

  lemma FiredStaysGone(h: seq<Event>, j: nat, k: nat)
    requires Legal(h) && j < k <= |h| && h[j].Fired?
    ensures h[j].id !in Live(h[..k])
  {
    var id := h[j].id;
    assert Allowed(h[..j], h[j]);
    LiveWasScheduled(h, j, id);
    var i :| 0 <= i < j && h[..j][i].Scheduled? && h[..j][i].id == id;
    assert h[..j + 1][i] == h[..j][i];
    LivePrefix(h, j);
    GoneForGood(h, j + 1, k, id);
  }

  /** In such a dispatch the firings come in the order of their deadlines, then of their tokens. */
  lemma DispatchInOrder(h: seq<Event>, n: nat, now: int, i: nat, j: nat)
    requires Legal(h) && DueFirings(h, n, now) && LaterOnly(h, n, now)
    requires n <= i < j < |h| && h[i].Fired? && h[j].Fired?
    ensures h[j].id in Live(h[..i])
    ensures AtMost(Entry(Live(h[..i])[h[i].id].deadline, h[i].id), Entry(Live(h[..j])[h[j].id].deadline, h[j].id))
  {
    var later := h[j].id;
    assert LaterOnly(h, i, now);
    DueSinceStart(h, i, j, now, later);
    assert Allowed(h[..i], h[i]);
  }

  // ---- timers with one deadline ----

  lemma WaitingTieFiresByToken(h: seq<Event>, i: nat, j: nat)
    requires Legal(h) && i < j < |h| && h[i].Fired? && h[j].Fired? && h[j].id in Live(h[..i])
    requires Live(h[..i])[h[i].id].deadline == Live(h[..i])[h[j].id].deadline
    ensures Precedes(h[i].id, h[j].id)
  {
    FiresAtMostOnce(h, i, j);
    assert Allowed(h[..i], h[i]);
  }

  /** Of two firings whose timers both waited for one deadline at the earlier one, the lesser token's is the earlier. */
  lemma TiesFireInTokenOrder(h: seq<Event>, i: nat, j: nat)
    requires Legal(h) && i < |h| && j < |h| && i != j && h[i].Fired? && h[j].Fired?
    requires var live := Live(h[..if i < j then i else j]);
             h[i].id in live && h[j].id in live && live[h[i].id].deadline == live[h[j].id].deadline
    ensures i < j <==> Precedes(h[i].id, h[j].id)
  {
    if i < j {
      WaitingTieFiresByToken(h, i, j);
    } else {
      WaitingTieFiresByToken(h, j, i);
    }
  }

  /** A token that fires has waited since it was scheduled, with the deadline it was scheduled for. */
  lemma WaitsUntilItFires(h: seq<Event>, q: nat, i: nat, j: nat)
    requires Legal(h) && q < i <= j < |h| && h[q].Scheduled? && h[j].Fired? && h[j].id == h[q].id
    ensures h[q].id in Live(h[..i]) && Live(h[..i])[h[q].id].deadline == h[q].deadline
  {
    var id := h[q].id;
    assert Allowed(h[..j], h[j]);
    assert h[..i][q] == h[q] && h[..q + 1][q] == h[q];
    if id !in Live(h[..i]) {
      GoneForGood(h, i, j, id);
    }
    LivePrefix(h, q);
    KeepsDeadline(h, q + 1, i, id);
  }

  lemma FiresAfterItIsScheduled(h: seq<Event>, q: nat, j: nat)
    requires Legal(h) && q < |h| && j < |h| && h[q].Scheduled? && h[j].Fired? && h[j].id == h[q].id
    ensures q < j
  {
    assert Allowed(h[..q], h[q]) && Allowed(h[..j], h[j]);
    LiveWasScheduled(h, j, h[q].id);
    if j <= q {
      ScheduledStays(h, j, q, h[q].id);
    }
  }

  /** Of two timers with one deadline, the one scheduled first fires first exactly when it had fired before the other
      was scheduled or its token precedes the other's. */
  lemma TieFollowsScheduleOrder(h: seq<Event>, p: nat, q: nat, i: nat, j: nat)
    requires Legal(h) && p < q < |h| && h[p].Scheduled? && h[q].Scheduled? && h[p].deadline == h[q].deadline
    requires i < |h| && h[i].Fired? && h[i].id == h[p].id && j < |h| && h[j].Fired? && h[j].id == h[q].id
    ensures i < j <==> i < q || Precedes(h[p].id, h[q].id)
  {
    FiresAfterItIsScheduled(h, p, i);
    FiresAfterItIsScheduled(h, q, j);
    assert Allowed(h[..q], h[q]) && h[..q][p] == h[p];
    if i > q {
      var m := if i < j then i else j;
      WaitsUntilItFires(h, p, m, i);
      WaitsUntilItFires(h, q, m, j);
      if i < j {
        WaitingTieFiresByToken(h, i, j);
      } else {
        WaitingTieFiresByToken(h, j, i);
      }
    }
  }

  predicate FiresAt(h: seq<Event>, i: nat, id: Token) {
    i < |h| && h[i].Fired? && h[i].id == id
  }

  /** The one fires, and later the other. */
  ghost predicate FiresBefore(h: seq<Event>, early: Token, late: Token) {
    exists i: nat, j: nat :: i < j && FiresAt(h, i, early) && FiresAt(h, j, late)
  }

  lemma FiringPosition(h: seq<Event>, n: nat, id: Token) returns (i: nat)
    requires FiredFrom(h, n, id)
    ensures n <= i && FiresAt(h, i, id)
  {
    i :| n <= i < |h| && h[i].Fired? && h[i].id == id;
  }

  lemma LesserTokenIsFirst(h: seq<Event>, n: nat, now: int, i: nat, j: nat, a: Token, b: Token)
    requires Legal(h) && DueFirings(h, n, now) && LaterOnly(h, n, now)
    requires n <= i < |h| && n <= j && FiresAt(h, i, a) && FiresAt(h, j, b) && Precedes(a, b)
    requires a in Live(h[..n]) && b in Live(h[..n]) && Live(h[..n])[a].deadline == Live(h[..n])[b].deadline
    ensures i < j
  {
    if j < i {
      assert LaterOnly(h, j, now);
      DueSinceStart(h, j, i, now, a);
      KeepsDeadline(h, n, j, a);
      KeepsDeadline(h, n, j, b);
      WaitingTieFiresByToken(h, j, i);
    }
  }

  /** Of two timers that wait for one deadline when a dispatch begins, and fire in it, the one with the lesser token
      fires first. */
  lemma LesserTokenFiresFirst(h: seq<Event>, n: nat, now: int, a: Token, b: Token)
    requires Legal(h) && n <= |h| && DueFirings(h, n, now) && LaterOnly(h, n, now)
    requires a in Live(h[..n]) && b in Live(h[..n]) && Live(h[..n])[a].deadline == Live(h[..n])[b].deadline
    requires FiredFrom(h, n, a) && FiredFrom(h, n, b) && Precedes(a, b)
    ensures FiresBefore(h, a, b)
  {
    var i := FiringPosition(h, n, a);
    var j := FiringPosition(h, n, b);
    LesserTokenIsFirst(h, n, now, i, j, a, b);
  }
}
