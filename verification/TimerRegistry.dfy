/** The slot table: which token stands for which handler. */
module TimerRegistries {
  import opened Basics
  import opened TimerHistory

  datatype Slot = Slot(handler: Option<Handler>, generation: nat, active: bool)

  /** The handler a token stands for, if it is not stale. */
  function Resolved(slots: seq<Slot>, id: Token): Option<Handler> {
    if id.generation == 0 || id.index >= |slots| then None
    else
      var slot := slots[id.index];
      if !slot.active || slot.generation != id.generation then None else slot.handler
  }

  /** The table has handed out this token at some time. */
  predicate Issued(slots: seq<Slot>, id: Token) {
    && 0 < id.generation && id.index < |slots|
    && (id.generation < slots[id.index].generation
        || (id.generation == slots[id.index].generation && slots[id.index].active))
  }

  // ---- which token comes next ----

  /** The slots with the indices that are free, the one freed last at the end. */
  datatype Table = Table(slots: seq<Slot>, free: seq<nat>)

  function NextIndex(t: Table): nat {
    if t.free == [] then |t.slots| else t.free[|t.free| - 1]
  }

  /** The slot freed last, in its present generation; if none is free a new slot, in its first. */
  function NextToken(t: Table): Token {
    var index := NextIndex(t);
    Token(if index < |t.slots| then t.slots[index].generation else 1, index)
  }

  function Inserted(t: Table, handler: Handler): Table {
    var id := NextToken(t);
    var slot := Slot(Some(handler), id.generation, true);
    Table(if id.index < |t.slots| then t.slots[id.index := slot] else t.slots + [slot],
          if t.free == [] then [] else t.free[..|t.free| - 1])
  }

  /** A token that stands for no handler changes nothing. */
  function Released(t: Table, id: Token): Table {
    if Resolved(t.slots, id) == None then t
    else Table(t.slots[id.index := Slot(None, id.generation + 1, false)], t.free + [id.index])
  }

  /** The table after a history, if it begins empty. */
  function TableAfter(h: seq<Event>): Table {
    if h == [] then Table([], [])
    else
      var before, e := TableAfter(h[..|h| - 1]), h[|h| - 1];
      if e.Scheduled? then Inserted(before, e.handler) else Released(before, e.id)
  }

  /** Every token of the history is the one the table hands out at that point. */
  predicate FromTable(h: seq<Event>) {
    h == [] ||
    var before, e := h[..|h| - 1], h[|h| - 1];
    FromTable(before) && (e.Scheduled? ==> e.id == NextToken(TableAfter(before)))
  }

  lemma FromTableStep(h: seq<Event>, e: Event)
    requires FromTable(h) && (e.Scheduled? ==> e.id == NextToken(TableAfter(h)))
    ensures FromTable(h + [e])
    ensures TableAfter(h + [e]) == if e.Scheduled? then Inserted(TableAfter(h), e.handler)
                                   else Released(TableAfter(h), e.id)
  {
    var g := h + [e];
    assert g[..|g| - 1] == h;
  }

  lemma {:induction false} TokenIsNext(h: seq<Event>, i: nat)
    requires FromTable(h) && i < |h| && h[i].Scheduled?
    ensures h[i].id == NextToken(TableAfter(h[..i]))
  {
    var n := |h| - 1;
    if i < n {
      TokenIsNext(h[..n], i);
      assert h[..n][..i] == h[..i];
    }
  }

  // ---- freed last, handed out first ----

  /** These tokens end, one after the other. */
  function EndAll(t: Table, ids: seq<Token>): Table {
    if ids == [] then t else Released(EndAll(t, ids[..|ids| - 1]), ids[|ids| - 1])
  }

  /** And these handlers are inserted. */
  function InsertAll(t: Table, handlers: seq<Handler>): Table {
    if handlers == [] then t else Inserted(InsertAll(t, handlers[..|handlers| - 1]), handlers[|handlers| - 1])
  }

  ghost predicate LiveOnSeparateSlots(t: Table, ids: seq<Token>) {
    && (forall i :: 0 <= i < |ids| ==> Resolved(t.slots, ids[i]).Some?)
    && (forall i, j :: 0 <= i < j < |ids| ==> ids[i].index != ids[j].index)
  }

  function Indices(ids: seq<Token>): seq<nat> {
    seq(|ids|, i requires 0 <= i < |ids| => ids[i].index)
  }

  predicate FreedSlot(slots: seq<Slot>, id: Token) {
    id.index < |slots| && slots[id.index].generation == id.generation + 1
  }

  /** These tokens' slots are free now, in this order, in their next generation; the other slots are as they were. */
  ghost predicate Freed(t: Table, u: Table, ids: seq<Token>) {
    && |u.slots| == |t.slots| && u.free == t.free + Indices(ids)
    && (forall i :: 0 <= i < |ids| ==> FreedSlot(u.slots, ids[i]))
    && (forall x :: 0 <= x < |t.slots| && x !in Indices(ids) ==> u.slots[x] == t.slots[x])
  }

  lemma FreedOneMore(t: Table, u: Table, front: seq<Token>, last: Token)
    requires Freed(t, u, front) && Resolved(t.slots, last).Some? && last.index !in Indices(front)
    requires forall i :: 0 <= i < |front| ==> front[i].index != last.index
    ensures Freed(t, Released(u, last), front + [last])
  {
    var all, v := front + [last], Released(u, last);
    assert u.slots[last.index] == t.slots[last.index];
    assert Indices(all) == Indices(front) + [last.index];
    forall i | 0 <= i < |all| ensures FreedSlot(v.slots, all[i]) {
      if i < |front| {
        assert FreedSlot(u.slots, front[i]);
      }
    }
  }

  lemma {:induction false} EndedAreFreed(t: Table, ids: seq<Token>)
    requires LiveOnSeparateSlots(t, ids)
    ensures Freed(t, EndAll(t, ids), ids)
  {
    if ids == [] {
      assert Indices(ids) == [] && t.free + [] == t.free;
    } else {
      var front, last := ids[..|ids| - 1], ids[|ids| - 1];
      EndedAreFreed(t, front);
      assert ids == front + [last];
      FreedOneMore(t, EndAll(t, front), front, last);
    }
  }

  lemma {:induction false} InsertedFromFree(t: Table, handlers: seq<Handler>)
    requires |handlers| <= |t.free| && forall k :: 0 <= k < |t.free| ==> t.free[k] < |t.slots|
    ensures var u := InsertAll(t, handlers);
            && |u.slots| == |t.slots| && u.free == t.free[..|t.free| - |handlers|]
            && forall x :: 0 <= x < |t.slots| ==> u.slots[x].generation == t.slots[x].generation
  {
    if handlers != [] {
      InsertedFromFree(t, handlers[..|handlers| - 1]);
    } else {
      assert t.free[..|t.free|] == t.free;
    }
  }

  /** After tokens have ended, the next tokens handed out are theirs in the reverse order, each in its slot's next
      generation. */
  lemma ReusedInReverse(t: Table, ids: seq<Token>, handlers: seq<Handler>)
    requires LiveOnSeparateSlots(t, ids) && |handlers| < |ids|
    requires forall k :: 0 <= k < |t.free| ==> t.free[k] < |t.slots|
    ensures var last := ids[|ids| - 1 - |handlers|];
            NextToken(InsertAll(EndAll(t, ids), handlers)) == Token(last.generation + 1, last.index)
  {
    EndedAreFreed(t, ids);
    var u, n := EndAll(t, ids), |ids| - |handlers|;
    InsertedFromFree(u, handlers);
    var left := InsertAll(u, handlers).free;
    assert left == t.free + Indices(ids)[..n];
    assert left[|left| - 1] == ids[n - 1].index && FreedSlot(u.slots, ids[n - 1]);
  }

  predicate SlotOk(slots: seq<Slot>, free: seq<nat>, i: nat)
    requires i < |slots|
  {
    && slots[i].generation > 0
    && slots[i].active == slots[i].handler.Some?
    && (i in free <==> !slots[i].active)
  }

  class TimerRegistry {
    var slots: seq<Slot>
    var free: seq<nat>

    /** The free list names exactly the inactive slots, each once. */
    ghost predicate Valid()
      reads this
    {
      && (forall i: nat :: i < |slots| ==> SlotOk(slots, free, i))
      && (forall k: nat :: k < |free| ==> free[k] < |slots|)
      && (forall j, k :: 0 <= j < k < |free| ==> free[j] != free[k])
    }

    function Now(): Table
      reads this
    {
      Table(slots, free)
    }

    constructor ()
      ensures Valid() && Now() == Table([], [])
    {
      slots, free := [], [];
    }

    method Contains(id: Token) returns (found: bool)
      requires Valid()
      ensures found == Resolved(slots, id).Some?
    {
      found := Resolved(slots, id).Some?;
    }

    /** Hands out the next token, which was never handed out before. */
    method Insert(handler: Handler) returns (id: Token)
      requires Valid()
      modifies this
      ensures Valid() && id == NextToken(old(Now())) && Now() == Inserted(old(Now()), handler)
      ensures !Issued(old(slots), id) && Issued(slots, id) && Resolved(slots, id) == Some(handler)
      ensures forall t: Token :: t != id ==> Resolved(slots, t) == Resolved(old(slots), t)
      ensures forall t: Token :: t != id ==> Issued(slots, t) == Issued(old(slots), t)
    {
      var index;
      if free == [] {
        index := |slots|;
        slots := slots + [Slot(None, 1, false)];
      } else {
        index := free[|free| - 1];
        assert SlotOk(slots, free, index);
        free := free[..|free| - 1];
        assert old(free) == free + [index] && index !in free;
      }
      slots := slots[index := slots[index].(handler := Some(handler), active := true)];
      forall i: nat | i < |slots| ensures SlotOk(slots, free, i) {
        if i < |old(slots)| {
          assert SlotOk(old(slots), old(free), i);
        }
        assert i != index ==> (i in free <==> i in old(free));
      }
      id := Token(slots[index].generation, index);
    }

    /** Ends a token; the slot's next token differs from it. */
    method ReleaseSlot(index: nat)
      requires Valid() && index < |slots| && slots[index].active
      modifies this
      ensures Valid() && Now() == Released(old(Now()), Token(old(slots)[index].generation, index))
      ensures var id := Token(old(slots)[index].generation, index);
              && Resolved(slots, id) == None
              && (forall t: Token :: t != id ==> Resolved(slots, t) == Resolved(old(slots), t))
      ensures forall t: Token :: Issued(slots, t) == Issued(old(slots), t)
    {
      assert SlotOk(slots, free, index);
      slots := slots[index := Slot(None, slots[index].generation + 1, false)];
      free := free + [index];
      forall i: nat | i < |slots| ensures SlotOk(slots, free, i) {
        assert SlotOk(old(slots), old(free), i);
        assert i in free <==> i in old(free) || i == index;
      }
    }

    /** Gives the handler once; afterwards the token is stale. */
    method Consume(id: Token) returns (handler: Option<Handler>)
      requires Valid()
      modifies this
      ensures Valid() && Now() == Released(old(Now()), id)
      ensures handler == Resolved(old(slots), id) && Resolved(slots, id) == None
      ensures forall t: Token :: t != id ==> Resolved(slots, t) == Resolved(old(slots), t)
      ensures forall t: Token :: Issued(slots, t) == Issued(old(slots), t)
    {
      handler := Resolved(slots, id);
      if handler.Some? {
        ReleaseSlot(id.index);
      }
    }

    method Erase(id: Token) returns (erased: bool)
      requires Valid()
      modifies this
      ensures Valid() && Now() == Released(old(Now()), id)
      ensures erased == Resolved(old(slots), id).Some? && Resolved(slots, id) == None
      ensures forall t: Token :: t != id ==> Resolved(slots, t) == Resolved(old(slots), t)
      ensures forall t: Token :: Issued(slots, t) == Issued(old(slots), t)
    {
      erased := Resolved(slots, id).Some?;
      if erased {
        ReleaseSlot(id.index);
      }
    }
  }
}
