/** The deadline heap: a vector kept in heap order, least entry in front. */
module TimerQueues {
  import opened Basics
  import opened TimerHistory

  function Parent(k: nat): nat
    requires k > 0
  {
    (k - 1) / 2
  }

  /** An entry is not before its parent. */
  predicate Linked(h: seq<Entry>, k: nat)
    requires 0 < k < |h|
  {
    AtMost(h[Parent(k)], h[k])
  }

  ghost predicate Ordered(h: seq<Entry>) {
    forall k: nat :: 0 < k < |h| ==> Linked(h, k)
  }

  function Swapped(h: seq<Entry>, i: nat, j: nat): seq<Entry>
    requires i < |h| && j < |h|
  {
    h[i := h[j]][j := h[i]]
  }

  lemma SwapKeeps(h: seq<Entry>, i: nat, j: nat)
    requires i < |h| && j < |h|
    ensures multiset(Swapped(h, i, j)) == multiset(h)
  {
  }

  /** Only the link from i to its parent may be broken; its children fit under its parent. */
  ghost predicate BrokenAbove(h: seq<Entry>, i: nat) {
    && (forall k: nat :: 0 < k < |h| && k != i ==> Linked(h, k))
    && (forall k: nat :: 0 < k < |h| && Parent(k) == i && 0 < i < |h| ==> AtMost(h[Parent(i)], h[k]))
  }

  lemma RiseStep(h: seq<Entry>, i: nat)
    requires 0 < i < |h| && BrokenAbove(h, i) && !Linked(h, i)
    ensures BrokenAbove(Swapped(h, i, Parent(i)), Parent(i))
  {
    var p := Parent(i);
    var g := Swapped(h, i, p);
    forall k: nat | 0 < k < |g| && k != p ensures Linked(g, k) {
      if k != i && Parent(k) == p {
        assert Linked(h, k);
      } else if k != i && Parent(k) != i {
        assert Linked(h, k);
      }
    }
    forall k: nat | 0 < k < |g| && Parent(k) == p && 0 < p ensures AtMost(g[Parent(p)], g[k]) {
      assert Linked(h, p);
      if k != i {
        assert Linked(h, k);
      }
    }
  }

  /** Only links from the children of i may be broken; they fit under its parent. */
  ghost predicate BrokenBelow(h: seq<Entry>, i: nat) {
    && (forall k: nat :: 0 < k < |h| && Parent(k) != i ==> Linked(h, k))
    && (forall k: nat :: 0 < k < |h| && Parent(k) == i && 0 < i < |h| ==> AtMost(h[Parent(i)], h[k]))
  }

  ghost predicate ChildrenAtLeast(h: seq<Entry>, i: nat, e: Entry) {
    forall k: nat :: 0 < k < |h| && Parent(k) == i ==> AtMost(e, h[k])
  }

  lemma LeastChild(h: seq<Entry>, i: nat, c: nat)
    requires 0 < c < |h| && (c == 2 * i + 1 || c == 2 * i + 2)
    requires c == 2 * i + 1 ==> c + 1 >= |h| || AtMost(h[c], h[c + 1])
    requires c == 2 * i + 2 ==> !AtMost(h[c - 1], h[c])
    ensures Parent(c) == i && ChildrenAtLeast(h, i, h[c])
  {
  }

  lemma SinkStops(h: seq<Entry>, i: nat, c: nat)
    requires 0 < c < |h| && Parent(c) == i && BrokenBelow(h, i) && Linked(h, c) && ChildrenAtLeast(h, i, h[c])
    ensures Ordered(h)
  {
  }

  lemma SinkStep(h: seq<Entry>, i: nat, c: nat)
    requires 0 < c < |h| && Parent(c) == i && BrokenBelow(h, i) && !Linked(h, c)
    requires ChildrenAtLeast(h, i, h[c])
    ensures BrokenBelow(Swapped(h, i, c), c)
  {
    var g := Swapped(h, i, c);
    forall k: nat | 0 < k < |g| && Parent(k) != c ensures Linked(g, k) {
      if Parent(k) != i && k != i {
        assert Linked(h, k);
      }
    }
    forall k: nat | 0 < k < |g| && Parent(k) == c ensures AtMost(g[Parent(c)], g[k]) {
      assert Linked(h, k);
    }
  }

  /** The front of an ordered heap is its least entry. */
  lemma {:induction false} FrontIsLeast(h: seq<Entry>, k: nat)
    requires Ordered(h) && k < |h|
    ensures AtMost(h[0], h[k])
  {
    if k > 0 {
      FrontIsLeast(h, Parent(k));
      assert Linked(h, k);
    }
  }

  class TimerQueue {
    var heap: seq<Entry>

    ghost predicate Valid()
      reads this
    {
      Ordered(heap)
    }

    constructor ()
      ensures Valid() && heap == []
    {
      heap := [];
    }

    /** The least entry. */
    method Top() returns (top: Option<Entry>)
      requires Valid()
      ensures top.None? <==> heap == []
      ensures top.Some? ==> top.value == heap[0] && forall e :: e in heap ==> AtMost(top.value, e)
    {
      if heap == [] {
        return None;
      }
      forall e | e in heap ensures AtMost(heap[0], e) {
        var k: nat :| k < |heap| && heap[k] == e;
        FrontIsLeast(heap, k);
      }
      top := Some(heap[0]);
    }

    method Push(deadline: int, id: Token)
      requires Valid()
      modifies this
      ensures Valid() && multiset(heap) == old(multiset(heap)) + multiset{Entry(deadline, id)}
    {
      heap := heap + [Entry(deadline, id)];
      ghost var all := multiset(heap);
      var i := |heap| - 1;
      Appended(old(heap), Entry(deadline, id));
      while i > 0 && !Linked(heap, i)
        invariant 0 <= i < |heap| && multiset(heap) == all
        invariant BrokenAbove(heap, i)
      {
        RiseStep(heap, i);
        SwapKeeps(heap, i, Parent(i));
        heap := Swapped(heap, i, Parent(i));
        i := Parent(i);
      }
    }

    /** Removes the least entry, if there is one. */
    method Pop()
      requires Valid()
      modifies this
      ensures Valid()
      ensures old(heap) == [] ==> heap == []
      ensures old(heap) != [] ==> multiset(old(heap)) == multiset(heap) + multiset{old(heap)[0]}
    {
      if heap == [] {
        return;
      }
      var last := |heap| - 1;
      SwapKeeps(heap, 0, last);
      heap := Swapped(heap, 0, last);
      assert heap == heap[..last] + [heap[last]];
      heap := heap[..last];
      Dropped(old(heap), heap);
      SiftDown();
    }

    /** Restores the order below the front. */
    method SiftDown()
      requires BrokenBelow(heap, 0)
      modifies this
      ensures Valid() && multiset(heap) == old(multiset(heap))
    {
      var i := 0;
      while 2 * i + 1 < |heap|
        invariant 0 <= i <= |heap| && multiset(heap) == old(multiset(heap))
        invariant BrokenBelow(heap, i)
        decreases |heap| - i
      {
        var c := 2 * i + 1;
        if c + 1 < |heap| && !AtMost(heap[c], heap[c + 1]) {
          c := c + 1;
        }
        LeastChild(heap, i, c);
        if Linked(heap, c) {
          SinkStops(heap, i, c);
          return;
        }
        SinkStep(heap, i, c);
        SwapKeeps(heap, i, c);
        heap := Swapped(heap, i, c);
        i := c;
      }
      forall k: nat | 0 < k < |heap| ensures Linked(heap, k) {
        assert Parent(k) != i;
      }
    }
  }

  lemma Appended(h: seq<Entry>, e: Entry)
    requires Ordered(h)
    ensures BrokenAbove(h + [e], |h|)
  {
    var g := h + [e];
    forall k: nat | 0 < k < |g| && k != |h| ensures Linked(g, k) {
      assert Linked(h, k);
    }
  }

  lemma Dropped(h: seq<Entry>, g: seq<Entry>)
    requires h != [] && Ordered(h) && g == Swapped(h, 0, |h| - 1)[..|h| - 1]
    ensures BrokenBelow(g, 0)
  {
    forall k: nat | 0 < k < |g| && Parent(k) != 0 ensures Linked(g, k) {
      assert Linked(h, k);
    }
  }
}
