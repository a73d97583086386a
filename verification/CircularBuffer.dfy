/** The receive ring: bytes in an array, addressed by two 64-bit counters that wrap around. */
module CircularBuffers {
  import opened Basics
  import opened Memory
  import opened Remainders

  lemma WholeIsPower()
    ensures PowerOfTwo(U64)
  {
    assert PowerOfTwo(256);
    ProductOfPowers(256, 256);
    ProductOfPowers(0x1_0000, 0x1_0000);
    ProductOfPowers(0x1_0000_0000, 0x1_0000_0000);
  }

  // ---- ring contents ----

  /** The n bytes from this counter on. */
  function Ring(s: seq<Byte>, start: nat, n: nat): (r: seq<Byte>)
    requires |s| > 0
    ensures |r| == n && forall k :: 0 <= k < n ==> r[k] == s[Place(start + k, |s|)]
  {
    seq(n, k requires 0 <= k < n => s[Place(start + k, |s|)])
  }

  lemma RingMoves(s: seq<Byte>, a: nat, b: nat, n: nat)
    requires |s| > 0 && a % |s| == b % |s|
    ensures Ring(s, a, n) == Ring(s, b, n)
  {
    forall k | 0 <= k < n ensures Ring(s, a, n)[k] == Ring(s, b, n)[k] {
      SamePlace(a, b, k, |s|);
    }
  }

  lemma RingDrop(s: seq<Byte>, start: nat, n: nat, d: nat)
    requires |s| > 0 && d <= n
    ensures Ring(s, start, n)[d..] == Ring(s, start + d, n - d)
  {
  }

  /** Bytes put where the contents end are appended to them. */
  lemma RingGrows(s: seq<Byte>, t: seq<Byte>, start: nat, n: nat, src: seq<Byte>)
    requires |s| == |t| > 0 && n + |src| <= |s|
    requires Ring(t, start + n, |src|) == src
    requires forall i :: 0 <= i < |s| && !Touched(|s|, start + n, |src|, i) ==> t[i] == s[i]
    ensures Ring(t, start, n + |src|) == Ring(s, start, n) + src
  {
    var after := Ring(t, start, n + |src|);
    forall k | 0 <= k < n ensures after[k] == Ring(s, start, n)[k] {
      Untouched(|s|, start + k, start + n, |src|);
    }
    RingDrop(t, start, n + |src|, n);
    assert after == after[..n] + after[n..];
    assert after[..n] == Ring(s, start, n);
  }

  /** A place among the n that start here. */
  ghost predicate Touched(m: nat, start: nat, n: nat, i: int)
    requires m > 0
  {
    exists c: nat :: start <= c < start + n && i == Place(c, m)
  }

  /** Where in a ring of m bytes a counter points. */
  function Place(counter: nat, m: nat): nat
    requires m > 0
  {
    counter % m
  }

  lemma PlacesApart(x: nat, y: nat, m: nat)
    requires m > 0 && x < y < x + m
    ensures Place(x, m) != Place(y, m)
  {
    PlacesDiffer(x, y, m);
  }

  lemma Untouched(m: nat, x: nat, start: nat, n: nat)
    requires m > 0 && x < start && start + n <= x + m
    ensures !Touched(m, start, n, Place(x, m))
  {
    forall c: nat | start <= c < start + n ensures Place(x, m) != Place(c, m) {
      PlacesApart(x, c, m);
    }
  }

  lemma PlaceInRun(c: nat, k: nat, m: nat)
    requires m > 0 && k <= m
    ensures var idx := Place(c, m); Place(c + k, m) == if idx + k < m then idx + k else idx + k - m
  {
    var idx := Place(c, m);
    if idx + k < m {
      DivModUnique(c + k, c / m, idx + k, m);
    } else if idx + k - m < m {
      DivModUnique(c + k, c / m + 1, idx + k - m, m);
    }
  }

  /** Two copies, the second from the start of the array, write a run of bytes around the end. */
  lemma CopiedAround(s: seq<Byte>, c: nat, src: seq<Byte>, first: nat)
    requires |s| > 0 && |src| <= |s| && first <= |src|
    requires var idx := Place(c, |s|); first == if |src| <= |s| - idx then |src| else |s| - idx
    ensures var t := Overwritten(Overwritten(s, Place(c, |s|), src[..first]), 0, src[first..]);
            && |t| == |s| && Ring(t, c, |src|) == src
            && forall i :: 0 <= i < |s| && !Touched(|s|, c, |src|, i) ==> t[i] == s[i]
  {
    var m, idx := |s|, Place(c, |s|);
    var t := Overwritten(Overwritten(s, idx, src[..first]), 0, src[first..]);
    forall k: nat | k < |src| ensures t[Place(c + k, m)] == src[k] {
      PlaceInRun(c, k, m);
    }
    forall i | 0 <= i < m && !Touched(m, c, |src|, i) ensures t[i] == s[i] {
      if idx <= i < idx + first {
        PlaceInRun(c, i - idx, m);
      } else if i < |src| - first {
        PlaceInRun(c, i + first, m);
      }
    }
  }

  /** The two copies append the bytes to contents that end where the first copy starts. */
  lemma WrittenAround(s: seq<Byte>, start: nat, n: nat, end: nat, src: seq<Byte>, first: nat)
    requires |s| > 0 && n + |src| <= |s| && first <= |src| && Place(end, |s|) == Place(start + n, |s|)
    requires var idx := Place(end, |s|); first == if |src| <= |s| - idx then |src| else |s| - idx
    ensures var t := Overwritten(Overwritten(s, Place(end, |s|), src[..first]), 0, src[first..]);
            Ring(t, start, n + |src|) == Ring(s, start, n) + src
  {
    CopiedAround(s, start + n, src, first);
    RingGrows(s, Overwritten(Overwritten(s, Place(end, |s|), src[..first]), 0, src[first..]), start, n, src);
  }

  /** The oldest n bytes lie in two runs, the second from the start of the array. */
  lemma RingHead(s: seq<Byte>, start: nat, size: nat, n: nat, first: nat)
    requires |s| > 0 && n <= size <= |s|
    requires var idx := Place(start, |s|); first == if n < |s| - idx then n else |s| - idx
    ensures Ring(s, start, size)[..n] == s[Place(start, |s|)..Place(start, |s|) + first] + s[..n - first]
  {
    var idx := Place(start, |s|);
    var both := s[idx..idx + first] + s[..n - first];
    forall k: nat | k < n ensures Ring(s, start, size)[k] == both[k] {
      PlaceInRun(start, k, |s|);
    }
  }

  /** Counting up the read counter by n takes n from the 64-bit difference; counting up the write counter adds it. */
  lemma GapAfterRead(r: nat, w: nat, n: nat)
    requires r < U64 && w < U64 && n <= (w - r) % U64
    ensures (w - (r + n) % U64) % U64 == (w - r) % U64 - n
  {
  }

  lemma GapCloses(r: nat, w: nat)
    requires r < U64 && w < U64
    ensures w == (r + (w - r) % U64) % U64
  {
  }

  lemma GapAfterWrite(r: nat, w: nat, n: nat)
    requires r < U64 && w < U64 && (w - r) % U64 + n < U64
    ensures ((w + n) % U64 - r) % U64 == (w - r) % U64 + n
  {
  }

  class CircularBuffer {
    const storage: array<Byte>
    var readSeq: nat
    var writeSeq: nat

    ghost predicate Valid()
      reads this
    {
      && PowerOfTwo(storage.Length) && storage.Length < U64
      && readSeq < U64 && writeSeq < U64
      && Size() <= storage.Length
    }

    /** The difference of the counters in 64-bit arithmetic. */
    function Size(): nat
      reads this
    {
      (writeSeq - readSeq) % U64
    }

    function Capacity(): nat {
      storage.Length
    }

    function Writable(): nat
      reads this
      requires Valid()
    {
      storage.Length - Size()
    }

    /** How much can be written before the end of the array. */
    function ContiguousWritable(): nat
      reads this
      requires Valid()
    {
      var run := storage.Length - Place(writeSeq, storage.Length);
      if Writable() < run then Writable() else run
    }

    /** The bytes in the ring, oldest first. */
    ghost function Contents(): (s: seq<Byte>)
      reads this, storage
      requires Valid()
      ensures |s| == Size()
    {
      Ring(storage[..], readSeq, Size())
    }

    constructor (capacity: nat)
      requires PowerOfTwo(capacity) && capacity < U64
      ensures Valid() && Contents() == [] && Capacity() == capacity && fresh(storage)
    {
      storage := new Byte[capacity];
      readSeq, writeSeq := 0, 0;
    }

    /** The write counter points behind the contents, also after either counter has wrapped. */
    lemma EndPlace()
      requires Valid()
      ensures Place(writeSeq, storage.Length) == Place(readSeq + Size(), storage.Length)
    {
      WholeIsPower();
      GapCloses(readSeq, writeSeq);
      NestedRemainder(readSeq + Size(), storage.Length, U64);
    }

    lemma Advanced(counter: nat, n: nat)
      requires Valid()
      ensures Place((counter + n) % U64, storage.Length) == Place(counter + n, storage.Length)
    {
      WholeIsPower();
      NestedRemainder(counter + n, storage.Length, U64);
    }

    method Consume(n: nat) returns (ok: bool)
      requires Valid()
      modifies this`readSeq
      ensures Valid() && ok == (n <= |old(Contents())|)
      ensures Contents() == if ok then old(Contents())[n..] else old(Contents())
    {
      if Size() < n {
        return false;
      }
      RingDrop(storage[..], readSeq, Size(), n);
      Advanced(readSeq, n);
      RingMoves(storage[..], readSeq + n, (readSeq + n) % U64, Size() - n);
      GapAfterRead(readSeq, writeSeq, n);
      readSeq := (readSeq + n) % U64;
      ok := true;
    }

    /** Makes part of the writable space readable, with whatever bytes it holds. */
    method Commit(n: nat) returns (ok: bool)
      requires Valid()
      modifies this`writeSeq
      ensures Valid() && ok == (n <= old(Writable()))
      ensures Contents() == if ok then Ring(storage[..], readSeq, old(Size()) + n) else old(Contents())
      ensures ok ==> Size() == old(Size()) + n
    {
      if Writable() < n {
        return false;
      }
      GapAfterWrite(readSeq, writeSeq, n);
      writeSeq := (writeSeq + n) % U64;
      ok := true;
    }

    /** Copies the oldest bytes to a place in `dst` without consuming them. */
    method Peek(dst: array<Byte>, at: nat, n: nat) returns (ok: bool)
      requires Valid() && at + n <= dst.Length && dst != storage
      modifies dst
      ensures ok == (n <= |Contents()|)
      ensures dst[..] == if ok then Overwritten(old(dst[..]), at, Contents()[..n]) else old(dst[..])
    {
      if Size() < n {
        return false;
      }
      var idx := Place(readSeq, storage.Length);
      var first := if n < storage.Length - idx then n else storage.Length - idx;
      ghost var d, s := dst[..], Contents();
      var a, b := storage[idx..idx + first], storage[..n - first];
      RingHead(storage[..], readSeq, Size(), n, first);
      assert s[..n] == a + b;
      OverwrittenTwice(d, at, a, b);
      Copy(dst, at, a);
      Copy(dst, at + first, b);
      assert dst[..] == Overwritten(d, at, s[..n]);
      ok := true;
    }

    method Read(dst: array<Byte>, at: nat, n: nat) returns (ok: bool)
      requires Valid() && at + n <= dst.Length && dst != storage
      modifies this`readSeq, dst
      ensures Valid() && ok == (n <= |old(Contents())|)
      ensures dst[..] == if ok then Overwritten(old(dst[..]), at, old(Contents())[..n]) else old(dst[..])
      ensures Contents() == if ok then old(Contents())[n..] else old(Contents())
    {
      ok := Peek(dst, at, n);
      if ok {
        var _ := Consume(n);
      }
    }

    /** Appends all the bytes, or none when they do not fit. */
    method Write(src: seq<Byte>) returns (ok: bool)
      requires Valid()
      modifies this`writeSeq, storage
      ensures Valid() && ok == (|src| <= old(Writable()))
      ensures Contents() == if ok then old(Contents()) + src else old(Contents())
    {
      if Writable() < |src| {
        return false;
      }
      var idx := Place(writeSeq, storage.Length);
      var first := if |src| < storage.Length - idx then |src| else storage.Length - idx;
      ghost var s := storage[..];
      EndPlace();
      WrittenAround(s, readSeq, Size(), writeSeq, src, first);
      Copy(storage, idx, src[..first]);
      Copy(storage, 0, src[first..]);
      ok := Commit(|src|);
    }

    /** What a receive from the socket does: bytes put into the writable span, then committed. */
    method Deposit(src: seq<Byte>)
      requires Valid() && |src| <= ContiguousWritable()
      modifies this`writeSeq, storage
      ensures Valid() && Contents() == old(Contents()) + src
    {
      var idx := Place(writeSeq, storage.Length);
      ghost var s := storage[..];
      EndPlace();
      WrittenAround(s, readSeq, Size(), writeSeq, src, |src|);
      Copy(storage, idx, src);
      assert src[..|src|] == src;
      assert Overwritten(storage[..], 0, src[|src|..]) == storage[..];
      var _ := Commit(|src|);
    }

    method Clear()
      requires Valid()
      modifies this
      ensures Valid() && Contents() == []
    {
      readSeq, writeSeq := 0, 0;
    }
  }
}
