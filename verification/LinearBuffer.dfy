/** A message buffer: room in front, the data, room behind. */
module LinearBuffers {
  import opened Basics
  import opened Memory

  class LinearBuffer {
    const storage: array<Byte>
    var dataOffset: nat
    var tailOffset: nat

    ghost predicate Valid()
      reads this
    {
      dataOffset <= tailOffset <= storage.Length
    }

    ghost function Contents(): seq<Byte>
      reads this, storage
      requires Valid()
    {
      storage[dataOffset..tailOffset]
    }

    function Headroom(): nat
      reads this
    {
      dataOffset
    }

    function Tailroom(): nat
      reads this
      requires Valid()
    {
      storage.Length - tailOffset
    }

    function Size(): nat
      reads this
      requires Valid()
    {
      tailOffset - dataOffset
    }

    constructor (capacity: nat)
      ensures Valid() && fresh(storage) && storage.Length == capacity
      ensures Contents() == [] && Headroom() == 0
    {
      storage := new Byte[capacity];
      dataOffset, tailOffset := 0, 0;
    }

    method Consume(n: nat) returns (ok: bool)
      requires Valid()
      modifies this`dataOffset
      ensures Valid() && ok == (n <= |old(Contents())|)
      ensures Contents() == if ok then old(Contents())[n..] else old(Contents())
    {
      if Size() < n {
        return false;
      }
      dataOffset := dataOffset + n;
      ok := true;
    }

    /** Takes n bytes of the room behind, already written there, into the data. */
    method Commit(n: nat) returns (ok: bool)
      requires Valid()
      modifies this`tailOffset
      ensures Valid() && ok == (n <= old(Tailroom()))
      ensures ok ==> Contents() == old(Contents()) + storage[old(tailOffset)..old(tailOffset) + n]
      ensures !ok ==> Contents() == old(Contents())
      ensures ok ==> tailOffset == old(tailOffset) + n
    {
      if Tailroom() < n {
        return false;
      }
      tailOffset := tailOffset + n;
      ok := true;
    }

    method Append(src: seq<Byte>) returns (ok: bool)
      requires Valid()
      modifies this`tailOffset, storage
      ensures Valid() && ok == (|src| <= old(Tailroom()))
      ensures Contents() == if ok then old(Contents()) + src else old(Contents())
    {
      if Tailroom() < |src| {
        return false;
      }
      ghost var before := Contents();
      Copy(storage, tailOffset, src);
      tailOffset := tailOffset + |src|;
      assert Contents() == before + src;
      ok := true;
    }

    /** Puts bytes in front of the data, in the room kept for them. */
    method Prepend(src: seq<Byte>) returns (ok: bool)
      requires Valid()
      modifies this`dataOffset, storage
      ensures Valid() && ok == (|src| <= old(Headroom()))
      ensures Contents() == if ok then src + old(Contents()) else old(Contents())
      ensures ok ==> Headroom() == old(Headroom()) - |src|
    {
      if Headroom() < |src| {
        return false;
      }
      ghost var before := Contents();
      dataOffset := dataOffset - |src|;
      Copy(storage, dataOffset, src);
      assert Contents() == src + before;
      ok := true;
    }

    /** Only an empty buffer can set the room in front. */
    method SetHeadroom(n: nat) returns (ok: bool)
      requires Valid()
      modifies this`dataOffset, this`tailOffset
      ensures Valid() && Contents() == old(Contents())
      ensures ok == (old(Contents()) == [] && n <= storage.Length)
      ensures ok ==> Headroom() == n
      ensures !ok ==> Headroom() == old(Headroom())
    {
      if Size() != 0 || n > storage.Length {
        return false;
      }
      dataOffset, tailOffset := n, n;
      ok := true;
    }

    method GrowHeadroom(n: nat) returns (ok: bool)
      requires Valid()
      modifies this`dataOffset, this`tailOffset
      ensures Valid() && Contents() == old(Contents())
      ensures ok == (old(Contents()) == [] && n <= old(Tailroom()))
      ensures Headroom() == old(Headroom()) + if ok then n else 0
    {
      if Size() != 0 || n > Tailroom() {
        return false;
      }
      dataOffset, tailOffset := dataOffset + n, tailOffset + n;
      ok := true;
    }

    method Clear()
      modifies this`dataOffset, this`tailOffset
      ensures Valid() && Contents() == [] && Headroom() == 0
    {
      dataOffset, tailOffset := 0, 0;
    }
  }
}
