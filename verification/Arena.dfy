/** The bump allocator under a memtable: one atomic counter over a byte slab. */
module Arenas {
  import opened Bytes
  import ModArith

  /** Offsets are 32-bit, so a slab never exceeds this. */
  const MAX_SIZE := 0xFFFF_FFFF
  const NODE_ALIGNMENT := 4

  /** The counter after an allocation, successful or not: the request padded for alignment. */
  function Bumped(n: nat, size: nat, alignment: nat): nat
    requires alignment > 0
  {
    n + size + alignment - 1
  }

  /** Where the allocation starts: the end of the reservation minus the size, rounded down. */
  function OffsetIn(newN: nat, size: nat, alignment: nat): nat
    requires alignment > 0 && size <= newN
  {
    (newN - size) - (newN - size) % alignment
  }

  /** An allocation lies inside the stretch [n, Bumped) that its own bump claimed, so two
      allocations never share a byte whatever the order of the bumps. */
  lemma {:induction false} OffsetInsideReservation(n: nat, size: nat, alignment: nat)
    requires alignment > 0
    ensures var off := OffsetIn(Bumped(n, size, alignment), size, alignment);
      n <= off && off + size <= Bumped(n, size, alignment) && off % alignment == 0
  {
    var x := n + alignment - 1;
    assert x % alignment < alignment;
    ModArith.RoundDown(x, alignment);
  }

  datatype Allocation = Ok(offset: nat) | ErrFull

  class Arena {
    var n: nat
    const buf: array<byte>

    ghost predicate Valid()
      reads this
    {
      1 <= n && buf.Length <= MAX_SIZE
    }

    /** Offset 0 is reserved as the nil sentinel. */
    constructor (buf: array<byte>)
      requires buf.Length <= MAX_SIZE
      ensures Valid() && this.buf == buf && n == 1
    {
      this.buf := buf;
      n := 1;
    }

    /** The counter moves even when the arena is full, so every later request fails too. */
    method Alloc(size: nat, alignment: nat) returns (r: Allocation)
      requires Valid() && alignment > 0
      modifies this`n
      ensures Valid() && n == Bumped(old(n), size, alignment)
      ensures r.Ok? <==> n <= buf.Length
      ensures r.Ok? ==> old(n) <= r.offset && r.offset + size <= n && r.offset % alignment == 0
    {
      OffsetInsideReservation(n, size, alignment);
      n := Bumped(n, size, alignment);
      if n > buf.Length {
        return ErrFull;
      }
      r := Ok(OffsetIn(n, size, alignment));
    }

    function GetBytes(offset: nat, size: nat): bytes
      requires offset + size <= buf.Length
      reads buf
    {
      if offset == 0 then [] else buf[offset..offset + size]
    }

    method PutBytes(offset: nat, src: bytes)
      requires 0 < offset && offset + |src| <= buf.Length
      modifies buf
      ensures buf[..] == old(buf[..offset]) + src + old(buf[offset + |src|..])
      ensures GetBytes(offset, |src|) == src
      ensures forall o: nat, k: nat :: o + k <= buf.Length && (o + k <= offset || offset + |src| <= o)
                ==> GetBytes(o, k) == old(GetBytes(o, k))
    {
      for i := 0 to |src|
        invariant forall j :: 0 <= j < buf.Length ==>
          buf[j] == if offset <= j < offset + i then src[j - offset] else old(buf[j])
      {
        buf[offset + i] := src[i];
      }
    }
  }
}
