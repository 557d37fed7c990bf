/** The test runner's string class, which keeps up to 23 characters in the object itself. */
module SmallString {
  import opened Bytes

  const LEN: nat := 24
  const LAST: nat := 23
  const ON_HEAP: byte := 128

  /** Sizes are unsigned 32-bit numbers. */
  const SIZE_LIMIT: nat := 0x1_0000_0000

  /** The pointer, size and capacity share their memory with the first octets of the buffer. */
  const VIEW_SIZE: nat := 16

  method Memcpy(dst: array<byte>, at: nat, src: array<byte>, n: nat)
    requires dst != src && at + n <= dst.Length && n <= src.Length
    modifies dst
    ensures dst[..at] == old(dst[..at])
    ensures dst[at..at + n] == src[..n]
    ensures dst[at + n..] == old(dst[at + n..])
  {
    forall i | 0 <= i < n {
      dst[at + i] := src[i];
    }
  }

  class String {
    const buf: array<byte>
    var ptr: array<byte>
    var size: nat
    var capacity: nat

    predicate OnStack()
      requires buf.Length == LEN
      reads buf
    {
      buf[LAST] < 128
    }

    /** The flag octet holds the room left in the buffer, or says that the characters are on the heap. */
    ghost predicate Valid()
      reads Repr()
    {
      && buf.Length == LEN
      && (if OnStack() then buf[LAST] as nat <= LAST && buf[LAST - buf[LAST] as nat] == 0
          else
            && buf[LAST] == ON_HEAP && ptr != buf
            && size < capacity < SIZE_LIMIT && ptr.Length == capacity && ptr[size] == 0)
    }

    /** What the object owns: its heap block counts only while the flag says so. */
    ghost function Repr(): set<object>
      reads this, buf
    {
      if buf.Length == LEN && !OnStack() then {this, buf, ptr} else {this, buf}
    }

    /** The characters. */
    ghost function Text(): bytes
      requires Valid()
      reads Repr()
    {
      if OnStack() then buf[..LAST - buf[LAST] as nat] else ptr[..size]
    }

    /** The block `c_str` points to. */
    function Chars(): array<byte>
      requires buf.Length == LEN
      reads this, buf
    {
      if OnStack() then buf else ptr
    }

    method Size() returns (n: nat)
      requires Valid()
      ensures n == |Text()|
    {
      if OnStack() {
        n := LAST - buf[LAST] as nat % 32;
      } else {
        n := size;
      }
    }

    /** The text and the NUL behind it, as every reader of `c_str` sees them. */
    lemma IsTerminated()
      requires Valid()
      ensures |Text()| < Chars().Length
      ensures Chars()[..|Text()|] == Text() && Chars()[|Text()|] == 0
    {
    }

    constructor Empty()
      ensures Valid() && fresh(Repr()) && Text() == []
    {
      buf := new byte[LEN];
      ptr := new byte[0];
      size, capacity := 0, 0;
      new;
      buf[0] := 0;
      buf[LAST] := LAST as byte;
    }

    /** Writing the heap fields destroys the octets they share with the buffer. */
    method SetView(ptr: array<byte>, size: nat, capacity: nat)
      requires buf.Length == LEN
      modifies this, buf
      ensures this.ptr == ptr && this.size == size && this.capacity == capacity
      ensures buf[VIEW_SIZE..] == old(buf[VIEW_SIZE..])
    {
      for i := 0 to VIEW_SIZE
        invariant buf[VIEW_SIZE..] == old(buf[VIEW_SIZE..])
      {
        var b: byte := *;
        buf[i] := b;
      }
      this.ptr, this.size, this.capacity := ptr, size, capacity;
    }

    /** Room for `sz` characters and the NUL; the characters are whatever was there. */
    method Allocate(sz: nat)
      requires buf.Length == LEN && sz + 1 < SIZE_LIMIT
      modifies this, buf
      ensures Valid() && |Text()| == sz
      ensures OnStack() <==> sz <= LAST
      ensures !OnStack() ==> fresh(ptr)
    {
      if sz <= LAST {
        buf[sz] := 0;
        buf[LAST] := (LAST - sz) as byte;
      } else {
        var block := new byte[sz + 1];
        block[sz] := 0;
        buf[LAST] := ON_HEAP;
        SetView(block, sz, sz + 1);
        assert buf[LAST] == buf[VIEW_SIZE..][LAST - VIEW_SIZE];
      }
    }

    /** `memcpy(allocate(n), src, n)`. */
    method AllocateAndCopy(src: array<byte>, n: nat)
      requires buf.Length == LEN && n + 1 < SIZE_LIMIT
      requires src != buf && n <= src.Length
      modifies this, buf
      ensures Valid() && Text() == old(src[..n])
      ensures fresh(Repr() - {this, buf})
    {
      Allocate(n);
      ghost var flag := buf[LAST];
      Memcpy(Chars(), 0, src, n);
      assert OnStack() ==> buf[LAST] == buf[n..][LAST - n];
    }

    constructor FromChars(src: array<byte>, n: nat)
      requires n <= src.Length && n + 1 < SIZE_LIMIT
      ensures Valid() && fresh(Repr()) && Text() == src[..n]
    {
      buf := new byte[LEN];
      ptr := new byte[0];
      size, capacity := 0, 0;
      new;
      AllocateAndCopy(src, n);
    }

    /** `copy`: the whole buffer, or the characters on the heap; the old value is not read. */
    method Copy(other: String)
      requires buf.Length == LEN && other.Valid()
      requires other != this && other.buf != buf && (!other.OnStack() ==> other.ptr != buf)
      modifies this, buf
      ensures Valid() && Text() == old(other.Text())
      ensures fresh(Repr() - {this, buf})
    {
      if other.OnStack() {
        Memcpy(buf, 0, other.buf, LEN);
        assert buf[..] == other.buf[..];
        assert forall i :: 0 <= i < LEN ==> buf[i] == buf[..][i] && other.buf[i] == other.buf[..][i];
      } else {
        AllocateAndCopy(other.ptr, other.size);
      }
    }

    constructor FromCopy(other: String)
      requires other.Valid()
      ensures Valid() && fresh(Repr()) && Text() == other.Text()
    {
      buf := new byte[LEN];
      ptr := new byte[0];
      size, capacity := 0, 0;
      new;
      Copy(other);
    }

    /** Copy assignment, also from itself. The old heap block is released. */
    method CopyAssign(other: String)
      requires Valid() && other.Valid() && (other != this ==> Repr() !! other.Repr())
      modifies this, buf
      ensures Valid() && Text() == old(other.Text())
      ensures other != this ==> other.Valid() && other.Text() == old(other.Text())
      ensures fresh(Repr() - old(Repr()))
    {
      if this != other {
        Copy(other);
      }
    }

    /** The move constructor: the heap block changes its owner and the source is left empty. */
    constructor FromMove(other: String)
      requires other.Valid()
      modifies other.buf
      ensures Valid() && Text() == old(other.Text())
      ensures other.Valid() && other.Text() == [] && other.Repr() == {other, other.buf}
      ensures fresh(Repr() - old(other.Repr())) && Repr() !! other.Repr()
    {
      buf := new byte[LEN];
      ptr, size, capacity := other.ptr, other.size, other.capacity;
      new;
      Memcpy(buf, 0, other.buf, LEN);
      assert forall i :: 0 <= i < LEN ==> buf[i] == buf[..][i] && other.buf[i] == other.buf[..][i];
      other.buf[0] := 0;
      other.buf[LAST] := LAST as byte;
    }

    /** Move assignment, also from itself. */
    method MoveAssign(other: String)
      requires Valid() && other.Valid() && (other != this ==> Repr() !! other.Repr())
      modifies this, buf, other.buf
      ensures Valid() && Text() == old(other.Text())
      ensures other != this ==> other.Valid() && other.Text() == [] && other.Repr() == {other, other.buf}
      ensures other != this ==> Repr() <= old(Repr()) + old(other.Repr()) && Repr() !! other.Repr()
      ensures other == this ==> Repr() == old(Repr())
    {
      if this != other {
        Memcpy(buf, 0, other.buf, LEN);
        assert forall i :: 0 <= i < LEN ==> buf[i] == buf[..][i] && other.buf[i] == other.buf[..][i];
        ptr, size, capacity := other.ptr, other.size, other.capacity;
        other.buf[0] := 0;
        other.buf[LAST] := LAST as byte;
      }
    }

    /** Appending where the result still fits into the buffer. */
    method AppendOnStack(other: String, mySize: nat, otherSize: nat)
      requires Valid() && other.Valid() && Repr() !! other.Repr() && OnStack()
      requires mySize == |Text()| && otherSize == |other.Text()| && mySize + otherSize < LEN
      modifies buf
      ensures Valid() && OnStack() && Text() == old(Text()) + other.Text()
    {
      other.IsTerminated();
      Memcpy(buf, mySize, other.Chars(), otherSize + 1);
      assert buf[mySize..mySize + otherSize + 1] == other.Text() + [0];
      assert buf[..mySize] == old(Text());
      var room := LAST - (mySize + otherSize);
      assert buf[mySize + otherSize] == buf[mySize..mySize + otherSize + 1][otherSize] == 0;
      buf[LAST] := room as byte;
      assert buf[..mySize + otherSize] == buf[..mySize] + buf[mySize..mySize + otherSize];
      assert buf[mySize..mySize + otherSize] == other.Text();
    }

    /** Appending where the heap block has room. */
    method AppendOnHeap(other: String, mySize: nat, otherSize: nat)
      requires Valid() && other.Valid() && Repr() !! other.Repr() && !OnStack()
      requires mySize == |Text()| && otherSize == |other.Text()| && mySize + otherSize < capacity
      modifies this, ptr
      ensures Valid() && !OnStack() && ptr == old(ptr) && Text() == old(Text()) + old(other.Text())
      ensures capacity == old(capacity)
      ensures other.Valid() && other.Text() == old(other.Text())
    {
      other.IsTerminated();
      size := mySize + otherSize;
      AppendChars(ptr, mySize, other.Chars(), otherSize);
    }

    /** Appending where a new block is needed: both texts are copied before the old block is let go. */
    method AppendInto(block: array<byte>, other: String, mySize: nat, otherSize: nat)
      requires Valid() && other.Valid() && Repr() !! other.Repr()
      requires block !in Repr() && block !in other.Repr() && block != ptr && block != other.ptr
      requires mySize == |Text()| && otherSize == |other.Text()|
      requires mySize + otherSize < block.Length < SIZE_LIMIT
      modifies this, buf, block
      ensures Valid() && !OnStack() && ptr == block && Text() == old(Text()) + old(other.Text())
      ensures capacity == block.Length
      ensures other.Valid() && other.Text() == old(other.Text())
    {
      IsTerminated();
      other.IsTerminated();
      Memcpy(block, 0, Chars(), mySize);
      assert block[..mySize] == old(Text());
      buf[LAST] := ON_HEAP;
      SetView(block, mySize + otherSize, block.Length);
      assert buf[LAST] == buf[VIEW_SIZE..][LAST - VIEW_SIZE];
      AppendChars(block, mySize, other.Chars(), otherSize);
    }

    /** The same, in a block that is allocated for it. */
    method AppendAnew(newCapacity: nat, other: String, mySize: nat, otherSize: nat)
      requires Valid() && other.Valid() && Repr() !! other.Repr()
      requires mySize == |Text()| && otherSize == |other.Text()|
      requires mySize + otherSize < newCapacity < SIZE_LIMIT
      modifies this, buf
      ensures Valid() && Text() == old(Text()) + old(other.Text())
      ensures other.Valid() && other.Text() == old(other.Text())
      ensures !OnStack() && capacity == newCapacity
      ensures fresh(Repr() - {this, buf})
    {
      var temp := new byte[newCapacity];
      AppendInto(temp, other, mySize, otherSize);
    }

    /** Twice the capacity, which may wrap around, or as much as is needed. */
    function GrownCapacity(capacity: nat, totalSize: nat): (grown: nat)
      requires totalSize + 1 < SIZE_LIMIT
      ensures totalSize < grown < SIZE_LIMIT
      ensures totalSize < 2 * capacity < SIZE_LIMIT ==> grown == 2 * capacity
      ensures 2 * capacity <= totalSize ==> grown == totalSize + 1
    {
      var doubled := capacity * 2 % SIZE_LIMIT;
      if doubled <= totalSize then totalSize + 1 else doubled
    }

    /**
      `operator+=`, for another string. Up to 23 characters stay in the object;
      a block with room is kept, and one without is replaced by one that is at
      least twice as large, unless that does not fit 32 bits.
     */
    method Append(other: String)
      requires Valid() && other.Valid() && other != this && Repr() !! other.Repr()
      requires |Text()| + |other.Text()| + 1 < SIZE_LIMIT
      modifies Repr()
      ensures Valid() && Text() == old(Text()) + old(other.Text())
      ensures other.Valid() && other.Text() == old(other.Text())
      ensures fresh(Repr() - old(Repr()))
      ensures OnStack() <==> old(OnStack()) && |Text()| < LEN
      ensures old(!OnStack() && capacity > |Text()| + |other.Text()|) ==> ptr == old(ptr) && capacity == old(capacity)
      ensures old(!OnStack() && capacity <= |Text()| + |other.Text()| && 2 * capacity < SIZE_LIMIT) ==>
        capacity >= 2 * old(capacity)
    {
      var myOldSize := Size();
      var otherSize := other.Size();
      var totalSize := myOldSize + otherSize;
      if OnStack() {
        if totalSize < LEN {
          AppendOnStack(other, myOldSize, otherSize);
        } else {
          AppendAnew(totalSize + 1, other, myOldSize, otherSize);
        }
      } else {
        if capacity > totalSize {
          AppendOnHeap(other, myOldSize, otherSize);
        } else {
          AppendAnew(GrownCapacity(capacity, totalSize), other, myOldSize, otherSize);
        }
      }
    }
  }

  /** `memcpy(dst + at, src, n + 1)` where `src[n]` is the NUL. */
  method AppendChars(dst: array<byte>, at: nat, src: array<byte>, n: nat)
    requires dst != src && at + n < dst.Length && n < src.Length && src[n] == 0
    modifies dst
    ensures dst[..at + n] == old(dst[..at]) + src[..n]
    ensures dst[at + n] == 0
  {
    Memcpy(dst, at, src, n + 1);
    assert dst[at + n] == dst[at..at + n + 1][n] == src[..n + 1][n];
    assert dst[..at + n] == dst[..at] + dst[at..at + n + 1][..n];
    assert src[..n + 1][..n] == src[..n];
  }
}
