/** The growable byte array (core/ByteBuffer.cpp). */
module ByteBuffers {
  import opened Encoders
  import opened Crypto

  const FIRST_BLOCK: nat := 64
  const TWO63: nat := 0x8000_0000_0000_0000
  const TWO64: nat := 0x1_0000_0000_0000_0000

  // -------- the doubling rule --------

  function Pow2(k: nat): (p: nat)
    ensures p > 0
  {
    if k == 0 then 1 else 2 * Pow2(k - 1)
  }

  ghost predicate IsBlock(c: nat) {
    exists k: nat :: c == FIRST_BLOCK * Pow2(k)
  }

  lemma BlockDoubles(c: nat)
    requires IsBlock(c)
    ensures IsBlock(2 * c) && c >= FIRST_BLOCK
  {
    var k: nat :| c == FIRST_BLOCK * Pow2(k);
    assert 2 * c == FIRST_BLOCK * Pow2(k + 1);
  }

  lemma {:induction false} Pow2Monotone(j: nat, k: nat)
    requires j <= k
    ensures Pow2(j) <= Pow2(k)
  {
    if j < k {
      Pow2Monotone(j, k - 1);
    }
  }

  lemma Pow2Of57()
    ensures FIRST_BLOCK * Pow2(57) == TWO63
  {
    assert Pow2(10) == 0x400;
    assert Pow2(20) == 0x400 * Pow2(10) by { PowAdd(10, 10); }
    assert Pow2(40) == Pow2(20) * Pow2(20) by { PowAdd(20, 20); }
    assert Pow2(7) == 0x80;
    assert Pow2(17) == Pow2(10) * Pow2(7) by { PowAdd(10, 7); }
    assert Pow2(57) == Pow2(40) * Pow2(17) by { PowAdd(40, 17); }
  }

  lemma {:induction false} PowAdd(j: nat, k: nat)
    ensures Pow2(j + k) == Pow2(j) * Pow2(k)
  {
    if k > 0 {
      PowAdd(j, k - 1);
    }
  }

  /** Blocks below 2^63 double without passing it: size_t does not wrap. */
  lemma BlockFits(c: nat)
    requires IsBlock(c)
    ensures c < TWO63 ==> 2 * c <= TWO63
    ensures c > TWO63 ==> c >= TWO64
  {
    var k: nat :| c == FIRST_BLOCK * Pow2(k);
    Pow2Of57();
    if k < 57 {
      Pow2Monotone(k + 1, 57);
    } else if k > 57 {
      Pow2Monotone(58, k);
      assert Pow2(58) == 2 * Pow2(57);
    }
  }

  /** n doublings in 64-bit arithmetic. */
  function Doublings(c: nat, n: nat): nat {
    if n == 0 then c else 2 * Doublings(c, n - 1) % TWO64
  }

  /** Wrapping doublings of a block are blocks up to 2^63, or 0 from some time on
      and for ever. */
  lemma {:induction false} DoublingsStayBelow(c: nat, n: nat)
    requires IsBlock(c) && c <= TWO63
    ensures Doublings(c, n) == 0 || (IsBlock(Doublings(c, n)) && Doublings(c, n) <= TWO63)
    ensures Doublings(c, n) == 0 ==> forall m: nat :: n <= m ==> Doublings(c, m) == 0
  {
    if Doublings(c, n) == 0 {
      forall m: nat | n <= m
        ensures Doublings(c, m) == 0
      {
        ZeroStays(c, n, m);
      }
    }
    if n > 0 {
      DoublingsStayBelow(c, n - 1);
      var d := Doublings(c, n - 1);
      if d != 0 {
        BlockFits(d);
        BlockDoubles(d);
      }
    }
  }

  lemma {:induction false} ZeroStays(c: nat, n: nat, m: nat)
    requires n <= m && Doublings(c, n) == 0
    ensures Doublings(c, m) == 0
    decreases m
  {
    if n < m {
      ZeroStays(c, n, m - 1);
    }
  }

  /** The growth loop ends exactly for requests up to 2^63: no number of doublings
      exceeds that, and enough of them reach it. */
  lemma GrowthEndsIff(c: nat, need: nat)
    requires IsBlock(c) && c <= TWO63
    ensures (exists n: nat :: Doublings(c, n) >= need) <==> need <= TWO63
  {
    if n: nat :| Doublings(c, n) >= need {
      DoublingsStayBelow(c, n);
    }
    if need <= TWO63 {
      var n := ReachesTop(c);
      assert Doublings(c, n) >= need;
    }
  }

  lemma ReachesTop(c: nat) returns (n: nat)
    requires IsBlock(c) && c <= TWO63
    ensures Doublings(c, n) == TWO63
  {
    n := 0;
    while Doublings(c, n) < TWO63
      invariant IsBlock(Doublings(c, n)) && Doublings(c, n) <= TWO63
      decreases TWO63 - Doublings(c, n)
    {
      BlockFits(Doublings(c, n));
      BlockDoubles(Doublings(c, n));
      n := n + 1;
    }
  }

  /** The doubling loop of ensureCapacity, in 64-bit arithmetic. */
  method NextCapacity(capacity: nat, newCap: nat) returns (c: nat)
    requires capacity == 0 || IsBlock(capacity)
    requires capacity < newCap <= TWO63
    ensures IsBlock(c) && newCap <= c <= TWO63 && c >= 2 * capacity
    ensures c == FIRST_BLOCK || c < 2 * newCap
  {
    FirstBlock();
    if capacity != 0 {
      BlockFits(capacity);
      BlockDoubles(capacity);
    }
    c := if capacity != 0 then capacity * 2 % TWO64 else FIRST_BLOCK;
    while c < newCap
      invariant IsBlock(c) && c <= TWO63 && c >= 2 * capacity
      invariant c == FIRST_BLOCK || c < 2 * newCap
      decreases TWO63 - c
    {
      BlockFits(c);
      BlockDoubles(c);
      c := c * 2 % TWO64;
    }
  }

  // -------- the buffer --------

  function Max(a: nat, b: nat): nat {
    if a < b then b else a
  }

  class ByteBuffer {
    var data: array?<Byte>
    var size: nat
    var capacity: nat

    /** Bytes moved by growing so far, and the largest size the block was asked
        to hold. */
    ghost var copied: nat
    ghost var peak: nat

    ghost predicate Valid()
      reads this
    {
      && (data == null <==> capacity == 0)
      && (data != null ==> data.Length == capacity && IsBlock(capacity))
      && size <= capacity <= TWO63 && size <= peak
      && (if capacity == 0 then copied == 0 else copied < capacity)
      && (capacity == 0 || capacity == FIRST_BLOCK || capacity < 2 * peak)
    }

    ghost function Contents(): Bytes
      reads this, data
      requires Valid()
    {
      if data == null then [] else data[..size]
    }

    constructor ()
      ensures Valid() && Contents() == [] && data == null && copied == 0 && peak == 0
    {
      data := null;
      size := 0;
      capacity := 0;
      copied := 0;
      peak := 0;
    }

    /** The growth is the smallest number of doublings that suffices; copying
        stays below the capacity, so it is paid for by the bytes appended. */
    method EnsureCapacity(newCap: nat)
      requires Valid() && newCap <= TWO63
      modifies this
      ensures Valid() && Contents() == old(Contents()) && size == old(size)
      ensures peak == Max(old(peak), newCap) && Grown(old(data), old(capacity), newCap)
      ensures copied == old(copied) + if newCap > old(capacity) then size else 0
      ensures newCap > old(capacity) ==> fresh(data)
    {
      peak := Max(peak, newCap);
      if newCap <= capacity {
        return;
      }
      ghost var before := Contents();
      var newCapacity := NextCapacity(capacity, newCap);
      BlockDoubles(newCapacity);
      var newData := new Byte[newCapacity](_ => 0);
      if data != null {
        forall i | 0 <= i < size {
          newData[i] := data[i];
        }
        copied := copied + size;
      }
      assert newData[..size] == before;
      data := newData;
      capacity := newCapacity;
    }

    /** The block after it was asked to hold `need` bytes: kept if they fit, else
        replaced by one at least twice as large but, past the first block, less
        than twice the need. */
    ghost predicate Grown(oldData: array?<Byte>, oldCapacity: nat, need: nat)
      reads this
    {
      if need <= oldCapacity then data == oldData && capacity == oldCapacity
      else
        && capacity >= need && capacity >= 2 * oldCapacity
        && (capacity == FIRST_BLOCK || capacity < 2 * need)
    }

    /** append of a byte range that is not part of this buffer. */
    method Append(bytes: Bytes)
      requires Valid() && size + |bytes| <= TWO63
      modifies this, data
      ensures Valid() && Contents() == old(Contents()) + bytes && size == old(size) + |bytes|
      ensures peak == Max(old(peak), size) && Grown(old(data), old(capacity), size)
      ensures copied == old(copied) + if size > old(capacity) then old(size) else 0
      ensures size > old(capacity) ==> fresh(data)
    {
      if |bytes| == 0 {
        assert Contents() + bytes == Contents();
        return;
      }
      ghost var before := Contents();
      EnsureCapacity(size + |bytes|);
      assert Contents() == before;
      forall i | 0 <= i < |bytes| {
        data[size + i] := bytes[i];
      }
      assert data[..size] == before;
      size := size + |bytes|;
      assert data[..size] == before + bytes;
    }

    method Clear()
      requires Valid()
      modifies this`size
      ensures Valid() && Contents() == []
    {
      size := 0;
    }

    /** resize: growing leaves the new bytes unspecified. */
    method Resize(len: nat)
      requires Valid() && len <= TWO63
      modifies this
      ensures Valid() && |Contents()| == len
      ensures peak == Max(old(peak), len) && Grown(old(data), old(capacity), len)
      ensures copied == old(copied) + if len > old(capacity) then old(size) else 0
      ensures len > old(capacity) ==> fresh(data)
      ensures forall i :: 0 <= i < len && i < old(size) ==> Contents()[i] == old(Contents())[i]
    {
      EnsureCapacity(len);
      ghost var before := Contents();
      size := len;
      assert data != null ==> before == data[..old(size)];
    }

    /** operator+=. Appending a buffer to itself is defined only while it does
        not grow: growing frees the bytes it reads. */
    method AppendBuffer(other: ByteBuffer)
      requires Valid() && other.Valid() && size + other.size <= TWO63
      requires if other == this then size + size <= capacity else other.data == null || other.data != data
      modifies this, data
      ensures Valid() && Contents() == old(Contents()) + old(other.Contents()) && size == old(size) + old(other.size)
      ensures other != this ==> other.Valid() && other.Contents() == old(other.Contents())
      ensures peak == Max(old(peak), size) && Grown(old(data), old(capacity), size)
      ensures copied == old(copied) + if size > old(capacity) then old(size) else 0
      ensures size > old(capacity) ==> fresh(data)
    {
      Append(if other.data == null then [] else other.data[..other.size]);
    }

    /** Copy assignment: the old block is kept and refilled. */
    method CopyFrom(other: ByteBuffer)
      requires Valid() && other.Valid() && (other != this ==> other.data == null || other.data != data)
      modifies this, data
      ensures Valid() && Contents() == old(other.Contents())
      ensures other.Valid() && other.Contents() == old(other.Contents())
      ensures peak == Max(old(peak), size) && Grown(old(data), old(capacity), size) && copied == old(copied)
      ensures size > old(capacity) ==> fresh(data)
    {
      if other == this {
        return;
      }
      Clear();
      Append(if other.data == null then [] else other.data[..other.size]);
    }

    /** Move assignment: the block changes hands and its history with it. */
    method MoveFrom(other: ByteBuffer)
      requires Valid() && other.Valid()
      modifies this, other
      ensures Valid() && Contents() == old(other.Contents())
      ensures data == old(other.data) && capacity == old(other.capacity)
      ensures copied == old(other.copied) && peak == old(other.peak)
      ensures other != this ==>
                other.Valid() && other.Contents() == [] && other.data == null && other.copied == 0 && other.peak == 0
    {
      if other == this {
        return;
      }
      data, size, capacity := other.data, other.size, other.capacity;
      copied, peak := other.copied, other.peak;
      other.data, other.size, other.capacity := null, 0, 0;
      other.copied, other.peak := 0, 0;
    }

    /** slice; None is the out_of_range exception. */
    method Slice(start: nat, end: nat) returns (r: Option<ByteBuffer>)
      requires Valid()
      ensures r.Some? <==> start <= end <= size
      ensures r.Some? ==> fresh(r.value) && r.value.Valid() && r.value.Contents() == Contents()[start..end]
      ensures r.Some? ==> r.value.copied == 0 && r.value.peak == end - start
    {
      if start > end || end > size {
        return None;
      }
      var b := new ByteBuffer();
      if data != null {
        b.Append(data[start..end]);
        assert data[start..end] == Contents()[start..end];
      }
      r := Some(b);
    }
  }

  lemma FirstBlock()
    ensures IsBlock(FIRST_BLOCK)
  {
    assert FIRST_BLOCK == FIRST_BLOCK * Pow2(0);
  }
}
