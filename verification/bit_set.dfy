/** The packed bit set and the first-fit allocator built on it. */
module BitSets {
  import opened Bytes

  // ---------- one byte ----------

  predicate IsOneBit(m: byte) {
    m == 1 || m == 2 || m == 4 || m == 8 || m == 16 || m == 32 || m == 64 || m == 128
  }

  /** The mask of the C macros, tabulated. */
  function Mask(k: nat): byte
    requires k < 8
  {
    if k == 0 then 1 else if k == 1 then 2 else if k == 2 then 4 else if k == 3 then 8
    else if k == 4 then 16 else if k == 5 then 32 else if k == 6 then 64 else 128
  }

  lemma MaskIsShift(k: nat)
    requires k < 8
    ensures Mask(k) == (1 as byte) << k
  {
    if k == 0 {} else if k == 1 {} else if k == 2 {} else if k == 3 {}
    else if k == 4 {} else if k == 5 {} else if k == 6 {} else {}
  }

  lemma MasksDiffer(k: nat, l: nat)
    requires k < 8 && l < 8
    ensures IsOneBit(Mask(k)) && IsOneBit(Mask(l))
    ensures Mask(k) == Mask(l) <==> k == l
  {
  }

  lemma MasksOnByte(x: byte, m: byte, n: byte)
    requires IsOneBit(m) && IsOneBit(n)
    ensures (x | m) & n != 0 <==> m == n || x & n != 0
    ensures (x & !m) & n != 0 <==> m != n && x & n != 0
    ensures x & m == 0 ==> (x | m) & !m == x
  {
  }

  // ---------- the byte buffer ----------

  predicate GetBit(bytes: seq<byte>, i: nat)
    requires i / 8 < |bytes|
  {
    bytes[i / 8] & Mask(i % 8) != 0
  }

  function SetBit(bytes: seq<byte>, i: nat): (r: seq<byte>)
    requires i / 8 < |bytes|
    ensures |r| == |bytes|
  {
    bytes[i / 8 := bytes[i / 8] | Mask(i % 8)]
  }

  function ClearBit(bytes: seq<byte>, i: nat): (r: seq<byte>)
    requires i / 8 < |bytes|
    ensures |r| == |bytes|
  {
    bytes[i / 8 := bytes[i / 8] & !Mask(i % 8)]
  }

  /** Setting or clearing one index changes no other index, not even one that
      shares its byte; clearing a bit that was just set restores the buffer. */
  lemma BitFrame(bytes: seq<byte>, i: nat, j: nat)
    requires i / 8 < |bytes| && j / 8 < |bytes|
    ensures GetBit(SetBit(bytes, i), j) <==> i == j || GetBit(bytes, j)
    ensures GetBit(ClearBit(bytes, i), j) <==> i != j && GetBit(bytes, j)
    ensures !GetBit(bytes, i) ==> ClearBit(SetBit(bytes, i), i) == bytes
  {
    hide Mask, IsOneBit;
    if i / 8 == j / 8 {
      MasksDiffer(i % 8, j % 8);
      MasksOnByte(bytes[i / 8], Mask(i % 8), Mask(j % 8));
    }
    MasksDiffer(i % 8, i % 8);
    MasksOnByte(bytes[i / 8], Mask(i % 8), Mask(i % 8));
  }

  /** Bit i is bit i % 8 of byte i / 8, counted from the least significant. */
  lemma BitsAreMacros(bytes: seq<byte>, i: nat, one: byte)
    requires i / 8 < |bytes| && one == (1 as byte) << (i % 8)
    ensures GetBit(bytes, i) <==> bytes[i / 8] & one != 0
    ensures SetBit(bytes, i) == bytes[i / 8 := bytes[i / 8] | one]
    ensures ClearBit(bytes, i) == bytes[i / 8 := bytes[i / 8] & !one]
  {
    MaskIsShift(i % 8);
    hide Mask;
  }

  /** The count of set bits below n. */
  function CountBits(bytes: seq<byte>, n: nat): (c: nat)
    requires n <= 8 * |bytes|
    ensures c <= n
  {
    if n == 0 then 0 else CountBits(bytes, n - 1) + (if GetBit(bytes, n - 1) then 1 else 0)
  }

  lemma {:induction false} CountBitsOfSet(bytes: seq<byte>, i: nat, n: nat)
    requires n <= 8 * |bytes| && i / 8 < |bytes| && !GetBit(bytes, i)
    ensures CountBits(SetBit(bytes, i), n) == CountBits(bytes, n) + (if i < n then 1 else 0)
  {
    hide SetBit, GetBit;
    if n > 0 {
      CountBitsOfSet(bytes, i, n - 1);
      BitFrame(bytes, i, n - 1);
    }
  }

  lemma {:induction false} CountBitsOfClear(bits: seq<byte>, n: nat)
    requires n <= 8 * |bits| && forall i :: 0 <= i < n ==> !GetBit(bits, i)
    ensures CountBits(bits, n) == 0
  {
    if n > 0 {
      CountBitsOfClear(bits, n - 1);
    }
  }

  lemma {:induction false} CountBitsFull(bytes: seq<byte>, n: nat)
    requires n <= 8 * |bytes|
    ensures CountBits(bytes, n) == n <==> forall i :: 0 <= i < n ==> GetBit(bytes, i)
  {
    if n > 0 {
      CountBitsFull(bytes, n - 1);
    }
  }

  // ---------- first-fit allocation ----------

  /** The scan of the allocator from index i on. */
  function FirstFreeFrom(bytes: seq<byte>, i: nat, count: nat): (r: int)
    requires i <= count <= 8 * |bytes|
    ensures r == -1 || i <= r < count
    ensures r >= 0 ==> !GetBit(bytes, r)
    ensures forall j :: i <= j < (if r < 0 then count else r) ==> GetBit(bytes, j)
    decreases count - i
  {
    if i == count then -1
    else if !GetBit(bytes, i) then i
    else FirstFreeFrom(bytes, i + 1, count)
  }

  function FirstFree(bytes: seq<byte>, count: nat): (r: int)
    requires count <= 8 * |bytes|
    ensures r == -1 || 0 <= r < count
    ensures r >= 0 ==> !GetBit(bytes, r)
    ensures forall j :: 0 <= j < (if r < 0 then count else r) ==> GetBit(bytes, j)
  {
    FirstFreeFrom(bytes, 0, count)
  }

  /** The state of the buffer and the result of one allocation. */
  function Allocate(bytes: seq<byte>, count: nat): (r: (seq<byte>, int))
    requires count <= 8 * |bytes|
    ensures |r.0| == |bytes|
  {
    var i := FirstFree(bytes, count);
    if i < 0 then (bytes, -1) else (SetBit(bytes, i), i)
  }

  /** The results of n allocations in a row. */
  function AllocateMany(bytes: seq<byte>, count: nat, n: nat): (r: (seq<byte>, seq<int>))
    requires count <= 8 * |bytes|
    ensures |r.0| == |bytes| && |r.1| == n
    decreases n
  {
    if n == 0 then (bytes, [])
    else
      var (after, i) := Allocate(bytes, count);
      var (last, rest) := AllocateMany(after, count, n - 1);
      (last, [i] + rest)
  }

  /** One allocation succeeds exactly when some index is free, and then the
      index it returns is the only bit that changes. */
  lemma AllocateStep(bytes: seq<byte>, count: nat)
    requires count <= 8 * |bytes|
    ensures var (after, i) := Allocate(bytes, count);
            && (i >= 0 <==> CountBits(bytes, count) < count)
            && CountBits(after, count) == CountBits(bytes, count) + (if i >= 0 then 1 else 0)
            && (forall j: nat :: j / 8 < |bytes| ==> (GetBit(after, j) <==> j == i || GetBit(bytes, j)))
  {
    CountBitsFull(bytes, count);
    var (after, i) := Allocate(bytes, count);
    if i >= 0 {
      CountBitsOfSet(bytes, i, count);
      forall j: nat | j / 8 < |bytes|
        ensures GetBit(after, j) <==> j == i || GetBit(bytes, j)
      {
        BitFrame(bytes, i, j);
      }
    }
  }

  /** One more allocation after n. */
  lemma {:induction false} AllocateManyThenOne(bytes: seq<byte>, count: nat, n: nat)
    requires count <= 8 * |bytes|
    ensures AllocateMany(bytes, count, n + 1).0 == Allocate(AllocateMany(bytes, count, n).0, count).0
    decreases n
  {
    if n > 0 {
      AllocateManyThenOne(Allocate(bytes, count).0, count, n - 1);
    }
  }

  /** The results of a run of allocations: free indices in increasing order,
      so distinct ones, and then nothing but -1. */
  lemma {:induction false} AllocateManyAscends(bytes: seq<byte>, count: nat, n: nat, got: seq<int>)
    requires count <= 8 * |bytes| && got == AllocateMany(bytes, count, n).1
    ensures forall i :: 0 <= i < n ==> got[i] == -1 || (0 <= got[i] < count && !GetBit(bytes, got[i]))
    ensures forall i, j :: 0 <= i < j < n && got[j] >= 0 ==> 0 <= got[i] < got[j]
    decreases n
  {
    if n > 0 {
      AllocateStep(bytes, count);
      var (after, first) := Allocate(bytes, count);
      var rest := AllocateMany(after, count, n - 1).1;
      AllocateManyAscends(after, count, n - 1, rest);
      assert got == [first] + rest;
      forall j | 0 <= j < n - 1 && rest[j] >= 0
        ensures 0 <= first < rest[j] && !GetBit(bytes, rest[j])
      {
        assert !GetBit(after, rest[j]);
      }
    }
  }

  /** From k free items exactly the first k calls succeed. */
  lemma {:induction false} AllocateManyDrains(bytes: seq<byte>, count: nat, n: nat)
    requires count <= 8 * |bytes|
    ensures var k := count - CountBits(bytes, count);
            var (after, got) := AllocateMany(bytes, count, n);
            && (forall i :: 0 <= i < n ==> (got[i] >= 0 <==> i < k))
            && CountBits(after, count) == CountBits(bytes, count) + Min(n, k)
    decreases n
  {
    if n > 0 {
      AllocateStep(bytes, count);
      AllocateManyDrains(Allocate(bytes, count).0, count, n - 1);
    }
  }

  /** On a cleared buffer the first n allocations take exactly the indices
      below n, which is how a fresh file system reserves its metadata. */
  lemma {:induction false} AllocateManyReservesPrefix(bytes: seq<byte>, count: nat, done: nat, n: nat)
    requires done + n <= count <= 8 * |bytes|
    requires forall i :: 0 <= i < count ==> (GetBit(bytes, i) <==> i < done)
    ensures forall i :: 0 <= i < count ==> (GetBit(AllocateMany(bytes, count, n).0, i) <==> i < done + n)
    ensures forall i :: 0 <= i < n ==> AllocateMany(bytes, count, n).1[i] == done + i
    decreases n
  {
    if n > 0 {
      assert !GetBit(bytes, done);
      var (after, i) := Allocate(bytes, count);
      assert i == done;
      forall j: nat | j < count
        ensures GetBit(after, j) <==> j < done + 1
      {
        BitFrame(bytes, done, j);
      }
      AllocateManyReservesPrefix(after, count, done + 1, n - 1);
    }
  }

  // ---------- the structure in memory ----------

  /** The size in bytes of the header that precedes the packed bits. */
  const HEADER_BYTES: nat := 8

  /** The size of the C structure, whose one-byte array is padded to a word. */
  const STRUCT_BYTES: nat := 12

  /** The bits of a new set. */
  function FreshBits(count: nat, bpb: nat): (bits: seq<byte>)
    requires bpb > 0
    ensures |bits| == BlockStart(CeilDiv(STRUCT_BYTES + BytesForBits(count), bpb), bpb) - HEADER_BYTES
    ensures count <= 8 * |bits|
  {
    Zeros(BlockStart(CeilDiv(STRUCT_BYTES + BytesForBits(count), bpb), bpb) - HEADER_BYTES)
  }

  lemma FreshIsClear(count: nat, bpb: nat, i: nat)
    requires bpb > 0 && i < count
    ensures !GetBit(FreshBits(count, bpb), i)
  {
  }

  /** The buffer of a new set is zero; with the two words in front of it, it is
      the blocks that the C structure of 12 bytes and the bits fill. */
  lemma FreshBitsFillBlocks(count: nat, bpb: nat)
    requires bpb > 0
    ensures forall i :: 0 <= i < |FreshBits(count, bpb)| ==> FreshBits(count, bpb)[i] == 0
    ensures 8 + |FreshBits(count, bpb)| == (12 + (count + 7) / 8 + bpb - 1) / bpb * bpb
  {
    var n := 12 + (count + 7) / 8;
    CeilDivIsQuotient(n, bpb);
    BlockStartIsProduct(CeilDiv(n, bpb), bpb);
  }

  class BitSet {
    const count: nat
    const bytes: array<byte>

    ghost predicate Valid() {
      count <= 8 * bytes.Length
    }

    /** A cleared set, in a buffer rounded up to whole blocks. */
    constructor (numBits: nat, blockSize: nat)
      requires blockSize > 0
      ensures Valid() && fresh(bytes) && count == numBits
      ensures bytes[..] == FreshBits(numBits, blockSize)
    {
      var bytesInBitset := STRUCT_BYTES + BytesForBits(numBits);
      var blocksInBitset := CeilDiv(bytesInBitset, blockSize);
      count := numBits;
      bytes := new byte[BlockStart(blocksInBitset, blockSize) - HEADER_BYTES](_ => 0);
    }

    /** A set found in a buffer. */
    constructor FromBytes(numBits: nat, bits: seq<byte>)
      ensures fresh(bytes) && count == numBits && bytes[..] == bits
    {
      count := numBits;
      bytes := new byte[|bits|](i requires 0 <= i < |bits| => bits[i]);
    }

    method Set(i: nat)
      requires i / 8 < bytes.Length
      modifies bytes
      ensures bytes[..] == SetBit(old(bytes[..]), i)
    {
      bytes[i / 8] := bytes[i / 8] | Mask(i % 8);
    }

    method Clear(i: nat)
      requires i / 8 < bytes.Length
      modifies bytes
      ensures bytes[..] == ClearBit(old(bytes[..]), i)
    {
      bytes[i / 8] := bytes[i / 8] & !Mask(i % 8);
    }

    method Get(i: nat) returns (b: bool)
      requires i / 8 < bytes.Length
      ensures b <==> GetBit(bytes[..], i)
    {
      b := bytes[i / 8] & Mask(i % 8) != 0;
    }

    /** Marks the least free index as used and returns it, or returns -1 and
        changes nothing when every index is used. */
    method AllocateBlock() returns (r: int)
      requires Valid()
      modifies bytes
      ensures (bytes[..], r) == Allocate(old(bytes[..]), count)
      ensures r == -1 ==> forall i :: 0 <= i < count ==> GetBit(old(bytes[..]), i)
      ensures r != -1 ==> 0 <= r < count && !GetBit(old(bytes[..]), r)
      ensures forall i :: 0 <= i < r ==> GetBit(old(bytes[..]), i)
    {
      var i := 0;
      while i < count
        invariant i <= count
        invariant bytes[..] == old(bytes[..])
        invariant FirstFree(bytes[..], count) == FirstFreeFrom(bytes[..], i, count)
      {
        var used := Get(i);
        if !used {
          Set(i);
          return i;
        }
        i := i + 1;
      }
      return -1;
    }

    /** Frees a used index; a free one is reported and left alone. */
    method FreeBlock(i: nat) returns (r: int)
      requires i / 8 < bytes.Length
      modifies bytes
      ensures r == 0 || r == -1
      ensures r == 0 <==> GetBit(old(bytes[..]), i)
      ensures forall j: nat :: j / 8 < bytes.Length ==> (GetBit(bytes[..], j) <==> j != i && GetBit(old(bytes[..]), j))
    {
      ghost var before := bytes[..];
      var used := Get(i);
      if !used {
        return -1;
      }
      Clear(i);
      forall j: nat | j / 8 < bytes.Length
        ensures GetBit(bytes[..], j) <==> j != i && GetBit(before, j)
      {
        BitFrame(before, i, j);
      }
      return 0;
    }
  }
}
