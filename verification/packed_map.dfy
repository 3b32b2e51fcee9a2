/** The block map of the C++ version: a vector of booleans, packed into one
    block of the device. */
module PackedMaps {
  import opened Bytes
  import opened BlockDevices
  import opened BitSets

  /** The bits of the block are the booleans, and zeros up to bpb. */
  predicate Packs(block: seq<byte>, bits: seq<bool>, bpb: nat) {
    && |bits| <= 8 * |block| && bpb <= 8 * |block|
    && (forall i :: 0 <= i < |bits| ==> GetBit(block, i) == bits[i])
    && (forall i :: |bits| <= i < bpb ==> !GetBit(block, i))
  }

  /** The booleans found in a block. */
  function Unpack(block: seq<byte>, n: nat): (bits: seq<bool>)
    requires n <= 8 * |block|
    ensures |bits| == n
  {
    seq(n, i requires 0 <= i < n => GetBit(block, i))
  }

  /** What is found in a block that packs some booleans is those booleans, whatever
      else is in the block; and a block packs at most one vector of a size. */
  lemma UnpackOfPacked(block: seq<byte>, bits: seq<bool>, bpb: nat)
    requires bpb <= 8 * |block| && |bits| <= 8 * |block|
    ensures Packs(block, bits, bpb) ==> Unpack(block, |bits|) == bits
    ensures Unpack(block, |bits|) == bits && |bits| >= bpb ==> Packs(block, bits, bpb)
  {
    if Unpack(block, |bits|) == bits {
      forall i | 0 <= i < |bits|
        ensures GetBit(block, i) == bits[i]
      {
        assert Unpack(block, |bits|)[i] == bits[i];
      }
    }
  }

  /** One bit of a buffer set to a boolean. */
  function PutBit(out: seq<byte>, i: nat, b: bool): (r: seq<byte>)
    requires i / 8 < |out|
    ensures |r| == |out|
  {
    if b then SetBit(out, i) else ClearBit(out, i)
  }

  lemma PutBitFrame(out: seq<byte>, i: nat, b: bool, j: nat)
    requires i / 8 < |out| && j / 8 < |out|
    ensures GetBit(PutBit(out, i, b), j) == if j == i then b else GetBit(out, j)
  {
    BitFrame(out, i, j);
  }

  /** Bit i of what the block is to hold. */
  function Wanted(bits: seq<bool>, i: nat): bool {
    i < |bits| && bits[i]
  }

  lemma WantedSoFar(was: seq<byte>, now: seq<byte>, bits: seq<bool>, i: nat)
    requires i / 8 < |was| && now == PutBit(was, i, Wanted(bits, i))
    requires forall j :: 0 <= j < i ==> GetBit(was, j) == Wanted(bits, j)
    ensures forall j :: 0 <= j < i + 1 ==> GetBit(now, j) == Wanted(bits, j)
  {
    forall j: nat | j < i + 1
      ensures GetBit(now, j) == Wanted(bits, j)
    {
      PutBitFrame(was, i, Wanted(bits, i), j);
    }
  }

  method PutBitInto(out: array<byte>, i: nat, b: bool)
    requires i / 8 < out.Length
    modifies out
    ensures out[..] == PutBit(old(out[..]), i, b)
  {
    if b {
      out[i / 8] := out[i / 8] | Mask(i % 8);
    } else {
      out[i / 8] := out[i / 8] & !Mask(i % 8);
    }
  }

  class BlockMap {
    const sz: nat
    var bits: seq<bool>

    ghost predicate Valid()
      reads this
    {
      |bits| == sz
    }

    constructor (size: nat)
      ensures Valid() && sz == size && bits == seq(size, _ => false)
    {
      sz := size;
      bits := seq(size, _ => false);
    }

    /** Takes the first free index; -1 when there is none. */
    method AllocBlock() returns (r: int)
      requires Valid()
      modifies this
      ensures Valid() && (r == -1 <==> forall i :: 0 <= i < sz ==> old(bits)[i])
      ensures r == -1 ==> bits == old(bits)
      ensures r != -1 ==> 0 <= r < sz && !old(bits)[r] && bits == old(bits)[r := true]
      ensures forall i :: 0 <= i < r ==> old(bits)[i]
    {
      for i := 0 to sz
        invariant bits == old(bits) && forall j :: 0 <= j < i ==> bits[j]
      {
        if !bits[i] {
          bits := bits[i := true];
          return i;
        }
      }
      return -1;
    }

    /** Packs the map into one block. The loop runs on while there is a bit to
        write or an index below the block size, whichever ends later; the buffer
        may hold anything at first. */
    method WriteBlockMap(bd: BlockDevice, diskLoc: nat, outarr: array<byte>)
      requires Valid() && bd.Valid() && diskLoc < |bd.blocks|
      requires outarr.Length == bd.bytesPerBlock && sz <= 8 * bd.bytesPerBlock
      modifies bd`blocks, outarr
      ensures bd.Valid() && |bd.blocks| == |old(bd.blocks)| && Packs(bd.blocks[diskLoc], bits, bd.bytesPerBlock)
      ensures forall a :: 0 <= a < |bd.blocks| && a != diskLoc ==> bd.blocks[a] == old(bd.blocks)[a]
    {
      var bpb := bd.bytesPerBlock;
      var cont := true;
      var i := 0;
      while cont
        invariant i <= 8 * bpb && (!cont ==> i >= bpb && i >= sz)
        invariant forall j :: 0 <= j < i ==> GetBit(outarr[..], j) == Wanted(bits, j)
        decreases cont, 8 * bpb - i
        modifies outarr
      {
        if !(i < bpb) && !(i < sz) {
          cont := false;
        } else {
          ghost var was := outarr[..];
          if i < sz {
            PutBitInto(outarr, i, bits[i]);
          } else {
            PutBitInto(outarr, i, false);
          }
          WantedSoFar(was, outarr[..], bits, i);
          i := i + 1;
        }
      }
      assert outarr[0..bpb] == outarr[..];
      var zok := bd.WriteBlock(diskLoc, outarr, 0);
    }

    /** Reads the map back. */
    method ReadBlockMap(bd: BlockDevice, diskLoc: nat)
      requires Valid() && bd.Valid() && diskLoc < |bd.blocks| && sz <= 8 * bd.bytesPerBlock
      modifies this
      ensures Valid() && bits == Unpack(bd.blocks[diskLoc], sz)
    {
      var inarr := new byte[bd.bytesPerBlock](_ => 0);
      var zok := bd.ReadBlock(diskLoc, inarr, 0);
      assert inarr[..] == bd.blocks[diskLoc];
      for i := 0 to sz
        invariant |bits| == sz && inarr[..] == bd.blocks[diskLoc]
        invariant forall j :: 0 <= j < i ==> bits[j] == GetBit(inarr[..], j)
      {
        bits := bits[i := inarr[i / 8] & Mask(i % 8) != 0];
      }
    }
  }

  /** Write, then read: the map comes back, whatever the buffers held. */
  method SaveAndLoad(m: BlockMap, m2: BlockMap, bd: BlockDevice, diskLoc: nat, outarr: array<byte>)
    requires m.Valid() && m2.Valid() && m != m2 && m.sz == m2.sz && bd.Valid() && diskLoc < |bd.blocks|
    requires outarr.Length == bd.bytesPerBlock && m.sz <= 8 * bd.bytesPerBlock
    modifies bd`blocks, outarr, m2
    ensures m2.bits == m.bits
  {
    m.WriteBlockMap(bd, diskLoc, outarr);
    UnpackOfPacked(bd.blocks[diskLoc], m.bits, bd.bytesPerBlock);
    m2.ReadBlockMap(bd, diskLoc);
  }
}
