/** The block device, and runs of consecutive blocks that hold one structure. */
module BlockDevices {
  import opened Bytes

  /** Every block of the device has the device's block size. */
  predicate IsDisk(disk: seq<Block>, bpb: nat) {
    && bpb > 0
    && forall a :: 0 <= a < |disk| ==> |disk[a]| == bpb
  }

  /** The i-th block-sized piece of a buffer. */
  function Piece(bytes: seq<byte>, bpb: nat, i: nat): (r: seq<byte>)
    ensures BlockStart(i + 1, bpb) <= |bytes| ==> |r| == bpb
  {
    if BlockStart(i + 1, bpb) <= |bytes| then bytes[BlockStart(i, bpb)..BlockStart(i + 1, bpb)] else []
  }

  /** The first n blocks of a buffer, stored from block `start` on. */
  function WriteRegion(disk: seq<Block>, start: nat, bytes: seq<byte>, bpb: nat, n: nat): (r: seq<Block>)
    requires BlockStart(n, bpb) <= |bytes| && start + n <= |disk|
    ensures |r| == |disk|
  {
    if n == 0 then disk
    else
      WriteRegion(disk, start, bytes, bpb, n - 1)[start + n - 1 := Piece(bytes, bpb, n - 1)]
  }

  /** The contents of n blocks from block `start` on. */
  function ReadRegion(disk: seq<Block>, start: nat, n: nat): seq<byte>
    requires start + n <= |disk|
  {
    if n == 0 then [] else ReadRegion(disk, start, n - 1) + disk[start + n - 1]
  }

  lemma {:induction false} WriteRegionBlocks(disk: seq<Block>, start: nat, bytes: seq<byte>, bpb: nat, n: nat)
    requires BlockStart(n, bpb) <= |bytes| && start + n <= |disk|
    ensures forall a :: 0 <= a < |disk| && !(start <= a < start + n) ==>
      WriteRegion(disk, start, bytes, bpb, n)[a] == disk[a]
    ensures forall i :: 0 <= i < n ==>
      WriteRegion(disk, start, bytes, bpb, n)[start + i] == Piece(bytes, bpb, i)
    ensures IsDisk(disk, bpb) ==> IsDisk(WriteRegion(disk, start, bytes, bpb, n), bpb)
  {
    if n > 0 {
      WriteRegionBlocks(disk, start, bytes, bpb, n - 1);
    }
  }

  lemma {:induction false} ReadRegionOfSlices(disk: seq<Block>, start: nat, bytes: seq<byte>, bpb: nat, n: nat)
    requires BlockStart(n, bpb) <= |bytes| && start + n <= |disk|
    requires forall i :: 0 <= i < n ==> disk[start + i] == Piece(bytes, bpb, i)
    ensures ReadRegion(disk, start, n) == bytes[..BlockStart(n, bpb)]
  {
    if n > 0 {
      ReadRegionOfSlices(disk, start, bytes, bpb, n - 1);
      assert bytes[..BlockStart(n, bpb)] == bytes[..BlockStart(n - 1, bpb)] + Piece(bytes, bpb, n - 1);
    }
  }

  /** A buffer stored block by block is read back unchanged. */
  lemma RegionRoundTrip(disk: seq<Block>, start: nat, bytes: seq<byte>, bpb: nat, n: nat)
    requires BlockStart(n, bpb) <= |bytes| && start + n <= |disk|
    ensures ReadRegion(WriteRegion(disk, start, bytes, bpb, n), start, n) == bytes[..BlockStart(n, bpb)]
  {
    WriteRegionBlocks(disk, start, bytes, bpb, n);
    ReadRegionOfSlices(WriteRegion(disk, start, bytes, bpb, n), start, bytes, bpb, n);
  }

  lemma {:induction false} ReadRegionFrame(disk: seq<Block>, disk': seq<Block>, start: nat, n: nat)
    requires start + n <= |disk| == |disk'|
    requires forall a :: start <= a < start + n ==> disk[a] == disk'[a]
    ensures ReadRegion(disk, start, n) == ReadRegion(disk', start, n)
  {
    if n > 0 {
      ReadRegionFrame(disk, disk', start, n - 1);
    }
  }

  lemma {:induction false} ReadRegionLength(disk: seq<Block>, bpb: nat, start: nat, n: nat)
    requires IsDisk(disk, bpb) && start + n <= |disk|
    ensures |ReadRegion(disk, start, n)| == BlockStart(n, bpb)
  {
    if n > 0 {
      ReadRegionLength(disk, bpb, start, n - 1);
    }
  }

  // ---------- the device ----------

  /** A block stored at an address. The device is a file: beyond its end it
      grows, and what lies between reads as zeros. */
  function StoreBlock(disk: seq<Block>, bpb: nat, addr: int, data: Block): (r: seq<Block>)
    ensures addr < |disk| ==> |r| == |disk|
    ensures addr >= |disk| ==> |r| == addr + 1
    ensures 0 <= addr < |disk| ==> r == disk[addr := data]
    ensures forall a :: 0 <= a < |disk| && a != addr ==> r[a] == disk[a]
  {
    if addr < 0 then disk
    else if addr < |disk| then disk[addr := data]
    else disk + seq(addr - |disk|, _ => Zeros(bpb)) + [data]
  }

  /** Behind the end everything but the block itself is zero. */
  lemma StoreBlockGrows(disk: seq<Block>, bpb: nat, addr: int, data: Block)
    returns (r: seq<Block>)
    ensures r == StoreBlock(disk, bpb, addr, data)
    ensures addr < 0 ==> r == disk
    ensures addr >= |disk| ==> |r| == addr + 1 && r[..|disk|] == disk && r[addr] == data
    ensures forall a, o :: |disk| <= a < addr && 0 <= o < bpb ==> |r[a]| == bpb && r[a][o] == 0
  {
    r := StoreBlock(disk, bpb, addr, data);
  }

  /** An in-memory stand-in for the file behind the device. */
  class BlockDevice {
    const bytesPerBlock: nat
    var blocks: seq<Block>

    ghost predicate Valid()
      reads this
    {
      IsDisk(blocks, bytesPerBlock)
    }

    constructor (bytesPerBlock: nat, contents: seq<Block>)
      requires IsDisk(contents, bytesPerBlock)
      ensures Valid() && this.bytesPerBlock == bytesPerBlock && blocks == contents
    {
      this.bytesPerBlock := bytesPerBlock;
      blocks := contents;
    }

    /** Copies a block into the buffer at offset `at`; an address outside the
        device is reported and nothing is copied. */
    method ReadBlock(blockNum: int, buff: array<byte>, at: nat) returns (zok: int)
      requires Valid() && at + bytesPerBlock <= buff.Length
      modifies buff
      ensures zok == if 0 <= blockNum < |blocks| then 0 else -1
      ensures zok == 0 ==>
        buff[..] == old(buff[..at]) + blocks[blockNum] + old(buff[at + bytesPerBlock..])
      ensures zok != 0 ==> buff[..] == old(buff[..])
    {
      if !(0 <= blockNum < |blocks|) {
        return -1;
      }
      var source := blocks[blockNum];
      for i := 0 to bytesPerBlock
        invariant buff[..] == old(buff[..at]) + source[..i] + old(buff[at + i..])
      {
        buff[at + i] := source[i];
      }
      assert source[..bytesPerBlock] == source;
      return 0;
    }

    /** Stores one block's worth of the buffer from offset `at`; only an address
        before the start of the device is reported. */
    method WriteBlock(blockNum: int, buff: array<byte>, at: nat) returns (zok: int)
      requires Valid() && at + bytesPerBlock <= buff.Length
      modifies this`blocks
      ensures Valid()
      ensures zok == if blockNum >= 0 then 0 else -1
      ensures blocks == StoreBlock(old(blocks), bytesPerBlock, blockNum, buff[at..at + bytesPerBlock])
    {
      if blockNum < 0 {
        return -1;
      }
      blocks := StoreBlock(blocks, bytesPerBlock, blockNum, buff[at..at + bytesPerBlock]);
      return 0;
    }
  }
}
