/** Where the constructor of the C++ master block puts the inode table, and how
    many inodes it allows. */
module CppLayout {
  import opened Bytes
  import INodeWindows

  const MAX_INODES: int := 128

  /** The quotient of the C++ division, which drops the fraction towards zero. */
  function TruncDiv(a: int, d: nat): int
    requires d > 0
  {
    if a < 0 then -(-a / d) else a / d
  }

  /** The number of inodes. */
  function INodeCount(bytesPerBlock: nat, blockCount: nat, protect: nat): int {
    var count := TruncDiv(blockCount - (protect + 1), 4) * (bytesPerBlock / 128);
    if count > MAX_INODES then MAX_INODES else if count < 0 then 0 else count
  }

  /** n inodes of 128 bytes fit q blocks, and q is at most a quarter of the open
      blocks. */
  predicate FitsQuarter(n: int, bytesPerBlock: nat, open: int, q: nat) {
    4 * q <= open && n <= bytesPerBlock / 128 * q
  }

  /** The greatest number up to 128 of inodes that fit a quarter of the open
      blocks; 0 when the number of open blocks is negative. */
  ghost predicate IsMost(n: int, bytesPerBlock: nat, open: int) {
    && n <= 128
    && (if open < 0 then n == 0 else exists q :: FitsQuarter(n, bytesPerBlock, open, q))
    && (forall m: int, q :: m <= 128 && FitsQuarter(m, bytesPerBlock, open, q) ==> m <= n)
  }

  /** The count as the constructor computes it is that number. */
  lemma CountIsMost(bytesPerBlock: nat, blockCount: nat, protect: nat)
    ensures IsMost(INodeCount(bytesPerBlock, blockCount, protect), bytesPerBlock, blockCount - protect - 1)
  {
    var n, open, ipb := INodeCount(bytesPerBlock, blockCount, protect), blockCount - protect - 1, bytesPerBlock / 128;
    if open >= 0 {
      var q := open / 4;
      MulMonotone(0, q, ipb);
      assert FitsQuarter(n, bytesPerBlock, open, q);
      forall m: int, r: nat | m <= 128 && FitsQuarter(m, bytesPerBlock, open, r)
        ensures m <= n
      {
        MulMonotone(r, q, ipb);
      }
    }
  }

  class MasterBlock {
    const bytesPerBlock: nat
    const blockCount: nat
    const iNodeCnt: int
    const protect: nat
    const diskAddress: nat
    const diskAddressINodeMap: nat

    /** The loop that takes off one block size at a time divides, rounding up. */
    constructor (bytesPerBlock: nat, numberOfBlocks: nat, blockMapAddress: nat)
      requires bytesPerBlock > 0
      ensures this.bytesPerBlock == bytesPerBlock && blockCount == numberOfBlocks && diskAddress == blockMapAddress
      ensures protect == CeilDiv(numberOfBlocks, bytesPerBlock) == (numberOfBlocks + bytesPerBlock - 1) / bytesPerBlock
      ensures diskAddressINodeMap == blockMapAddress + protect
      ensures iNodeCnt == INodeCount(bytesPerBlock, numberOfBlocks, protect)
      ensures IsMost(iNodeCnt, bytesPerBlock, numberOfBlocks - protect - 1)
    {
      this.bytesPerBlock := bytesPerBlock;
      blockCount := numberOfBlocks;
      diskAddress := blockMapAddress;
      var left, rounds := CountBlocks(numberOfBlocks, bytesPerBlock);
      protect := rounds;
      diskAddressINodeMap := blockMapAddress + rounds;
      var ipb := bytesPerBlock / 128;
      var nodeCap := numberOfBlocks - (rounds + 1);
      var count := TruncDiv(nodeCap, 4) * ipb;
      if count > 128 {
        count := 128;
      }
      if count < 0 {
        count := 0;
      }
      iNodeCnt := count;
      CeilDivIsQuotient(numberOfBlocks, bytesPerBlock);
      CountIsMost(bytesPerBlock, numberOfBlocks, rounds);
    }
  }

  /** The loop of the constructor. */
  method CountBlocks(numberOfBlocks: nat, bytesPerBlock: nat) returns (left: int, protect: nat)
    requires bytesPerBlock > 0
    ensures left <= 0 && protect == CeilDiv(numberOfBlocks, bytesPerBlock)
  {
    left := numberOfBlocks;
    protect := 0;
    while left > 0
      invariant left + BlockStart(protect, bytesPerBlock) == numberOfBlocks && left + bytesPerBlock > 0
    {
      left := left - bytesPerBlock;
      protect := protect + 1;
    }
    BlockStartsApart(protect, CeilDiv(numberOfBlocks, bytesPerBlock), bytesPerBlock);
  }

  /** A quarter of the blocks after the block map holds all the inodes. */
  lemma WindowsOfQuarter(q: nat, count: nat, ipb: nat)
    requires ipb > 0 && count <= q * ipb
    ensures CeilDiv(count, ipb) <= q
  {
    BlockStartIsProduct(q, ipb);
    BlockStartsApart(q, CeilDiv(count, ipb), ipb);
  }

  /** With the block map at block 1, the blocks that the inode table is written to
      lie after the map and inside the device, for every device with a block besides the map; and
      there are at most 128 inodes. */
  lemma TableInsideDevice(bytesPerBlock: nat, blockCount: nat)
    returns (protect: nat, count: int)
    requires bytesPerBlock >= INodeWindows.INODE_BYTES
    requires blockCount >= CeilDiv(blockCount, bytesPerBlock) + 1
    ensures protect == CeilDiv(blockCount, bytesPerBlock) && count == INodeCount(bytesPerBlock, blockCount, protect)
    ensures 0 <= count <= MAX_INODES
    ensures 1 + protect + INodeWindows.Windows(count, bytesPerBlock) <= blockCount
  {
    protect := CeilDiv(blockCount, bytesPerBlock);
    count := INodeCount(bytesPerBlock, blockCount, protect);
    var ipb := bytesPerBlock / 128;
    var q := (blockCount - (protect + 1)) / 4;
    MulMonotone(0, q, ipb);
    INodeWindows.WindowsAreCeil(count, bytesPerBlock);
    WindowsOfQuarter(q, count, ipb);
  }
}
