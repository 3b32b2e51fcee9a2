/** The inode table of the C++ version on the device: a window of one block size
    is written for each group of inodes, so that windows overlap when the block
    size is no multiple of the inode size. */
module INodeWindows {
  import opened Bytes
  import opened BlockDevices

  const INODE_BYTES: nat := 128

  /** The window of block i: bpb bytes from where its group of inodes starts. */
  function Window(mem: seq<byte>, step: nat, bpb: nat, i: nat): (w: seq<byte>)
    requires BlockStart(i, step) + bpb <= |mem|
    ensures |w| == bpb
  {
    mem[BlockStart(i, step)..BlockStart(i, step) + bpb]
  }

  /** The bytes that n windows cover. */
  function Covered(n: nat, step: nat, bpb: nat): nat {
    if n == 0 then 0 else BlockStart(n - 1, step) + bpb
  }

  lemma WindowsInside(n: nat, i: nat, step: nat, bpb: nat)
    requires i < n
    ensures BlockStart(i, step) + bpb <= Covered(n, step, bpb)
  {
    BlockStartsApart(i, n - 1, step);
  }

  lemma CoveredGrows(n: nat, step: nat, bpb: nat)
    requires n > 0
    ensures Covered(n - 1, step, bpb) <= Covered(n, step, bpb) == BlockStart(n - 1, step) + bpb
  {
  }

  /** The device after the first n windows have been written. */
  function WriteWindows(disk: seq<Block>, addr: nat, mem: seq<byte>, step: nat, bpb: nat, n: nat): (r: seq<Block>)
    requires addr + n <= |disk| && Covered(n, step, bpb) <= |mem|
    ensures |r| == |disk|
    ensures forall a :: 0 <= a < |disk| && !(addr <= a < addr + n) ==> r[a] == disk[a]
  {
    if n == 0 then disk
    else
      CoveredGrows(n, step, bpb);
      WriteWindows(disk, addr, mem, step, bpb, n - 1)[addr + n - 1 := Window(mem, step, bpb, n - 1)]
  }

  /** The memory after the first n windows have been read over it. */
  function ReadWindows(mem: seq<byte>, disk: seq<Block>, addr: nat, step: nat, bpb: nat, n: nat): (r: seq<byte>)
    requires IsDisk(disk, bpb) && addr + n <= |disk| && Covered(n, step, bpb) <= |mem|
    ensures |r| == |mem|
  {
    if n == 0 then mem
    else
      CoveredGrows(n, step, bpb);
      var r := ReadWindows(mem, disk, addr, step, bpb, n - 1);
      var at := BlockStart(n - 1, step);
      r[..at] + disk[addr + n - 1] + r[at + bpb..]
  }

  /** Block addr + i of the device holds window i of the memory. */
  predicate HoldsWindow(disk: seq<Block>, addr: nat, mem: seq<byte>, step: nat, bpb: nat, i: nat) {
    addr + i < |disk| && BlockStart(i, step) + bpb <= |mem| && disk[addr + i] == Window(mem, step, bpb, i)
  }

  /** A prefix restored up to `before`, with a window from `at` on laid over it. */
  lemma WindowOverPrefix(mem: seq<byte>, blank: seq<byte>, before: nat, at: nat, bpb: nat)
    requires at <= before <= at + bpb <= |mem| == |blank|
    ensures var r := mem[..before] + blank[before..];
            r[..at] + mem[at..at + bpb] + r[at + bpb..] == mem[..at + bpb] + blank[at + bpb..]
  {
    var r := mem[..before] + blank[before..];
    assert r[..at] == mem[..at] && r[at + bpb..] == blank[at + bpb..];
    assert mem[..at] + mem[at..at + bpb] == mem[..at + bpb];
  }

  lemma {:induction false} WrittenWindows(disk: seq<Block>, addr: nat, mem: seq<byte>, step: nat, bpb: nat, n: nat)
    requires IsDisk(disk, bpb) && addr + n <= |disk| && Covered(n, step, bpb) <= |mem|
    ensures IsDisk(WriteWindows(disk, addr, mem, step, bpb, n), bpb)
    ensures forall i: nat :: i < n ==> HoldsWindow(WriteWindows(disk, addr, mem, step, bpb, n), addr, mem, step, bpb, i)
  {
    if n > 0 {
      CoveredGrows(n, step, bpb);
      WrittenWindows(disk, addr, mem, step, bpb, n - 1);
      var r := WriteWindows(disk, addr, mem, step, bpb, n);
      forall i: nat | i < n
        ensures HoldsWindow(r, addr, mem, step, bpb, i)
      {
        assert i < n - 1 ==> HoldsWindow(WriteWindows(disk, addr, mem, step, bpb, n - 1), addr, mem, step, bpb, i);
      }
    }
  }

  /** Reading windows that hold the bytes of `mem` over any memory of its size
      restores what they cover, however they overlap. */
  lemma {:induction false} ReadRestores(mem: seq<byte>, blank: seq<byte>, disk: seq<Block>, addr: nat, step: nat,
                                        bpb: nat, n: nat)
    requires IsDisk(disk, bpb) && addr + n <= |disk| && Covered(n, step, bpb) <= |mem| == |blank| && step <= bpb
    requires forall i: nat :: i < n ==> HoldsWindow(disk, addr, mem, step, bpb, i)
    ensures ReadWindows(blank, disk, addr, step, bpb, n)
         == mem[..Covered(n, step, bpb)] + blank[Covered(n, step, bpb)..]
  {
    if n > 0 {
      CoveredGrows(n, step, bpb);
      ReadRestores(mem, blank, disk, addr, step, bpb, n - 1);
      assert HoldsWindow(disk, addr, mem, step, bpb, n - 1);
      WindowOverPrefix(mem, blank, Covered(n - 1, step, bpb), BlockStart(n - 1, step), bpb);
    }
  }

  /** Written in windows and read back in order, every byte the windows cover is
      restored, whatever the memory held, also when the block size is not a
      multiple of the step. */
  lemma WindowsRoundTrip(disk: seq<Block>, addr: nat, mem: seq<byte>, blank: seq<byte>, step: nat, bpb: nat, n: nat)
    requires IsDisk(disk, bpb) && addr + n <= |disk| && Covered(n, step, bpb) <= |mem| == |blank| && step <= bpb
    ensures IsDisk(WriteWindows(disk, addr, mem, step, bpb, n), bpb)
    ensures ReadWindows(blank, WriteWindows(disk, addr, mem, step, bpb, n), addr, step, bpb, n)
         == mem[..Covered(n, step, bpb)] + blank[Covered(n, step, bpb)..]
  {
    WrittenWindows(disk, addr, mem, step, bpb, n);
    ReadRestores(mem, blank, WriteWindows(disk, addr, mem, step, bpb, n), addr, step, bpb, n);
  }

  // ---------- the inode table ----------

  /** The inodes of one window, and the windows of a table. */
  function PerBlock(bpb: nat): nat {
    bpb / INODE_BYTES
  }

  function Windows(numINodes: nat, bpb: nat): nat
    requires bpb >= INODE_BYTES
  {
    numINodes / PerBlock(bpb) + if numINodes % PerBlock(bpb) != 0 then 1 else 0
  }

  function Step(bpb: nat): (s: nat)
    ensures s <= bpb
  {
    PerBlock(bpb) * INODE_BYTES
  }

  /** Each block gets the bytes from the first of its inodes on: as many inodes of
      128 bytes as it has room for, and what follows them up to the block size. */
  lemma TableInWindows(disk: seq<Block>, addr: nat, mem: seq<byte>, bpb: nat, numINodes: nat)
    returns (n: nat, step: nat, r: seq<Block>)
    requires IsDisk(disk, bpb) && bpb >= 128 && addr + Windows(numINodes, bpb) <= |disk|
    requires Covered(Windows(numINodes, bpb), Step(bpb), bpb) <= |mem|
    ensures n == (numINodes + bpb / 128 - 1) / (bpb / 128) && step == bpb / 128 * 128
    ensures n == Windows(numINodes, bpb) && r == WriteWindows(disk, addr, mem, Step(bpb), bpb, n) && |r| == |disk|
    ensures forall i: nat :: i < n ==> i * step + bpb <= |mem| && r[addr + i] == mem[i * step..i * step + bpb]
    ensures forall a :: 0 <= a < |disk| && !(addr <= a < addr + n) ==> r[a] == disk[a]
  {
    n, step := Windows(numINodes, bpb), Step(bpb);
    WindowsAreCeil(numINodes, bpb);
    CeilDivIsQuotient(numINodes, bpb / 128);
    r := WriteWindows(disk, addr, mem, step, bpb, n);
    WrittenWindows(disk, addr, mem, step, bpb, n);
    hide WriteWindows, Windows, Covered, Step, PerBlock, CeilDiv, IsDisk;
    forall i: nat | i < n
      ensures i * step + bpb <= |mem| && r[addr + i] == mem[i * step..i * step + bpb]
    {
      WindowStart(r, addr, mem, step, bpb, i);
    }
  }

  lemma WindowStart(disk: seq<Block>, addr: nat, mem: seq<byte>, step: nat, bpb: nat, i: nat)
    requires HoldsWindow(disk, addr, mem, step, bpb, i)
    ensures i * step + bpb <= |mem| && disk[addr + i] == mem[i * step..i * step + bpb]
  {
    BlockStartIsProduct(i, step);
  }

  lemma WindowsAreCeil(numINodes: nat, bpb: nat)
    requires bpb >= INODE_BYTES
    ensures Windows(numINodes, bpb) == CeilDiv(numINodes, PerBlock(bpb))
  {
    var ipb := PerBlock(bpb);
    if numINodes > 0 {
      PositionIsQuotient(numINodes - 1, ipb);
      PositionIsQuotient(numINodes, ipb);
      var q, r := numINodes / ipb, numINodes % ipb;
      if r == 0 {
        BlockStartIsProduct(q, ipb);
        BlockStartsApart(0, q, ipb);
        PositionInBlock(numINodes - 1, q - 1, ipb);
      } else {
        PositionInBlock(numINodes - 1, q, ipb);
      }
    }
  }

  lemma {:induction false} StepsAreInodes(n: nat, bpb: nat)
    ensures BlockStart(n, Step(bpb)) == INODE_BYTES * BlockStart(n, PerBlock(bpb))
  {
    if n > 0 {
      StepsAreInodes(n - 1, bpb);
    }
  }

  /** The windows cover the whole table. */
  lemma WindowsCoverTable(numINodes: nat, bpb: nat)
    requires bpb >= INODE_BYTES
    ensures INODE_BYTES * numINodes <= Covered(Windows(numINodes, bpb), Step(bpb), bpb)
  {
    var n := Windows(numINodes, bpb);
    WindowsAreCeil(numINodes, bpb);
    StepsAreInodes(n, bpb);
  }

  /** Every inode comes back. */
  lemma TableComesBack(disk: seq<Block>, addr: nat, mem: seq<byte>, blank: seq<byte>, bpb: nat, numINodes: nat)
    returns (n: nat, back: seq<byte>)
    requires IsDisk(disk, bpb) && bpb >= INODE_BYTES
    requires addr + Windows(numINodes, bpb) <= |disk|
    requires Covered(Windows(numINodes, bpb), Step(bpb), bpb) <= |mem| == |blank|
    ensures n == Windows(numINodes, bpb) && IsDisk(WriteWindows(disk, addr, mem, Step(bpb), bpb, n), bpb)
    ensures back == ReadWindows(blank, WriteWindows(disk, addr, mem, Step(bpb), bpb, n), addr, Step(bpb), bpb, n)
    ensures INODE_BYTES * numINodes <= |back| && back[..INODE_BYTES * numINodes] == mem[..INODE_BYTES * numINodes]
  {
    n := Windows(numINodes, bpb);
    WindowsRoundTrip(disk, addr, mem, blank, Step(bpb), bpb, n);
    WindowsCoverTable(numINodes, bpb);
    back := ReadWindows(blank, WriteWindows(disk, addr, mem, Step(bpb), bpb, n), addr, Step(bpb), bpb, n);
  }

  // ---------- the loops ----------

  method WriteINodeMap(bd: BlockDevice, nodes: array<byte>, diskAddress: nat, numINodes: nat)
    requires bd.Valid() && bd.bytesPerBlock >= INODE_BYTES
    requires diskAddress + Windows(numINodes, bd.bytesPerBlock) <= |bd.blocks|
    requires Covered(Windows(numINodes, bd.bytesPerBlock), Step(bd.bytesPerBlock), bd.bytesPerBlock) <= nodes.Length
    modifies bd`blocks
    ensures bd.Valid()
    ensures bd.blocks == WriteWindows(old(bd.blocks), diskAddress, nodes[..], Step(bd.bytesPerBlock), bd.bytesPerBlock,
                                      Windows(numINodes, bd.bytesPerBlock))
  {
    var bpb := bd.bytesPerBlock;
    var ipb := bpb / INODE_BYTES;
    var blks := numINodes / ipb;
    if numINodes % ipb != 0 {
      blks := blks + 1;
    }
    for i := 0 to blks
      invariant bd.Valid() && |bd.blocks| == |old(bd.blocks)| && Covered(i, Step(bpb), bpb) <= nodes.Length
      invariant bd.blocks == WriteWindows(old(bd.blocks), diskAddress, nodes[..], Step(bpb), bpb, i)
    {
      WindowsInside(blks, i, Step(bpb), bpb);
      BlockStartIsProduct(i, Step(bpb));
      var zok := bd.WriteBlock(diskAddress + i, nodes, i * (ipb * INODE_BYTES));
    }
  }

  method ReadINodeMap(bd: BlockDevice, nodes: array<byte>, diskAddress: nat, numINodes: nat)
    requires bd.Valid() && bd.bytesPerBlock >= INODE_BYTES
    requires diskAddress + Windows(numINodes, bd.bytesPerBlock) <= |bd.blocks|
    requires Covered(Windows(numINodes, bd.bytesPerBlock), Step(bd.bytesPerBlock), bd.bytesPerBlock) <= nodes.Length
    modifies nodes
    ensures nodes[..] == ReadWindows(old(nodes[..]), bd.blocks, diskAddress, Step(bd.bytesPerBlock), bd.bytesPerBlock,
                                     Windows(numINodes, bd.bytesPerBlock))
  {
    var bpb := bd.bytesPerBlock;
    var ipb := bpb / INODE_BYTES;
    var blks := numINodes / ipb;
    if numINodes % ipb != 0 {
      blks := blks + 1;
    }
    for i := 0 to blks
      invariant Covered(i, Step(bpb), bpb) <= nodes.Length
      invariant nodes[..] == ReadWindows(old(nodes[..]), bd.blocks, diskAddress, Step(bpb), bpb, i)
    {
      WindowsInside(blks, i, Step(bpb), bpb);
      BlockStartIsProduct(i, Step(bpb));
      var zok := bd.ReadBlock(diskAddress + i, nodes, i * (ipb * INODE_BYTES));
    }
  }
}
