/** The loops that move the metadata between memory and the device, and the
    format, unmount and mount built from them. */
module MetadataIO {
  import opened Bytes
  import opened BlockDevices
  import opened BitSets
  import opened INodes
  import opened Volumes
  import opened Metadata
  import opened FileSystems
  import opened Shells

  // ---------- runs of blocks ----------

  /** A buffer with the given contents: a structure as it lies in memory. */
  method Image(bytes: seq<byte>) returns (buffer: array<byte>)
    ensures fresh(buffer) && buffer[..] == bytes
  {
    buffer := new byte[|bytes|](i requires 0 <= i < |bytes| => bytes[i]);
  }

  /** Writes the first n blocks of a buffer from block `start` on. */
  method WriteBlocks(device: BlockDevice, start: nat, buffer: array<byte>, n: nat)
    requires device.Valid() && BlockStart(n, device.bytesPerBlock) <= buffer.Length
    requires start + n <= |device.blocks|
    modifies device`blocks
    ensures device.Valid() && |device.blocks| == |old(device.blocks)|
    ensures device.blocks == WriteRegion(old(device.blocks), start, buffer[..], device.bytesPerBlock, n)
  {
    var bpb := device.bytesPerBlock;
    for i := 0 to n
      invariant device.Valid() && |device.blocks| == |old(device.blocks)| && BlockStart(i, bpb) <= buffer.Length
      invariant device.blocks == WriteRegion(old(device.blocks), start, buffer[..], bpb, i)
    {
      BlockStartsApart(i + 1, n, bpb);
      var zok := device.WriteBlock(start + i, buffer, BlockStart(i, bpb));
    }
  }

  /** Reads n blocks from block `start` on into a buffer; reports a block that
      the device does not have. */
  method ReadBlocks(device: BlockDevice, start: nat, buffer: array<byte>, n: nat) returns (zok: int)
    requires device.Valid() && BlockStart(n, device.bytesPerBlock) == buffer.Length
    modifies buffer
    ensures zok == 0 <==> n == 0 || start + n <= |device.blocks|
    ensures n > 0 && zok == 0 ==> buffer[..] == ReadRegion(device.blocks, start, n)
  {
    var bpb := device.bytesPerBlock;
    for i := 0 to n
      invariant BlockStart(i, bpb) <= buffer.Length
      invariant i > 0 ==>
        start + i <= |device.blocks| && buffer[..BlockStart(i, bpb)] == ReadRegion(device.blocks, start, i)
    {
      BlockStartsApart(i + 1, n, bpb);
      ghost var was := buffer[..];
      zok := device.ReadBlock(start + i, buffer, BlockStart(i, bpb));
      if zok != 0 {
        return -1;
      }
      BufferGrows(device.blocks, bpb, start, i, was, buffer[..]);
    }
    assert buffer[..buffer.Length] == buffer[..];
    return 0;
  }

  lemma BufferGrows(blocks: seq<Block>, bpb: nat, start: nat, i: nat, was: seq<byte>, now: seq<byte>)
    requires IsDisk(blocks, bpb) && start + i < |blocks| && BlockStart(i + 1, bpb) <= |was|
    requires i > 0 ==> was[..BlockStart(i, bpb)] == ReadRegion(blocks, start, i)
    requires now == was[..BlockStart(i, bpb)] + blocks[start + i] + was[BlockStart(i, bpb) + bpb..]
    ensures now[..BlockStart(i + 1, bpb)] == ReadRegion(blocks, start, i + 1)
  {
    assert now[..BlockStart(i + 1, bpb)] == was[..BlockStart(i, bpb)] + blocks[start + i];
    if i == 0 {
      assert was[..BlockStart(0, bpb)] == [] == ReadRegion(blocks, start, 0);
    }
  }

  // ---------- the inode table ----------

  /** A table of free inodes, or a blank one. */
  method AllocateINodeMap(numINodes: nat, init: bool) returns (inodes: array<INode>)
    requires numINodes > 1
    ensures fresh(inodes) && inodes.Length == numINodes
    ensures init ==> inodes[..] == FreshINodes(numINodes)
  {
    inodes := new INode[numINodes](_ => BLANK_INODE);
    if init {
      for i := 0 to numINodes
        invariant inodes[..i] == FreshINodes(numINodes)[..i]
        invariant forall k :: i <= k < numINodes ==> inodes[k] == BLANK_INODE
      {
        inodes[i] := inodes[i].(inodeNum := i, status := FREE_STATUS, ownerUid := INITIAL_UID);
        assert inodes[..i + 1] == inodes[..i] + [inodes[i]];
      }
    }
  }

  method WriteINodeMap(device: BlockDevice, inodes: array<INode>, diskAddr: nat)
    requires device.Valid() && TableHasWidths(inodes[..])
    requires diskAddr + TableBlocks(inodes.Length, device.bytesPerBlock) <= |device.blocks|
    modifies device`blocks
    ensures device.Valid() && |device.blocks| == |old(device.blocks)|
    ensures device.blocks == WriteRegion(old(device.blocks), diskAddr, TableBytes(inodes[..], device.bytesPerBlock),
                                         device.bytesPerBlock, TableBlocks(inodes.Length, device.bytesPerBlock))
  {
    var buffer := Image(TableBytes(inodes[..], device.bytesPerBlock));
    WriteBlocks(device, diskAddr, buffer, TableBlocks(inodes.Length, device.bytesPerBlock));
  }

  /** Reads the table of a device; null when the device is too short. */
  method ReadINodeMap(device: BlockDevice, diskAddr: nat, inodeCount: nat) returns (inodes: array?<INode>)
    requires device.Valid() && inodeCount > 0
    ensures inodes != null <==> diskAddr + TableBlocks(inodeCount, device.bytesPerBlock) <= |device.blocks|
    ensures inodes != null ==> fresh(inodes)
    ensures inodes != null ==>
      (var raw := ReadRegion(device.blocks, diskAddr, TableBlocks(inodeCount, device.bytesPerBlock));
       INODE_BYTES * inodeCount <= |raw| && inodes[..] == DecodeTable(raw, inodeCount))
  {
    var n := TableBlocks(inodeCount, device.bytesPerBlock);
    var buffer := new byte[BlockStart(n, device.bytesPerBlock)](_ => 0);
    var zok := ReadBlocks(device, diskAddr, buffer, n);
    if zok != 0 {
      return null;
    }
    var raw := buffer[..];
    inodes := new INode[inodeCount](k requires 0 <= k < inodeCount => DecodeINode(Slot(raw, k)));
  }

  // ---------- the block map ----------

  method WriteBlockMap(device: BlockDevice, bs: BitSet)
    requires device.Valid() && bs.count < 0x8000_0000
    requires BlockStart(BlockMapBlocks(|device.blocks|, device.bytesPerBlock), device.bytesPerBlock)
          <= HEADER_BYTES + bs.bytes.Length
    requires BLOCK_MAP_ADDRESS + BlockMapBlocks(|device.blocks|, device.bytesPerBlock) <= |device.blocks|
    modifies device`blocks
    ensures device.Valid() && |device.blocks| == |old(device.blocks)|
    ensures device.blocks == WriteRegion(old(device.blocks), BLOCK_MAP_ADDRESS, MapBytes(bs.bytes[..], bs.count),
                                         device.bytesPerBlock, BlockMapBlocks(|device.blocks|, device.bytesPerBlock))
  {
    var buffer := Image(MapBytes(bs.bytes[..], bs.count));
    WriteBlocks(device, BLOCK_MAP_ADDRESS, buffer, BlockMapBlocks(|device.blocks|, device.bytesPerBlock));
  }

  /** Reads the block map of a device; null when the device is too short. */
  method ReadBlockMap(device: BlockDevice) returns (bs: BitSet?)
    requires device.Valid()
    ensures bs == null <==> Metadata.ReadBlockMap(device.blocks, device.bytesPerBlock).None?
    ensures bs != null ==> fresh(bs.bytes)
    ensures bs != null ==> Metadata.ReadBlockMap(device.blocks, device.bytesPerBlock) == Some((bs.count, bs.bytes[..]))
  {
    var n := BlockMapBlocks(|device.blocks|, device.bytesPerBlock);
    var buffer := new byte[BlockStart(n, device.bytesPerBlock)](_ => 0);
    var zok := ReadBlocks(device, BLOCK_MAP_ADDRESS, buffer, n);
    if zok != 0 {
      return null;
    }
    var raw := buffer[..];
    if |raw| < HEADER_BYTES || Signed(WordAt(raw, 1)) < 0 {
      return null;
    }
    bs := new BitSet.FromBytes(Signed(WordAt(raw, 1)), raw[HEADER_BYTES..]);
  }

  // ---------- format, unmount, mount ----------

  /** Writes block map and inode table where the master block says. */
  method PersistMetadata(fs: FileSystem, mb: MasterBlock)
    requires fs.Valid() && Persistable(fs.View())
    requires mb.inodeMapAddress == INodeMapAddress(fs.View().count, fs.View().bpb)
    modifies fs.device`blocks
    ensures fs.Valid() && fs.View() == old(fs.View()).(disk := Persist(old(fs.View())))
  {
    WriteBlockMap(fs.device, fs.blockMap);
    WriteINodeMap(fs.device, fs.inodeMap, mb.inodeMapAddress);
  }

  /** Marks the first n blocks as used. */
  method Preallocate(bs: BitSet, n: nat)
    requires bs.Valid()
    modifies bs.bytes
    ensures bs.bytes[..] == AllocateMany(old(bs.bytes[..]), bs.count, n).0
  {
    for i := 0 to n
      invariant bs.bytes[..] == AllocateMany(old(bs.bytes[..]), bs.count, i).0
    {
      AllocateManyThenOne(old(bs.bytes[..]), bs.count, i);
      var taken := bs.AllocateBlock();
    }
  }

  method WriteMasterBlock(device: BlockDevice, mb: MasterBlock)
    requires device.Valid() && device.blocks != [] && MasterHasWidths(mb) && MASTER_BYTES <= device.bytesPerBlock
    modifies device`blocks
    ensures device.Valid() && device.blocks == old(device.blocks)[0 := EncodeMaster(mb, device.bytesPerBlock)]
  {
    var buffer := Image(EncodeMaster(mb, device.bytesPerBlock));
    var zok := device.WriteBlock(0, buffer, 0);
    assert buffer[0..device.bytesPerBlock] == buffer[..];
  }

  /** Allocates the root directory. */
  method AllocateRoot(fs: FileSystem) returns (root: nat)
    requires fs.Valid() && fs.inodeMap.Length > 0
    modifies fs.inodeMap
    ensures fs.Valid() && root == INodes.AllocateINode(old(fs.inodeMap[..])).1 < fs.inodeMap.Length
    ensures var inodes := INodes.AllocateINode(old(fs.inodeMap[..])).0;
            fs.inodeMap[..] == inodes[root := inodes[root].(itype := DIRECTORY_TYPE)]
  {
    root := fs.AllocateINode();
    fs.inodeMap[root] := fs.inodeMap[root].(itype := DIRECTORY_TYPE);
  }

  lemma FormattedIs(disk: seq<Block>, bpb: nat, inodeCount: nat, bits: seq<byte>, inodes: seq<INode>, root: nat)
    requires IsDisk(disk, bpb) && disk != [] && MASTER_BYTES <= bpb < 0x8000_0000
    requires |disk| < 0x8000_0000 && 1 < inodeCount < 0x8000_0000
    requires MetadataBlocks(|disk|, bpb, inodeCount) < |disk|
    requires bits == AllocateMany(FreshBits(|disk|, bpb), |disk|, MetadataBlocks(|disk|, bpb, inodeCount)).0
    requires root == AllocateINode(FreshINodes(inodeCount)).1 < inodeCount
    requires var made := AllocateINode(FreshINodes(inodeCount)).0;
             |made| == inodeCount && inodes == made[root := made[root].(itype := DIRECTORY_TYPE)]
    ensures MasterHasWidths(MasterFor(|disk|, bpb, inodeCount, root)) && inodes != []
    ensures var master := EncodeMaster(MasterFor(|disk|, bpb, inodeCount, root), bpb);
            FormattedVolume(disk, bpb, inodeCount) == Volume(bpb, disk[0 := master], bits, |disk|, inodes)
  {
    hide AllocateMany, FreshBits, AllocateINode, FreshINodes, EncodeMaster;
  }

  /** Reserves the metadata blocks, allocates the root and writes everything to a
      device that is large enough. */
  method WriteFormat(device: BlockDevice, bs: BitSet, inodes: array<INode>, preallocBlocks: nat)
    requires device.Valid() && device.blocks != [] && MASTER_BYTES <= device.bytesPerBlock < 0x8000_0000
    requires |device.blocks| < 0x8000_0000 && 1 < inodes.Length < 0x8000_0000
    requires preallocBlocks == MetadataBlocks(|device.blocks|, device.bytesPerBlock, inodes.Length) < |device.blocks|
    requires bs.Valid() && bs.count == |device.blocks| && bs.bytes as object != inodes
    requires bs.bytes[..] == FreshBits(|device.blocks|, device.bytesPerBlock)
    requires inodes[..] == FreshINodes(inodes.Length)
    modifies device`blocks, bs.bytes, inodes
    ensures device.Valid() && Persistable(FormattedVolume(old(device.blocks), device.bytesPerBlock, inodes.Length))
    ensures device.blocks == Persist(FormattedVolume(old(device.blocks), device.bytesPerBlock, inodes.Length))
  {
    ghost var disk := device.blocks;
    FreshTableShaped(inodes.Length);
    FormattedIsPersistable(disk, device.bytesPerBlock, inodes.Length);
    hide FreshINodes, FreshBits, AllocateMany, INodes.AllocateINode, EncodeMaster, FormattedVolume;
    hide Persist, Persistable;
    hide MetadataBlocks, BlockMapBlocks, TableBlocks, MasterHasWidths, INodeMapAddress;
    Preallocate(bs, preallocBlocks);
    var fs := new FileSystem(device, bs, inodes);
    var root := AllocateRoot(fs);
    FormattedIs(disk, device.bytesPerBlock, inodes.Length, bs.bytes[..], inodes[..], root);
    var mb := MasterFor(|device.blocks|, device.bytesPerBlock, inodes.Length, root);
    WriteMasterBlock(device, mb);
    PersistMetadata(fs, mb);
  }

  /** Formats a device; -1 when it is too small, and then it is left alone. */
  method NewFs(device: BlockDevice, inodeCount: nat) returns (ok: int)
    requires device.Valid() && device.bytesPerBlock < 0x8000_0000 && |device.blocks| < 0x8000_0000
    requires 1 < inodeCount < 0x8000_0000
    modifies device`blocks
    ensures device.Valid() && (ok == 0 || ok == -1)
    ensures ok == 0 <==> Shells.NewFs(old(device.blocks), device.bytesPerBlock, inodeCount).Some?
    ensures device.blocks ==
            if ok == 0 then Shells.NewFs(old(device.blocks), device.bytesPerBlock, inodeCount).value
            else old(device.blocks)
  {
    hide FreshINodes, FreshBits, Persist, Persistable, FormattedVolume, BlockMapBlocks, TableBlocks, IsDisk;
    var blockSize, blockCount := device.bytesPerBlock, |device.blocks|;
    if blockSize < MASTER_BYTES {
      return -1;
    }
    if blockSize < INODE_BYTES {
      return -1;
    }
    var bs := new BitSet(blockCount, blockSize);
    var preallocBlocks := BlockMapBlocks(blockCount, blockSize) + 1;
    var inodes := AllocateINodeMap(inodeCount, true);
    preallocBlocks := preallocBlocks + TableBlocks(inodeCount, blockSize);
    if blockCount <= preallocBlocks {
      return -1;
    }
    WriteFormat(device, bs, inodes, preallocBlocks);
    return 0;
  }

  /** Brings the metadata of a formatted device into memory; null for a device
      that is not one. */
  method MountDevice(device: BlockDevice) returns (fs: FileSystem?, mb: MasterBlock)
    requires device.Valid()
    ensures fs == null <==> Metadata.Mount(device.blocks).None?
    ensures fs != null ==> fs.device == device && fresh(fs) && fresh(fs.blockMap.bytes) && fresh(fs.inodeMap)
    ensures fs != null ==> (fs.Valid() <==> WellShaped(fs.View()))
    ensures fs != null ==> Metadata.Mount(device.blocks) == Some((fs.View(), mb))
  {
    hide DecodeMaster, Metadata.ReadBlockMap, ReadRegion, TableBlocks, WordAt;
    mb := MasterBlock(0, 0, 0, 0, 0, 0, 0);
    if device.blocks == [] {
      return null, mb;
    }
    match DecodeMaster(device.blocks[0])
    case None => return null, mb;
    case Some(found) =>
      mb := found;
      if mb.blockCount != |device.blocks| || mb.bytesPerBlock != device.bytesPerBlock
         || mb.inodeCount <= 0 || mb.inodeMapAddress <= 1 {
        return null, mb;
      }
      var bs := ReadBlockMap(device);
      if bs == null {
        return null, mb;
      }
      var inodes := ReadINodeMap(device, mb.inodeMapAddress, mb.inodeCount);
      if inodes == null {
        return null, mb;
      }
      fs := new FileSystem(device, bs, inodes);
  }
}
