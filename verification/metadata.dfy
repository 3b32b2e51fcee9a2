/** The metadata on disk: master block, block map and inode table, in three
    disjoint regions, and what a format, an unmount and a mount do to them. */
module Metadata {
  import opened Bytes
  import opened BlockDevices
  import opened BitSets
  import opened INodes
  import opened Volumes

  // ---------- the master block ----------

  const MASTER_MAGIC: word := 0xF00DCAFE
  const MASTER_BYTES: nat := 32
  const BLOCK_MAP_ADDRESS: nat := 1

  datatype MasterBlock = MasterBlock(
    magic: word, bytesPerBlock: int, blockCount: int, inodeCount: int,
    blockMapAddress: int, inodeMapAddress: int, rootDirINode: int)

  predicate MasterHasWidths(mb: MasterBlock) {
    && IsInt32(mb.bytesPerBlock) && IsInt32(mb.blockCount) && IsInt32(mb.inodeCount)
    && IsInt32(mb.blockMapAddress) && IsInt32(mb.inodeMapAddress) && IsInt32(mb.rootDirINode)
  }

  function MasterWords(mb: MasterBlock): (ws: seq<word>)
    requires MasterHasWidths(mb)
    ensures |ws| == 8
  {
    [mb.magic, 0, Unsigned(mb.bytesPerBlock), Unsigned(mb.blockCount), Unsigned(mb.inodeCount),
     Unsigned(mb.blockMapAddress), Unsigned(mb.inodeMapAddress), Unsigned(mb.rootDirINode)]
  }

  /** The master block as it fills block 0. */
  function EncodeMaster(mb: MasterBlock, bpb: nat): (b: Block)
    requires MasterHasWidths(mb) && MASTER_BYTES <= bpb
    ensures |b| == bpb
  {
    WordsToBytes(MasterWords(mb)) + Zeros(bpb - MASTER_BYTES)
  }

  /** The structure at the start of a block; None when the magic is wrong. */
  function DecodeMaster(b: Block): (r: Option<MasterBlock>)
  {
    if |b| < MASTER_BYTES || WordAt(b, 0) != MASTER_MAGIC || WordAt(b, 1) != 0 then None
    else Some(MasterBlock(WordAt(b, 0), Signed(WordAt(b, 2)), Signed(WordAt(b, 3)), Signed(WordAt(b, 4)),
                          Signed(WordAt(b, 5)), Signed(WordAt(b, 6)), Signed(WordAt(b, 7))))
  }

  lemma WordAtOfPrefix(ws: seq<word>, tail: seq<byte>, i: nat)
    requires i < |ws|
    ensures WordAt(WordsToBytes(ws) + tail, i) == ws[i]
  {
    hide WordsToBytes, FromLE32;
    WordAtOfWords(ws, i);
    assert (WordsToBytes(ws) + tail)[4 * i..4 * i + 4] == WordsToBytes(ws)[4 * i..4 * i + 4];
  }

  /** The words of a master block stand at the front of a block. */
  ghost predicate HoldsMaster(b: Block, mb: MasterBlock)
    requires MasterHasWidths(mb)
  {
    |b| >= MASTER_BYTES && forall i: nat :: i < 8 ==> WordAt(b, i) == MasterWords(mb)[i]
  }

  lemma EncodedMaster(mb: MasterBlock, bpb: nat)
    requires MasterHasWidths(mb) && MASTER_BYTES <= bpb
    ensures HoldsMaster(EncodeMaster(mb, bpb), mb)
  {
    hide WordsToBytes, WordAt;
    var ws, b := MasterWords(mb), EncodeMaster(mb, bpb);
    forall i: nat | i < 8
      ensures WordAt(b, i) == ws[i]
    {
      WordAtOfPrefix(ws, Zeros(bpb - MASTER_BYTES), i);
    }
  }

  lemma DecodedMaster(b: Block, mb: MasterBlock)
    requires MasterHasWidths(mb) && HoldsMaster(b, mb) && mb.magic == MASTER_MAGIC
    ensures DecodeMaster(b) == Some(mb)
  {
    hide WordAt;
    var ws := MasterWords(mb);
    assert WordAt(b, 0) == ws[0] && WordAt(b, 1) == ws[1] && WordAt(b, 2) == ws[2] && WordAt(b, 3) == ws[3];
    assert WordAt(b, 4) == ws[4] && WordAt(b, 5) == ws[5] && WordAt(b, 6) == ws[6] && WordAt(b, 7) == ws[7];
  }

  lemma MasterRoundTrip(mb: MasterBlock, bpb: nat)
    requires MasterHasWidths(mb) && MASTER_BYTES <= bpb && mb.magic == MASTER_MAGIC
    ensures DecodeMaster(EncodeMaster(mb, bpb)) == Some(mb)
  {
    hide EncodeMaster, DecodeMaster, HoldsMaster;
    EncodedMaster(mb, bpb);
    DecodedMaster(EncodeMaster(mb, bpb), mb);
  }

  // ---------- the layout ----------

  const BITSET_MAGIC: word := 0xB175E700

  /** The blocks of the block map. The formula leaves out the header. */
  function BlockMapBlocks(count: nat, bpb: nat): nat
    requires bpb > 0
  {
    CeilDiv(BytesForBits(count), bpb)
  }

  function TableBlocks(inodeCount: nat, bpb: nat): nat
    requires bpb > 0
  {
    CeilDiv(INODE_BYTES * inodeCount, bpb)
  }

  /** The inode table ends with a block. Where it does not, the loops that move
      it between memory and the device run past the end of its array. */
  predicate TableFillsBlocks(inodeCount: nat, bpb: nat)
    requires bpb > 0
  {
    BlockStart(TableBlocks(inodeCount, bpb), bpb) == INODE_BYTES * inodeCount
  }

  function INodeMapAddress(count: nat, bpb: nat): nat
    requires bpb > 0
  {
    BLOCK_MAP_ADDRESS + BlockMapBlocks(count, bpb)
  }

  /** The number of blocks reserved for metadata. */
  function MetadataBlocks(count: nat, bpb: nat, inodeCount: nat): nat
    requires bpb > 0
  {
    INodeMapAddress(count, bpb) + TableBlocks(inodeCount, bpb)
  }

  /** Header and bits of the block map lie inside the blocks it is given. */
  predicate BlockMapFits(count: nat, bpb: nat)
    requires bpb > 0
  {
    HEADER_BYTES + BytesForBits(count) <= BlockStart(BlockMapBlocks(count, bpb), bpb)
  }

  /** The bit set as it lies in memory. */
  function MapBytes(bits: seq<byte>, count: nat): (s: seq<byte>)
    requires count < 0x8000_0000
    ensures |s| == HEADER_BYTES + |bits|
  {
    WordsToBytes([BITSET_MAGIC, count]) + bits
  }

  /** The inode table as it lies in memory, with the rest of its last block. */
  function TableBytes(inodes: seq<INode>, bpb: nat): (s: seq<byte>)
    requires TableHasWidths(inodes) && bpb > 0
    ensures |s| == BlockStart(TableBlocks(|inodes|, bpb), bpb)
  {
    EncodeTable(inodes) + Zeros(BlockStart(TableBlocks(|inodes|, bpb), bpb) - INODE_BYTES * |inodes|)
  }

  // ---------- writing and reading it ----------

  /** A volume whose metadata can be written: it has the widths of the C types,
      and its regions lie inside the device and its buffers. */
  predicate Persistable(v: Volume) {
    var sized := WellShaped(v) && |v.disk| == v.count < 0x8000_0000
      && MASTER_BYTES <= v.bpb < 0x8000_0000 && 0 < |v.inodes| < 0x8000_0000;
    var table := TableHasWidths(v.inodes);
    var inside := sized && MetadataBlocks(v.count, v.bpb, |v.inodes|) <= v.count;
    var buffer := sized && BlockStart(BlockMapBlocks(v.count, v.bpb), v.bpb) <= HEADER_BYTES + |v.bits|;
    var holds := sized && table && inside && buffer;
    holds
  }

  /** The part of the block map that its blocks hold. */
  function StoredMap(v: Volume): (s: seq<byte>)
    requires Persistable(v)
    ensures |s| == BlockStart(BlockMapBlocks(v.count, v.bpb), v.bpb)
  {
    MapBytes(v.bits, v.count)[..BlockStart(BlockMapBlocks(v.count, v.bpb), v.bpb)]
  }

  function WriteBlockMap(v: Volume): (disk: seq<Block>)
    requires Persistable(v)
    ensures |disk| == |v.disk|
  {
    WriteRegion(v.disk, BLOCK_MAP_ADDRESS, MapBytes(v.bits, v.count), v.bpb, BlockMapBlocks(v.count, v.bpb))
  }

  function WriteTable(disk: seq<Block>, v: Volume): (r: seq<Block>)
    requires Persistable(v) && |disk| == |v.disk|
    ensures |r| == |disk|
  {
    WriteRegion(disk, INodeMapAddress(v.count, v.bpb), TableBytes(v.inodes, v.bpb), v.bpb,
                TableBlocks(|v.inodes|, v.bpb))
  }

  /** The device after an unmount has written block map and inode table. */
  function Persist(v: Volume): (disk: seq<Block>)
    requires Persistable(v)
    ensures |disk| == |v.disk|
  {
    WriteTable(WriteBlockMap(v), v)
  }

  datatype Option<T> = None | Some(value: T)

  /** The block map read back: the count in its header and the packed bits. */
  function ReadBlockMap(disk: seq<Block>, bpb: nat): Option<(nat, seq<byte>)>
    requires bpb > 0
  {
    var n := BlockMapBlocks(|disk|, bpb);
    if BLOCK_MAP_ADDRESS + n > |disk| then None
    else
      var raw := ReadRegion(disk, BLOCK_MAP_ADDRESS, n);
      if |raw| < HEADER_BYTES || Signed(WordAt(raw, 1)) < 0 then None
      else Some((Signed(WordAt(raw, 1)), raw[HEADER_BYTES..]))
  }

  /** A mount: None stands for a device that is not a formatted one. The block
      map that comes back may be too short for its count. */
  function Mount(disk: seq<Block>): Option<(Volume, MasterBlock)>
  {
    if disk == [] then None else
    match DecodeMaster(disk[0])
    case None => None
    case Some(mb) =>
      if mb.blockCount != |disk| || !IsDisk(disk, |disk[0]|) || mb.bytesPerBlock != |disk[0]|
         || mb.inodeCount <= 0 || mb.inodeMapAddress <= 1 then None
      else
        var bpb := |disk[0]|;
        var n := TableBlocks(mb.inodeCount, bpb);
        match ReadBlockMap(disk, bpb)
        case None => None
        case Some((count, bits)) =>
          if mb.inodeMapAddress + n > |disk| then None
          else
            ReadRegionLength(disk, bpb, mb.inodeMapAddress, n);
            var inodes := DecodeTable(ReadRegion(disk, mb.inodeMapAddress, n), mb.inodeCount);
            Some((Volume(bpb, disk, bits, count, inodes), mb))
  }

  /** The master block of a format. */
  function MasterFor(count: nat, bpb: nat, inodeCount: nat, root: nat): MasterBlock
    requires bpb > 0
  {
    MasterBlock(MASTER_MAGIC, bpb, count, inodeCount, BLOCK_MAP_ADDRESS, INodeMapAddress(count, bpb), root)
  }

  /** The master block that describes a volume. */
  function MasterOf(v: Volume, root: nat): MasterBlock
    requires v.bpb > 0
  {
    MasterFor(v.count, v.bpb, |v.inodes|, root)
  }

  // ---------- the block map survives exactly when it fits ----------

  /** Every index of the set has its byte inside the blocks that are written
      exactly when the header was accounted for. */
  lemma EveryBitIsStored(count: nat, bpb: nat)
    requires bpb > 0 && count > 0
    ensures BlockMapFits(count, bpb) <==>
      forall i :: 0 <= i < count ==> HEADER_BYTES + i / 8 < BlockStart(BlockMapBlocks(count, bpb), bpb)
  {
    assert (count - 1) / 8 == BytesForBits(count) - 1;
    forall i | 0 <= i < count
      ensures i / 8 <= (count - 1) / 8
    {
    }
  }

  // ---------- persist, then mount ----------

  /** The regions of the metadata follow one another. */
  lemma RegionsDisjoint(v: Volume)
    returns (disk: seq<Block>)
    requires Persistable(v)
    ensures disk == Persist(v) && IsDisk(disk, v.bpb)
    ensures disk[0] == v.disk[0]
    ensures forall a :: MetadataBlocks(v.count, v.bpb, |v.inodes|) <= a < |v.disk| ==> disk[a] == v.disk[a]
    ensures ReadRegion(disk, BLOCK_MAP_ADDRESS, BlockMapBlocks(v.count, v.bpb)) == StoredMap(v)
    ensures ReadRegion(disk, INodeMapAddress(v.count, v.bpb), TableBlocks(|v.inodes|, v.bpb))
         == TableBytes(v.inodes, v.bpb)
  {
    var n, m := BlockMapBlocks(v.count, v.bpb), TableBlocks(|v.inodes|, v.bpb);
    var raw, table := MapBytes(v.bits, v.count), TableBytes(v.inodes, v.bpb);
    var addr := INodeMapAddress(v.count, v.bpb);
    var disk1 := WriteBlockMap(v);
    disk := Persist(v);
    WriteRegionBlocks(v.disk, BLOCK_MAP_ADDRESS, raw, v.bpb, n);
    RegionRoundTrip(v.disk, BLOCK_MAP_ADDRESS, raw, v.bpb, n);
    WriteRegionBlocks(disk1, addr, table, v.bpb, m);
    RegionRoundTrip(disk1, addr, table, v.bpb, m);
    ReadRegionFrame(disk1, disk, BLOCK_MAP_ADDRESS, n);
    assert table[..BlockStart(m, v.bpb)] == table;
  }

  lemma MapHeader(bits: seq<byte>, count: nat, n: nat)
    requires count < 0x8000_0000 && HEADER_BYTES <= n <= HEADER_BYTES + |bits|
    ensures var raw := MapBytes(bits, count)[..n];
            Signed(WordAt(raw, 1)) == count && raw[HEADER_BYTES..] == bits[..n - HEADER_BYTES]
  {
    var ws := [BITSET_MAGIC, count];
    WordAtOfWords(ws, 1);
    hide WordsToBytes, FromLE32;
    var raw := MapBytes(bits, count)[..n];
    assert raw[4..8] == WordsToBytes(ws)[4..8];
    assert raw[HEADER_BYTES..] == bits[..n - HEADER_BYTES];
  }

  lemma MapHasBlocks(v: Volume)
    requires Persistable(v)
    ensures BlockMapBlocks(v.count, v.bpb) > 0 && |StoredMap(v)| >= v.bpb
  {
    BlockStartsApart(0, BlockMapBlocks(v.count, v.bpb), v.bpb);
  }

  /** The bits that come back: all that the blocks hold. */
  function StoredBits(v: Volume): (bits: seq<byte>)
    requires Persistable(v)
    ensures |bits| == BlockStart(BlockMapBlocks(v.count, v.bpb), v.bpb) - HEADER_BYTES
    ensures BlockMapFits(v.count, v.bpb) <==> v.count <= 8 * |bits|
    ensures bits == v.bits[..|bits|]
  {
    MapHasBlocks(v);
    v.bits[..BlockStart(BlockMapBlocks(v.count, v.bpb), v.bpb) - HEADER_BYTES]
  }

  lemma BlockMapRoundTrip(v: Volume)
    requires Persistable(v)
    ensures ReadBlockMap(Persist(v), v.bpb) == Some((v.count, StoredBits(v)))
  {
    var disk := RegionsDisjoint(v);
    var raw := StoredMap(v);
    var n := |raw|;
    MapHasBlocks(v);
    MapHeader(v.bits, v.count, n);
    assert StoredBits(v) == v.bits[..n - HEADER_BYTES] == raw[HEADER_BYTES..];
    assert |disk| == v.count && ReadRegion(disk, BLOCK_MAP_ADDRESS, BlockMapBlocks(|disk|, v.bpb)) == raw;
  }

  lemma TableOnDiskRoundTrip(v: Volume)
    requires Persistable(v)
    ensures var raw := ReadRegion(Persist(v), INodeMapAddress(v.count, v.bpb), TableBlocks(|v.inodes|, v.bpb));
            INODE_BYTES * |v.inodes| <= |raw| && DecodeTable(raw, |v.inodes|) == v.inodes
  {
    var disk := RegionsDisjoint(v);
    TableRoundTrip(v.inodes, Zeros(BlockStart(TableBlocks(|v.inodes|, v.bpb), v.bpb) - INODE_BYTES * |v.inodes|));
  }

  /** What a mount brings back after an unmount: the same volume, with the block
      map cut to what its blocks hold and the metadata blocks filled in. */
  function Remounted(v: Volume): Volume
    requires Persistable(v)
  {
    v.(disk := Persist(v), bits := StoredBits(v))
  }

  /** Unmount, then mount: the inode table and the master block come back as
      they were, the block map as far as its blocks hold it, and no block
      outside the metadata changes. */
  lemma MountOfPersist(v: Volume, root: nat)
    requires Persistable(v) && root < 0x8000_0000
    requires HoldsMaster(v.disk[0], MasterOf(v, root))
    ensures Mount(Persist(v)) == Some((Remounted(v), MasterOf(v, root)))
    ensures Persist(v)[0] == v.disk[0]
    ensures forall a :: MetadataBlocks(v.count, v.bpb, |v.inodes|) <= a < |v.disk| ==> Persist(v)[a] == v.disk[a]
  {
    var disk := RegionsDisjoint(v);
    DecodedMaster(v.disk[0], MasterOf(v, root));
    BlockMapRoundTrip(v);
    TableOnDiskRoundTrip(v);
  }

  /** Index i of the block map came back with its value. */
  predicate BitSurvives(v: Volume, i: nat)
    requires Persistable(v) && i < v.count
  {
    i / 8 < |StoredBits(v)| && (GetBit(StoredBits(v), i) <==> GetBit(v.bits, i))
  }

  lemma EveryBitSurvives(v: Volume)
    requires Persistable(v)
    ensures BlockMapFits(v.count, v.bpb) <==> forall i :: 0 <= i < v.count ==> BitSurvives(v, i)
  {
    assert v.bpb > 0 && v.count > 0 && v.count <= 8 * |v.bits|;
    var bits := StoredBits(v);
    hide Persistable, WellShaped, StoredBits, BlockMapFits, Mask, HasWidths;
    if BlockMapFits(v.count, v.bpb) {
      forall i | 0 <= i < v.count
        ensures BitSurvives(v, i)
      {
        assert bits[i / 8] == v.bits[i / 8];
      }
    } else {
      assert (v.count - 1) / 8 >= |StoredBits(v)| && !BitSurvives(v, v.count - 1);
    }
  }

  lemma RemountedShape(v: Volume)
    requires Persistable(v)
    ensures WellShaped(Remounted(v)) <==> v.count <= 8 * |StoredBits(v)|
  {
    var disk := RegionsDisjoint(v);
    hide StoredBits, Persist;
  }

  /** A mount after an unmount always succeeds, and loses no bit of the block map
      exactly when the blocks of the map have room for the header, which the size
      formula leaves out. That is decided when the device is formatted. */
  lemma RemountNeedsHeaderRoom(v: Volume, root: nat)
    requires Persistable(v) && root < 0x8000_0000 && HoldsMaster(v.disk[0], MasterOf(v, root))
    ensures Mount(Persist(v)) == Some((Remounted(v), MasterOf(v, root)))
    ensures BlockMapFits(v.count, v.bpb) <==> forall i :: 0 <= i < v.count ==> BitSurvives(v, i)
    ensures BlockMapFits(v.count, v.bpb) <==> WellShaped(Remounted(v))
  {
    hide *;
    MountOfPersist(v, root);
    EveryBitSurvives(v);
    RemountedShape(v);
  }
}
