/** What newfs accepts and what it leaves behind, in plain numbers. */
module FormatLaws {
  import opened Bytes
  import opened BlockDevices
  import opened BitSets
  import opened INodes
  import opened Volumes
  import opened Metadata
  import opened Shells
  import opened SessionMounts

  // ---------- where the metadata is ----------

  /** The blocks of the block map: one bit for each block, in whole bytes, in
      whole blocks. */
  function MapBlocks(count: nat, bpb: nat): nat
    requires bpb > 0
  {
    ((count + 7) / 8 + bpb - 1) / bpb
  }

  /** The blocks of the inode table, with 128 bytes for each inode. */
  function TableSpan(inodeCount: nat, bpb: nat): nat
    requires bpb > 0
  {
    (128 * inodeCount + bpb - 1) / bpb
  }

  /** The blocks that newfs reserves: the master block, the block map, and the
      inode table. */
  function Reserved(count: nat, bpb: nat, inodeCount: nat): nat
    requires bpb > 0
  {
    1 + MapBlocks(count, bpb) + TableSpan(inodeCount, bpb)
  }

  lemma LayoutIsReserved(count: nat, bpb: nat, inodeCount: nat)
    requires bpb > 0
    ensures BlockMapBlocks(count, bpb) == MapBlocks(count, bpb) && BLOCK_MAP_ADDRESS == 1
    ensures INodeMapAddress(count, bpb) == 1 + MapBlocks(count, bpb)
    ensures MetadataBlocks(count, bpb, inodeCount) == Reserved(count, bpb, inodeCount)
    ensures TableBlocks(inodeCount, bpb) == TableSpan(inodeCount, bpb)
  {
    CeilDivIsQuotient((count + 7) / 8, bpb);
    CeilDivIsQuotient(128 * inodeCount, bpb);
  }

  // ---------- which devices are accepted ----------

  /** newfs succeeds exactly on blocks of at least 128 bytes, when a block is left
      beside those it reserves. */
  lemma NewFsAccepts(disk: seq<Block>, bpb: nat, inodeCount: nat)
    requires IsDisk(disk, bpb) && bpb < 0x8000_0000 && |disk| < 0x8000_0000 && 1 < inodeCount < 0x8000_0000
    ensures NewFs(disk, bpb, inodeCount).Some? <==> bpb >= 128 && |disk| > Reserved(|disk|, bpb, inodeCount)
  {
    LayoutIsReserved(|disk|, bpb, inodeCount);
    hide FormattedVolume, Persist, MapBlocks;
  }

  /** The devices of a session, beyond those accepted: the bits of the block map
      fit its blocks together with their header of 8 bytes, and the inode table
      ends with a block. */
  lemma SessionDevices(count: nat, bpb: nat, inodeCount: nat)
    requires bpb > 0
    ensures BlockMapFits(count, bpb) <==> 8 + (count + 7) / 8 <= MapBlocks(count, bpb) * bpb
    ensures TableFillsBlocks(inodeCount, bpb) <==> 128 * inodeCount % bpb == 0
  {
    LayoutIsReserved(count, bpb, inodeCount);
    BlockStartIsProduct(MapBlocks(count, bpb), bpb);
    hide MapBlocks, Reserved;
    FillsWhenDivides(128 * inodeCount, bpb);
  }

  lemma FillsWhenDivides(n: nat, bpb: nat)
    requires bpb > 0
    ensures BlockStart(CeilDiv(n, bpb), bpb) == n <==> n % bpb == 0
  {
    PositionIsQuotient(n, bpb);
    BlockStartsApart(BlockOf(n, bpb), CeilDiv(n, bpb), bpb);
    if BlockStart(CeilDiv(n, bpb), bpb) == n {
      PositionInBlock(n, CeilDiv(n, bpb), bpb);
    }
  }

  // ---------- what a format leaves on the device ----------

  /** The block map region: two words, and the bits behind them. */
  predicate MapOnDevice(out: seq<Block>, count: nat, mapped: nat, bits: seq<byte>) {
    && 1 + mapped <= |out| && |ReadRegion(out, 1, mapped)| == 8 + |bits|
    && WordAt(ReadRegion(out, 1, mapped), 0) == 0xB175_E700 && WordAt(ReadRegion(out, 1, mapped), 1) == count
    && ReadRegion(out, 1, mapped)[8..] == bits
  }

  /** The table region: inode k from byte 128 * k on. */
  predicate TableOnDevice(out: seq<Block>, at: nat, n: nat, inodes: seq<INode>) {
    && at + n <= |out| && 128 * |inodes| <= |ReadRegion(out, at, n)|
    && forall k :: 0 <= k < |inodes| ==> HasLayout(ReadRegion(out, at, n)[128 * k..128 * k + 128], inodes[k])
  }

  lemma MapIsOnDevice(v: Volume)
    requires Persistable(v)
    ensures MapOnDevice(Persist(v), v.count, MapBlocks(v.count, v.bpb), StoredBits(v))
  {
    LayoutIsReserved(v.count, v.bpb, |v.inodes|);
    var out := RegionsDisjoint(v);
    MapHasBlocks(v);
    var n := |StoredMap(v)|;
    MapWords(v.bits, v.count, n);
    hide WordAt, MapBytes, Persist, MapBlocks, TableSpan, HasWidths, ReadRegion;
    assert StoredBits(v) == v.bits[..n - 8];
  }

  lemma SlotHasLayout(inodes: seq<INode>, tail: seq<byte>, k: nat)
    requires TableHasWidths(inodes) && k < |inodes|
    ensures 128 * k + 128 <= |EncodeTable(inodes) + tail|
    ensures HasLayout((EncodeTable(inodes) + tail)[128 * k..128 * k + 128], inodes[k])
  {
    hide HasWidths, HasLayout, EncodeINode, EncodeTable;
    TableSlot(inodes, tail, k);
    var _ := INodeLayout(inodes[k]);
  }

  lemma TableIsOnDevice(v: Volume)
    requires Persistable(v)
    ensures TableOnDevice(Persist(v), 1 + MapBlocks(v.count, v.bpb), TableSpan(|v.inodes|, v.bpb), v.inodes)
  {
    hide HasWidths, HasLayout, EncodeINode, EncodeTable, ReadRegion, Persist, MapBlocks, TableSpan, BlockStart;
    LayoutIsReserved(v.count, v.bpb, |v.inodes|);
    var out := RegionsDisjoint(v);
    var tail := Zeros(BlockStart(TableBlocks(|v.inodes|, v.bpb), v.bpb) - 128 * |v.inodes|);
    forall k: nat | k < |v.inodes|
      ensures HasLayout((EncodeTable(v.inodes) + tail)[128 * k..128 * k + 128], v.inodes[k])
    {
      SlotHasLayout(v.inodes, tail, k);
    }
  }

  /** Where an unmount puts the metadata: the block map from block 1 on and the
      inode table right behind it; all other blocks stay. */
  lemma PersistLayout(v: Volume)
    returns (out: seq<Block>, mapped: nat, table: nat)
    requires Persistable(v)
    ensures v.bpb > 0 && mapped == MapBlocks(v.count, v.bpb) && table == TableSpan(|v.inodes|, v.bpb)
    ensures out == Persist(v) && |out| == |v.disk| == v.count && v.count >= 1 + mapped + table
    ensures IsDisk(out, v.bpb) && v.disk != [] && out[0] == v.disk[0]
    ensures forall a :: 1 + mapped + table <= a < |out| ==> out[a] == v.disk[a]
    ensures TableOnDevice(out, 1 + mapped, table, v.inodes)
    ensures MapOnDevice(out, v.count, mapped, StoredBits(v))
  {
    hide TableOnDevice, MapOnDevice, HasWidths, MapBlocks, TableSpan, BlockMapBlocks, TableBlocks, Persist;
    LayoutIsReserved(v.count, v.bpb, |v.inodes|);
    mapped, table := MapBlocks(v.count, v.bpb), TableSpan(|v.inodes|, v.bpb);
    out := RegionsDisjoint(v);
    hide *;
    MapIsOnDevice(v);
    TableIsOnDevice(v);
  }

  lemma MapWords(bits: seq<byte>, count: nat, n: nat)
    requires count < 0x8000_0000 && 8 <= n <= 8 + |bits|
    ensures var raw := MapBytes(bits, count)[..n];
            WordAt(raw, 0) == 0xB175_E700 && WordAt(raw, 1) == count && raw[8..] == bits[..n - 8]
  {
    var ws := [BITSET_MAGIC, count];
    WordAtOfWords(ws, 0);
    WordAtOfWords(ws, 1);
    hide WordsToBytes, FromLE32;
    var raw := MapBytes(bits, count)[..n];
    assert raw[0..4] == WordsToBytes(ws)[0..4] && raw[4..8] == WordsToBytes(ws)[4..8];
    assert raw[8..] == bits[..n - 8];
  }

  /** The inodes of a new file system: the root is a directory in use, and the
      others are numbered and free. */
  predicate IsNewTable(inodes: seq<INode>) {
    && inodes != []
    && inodes[0] == INode(0, 0xcafe_f00d, 0, 2, 0, 1, 0, 0, 0, 0, 0, seq(16, _ => 0))
    && forall k :: 0 < k < |inodes| ==>
         inodes[k] == INode(k, 0x1337_f337, 0, 0, 0, 2, 0, 0, 0, 0, 0, seq(16, _ => 0))
  }

  lemma NewTable(n: nat)
    requires 1 < n < 0x8000_0000
    ensures var (inodes, root) := AllocateINode(FreshINodes(n));
            root == 0 && |inodes| == n && IsNewTable(inodes[0 := inodes[0].(itype := DIRECTORY_TYPE)])
  {
    var blank := FreshINodes(n);
    assert blank[0].status == FREE_STATUS;
    assert ZeroPointers() == seq(16, _ => 0);
  }

  /** The words of the master block, in their order on the device. */
  predicate MasterOnDevice(b: Block, bpb: nat, count: nat, inodeCount: nat, tableAt: nat) {
    && |b| >= 32
    && WordAt(b, 0) == 0xF00D_CAFE && WordAt(b, 1) == 0 && WordAt(b, 2) == bpb && WordAt(b, 3) == count
    && WordAt(b, 4) == inodeCount && WordAt(b, 5) == 1 && WordAt(b, 6) == tableAt && WordAt(b, 7) == 0
  }

  lemma MasterIsOnDevice(b: Block, bpb: nat, count: nat, inodeCount: nat)
    requires bpb > 0 && MasterHasWidths(MasterFor(count, bpb, inodeCount, 0))
    requires HoldsMaster(b, MasterFor(count, bpb, inodeCount, 0))
    ensures MasterOnDevice(b, bpb, count, inodeCount, 1 + MapBlocks(count, bpb))
  {
    LayoutIsReserved(count, bpb, inodeCount);
    var ws := MasterWords(MasterFor(count, bpb, inodeCount, 0));
    hide WordAt;
    assert forall i: nat :: i < 8 ==> WordAt(b, i) == ws[i];
  }

  /** The bits that come back are the reserved blocks. */
  lemma ReservedBits(w: Volume, meta: nat)
    requires Persistable(w) && forall i :: 0 <= i < w.count ==> (GetBit(w.bits, i) <==> i < meta)
    ensures forall i :: 0 <= i < w.count && i / 8 < |StoredBits(w)| ==> (GetBit(StoredBits(w), i) <==> i < meta)
  {
    var bits := StoredBits(w);
    hide StoredBits;
    forall i | 0 <= i < w.count && i / 8 < |bits|
      ensures GetBit(bits, i) <==> i < meta
    {
      assert bits[i / 8] == w.bits[i / 8];
      assert GetBit(w.bits, i) <==> i < meta;
    }
  }

  /** What a mount finds on a new device. */
  lemma NewVolumeBack(w: Volume)
    requires Persistable(w) && HoldsMaster(w.disk[0], MasterOf(w, 0))
    ensures Mount(Persist(w)) ==
      Some((Volume(w.bpb, Persist(w), StoredBits(w), w.count, w.inodes),
            MasterBlock(0xF00D_CAFE, w.bpb, w.count, |w.inodes|, 1, 1 + MapBlocks(w.count, w.bpb), 0)))
  {
    hide HoldsMaster, HasWidths, Mount, Persist, StoredBits, MapBlocks, INodeMapAddress, BlockMapBlocks, TableBlocks;
    LayoutIsReserved(w.count, w.bpb, |w.inodes|);
    MountOfPersist(w, 0);
  }

  /** The device after newfs, for every device it accepts: the master block, a
      block map in which exactly the reserved blocks are used, as far as it is
      stored, the new inode table, and every other block as it was. A mount finds
      just that. */
  lemma NewFsLeaves(disk: seq<Block>, bpb: nat, inodeCount: nat)
    returns (out: seq<Block>, v: Volume, mapped: nat, table: nat)
    requires IsDisk(disk, bpb) && bpb < 0x8000_0000 && |disk| < 0x8000_0000 && 1 < inodeCount < 0x8000_0000
    requires NewFs(disk, bpb, inodeCount).Some?
    ensures mapped == MapBlocks(|disk|, bpb) && table == TableSpan(inodeCount, bpb) && 1 + mapped + table < |disk|
    ensures out == NewFs(disk, bpb, inodeCount).value && |out| == |disk| && IsDisk(out, bpb)
    ensures forall a :: 1 + mapped + table <= a < |disk| ==> out[a] == disk[a]
    ensures |v.inodes| == inodeCount && IsNewTable(v.inodes)
    ensures forall i :: 0 <= i < |disk| && i / 8 < |v.bits| ==> (GetBit(v.bits, i) <==> i < 1 + mapped + table)
    ensures Mount(out) == Some((v, MasterBlock(0xF00D_CAFE, bpb, |disk|, inodeCount, 1, 1 + mapped, 0)))
    ensures v == Volume(bpb, out, v.bits, |disk|, v.inodes)
    ensures MasterOnDevice(out[0], bpb, |disk|, inodeCount, 1 + mapped)
    ensures MapOnDevice(out, |disk|, mapped, v.bits) && TableOnDevice(out, 1 + mapped, table, v.inodes)
  {
    hide *;
    var w := NewFsIsPersist(disk, bpb, inodeCount);
    out, mapped, table := PersistLayout(w);
    v := Volume(bpb, out, StoredBits(w), |disk|, w.inodes);
    NewVolumeBack(w);
    MasterIsOnDevice(w.disk[0], bpb, |disk|, inodeCount);
    ReservedBits(w, 1 + mapped + table);
  }

  lemma NewFsIsPersist(disk: seq<Block>, bpb: nat, inodeCount: nat)
    returns (w: Volume)
    requires IsDisk(disk, bpb) && bpb < 0x8000_0000 && |disk| < 0x8000_0000 && 1 < inodeCount < 0x8000_0000
    requires NewFs(disk, bpb, inodeCount).Some?
    ensures bpb > 0 && 1 + MapBlocks(|disk|, bpb) + TableSpan(inodeCount, bpb) < |disk| == |w.disk|
    ensures w == Volume(bpb, w.disk, w.bits, |disk|, w.inodes) && Persistable(w)
    ensures NewFs(disk, bpb, inodeCount).value == Persist(w) && |w.inodes| == inodeCount && IsNewTable(w.inodes)
    ensures MasterHasWidths(MasterFor(|disk|, bpb, inodeCount, 0))
    ensures MasterOf(w, 0) == MasterFor(|disk|, bpb, inodeCount, 0) && HoldsMaster(w.disk[0], MasterOf(w, 0))
    ensures forall a :: 0 < a < |disk| ==> w.disk[a] == disk[a]
    ensures var meta := 1 + MapBlocks(|disk|, bpb) + TableSpan(inodeCount, bpb);
            forall i :: 0 <= i < |disk| ==> (GetBit(w.bits, i) <==> i < meta)
  {
    hide MapBlocks, TableSpan, HoldsMaster, IsNewTable, HasWidths, FormattedVolume, Persist, GetBit;
    NewFsAccepts(disk, bpb, inodeCount);
    LayoutIsReserved(|disk|, bpb, inodeCount);
    FormattedIsPersistable(disk, bpb, inodeCount);
    w := NewVolume(disk, bpb, inodeCount);
  }

  /** What newfs builds before it writes. */
  lemma NewVolume(disk: seq<Block>, bpb: nat, inodeCount: nat)
    returns (w: Volume)
    requires IsDisk(disk, bpb) && 128 <= bpb < 0x8000_0000
    requires 0 < |disk| < 0x8000_0000 && 1 < inodeCount < 0x8000_0000
    requires MetadataBlocks(|disk|, bpb, inodeCount) < |disk|
    ensures w == FormattedVolume(disk, bpb, inodeCount) && |w.disk| == |disk| && |w.inodes| == inodeCount
    ensures w == Volume(bpb, w.disk, w.bits, |disk|, w.inodes) && |disk| <= 8 * |w.bits|
    ensures IsNewTable(w.inodes) && MasterHasWidths(MasterOf(w, 0)) && HoldsMaster(w.disk[0], MasterOf(w, 0))
    ensures forall a :: 0 < a < |disk| ==> w.disk[a] == disk[a]
    ensures forall i :: 0 <= i < |disk| ==> (GetBit(w.bits, i) <==> i < MetadataBlocks(|disk|, bpb, inodeCount))
  {
    w := FormattedVolume(disk, bpb, inodeCount);
    NewTable(inodeCount);
    FormattedMaster(disk, bpb, inodeCount);
    var bits := FormattedMap(|disk|, bpb, MetadataBlocks(|disk|, bpb, inodeCount));
    hide AllocateMany, FreshBits, FreshINodes, AllocateINode, EncodeMaster, HoldsMaster, IsNewTable, MetadataBlocks;
    hide GetBit;
  }

  // ---------- which devices can be mounted ----------

  /** Word i of block 0, as a C `int`. */
  function MasterField(disk: seq<Block>, i: nat): int
    requires disk != [] && |disk[0]| >= 32 && i < 8
  {
    Signed(WordAt(disk[0], i))
  }

  /** The device starts with a master block, which tells its sizes truly, and has
      the blocks of its block map and of its inode table. */
  predicate IsMountable(disk: seq<Block>) {
    && disk != [] && |disk[0]| >= 32 && IsDisk(disk, |disk[0]|)
    && WordAt(disk[0], 0) == 0xF00D_CAFE && WordAt(disk[0], 1) == 0
    && MasterField(disk, 2) == |disk[0]| && MasterField(disk, 3) == |disk|
    && MasterField(disk, 4) > 0 && MasterField(disk, 6) > 1
    && 1 + MapBlocks(|disk|, |disk[0]|) <= |disk|
    && MasterField(disk, 6) + TableSpan(MasterField(disk, 4), |disk[0]|) <= |disk|
    && |ReadRegion(disk, 1, MapBlocks(|disk|, |disk[0]|))| >= 8
    && Signed(WordAt(ReadRegion(disk, 1, MapBlocks(|disk|, |disk[0]|)), 1)) >= 0
  }

  /** What a mount has to find on such a device. */
  ghost predicate MountFinds(disk: seq<Block>, v: Volume, mb: MasterBlock)
    requires IsMountable(disk)
  {
    var bpb, n, at := |disk[0]|, MasterField(disk, 4), MasterField(disk, 6);
    var bitmap, table := ReadRegion(disk, 1, MapBlocks(|disk|, bpb)), ReadRegion(disk, at, TableSpan(n, bpb));
    && mb == MasterBlock(0xF00D_CAFE, bpb, |disk|, n, MasterField(disk, 5), at, MasterField(disk, 7))
    && v == Volume(bpb, disk, bitmap[8..], Signed(WordAt(bitmap, 1)), v.inodes) && |v.inodes| == n
    && 128 * n <= |table| && forall k :: 0 <= k < n ==> v.inodes[k] == DecodeINode(table[128 * k..128 * k + 128])
  }

  lemma MasterDecodes(disk: seq<Block>)
    requires disk != []
    ensures DecodeMaster(disk[0]).Some? <==>
      |disk[0]| >= 32 && WordAt(disk[0], 0) == 0xF00D_CAFE && WordAt(disk[0], 1) == 0
    ensures DecodeMaster(disk[0]).Some? ==>
      DecodeMaster(disk[0]).value ==
      MasterBlock(0xF00D_CAFE, MasterField(disk, 2), MasterField(disk, 3), MasterField(disk, 4), MasterField(disk, 5),
                  MasterField(disk, 6), MasterField(disk, 7))
  {
    hide WordAt;
  }

  lemma MapReads(disk: seq<Block>, bpb: nat)
    requires bpb > 0
    ensures Metadata.ReadBlockMap(disk, bpb).Some? <==>
      var n := MapBlocks(|disk|, bpb);
      && 1 + n <= |disk| && |ReadRegion(disk, 1, n)| >= 8 && Signed(WordAt(ReadRegion(disk, 1, n), 1)) >= 0
    ensures Metadata.ReadBlockMap(disk, bpb).Some? ==>
      Metadata.ReadBlockMap(disk, bpb).value ==
      (Signed(WordAt(ReadRegion(disk, 1, MapBlocks(|disk|, bpb)), 1)),
       ReadRegion(disk, 1, MapBlocks(|disk|, bpb))[8..])
  {
    LayoutIsReserved(|disk|, bpb, 0);
    hide WordAt, MapBlocks, BlockMapBlocks, ReadRegion;
  }

  lemma MountedIsMountable(disk: seq<Block>)
    requires disk != [] && |disk[0]| >= 32
    ensures Mount(disk).Some? <==> IsMountable(disk)
  {
    var n := MasterField(disk, 4);
    MasterDecodes(disk);
    LayoutIsReserved(|disk|, |disk[0]|, if n > 0 then n else 0);
    MapReads(disk, |disk[0]|);
    hide WordAt, MasterField, MapBlocks, TableSpan, BlockMapBlocks, TableBlocks, ReadRegion, DecodeMaster;
    hide DecodeTable, Metadata.ReadBlockMap, Signed;
  }

  lemma TableDecodes(raw: seq<byte>, n: nat)
    requires 128 * n <= |raw|
    ensures forall k :: 0 <= k < n ==> DecodeTable(raw, n)[k] == DecodeINode(raw[128 * k..128 * k + 128])
  {
    hide DecodeINode;
  }

  lemma MountFound(disk: seq<Block>)
    requires IsMountable(disk) && Mount(disk).Some?
    ensures MountFinds(disk, Mount(disk).value.0, Mount(disk).value.1)
  {
    var n := MasterField(disk, 4);
    hide WordAt, DecodeMaster, DecodeINode, ReadRegion, MapBlocks, TableSpan, BlockMapBlocks, TableBlocks;
    MasterDecodes(disk);
    LayoutIsReserved(|disk|, |disk[0]|, n);
    MapReads(disk, |disk[0]|);
    ReadRegionLength(disk, |disk[0]|, MasterField(disk, 6), TableSpan(n, |disk[0]|));
    TableDecodes(ReadRegion(disk, MasterField(disk, 6), TableSpan(n, |disk[0]|)), n);
    hide MasterField, Metadata.ReadBlockMap, Signed, DecodeTable;
  }

  /** A mount succeeds exactly on these, whatever else they hold, and finds the
      block map from block 1 on and the inodes from where the master block says. */
  lemma MountAccepts(disk: seq<Block>)
    ensures Mount(disk).Some? <==> IsMountable(disk)
    ensures IsMountable(disk) ==> MountFinds(disk, Mount(disk).value.0, Mount(disk).value.1)
  {
    if disk != [] && |disk[0]| >= 32 {
      hide Mount, IsMountable, MountFinds;
      MountedIsMountable(disk);
      if Mount(disk).Some? {
        MountFound(disk);
      }
    } else {
      hide WordAt;
    }
  }
}
