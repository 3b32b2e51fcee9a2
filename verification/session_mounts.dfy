/** Unmounting, mounting and formatting keep the session invariant. */
module SessionMounts {
  import opened Bytes
  import opened BlockDevices
  import opened BitSets
  import opened INodes
  import opened Volumes
  import opened Ownership
  import opened Accounting
  import opened DirectoryText
  import opened DirectoryStore
  import opened Forests
  import opened NameTrees
  import opened WriteBack
  import opened DirtyTracking
  import opened Metadata
  import opened Shells
  import opened Sessions
  import opened SessionCommands

  /** An unmounted device that holds the tree: mounting it succeeds and finds a
      volume on which every directory is stored as the tree has it. */
  ghost predicate IdleOk(disk: seq<Block>, t: Tree, meta: nat, mb: MasterBlock) {
    exists v: Volume :: HoldsVolume(disk, v, t, meta, mb)
  }

  ghost predicate HoldsVolume(disk: seq<Block>, v: Volume, t: Tree, meta: nat, mb: MasterBlock) {
    var holds := VolumeOk(v, t, meta) && InSync(v, t, {}, {}) && Mount(disk) == Some((v, mb)) && mb == MasterOf(v, 0);
    holds
  }

  // ---------- unmount ----------

  lemma {:induction false} CountBitsOfPrefix(bits: seq<byte>, n: nat, count: nat)
    requires n <= |bits| && count <= 8 * n
    ensures CountBits(bits[..n], count) == CountBits(bits, count)
  {
    if count > 0 {
      CountBitsOfPrefix(bits, n, count - 1);
    }
  }

  lemma OkIsPersistable(v: Volume, t: Tree, meta: nat)
    requires VolumeOk(v, t, meta)
    ensures Persistable(v) && BlockMapFits(v.count, v.bpb) && BlockMapBlocks(v.count, v.bpb) > 0
    ensures HoldsMaster(v.disk[0], MasterOf(v, 0)) && meta == MetadataBlocks(v.count, v.bpb, |v.inodes|)
  {
  }

  lemma StoredBitsAgree(v: Volume)
    requires Persistable(v) && BlockMapFits(v.count, v.bpb)
    ensures forall a :: 0 <= a < v.count ==> (GetBit(StoredBits(v), a) <==> GetBit(v.bits, a))
    ensures CountBits(StoredBits(v), v.count) == CountBits(v.bits, v.count)
  {
    CountBitsOfPrefix(v.bits, |StoredBits(v)|, v.count);
  }

  /** The remounted volume owns, counts and stores what the unmounted one did. */
  lemma RemountedOwned(v: Volume, meta: nat)
    returns (v': Volume)
    requires Owned(v, meta) && Persistable(v) && BlockMapFits(v.count, v.bpb)
    requires meta == MetadataBlocks(v.count, v.bpb, |v.inodes|)
    ensures v' == Remounted(v) && Owned(v', meta)
    ensures Conserved(v, meta) ==> Conserved(v', meta)
    ensures FreeIsZero(v) ==> FreeIsZero(v')
    ensures forall k: nat, b: nat :: k < |v.inodes| ==> FileBlock(v', k, b) == FileBlock(v, k, b)
  {
    v' := Remounted(v);
    var disk := RegionsDisjoint(v);
    StoredBitsAgree(v);
    forall k: nat, b: nat | k < |v.inodes|
      ensures FileBlock(v', k, b) == FileBlock(v, k, b)
    {
      if Lookup(v.inodes[k], b) > 0 {
        assert Lookup(v.inodes[k], b) == PointerAt(v.inodes, k, b);
      }
    }
  }

  lemma RemountedOk(v: Volume, t: Tree, meta: nat)
    returns (v': Volume)
    requires VolumeOk(v, t, meta) && InSync(v, t, {}, {})
    requires Persistable(v) && BlockMapFits(v.count, v.bpb) && meta == MetadataBlocks(v.count, v.bpb, |v.inodes|)
    requires Persist(v)[0] == v.disk[0]
    ensures v' == Remounted(v)
    ensures VolumeOk(v', t, meta) && InSync(v', t, {}, {}) && MasterOf(v', 0) == MasterOf(v, 0)
  {
    v' := RemountedOwned(v, meta);
    forall j | 0 <= j < |v.inodes|
      ensures StoredBlock(v', j) == StoredBlock(v, j)
    {
      SameBlocksSameText(v, v', j, meta);
    }
    assert Roomy(v', meta, |t.dirs|);
    assert Formatted(v', meta);
    StillInSync(v, v', t);
  }

  lemma StillInSync(v: Volume, v': Volume, t: Tree)
    requires WellShaped(v) && WellShaped(v') && v'.bpb == v.bpb
    requires |t.dirs| <= |v.inodes| == |v'.inodes| && InSync(v, t, {}, {})
    requires forall j :: 0 <= j < |v.inodes| ==> StoredBlock(v', j) == StoredBlock(v, j)
    ensures InSync(v', t, {}, {})
  {
    hide StoredBlock, PrintBlock;
    forall c: nat | c < |t.dirs|
      ensures Synced(v', t, c)
    {
      assert Synced(v, t, c) && StoredBlock(v', c) == StoredBlock(v, c);
    }
  }

  /** An unmounted volume is found again by the next mount. */
  lemma PersistedIsOk(v: Volume, t: Tree, meta: nat)
    requires VolumeOk(v, t, meta) && InSync(v, t, {}, {})
    ensures Persistable(v) && IdleOk(Persist(v), t, meta, MasterOf(v, 0))
  {
    OkIsPersistable(v, t, meta);
    MountOfPersist(v, 0);
    var v' := RemountedOk(v, t, meta);
    assert HoldsVolume(Persist(v), v', t, meta, MasterOf(v, 0));
  }

  lemma UnmountOk(l: Live, t: Tree, meta: nat)
    returns (disk: seq<Block>)
    requires LiveOk(l, t, meta)
    ensures Flushable(l) && DoUnmount(l) == Idle(disk) && IdleOk(disk, t, meta, l.mb)
  {
    var cache, vol := FlushSettles(l, t, meta);
    PersistedIsOk(vol, t, meta);
    disk := Persist(vol);
  }

  // ---------- mount ----------

  /** The cache of a volume just mounted: the root, with nothing loaded. */
  lemma BareRootShows(t: Tree)
    requires IsTree(t) && t.cwd == 0
    ensures ShowsTree(NewEntry(0, CStr(ROOT_LITERAL, ROOT_NAME)), [], t, FIRST_ADDRESS)
  {
    assert ROOT_LISTING[1..] == [];
  }

  lemma JustMountedIsOk(l: Live, t: Tree, meta: nat)
    requires VolumeOk(l.vol, t, meta) && InSync(l.vol, t, {}, {}) && l.mb == MasterOf(l.vol, 0)
    requires l.cache == NewEntry(0, CStr(ROOT_LITERAL, ROOT_NAME)) && l.cur == [] && l.next == FIRST_ADDRESS
    requires ShowsTree(l.cache, l.cur, t, l.next)
    ensures LiveOk(l, t, meta)
  {
    hide ShowsTree, InSync;
    assert Loaded(l.cache) == {};
    assert InPhase(l.cache, l.cur, JustMounted) && InSync(l.vol, t, Loaded(l.cache), Stale(JustMounted, t));
  }

  lemma MountOk(disk: seq<Block>, t: Tree, meta: nat, mb: MasterBlock)
    returns (l: Live)
    requires IdleOk(disk, t, meta, mb)
    ensures DoMount(disk) == Mounted(l) && LiveOk(l, t.(cwd := 0), meta) && l.mb == mb
  {
    var v :| HoldsVolume(disk, v, t, meta, mb);
    VolumeIgnoresCwd(v, t, meta, {}, 0);
    BareRootShows(t.(cwd := 0));
    l := Live(v, mb, NewEntry(0, CStr(ROOT_LITERAL, ROOT_NAME)), [], FIRST_ADDRESS);
    JustMountedIsOk(l, t.(cwd := 0), meta);
  }

  // ---------- format ----------

  /** The block map of a format: the metadata blocks are used, no other is. */
  lemma FormattedMap(count: nat, bpb: nat, meta: nat)
    returns (bits: seq<byte>)
    requires bpb > 0 && meta <= count
    ensures bits == AllocateMany(FreshBits(count, bpb), count, meta).0
    ensures count <= 8 * |bits| && |bits| == |FreshBits(count, bpb)|
    ensures forall i :: 0 <= i < count ==> (GetBit(bits, i) <==> i < meta)
    ensures CountBits(bits, count) == meta
  {
    var cleared := FreshBits(count, bpb);
    forall i | 0 <= i < count
      ensures !GetBit(cleared, i)
    {
      FreshIsClear(count, bpb, i);
    }
    CountBitsOfClear(cleared, count);
    AllocateManyReservesPrefix(cleared, count, 0, meta);
    AllocateManyDrains(cleared, count, meta);
    bits := AllocateMany(cleared, count, meta).0;
  }

  lemma {:induction false} NoPointers(inodes: seq<INode>)
    requires forall k, b :: 0 <= k < |inodes| && 0 <= b < |inodes[k].ptrs| ==> inodes[k].ptrs[b] <= 0
    ensures TotalPointers(inodes) == 0
  {
    if inodes != [] {
      NoPointers(inodes[..|inodes| - 1]);
      NoPositivePointers(inodes[|inodes| - 1].ptrs);
    }
  }

  /** The inode table of a format: the root directory, and free inodes. */
  lemma FormattedTable(n: nat)
    returns (inodes: seq<INode>)
    requires 1 < n < 0x8000_0000
    ensures AllocateINode(FreshINodes(n)).1 == 0 && |AllocateINode(FreshINodes(n)).0| == n
    ensures var made := AllocateINode(FreshINodes(n)).0;
            inodes == made[0 := made[0].(itype := DIRECTORY_TYPE)]
    ensures INodesMatch(inodes, EMPTY_TREE) && OnlyDirectories(inodes) && TotalPointers(inodes) == 0
    ensures forall k, b :: 0 <= k < n && 0 <= b < |inodes[k].ptrs| ==> inodes[k].ptrs[b] == 0
  {
    var blank, made := FreshINodes(n), AllocateINode(FreshINodes(n)).0;
    assert blank[0].status == FREE_STATUS;
    inodes := made[0 := made[0].(itype := DIRECTORY_TYPE)];
    assert forall k :: 0 < k < n ==>
      inodes[k] == BLANK_INODE.(inodeNum := k, status := FREE_STATUS, ownerUid := INITIAL_UID);
    assert inodes[0] == BLANK_INODE.(status := ALLOCATED_STATUS, ownerUid := ALLOCATED_UID, itype := DIRECTORY_TYPE);
    BlankINode();
    hide FreshINodes, AllocateINode, FindFree, ZeroPointers;
    NoPointers(inodes);
  }

  /** A format reserves the metadata blocks and nothing else. */
  lemma FormattedRoomy(disk: seq<Block>, bpb: nat, inodeCount: nat, meta: nat)
    returns (v: Volume)
    requires IsDisk(disk, bpb) && INODE_BYTES <= bpb < 0x8000_0000
    requires 0 < |disk| < 0x8000_0000 && 1 < inodeCount < 0x8000_0000
    requires 0 < meta == MetadataBlocks(|disk|, bpb, inodeCount) < |disk|
    ensures v == FormattedVolume(disk, bpb, inodeCount)
    ensures Roomy(v, meta, 1) && INodesMatch(v.inodes, EMPTY_TREE)
    ensures forall k: nat, b: nat :: PointerAt(v.inodes, k, b) == 0
    ensures v.disk[1..] == disk[1..]
    ensures v.bpb == bpb && MasterHasWidths(MasterOf(v, 0)) && HoldsMaster(v.disk[0], MasterOf(v, 0))
  {
    v := FormattedVolume(disk, bpb, inodeCount);
    var bits := FormattedMap(|disk|, bpb, meta);
    var inodes := FormattedTable(inodeCount);
    FormattedMaster(disk, bpb, inodeCount);
    hide HoldsMaster, EncodeMaster;
    assert v == Volume(bpb, v.disk, bits, |disk|, inodes) && IsDisk(v.disk, bpb) && |v.disk| == |disk|;
    assert v.disk[1..] == disk[1..];
    hide *;
    RoomyWithoutPointers(v, meta);
  }

  /** A volume on which no inode has a block, and only the metadata is used. */
  lemma RoomyWithoutPointers(v: Volume, meta: nat)
    requires IsDisk(v.disk, v.bpb) && 0 < v.count == |v.disk| < 0x8000_0000 && v.bpb < 0x8000_0000
    requires v.count <= 8 * |v.bits|
    requires 0 < meta < v.count && (forall a :: 0 <= a < v.count ==> (GetBit(v.bits, a) <==> a < meta))
    requires CountBits(v.bits, v.count) == meta && TotalPointers(v.inodes) == 0
    requires OnlyDirectories(v.inodes) && 1 <= |v.inodes|
    requires forall k, b :: 0 <= k < |v.inodes| && 0 <= b < |v.inodes[k].ptrs| ==> v.inodes[k].ptrs[b] == 0
    ensures Roomy(v, meta, 1) && forall k: nat, b: nat :: PointerAt(v.inodes, k, b) == 0
  {
    assert forall k :: 0 <= k < |v.inodes| ==> IsDirectoryINode(v.inodes[k]);
    hide HasWidths, CountBits, TotalPointers, GetBit;
    assert forall k: nat, b: nat :: PointerAt(v.inodes, k, b) == 0;
  }

  /** What a format builds satisfies the invariant for the empty tree, whatever
      the device held before. */
  lemma FormattedOk(disk: seq<Block>, bpb: nat, inodeCount: nat, meta: nat)
    returns (v: Volume)
    requires IsDisk(disk, bpb) && INODE_BYTES <= bpb < 0x8000_0000
    requires 0 < |disk| < 0x8000_0000 && 1 < inodeCount < 0x8000_0000
    requires meta == MetadataBlocks(|disk|, bpb, inodeCount) < |disk|
    requires BlockMapFits(|disk|, bpb) && TableFillsBlocks(inodeCount, bpb)
    ensures v == FormattedVolume(disk, bpb, inodeCount)
    ensures VolumeOk(v, EMPTY_TREE, meta) && InSync(v, EMPTY_TREE, {}, {})
  {
    v := FormattedRoomy(disk, bpb, inodeCount, meta);
    FormattedIsPersistable(disk, bpb, inodeCount);
    assert Formatted(v, meta) by {
      hide HoldsMaster, EncodeMaster, AllocateMany, FreshINodes, FreshBits, AllocateINode;
    }
    hide *;
    EmptyTreeIsOk(v, meta);
  }

  /** A volume without blocks holds the empty tree. */
  lemma EmptyTreeIsOk(v: Volume, meta: nat)
    requires Roomy(v, meta, 1) && Formatted(v, meta) && INODE_BYTES <= v.bpb && INodesMatch(v.inodes, EMPTY_TREE)
    requires forall k: nat, b: nat :: PointerAt(v.inodes, k, b) == 0
    ensures VolumeOk(v, EMPTY_TREE, meta) && InSync(v, EMPTY_TREE, {}, {})
  {
    hide Roomy, Formatted, HasWidths, StoredBlock, Parse, PrintBlock, INodesMatch, Zeros;
    RoomyIsShaped(v, meta);
    BlockFree(v.inodes, 0);
    NewDirectoryFits(0, v.bpb);
    UnmappedIsEmpty(v, 0);
    assert ListingOf(EMPTY_TREE, 0) == [Entry(DOT_NAME, 0)];
  }

  lemma BlockFree(inodes: seq<INode>, k: nat)
    requires k < |inodes| && |inodes[k].ptrs| == POINTERS && forall b: nat :: PointerAt(inodes, k, b) == 0
    ensures forall b :: 0 <= b < POINTERS ==> inodes[k].ptrs[b] <= 0
  {
    assert forall b :: 0 <= b < POINTERS ==> inodes[k].ptrs[b] == PointerAt(inodes, k, b);
  }

  lemma RoomyIsShaped(v: Volume, meta: nat)
    requires Roomy(v, meta, 1)
    ensures WellShaped(v) && |v.disk| > 0 && |v.inodes| > 0 && |v.inodes[0].ptrs| == POINTERS
  {
  }

  /** newfs makes a device that mounts as an empty tree. */
  lemma NewFsOk(disk: seq<Block>, bpb: nat, inodeCount: nat, meta: nat)
    returns (formatted: seq<Block>)
    requires IsDisk(disk, bpb) && INODE_BYTES <= bpb < 0x8000_0000
    requires 0 < |disk| < 0x8000_0000 && 1 < inodeCount < 0x8000_0000
    requires meta == MetadataBlocks(|disk|, bpb, inodeCount) < |disk|
    requires BlockMapFits(|disk|, bpb) && TableFillsBlocks(inodeCount, bpb)
    ensures NewFs(disk, bpb, inodeCount) == Some(formatted)
    ensures IdleOk(formatted, EMPTY_TREE, meta, MasterOf(FormattedVolume(disk, bpb, inodeCount), 0))
  {
    var v := FormattedOk(disk, bpb, inodeCount, meta);
    PersistedIsOk(v, EMPTY_TREE, meta);
    formatted := Persist(v);
  }
}
