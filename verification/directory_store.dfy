/** Directories as files: what writing one directory does to the stored text of
    every directory, on a volume that has room for all of them. */
module DirectoryStore {
  import opened Bytes
  import opened INodes
  import opened Volumes
  import opened Ownership
  import opened Accounting
  import opened DirectoryText

  /** A directory is written as one block from offset 0. The range ends on a
      block boundary, so each write maps two blocks. */
  const BLOCKS_PER_DIRECTORY: nat := 2

  /** The block a directory is loaded from. */
  function StoredBlock(v: Volume, k: nat): Block
    requires WellShaped(v) && k < |v.inodes|
  {
    INodeRead(v, k, 0, v.bpb)
  }

  function StoreDirectory(v: Volume, k: nat, es: seq<Entry>): (v': Volume)
    requires WellShaped(v) && k < |v.inodes|
    ensures WellShaped(v') && |v'.inodes| == |v.inodes| && v'.bpb == v.bpb && |v'.bits| == |v.bits|
  {
    INodeWrite(v, k, 0, PrintBlock(es, v.bpb)).0
  }

  /** No inode holds more than the two blocks a directory needs, and none holds
      the second without the first. */
  ghost predicate OnlyDirectories(inodes: seq<INode>) {
    forall k :: 0 <= k < |inodes| ==> IsDirectoryINode(inodes[k])
  }

  predicate IsDirectoryINode(n: INode) {
    && n.level == 0 && HasWidths(n)
    && (forall b :: BLOCKS_PER_DIRECTORY <= b < POINTERS ==> n.ptrs[b] <= 0)
    && (n.ptrs[0] <= 0 ==> n.ptrs[1] <= 0)
  }

  /** Inodes from `dirs` on have no blocks. */
  ghost predicate UnusedFrom(inodes: seq<INode>, dirs: nat) {
    forall k: nat, b: nat :: k >= dirs ==> PointerAt(inodes, k, b) <= 0
  }

  /** Besides the metadata the device has two blocks for each directory but
      one, and one block for that one. */
  predicate RoomFor(count: int, meta: nat, dirs: nat) {
    meta + BLOCKS_PER_DIRECTORY * dirs - 1 <= count
  }

  /** The invariant of a volume that holds directories only, in its first
      `dirs` inodes, and has room for that many. */
  ghost predicate Roomy(v: Volume, meta: nat, dirs: nat) {
    var holds :=
      && Owned(v, meta) && Conserved(v, meta)
      && OnlyDirectories(v.inodes) && dirs <= |v.inodes| && UnusedFrom(v.inodes, dirs)
      && RoomFor(v.count, meta, dirs) && v.count <= 0x8000_0000 && v.bpb <= 0x8000_0000;
    holds
  }

  // ---------- there is always room ----------

  lemma {:induction false} PositiveCountOfPrefix(ptrs: seq<int>, m: nat)
    requires m <= |ptrs| && forall b :: m <= b < |ptrs| ==> ptrs[b] <= 0
    ensures PositiveCount(ptrs) <= m
  {
    if |ptrs| > 0 {
      PositiveCountOfPrefix(ptrs[..|ptrs| - 1], if m < |ptrs| then m else m - 1);
    }
  }

  lemma DirectoryPointers(n: INode)
    requires IsDirectoryINode(n)
    ensures PositiveCount(n.ptrs) <= if n.ptrs[0] <= 0 then 0 else BLOCKS_PER_DIRECTORY
  {
    PositiveCountOfPrefix(n.ptrs, if n.ptrs[0] <= 0 then 0 else BLOCKS_PER_DIRECTORY);
  }

  /** The directories in use hold at most two blocks each, and one that has not
      been stored holds none. */
  lemma {:induction false} PointersOfDirectories(inodes: seq<INode>, dirs: nat, k: nat)
    requires OnlyDirectories(inodes) && UnusedFrom(inodes, dirs)
    ensures var n := Min(|inodes|, dirs);
            var spare := if k < n && inodes[k].ptrs[0] <= 0 then 1 else 0;
            TotalPointers(inodes) <= BLOCKS_PER_DIRECTORY * (n - spare)
  {
    if inodes != [] {
      var m := |inodes| - 1;
      DirectoryPointers(inodes[m]);
      forall j: nat, b: nat
        ensures PointerAt(inodes[..m], j, b) == if j < m then PointerAt(inodes, j, b) else 0
      {
      }
      assert PointerAt(inodes, m, 0) == inodes[m].ptrs[0];
      PointersOfDirectories(inodes[..m], dirs, k);
    }
  }

  // ---------- the pointers a write sets ----------

  /** The pointers after a write: each is what it was, or one below the span of
      the write that now names a block or records a failed allocation. */
  ghost predicate PointersAfter(before: seq<int>, after: seq<int>, blocks: nat, count: nat) {
    && |before| == |after|
    && forall b :: 0 <= b < |before| ==> after[b] == before[b] || (b < blocks && -1 <= after[b] < count)
  }

  lemma {:induction false} WriteFromPointers(v: Volume, k: nat, i: nat, blocks: nat, off: nat, done: nat,
                                             data: seq<byte>)
    requires WellShaped(v) && k < |v.inodes| && i <= blocks && off < v.bpb && done <= |data|
    ensures var w := WriteFrom(v, k, i, blocks, off, done, data);
            PointersAfter(v.inodes[k].ptrs, w.vol.inodes[k].ptrs, blocks, v.count)
    decreases blocks - i
  {
    if i < blocks {
      WriteFromUnfolds(v, k, i, blocks, off, done, data);
      var (v', done') := ChunkStep(v, k, i, off, done, data);
      assert PointersAfter(v.inodes[k].ptrs, v'.inodes[k].ptrs, blocks, v.count) && v'.count == v.count;
      if 0 <= LookupOrAllocate(v, k, i).1 < |v.disk| {
        WriteFromPointers(v', k, i + 1, blocks, 0, done', data);
      }
    }
  }

  // ---------- one directory write ----------

  lemma DirectorySpan(bpb: nat)
    requires bpb > 0
    ensures BlockSpan(0, bpb, bpb) == BLOCKS_PER_DIRECTORY && OffsetIn(0, bpb) == 0
  {
    PositionInBlock(bpb, 1, bpb);
    assert BlockStart(1, bpb) == bpb;
  }

  /** Storing a directory writes its whole text: its first block is mapped, or
      there is a free one. The second block may be missing. */
  lemma StoreWrites(v: Volume, k: nat, data: seq<byte>, meta: nat, dirs: nat)
    requires Roomy(v, meta, dirs) && k < dirs && |data| == v.bpb
    ensures WriteLoop(v, k, 0, data).done == v.bpb
  {
    DirectorySpan(v.bpb);
    PointersOfDirectories(v.inodes, dirs, k);
    LookupConserves(v, k, 0, meta);
    LookupKeepsOwned(v, k, 0, meta);
    WriteFromUnfolds(v, k, 0, BLOCKS_PER_DIRECTORY, 0, 0, data);
    var (v', done) := ChunkStep(v, k, 0, 0, 0, data);
    WriteFromUnfolds(v', k, 1, BLOCKS_PER_DIRECTORY, 0, done, data);
  }

  lemma StoreKeepsDirectories(v: Volume, k: nat, data: seq<byte>, meta: nat, dirs: nat)
    requires Roomy(v, meta, dirs) && k < dirs && |data| == v.bpb
    requires OnlyFile(v, INodeWrite(v, k, 0, data).0, k, meta) && Owned(INodeWrite(v, k, 0, data).0, meta)
    requires FileByteAfter(v, INodeWrite(v, k, 0, data).0, k, 0, data, 0)
    ensures OnlyDirectories(INodeWrite(v, k, 0, data).0.inodes)
  {
    DirectorySpan(v.bpb);
    var w := WriteLoop(v, k, 0, data);
    WriteFromPointers(v, k, 0, BLOCKS_PER_DIRECTORY, 0, 0, data);
    WriteFromKeepsLength(v, k, 0, BLOCKS_PER_DIRECTORY, 0, 0, data);
    StoreWrites(v, k, data, meta, dirs);
  }

  lemma RoomyAfter(v: Volume, v': Volume, k: nat, meta: nat, dirs: nat)
    requires Roomy(v, meta, dirs) && Owned(v', meta) && OnlyFile(v, v', k, meta) && k < dirs
    requires Conserved(v', meta) && OnlyDirectories(v'.inodes)
    ensures Roomy(v', meta, dirs)
  {
    assert forall j: nat, b: nat :: j >= dirs ==> PointerAt(v'.inodes, j, b) == PointerAt(v.inodes, j, b);
  }

  lemma OthersKeepBlock(v: Volume, k: nat, data: seq<byte>, meta: nat)
    requires Owned(v, meta) && k < |v.inodes| && |data| == v.bpb
    ensures forall j :: 0 <= j < |v.inodes| && j != k ==>
      StoredBlock(INodeWrite(v, k, 0, data).0, j) == StoredBlock(v, j)
  {
    forall j | 0 <= j < |v.inodes| && j != k
      ensures StoredBlock(INodeWrite(v, k, 0, data).0, j) == StoredBlock(v, j)
    {
      ReadOfOtherFile(v, k, 0, data, j, 0, v.bpb, meta);
    }
  }

  /** Writing a directory stores its text, leaves the text of every other
      directory alone, and keeps the volume's invariant, so that no later
      directory write can run out of blocks. */
  lemma StoreEffect(v: Volume, k: nat, es: seq<Entry>, meta: nat, dirs: nat)
    returns (v': Volume)
    requires Roomy(v, meta, dirs) && k < dirs
    ensures v' == StoreDirectory(v, k, es)
    ensures Roomy(v', meta, dirs) && OnlyFile(v, v', k, meta)
    ensures StoredBlock(v', k) == PrintBlock(es, v.bpb)
    ensures forall j :: 0 <= j < |v.inodes| && j != k ==> StoredBlock(v', j) == StoredBlock(v, j)
  {
    var data := PrintBlock(es, v.bpb);
    var n;
    StoreWrites(v, k, data, meta, dirs);
    DirectorySpan(v.bpb);
    v', n := WriteEffect(v, k, 0, data, meta);
    assert data[..n] == data;
    var w := WriteAccounts(v, k, 0, data, meta);
    StoreKeepsDirectories(v, k, data, meta, dirs);
    RoomyAfter(v, v', k, meta, dirs);
    StoredBlockIs(v, v', k, data, meta);
    OthersKeepBlock(v, k, data, meta);
  }

  lemma StoredBlockIs(v: Volume, v': Volume, k: nat, data: seq<byte>, meta: nat)
    requires WellShaped(v) && Owned(v', meta) && k < |v.inodes| && k < |v'.inodes| && v'.bpb == v.bpb == |data|
    requires FileAfter(v, v', k, 0, data)
    ensures StoredBlock(v', k) == data
  {
    OwnedInRange(v', k, meta);
    ReadIsView(v', k, 0, v.bpb);
    DirectorySpan(v.bpb);
    forall j | 0 <= j < v.bpb
      ensures FileRange(v', k, 0, v.bpb)[j] == data[j]
    {
      assert FileByteAfter(v, v', k, 0, data, j);
    }
  }

  /** An inode without blocks stores an empty directory. */
  lemma UnmappedIsEmpty(v: Volume, k: nat)
    requires WellShaped(v) && k < |v.inodes| && |v.disk| > 0
    requires forall b :: 0 <= b < POINTERS ==> v.inodes[k].ptrs[b] <= 0
    ensures StoredBlock(v, k) == Zeros(v.bpb) && Parse(StoredBlock(v, k)) == []
  {
    ReadIsView(v, k, 0, v.bpb);
    DirectorySpan(v.bpb);
    forall j | 0 <= j < v.bpb
      ensures FileRange(v, k, 0, v.bpb)[j] == 0
    {
    }
    assert StoredBlock(v, k) == Zeros(v.bpb);
    ParseOfZeros(v.bpb);
  }
}
