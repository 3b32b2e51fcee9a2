/** Runs of the inode layer: a volume of inodes behaves like a row of byte
    streams that are zero wherever nothing was written. */
module VolumeRuns {
  import opened Bytes
  import opened BlockDevices
  import opened BitSets
  import opened INodes
  import opened Volumes
  import opened Ownership
  import opened Accounting
  import opened DirectoryStore
  import opened Metadata
  import opened Shells
  import opened SessionMounts

  datatype Op =
    | Write(k: nat, start: nat, data: seq<byte>)
    | TakeINode
    | DropINode(k: nat)
    | Remount

  /** Inode k of the volume as a stream of bytes. */
  type Files = seq<nat -> byte>

  // ---------- one operation ----------

  /** What the C code asserts or relies on: an inode of the table, sums that fit
      an int, and only used inodes freed. */
  predicate Allowed(v: Volume, op: Op) {
    match op
    case Write(k, start, data) => k < |v.inodes| && start + |data| < 0x8000_0000
    case TakeINode => true
    case DropINode(k) => k < |v.inodes| && v.inodes[k].status != FREE_STATUS && v.inodes[k].linkCount == 0
    case Remount => true
  }

  /** The volume after the operation, and the bytes a write reports. */
  function Apply(v: Volume, op: Op): (Volume, nat)
    requires WellShaped(v) && Allowed(v, op)
  {
    match op
    case Write(k, start, data) => INodeWrite(v, k, start, data)
    case TakeINode => (v.(inodes := AllocateINode(v.inodes).0), 0)
    case DropINode(k) => (v.(inodes := FreeINode(v.inodes, k)), 0)
    case Remount =>
      if !Persistable(v) then (v, 0) else
      match Mount(Persist(v))
      case None => (v, 0)
      case Some((v', _)) => (v', 0)
  }

  /** The same on streams: the reported bytes land at the offset that `start`
      has in its block. */
  function ApplyToFiles(files: Files, bpb: nat, op: Op, reported: nat): Files
    requires bpb > 0
  {
    if op.Write? && op.k < |files| && reported <= |op.data| then
      var base := OffsetIn(op.start, bpb);
      var before := files[op.k];
      files[op.k := (p: nat) => if base <= p < base + reported then op.data[p - base] else before(p)]
    else files
  }

  // ---------- the invariant ----------

  ghost predicate VolumeGood(v: Volume, meta: nat) {
    var sized := WellShaped(v) && |v.disk| == v.count < 0x8000_0000 && MASTER_BYTES <= v.bpb < 0x8000_0000
      && 0 < |v.inodes| < 0x8000_0000 && v.count > 0;
    var table := TableHasWidths(v.inodes);
    var layout := sized && meta == MetadataBlocks(v.count, v.bpb, |v.inodes|) <= v.count
      && BlockMapFits(v.count, v.bpb) && BlockStart(BlockMapBlocks(v.count, v.bpb), v.bpb) <= HEADER_BYTES + |v.bits|;
    var master := layout && HoldsMaster(v.disk[0], MasterOf(v, 0));
    var blocks := Owned(v, meta) && Conserved(v, meta) && FreeIsZero(v);
    var holds := sized && table && layout && master && blocks;
    holds
  }

  /** Every byte of every inode is the byte of its stream. */
  ghost predicate Agrees(v: Volume, files: Files)
    requires WellShaped(v)
  {
    |files| == |v.inodes| && forall k: nat, p: nat :: k < |files| ==> FileByte(v, k, p) == files[k](p)
  }

  lemma GoodIsPersistable(v: Volume, meta: nat)
    requires VolumeGood(v, meta)
    ensures WellShaped(v) && v.bpb > 0
    ensures Persistable(v) && BlockMapFits(v.count, v.bpb) && BlockMapBlocks(v.count, v.bpb) > 0
    ensures meta == MetadataBlocks(v.count, v.bpb, |v.inodes|)
    ensures HoldsMaster(v.disk[0], MasterOf(v, 0))
  {
  }

  // ---------- each operation ----------

  lemma WidthsKept(n: INode, n': INode, blocks: nat, count: nat)
    requires HasWidths(n) && PointersAfter(n.ptrs, n'.ptrs, blocks, count) && count < 0x8000_0000
    requires n'.inodeNum == n.inodeNum && n'.numBytes < 0x1_0000_0000 * 0x1_0000_0000
    ensures HasWidths(n')
  {
  }

  lemma WritePointers(v: Volume, k: nat, start: nat, data: seq<byte>)
    requires WellShaped(v) && k < |v.inodes|
    ensures PointersAfter(v.inodes[k].ptrs, INodeWrite(v, k, start, data).0.inodes[k].ptrs,
                          BlockSpan(start, |data|, v.bpb), v.count)
  {
    hide WriteFrom, BlockSpan, OffsetIn, PointersAfter;
    WriteFromPointers(v, k, 0, BlockSpan(start, |data|, v.bpb), OffsetIn(start, v.bpb), 0, data);
  }

  lemma WriteGood(v: Volume, k: nat, start: nat, data: seq<byte>, meta: nat)
    returns (v': Volume, n: nat)
    requires VolumeGood(v, meta) && k < |v.inodes| && start + |data| < 0x8000_0000
    ensures (v', n) == INodeWrite(v, k, start, data) && n <= |data| && WellShaped(v') && |v'.inodes| == |v.inodes|
    ensures VolumeGood(v', meta) && v'.bpb == v.bpb
    ensures forall j: nat, b: nat :: j < |v.inodes| && j != k ==> FileBlock(v', j, b) == FileBlock(v, j, b)
    ensures FileAfter(v, v', k, OffsetIn(start, v.bpb), data[..n])
  {
    ConservedByWrite(v, k, start, data, meta);
    WritePointers(v, k, start, data);
    WriteLength(v, k, start, data, meta);
    v', n := WriteEffect(v, k, start, data, meta);
    WidthsKept(v.inodes[k], v'.inodes[k], BlockSpan(start, |data|, v.bpb), v.count);
    hide INodeWrite, FileAfter, FileBlock, Conserved, PointersAfter, BlockSpan, HasWidths, HoldsMaster, FreeIsZero;
  }

  lemma {:induction false} WriteFromConserves(v: Volume, k: nat, i: nat, blocks: nat, off: nat, done: nat,
                                              data: seq<byte>, meta: nat)
    requires Owned(v, meta) && Conserved(v, meta) && k < |v.inodes| && i <= blocks && off < v.bpb && done <= |data|
    ensures Conserved(WriteFrom(v, k, i, blocks, off, done, data).vol, meta)
    decreases blocks - i
  {
    if i < blocks {
      WriteFromUnfolds(v, k, i, blocks, off, done, data);
      LookupConserves(v, k, i, meta);
      LookupKeepsOwned(v, k, i, meta);
      var (v', done') := ChunkStep(v, k, i, off, done, data);
      if 0 <= LookupOrAllocate(v, k, i).1 < |v.disk| {
        assert Owned(v', meta);
        WriteFromConserves(v', k, i + 1, blocks, 0, done', data, meta);
      }
    }
  }

  lemma ConservedByWrite(v: Volume, k: nat, start: nat, data: seq<byte>, meta: nat)
    requires Owned(v, meta) && Conserved(v, meta) && k < |v.inodes|
    ensures Conserved(INodeWrite(v, k, start, data).0, meta)
  {
    WriteFromConserves(v, k, 0, BlockSpan(start, |data|, v.bpb), OffsetIn(start, v.bpb), 0, data, meta);
    RecordedAccounts(WriteLoop(v, k, start, data), k, start, meta);
  }

  /** Changing the status or the owner of an inode touches no byte. */
  lemma RelabelGood(v: Volume, k: nat, n: INode, meta: nat)
    returns (v': Volume)
    requires VolumeGood(v, meta) && k < |v.inodes|
    requires n.ptrs == v.inodes[k].ptrs && n.level == v.inodes[k].level && HasWidths(n)
    ensures v' == v.(inodes := v.inodes[k := n]) && VolumeGood(v', meta)
    ensures forall j: nat, b: nat :: j < |v.inodes| ==> FileBlock(v', j, b) == FileBlock(v, j, b)
  {
    v' := v.(inodes := v.inodes[k := n]);
    assert forall j: nat, b: nat :: PointerAt(v'.inodes, j, b) == PointerAt(v.inodes, j, b);
    TotalPointersUpdate(v.inodes, k, n);
  }

  /** Unmount, then mount, in one step. */
  lemma RemountApplies(v: Volume, meta: nat)
    requires VolumeGood(v, meta)
    ensures Persistable(v) && BlockMapFits(v.count, v.bpb) && Apply(v, Remount).0 == Remounted(v)
    ensures Persist(v)[0] == v.disk[0]
  {
    hide *;
    GoodIsPersistable(v, meta);
    MountOfPersist(v, 0);
    RemountIs(v, MasterOf(v, 0));
  }

  lemma RemountIs(v: Volume, mb: MasterBlock)
    requires WellShaped(v) && Persistable(v) && BlockMapFits(v.count, v.bpb)
    requires Mount(Persist(v)) == Some((Remounted(v), mb))
    ensures Apply(v, Remount).0 == Remounted(v)
  {
    hide Mount, Persist, StoredBits, Persistable;
  }

  lemma RemountGood(v: Volume, meta: nat)
    returns (v': Volume)
    requires VolumeGood(v, meta)
    ensures v' == Apply(v, Remount).0
    ensures VolumeGood(v', meta) && |v'.inodes| == |v.inodes| && v'.bpb == v.bpb
    ensures forall j: nat, b: nat :: j < |v.inodes| ==> FileBlock(v', j, b) == FileBlock(v, j, b)
  {
    RemountApplies(v, meta);
    hide Apply, Persist, StoredBits, HoldsMaster, FileBlock, HasWidths, Conserved, FreeIsZero;
    v' := RemountedOwned(v, meta);
  }

  lemma SameBlocksAgree(v: Volume, v': Volume, files: Files)
    requires WellShaped(v) && WellShaped(v') && v'.bpb == v.bpb && |v'.inodes| == |v.inodes|
    requires Agrees(v, files)
    requires forall j: nat, b: nat :: j < |v.inodes| ==> FileBlock(v', j, b) == FileBlock(v, j, b)
    ensures Agrees(v', files)
  {
    forall k: nat, p: nat | k < |files|
      ensures FileByte(v', k, p) == files[k](p)
    {
      assert FileByte(v, k, p) == files[k](p);
    }
  }

  lemma WrittenAgrees(v: Volume, v': Volume, files: Files, op: Op, n: nat)
    requires WellShaped(v) && WellShaped(v') && v'.bpb == v.bpb && |v'.inodes| == |v.inodes|
    requires Agrees(v, files) && FreeIsZero(v)
    requires op.Write? && op.k < |files| && n <= |op.data|
    requires forall j: nat, b: nat :: j < |v.inodes| && j != op.k ==> FileBlock(v', j, b) == FileBlock(v, j, b)
    requires FileAfter(v, v', op.k, OffsetIn(op.start, v.bpb), op.data[..n])
    ensures Agrees(v', ApplyToFiles(files, v.bpb, op, n))
  {
    forall j: nat, p: nat | j < |files|
      ensures FileByte(v', j, p) == ApplyToFiles(files, v.bpb, op, n)[j](p)
    {
      assert FileByte(v, j, p) == files[j](p);
      if j == op.k {
        assert FileByteAfter(v, v', op.k, OffsetIn(op.start, v.bpb), op.data[..n], p);
      }
    }
  }

  /** One operation keeps ownership, conservation and the zeros of free blocks,
      and changes exactly the bytes that its stream changes. */
  lemma ApplyAgrees(v: Volume, files: Files, op: Op, meta: nat)
    requires VolumeGood(v, meta) && Agrees(v, files) && Allowed(v, op)
    ensures var (v', n) := Apply(v, op);
            && VolumeGood(v', meta) && v'.bpb == v.bpb && |v'.inodes| == |v.inodes|
            && Agrees(v', ApplyToFiles(files, v.bpb, op, n))
  {
    match op
    case Write(k, start, data) =>
      var v', n := WriteGood(v, k, start, data, meta);
      WrittenAgrees(v, v', files, op, n);
    case TakeINode =>
      var k := AllocateINode(v.inodes).1;
      if AllocateINode(v.inodes).0 != v.inodes {
        var v' := RelabelGood(v, k, AllocateINode(v.inodes).0[k], meta);
        SameBlocksAgree(v, v', files);
      }
    case DropINode(k) =>
      var v' := RelabelGood(v, k, FreeINode(v.inodes, k)[k], meta);
      SameBlocksAgree(v, v', files);
    case Remount =>
      var v' := RemountGood(v, meta);
      SameBlocksAgree(v, v', files);
  }

  // ---------- whole runs ----------

  /** The volume and the streams after a run. */
  ghost function RunOps(v: Volume, files: Files, ops: seq<Op>): (Volume, Files)
    requires WellShaped(v) && AllAllowed(v, ops)
    decreases |ops|
  {
    if ops == [] then (v, files)
    else
      var (v', n) := Apply(v, ops[0]);
      RunOps(v', ApplyToFiles(files, v.bpb, ops[0], n), ops[1..])
  }

  ghost predicate AllAllowed(v: Volume, ops: seq<Op>)
    requires WellShaped(v)
    decreases |ops|
  {
    ops == [] ||
      (Allowed(v, ops[0])
       && var v' := Apply(v, ops[0]).0;
       WellShaped(v') && AllAllowed(v', ops[1..]))
  }

  /** Over every run of writes at any offsets, inode allocations and releases,
      and remounts: blocks stay owned and counted, free blocks stay zero, and
      the inodes hold exactly the streams, unwritten bytes reading as zero. */
  lemma {:induction false} RunAgrees(v: Volume, files: Files, ops: seq<Op>, meta: nat)
    requires VolumeGood(v, meta) && Agrees(v, files) && AllAllowed(v, ops)
    ensures var (v', files') := RunOps(v, files, ops);
            WellShaped(v') && VolumeGood(v', meta) && v'.bpb == v.bpb && |v'.inodes| == |v.inodes| && Agrees(v', files')
    decreases |ops|
  {
    if ops != [] {
      hide VolumeGood, Agrees, ApplyToFiles, Apply, Allowed;
      ApplyAgrees(v, files, ops[0], meta);
      var (v', n) := Apply(v, ops[0]);
      RunAgrees(v', ApplyToFiles(files, v.bpb, ops[0], n), ops[1..], meta);
    }
  }

  /** A read of inode k returns the bytes of its stream. */
  ghost predicate ReadIsStream(v: Volume, files: Files, k: nat, start: nat, n: nat)
    requires WellShaped(v)
  {
    && k < |v.inodes| == |files|
    && |INodeRead(v, k, start, n)| == n
    && forall j :: 0 <= j < n ==> INodeRead(v, k, start, n)[j] == files[k](OffsetIn(start, v.bpb) + j)
  }

  lemma ReadAgrees(v: Volume, files: Files, k: nat, start: nat, n: nat, meta: nat)
    requires VolumeGood(v, meta) && Agrees(v, files) && k < |v.inodes|
    ensures ReadIsStream(v, files, k, start, n)
  {
    OwnedInRange(v, k, meta);
    ReadIsView(v, k, start, n);
  }

  // ---------- from a blank device ----------

  function BlankDisk(count: nat, bpb: nat): (disk: seq<Block>)
    ensures |disk| == count && (bpb > 0 ==> IsDisk(disk, bpb))
  {
    seq(count, _ => Zeros(bpb))
  }

  function EmptyFiles(n: nat): Files {
    seq(n, _ => (p: nat) => 0)
  }

  /** A format of a blank device gives streams of zeros. */
  lemma FormatAgrees(count: nat, bpb: nat, inodeCount: nat, meta: nat)
    returns (v: Volume)
    requires INODE_BYTES <= bpb < 0x8000_0000 && 0 < count < 0x8000_0000 && 1 < inodeCount < 0x8000_0000
    requires meta == MetadataBlocks(count, bpb, inodeCount) < count && BlockMapFits(count, bpb)
    ensures v == FormattedVolume(BlankDisk(count, bpb), bpb, inodeCount)
    ensures WellShaped(v) && |v.inodes| == inodeCount && VolumeGood(v, meta) && Agrees(v, EmptyFiles(inodeCount))
  {
    var disk := BlankDisk(count, bpb);
    v := FormattedRoomy(disk, bpb, inodeCount, meta);
    FormattedIsPersistable(disk, bpb, inodeCount);
    hide FormattedVolume, EncodeMaster, HoldsMaster, Owned, Conserved, HasWidths;
    forall a | 1 <= a < count
      ensures v.disk[a] == Zeros(bpb)
    {
      assert v.disk[a] == v.disk[1..][a - 1] == disk[1..][a - 1];
    }
    NoBlocksAgree(v);
  }

  lemma NoBlocksAgree(v: Volume)
    requires WellShaped(v)
    requires forall k: nat, b: nat :: PointerAt(v.inodes, k, b) <= 0
    ensures Agrees(v, EmptyFiles(|v.inodes|))
  {
    forall k: nat, p: nat | k < |v.inodes|
      ensures FileByte(v, k, p) == 0
    {
      var b := BlockOf(p, v.bpb);
      if b < POINTERS { assert PointerAt(v.inodes, k, b) == v.inodes[k].ptrs[b]; }
    }
  }

  /** From a format of a blank device on, over every run, each read returns what
      the writes before it left in the stream, and zero where none did. */
  lemma RunFromFormat(count: nat, bpb: nat, inodeCount: nat, ops: seq<Op>, k: nat, start: nat, n: nat)
    returns (formatted: Volume)
    requires INODE_BYTES <= bpb < 0x8000_0000 && 0 < count < 0x8000_0000 && 1 < inodeCount < 0x8000_0000
    requires MetadataBlocks(count, bpb, inodeCount) < count && BlockMapFits(count, bpb) && k < inodeCount
    ensures formatted == FormattedVolume(BlankDisk(count, bpb), bpb, inodeCount) && WellShaped(formatted)
    ensures AllAllowed(formatted, ops) ==>
      var (v, files) := RunOps(formatted, EmptyFiles(inodeCount), ops);
      WellShaped(v) && ReadIsStream(v, files, k, start, n)
  {
    var meta := MetadataBlocks(count, bpb, inodeCount);
    hide *;
    formatted := FormatAgrees(count, bpb, inodeCount, meta);
    if AllAllowed(formatted, ops) {
      RunAgrees(formatted, EmptyFiles(inodeCount), ops, meta);
      var (v, files) := RunOps(formatted, EmptyFiles(inodeCount), ops);
      ReadAgrees(v, files, k, start, n, meta);
    }
  }
}
