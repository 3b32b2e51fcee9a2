/** The mounted file system as the program holds it: a device, a bit set and an
    inode table, updated in place. Each method is proved against the function
    on volumes that says what it does. */
module FileSystems {
  import opened Bytes
  import opened BlockDevices
  import opened BitSets
  import opened INodes
  import opened Volumes

  class FileSystem {
    const device: BlockDevice
    const blockMap: BitSet
    const inodeMap: array<INode>

    constructor (device: BlockDevice, blockMap: BitSet, inodeMap: array<INode>)
      ensures this.device == device && this.blockMap == blockMap && this.inodeMap == inodeMap
    {
      this.device := device;
      this.blockMap := blockMap;
      this.inodeMap := inodeMap;
    }

    ghost function View(): Volume
      reads device, blockMap.bytes, inodeMap
    {
      Volume(device.bytesPerBlock, device.blocks, blockMap.bytes[..], blockMap.count, inodeMap[..])
    }

    ghost predicate Valid()
      reads device, blockMap.bytes, inodeMap
    {
      blockMap.bytes as object != inodeMap && WellShaped(View())
    }

    /** The address of block b of inode k. */
    method GetDiskAddressOfBlock(k: nat, b: nat, allocIfAbsent: bool) returns (a: int)
      requires Valid() && k < inodeMap.Length
      modifies if allocIfAbsent then {blockMap.bytes as object, inodeMap} else {}
      ensures Valid()
      ensures allocIfAbsent ==> (View(), a) == LookupOrAllocate(old(View()), k, b)
      ensures !allocIfAbsent ==> View() == old(View()) && a == Lookup(View().inodes[k], b)
    {
      ghost var before := View();
      if inodeMap[k].level != 0 {
        return -1;
      }
      if b >= POINTERS {
        return -1;
      }
      if inodeMap[k].ptrs[b] > 0 {
        return inodeMap[k].ptrs[b];
      }
      if !allocIfAbsent {
        return -1;
      }
      a := blockMap.AllocateBlock();
      inodeMap[k] := inodeMap[k].(ptrs := inodeMap[k].ptrs[b := a]);
      assert inodeMap[..] == before.inodes[k := before.inodes[k].(ptrs := before.inodes[k].ptrs[b := a])];
    }

    /** Takes the first free inode and returns its number, or 0 if there is none. */
    method AllocateINode() returns (k: nat)
      requires Valid()
      modifies inodeMap
      ensures Valid() && (inodeMap[..], k) == INodes.AllocateINode(old(inodeMap[..]))
    {
      ghost var before := inodeMap[..];
      for i := 0 to inodeMap.Length
        invariant inodeMap[..] == before
        invariant FindFree(before, 0) == FindFree(before, i)
        invariant forall j :: 0 <= j < i ==> before[j].status != FREE_STATUS
      {
        if inodeMap[i].status == FREE_STATUS {
          inodeMap[i] := inodeMap[i].(status := ALLOCATED_STATUS, ownerUid := ALLOCATED_UID);
          assert inodeMap[..] == before[i := before[i].(status := ALLOCATED_STATUS, ownerUid := ALLOCATED_UID)];
          return i;
        }
      }
      return 0;
    }

    /** Releases an inode that is in use; its pointers stay. */
    method FreeINode(k: nat)
      requires Valid() && k < inodeMap.Length
      requires inodeMap[k].status != FREE_STATUS && inodeMap[k].linkCount == 0
      modifies inodeMap
      ensures Valid() && inodeMap[..] == INodes.FreeINode(old(inodeMap[..]), k)
      ensures inodeMap[k].status == 2 && inodeMap[k].ownerUid == 0xfeed_feed
      ensures inodeMap[k].ptrs == old(inodeMap[k].ptrs)
    {
      inodeMap[k] := inodeMap[k].(ownerUid := FREED_UID, status := FREE_STATUS);
    }

    /** Fills a block buffer with block b of inode k: zeros where the inode has
        no block, the contents of the device otherwise. */
    method FetchBlock(k: nat, b: nat, tbuf: array<byte>) returns (zok: int)
      requires Valid() && k < inodeMap.Length
      requires tbuf.Length == device.bytesPerBlock && tbuf != blockMap.bytes && tbuf as object != inodeMap
      modifies tbuf
      ensures zok == 0 <==> Lookup(View().inodes[k], b) < |View().disk|
      ensures zok == 0 ==> tbuf[..] == Fetched(View(), k, b)
    {
      var diskAddr := GetDiskAddressOfBlock(k, b, false);
      if diskAddr < 0 {
        for i := 0 to tbuf.Length
          invariant tbuf[..i] == Zeros(i)
        {
          tbuf[i] := 0;
        }
        return 0;
      }
      zok := device.ReadBlock(diskAddr, tbuf, 0);
    }

    /** The offset of a range in its first block and the number of blocks its
        loop visits. */
    method Span(start: nat, numBytes: nat) returns (blockOffset: nat, numBlocks: nat)
      requires Valid()
      ensures blockOffset == OffsetIn(start, device.bytesPerBlock)
      ensures numBlocks == BlockSpan(start, numBytes, device.bytesPerBlock)
    {
      var bytesPerB := device.bytesPerBlock;
      var firstBlock := BlockOf(start, bytesPerB);
      var lastBlock := BlockOf(start + numBytes, bytesPerB);
      BlockStartsApart(lastBlock, firstBlock, bytesPerB);
      numBlocks := lastBlock - firstBlock + 1;
      blockOffset := start - BlockStart(firstBlock, bytesPerB);
    }

    /** Reads numBytes from inode k into the caller's buffer and returns how many. */
    method INodeRead(k: nat, start: nat, numBytes: nat, buffer: array<byte>) returns (n: nat)
      requires Valid() && k < inodeMap.Length && numBytes <= buffer.Length
      requires buffer != blockMap.bytes && buffer as object != inodeMap
      modifies buffer
      ensures n == |Volumes.INodeRead(View(), k, start, numBytes)| <= numBytes
      ensures buffer[..] == Volumes.INodeRead(View(), k, start, numBytes) + old(buffer[n..])
    {
      ghost var job := ReadingStarts(View(), k, start, numBytes, buffer[..]);
      hide Reading, Volumes.INodeRead, WellShaped, Lookup, BlockSpan, OffsetIn, Fetched;
      var bytesPerB := device.bytesPerBlock;
      var blockOffset, numBlocks := Span(start, numBytes);
      n := 0;
      var tbuf := new byte[bytesPerB](_ => 0);
      for i := 0 to numBlocks
        invariant View() == job.v && Reading(job, i, blockOffset, n, buffer[..])
      {
        ReadingBounds(job, i, blockOffset, n, buffer[..]);
        var byteCount: nat := Min(bytesPerB - blockOffset, numBytes - n);
        var zok := FetchBlock(k, i, tbuf);
        if zok != 0 {
          ReadingEnds(job, i, blockOffset, n, buffer[..]);
          return;
        }
        ghost var was := buffer[..];
        CopyBytes(tbuf, blockOffset, buffer, n, byteCount);
        ReadingGoesOn(job, i, blockOffset, n, was, buffer[..], byteCount);
        n := n + byteCount;
        blockOffset := 0;
      }
      ReadingEnds(job, numBlocks, blockOffset, n, buffer[..]);
    }

    /** Reads a block of the device into a buffer of its own. */
    method ReadWhole(diskAddr: int) returns (tbuf: array<byte>, zok: int)
      requires Valid()
      ensures fresh(tbuf) && tbuf.Length == device.bytesPerBlock
      ensures zok == if 0 <= diskAddr < |device.blocks| then 0 else -1
      ensures zok == 0 ==> tbuf[..] == device.blocks[diskAddr]
    {
      tbuf := new byte[device.bytesPerBlock](_ => 0);
      EmptyEnds(tbuf[..0], if 0 <= diskAddr < |device.blocks| then device.blocks[diskAddr] else [],
                tbuf[tbuf.Length..]);
      zok := device.ReadBlock(diskAddr, tbuf, 0);
    }

    /** Reads a block of the device, replaces `count` of its bytes, and writes it back. */
    method OverwriteBlock(diskAddr: int, blockOffset: nat, buffer: array<byte>, from: nat,
                          count: nat) returns (zok: int)
      requires Valid() && blockOffset + count <= device.bytesPerBlock && from + count <= buffer.Length
      modifies device`blocks
      ensures Valid() && zok == if 0 <= diskAddr < |old(device.blocks)| then 0 else -1
      ensures device.blocks == if zok != 0 then old(device.blocks)
        else
          old(device.blocks)[diskAddr :=
            Splice(old(device.blocks[diskAddr]), blockOffset, old(buffer[from..from + count]))]
    {
      ghost var before, data := device.blocks, buffer[from..from + count];
      var tbuf;
      tbuf, zok := ReadWhole(diskAddr);
      if zok != 0 {
        return;
      }
      hide Splice, StoreBlock, IsDisk;
      PartsOf(tbuf, blockOffset, blockOffset + count);
      CopyBytes(buffer, from, tbuf, blockOffset, count);
      assert buffer[from..from + count] == data;
      SpliceIs(before[diskAddr], blockOffset, data);
      PartsOf(tbuf, 0, 0);
      ghost var block := tbuf[..];
      zok := device.WriteBlock(diskAddr, tbuf, 0);
      assert device.blocks == before[diskAddr := block];
    }

    /** Reads block b of inode k, mapping it first if need be, replaces `count`
        of its bytes, and writes it back. */
    method PatchBlock(k: nat, b: nat, blockOffset: nat, buffer: array<byte>, from: nat, count: nat) returns (zok: int)
      requires Valid() && k < inodeMap.Length
      requires blockOffset + count <= device.bytesPerBlock && from + count <= buffer.Length
      requires buffer != blockMap.bytes && buffer as object != inodeMap
      modifies device`blocks, blockMap.bytes, inodeMap
      ensures Valid()
      ensures zok == 0 <==> 0 <= LookupOrAllocate(old(View()), k, b).1 < |old(View()).disk|
      ensures View() == Patched(old(View()), k, b, blockOffset, old(buffer[from..from + count]))
    {
      hide WellShaped, Splice;
      var diskAddr := GetDiskAddressOfBlock(k, b, true);
      if diskAddr < 0 {
        return -1;
      }
      zok := OverwriteBlock(diskAddr, blockOffset, buffer, from, count);
    }

    /** One iteration of a write: the part of block i that the write covers. */
    method WriteChunk(k: nat, i: nat, blockOffset: nat, numBytes: nat, buffer: array<byte>, n: nat, ghost job: WriteJob)
      returns (zok: int, byteCount: nat)
      requires Valid() && numBytes <= buffer.Length && buffer != blockMap.bytes && buffer as object != inodeMap
      requires buffer[..numBytes] == job.data && Writing(job, View(), i, blockOffset, n) && i < job.blocks && job.k == k
      modifies device`blocks, blockMap.bytes, inodeMap
      ensures Valid() && (zok == 0 ==> Writing(job, View(), i + 1, 0, n + byteCount))
      ensures zok != 0 ==> job.goal == Written(View(), n, false) && WellShaped(View())
    {
      hide Writing, WriteLoop, LookupOrAllocate, Patched;
      WritingBounds(job, View(), i, blockOffset, n);
      byteCount := Min(device.bytesPerBlock - blockOffset, numBytes - n);
      ghost var before := View();
      SliceOfPrefix(buffer[..], numBytes, n, n + byteCount);
      WritingGoesOn(job, before, i, blockOffset, n);
      zok := PatchBlock(k, i, blockOffset, buffer, n, byteCount);
    }

    /** Writes numBytes of the buffer to inode k and returns how many were written. */
    method INodeWrite(k: nat, start: nat, numBytes: nat, buffer: array<byte>) returns (n: nat)
      requires Valid() && k < inodeMap.Length && numBytes <= buffer.Length
      requires buffer != blockMap.bytes && buffer as object != inodeMap
      modifies device`blocks, blockMap.bytes, inodeMap
      ensures Valid() && (View(), n) == Volumes.INodeWrite(old(View()), k, start, buffer[..numBytes])
    {
      ghost var job := WritingStarts(View(), k, start, buffer[..numBytes]);
      var blockOffset, numBlocks := Span(start, numBytes);
      hide *;
      n := 0;
      for i := 0 to numBlocks
        invariant Valid() && buffer[..numBytes] == job.data && Writing(job, View(), i, blockOffset, n)
      {
        var zok, byteCount := WriteChunk(k, i, blockOffset, numBytes, buffer, n, job);
        if zok != 0 {
          WritingFailed(job, start, View(), n);
          return;
        }
        n := n + byteCount;
        blockOffset := 0;
      }
      WritingEnds(job, start, View(), blockOffset, n);
      RecordLength(k, start + n);
    }

    /** Raises the length of inode k to `end` if it is shorter. */
    method RecordLength(k: nat, end: nat)
      requires Valid() && k < inodeMap.Length
      modifies inodeMap
      ensures Valid() && View() == Lengthened(old(View()), k, end)
    {
      if end > inodeMap[k].numBytes {
        inodeMap[k] := inodeMap[k].(numBytes := end);
      }
    }
  }

  /** What a read finds for block b of inode k. */
  function Fetched(v: Volume, k: nat, b: nat): (block: Block)
    requires WellShaped(v) && k < |v.inodes| && Lookup(v.inodes[k], b) < |v.disk|
    ensures |block| == v.bpb
  {
    if Lookup(v.inodes[k], b) < 0 then Zeros(v.bpb) else v.disk[Lookup(v.inodes[k], b)]
  }

  /** A read under way: its volume and inode, how far it goes, the bytes it is to
      return, and the buffer as it was. */
  datatype ReadJob = ReadJob(v: Volume, k: nat, blocks: nat, n: nat, whole: seq<byte>, before: seq<byte>)

  /** Before iteration i the buffer holds the first n bytes and, beyond them,
      what it held before; the remaining iterations produce the rest. */
  ghost predicate Reading(job: ReadJob, i: nat, off: nat, n: nat, now: seq<byte>) {
    var v := job.v;
    var sized := WellShaped(v) && job.k < |v.inodes| && i <= job.blocks && off < v.bpb
      && n <= job.n <= |job.before| == |now|;
    var bytes := sized && now[n..] == job.before[n..]
                 && job.whole == now[..n] + ReadFrom(v, job.k, i, job.blocks, off, n, job.n);
    var holds := sized && bytes;
    holds
  }

  lemma ReadingStarts(v: Volume, k: nat, start: nat, n: nat, before: seq<byte>)
    returns (job: ReadJob)
    requires WellShaped(v) && k < |v.inodes| && n <= |before|
    ensures job == ReadJob(v, k, BlockSpan(start, n, v.bpb), n, Volumes.INodeRead(v, k, start, n), before)
    ensures Reading(job, 0, OffsetIn(start, v.bpb), 0, before) && v.bpb > 0
  {
    job := ReadJob(v, k, BlockSpan(start, n, v.bpb), n, Volumes.INodeRead(v, k, start, n), before);
    assert before[..0] == [] && before[0..] == before;
  }

  lemma ReadingBounds(job: ReadJob, i: nat, off: nat, n: nat, now: seq<byte>)
    requires Reading(job, i, off, n, now)
    ensures off < job.v.bpb && n <= job.n <= |now| && WellShaped(job.v) && job.k < |job.v.inodes|
  {
  }

  lemma ReadingGoesOn(job: ReadJob, i: nat, off: nat, n: nat, was: seq<byte>, now: seq<byte>, chunk: nat)
    requires Reading(job, i, off, n, was) && i < job.blocks && Lookup(job.v.inodes[job.k], i) < |job.v.disk|
    requires chunk == Min(job.v.bpb - off, job.n - n)
    requires now == was[..n] + Fetched(job.v, job.k, i)[off..off + chunk] + was[n + chunk..]
    ensures Reading(job, i + 1, 0, n + chunk, now)
  {
    var piece := Fetched(job.v, job.k, i)[off..off + chunk];
    ConcatAssociates(was[..n], piece, ReadFrom(job.v, job.k, i + 1, job.blocks, 0, n + chunk, job.n));
    assert now[..n + chunk] == was[..n] + piece;
    assert was[n + chunk..] == was[n..][chunk..] == job.before[n..][chunk..];
  }

  lemma ReadingEnds(job: ReadJob, i: nat, off: nat, n: nat, now: seq<byte>)
    requires Reading(job, i, off, n, now)
    requires i == job.blocks || Lookup(job.v.inodes[job.k], i) >= |job.v.disk|
    ensures n == |job.whole| <= job.n && now == job.whole + job.before[n..]
  {
    assert now == now[..n] + now[n..];
  }

  /** A write under way: its inode, how far it goes, its bytes, and what the
      whole loop is to do. */
  datatype WriteJob = WriteJob(k: nat, blocks: nat, data: seq<byte>, goal: Written)

  /** Before iteration i the remaining iterations lead to the goal. */
  ghost predicate Writing(job: WriteJob, v: Volume, i: nat, off: nat, n: nat) {
    var sized := WellShaped(v) && job.k < |v.inodes| && i <= job.blocks && off < v.bpb && n <= |job.data|;
    var goal := sized && WriteFrom(v, job.k, i, job.blocks, off, n, job.data) == job.goal;
    var holds := sized && goal;
    holds
  }

  /** The volume with the length of inode k raised to `end` if it is shorter. */
  function Lengthened(v: Volume, k: nat, end: nat): Volume
    requires k < |v.inodes|
  {
    if end > v.inodes[k].numBytes then v.(inodes := v.inodes[k := v.inodes[k].(numBytes := end)]) else v
  }

  lemma WritingStarts(v: Volume, k: nat, start: nat, data: seq<byte>)
    returns (job: WriteJob)
    requires WellShaped(v) && k < |v.inodes|
    ensures job == WriteJob(k, BlockSpan(start, |data|, v.bpb), data, WriteLoop(v, k, start, data)) && v.bpb > 0
    ensures Writing(job, v, 0, OffsetIn(start, v.bpb), 0)
    ensures k < |job.goal.vol.inodes| && WellShaped(job.goal.vol)
    ensures Volumes.INodeWrite(v, k, start, data) == (Recorded(job.goal, k, start), job.goal.done)
  {
    job := WriteJob(k, BlockSpan(start, |data|, v.bpb), data, WriteLoop(v, k, start, data));
  }

  lemma WritingBounds(job: WriteJob, v: Volume, i: nat, off: nat, n: nat)
    requires Writing(job, v, i, off, n)
    ensures off < v.bpb && n <= |job.data| && job.k < |v.inodes| && WellShaped(v)
  {
  }

  lemma WritingFailed(job: WriteJob, start: nat, v: Volume, n: nat)
    requires job.goal == Written(v, n, false) && WellShaped(v) && job.k < |v.inodes|
    ensures (Recorded(job.goal, job.k, start), job.goal.done) == (v, n)
  {
  }

  lemma WritingEnds(job: WriteJob, start: nat, v: Volume, off: nat, n: nat)
    requires Writing(job, v, job.blocks, off, n)
    ensures job.k < |v.inodes| && WellShaped(v) && job.goal == Written(v, n, true)
    ensures (Recorded(job.goal, job.k, start), job.goal.done) == (Lengthened(v, job.k, start + n), n)
  {
  }

  lemma WritingGoesOn(job: WriteJob, v: Volume, i: nat, off: nat, n: nat)
    requires Writing(job, v, i, off, n) && i < job.blocks
    ensures var chunk := Min(v.bpb - off, |job.data| - n);
            var v' := Patched(v, job.k, i, off, job.data[n..n + chunk]);
            if 0 <= LookupOrAllocate(v, job.k, i).1 < |v.disk| then Writing(job, v', i + 1, 0, n + chunk)
            else job.goal == Written(v', n, false)
  {
  }
}
