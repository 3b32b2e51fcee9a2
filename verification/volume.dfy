/** A mounted volume as a value: the device, the block map and the inode table,
    with the byte-range reads and writes that the inode layer performs on it. */
module Volumes {
  import opened Bytes
  import opened BlockDevices
  import opened BitSets
  import opened INodes

  datatype Volume = Volume(bpb: nat, disk: seq<Block>, bits: seq<byte>, count: nat, inodes: seq<INode>)

  predicate WellShaped(v: Volume) {
    var device := IsDisk(v.disk, v.bpb);
    var blockMap := v.count <= 8 * |v.bits|;
    var table := forall k :: 0 <= k < |v.inodes| ==> |v.inodes[k].ptrs| == POINTERS;
    device && blockMap && table
  }

  // ---------- from block offsets to disk addresses ----------

  /** The address of block b of an inode, or -1 when it has none. */
  function Lookup(n: INode, b: nat): int
    requires |n.ptrs| == POINTERS
  {
    if n.level == 0 && b < POINTERS && n.ptrs[b] > 0 then n.ptrs[b] else -1
  }

  /** The same, allocating an absent block. A failed allocation leaves -1 in
      the pointer, which still reads as absent. */
  function LookupOrAllocate(v: Volume, k: nat, b: nat): (r: (Volume, int))
    requires WellShaped(v) && k < |v.inodes|
    ensures WellShaped(r.0) && |r.0.inodes| == |v.inodes|
    ensures r.0.disk == v.disk && r.0.bpb == v.bpb && r.0.count == v.count && |r.0.bits| == |v.bits|
  {
    var n := v.inodes[k];
    if n.level != 0 || b >= POINTERS then (v, -1)
    else if n.ptrs[b] > 0 then (v, n.ptrs[b])
    else
      var (bits, a) := Allocate(v.bits, v.count);
      (v.(bits := bits, inodes := v.inodes[k := n.(ptrs := n.ptrs[b := a])]), a)
  }

  /** A lookup, case by case. An inode has 16 pointers, and only level 0 counts;
      an absent block takes the first free one, or leaves -1 in the pointer when
      there is none. */
  lemma LookupCases(v: Volume, k: nat, b: nat)
    returns (v1: Volume, a: int)
    requires WellShaped(v) && k < |v.inodes|
    ensures (v1, a) == LookupOrAllocate(v, k, b) && |v.inodes[k].ptrs| == 16
    ensures v.inodes[k].level != 0 || b >= 16 ==> v1 == v && a == -1 == Lookup(v.inodes[k], b)
    ensures v.inodes[k].level == 0 && b < 16 && v.inodes[k].ptrs[b] > 0 ==>
      v1 == v && a == v.inodes[k].ptrs[b] == Lookup(v.inodes[k], b)
    ensures v.inodes[k].level == 0 && b < 16 && v.inodes[k].ptrs[b] <= 0 ==>
      && Lookup(v.inodes[k], b) == -1
      && v1.inodes == v.inodes[k := v.inodes[k].(ptrs := v.inodes[k].ptrs[b := a])]
      && v1 == v.(bits := v1.bits, inodes := v1.inodes)
      && (a == -1 ==> v1.bits == v.bits && forall j :: 0 <= j < v.count ==> GetBit(v.bits, j))
      && (a != -1 ==>
            && 0 <= a < v.count && !GetBit(v.bits, a) && v1.bits == SetBit(v.bits, a)
            && forall j :: 0 <= j < a ==> GetBit(v.bits, j))
  {
    v1, a := LookupOrAllocate(v, k, b).0, LookupOrAllocate(v, k, b).1;
  }

  // ---------- what the file holds ----------

  /** Block b of the file: zeros where nothing is mapped. */
  function FileBlock(v: Volume, k: nat, b: nat): (r: Block)
    requires WellShaped(v) && k < |v.inodes|
    ensures |r| == v.bpb
  {
    var a := Lookup(v.inodes[k], b);
    if 0 < a < |v.disk| then v.disk[a] else Zeros(v.bpb)
  }

  /** Byte p of the file, zero-extended without end. */
  function FileByte(v: Volume, k: nat, p: nat): byte
    requires WellShaped(v) && k < |v.inodes|
  {
    FileBlock(v, k, BlockOf(p, v.bpb))[OffsetIn(p, v.bpb)]
  }

  /** The n bytes of the file from byte `from` on. */
  function FileRange(v: Volume, k: nat, from: nat, n: nat): (r: seq<byte>)
    requires WellShaped(v) && k < |v.inodes|
    ensures |r| == n
    ensures forall j :: 0 <= j < n ==> r[j] == FileByte(v, k, from + j)
  {
    seq(n, j requires 0 <= j => FileByte(v, k, from + j))
  }

  // ---------- the block loop ----------

  /** The number of iterations of the block loops for a range of n bytes. It
      counts one more block than the range touches when the range ends on a
      block boundary. */
  function BlockSpan(start: nat, n: nat, bpb: nat): nat
    requires bpb > 0
  {
    BlockStartsApart(BlockOf(start + n, bpb), BlockOf(start, bpb), bpb);
    BlockOf(start + n, bpb) - BlockOf(start, bpb) + 1
  }

  /** The number of iterations as the C code computes it. */
  lemma SpanIsQuotients(start: nat, n: nat, bpb: nat)
    requires bpb > 0
    ensures BlockSpan(start, n, bpb) == (start + n) / bpb - start / bpb + 1
  {
    PositionIsQuotient(start, bpb);
    PositionIsQuotient(start + n, bpb);
  }

  lemma {:induction false} BlockOfShifted(start: nat, n: nat, bpb: nat)
    requires bpb > 0
    ensures BlockOf(start + n, bpb) == BlockOf(start, bpb) + BlockOf(OffsetIn(start, bpb) + n, bpb)
    decreases start
  {
    if start >= bpb {
      BlockOfShifted(start - bpb, n, bpb);
    }
  }

  /** The loops see only the offset of the range within its first block. */
  lemma SpanFromOffset(start: nat, n: nat, bpb: nat)
    requires bpb > 0
    ensures LoopAt(bpb, OffsetIn(start, bpb), n, BlockSpan(start, n, bpb), 0, OffsetIn(start, bpb), 0)
  {
    BlockOfShifted(start, n, bpb);
  }

  /** The state of a block loop about to run iteration i of `blocks`, for n bytes
      from offset `base`: the bytes moved so far end where this iteration's chunk
      begins, or everything is moved. */
  predicate LoopAt(bpb: nat, base: nat, n: nat, blocks: nat, i: nat, off: nat, done: nat) {
    var span := blocks > 0 && BlockStart(blocks - 1, bpb) <= base + n < BlockStart(blocks - 1, bpb) + bpb;
    var moved := if i == blocks then done == n else BlockStart(i, bpb) + off == base + done;
    span && moved && i <= blocks && off < bpb && done <= n
  }

  /** The chunks tile the request: each is nonnegative, ends inside its block,
      and leaves the loop where the next chunk begins; the last ends the request. */
  lemma ChunkTiles(bpb: nat, base: nat, n: nat, blocks: nat, i: nat, off: nat, done: nat)
    requires LoopAt(bpb, base, n, blocks, i, off, done) && i < blocks
    ensures var chunk := Min(bpb - off, n - done);
      0 <= chunk && LoopAt(bpb, base, n, blocks, i + 1, 0, done + chunk)
  {
    BlockStartsApart(i, blocks - 1, bpb);
  }

  lemma LoopBounds(bpb: nat, base: nat, n: nat, blocks: nat, i: nat, off: nat, done: nat)
    requires LoopAt(bpb, base, n, blocks, i, off, done)
    ensures i <= blocks && off < bpb && done <= n
  {
  }

  // ---------- reads ----------

  /** The bytes that iterations i onwards copy to the caller. */
  function ReadFrom(v: Volume, k: nat, i: nat, blocks: nat, off: nat, done: nat, n: nat): seq<byte>
    requires WellShaped(v) && k < |v.inodes|
    requires i <= blocks && off < v.bpb && done <= n
    decreases blocks - i
  {
    if i == blocks then []
    else
      var chunk := Min(v.bpb - off, n - done);
      var a := Lookup(v.inodes[k], i);
      if a >= |v.disk| then []
      else
        (if a < 0 then Zeros(v.bpb) else v.disk[a])[off..off + chunk]
        + ReadFrom(v, k, i + 1, blocks, 0, done + chunk, n)
  }

  function INodeRead(v: Volume, k: nat, start: nat, n: nat): seq<byte>
    requires WellShaped(v) && k < |v.inodes|
  {
    ReadFrom(v, k, 0, BlockSpan(start, n, v.bpb), OffsetIn(start, v.bpb), 0, n)
  }

  predicate PointersInRange(v: Volume, k: nat)
    requires WellShaped(v) && k < |v.inodes|
  {
    forall b :: 0 <= b < POINTERS ==> v.inodes[k].ptrs[b] < |v.disk|
  }

  /** Byte (c, o) of the file is where it belongs in a piece read from `from`. */
  predicate PieceHolds(v: Volume, k: nat, from: nat, r: seq<byte>, c: nat, o: nat)
    requires WellShaped(v) && k < |v.inodes| && o < v.bpb
  {
    var p := BlockStart(c, v.bpb) + o;
    from <= p < from + |r| ==> r[p - from] == FileBlock(v, k, c)[o]
  }

  /** A piece of the file, position by position as (block, offset) pairs. */
  ghost predicate IsFilePiece(v: Volume, k: nat, from: nat, r: seq<byte>)
    requires WellShaped(v) && k < |v.inodes|
  {
    forall c: nat, o: nat :: o < v.bpb ==> PieceHolds(v, k, from, r, c, o)
  }

  lemma PieceGrowsAt(v: Volume, k: nat, i: nat, off: nat, chunk: nat, rest: seq<byte>, from: nat, r: seq<byte>, c: nat,
                     o: nat)
    requires WellShaped(v) && k < |v.inodes| && off + chunk <= v.bpb && o < v.bpb
    requires from == BlockStart(i, v.bpb) + off && r == FileBlock(v, k, i)[off..off + chunk] + rest
    requires PieceHolds(v, k, from + chunk, rest, c, o)
    ensures PieceHolds(v, k, from, r, c, o)
  {
    BlockStartsApart(i, c, v.bpb);
    hide FileBlock, BlockStart, WellShaped;
  }

  lemma PieceGrows(v: Volume, k: nat, i: nat, off: nat, chunk: nat, rest: seq<byte>, from: nat, r: seq<byte>)
    requires WellShaped(v) && k < |v.inodes| && off + chunk <= v.bpb
    requires from == BlockStart(i, v.bpb) + off && r == FileBlock(v, k, i)[off..off + chunk] + rest
    requires IsFilePiece(v, k, from + chunk, rest)
    ensures IsFilePiece(v, k, from, r)
  {
    hide FileBlock, BlockStart, PieceHolds, WellShaped;
    forall c: nat, o: nat | o < v.bpb
      ensures PieceHolds(v, k, from, r, c, o)
    {
      PieceGrowsAt(v, k, i, off, chunk, rest, from, r, c, o);
    }
  }

  /** Iteration i copies a chunk of block i of the file, and the loop goes on
      behind it. */
  lemma ReadGoesOn(v: Volume, k: nat, i: nat, blocks: nat, off: nat, base: nat, done: nat, n: nat)
    returns (chunk: nat)
    requires WellShaped(v) && k < |v.inodes| && Lookup(v.inodes[k], i) < |v.disk|
    requires LoopAt(v.bpb, base, n, blocks, i, off, done) && i < blocks
    ensures off < v.bpb && off + chunk <= v.bpb && done + chunk <= n && BlockStart(i, v.bpb) + off == base + done
    ensures chunk == Min(v.bpb - off, n - done)
    ensures LoopAt(v.bpb, base, n, blocks, i + 1, 0, done + chunk)
    ensures ReadFrom(v, k, i, blocks, off, done, n)
         == FileBlock(v, k, i)[off..off + chunk] + ReadFrom(v, k, i + 1, blocks, 0, done + chunk, n)
  {
    chunk := Min(v.bpb - off, n - done);
    ChunkTiles(v.bpb, base, n, blocks, i, off, done);
  }

  lemma ReadEnds(v: Volume, k: nat, blocks: nat, off: nat, base: nat, done: nat, n: nat)
    requires WellShaped(v) && k < |v.inodes| && LoopAt(v.bpb, base, n, blocks, blocks, off, done)
    ensures done == n && off < v.bpb && ReadFrom(v, k, blocks, blocks, off, done, n) == []
    ensures IsFilePiece(v, k, base + done, [])
  {
  }

  /** It stops at a pointer outside the device. */
  lemma ReadStops(v: Volume, k: nat, i: nat, blocks: nat, off: nat, base: nat, done: nat, n: nat)
    requires WellShaped(v) && k < |v.inodes| && Lookup(v.inodes[k], i) >= |v.disk|
    requires LoopAt(v.bpb, base, n, blocks, i, off, done) && i < blocks
    ensures off < v.bpb && done <= n && ReadFrom(v, k, i, blocks, off, done, n) == []
    ensures IsFilePiece(v, k, base + done, []) && BlockStart(i, v.bpb) <= base + done
  {
  }

  /** Where a read stops: at the first block whose pointer is outside the device. */
  predicate StopsAt(v: Volume, k: nat, i: nat, blocks: nat, b: nat)
    requires WellShaped(v) && k < |v.inodes|
  {
    && i <= b <= blocks
    && (forall j :: i <= j < b ==> Lookup(v.inodes[k], j) < |v.disk|)
    && (b < blocks ==> Lookup(v.inodes[k], b) >= |v.disk|)
  }

  /** What is read until then, counted from a position of the file. */
  function ReadLength(v: Volume, blocks: nat, b: nat, from: nat, n: nat): int {
    if b == blocks then n else if BlockStart(b, v.bpb) <= from then 0 else BlockStart(b, v.bpb) - from
  }

  lemma ChunkLength(v: Volume, i: nat, blocks: nat, off: nat, base: nat, done: nat, n: nat, chunk: nat, b: nat)
    requires LoopAt(v.bpb, base, n, blocks, i, off, done) && i < b <= blocks && chunk == Min(v.bpb - off, n - done)
    ensures done + chunk <= n
    ensures ReadLength(v, blocks, b, base + done, n - done)
         == chunk + ReadLength(v, blocks, b, base + done + chunk, n - done - chunk)
  {
    BlockStartsApart(i, b, v.bpb);
    BlockStartsApart(i, blocks - 1, v.bpb);
    BlockStartsApart(b, blocks - 1, v.bpb);
  }

  lemma StopsLater(v: Volume, k: nat, i: nat, blocks: nat, b: nat)
    requires WellShaped(v) && k < |v.inodes| && Lookup(v.inodes[k], i) < |v.disk| && StopsAt(v, k, i + 1, blocks, b)
    ensures StopsAt(v, k, i, blocks, b) && i < b <= blocks
  {
  }

  lemma {:induction false} ReadFromIsPiece(v: Volume, k: nat, i: nat, blocks: nat, off: nat, base: nat,
                                           done: nat, n: nat)
    returns (b: nat)
    requires WellShaped(v) && k < |v.inodes|
    requires LoopAt(v.bpb, base, n, blocks, i, off, done)
    ensures off < v.bpb && i <= blocks && done <= n && StopsAt(v, k, i, blocks, b)
    ensures |ReadFrom(v, k, i, blocks, off, done, n)| == ReadLength(v, blocks, b, base + done, n - done)
    ensures IsFilePiece(v, k, base + done, ReadFrom(v, k, i, blocks, off, done, n))
    decreases blocks - i
  {
    var inside := Lookup(v.inodes[k], i) < |v.disk|;
    hide *;
    LoopBounds(v.bpb, base, n, blocks, i, off, done);
    b := i;
    if i < blocks {
      if inside {
        var chunk := ReadGoesOn(v, k, i, blocks, off, base, done, n);
        b := ReadFromIsPiece(v, k, i + 1, blocks, 0, base, done + chunk, n);
        StopsLater(v, k, i, blocks, b);
        ChunkLength(v, i, blocks, off, base, done, n, chunk, b);
        var rest := ReadFrom(v, k, i + 1, blocks, 0, done + chunk, n);
        PieceGrows(v, k, i, off, chunk, rest, base + done, ReadFrom(v, k, i, blocks, off, done, n));
      } else {
        ReadStops(v, k, i, blocks, off, base, done, n);
        StopsHere(v, k, i, blocks, base + done, n - done);
      }
    } else {
      ReadEnds(v, k, blocks, off, base, done, n);
      StopsHere(v, k, i, blocks, base + done, n - done);
    }
  }

  lemma StopsHere(v: Volume, k: nat, i: nat, blocks: nat, from: nat, n: nat)
    requires WellShaped(v) && k < |v.inodes| && i <= blocks && (i < blocks ==> Lookup(v.inodes[k], i) >= |v.disk|)
    ensures StopsAt(v, k, i, blocks, i)
    ensures ReadLength(v, blocks, i, from, n) == if i == blocks then n else if BlockStart(i, v.bpb) <= from then 0
                                                 else BlockStart(i, v.bpb) - from
  {
  }

  lemma PieceIsRange(v: Volume, k: nat, from: nat, r: seq<byte>)
    requires WellShaped(v) && k < |v.inodes| && IsFilePiece(v, k, from, r)
    ensures r == FileRange(v, k, from, |r|)
  {
    forall j: nat | j < |r|
      ensures r[j] == FileByte(v, k, from + j)
    {
      var p := from + j;
      assert PieceHolds(v, k, from, r, BlockOf(p, v.bpb), OffsetIn(p, v.bpb));
    }
  }

  /** A read returns bytes of the zero-extended file from offset `start % bpb` on.
      The block loop starts at block 0 whatever `start` is, so the whole blocks
      before `start` are not skipped. A pointer outside the device ends it there. */
  lemma ReadIsPrefix(v: Volume, k: nat, start: nat, n: nat)
    returns (b: nat, blocks: nat)
    requires WellShaped(v) && k < |v.inodes|
    ensures blocks == BlockSpan(start, n, v.bpb) && StopsAt(v, k, 0, blocks, b)
    ensures |INodeRead(v, k, start, n)| == ReadLength(v, blocks, b, OffsetIn(start, v.bpb), n)
    ensures INodeRead(v, k, start, n) == FileRange(v, k, OffsetIn(start, v.bpb), |INodeRead(v, k, start, n)|)
  {
    blocks := BlockSpan(start, n, v.bpb);
    SpanFromOffset(start, n, v.bpb);
    b := ReadFromIsPiece(v, k, 0, blocks, OffsetIn(start, v.bpb), OffsetIn(start, v.bpb), 0, n);
    PieceIsRange(v, k, OffsetIn(start, v.bpb), INodeRead(v, k, start, n));
  }

  /** With every pointer inside the device, a read of n bytes returns n bytes. */
  lemma ReadIsView(v: Volume, k: nat, start: nat, n: nat)
    requires WellShaped(v) && k < |v.inodes| && PointersInRange(v, k)
    ensures INodeRead(v, k, start, n) == FileRange(v, k, OffsetIn(start, v.bpb), n)
  {
    var b, blocks := ReadIsPrefix(v, k, start, n);
    assert forall j: nat :: j < POINTERS ==> v.inodes[k].ptrs[j] < |v.disk|;
  }

  // ---------- writes ----------

  datatype Written = Written(vol: Volume, done: nat, complete: bool)

  /** A block with some of its bytes replaced. */
  function Splice(block: Block, off: nat, data: seq<byte>): (r: Block)
    requires off + |data| <= |block|
    ensures |r| == |block|
  {
    block[..off] + data + block[off + |data|..]
  }

  lemma SpliceIs(block: Block, off: nat, data: seq<byte>)
    requires off + |data| <= |block|
    ensures block[..off] + data + block[off + |data|..] == Splice(block, off, data)
  {
  }

  /** The volume after one iteration: the block is mapped, and if that works
      some of its bytes are replaced. */
  function Patched(v: Volume, k: nat, b: nat, off: nat, data: seq<byte>): (r: Volume)
    requires WellShaped(v) && k < |v.inodes| && off + |data| <= v.bpb
    ensures WellShaped(r) && |r.inodes| == |v.inodes| && r.bpb == v.bpb && |r.bits| == |v.bits|
  {
    var (v1, a) := LookupOrAllocate(v, k, b);
    if 0 <= a < |v1.disk| then v1.(disk := v1.disk[a := Splice(v1.disk[a], off, data)]) else v1
  }

  /** Iterations i onwards of the write loop: read, patch and write back. */
  function WriteFrom(v: Volume, k: nat, i: nat, blocks: nat, off: nat, done: nat, data: seq<byte>): (w: Written)
    requires WellShaped(v) && k < |v.inodes|
    requires i <= blocks && off < v.bpb && done <= |data|
    ensures WellShaped(w.vol) && |w.vol.inodes| == |v.inodes| && w.vol.bpb == v.bpb && |w.vol.bits| == |v.bits|
    decreases blocks - i
  {
    if i == blocks then Written(v, done, true)
    else
      var chunk := Min(v.bpb - off, |data| - done);
      var v' := Patched(v, k, i, off, data[done..done + chunk]);
      if 0 <= LookupOrAllocate(v, k, i).1 < |v.disk| then WriteFrom(v', k, i + 1, blocks, 0, done + chunk, data)
      else Written(v', done, false)
  }

  /** Only a loop that ran to its end extends the recorded length. */
  function Recorded(w: Written, k: nat, start: nat): (v: Volume)
    requires WellShaped(w.vol) && k < |w.vol.inodes|
    ensures WellShaped(v) && |v.inodes| == |w.vol.inodes| && v.bpb == w.vol.bpb && |v.bits| == |w.vol.bits|
  {
    if w.complete && start + w.done > w.vol.inodes[k].numBytes
    then w.vol.(inodes := w.vol.inodes[k := w.vol.inodes[k].(numBytes := start + w.done)])
    else w.vol
  }

  /** The block loop of a write, from its start. */
  function WriteLoop(v: Volume, k: nat, start: nat, data: seq<byte>): (w: Written)
    requires WellShaped(v) && k < |v.inodes|
    ensures WellShaped(w.vol) && |w.vol.inodes| == |v.inodes| && w.vol.bpb == v.bpb && |w.vol.bits| == |v.bits|
  {
    WriteFrom(v, k, 0, BlockSpan(start, |data|, v.bpb), OffsetIn(start, v.bpb), 0, data)
  }

  /** A write ends at the first block that has no address or one outside the
      device: it reports the bytes before and has not completed. */
  lemma WriteStops(v: Volume, k: nat, i: nat, blocks: nat, off: nat, done: nat, data: seq<byte>)
    requires WellShaped(v) && k < |v.inodes| && i < blocks && off < v.bpb && done <= |data|
    requires !(0 <= LookupOrAllocate(v, k, i).1 < |v.disk|)
    ensures WriteFrom(v, k, i, blocks, off, done, data) == Written(LookupOrAllocate(v, k, i).0, done, false)
    ensures Recorded(WriteFrom(v, k, i, blocks, off, done, data), k, 0) == LookupOrAllocate(v, k, i).0
  {
  }

  /** The volume after a write and the number of bytes the call reports. */
  function INodeWrite(v: Volume, k: nat, start: nat, data: seq<byte>): (r: (Volume, nat))
    requires WellShaped(v) && k < |v.inodes|
    ensures WellShaped(r.0) && |r.0.inodes| == |v.inodes| && r.0.bpb == v.bpb && |r.0.bits| == |v.bits|
  {
    var w := WriteLoop(v, k, start, data);
    (Recorded(w, k, start), w.done)
  }
}
