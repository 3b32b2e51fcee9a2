/** Who owns which block: the invariant of the inode layer, and what a write
    does to the file it is aimed at and to everything else. */
module Ownership {
  import opened Bytes
  import opened BitSets
  import opened INodes
  import opened Volumes

  /** Pointer b of inode k, or 0 where there is no such pointer. */
  function PointerAt(inodes: seq<INode>, k: nat, b: nat): int {
    if k < |inodes| && b < |inodes[k].ptrs| then inodes[k].ptrs[b] else 0
  }

  /** The metadata blocks are reserved; each positive pointer of any inode,
      allocated or not, names a used data block of the device, and no two
      pointers name the same one. */
  ghost predicate Owned(v: Volume, meta: nat) {
    var sized := WellShaped(v) && v.count == |v.disk| && 0 < meta <= v.count;
    var reserved := sized && forall a :: 0 <= a < meta ==> GetBit(v.bits, a);
    var used := sized && forall k: nat, b: nat :: PointerAt(v.inodes, k, b) > 0 ==>
      meta <= PointerAt(v.inodes, k, b) < v.count && GetBit(v.bits, PointerAt(v.inodes, k, b));
    var distinct := forall k: nat, b: nat, k': nat, b': nat ::
      PointerAt(v.inodes, k, b) > 0 && PointerAt(v.inodes, k, b) == PointerAt(v.inodes, k', b') ==>
        k == k' && b == b';
    var holds := sized && reserved && used && distinct;
    holds
  }

  /** Every free data block holds zeros. */
  ghost predicate FreeIsZero(v: Volume)
    requires WellShaped(v)
  {
    forall a :: 0 <= a < v.count && a < |v.disk| && !GetBit(v.bits, a) ==> v.disk[a] == Zeros(v.bpb)
  }

  /** Block b of the file has a block of its own. */
  ghost predicate Mapped(v: Volume, k: nat, b: nat)
    requires WellShaped(v) && k < |v.inodes|
  {
    Lookup(v.inodes[k], b) > 0
  }

  /** v' differs from v at most in inode k's pointers and length, in k's own
      blocks and in blocks that were free. */
  ghost predicate OnlyFile(v: Volume, v': Volume, k: nat, meta: nat)
    requires WellShaped(v) && WellShaped(v')
  {
    var sized := k < |v.inodes| == |v'.inodes| && v'.bpb == v.bpb && v'.count == v.count && |v'.disk| == |v.disk|;
    var inodes := sized && (forall j :: 0 <= j < |v.inodes| && j != k ==> v'.inodes[j] == v.inodes[j])
      && v'.inodes[k].(ptrs := [], numBytes := 0) == v.inodes[k].(ptrs := [], numBytes := 0);
    var metadata := sized && forall a :: 0 <= a < meta && a < |v.disk| ==> v'.disk[a] == v.disk[a];
    var others := sized && forall j: nat, b: nat :: j < |v.inodes| && j != k ==>
      FileBlock(v', j, b) == FileBlock(v, j, b);
    var grows := sized && forall b: nat :: Mapped(v, k, b) ==> Mapped(v', k, b);
    var zeros := FreeIsZero(v) ==> FreeIsZero(v');
    var holds := sized && inodes && metadata && others && grows && zeros;
    holds
  }

  lemma OwnedInRange(v: Volume, k: nat, meta: nat)
    requires Owned(v, meta) && k < |v.inodes|
    ensures PointersInRange(v, k)
  {
    forall b | 0 <= b < POINTERS
      ensures v.inodes[k].ptrs[b] < |v.disk|
    {
      assert v.inodes[k].ptrs[b] == PointerAt(v.inodes, k, b);
    }
  }

  // ---------- one lookup ----------

  /** Changing one pointer of one inode changes no other pointer. */
  lemma PointerFrame(inodes: seq<INode>, k: nat, b: nat, a: int, j: nat, c: nat)
    requires k < |inodes| && b < |inodes[k].ptrs|
    ensures PointerAt(inodes[k := inodes[k].(ptrs := inodes[k].ptrs[b := a])], j, c)
         == if j == k && c == b then a else PointerAt(inodes, j, c)
  {
  }

  /** Mapping a block on demand keeps the invariant, and maps no file's block
      but the one asked for. */
  lemma LookupKeepsOwned(v: Volume, k: nat, b: nat, meta: nat)
    requires Owned(v, meta) && k < |v.inodes|
    ensures var (v1, a) := LookupOrAllocate(v, k, b);
            && Owned(v1, meta)
            && (a >= 0 ==> meta <= a < v.count && b < POINTERS
                           && PointerAt(v1.inodes, k, b) == a == Lookup(v1.inodes[k], b))
            && (forall j: nat, c: nat :: (j != k || c != b) ==> PointerAt(v1.inodes, j, c) == PointerAt(v.inodes, j, c))
            && v1.inodes[k].(ptrs := []) == v.inodes[k].(ptrs := [])
            && (forall j :: 0 <= j < |v.inodes| && j != k ==> v1.inodes[j] == v.inodes[j])
            && (Mapped(v, k, b) ==> v1 == v)
            && (!Mapped(v, k, b) && a >= 0 ==> !GetBit(v.bits, a))
            && (forall c :: 0 <= c < v.count && GetBit(v.bits, c) ==> GetBit(v1.bits, c))
  {
    var n := v.inodes[k];
    var (v1, a) := LookupOrAllocate(v, k, b);
    if n.level != 0 || b >= POINTERS {
    } else if n.ptrs[b] > 0 {
      assert n.ptrs[b] == PointerAt(v.inodes, k, b);
    } else {
      AllocateStep(v.bits, v.count);
      forall j: nat, c: nat
        ensures PointerAt(v1.inodes, j, c) == if j == k && c == b then a else PointerAt(v.inodes, j, c)
      {
        PointerFrame(v.inodes, k, b, a, j, c);
      }
    }
  }

  /** The view of one file after a step that touched only block b of it. */
  ghost predicate SameButBlock(v: Volume, v': Volume, k: nat, b: nat)
    requires WellShaped(v) && WellShaped(v') && k < |v.inodes| && k < |v'.inodes|
  {
    forall c: nat :: c != b ==> FileBlock(v', k, c) == FileBlock(v, k, c)
  }

  lemma LookupOnlyFile(v: Volume, k: nat, b: nat, meta: nat)
    requires Owned(v, meta) && k < |v.inodes|
    ensures var v1 := LookupOrAllocate(v, k, b).0;
            && Owned(v1, meta)
            && OnlyFile(v, v1, k, meta)
            && SameButBlock(v, v1, k, b)
            && (Mapped(v, k, b) || FreeIsZero(v) ==> FileBlock(v1, k, b) == FileBlock(v, k, b))
  {
    LookupKeepsOwned(v, k, b, meta);
    var (v1, a) := LookupOrAllocate(v, k, b);
    forall c: nat
      ensures c != b ==> Lookup(v1.inodes[k], c) == Lookup(v.inodes[k], c)
    {
      if c < POINTERS && c != b {
        assert PointerAt(v1.inodes, k, c) == PointerAt(v.inodes, k, c);
      }
    }
  }

  /** Overwriting the block that holds block b of file k. */
  lemma StoreOnlyFile(v: Volume, k: nat, b: nat, block: Block, meta: nat)
    requires Owned(v, meta) && k < |v.inodes| && Mapped(v, k, b) && |block| == v.bpb
    ensures var a := Lookup(v.inodes[k], b);
            && a < |v.disk|
            && var v' := v.(disk := v.disk[a := block]);
            && Owned(v', meta)
            && OnlyFile(v, v', k, meta)
            && SameButBlock(v, v', k, b)
            && FileBlock(v', k, b) == block
  {
    var a := Lookup(v.inodes[k], b);
    assert a == PointerAt(v.inodes, k, b);
    var v' := v.(disk := v.disk[a := block]);
    forall j: nat, c: nat | j < |v.inodes| && !(j == k && c == b)
      ensures FileBlock(v', j, c) == FileBlock(v, j, c)
    {
      if Lookup(v.inodes[j], c) > 0 {
        assert Lookup(v.inodes[j], c) == PointerAt(v.inodes, j, c);
      }
    }
  }

  lemma OnlyFileTransitive(v: Volume, v1: Volume, v2: Volume, k: nat, meta: nat)
    requires WellShaped(v) && WellShaped(v1) && WellShaped(v2)
    requires OnlyFile(v, v1, k, meta) && OnlyFile(v1, v2, k, meta)
    ensures OnlyFile(v, v2, k, meta)
  {
  }

  // ---------- a whole write ----------

  /** Byte (c, o) of the file after bytes [from, to) became data: the written
      byte inside; outside, the old byte if its block was mapped, or in any
      case when free blocks hold zeros. */
  ghost predicate ByteAfter(v: Volume, v': Volume, k: nat, base: nat, from: nat, to: nat, data: seq<byte>, c: nat,
                            o: nat)
    requires WellShaped(v) && WellShaped(v') && k < |v.inodes| && k < |v'.inodes| && v'.bpb == v.bpb
    requires base <= from && to <= base + |data| && o < v.bpb
  {
    var p := BlockStart(c, v.bpb) + o;
    if from <= p < to then Mapped(v', k, c) && FileBlock(v', k, c)[o] == data[p - base]
    else Mapped(v, k, c) || FreeIsZero(v) ==> FileBlock(v', k, c)[o] == FileBlock(v, k, c)[o]
  }

  ghost predicate ViewAfter(v: Volume, v': Volume, k: nat, base: nat, from: nat, to: nat, data: seq<byte>)
    requires WellShaped(v) && WellShaped(v') && k < |v.inodes| && k < |v'.inodes| && v'.bpb == v.bpb
    requires base <= from && to <= base + |data|
  {
    forall c: nat, o: nat :: o < v.bpb ==> ByteAfter(v, v', k, base, from, to, data, c, o)
  }

  /** A file whose block i was patched and whose other blocks stayed. */
  lemma PatchedView(v: Volume, v': Volume, k: nat, i: nat, off: nat, base: nat, done: nat, chunk: nat, data: seq<byte>)
    requires WellShaped(v) && WellShaped(v') && k < |v.inodes| && k < |v'.inodes| && v'.bpb == v.bpb
    requires off + chunk <= v.bpb && done + chunk <= |data| && BlockStart(i, v.bpb) + off == base + done
    requires SameButBlock(v, v', k, i) && Mapped(v', k, i)
    requires FileBlock(v', k, i)[off..off + chunk] == data[done..done + chunk]
    requires Mapped(v, k, i) || FreeIsZero(v) ==>
      forall o :: 0 <= o < v.bpb && !(off <= o < off + chunk) ==> FileBlock(v', k, i)[o] == FileBlock(v, k, i)[o]
    ensures ViewAfter(v, v', k, base, base + done, base + done + chunk, data)
  {
    var from, to := base + done, base + done + chunk;
    forall c: nat, o: nat | o < v.bpb
      ensures ByteAfter(v, v', k, base, from, to, data, c, o)
    {
      BlockStartsApart(i, c, v.bpb);
      if c == i && off <= o < off + chunk {
        assert FileBlock(v', k, i)[off..off + chunk][o - off] == data[done..done + chunk][o - off];
      }
    }
  }

  /** v' is v after bytes [from, to) of file k were written: the file reads as
      it should and nothing but the file changed. */
  ghost predicate Wrote(v: Volume, v': Volume, k: nat, meta: nat, base: nat, from: nat, to: nat, data: seq<byte>) {
    var holds :=
      && Owned(v, meta) && Owned(v', meta)
      && OnlyFile(v, v', k, meta)
      && base <= from <= to <= base + |data|
      && ViewAfter(v, v', k, base, from, to, data);
    holds
  }

  lemma WroteThenWrote(v: Volume, v1: Volume, v2: Volume, k: nat, meta: nat, base: nat, from: nat, mid: nat, to: nat,
                       data: seq<byte>)
    requires Wrote(v, v1, k, meta, base, from, mid, data) && Wrote(v1, v2, k, meta, base, mid, to, data)
    ensures Wrote(v, v2, k, meta, base, from, to, data)
  {
    OnlyFileTransitive(v, v1, v2, k, meta);
    forall c: nat, o: nat | o < v.bpb
      ensures ByteAfter(v, v2, k, base, from, to, data, c, o)
    {
      assert ByteAfter(v, v1, k, base, from, mid, data, c, o) && ByteAfter(v1, v2, k, base, mid, to, data, c, o);
    }
  }

  /** The state after iteration i maps its block and, if that works, stores its
      chunk; and the bytes moved. */
  function ChunkStep(v: Volume, k: nat, i: nat, off: nat, done: nat, data: seq<byte>): (r: (Volume, nat))
    requires WellShaped(v) && k < |v.inodes| && off < v.bpb && done <= |data|
  {
    var chunk := Min(v.bpb - off, |data| - done);
    var moved := 0 <= LookupOrAllocate(v, k, i).1 < |v.disk|;
    (Patched(v, k, i, off, data[done..done + chunk]), if moved then done + chunk else done)
  }

  /** One patched block, as a write of the chunk that it covers. */
  lemma PatchedWrote(
    v: Volume, k: nat, i: nat, off: nat, base: nat, done: nat, chunk: nat, data: seq<byte>, meta: nat)
    requires Owned(v, meta) && k < |v.inodes| && off + chunk <= v.bpb && done + chunk <= |data|
    requires base + done == BlockStart(i, v.bpb) + off && LookupOrAllocate(v, k, i).1 >= 0
    ensures LookupOrAllocate(v, k, i).1 < |v.disk|
    ensures Wrote(v, Patched(v, k, i, off, data[done..done + chunk]), k, meta, base, base + done,
                  base + done + chunk, data)
  {
    var (v1, a) := LookupOrAllocate(v, k, i);
    LookupKeepsOwned(v, k, i, meta);
    LookupOnlyFile(v, k, i, meta);
    assert Lookup(v1.inodes[k], i) == a && a < |v.disk| && Mapped(v1, k, i);
    var block := Splice(v1.disk[a], off, data[done..done + chunk]);
    StoreOnlyFile(v1, k, i, block, meta);
    var v' := Patched(v, k, i, off, data[done..done + chunk]);
    assert v' == v1.(disk := v1.disk[a := block]);
    assert Mapped(v', k, i) && FileBlock(v', k, i) == block && FileBlock(v1, k, i) == v1.disk[a];
    hide *;
    OnlyFileTransitive(v, v1, v', k, meta);
    SplicedBlock(v1.disk[a], off, data[done..done + chunk]);
    SameButBlockTransitive(v, v1, v', k, i);
    PatchedView(v, v', k, i, off, base, done, chunk, data);
    ItWrote(v, v', k, meta, base, base + done, base + done + chunk, data);
  }

  lemma SplicedBlock(block: Block, off: nat, data: seq<byte>)
    requires off + |data| <= |block|
    ensures Splice(block, off, data)[off..off + |data|] == data
    ensures forall o :: 0 <= o < |block| && !(off <= o < off + |data|) ==> Splice(block, off, data)[o] == block[o]
  {
  }

  lemma SameButBlockTransitive(v: Volume, v1: Volume, v2: Volume, k: nat, b: nat)
    requires WellShaped(v) && WellShaped(v1) && WellShaped(v2) && k < |v.inodes| == |v1.inodes| == |v2.inodes|
    requires SameButBlock(v, v1, k, b) && SameButBlock(v1, v2, k, b)
    ensures SameButBlock(v, v2, k, b)
  {
    hide FileBlock;
  }

  lemma ItWrote(v: Volume, v': Volume, k: nat, meta: nat, base: nat, from: nat, to: nat, data: seq<byte>)
    requires Owned(v, meta) && Owned(v', meta) && OnlyFile(v, v', k, meta)
    requires base <= from <= to <= base + |data| && ViewAfter(v, v', k, base, from, to, data)
    ensures Wrote(v, v', k, meta, base, from, to, data)
  {
    hide Owned, OnlyFile, ViewAfter;
  }

  lemma ChunkStepWrote(
    v: Volume, k: nat, i: nat, off: nat, base: nat, from: nat, data: seq<byte>, meta: nat)
    returns (v': Volume, to: nat)
    requires Owned(v, meta) && k < |v.inodes| && off < v.bpb && base <= from <= base + |data|
    requires from == BlockStart(i, v.bpb) + off
    ensures base <= to && (v', to - base) == ChunkStep(v, k, i, off, from - base, data)
    ensures LookupOrAllocate(v, k, i).1 < |v.disk|
    ensures LookupOrAllocate(v, k, i).1 >= 0 ==> to == from + Min(v.bpb - off, |data| - (from - base))
    ensures Wrote(v, v', k, meta, base, from, to, data)
  {
    var done := from - base;
    var chunk := Min(v.bpb - off, |data| - done);
    v' := Patched(v, k, i, off, data[done..done + chunk]);
    if LookupOrAllocate(v, k, i).1 < 0 {
      LookupOnlyFile(v, k, i, meta);
      UnwrittenView(v, v', k, i, base, from, data);
      to := from;
    } else {
      hide OnlyFile, ViewAfter, LookupOrAllocate, Patched, Owned, Wrote;
      PatchedWrote(v, k, i, off, base, done, chunk, data, meta);
      to := from + chunk;
    }
  }

  lemma UnwrittenView(v: Volume, v': Volume, k: nat, i: nat, base: nat, from: nat, data: seq<byte>)
    requires WellShaped(v) && WellShaped(v') && k < |v.inodes| && k < |v'.inodes| && v'.bpb == v.bpb
    requires base <= from <= base + |data|
    requires SameButBlock(v, v', k, i)
    requires Mapped(v, k, i) || FreeIsZero(v) ==> FileBlock(v', k, i) == FileBlock(v, k, i)
    ensures ViewAfter(v, v', k, base, from, from, data)
  {
  }

  lemma WroteNothing(v: Volume, k: nat, meta: nat, base: nat, from: nat, data: seq<byte>)
    requires Owned(v, meta) && k < |v.inodes| && base <= from <= base + |data|
    ensures Wrote(v, v, k, meta, base, from, from, data)
  {
  }

  lemma WriteFromUnfolds(v: Volume, k: nat, i: nat, blocks: nat, off: nat, done: nat, data: seq<byte>)
    requires WellShaped(v) && k < |v.inodes| && i < blocks && off < v.bpb && done <= |data|
    ensures var (v', done') := ChunkStep(v, k, i, off, done, data);
            var a := LookupOrAllocate(v, k, i).1;
            && WellShaped(v') && k < |v'.inodes| && v'.bpb == v.bpb && done' <= |data|
            && WriteFrom(v, k, i, blocks, off, done, data)
               == if 0 <= a < |v.disk| then WriteFrom(v', k, i + 1, blocks, 0, done', data)
                  else Written(v', done, false)
  {
  }

  /** Iteration i, when it finds a block for its chunk, and what the loop needs
      to go on. */
  lemma StepGoesOn(v: Volume, k: nat, i: nat, blocks: nat, off: nat, base: nat, from: nat, data: seq<byte>, meta: nat)
    returns (v': Volume, mid: nat)
    requires Owned(v, meta) && k < |v.inodes| && base <= from
    requires LoopAt(v.bpb, base, |data|, blocks, i, off, from - base) && i < blocks
    requires 0 <= LookupOrAllocate(v, k, i).1
    ensures base <= mid && (v', mid - base) == ChunkStep(v, k, i, off, from - base, data)
    ensures Wrote(v, v', k, meta, base, from, mid, data)
    ensures Owned(v', meta) && k < |v'.inodes| && LoopAt(v'.bpb, base, |data|, blocks, i + 1, 0, mid - base)
    ensures WriteFrom(v, k, i, blocks, off, from - base, data) == WriteFrom(v', k, i + 1, blocks, 0, mid - base, data)
  {
    assert off < v.bpb && from - base <= |data| && BlockStart(i, v.bpb) + off == from;
    WriteFromUnfolds(v, k, i, blocks, off, from - base, data);
    v', mid := ChunkStepWrote(v, k, i, off, base, from, data, meta);
    ChunkTiles(v.bpb, base, |data|, blocks, i, off, from - base);
    assert Owned(v', meta);
    hide *;
  }

  lemma {:induction false} WriteFromWrote(
    v: Volume, k: nat, i: nat, blocks: nat, off: nat, base: nat, from: nat, data: seq<byte>, meta: nat)
    returns (w: Written, to: nat)
    requires Owned(v, meta) && k < |v.inodes| && base <= from
    requires LoopAt(v.bpb, base, |data|, blocks, i, off, from - base)
    ensures w == WriteFrom(v, k, i, blocks, off, from - base, data)
    ensures to == base + w.done
    ensures Wrote(v, w.vol, k, meta, base, from, to, data)
    ensures w.complete ==> w.done == |data|
    decreases blocks - i
  {
    var done := from - base;
    if i == blocks {
      WroteNothing(v, k, meta, base, from, data);
      w, to := Written(v, done, true), from;
    } else if LookupOrAllocate(v, k, i).1 < 0 {
      WriteFromUnfolds(v, k, i, blocks, off, done, data);
      var v', _ := ChunkStepWrote(v, k, i, off, base, from, data, meta);
      w, to := Written(v', done, false), from;
    } else {
      var v', mid := StepGoesOn(v, k, i, blocks, off, base, from, data, meta);
      hide Wrote, Owned, LoopAt, WriteFrom, ChunkStep, LookupOrAllocate;
      w, to := WriteFromWrote(v', k, i + 1, blocks, 0, base, mid, data, meta);
      WroteThenWrote(v, v', w.vol, k, meta, base, from, mid, to, data);
    }
  }

  /** Recording a new length touches neither the file's bytes nor its blocks. */
  lemma LengthIsNotContent(v: Volume, k: nat, numBytes: nat, meta: nat)
    requires Owned(v, meta) && k < |v.inodes|
    ensures var v' := v.(inodes := v.inodes[k := v.inodes[k].(numBytes := numBytes)]);
            && Owned(v', meta) && OnlyFile(v, v', k, meta)
            && forall b: nat :: FileBlock(v', k, b) == FileBlock(v, k, b) && (Mapped(v', k, b) <==> Mapped(v, k, b))
  {
    var v' := v.(inodes := v.inodes[k := v.inodes[k].(numBytes := numBytes)]);
    assert forall j: nat, b: nat :: PointerAt(v'.inodes, j, b) == PointerAt(v.inodes, j, b);
  }

  /** A write whose loop runs to its end extends the recorded length to the end
      of the range; a short one leaves it, even when every byte was written. */
  lemma WriteLength(v: Volume, k: nat, start: nat, data: seq<byte>, meta: nat)
    requires Owned(v, meta) && k < |v.inodes|
    ensures var length := v.inodes[k].numBytes;
            INodeWrite(v, k, start, data).0.inodes[k].numBytes
            == if WriteLoop(v, k, start, data).complete && start + |data| > length then start + |data| else length
  {
    var base := OffsetIn(start, v.bpb);
    SpanFromOffset(start, |data|, v.bpb);
    var w, _ := WriteFromWrote(v, k, 0, BlockSpan(start, |data|, v.bpb), base, base, base, data, meta);
    WriteFromKeepsLength(v, k, 0, BlockSpan(start, |data|, v.bpb), base, 0, data);
  }

  lemma {:induction false} WriteFromKeepsLength(v: Volume, k: nat, i: nat, blocks: nat, off: nat, done: nat,
                                                data: seq<byte>)
    requires WellShaped(v) && k < |v.inodes| && i <= blocks && off < v.bpb && done <= |data|
    ensures WriteFrom(v, k, i, blocks, off, done, data).vol.inodes[k].numBytes == v.inodes[k].numBytes
    decreases blocks - i
  {
    if i < blocks && 0 <= LookupOrAllocate(v, k, i).1 < |v.disk| {
      WriteFromUnfolds(v, k, i, blocks, off, done, data);
      var (v', done') := ChunkStep(v, k, i, off, done, data);
      WriteFromKeepsLength(v', k, i + 1, blocks, 0, done', data);
    }
  }

  /** Byte p of the file once `data` stands in it from `base` on. */
  ghost predicate FileByteAfter(v: Volume, v': Volume, k: nat, base: nat, data: seq<byte>, p: nat)
    requires WellShaped(v) && WellShaped(v') && k < |v.inodes| && k < |v'.inodes|
  {
    if base <= p < base + |data| then FileByte(v', k, p) == data[p - base]
    else Mapped(v, k, BlockOf(p, v.bpb)) || FreeIsZero(v) ==> FileByte(v', k, p) == FileByte(v, k, p)
  }

  ghost predicate FileAfter(v: Volume, v': Volume, k: nat, base: nat, data: seq<byte>)
    requires WellShaped(v) && WellShaped(v') && k < |v.inodes| && k < |v'.inodes|
  {
    forall p: nat :: FileByteAfter(v, v', k, base, data, p)
  }

  /** The same view, position by position. */
  lemma WroteByPosition(v: Volume, w: Volume, v': Volume, k: nat, meta: nat, base: nat, to: nat, data: seq<byte>)
    requires Wrote(v, w, k, meta, base, base, to, data)
    requires WellShaped(v') && k < |v'.inodes| && v'.bpb == v.bpb
    requires forall b: nat :: FileBlock(v', k, b) == FileBlock(w, k, b)
    ensures FileAfter(v, v', k, base, data[..to - base])
  {
    var part := data[..to - base];
    forall p: nat
      ensures FileByteAfter(v, v', k, base, part, p)
    {
      assert ByteAfter(v, w, k, base, base, to, data, BlockOf(p, v.bpb), OffsetIn(p, v.bpb));
    }
  }

  /** Recording the length of a write changes nothing else. */
  lemma RecordedWrote(v: Volume, w: Written, k: nat, start: nat, meta: nat, base: nat, to: nat, data: seq<byte>)
    requires Wrote(v, w.vol, k, meta, base, base, to, data)
    ensures k < |w.vol.inodes| && Owned(Recorded(w, k, start), meta) && OnlyFile(v, Recorded(w, k, start), k, meta)
    ensures FileAfter(v, Recorded(w, k, start), k, base, data[..to - base])
  {
    var v' := Recorded(w, k, start);
    if v' != w.vol {
      LengthIsNotContent(w.vol, k, start + w.done, meta);
      OnlyFileTransitive(v, w.vol, v', k, meta);
    }
    WroteByPosition(v, w.vol, v', k, meta, base, to, data);
  }

  /** What a write does. The bytes it reports written stand in the file from
      offset `start % bpb` on; every other byte of a mapped block is unchanged,
      and so is every byte at all while free blocks hold zeros. No other file
      and no metadata block changes, and the ownership invariant is kept. This
      holds for complete and for short writes alike; a complete one reports
      every byte. */
  lemma WriteEffect(v: Volume, k: nat, start: nat, data: seq<byte>, meta: nat)
    returns (v': Volume, n: nat)
    requires Owned(v, meta) && k < |v.inodes|
    ensures (v', n) == INodeWrite(v, k, start, data)
    ensures n <= |data| && (WriteLoop(v, k, start, data).complete ==> n == |data|)
    ensures Owned(v', meta) && OnlyFile(v, v', k, meta)
    ensures FileAfter(v, v', k, OffsetIn(start, v.bpb), data[..n])
  {
    var base := OffsetIn(start, v.bpb);
    SpanFromOffset(start, |data|, v.bpb);
    var w, to := WriteFromWrote(v, k, 0, BlockSpan(start, |data|, v.bpb), base, base, base, data, meta);
    v', n := Recorded(w, k, start), w.done;
    RecordedWrote(v, w, k, start, meta, base, to, data);
  }

  /** Byte j of a read from `from` on, before and after a write at `start` that
      reported `data` written. */
  ghost predicate ReadByteAfter(v: Volume, k: nat, start: nat, data: seq<byte>, from: nat, before: seq<byte>,
                                after: seq<byte>, j: nat)
    requires WellShaped(v) && k < |v.inodes| && j < |before| == |after|
  {
    var p := from + j;
    if start <= p < start + |data| then after[j] == data[p - start]
    else Mapped(v, k, BlockOf(p, v.bpb)) || FreeIsZero(v) ==> after[j] == before[j]
  }

  lemma RangesOverWrite(v: Volume, v': Volume, k: nat, start: nat, data: seq<byte>, from: nat, n: nat)
    requires WellShaped(v) && WellShaped(v') && k < |v.inodes| && k < |v'.inodes|
    requires FileAfter(v, v', k, start, data)
    ensures forall j :: 0 <= j < n ==>
      ReadByteAfter(v, k, start, data, from, FileRange(v, k, from, n), FileRange(v', k, from, n), j)
  {
    var before, after := FileRange(v, k, from, n), FileRange(v', k, from, n);
    forall j | 0 <= j < n
      ensures ReadByteAfter(v, k, start, data, from, before, after, j)
    {
      assert FileByteAfter(v, v', k, start, data, from + j);
    }
  }

  /** Read over write, for ranges that start in the first block: a later read
      of any range returns the bytes the write reported inside their positions
      and, elsewhere, the bytes an earlier read would have returned, in every
      block that was mapped, or everywhere while free blocks hold zeros. */
  lemma ReadOverWrite(v: Volume, k: nat, start: nat, data: seq<byte>, from: nat, n: nat, meta: nat)
    returns (v': Volume, written: nat, before: seq<byte>, after: seq<byte>)
    requires Owned(v, meta) && k < |v.inodes| && start < v.bpb && from < v.bpb
    ensures (v', written) == INodeWrite(v, k, start, data) && written <= |data|
    ensures before == INodeRead(v, k, from, n) && after == INodeRead(v', k, from, n)
    ensures |before| == |after| == n
    ensures forall j :: 0 <= j < n ==> ReadByteAfter(v, k, start, data[..written], from, before, after, j)
  {
    assert v.bpb > 0 && OffsetIn(start, v.bpb) == start && OffsetIn(from, v.bpb) == from;
    hide *;
    v', written := WriteEffect(v, k, start, data, meta);
    OwnedInRange(v, k, meta);
    OwnedInRange(v', k, meta);
    ReadIsView(v, k, from, n);
    ReadIsView(v', k, from, n);
    before, after := FileRange(v, k, from, n), FileRange(v', k, from, n);
    RangesOverWrite(v, v', k, start, data[..written], from, n);
  }

  /** Files are independent: a write to one never changes what a read of
      another returns. */
  lemma ReadOfOtherFile(v: Volume, k: nat, start: nat, data: seq<byte>, other: nat, from: nat, n: nat, meta: nat)
    requires Owned(v, meta) && k < |v.inodes| && other < |v.inodes| && other != k
    ensures INodeRead(INodeWrite(v, k, start, data).0, other, from, n) == INodeRead(v, other, from, n)
  {
    var v', _ := WriteEffect(v, k, start, data, meta);
    OwnedInRange(v, other, meta);
    OwnedInRange(v', other, meta);
    ReadIsView(v, other, from, n);
    ReadIsView(v', other, from, n);
  }

  // ---------- the start offset ----------

  /** A full device of two blocks with one file: its first block is all ones and
      its other blocks are holes. */
  function OnesThenHole(bpb: nat): (v: Volume)
    requires bpb > 0
    ensures WellShaped(v) && |v.inodes| == 1 && v.bpb == bpb
    ensures forall b: nat :: FileBlock(v, 0, b) == if b == 0 then seq(bpb, _ => 1) else Zeros(bpb)
  {
    var ptrs := seq(POINTERS, b => if b == 0 then 1 else 0);
    Volume(bpb, [Zeros(bpb), seq(bpb, _ => 1)], [3], 2, [BLANK_INODE.(ptrs := ptrs)])
  }

  lemma OnesThenHoleIsOwned(bpb: nat)
    requires bpb > 0
    ensures Owned(OnesThenHole(bpb), 1) && FreeIsZero(OnesThenHole(bpb))
    ensures forall a :: 0 <= a < 2 ==> GetBit(OnesThenHole(bpb).bits, a)
  {
    var bits: seq<byte> := [3];
    assert GetBit(bits, 0) && GetBit(bits, 1);
    assert forall k: nat, b: nat :: PointerAt(OnesThenHole(bpb).inodes, k, b) == if k == 0 && b == 0 then 1 else 0;
  }

  /** A read returns the bytes at `start` for every file exactly when the range
      starts in the first block, or is empty. */
  lemma ReadHonoursStart(bpb: nat, start: nat, n: nat)
    requires bpb > 0
    ensures start < bpb || n == 0 <==>
      forall v: Volume, k: nat, meta: nat | Owned(v, meta) && k < |v.inodes| && v.bpb == bpb ::
        INodeRead(v, k, start, n) == FileRange(v, k, start, n)
  {
    forall v: Volume, k: nat, meta: nat | Owned(v, meta) && k < |v.inodes| && v.bpb == bpb
      ensures INodeRead(v, k, start, n) == FileRange(v, k, OffsetIn(start, bpb), n)
    {
      OwnedInRange(v, k, meta);
      ReadIsView(v, k, start, n);
    }
    if start >= bpb && n > 0 {
      var v := OnesThenHole(bpb);
      OnesThenHoleIsOwned(bpb);
      OwnedInRange(v, 0, 1);
      assert BlockOf(OffsetIn(start, bpb), bpb) == 0 && BlockOf(start, bpb) > 0;
      assert FileRange(v, 0, OffsetIn(start, bpb), n)[0] == 1;
      assert FileRange(v, 0, start, n)[0] == 0;
      ReadIsView(v, 0, start, n);
      assert Owned(v, 1) && INodeRead(v, 0, start, n) != FileRange(v, 0, start, n);
    }
  }

  /** The bytes that a write reports stand at `start` afterwards. */
  ghost predicate WriteHonours(v: Volume, k: nat, start: nat, data: seq<byte>)
    requires WellShaped(v) && k < |v.inodes|
  {
    var (v', written) := INodeWrite(v, k, start, data);
    written <= |data| && FileRange(v', k, start, written) == data[..written]
  }

  lemma RangeOfWritten(v: Volume, v': Volume, k: nat, start: nat, data: seq<byte>)
    requires WellShaped(v) && WellShaped(v') && k < |v.inodes| && k < |v'.inodes|
    requires data != [] ==> FileAfter(v, v', k, start, data)
    ensures FileRange(v', k, start, |data|) == data
  {
    hide FileAfter;
    forall j | 0 <= j < |data|
      ensures FileRange(v', k, start, |data|)[j] == data[j]
    {
      ByteOfWritten(v, v', k, start, data, j);
    }
  }

  lemma ByteOfWritten(v: Volume, v': Volume, k: nat, start: nat, data: seq<byte>, j: nat)
    requires WellShaped(v) && WellShaped(v') && k < |v.inodes| && k < |v'.inodes|
    requires FileAfter(v, v', k, start, data) && j < |data|
    ensures FileByte(v', k, start + j) == data[j]
  {
    hide FileByte;
    assert FileByteAfter(v, v', k, start, data, start + j);
  }

  lemma StartInFirstBlock(v: Volume, k: nat, start: nat, data: seq<byte>, meta: nat)
    requires Owned(v, meta) && k < |v.inodes| && (start < v.bpb || data == [])
    ensures WriteHonours(v, k, start, data)
  {
    var v', n := WriteEffect(v, k, start, data, meta);
    assert WellShaped(v') && k < |v'.inodes| && WellShaped(v);
    assert start < v.bpb ==> OffsetIn(start, v.bpb) == start;
    hide Owned, OnlyFile, FileAfter, INodeWrite, FileRange;
    RangeOfWritten(v, v', k, start, data[..n]);
  }

  /** On a full device a write stops behind the blocks that the file has. */
  lemma WriteToFull(bpb: nat, start: nat, data: seq<byte>)
    requires bpb > 0 && data != []
    ensures INodeWrite(OnesThenHole(bpb), 0, start, data).1 == Min(bpb - OffsetIn(start, bpb), |data|)
  {
    var v, off, blocks := OnesThenHole(bpb), OffsetIn(start, bpb), BlockSpan(start, |data|, bpb);
    OnesThenHoleIsOwned(bpb);
    SpanFromOffset(start, |data|, bpb);
    ChunkTiles(bpb, off, |data|, blocks, 0, off, 0);
    WriteFromUnfolds(v, 0, 0, blocks, off, 0, data);
    var (v', done) := ChunkStep(v, 0, 0, off, 0, data);
    assert Lookup(v.inodes[0], 0) == 1 && v'.inodes == v.inodes && v'.bits == v.bits && v'.count == 2;
    if blocks > 1 {
      WriteFromUnfolds(v', 0, 1, blocks, 0, done, data);
      assert FirstFree(v'.bits, 2) == -1;
    }
  }

  /** The bytes that a write reports stand at `start`, for every file and all
      data of a length, exactly when the range starts in the first block, or is
      empty. Whether the write completes makes no difference. */
  lemma WriteHonoursStart(bpb: nat, start: nat, n: nat)
    requires bpb > 0
    ensures start < bpb || n == 0 <==>
      forall v: Volume, k: nat, data: seq<byte>, meta: nat
        | Owned(v, meta) && k < |v.inodes| && v.bpb == bpb && |data| == n :: WriteHonours(v, k, start, data)
  {
    if start < bpb || n == 0 {
      forall v: Volume, k: nat, data: seq<byte>, meta: nat
        | Owned(v, meta) && k < |v.inodes| && v.bpb == bpb && |data| == n
        ensures WriteHonours(v, k, start, data)
      {
        StartInFirstBlock(v, k, start, data, meta);
      }
    } else {
      var v, data := OnesThenHole(bpb), seq(n, _ => 1);
      OnesThenHoleIsOwned(bpb);
      WriteToFull(bpb, start, data);
      var v', w := WriteEffect(v, 0, start, data, 1);
      assert BlockOf(start, bpb) > 0 && FileByteAfter(v, v', 0, OffsetIn(start, bpb), data[..w], start);
      assert FileRange(v', 0, start, w)[0] == 0 && data[..w][0] == 1;
      assert !WriteHonours(v, 0, start, data);
    }
  }
}
