/** Counting blocks: none leaks and none is used twice, exactly how many a write
    takes, and exactly when it completes. */
module Accounting {
  import opened Bytes
  import opened BitSets
  import opened INodes
  import opened Volumes
  import opened Ownership

  function PositiveCount(ptrs: seq<int>): nat {
    if ptrs == [] then 0
    else PositiveCount(ptrs[..|ptrs| - 1]) + (if ptrs[|ptrs| - 1] > 0 then 1 else 0)
  }

  /** The number of positive block pointers of all inodes, allocated or not. */
  function TotalPointers(inodes: seq<INode>): nat {
    if inodes == [] then 0
    else TotalPointers(inodes[..|inodes| - 1]) + PositiveCount(inodes[|inodes| - 1].ptrs)
  }

  lemma {:induction false} PositiveCountUpdate(ptrs: seq<int>, b: nat, a: int)
    requires b < |ptrs|
    ensures PositiveCount(ptrs[b := a])
         == PositiveCount(ptrs) - (if ptrs[b] > 0 then 1 else 0) + (if a > 0 then 1 else 0)
  {
    var n := |ptrs| - 1;
    if b == n {
      assert ptrs[b := a][..n] == ptrs[..n];
    } else {
      PositiveCountUpdate(ptrs[..n], b, a);
      assert ptrs[b := a][..n] == ptrs[..n][b := a];
    }
  }

  lemma {:induction false} TotalPointersUpdate(inodes: seq<INode>, k: nat, n: INode)
    requires k < |inodes|
    ensures TotalPointers(inodes[k := n])
         == TotalPointers(inodes) - PositiveCount(inodes[k].ptrs) + PositiveCount(n.ptrs)
  {
    var m := |inodes| - 1;
    if k == m {
      assert inodes[k := n][..m] == inodes[..m];
    } else {
      TotalPointersUpdate(inodes[..m], k, n);
      assert inodes[k := n][..m] == inodes[..m][k := n];
    }
  }

  /** Every used block is a metadata block or the block of exactly one pointer. */
  ghost predicate Conserved(v: Volume, meta: nat)
    requires WellShaped(v)
  {
    CountBits(v.bits, v.count) == meta + TotalPointers(v.inodes)
  }

  function FreeBlocks(v: Volume): nat
    requires WellShaped(v)
  {
    v.count - CountBits(v.bits, v.count)
  }

  lemma LookupConserves(v: Volume, k: nat, b: nat, meta: nat)
    requires Owned(v, meta) && k < |v.inodes|
    ensures var (v1, a) := LookupOrAllocate(v, k, b);
            && (Conserved(v, meta) ==> Conserved(v1, meta))
            && FreeBlocks(v1) == FreeBlocks(v) - (if !Mapped(v, k, b) && a >= 0 then 1 else 0)
            && (v.inodes[k].level == 0 && b < POINTERS ==> (a >= 0 <==> Mapped(v, k, b) || FreeBlocks(v) > 0))
  {
    var n := v.inodes[k];
    if n.level == 0 && b < POINTERS && n.ptrs[b] <= 0 {
      AllocateStep(v.bits, v.count);
      var a := Allocate(v.bits, v.count).1;
      PositiveCountUpdate(n.ptrs, b, a);
      TotalPointersUpdate(v.inodes, k, n.(ptrs := n.ptrs[b := a]));
    }
  }

  /** The blocks among i .. blocks - 1 that the file still lacks. */
  function Missing(n: INode, i: nat, blocks: nat): (m: nat)
    requires |n.ptrs| == POINTERS && i <= blocks
    ensures m <= blocks - i
    decreases blocks - i
  {
    if i == blocks then 0 else Missing(n, i + 1, blocks) + (if Lookup(n, i) < 0 then 1 else 0)
  }

  lemma {:induction false} MissingFrame(n: INode, n': INode, i: nat, blocks: nat)
    requires |n.ptrs| == |n'.ptrs| == POINTERS && n'.level == n.level && i <= blocks
    requires forall b :: i <= b < POINTERS ==> n'.ptrs[b] == n.ptrs[b]
    ensures Missing(n', i, blocks) == Missing(n, i, blocks)
    decreases blocks - i
  {
    if i < blocks {
      MissingFrame(n, n', i + 1, blocks);
    }
  }

  /** Iteration i takes a block exactly when the file lacks block i and the
      device has a free one, and then the file lacks one block less. */
  lemma StepAccounts(v: Volume, k: nat, i: nat, reach: nat, off: nat, done: nat, data: seq<byte>, meta: nat)
    returns (v': Volume, a: int)
    requires Owned(v, meta) && k < |v.inodes| && v.inodes[k].level == 0
    requires i < reach <= POINTERS && off < v.bpb && done <= |data|
    ensures v' == ChunkStep(v, k, i, off, done, data).0 && a == LookupOrAllocate(v, k, i).1
    ensures a < |v.disk| && |v'.inodes| == |v.inodes| && v'.inodes[k].level == 0 && |v'.inodes[k].ptrs| == POINTERS
    ensures Conserved(v, meta) ==> Conserved(v', meta)
    ensures Missing(v.inodes[k], i, reach) - Missing(v'.inodes[k], i + 1, reach) == if Mapped(v, k, i) then 0 else 1
    ensures a >= 0 <==> Mapped(v, k, i) || FreeBlocks(v) > 0
    ensures FreeBlocks(v') == FreeBlocks(v) - (if !Mapped(v, k, i) && a >= 0 then 1 else 0)
  {
    LookupConserves(v, k, i, meta);
    LookupKeepsOwned(v, k, i, meta);
    a := LookupOrAllocate(v, k, i).1;
    v' := ChunkStep(v, k, i, off, done, data).0;
    MissingFrame(v.inodes[k], v'.inodes[k], i + 1, reach);
  }

  /** What the iterations from i on take, and whether they complete. */
  ghost predicate Accounts(v: Volume, k: nat, i: nat, blocks: nat, w: Written, meta: nat)
    requires WellShaped(v) && k < |v.inodes| && i <= blocks && i <= POINTERS
  {
    var missing := Missing(v.inodes[k], i, Min(blocks, POINTERS));
    && WellShaped(w.vol) && (Conserved(v, meta) ==> Conserved(w.vol, meta))
    && (w.complete <==> blocks <= POINTERS && missing <= FreeBlocks(v))
    && FreeBlocks(w.vol) == FreeBlocks(v) - Min(missing, FreeBlocks(v))
  }

  /** An iteration that finds no block ends the write. */
  lemma StopAccounts(v: Volume, k: nat, i: nat, blocks: nat, off: nat, done: nat, data: seq<byte>, meta: nat)
    returns (w: Written)
    requires Owned(v, meta) && k < |v.inodes| && v.inodes[k].level == 0
    requires i < blocks && i <= POINTERS && off < v.bpb && done <= |data|
    requires LookupOrAllocate(v, k, i).1 < 0
    ensures w == WriteFrom(v, k, i, blocks, off, done, data) && !w.complete && w.done == done
    ensures Accounts(v, k, i, blocks, w, meta)
  {
    LookupConserves(v, k, i, meta);
    WriteFromUnfolds(v, k, i, blocks, off, done, data);
    w := WriteFrom(v, k, i, blocks, off, done, data);
    hide Conserved, Owned, CountBits, TotalPointers, WriteFrom;
  }

  /** An iteration that finds one, before those that follow it. */
  lemma StepThenAccounts(v: Volume, v': Volume, k: nat, i: nat, blocks: nat, w: Written, meta: nat)
    requires WellShaped(v) && WellShaped(v') && k < |v.inodes| && k < |v'.inodes| && i < blocks && i < POINTERS
    requires Conserved(v, meta) ==> Conserved(v', meta)
    requires var taken := if Mapped(v, k, i) then 0 else 1;
             && Missing(v.inodes[k], i, Min(blocks, POINTERS))
             == Missing(v'.inodes[k], i + 1, Min(blocks, POINTERS)) + taken
             && FreeBlocks(v') == FreeBlocks(v) - taken >= 0
    requires Accounts(v', k, i + 1, blocks, w, meta)
    ensures Accounts(v, k, i, blocks, w, meta)
  {
    hide Conserved, FreeBlocks, Missing, WellShaped;
  }

  lemma {:induction false} WriteFromAccounts(v: Volume, k: nat, i: nat, blocks: nat, off: nat, base: nat, from: nat,
                                             data: seq<byte>, meta: nat)
    returns (w: Written)
    requires Owned(v, meta) && k < |v.inodes| && v.inodes[k].level == 0 && base <= from
    requires LoopAt(v.bpb, base, |data|, blocks, i, off, from - base) && i <= POINTERS
    ensures w == WriteFrom(v, k, i, blocks, off, from - base, data)
    ensures Accounts(v, k, i, blocks, w, meta)
    decreases blocks - i
  {
    var done := from - base;
    if i == blocks {
      w := Written(v, done, true);
    } else if LookupOrAllocate(v, k, i).1 < 0 {
      hide Accounts, Owned;
      w := StopAccounts(v, k, i, blocks, off, done, data, meta);
    } else {
      var next, mid := StepGoesOn(v, k, i, blocks, off, base, from, data, meta);
      hide Conserved, Owned, LoopAt, FreeBlocks, ChunkStep, WriteFrom, Accounts;
      var v', a := StepAccounts(v, k, i, Min(blocks, POINTERS), off, done, data, meta);
      hide LookupOrAllocate;
      w := WriteFromAccounts(v', k, i + 1, blocks, 0, base, mid, data, meta);
      StepThenAccounts(v, v', k, i, blocks, w, meta);
    }
  }

  lemma RecordedAccounts(w: Written, k: nat, start: nat, meta: nat)
    requires WellShaped(w.vol) && k < |w.vol.inodes|
    ensures Conserved(w.vol, meta) ==> Conserved(Recorded(w, k, start), meta)
    ensures FreeBlocks(Recorded(w, k, start)) == FreeBlocks(w.vol)
  {
    TotalPointersUpdate(w.vol.inodes, k, w.vol.inodes[k].(numBytes := start + w.done));
  }

  /** A write completes exactly when its block loop stays below the number of
      pointers and the device has a free block for each one the file lacks. It
      takes those blocks, or all that are left when there are too few, and
      keeps the count of used blocks equal to metadata plus pointers. */
  lemma WriteAccounts(v: Volume, k: nat, start: nat, data: seq<byte>, meta: nat)
    returns (w: Written)
    requires Owned(v, meta) && k < |v.inodes| && v.inodes[k].level == 0
    ensures w == WriteLoop(v, k, start, data)
    ensures Conserved(v, meta) ==> Conserved(INodeWrite(v, k, start, data).0, meta)
    ensures var blocks := BlockSpan(start, |data|, v.bpb);
            var missing := Missing(v.inodes[k], 0, Min(blocks, POINTERS));
            && missing <= blocks
            && (w.complete <==> blocks <= POINTERS && missing <= FreeBlocks(v))
            && FreeBlocks(INodeWrite(v, k, start, data).0) == FreeBlocks(v) - Min(missing, FreeBlocks(v))
  {
    var base := OffsetIn(start, v.bpb);
    SpanFromOffset(start, |data|, v.bpb);
    w := WriteFromAccounts(v, k, 0, BlockSpan(start, |data|, v.bpb), base, base, base, data, meta);
    RecordedAccounts(w, k, start, meta);
  }

  // ---------- all bytes, but no length ----------

  /** Every block before the last iteration is mapped or can be. */
  predicate AllButLast(v: Volume, k: nat, i: nat, blocks: nat)
    requires WellShaped(v) && k < |v.inodes|
  {
    i <= blocks - 1 <= POINTERS && Missing(v.inodes[k], i, blocks - 1) <= FreeBlocks(v)
  }

  lemma StepAllButLast(v: Volume, k: nat, i: nat, blocks: nat, off: nat, done: nat, data: seq<byte>, meta: nat)
    returns (v': Volume)
    requires Owned(v, meta) && k < |v.inodes| && v.inodes[k].level == 0
    requires i < blocks - 1 && i < POINTERS && off < v.bpb && done <= |data| && LookupOrAllocate(v, k, i).1 >= 0
    ensures v' == ChunkStep(v, k, i, off, done, data).0
    ensures WellShaped(v') && k < |v'.inodes| && v'.inodes[k].level == 0
    ensures AllButLast(v, k, i, blocks) <==> AllButLast(v', k, i + 1, blocks)
  {
    var a;
    v', a := StepAccounts(v, k, i, if blocks - 1 <= POINTERS then blocks - 1 else POINTERS, off, done, data, meta);
    hide Conserved, Owned, FreeBlocks, ChunkStep, LookupOrAllocate;
  }

  /** A write that reports every byte although it does not complete. */
  predicate MissesLength(v: Volume, k: nat, i: nat, blocks: nat, base: nat, n: nat, w: Written)
    requires WellShaped(v) && k < |v.inodes| && blocks > 0
  {
    !w.complete ==> (w.done == n <==> BlockStart(blocks - 1, v.bpb) == base + n && AllButLast(v, k, i, blocks))
  }

  lemma StopReports(v: Volume, k: nat, i: nat, blocks: nat, off: nat, base: nat, from: nat, data: seq<byte>, meta: nat)
    returns (w: Written)
    requires Owned(v, meta) && k < |v.inodes| && v.inodes[k].level == 0 && base <= from && i < blocks
    requires LoopAt(v.bpb, base, |data|, blocks, i, off, from - base) && i <= POINTERS
    requires data != [] && (if i > 0 then off == 0 else from == base)
    requires LookupOrAllocate(v, k, i).1 < 0
    ensures w == WriteFrom(v, k, i, blocks, off, from - base, data)
    ensures MissesLength(v, k, i, blocks, base, |data|, w)
  {
    BlockStartsApart(i, blocks - 1, v.bpb);
    LookupConserves(v, k, i, meta);
    w := StopAccounts(v, k, i, blocks, off, from - base, data, meta);
    hide Conserved, Owned, LookupOrAllocate, WriteFrom, CountBits, BlockStart, Accounts;
  }

  /** Behind the last iteration the loop has completed. */
  lemma LastReports(v: Volume, next: Volume, k: nat, i: nat, blocks: nat, base: nat, done: nat, data: seq<byte>)
    returns (w: Written)
    requires WellShaped(v) && WellShaped(next) && k < |v.inodes| && k < |next.inodes| && done <= |data| && blocks > 0
    requires next.bpb > 0
    ensures w == WriteFrom(next, k, blocks, blocks, 0, done, data) && MissesLength(v, k, i, blocks, base, |data|, w)
  {
    w := WriteFrom(next, k, blocks, blocks, 0, done, data);
  }

  lemma MissesLater(v: Volume, next: Volume, k: nat, i: nat, blocks: nat, base: nat, n: nat, w: Written)
    requires WellShaped(v) && WellShaped(next) && k < |v.inodes| && k < |next.inodes| && v.bpb == next.bpb && blocks > 0
    requires MissesLength(next, k, i + 1, blocks, base, n, w)
    requires AllButLast(v, k, i, blocks) <==> AllButLast(next, k, i + 1, blocks)
    ensures MissesLength(v, k, i, blocks, base, n, w)
  {
    hide AllButLast;
  }

  /** A step leaves a volume of the same shape. */
  lemma StepShape(v: Volume, k: nat, i: nat, off: nat, done: nat, data: seq<byte>, meta: nat)
    requires Owned(v, meta) && k < |v.inodes| && off < v.bpb && done <= |data|
    requires LookupOrAllocate(v, k, i).1 >= 0
    ensures WellShaped(v) && v.bpb > 0 && i < POINTERS
    ensures var next := ChunkStep(v, k, i, off, done, data).0;
            WellShaped(next) && k < |next.inodes| && next.bpb == v.bpb
  {
    LookupKeepsOwned(v, k, i, meta);
    hide Conserved, FreeBlocks, LookupOrAllocate;
  }

  /** The iterations from i on report every byte of a nonempty write although
      they do not complete exactly when the range ends where the last iteration
      starts, which then moves nothing, and only that one finds no block. */
  lemma {:induction false} WriteFromReports(v: Volume, k: nat, i: nat, blocks: nat, off: nat, base: nat, from: nat,
                                            data: seq<byte>, meta: nat)
    returns (w: Written)
    requires Owned(v, meta) && k < |v.inodes| && v.inodes[k].level == 0 && base <= from && i < blocks
    requires LoopAt(v.bpb, base, |data|, blocks, i, off, from - base) && i <= POINTERS
    requires data != [] && (if i > 0 then off == 0 else from == base)
    ensures w == WriteFrom(v, k, i, blocks, off, from - base, data)
    ensures MissesLength(v, k, i, blocks, base, |data|, w)
    decreases blocks - i
  {
    var done := from - base;
    var stops := LookupOrAllocate(v, k, i).1 < 0;
    LoopBounds(v.bpb, base, |data|, blocks, i, off, done);
    hide *;
    if stops {
      w := StopReports(v, k, i, blocks, off, base, from, data, meta);
    } else {
      StepShape(v, k, i, off, done, data, meta);
      var next, mid := StepGoesOn(v, k, i, blocks, off, base, from, data, meta);
      LoopBounds(next.bpb, base, |data|, blocks, i + 1, 0, mid - base);
      if i < blocks - 1 {
        var v' := StepAllButLast(v, k, i, blocks, off, done, data, meta);
        w := WriteFromReports(next, k, i + 1, blocks, 0, base, mid, data, meta);
        MissesLater(v, next, k, i, blocks, base, |data|, w);
      } else {
        w := LastReports(v, next, k, i, blocks, base, mid - base, data);
      }
    }
  }

  /** A nonempty write reports every byte and still does not complete, so that
      the length of the file stays as it was, exactly when the range ends on a
      block boundary, there is a block for everything up to there, and none for
      the extra iteration behind it. */
  lemma AllBytesButNoLength(v: Volume, k: nat, start: nat, data: seq<byte>, meta: nat)
    returns (w: Written)
    requires Owned(v, meta) && k < |v.inodes| && v.inodes[k].level == 0 && data != []
    ensures w == WriteLoop(v, k, start, data)
    ensures var blocks := BlockSpan(start, |data|, v.bpb);
            w.done == |data| && !w.complete <==>
              && BlockStart(blocks - 1, v.bpb) == OffsetIn(start, v.bpb) + |data|
              && AllButLast(v, k, 0, blocks)
              && !(blocks <= POINTERS && Missing(v.inodes[k], 0, blocks) <= FreeBlocks(v))
    ensures !w.complete ==> INodeWrite(v, k, start, data).0.inodes[k].numBytes == v.inodes[k].numBytes
  {
    var base, blocks := OffsetIn(start, v.bpb), BlockSpan(start, |data|, v.bpb);
    SpanFromOffset(start, |data|, v.bpb);
    w := WriteFromReports(v, k, 0, blocks, base, base, base, data, meta);
    var w1 := WriteAccounts(v, k, start, data, meta);
    WriteLength(v, k, start, data, meta);
  }

  /** A device of three blocks with one free, and one empty file. */
  function OneFree(bpb: nat): (v: Volume)
    requires bpb > 0
    ensures WellShaped(v) && |v.inodes| == 1 && v.bpb == bpb && v.inodes[0] == BLANK_INODE
  {
    Volume(bpb, [Zeros(bpb), Zeros(bpb), Zeros(bpb)], [3], 3, [BLANK_INODE])
  }

  lemma OneFreeIsOwned(bpb: nat)
    requires bpb > 0
    ensures Owned(OneFree(bpb), 2) && Conserved(OneFree(bpb), 2) && FreeBlocks(OneFree(bpb)) == 1
  {
    var v := OneFree(bpb);
    var bits: seq<byte> := [3];
    assert GetBit(bits, 0) && GetBit(bits, 1) && !GetBit(bits, 2);
    assert forall k: nat, b: nat :: PointerAt(v.inodes, k, b) == 0;
    assert CountBits(bits, 1) == 1 && CountBits(bits, 2) == 2 && CountBits(bits, 3) == 2;
    TotalPointersUpdate(v.inodes, 0, v.inodes[0].(ptrs := []));
    NoPositivePointers(v.inodes[0].ptrs);
    assert v.inodes[..0] == [];
  }

  lemma {:induction false} NoPositivePointers(ptrs: seq<int>)
    requires forall b :: 0 <= b < |ptrs| ==> ptrs[b] <= 0
    ensures PositiveCount(ptrs) == 0
  {
    if ptrs != [] {
      NoPositivePointers(ptrs[..|ptrs| - 1]);
    }
  }

  /** There a write of one whole block at offset 0 reports every byte, every byte
      is in the file, and the file still has length 0. */
  lemma LengthMissed(bpb: nat, data: seq<byte>)
    returns (v: Volume, v': Volume)
    requires bpb > 0 && |data| == bpb
    ensures Owned(v, 2) && v == OneFree(bpb) && (v', |data|) == INodeWrite(v, 0, 0, data)
    ensures FileRange(v', 0, 0, bpb) == data
    ensures v'.inodes[0].numBytes == 0
  {
    v := OneFree(bpb);
    OneFreeIsOwned(bpb);
    PositionInBlock(bpb, 1, bpb);
    assert BlockStart(1, bpb) == bpb && BlockSpan(0, bpb, bpb) == 2 && OffsetIn(0, bpb) == 0;
    assert Missing(v.inodes[0], 2, 2) == 0 && Missing(v.inodes[0], 1, 2) == 1 && Missing(v.inodes[0], 0, 2) == 2;
    assert Missing(v.inodes[0], 1, 1) == 0 && Missing(v.inodes[0], 0, 1) == 1;
    var w := AllBytesButNoLength(v, 0, 0, data, 2);
    var n;
    v', n := WriteEffect(v, 0, 0, data, 2);
    assert data[..n] == data;
    forall j | 0 <= j < bpb
      ensures FileRange(v', 0, 0, bpb)[j] == data[j]
    {
      assert FileByteAfter(v, v', 0, 0, data, j);
    }
  }

  // ---------- the start offset of complete writes ----------

  /** A device with a free block for each pointer of its one file. */
  function AllFree(bpb: nat): (v: Volume)
    requires bpb > 0
    ensures WellShaped(v) && |v.inodes| == 1 && v.bpb == bpb && v.inodes[0] == BLANK_INODE
    ensures forall b: nat :: FileBlock(v, 0, b) == Zeros(bpb)
  {
    Volume(bpb, seq(POINTERS + 1, _ => Zeros(bpb)), SetBit(Zeros(3), 0), POINTERS + 1, [BLANK_INODE])
  }

  lemma AllFreeIsOwned(bpb: nat)
    requires bpb > 0
    ensures Owned(AllFree(bpb), 1) && FreeIsZero(AllFree(bpb)) && FreeBlocks(AllFree(bpb)) == POINTERS
  {
    var v := AllFree(bpb);
    assert forall i :: 0 <= i < 24 ==> !GetBit(Zeros(3), i);
    CountBitsOfClear(Zeros(3), POINTERS + 1);
    CountBitsOfSet(Zeros(3), 0, POINTERS + 1);
    assert GetBit(v.bits, 0);
    assert forall k: nat, b: nat :: PointerAt(v.inodes, k, b) == 0;
  }

  lemma CompleteOnAllFree(bpb: nat, start: nat, data: seq<byte>)
    requires bpb > 0 && BlockSpan(start, |data|, bpb) <= POINTERS
    ensures WriteLoop(AllFree(bpb), 0, start, data).complete
  {
    AllFreeIsOwned(bpb);
    hide AllFree, Owned, Conserved;
    var w := WriteAccounts(AllFree(bpb), 0, start, data, 1);
  }

  /** All the data of a write stands at `start` afterwards. */
  ghost predicate AllStands(v: Volume, k: nat, start: nat, data: seq<byte>)
    requires WellShaped(v) && k < |v.inodes|
  {
    FileRange(INodeWrite(v, k, start, data).0, k, start, |data|) == data
  }

  lemma CompleteWriteStands(v: Volume, k: nat, start: nat, data: seq<byte>, meta: nat)
    requires Owned(v, meta) && k < |v.inodes| && (start < v.bpb || data == []) && WriteLoop(v, k, start, data).complete
    ensures AllStands(v, k, start, data)
  {
    var v', w := WriteEffect(v, k, start, data, meta);
    StartInFirstBlock(v, k, start, data, meta);
    assert data[..w] == data;
  }

  /** Beyond the first block not even the last byte does. */
  lemma CompleteWriteMisses(bpb: nat, start: nat, n: nat)
    requires bpb > 0 && start >= bpb && n > 0 && BlockSpan(start, n, bpb) <= POINTERS
    ensures WriteLoop(AllFree(bpb), 0, start, seq(n, _ => 1)).complete
    ensures !AllStands(AllFree(bpb), 0, start, seq(n, _ => 1))
  {
    var v, data, p := AllFree(bpb), seq(n, _ => 1), start + n - 1;
    AllFreeIsOwned(bpb);
    CompleteOnAllFree(bpb, start, data);
    var v', w := WriteEffect(v, 0, start, data, 1);
    assert data[..w] == data && FileByteAfter(v, v', 0, OffsetIn(start, bpb), data, p);
    assert FileByte(v, 0, p) == 0;
    assert FileRange(v', 0, start, n)[n - 1] == FileByte(v', 0, p) == 0 && data[n - 1] == 1;
  }

  /** The same of writes that complete: for every length that a write can have,
      all of its data stands at `start` afterwards, for every file and all data,
      exactly when the range starts in the first block, or is empty. */
  lemma CompleteWriteHonoursStart(bpb: nat, start: nat, n: nat)
    requires bpb > 0 && BlockSpan(start, n, bpb) <= POINTERS
    ensures start < bpb || n == 0 <==>
      forall v: Volume, k: nat, data: seq<byte>, meta: nat
        | Owned(v, meta) && k < |v.inodes| && v.bpb == bpb && |data| == n && WriteLoop(v, k, start, data).complete ::
        AllStands(v, k, start, data)
  {
    hide WriteLoop, AllStands;
    if start < bpb || n == 0 {
      forall v: Volume, k: nat, data: seq<byte>, meta: nat
        | Owned(v, meta) && k < |v.inodes| && v.bpb == bpb && |data| == n && WriteLoop(v, k, start, data).complete
        ensures AllStands(v, k, start, data)
      {
        CompleteWriteStands(v, k, start, data, meta);
      }
    } else {
      AllFreeIsOwned(bpb);
      CompleteWriteMisses(bpb, start, n);
      assert Owned(AllFree(bpb), 1);
    }
  }
}
