/** The inode structure, its 128-byte layout, and the inode table on disk. */
module INodes {
  import opened Bytes

  const POINTERS: nat := 16
  const INODE_BYTES: nat := 128

  const UNUSED_STATUS: word := 0
  const ALLOCATED_STATUS: word := 1
  const FREE_STATUS: word := 2

  const UNUSED_TYPE: word := 0
  const DIRECTORY_TYPE: word := 2

  const INITIAL_UID: word := 0x1337f337
  const ALLOCATED_UID: word := 0xcafef00d
  const FREED_UID: word := 0xfeedfeed

  /** One inode. The group, the permissions and the two dates are carried along;
      the program assigns none of them. */
  datatype INode = INode(
    inodeNum: int, ownerUid: word, gid: word, itype: word, perms: half, status: word,
    linkCount: half, cdate: dword, mdate: dword, level: half, numBytes: nat, ptrs: seq<int>)

  function ZeroPointers(): (ptrs: seq<int>)
    ensures |ptrs| == POINTERS && forall b :: 0 <= b < POINTERS ==> ptrs[b] == 0
  {
    seq(POINTERS, _ => 0)
  }

  /** An inode in zeroed memory. */
  const BLANK_INODE: INode :=
    INode(0, 0, 0, UNUSED_TYPE, 0, UNUSED_STATUS, 0, 0, 0, 0, 0, ZeroPointers())

  /** The inode has the widths of the C structure. */
  predicate HasWidths(n: INode) {
    && IsInt32(n.inodeNum)
    && n.numBytes < 0x1_0000_0000 * 0x1_0000_0000
    && |n.ptrs| == POINTERS
    && forall b :: 0 <= b < POINTERS ==> IsInt32(n.ptrs[b])
  }

  lemma BlankINode()
    ensures HasWidths(BLANK_INODE) && BLANK_INODE.ptrs == ZeroPointers()
    ensures BLANK_INODE.level == 0 && BLANK_INODE.numBytes == 0
  {
    assert forall b :: 0 <= b < POINTERS ==> ZeroPointers()[b] == 0;
  }

  function INodeWords(n: INode): (ws: seq<word>)
    requires HasWidths(n)
    ensures |ws| == 32
  {
    [Unsigned(n.inodeNum), n.ownerUid, n.gid, n.itype,
     n.perms, n.status, n.linkCount, 0,
     LowWord(n.cdate), HighWord(n.cdate), LowWord(n.mdate), HighWord(n.mdate),
     n.level, 0, LowWord(n.numBytes), HighWord(n.numBytes)]
    + seq(POINTERS, b requires 0 <= b < POINTERS => Unsigned(n.ptrs[b]))
  }

  function EncodeINode(n: INode): (s: seq<byte>)
    requires HasWidths(n)
    ensures |s| == INODE_BYTES
  {
    WordsToBytes(INodeWords(n))
  }

  function DecodeINode(s: seq<byte>): INode
    requires |s| == INODE_BYTES
  {
    INode(Signed(WordAt(s, 0)), WordAt(s, 1), WordAt(s, 2), WordAt(s, 3), WordAt(s, 4) % 0x1_0000, WordAt(s, 5),
          WordAt(s, 6) % 0x1_0000, DwordAt(s, 8), DwordAt(s, 10), WordAt(s, 12) % 0x1_0000, DwordAt(s, 14),
          seq(POINTERS, b requires 0 <= b < POINTERS => Signed(WordAt(s, 16 + b))))
  }

  lemma INodeRoundTrip(n: INode)
    requires HasWidths(n)
    ensures DecodeINode(EncodeINode(n)) == n
  {
    hide WordsToBytes, WordAt;
    var ws := INodeWords(n);
    var s := EncodeINode(n);
    forall i: nat | i < 32
      ensures WordAt(s, i) == ws[i]
    {
      WordAtOfWords(ws, i);
    }
    forall b | 0 <= b < POINTERS
      ensures DecodeINode(s).ptrs[b] == n.ptrs[b]
    {
      assert WordAt(s, 16 + b) == ws[16 + b] == Unsigned(n.ptrs[b]);
    }
    assert forall i: nat :: i < 16 ==> WordAt(s, i) == ws[i];
  }

  /** Where the C structure has its fields, in words of four bytes. */
  predicate HasLayout(s: seq<byte>, n: INode)
    requires |s| == 128
  {
    && Signed(WordAt(s, 0)) == n.inodeNum && WordAt(s, 1) == n.ownerUid && WordAt(s, 2) == n.gid
    && WordAt(s, 3) == n.itype && WordAt(s, 4) == n.perms && WordAt(s, 5) == n.status
    && WordAt(s, 6) == n.linkCount && WordAt(s, 7) == 0
    && WordAt(s, 8) + 0x1_0000_0000 * WordAt(s, 9) == n.cdate
    && WordAt(s, 10) + 0x1_0000_0000 * WordAt(s, 11) == n.mdate
    && WordAt(s, 12) == n.level && WordAt(s, 13) == 0
    && WordAt(s, 14) + 0x1_0000_0000 * WordAt(s, 15) == n.numBytes
    && |n.ptrs| == 16 && forall b :: 0 <= b < 16 ==> Signed(WordAt(s, 16 + b)) == n.ptrs[b]
  }

  lemma INodeLayout(n: INode)
    returns (s: seq<byte>)
    requires HasWidths(n)
    ensures s == EncodeINode(n) && |s| == 128
    ensures HasLayout(s, n)
  {
    s := EncodeINode(n);
    hide WordsToBytes, WordAt, Signed, Unsigned, LowWord, HighWord;
    forall i: nat | i < 32
      ensures WordAt(s, i) == INodeWords(n)[i]
    {
      WordAtOfWords(INodeWords(n), i);
    }
    LayoutOfWords(n, s);
  }

  lemma LayoutOfWords(n: INode, s: seq<byte>)
    requires HasWidths(n) && |s| == 128 && forall i: nat :: i < 32 ==> WordAt(s, i) == INodeWords(n)[i]
    ensures HasLayout(s, n)
  {
    hide WordAt;
    var ws := INodeWords(n);
    assert forall i: nat :: i < 32 ==> WordAt(s, i) == ws[i];
  }

  predicate TableHasWidths(inodes: seq<INode>) {
    forall k :: 0 <= k < |inodes| ==> HasWidths(inodes[k])
  }

  /** The inode table as the C array lies in memory. */
  function EncodeTable(inodes: seq<INode>): (s: seq<byte>)
    requires TableHasWidths(inodes)
    ensures |s| == INODE_BYTES * |inodes|
  {
    if inodes == [] then [] else EncodeINode(inodes[0]) + EncodeTable(inodes[1..])
  }

  function Slot(s: seq<byte>, k: nat): (r: seq<byte>)
    requires INODE_BYTES * k + INODE_BYTES <= |s|
    ensures |r| == INODE_BYTES
  {
    s[INODE_BYTES * k..INODE_BYTES * k + INODE_BYTES]
  }

  function DecodeTable(s: seq<byte>, n: nat): (inodes: seq<INode>)
    requires INODE_BYTES * n <= |s|
    ensures |inodes| == n
  {
    seq(n, k requires 0 <= k < n => DecodeINode(Slot(s, k)))
  }

  lemma SlotBehind(first: seq<byte>, rest: seq<byte>, k: nat)
    requires |first| == INODE_BYTES && INODE_BYTES * k + INODE_BYTES <= |rest|
    ensures Slot(first + rest, k + 1) == Slot(rest, k)
  {
  }

  lemma {:induction false} TableSlot(inodes: seq<INode>, tail: seq<byte>, k: nat)
    requires TableHasWidths(inodes) && k < |inodes|
    ensures Slot(EncodeTable(inodes) + tail, k) == EncodeINode(inodes[k])
  {
    var first, rest := EncodeINode(inodes[0]), EncodeTable(inodes[1..]);
    ConcatAssociates(first, rest, tail);
    hide EncodeINode, HasWidths, Slot;
    if k > 0 {
      TableSlot(inodes[1..], tail, k - 1);
      SlotBehind(first, rest + tail, k - 1);
    } else {
      SlotAlone(first, rest + tail);
    }
  }

  lemma SlotAlone(first: seq<byte>, rest: seq<byte>)
    requires |first| == INODE_BYTES
    ensures Slot(first + rest, 0) == first
  {
  }

  /** The table is recovered from its bytes whatever follows them in memory. */
  lemma TableRoundTrip(inodes: seq<INode>, tail: seq<byte>)
    requires TableHasWidths(inodes)
    ensures DecodeTable(EncodeTable(inodes) + tail, |inodes|) == inodes
  {
    hide EncodeTable, EncodeINode, DecodeINode, HasWidths, Slot;
    forall k: nat | k < |inodes|
      ensures DecodeTable(EncodeTable(inodes) + tail, |inodes|)[k] == inodes[k]
    {
      TableSlot(inodes, tail, k);
      INodeRoundTrip(inodes[k]);
    }
  }

  // ---------- allocation of inodes ----------

  /** The least free inode number, or 0 when there is none. */
  function FindFree(inodes: seq<INode>, k: nat): (r: nat)
    requires k <= |inodes|
    ensures r == 0 || k <= r < |inodes|
    ensures r > 0 ==> inodes[r].status == FREE_STATUS && forall j :: k <= j < r ==> inodes[j].status != FREE_STATUS
    ensures r == 0 ==> (forall j :: k <= j < |inodes| ==> inodes[j].status != FREE_STATUS)
                       || (k == 0 && |inodes| > 0 && inodes[0].status == FREE_STATUS)
    decreases |inodes| - k
  {
    if k == |inodes| then 0
    else if inodes[k].status == FREE_STATUS then k
    else FindFree(inodes, k + 1)
  }

  function AllocateINode(inodes: seq<INode>): (r: (seq<INode>, nat))
    ensures |r.0| == |inodes| && (|inodes| > 0 ==> r.1 < |inodes|)
  {
    var k := FindFree(inodes, 0);
    if k < |inodes| && inodes[k].status == FREE_STATUS
    then (inodes[k := inodes[k].(status := ALLOCATED_STATUS, ownerUid := ALLOCATED_UID)], k)
    else (inodes, 0)
  }

  /** Frees an inode that is in use. Its pointers stay. */
  function FreeINode(inodes: seq<INode>, k: nat): (r: seq<INode>)
    requires k < |inodes| && inodes[k].status != FREE_STATUS && inodes[k].linkCount == 0
    ensures |r| == |inodes|
  {
    inodes[k := inodes[k].(ownerUid := FREED_UID, status := FREE_STATUS)]
  }

  /** An allocation takes the first inode with status 2, gives it status 1 and
      the owner word of an allocation, and changes nothing else. With none it
      answers 0 and changes nothing at all. */
  lemma AllocationEffect(inodes: seq<INode>)
    returns (after: seq<INode>, k: nat)
    ensures (after, k) == AllocateINode(inodes)
    ensures (forall j :: 0 <= j < |inodes| ==> inodes[j].status != 2) ==> after == inodes && k == 0
    ensures (exists j :: 0 <= j < |inodes| && inodes[j].status == 2) ==>
      && k < |inodes| && inodes[k].status == 2 && (forall j :: 0 <= j < k ==> inodes[j].status != 2)
      && after == inodes[k := inodes[k].(status := 1, ownerUid := 0xcafe_f00d)]
  {
    after, k := AllocateINode(inodes).0, AllocateINode(inodes).1;
  }

  /** A free gives the inode status 2 and the owner word of a free one, and
      changes nothing else. */
  lemma FreeEffect(inodes: seq<INode>, k: nat)
    returns (after: seq<INode>)
    requires k < |inodes| && inodes[k].status != 2 && inodes[k].linkCount == 0
    ensures after == FreeINode(inodes, k) && |after| == |inodes|
    ensures after[k].status == 2 && after[k].ownerUid == 0xfeed_feed
    ensures after[k].(status := inodes[k].status, ownerUid := inodes[k].ownerUid) == inodes[k]
    ensures forall j :: 0 <= j < |inodes| && j != k ==> after[j] == inodes[j]
  {
    after := FreeINode(inodes, k);
  }

  /** The inode freed is the next to be allocated, unless a lower one is free,
      and is then allocated again with all that it kept. */
  lemma FreedComesNext(inodes: seq<INode>, k: nat)
    requires k < |inodes| && inodes[k].status != 2 && inodes[k].linkCount == 0
    ensures (forall j :: 0 <= j < k ==> inodes[j].status != 2) <==> AllocateINode(FreeINode(inodes, k)).1 == k
    ensures (forall j :: 0 <= j < k ==> inodes[j].status != 2) ==>
      AllocateINode(FreeINode(inodes, k)).0 == inodes[k := inodes[k].(status := 1, ownerUid := 0xcafe_f00d)]
  {
    var freed := FreeEffect(inodes, k);
    var after, next := AllocationEffect(freed);
    assert freed[k].status == 2;
    if forall j :: 0 <= j < k ==> inodes[j].status != 2 {
      assert next == k;
    } else {
      var j :| 0 <= j < k && inodes[j].status == 2;
      assert freed[j].status == 2;
    }
  }

  /** The answer 0 is ambiguous: it is the failure answer, and it is also what
      the very first allocation returns. A caller can tell success from failure
      exactly when inode 0, the root, is already in use. */
  lemma ZeroMeansFailure(inodes: seq<INode>)
    requires |inodes| > 0
    ensures inodes[0].status != FREE_STATUS ==>
      (AllocateINode(inodes).1 == 0 <==> forall k :: 0 <= k < |inodes| ==> inodes[k].status != FREE_STATUS)
    ensures inodes[0].status == FREE_STATUS ==>
      AllocateINode(inodes).1 == 0 && AllocateINode(inodes).0[0].status == ALLOCATED_STATUS
  {
  }
}
