/** The write-back block cache with round-robin replacement, which has to look
    like the bare device to its clients. */
module BlockCaches {
  import opened Bytes
  import opened BlockDevices

  /** One cached block; a slot that holds none has block number -1. */
  datatype Slot = Slot(blockNum: int, dirty: bool, buf: Block)

  const NO_BLOCK: int := -1

  datatype Cache = Cache(bpb: nat, disk: seq<Block>, slots: seq<Slot>, next: nat)

  // ---------- lookups ----------

  /** The first slot from i on that holds the block, or the number of slots. */
  function FindSlot(slots: seq<Slot>, addr: int, i: nat): (r: nat)
    requires i <= |slots|
    ensures i <= r <= |slots|
    ensures r < |slots| ==> slots[r].blockNum == addr
    ensures forall j :: i <= j < r ==> slots[j].blockNum != addr
    decreases |slots| - i
  {
    if i == |slots| || slots[i].blockNum == addr then i else FindSlot(slots, addr, i + 1)
  }

  predicate IsCached(c: Cache, addr: int) {
    FindSlot(c.slots, addr, 0) < |c.slots|
  }

  // ---------- the replacement scan ----------

  /** The slot after p, round robin. */
  function NextSlot(p: nat, count: nat): (q: nat)
    requires p < count
    ensures q < count
  {
    if p + 1 == count then 0 else p + 1
  }

  lemma NextSlotIsModulo(p: nat, count: nat)
    requires p < count
    ensures NextSlot(p, count) == (p + 1) % count
  {
  }

  /** The slot i steps after p. */
  function Advance(p: nat, count: nat, i: nat): (q: nat)
    requires p < count && i <= count
    ensures q < count
  {
    if p + i < count then p + i else p + i - count
  }

  /** n steps of the scan from p: whether a clean slot was met, and where the
      pointer stops. */
  function Scan(slots: seq<Slot>, p: nat, n: nat): (r: (bool, nat))
    requires p < |slots|
    ensures r.1 < |slots| && (r.0 ==> !slots[r.1].dirty)
    decreases n
  {
    if n == 0 then (false, p)
    else
      var q := NextSlot(p, |slots|);
      if !slots[q].dirty then (true, q) else Scan(slots, q, n - 1)
  }

  /** p is the first clean slot that a scan meets after its first `done` steps. */
  ghost predicate FirstClean(slots: seq<Slot>, start: nat, done: nat, p: nat)
    requires start < |slots|
  {
    exists i :: done < i <= |slots| && IsFirstClean(slots, start, done, p, i)
  }

  ghost predicate IsFirstClean(slots: seq<Slot>, start: nat, done: nat, p: nat, i: nat)
    requires start < |slots| && i <= |slots|
  {
    && p == Advance(start, |slots|, i) && !slots[p].dirty
    && forall j :: done < j < i ==> slots[Advance(start, |slots|, j)].dirty
  }

  lemma {:induction false} ScanFrom(slots: seq<Slot>, start: nat, done: nat)
    requires start < |slots| && done <= |slots|
    ensures var r := Scan(slots, Advance(start, |slots|, done), |slots| - done);
            && (!r.0 ==> r.1 == start && forall j :: done < j <= |slots| ==> slots[Advance(start, |slots|, j)].dirty)
            && (r.0 ==> FirstClean(slots, start, done, r.1))
    decreases |slots| - done
  {
    var count := |slots|;
    if done < count {
      assert NextSlot(Advance(start, count, done), count) == Advance(start, count, done + 1);
      var r := Scan(slots, Advance(start, count, done), count - done);
      if slots[Advance(start, count, done + 1)].dirty {
        ScanFrom(slots, start, done + 1);
        if r.0 {
          var i :| done + 1 < i <= count && IsFirstClean(slots, start, done + 1, r.1, i);
          assert IsFirstClean(slots, start, done, r.1, i);
        }
      } else {
        assert IsFirstClean(slots, start, done, r.1, done + 1);
      }
    }
  }

  /** The steps 1 to count of a scan visit each slot exactly once. */
  lemma ScanVisitsEach(start: nat, count: nat, p: nat)
    requires start < count && p < count
    ensures exists i :: 1 <= i <= count && Advance(start, count, i) == p
    ensures forall i, j :: 1 <= i < j <= count ==> Advance(start, count, i) != Advance(start, count, j)
  {
    var i := if start < p then p - start else p - start + count;
    assert Advance(start, count, i) == p;
  }

  /** A full scan stops at a clean slot exactly when there is one, and at the
      first after its start; otherwise it comes back to its start. */
  lemma ScanFindsClean(slots: seq<Slot>, start: nat)
    requires start < |slots|
    ensures var (found, p) := Scan(slots, start, |slots|);
            && (found <==> exists i :: 0 <= i < |slots| && !slots[i].dirty)
            && (!found ==> p == start)
            && (found ==> FirstClean(slots, start, 0, p))
  {
    var (found, p) := Scan(slots, start, |slots|);
    ScanFrom(slots, start, 0);
    if !found {
      forall i | 0 <= i < |slots|
        ensures slots[i].dirty
      {
        ScanVisitsEach(start, |slots|, i);
        var j :| 1 <= j <= |slots| && Advance(start, |slots|, j) == i;
        assert slots[Advance(start, |slots|, j)].dirty;
      }
    }
  }

  // ---------- the operations ----------

  /** A slot for a block: a clean one if there is one, else the one the scan came
      back to, after it has been written to the device. */
  function AllocCacheBlock(c: Cache, blockNum: int): (r: (Cache, nat))
    requires c.next < |c.slots|
    ensures r.1 < |c.slots| == |r.0.slots| && r.0.next == r.1 && |r.0.disk| >= |c.disk| && r.0.bpb == c.bpb
  {
    var (found, p) := Scan(c.slots, c.next, |c.slots|);
    var disk := if found then c.disk else StoreBlock(c.disk, c.bpb, c.slots[p].blockNum, c.slots[p].buf);
    (Cache(c.bpb, disk, c.slots[p := Slot(blockNum, c.slots[p].dirty, Zeros(c.bpb))], p), p)
  }

  /** Caches a block. */
  function DoCacheBlock(c: Cache, blockNum: int): (r: (Cache, nat))
    requires c.next < |c.slots|
    ensures r.1 < |c.slots| == |r.0.slots| && r.0.next == r.1
  {
    var (c1, p) := AllocCacheBlock(c, blockNum);
    var buf := if 0 <= blockNum < |c1.disk| then c1.disk[blockNum] else c1.slots[p].buf;
    (c1.(slots := c1.slots[p := Slot(blockNum, false, buf)]), p)
  }

  /** A client writes to a cached block and marks it. */
  function WriteSlot(c: Cache, p: nat, buf: Block): Cache
    requires p < |c.slots|
  {
    c.(slots := c.slots[p := c.slots[p].(dirty := true, buf := buf)])
  }

  /** A cache looks for a slot from the one behind its pointer on, i slots
      further, round robin: the first clean one, or all the way round. */
  ghost predicate Picks(slots: seq<Slot>, next: nat, i: nat)
    requires next < |slots|
  {
    && 1 <= i <= |slots|
    && (forall j :: 1 <= j < i ==> slots[Advance(next, |slots|, j)].dirty)
    && (slots[Advance(next, |slots|, i)].dirty ==> i == |slots|)
  }

  lemma AdvanceIsModulo(p: nat, count: nat, i: nat)
    requires p < count && i <= count
    ensures Advance(p, count, i) == (p + i) % count
  {
    if p + i >= count {
      assert p + i - count < count;
    }
  }

  lemma ScanPicks(slots: seq<Slot>, next: nat)
    returns (i: nat)
    requires next < |slots|
    ensures Picks(slots, next, i)
    ensures Scan(slots, next, |slots|) == (!slots[Advance(next, |slots|, i)].dirty, Advance(next, |slots|, i))
  {
    var n := |slots|;
    ScanFrom(slots, next, 0);
    if Scan(slots, next, n).0 {
      i :| 0 < i <= n && IsFirstClean(slots, next, 0, Scan(slots, next, n).1, i);
    } else {
      i := n;
    }
  }

  /** The slot picked gets the block number and a buffer of zeros. It keeps its
      flag; if it was dirty, its block is written to the device first. Nothing
      else changes. */
  lemma AllocCacheBlockCases(c: Cache, blockNum: int)
    returns (c': Cache, p: nat, i: nat)
    requires c.next < |c.slots|
    ensures (c', p) == AllocCacheBlock(c, blockNum)
    ensures Picks(c.slots, c.next, i) && p == (c.next + i) % |c.slots| == c'.next && c'.bpb == c.bpb
    ensures c'.slots == c.slots[p := Slot(blockNum, c.slots[p].dirty, seq(c.bpb, _ => 0))]
    ensures !c.slots[p].dirty ==> c'.disk == c.disk
    ensures c.slots[p].dirty && 0 <= c.slots[p].blockNum < |c.disk| ==>
      c'.disk == c.disk[c.slots[p].blockNum := c.slots[p].buf]
  {
    c', p := AllocCacheBlock(c, blockNum).0, AllocCacheBlock(c, blockNum).1;
    i := ScanPicks(c.slots, c.next);
    AdvanceIsModulo(c.next, |c.slots|, i);
    hide Scan;
  }

  /** Caching a block fills that slot from the device, or with zeros when the
      device has no such block, and leaves it clean. */
  lemma DoCacheBlockCases(c: Cache, blockNum: int)
    returns (c': Cache, p: nat, i: nat)
    requires c.next < |c.slots|
    ensures (c', p) == DoCacheBlock(c, blockNum) && c'.disk == AllocCacheBlock(c, blockNum).0.disk
    ensures Picks(c.slots, c.next, i) && p == (c.next + i) % |c.slots| == c'.next && c'.bpb == c.bpb
    ensures var buf := if 0 <= blockNum < |c'.disk| then c'.disk[blockNum] else seq(c.bpb, _ => 0);
            c'.slots == c.slots[p := Slot(blockNum, false, buf)]
  {
    var c1;
    c1, p, i := AllocCacheBlockCases(c, blockNum);
    c' := DoCacheBlock(c, blockNum).0;
  }

  // ---------- the view of the clients ----------

  /** No block is cached twice; a slot without dirt agrees with the device. */
  ghost predicate CacheOk(c: Cache) {
    var sized := IsDisk(c.disk, c.bpb) && c.next < |c.slots|;
    var slots := forall i :: 0 <= i < |c.slots| ==> SlotOk(c, c.slots[i]);
    var once := forall i, j :: 0 <= i < j < |c.slots| && c.slots[i].blockNum != NO_BLOCK ==>
      c.slots[i].blockNum != c.slots[j].blockNum;
    var holds := sized && slots && once;
    holds
  }

  predicate SlotOk(c: Cache, s: Slot) {
    && |s.buf| == c.bpb
    && (s.blockNum == NO_BLOCK || 0 <= s.blockNum < |c.disk|)
    && (!s.dirty && s.blockNum != NO_BLOCK ==> s.buf == c.disk[s.blockNum])
    && (s.blockNum == NO_BLOCK ==> !s.dirty)
  }

  /** Block a as the clients see it: the cached copy, or the device's. */
  function Seen(c: Cache, a: nat): Block
    requires a < |c.disk|
  {
    var p := FindSlot(c.slots, a, 0);
    if p < |c.slots| then c.slots[p].buf else c.disk[a]
  }

  /** The whole device as the clients see it. */
  function Overlay(c: Cache): (r: seq<Block>)
    ensures |r| == |c.disk|
  {
    seq(|c.disk|, a requires 0 <= a < |c.disk| => Seen(c, a))
  }

  lemma FoundIs(c: Cache, p: nat)
    requires CacheOk(c) && p < |c.slots| && c.slots[p].blockNum != NO_BLOCK
    ensures FindSlot(c.slots, c.slots[p].blockNum, 0) == p
  {
    var q := FindSlot(c.slots, c.slots[p].blockNum, 0);
    assert q <= p;
  }

  /** What the clients see of block a, by the slot that holds it. */
  lemma SeenIn(c: Cache, a: nat, p: nat)
    requires CacheOk(c) && a < |c.disk| && p < |c.slots| && c.slots[p].blockNum == a
    ensures Seen(c, a) == c.slots[p].buf
  {
    FoundIs(c, p);
  }

  lemma NotCached(c: Cache, a: int)
    ensures !IsCached(c, a) <==> forall i :: 0 <= i < |c.slots| ==> c.slots[i].blockNum != a
  {
  }

  /** Caching a block that is not cached writes back at most the one victim, and
      that only when every slot is dirty; the clients see no difference. */
  lemma DoCacheBlockKeeps(c: Cache, blockNum: nat)
    returns (c': Cache, p: nat)
    requires CacheOk(c) && blockNum < |c.disk| && !IsCached(c, blockNum)
    ensures (c', p) == DoCacheBlock(c, blockNum)
    ensures CacheOk(c') && |c'.disk| == |c.disk| && c'.slots[p] == Slot(blockNum, false, Seen(c, blockNum))
    ensures Overlay(c') == Overlay(c)
    ensures (exists i :: 0 <= i < |c.slots| && !c.slots[i].dirty) ==> c'.disk == c.disk
    ensures !(exists i :: 0 <= i < |c.slots| && !c.slots[i].dirty) ==>
      p == c.next && 0 <= c.slots[p].blockNum < |c.disk| && c'.disk == c.disk[c.slots[p].blockNum := c.slots[p].buf]
  {
    ScanFindsClean(c.slots, c.next);
    NotCached(c, blockNum);
    c', p := DoCacheBlock(c, blockNum).0, DoCacheBlock(c, blockNum).1;
    assert CacheOk(c');
    forall a | 0 <= a < |c.disk|
      ensures Seen(c', a) == Seen(c, a)
    {
      SeenAfter(c, c', p, blockNum, a);
    }
  }

  lemma SeenAfter(c: Cache, c': Cache, p: nat, blockNum: nat, a: nat)
    requires CacheOk(c) && CacheOk(c') && p < |c.slots| && blockNum < |c.disk| && !IsCached(c, blockNum)
    requires |c'.disk| == |c.disk| && a < |c.disk|
    requires c'.slots == c.slots[p := Slot(blockNum, false, c.disk[blockNum])]
    requires c'.disk == c.disk || (c.slots[p].blockNum >= 0 && c'.disk == c.disk[c.slots[p].blockNum := c.slots[p].buf])
    requires c.slots[p].dirty ==> c.slots[p].blockNum >= 0 && c'.disk == c.disk[c.slots[p].blockNum := c.slots[p].buf]
    ensures Seen(c', a) == Seen(c, a)
  {
    NotCached(c, blockNum);
    NotCached(c, a);
    NotCached(c', a);
    if a == blockNum {
      SeenIn(c', a, p);
    } else if c.slots[p].blockNum == a {
      SeenIn(c, a, p);
    } else {
      var q := FindSlot(c.slots, a, 0);
      if q < |c.slots| {
        SeenIn(c, a, q);
        SeenIn(c', a, q);
      }
    }
  }

  /** A client's write changes the block it is for and no other. */
  lemma WriteSlotKeeps(c: Cache, p: nat, buf: Block)
    returns (c': Cache)
    requires CacheOk(c) && p < |c.slots| && c.slots[p].blockNum != NO_BLOCK && |buf| == c.bpb
    ensures c' == WriteSlot(c, p, buf) && CacheOk(c') && |c'.disk| == |c.disk|
    ensures Overlay(c') == Overlay(c)[c.slots[p].blockNum := buf]
  {
    c' := WriteSlot(c, p, buf);
    forall a | 0 <= a < |c.disk|
      ensures Seen(c', a) == if a == c.slots[p].blockNum then buf else Seen(c, a)
    {
      NotCached(c, a);
      NotCached(c', a);
      if a == c.slots[p].blockNum {
        SeenIn(c', a, p);
      } else {
        var q := FindSlot(c.slots, a, 0);
        if q < |c.slots| {
          SeenIn(c, a, q);
          SeenIn(c', a, q);
        }
      }
    }
  }

  // ---------- runs ----------

  /** What a client does: looks at a block, or writes one. A block that is not
      cached is cached first. */
  datatype Request = Get(addr: nat) | Put(addr: nat, data: Block)

  function Cached(c: Cache, addr: nat): (r: (Cache, nat))
    requires c.next < |c.slots|
    ensures r.1 < |c.slots| == |r.0.slots| && r.0.next < |r.0.slots|
  {
    var p := FindSlot(c.slots, addr, 0);
    if p < |c.slots| then (c, p) else DoCacheBlock(c, addr)
  }

  /** The cache after a request, and the contents of the buffer it was for. */
  function Serve(c: Cache, q: Request): (r: (Cache, Block))
    requires c.next < |c.slots|
    ensures r.0.next < |r.0.slots|
  {
    var (c1, p) := Cached(c, q.addr);
    var c2 := if q.Put? then WriteSlot(c1, p, q.data) else c1;
    (c2, c2.slots[p].buf)
  }

  function ServeAll(c: Cache, qs: seq<Request>): (Cache, seq<Block>)
    requires c.next < |c.slots|
    decreases |qs|
  {
    if qs == [] then (c, [])
    else
      var (c1, b) := Serve(c, qs[0]);
      var (c2, bs) := ServeAll(c1, qs[1..]);
      (c2, [b] + bs)
  }

  /** The same on a plain device. */
  function ServePlain(disk: seq<Block>, q: Request): (r: (seq<Block>, Block))
    requires q.addr < |disk|
    ensures |r.0| == |disk|
  {
    if q.Put? then (disk[q.addr := q.data], q.data) else (disk, disk[q.addr])
  }

  function ServeAllPlain(disk: seq<Block>, qs: seq<Request>): (seq<Block>, seq<Block>)
    requires forall i :: 0 <= i < |qs| ==> qs[i].addr < |disk|
    decreases |qs|
  {
    if qs == [] then (disk, [])
    else
      var (disk1, b) := ServePlain(disk, qs[0]);
      var (disk2, bs) := ServeAllPlain(disk1, qs[1..]);
      (disk2, [b] + bs)
  }

  predicate Fits(qs: seq<Request>, count: nat, bpb: nat) {
    forall i :: 0 <= i < |qs| ==> qs[i].addr < count && (qs[i].Put? ==> |qs[i].data| == bpb)
  }

  lemma ServeIsPlain(c: Cache, q: Request)
    returns (c': Cache)
    requires CacheOk(c) && q.addr < |c.disk| && (q.Put? ==> |q.data| == c.bpb)
    ensures c' == Serve(c, q).0 && CacheOk(c') && |c'.disk| == |c.disk| && c'.bpb == c.bpb
    ensures (Overlay(c'), Serve(c, q).1) == ServePlain(Overlay(c), q)
  {
    var p := FindSlot(c.slots, q.addr, 0);
    var c1 := c;
    if p < |c.slots| {
      SeenIn(c, q.addr, p);
    } else {
      c1, p := DoCacheBlockKeeps(c, q.addr);
    }
    c' := c1;
    assert c1.slots[p].blockNum == q.addr && c1.slots[p].buf == Overlay(c)[q.addr];
    if q.Put? {
      c' := WriteSlotKeeps(c1, p, q.data);
    }
  }

  /** Over every run of requests the cache answers as the plain device would,
      and what its clients see is the contents of that device. */
  lemma {:induction false} CacheRefinesDevice(c: Cache, qs: seq<Request>)
    requires CacheOk(c) && Fits(qs, |c.disk|, c.bpb)
    ensures var (c', answers) := ServeAll(c, qs);
            CacheOk(c') && |c'.disk| == |c.disk| && (Overlay(c'), answers) == ServeAllPlain(Overlay(c), qs)
    decreases |qs|
  {
    if qs != [] {
      var c1 := ServeIsPlain(c, qs[0]);
      CacheRefinesDevice(c1, qs[1..]);
    }
  }

  // ---------- the start ----------

  /** A cache of n empty slots. */
  function EmptyCache(disk: seq<Block>, bpb: nat, n: nat): Cache {
    Cache(bpb, disk, seq(n, _ => Slot(NO_BLOCK, false, Zeros(bpb))), 0)
  }

  lemma EmptyCacheOk(disk: seq<Block>, bpb: nat, n: nat)
    requires IsDisk(disk, bpb) && n > 0
    ensures CacheOk(EmptyCache(disk, bpb, n)) && Overlay(EmptyCache(disk, bpb, n)) == disk
  {
    var c := EmptyCache(disk, bpb, n);
    forall a | 0 <= a < |disk|
      ensures Seen(c, a) == disk[a]
    {
      NotCached(c, a);
    }
  }

  /** Slots of zeroed memory, block number included. The allocation zeroes its
      memory, but it never gets to such slots: it has no entries, only pointers
      to them, all NULL, and follows the first. */
  function ZeroedCache(disk: seq<Block>, bpb: nat, n: nat): Cache {
    Cache(bpb, disk, seq(n, _ => Slot(0, false, Zeros(bpb))), 0)
  }

  /** With entries in place, zeroing would still be no way to start: such slots
      claim to hold block 0. The clients would see the device exactly when its
      block 0 holds zeros; the invariant would hold exactly when, besides, there
      is one slot only. */
  lemma ZeroedCacheClaimsBlockZero(disk: seq<Block>, bpb: nat, n: nat)
    requires IsDisk(disk, bpb) && n > 0 && disk != []
    ensures Overlay(ZeroedCache(disk, bpb, n)) == disk <==> disk[0] == Zeros(bpb)
    ensures CacheOk(ZeroedCache(disk, bpb, n)) <==> disk[0] == Zeros(bpb) && n == 1
  {
    var c := ZeroedCache(disk, bpb, n);
    assert FindSlot(c.slots, 0, 0) == 0 && Overlay(c)[0] == Seen(c, 0) == Zeros(bpb);
    forall a | 1 <= a < |disk|
      ensures Seen(c, a) == disk[a]
    {
      NotCached(c, a);
    }
    assert SlotOk(c, c.slots[0]) <==> disk[0] == Zeros(bpb);
    if n > 1 {
      assert c.slots[0].blockNum == c.slots[1].blockNum;
    }
  }
}
