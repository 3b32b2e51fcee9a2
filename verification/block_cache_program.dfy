/** The block cache as the program holds it: entries with buffers, updated in
    place, and a round-robin pointer. */
module BlockCacheProgram {
  import opened Bytes
  import opened BlockDevices
  import opened BlockCaches

  class BlockCacheEntry {
    var blockNum: int
    var isDirty: bool
    const buffer: array<byte>

    constructor (bytesPerBlock: nat)
      ensures blockNum == NO_BLOCK && !isDirty && fresh(buffer) && buffer[..] == Zeros(bytesPerBlock)
    {
      blockNum := NO_BLOCK;
      isDirty := false;
      buffer := new byte[bytesPerBlock](_ => 0);
    }
  }

  method ZeroBuffer(buffer: array<byte>)
    modifies buffer
    ensures buffer[..] == Zeros(buffer.Length)
  {
    for i := 0 to buffer.Length
      invariant buffer[..i] == Zeros(i)
    {
      buffer[i] := 0;
    }
    assert buffer[..buffer.Length] == buffer[..];
  }

  method FillBuffer(buffer: array<byte>, data: seq<byte>)
    requires |data| == buffer.Length
    modifies buffer
    ensures buffer[..] == data
  {
    for i := 0 to buffer.Length
      invariant buffer[..i] == data[..i]
    {
      buffer[i] := data[i];
    }
    assert buffer[..buffer.Length] == buffer[..] && data[..|data|] == data;
  }

  /** Fresh entries, each with a buffer of its own. */
  method MakeEntries(count: nat, bytesPerBlock: nat) returns (es: seq<BlockCacheEntry>)
    ensures |es| == count && forall i :: 0 <= i < count ==>
      fresh(es[i]) && fresh(es[i].buffer) && es[i].blockNum == NO_BLOCK
      && !es[i].isDirty && es[i].buffer[..] == Zeros(bytesPerBlock)
    ensures forall i, j :: 0 <= i < j < count ==> es[i] != es[j] && es[i].buffer != es[j].buffer
  {
    es := [];
    for k := 0 to count
      invariant |es| == k && forall i :: 0 <= i < k ==>
        fresh(es[i]) && fresh(es[i].buffer) && es[i].blockNum == NO_BLOCK
        && !es[i].isDirty && es[i].buffer[..] == Zeros(bytesPerBlock)
      invariant forall i, j :: 0 <= i < j < k ==> es[i] != es[j] && es[i].buffer != es[j].buffer
    {
      var e := new BlockCacheEntry(bytesPerBlock);
      es := es + [e];
    }
  }

  class BlockCache {
    const device: BlockDevice
    const cacheArray: seq<BlockCacheEntry>
    var roundRobinNext: nat
    ghost var slots: seq<Slot>

    ghost function Parts(): set<object> {
      (set i | 0 <= i < |cacheArray| :: cacheArray[i]) + (set i | 0 <= i < |cacheArray| :: cacheArray[i].buffer)
    }

    /** Entries and buffers are all different, and hold what the slots say. */
    ghost predicate Valid()
      reads this, device, Parts()
    {
      && device.Valid() && |slots| == |cacheArray| && roundRobinNext < |cacheArray|
      && (forall i, j :: 0 <= i < j < |cacheArray| ==>
            cacheArray[i] != cacheArray[j] && cacheArray[i].buffer != cacheArray[j].buffer)
      && forall i :: 0 <= i < |cacheArray| ==> EntryHolds(i, slots[i])
    }

    ghost predicate EntryHolds(i: nat, s: Slot)
      requires i < |cacheArray|
      reads cacheArray[i], cacheArray[i].buffer
    {
      && s == Slot(cacheArray[i].blockNum, cacheArray[i].isDirty, cacheArray[i].buffer[..])
      && cacheArray[i].buffer.Length == device.bytesPerBlock
    }

    ghost function View(): Cache
      reads this, device
    {
      Cache(device.bytesPerBlock, device.blocks, slots, roundRobinNext)
    }

    /** A cache of empty slots. */
    constructor (device: BlockDevice, count: nat)
      requires device.Valid() && count > 0
      ensures Valid() && fresh(Parts()) && this.device == device
      ensures View() == EmptyCache(device.blocks, device.bytesPerBlock, count)
    {
      this.device := device;
      roundRobinNext := 0;
      slots := seq(count, _ => Slot(NO_BLOCK, false, Zeros(device.bytesPerBlock)));
      var es := MakeEntries(count, device.bytesPerBlock);
      cacheArray := es;
    }

    /** The entry of a cached block, or null. */
    method GetCacheEntry(addr: int) returns (bce: BlockCacheEntry?, ghost p: nat)
      requires Valid()
      ensures p == FindSlot(slots, addr, 0) && (bce != null <==> IsCached(View(), addr))
      ensures bce != null ==> bce == cacheArray[p]
    {
      for i := 0 to |cacheArray|
        invariant FindSlot(slots, addr, 0) == FindSlot(slots, addr, i)
      {
        assert EntryHolds(i, slots[i]);
        if cacheArray[i].blockNum == addr {
          return cacheArray[i], i;
        }
      }
      return null, |cacheArray|;
    }

    /** The buffer of a cached block, or null. */
    method GetCachedBlock(addr: int) returns (buf: array?<byte>)
      requires Valid()
      ensures buf != null <==> IsCached(View(), addr)
      ensures buf != null ==> buf[..] == slots[FindSlot(slots, addr, 0)].buf
    {
      ghost var p;
      var bce;
      bce, p := GetCacheEntry(addr);
      if bce == null {
        return null;
      }
      assert EntryHolds(p, slots[p]);
      return bce.buffer;
    }

    /** Moves the pointer to the next clean slot, or once around. */
    method FindClean() returns (found: bool)
      requires Valid()
      modifies this`roundRobinNext
      ensures Valid() && (found, roundRobinNext) == Scan(slots, old(roundRobinNext), |slots|)
    {
      var count := |cacheArray|;
      for i := 0 to count
        invariant Valid() && Scan(slots, old(roundRobinNext), count) == Scan(slots, roundRobinNext, count - i)
      {
        NextSlotIsModulo(roundRobinNext, count);
        roundRobinNext := (roundRobinNext + 1) % count;
        assert EntryHolds(roundRobinNext, slots[roundRobinNext]);
        if !cacheArray[roundRobinNext].isDirty {
          return true;
        }
      }
      return false;
    }

    /** A slot for a block: the first clean one after the pointer, or the one at
        the pointer once it has been written to the device. */
    method AllocCacheBlock(blockNum: int) returns (bce: BlockCacheEntry, ghost p: nat)
      requires Valid()
      modifies this, device, Parts()
      ensures Valid() && (View(), p) == BlockCaches.AllocCacheBlock(old(View()), blockNum) && bce == cacheArray[p]
    {
      ghost var c := View();
      var found := FindClean();
      p := roundRobinNext;
      bce := cacheArray[roundRobinNext];
      hide Scan;
      assert EntryHolds(p, slots[p]);
      if !found {
        assert bce.buffer[0..device.bytesPerBlock] == bce.buffer[..];
        var zok := device.WriteBlock(bce.blockNum, bce.buffer, 0);
      }
      bce.blockNum := blockNum;
      ZeroBuffer(bce.buffer);
      slots := slots[p := Slot(blockNum, bce.isDirty, Zeros(device.bytesPerBlock))];
      assert forall j :: 0 <= j < |slots| && j != p ==> EntryHolds(j, c.slots[j]);
    }

    /** Caches a block. */
    method DoCacheBlock(blockNum: int) returns (bce: BlockCacheEntry, ghost p: nat)
      requires Valid()
      modifies this, device, Parts()
      ensures Valid() && (View(), p) == BlockCaches.DoCacheBlock(old(View()), blockNum) && bce == cacheArray[p]
    {
      bce, p := AllocCacheBlock(blockNum);
      ghost var c := View();
      assert EntryHolds(p, slots[p]);
      bce.blockNum := blockNum;
      bce.isDirty := false;
      var zok := device.ReadBlock(blockNum, bce.buffer, 0);
      assert bce.buffer[..] == if 0 <= blockNum < |c.disk| then c.disk[blockNum] else c.slots[p].buf;
      slots := slots[p := Slot(blockNum, false, bce.buffer[..])];
      assert forall j :: 0 <= j < |slots| && j != p ==> EntryHolds(j, c.slots[j]);
    }

    /** The entry of a block, cached first if need be. */
    method Fetch(addr: nat) returns (bce: BlockCacheEntry, ghost p: nat)
      requires Valid()
      modifies this, device, Parts()
      ensures Valid() && (View(), p) == Cached(old(View()), addr) && bce == cacheArray[p]
    {
      hide BlockCaches.DoCacheBlock, EntryHolds;
      var found;
      found, p := GetCacheEntry(addr);
      if found == null {
        bce, p := DoCacheBlock(addr);
      } else {
        bce := found;
      }
    }

    /** A client fills the buffer of an entry and marks it. */
    method Fill(bce: BlockCacheEntry, data: Block, ghost p: nat)
      requires Valid() && p < |cacheArray| && bce == cacheArray[p] && |data| == device.bytesPerBlock
      modifies this`slots, bce`isDirty, bce.buffer
      ensures Valid() && View() == WriteSlot(old(View()), p, data)
    {
      ghost var c := View();
      assert EntryHolds(p, slots[p]);
      FillBuffer(bce.buffer, data);
      bce.isDirty := true;
      slots := slots[p := slots[p].(dirty := true, buf := data)];
      assert forall j :: 0 <= j < |slots| && j != p ==> EntryHolds(j, c.slots[j]);
    }

    /** A request of a client: the buffer of the block is read, or written and marked. */
    method Request(q: Request) returns (block: Block)
      requires Valid() && (q.Put? ==> |q.data| == device.bytesPerBlock)
      modifies this, device, Parts()
      ensures Valid() && (View(), block) == Serve(old(View()), q)
    {
      hide Cached;
      ghost var p;
      var bce;
      bce, p := Fetch(q.addr);
      if q.Put? {
        Fill(bce, q.data, p);
      }
      assert EntryHolds(p, slots[p]);
      block := bce.buffer[..];
    }
  }
}
