/** Sessions of the shell behave like sessions on a tree of names. */
module Sessions {
  import opened Bytes
  import opened BitSets
  import opened INodes
  import opened Volumes
  import opened DirectoryText
  import opened DirectoryStore
  import opened Forests
  import opened NameTrees
  import opened WriteBack
  import opened DirtyTracking
  import opened Metadata
  import opened Shells

  // ---------- the invariant ----------

  /** The layout that newfs gave the device is still in place. */
  ghost predicate Formatted(v: Volume, meta: nat) {
    var sized := WellShaped(v) && INODE_BYTES <= v.bpb < 0x8000_0000 && 0 < v.count < 0x8000_0000
      && |v.disk| == v.count && 1 < |v.inodes| < 0x8000_0000;
    var layout := sized && meta == MetadataBlocks(v.count, v.bpb, |v.inodes|) < v.count
      && BlockMapFits(v.count, v.bpb) && BlockStart(BlockMapBlocks(v.count, v.bpb), v.bpb) <= HEADER_BYTES + |v.bits|;
    var table := sized && TableFillsBlocks(|v.inodes|, v.bpb);
    var master := layout && HoldsMaster(v.disk[0], MasterOf(v, 0));
    var holds := sized && layout && table && master;
    holds
  }

  /** Inode k is directory k of the tree, or free and without blocks. */
  ghost predicate INodesMatch(inodes: seq<INode>, t: Tree) {
    && |t.dirs| <= |inodes|
    && (forall k :: 0 <= k < |inodes| ==> inodes[k].inodeNum == k)
    && (forall k :: 0 <= k < |t.dirs| ==> inodes[k].status == ALLOCATED_STATUS && inodes[k].itype == DIRECTORY_TYPE)
    && (forall k, b :: |t.dirs| <= k < |inodes| && 0 <= b < |inodes[k].ptrs| ==> inodes[k].ptrs[b] <= 0)
    && (forall k :: |t.dirs| <= k < |inodes| ==> inodes[k].status == FREE_STATUS)
  }

  ghost predicate VolumeOk(v: Volume, t: Tree, meta: nat) {
    var holds := Roomy(v, meta, |t.dirs|) && Formatted(v, meta)
                 && IsTree(t) && Storable(t, v.bpb) && INodesMatch(v.inodes, t);
    holds
  }

  /** Every directory outside `stale` is stored as the tree has it; one that the
      cache has loaded has been written, too. */
  ghost predicate InSync(v: Volume, t: Tree, loaded: set<nat>, stale: set<nat>)
    requires WellShaped(v) && |t.dirs| <= |v.inodes|
  {
    forall c: nat :: c < |t.dirs| && c !in stale ==> Synced(v, t, c) && (c in loaded ==> UpToDate(v, t, c))
  }

  /** The states of a cache between two commands: clean, or clean but for a
      child just added to the current directory, or the bare root of a volume
      just mounted. */
  datatype Phase = AllClean | ChildPending | JustMounted

  predicate InPhase(cache: Forest, cur: Path, phase: Phase) {
    match phase
    case AllClean => IsClean(cache)
    case ChildPending => PendingAt(cache, cur)
    case JustMounted => cache == NewEntry(0, CStr(ROOT_LITERAL, ROOT_NAME)) && cur == []
  }

  /** Only with a pending child is a directory not in step with the disk, and
      then it is the current one. */
  function Stale(phase: Phase, t: Tree): set<nat> {
    if phase == ChildPending then {t.cwd} else {}
  }

  ghost predicate BetweenCommands(l: Live, t: Tree)
    requires WellShaped(l.vol) && |t.dirs| <= |l.vol.inodes|
  {
    exists phase :: InPhase(l.cache, l.cur, phase) && InSync(l.vol, t, Loaded(l.cache), Stale(phase, t))
  }

  ghost predicate LiveOk(l: Live, t: Tree, meta: nat) {
    var volume := VolumeOk(l.vol, t, meta) && l.mb == MasterOf(l.vol, 0);
    var cache := l.next >= FIRST_ADDRESS && ShowsTree(l.cache, l.cur, t, l.next);
    var flags := volume && BetweenCommands(l, t);
    var holds := volume && cache && flags;
    holds
  }

  // ---------- a flush in the states the shell reaches ----------

  lemma INodesKept(v: Volume, v': Volume, w: set<nat>, t: Tree, meta: nat)
    requires Updated(v, v', w, t, meta) && INodesMatch(v.inodes, t)
    ensures INodesMatch(v'.inodes, t)
  {
    hide Roomy, UpToDate, StoredBlock;
    forall k | 0 <= k < |v.inodes|
      ensures v'.inodes[k].inodeNum == v.inodes[k].inodeNum && v'.inodes[k].status == v.inodes[k].status
      ensures v'.inodes[k].itype == v.inodes[k].itype && (k >= |t.dirs| ==> v'.inodes[k] == v.inodes[k])
    {
      assert v'.inodes[k].(ptrs := [], numBytes := 0) == v.inodes[k].(ptrs := [], numBytes := 0);
    }
  }

  /** The invariants of the volume survive the writing of directories, and those
      written are no longer stale. */
  lemma VolumeAfterUpdates(v: Volume, v': Volume, w: set<nat>, t: Tree, meta: nat, loaded: set<nat>, stale: set<nat>)
    requires VolumeOk(v, t, meta) && Updated(v, v', w, t, meta)
    requires InSync(v, t, loaded, stale)
    ensures VolumeOk(v', t, meta) && MasterOf(v', 0) == MasterOf(v, 0)
    ensures InSync(v', t, loaded + w, stale - w)
  {
    INodesKept(v, v', w, t, meta);
    forall c: nat | c < |t.dirs| && c !in stale - w
      ensures Synced(v', t, c) && (c in loaded + w ==> UpToDate(v', t, c))
    {
      if c !in w {
        assert StoredBlock(v', c) == StoredBlock(v, c);
      }
    }
  }

  lemma {:induction false} ShowsFit(f: Forest, p: int, es: seq<Entry>, t: Tree, next: nat, bpb: nat)
    requires Shows(f, p, es, t, next) && Storable(t, bpb)
    ensures TextsFit(f, bpb)
    decreases f
  {
    if f.Node? {
      ShowsFit(f.sib, p, es[1..], t, next, bpb);
      if f.kids.Node? {
        ShowsFit(f.kids, f.num, ListingOf(t, f.num), t, next, bpb);
        ShowsEntries(f.kids, f.num, ListingOf(t, f.num), t, next);
      }
    }
  }

  /** A flush from the root, in any state between commands, is defined, leaves
      the cache clean and brings every directory in step with the disk. */
  lemma FlushSettles(l: Live, t: Tree, meta: nat)
    returns (cache: Forest, vol: Volume)
    requires LiveOk(l, t, meta)
    ensures Flushable(l)
    ensures (cache, vol) == Flush(l.cache, l.vol)
    ensures cache == Bare(l.cache)
    ensures VolumeOk(vol, t, meta) && MasterOf(vol, 0) == MasterOf(l.vol, 0) && InSync(vol, t, {}, {})
  {
    ShowsInTable(l.cache, -1, ROOT_LISTING, t, l.next, |l.vol.inodes|);
    ShowsFit(l.cache, -1, ROOT_LISTING, t, l.next, l.vol.bpb);
    FlushClears(l.cache, l.vol);
    FlushUpdates(l.cache, -1, ROOT_LISTING, l.vol, t, l.next, meta);
    cache, vol := Flush(l.cache, l.vol).0, Flush(l.cache, l.vol).1;
    var phase :| InPhase(l.cache, l.cur, phase) && InSync(l.vol, t, Loaded(l.cache), Stale(phase, t));
    var stale := Stale(phase, t);
    if phase == AllClean {
      CleanIsTidy(l.cache);
    } else if phase == ChildPending {
      PendingIsTidy(l.cache, l.cur);
      LeadsToEntry(l.cache, -1, l.cur, t.cwd);
    }
    VolumeAfterUpdates(l.vol, vol, FlushTargets(l.cache), t, meta, Loaded(l.cache), stale);
    assert stale - FlushTargets(l.cache) == {};
  }

  // ---------- caching the current directory ----------

  lemma DotIsLegal()
    ensures LegalName(DOT_NAME)
  {
  }

  /** Loading a directory that is in step with the disk yields its listing. */
  lemma LoadsListing(v: Volume, t: Tree, c: nat)
    requires WellShaped(v) && c < |t.dirs| <= |v.inodes| && Storable(t, v.bpb) && Synced(v, t, c)
    ensures var es := Parse(StoredBlock(v, c));
            && |Words(StoredBlock(v, c))| % 2 == 0 && (v.bpb > 0 ==> NUL in StoredBlock(v, c))
            && (es == ListingOf(t, c) || (es == [] && t.dirs[c] == []))
            && Pipes(StoredBlock(v, c)) <= |ListingOf(t, c)|
  {
    var listing := ListingOf(t, c);
    DotIsLegal();
    forall i | 0 <= i < |listing|
      ensures LegalName(listing[i].name)
    {
      if i > 0 { assert listing[i] == ChildAt(t, c, i - 1); }
    }
    WordsOfPrint(listing, v.bpb);
    ParseOfZeros(v.bpb);
    if v.bpb > 0 { assert Zeros(v.bpb)[0] == NUL; }
  }

  lemma ListingNumbers(t: Tree, c: nat)
    requires IsTree(t) && c < |t.dirs|
    ensures forall i :: 0 <= i < |ListingOf(t, c)| ==> 0 <= ListingOf(t, c)[i].num < |t.dirs|
  {
    assert forall i :: 1 <= i < |ListingOf(t, c)| ==> ListingOf(t, c)[i] == ChildAt(t, c, i - 1);
  }

  /** The entry has been cached: its children show its directory. */
  predicate HasChildren(f: Forest, t: Tree, next: nat) {
    var holds := f.Node? && f.kids.Node? && f.kids.name.addr != f.name.addr
      && f.num < |t.dirs| && Shows(f.kids, f.num, ListingOf(t, f.num), t, next);
    holds
  }

  /** The children that loading adds. */
  lemma LoadShows(f: Forest, es: seq<Entry>, t: Tree, next: nat)
    returns (f1: Forest)
    requires f.Node? && f.kids.Nil? && IsTree(t) && f.num < |t.dirs|
    requires DOT_LITERAL < f.name.addr < next && next >= FIRST_ADDRESS
    requires es == ListingOf(t, f.num)
    ensures (forall i :: 0 <= i < |es| ==> 0 <= es[i].num) && f1 == f.(kids := Load(Nil, es, next))
    ensures AllNew(f1.kids) && HasChildren(f1, t, next + |es|)
  {
    ListingNumbers(t, f.num);
    f1 := f.(kids := Load(Nil, es, next));
    LoadNew(Nil, es, next);
    LoadKeepsFirst(Nil, es, next);
    ShowsLoaded(Nil, f.num, [], es, t, next);
    assert [] + es == es;
  }

  /** An empty directory gets its "." entry. */
  lemma DotShows(f: Forest, t: Tree, next: nat)
    returns (f1: Forest)
    requires f.Node? && f.num < |t.dirs| && t.dirs[f.num] == [] && DOT_LITERAL < f.name.addr < next
    ensures f1 == f.(kids := NewEntry(f.num, CStr(DOT_LITERAL, DOT_NAME)))
    ensures AllNew(f1.kids) && HasChildren(f1, t, next)
  {
    f1 := f.(kids := NewEntry(f.num, CStr(DOT_LITERAL, DOT_NAME)));
    assert ListingOf(t, f.num)[1..] == [];
  }

  /** Caching an entry that has not been cached. */
  lemma CachedShows(f: Forest, v: Volume, t: Tree, next: nat)
    returns (f1: Forest, next1: nat)
    requires WellShaped(v) && IsTree(t) && |t.dirs| <= |v.inodes| && Storable(t, v.bpb)
    requires f.Node? && f.kids.Nil? && f.num < |t.dirs| && Synced(v, t, f.num)
    requires DOT_LITERAL < f.name.addr < next && next >= FIRST_ADDRESS
    ensures NumbersInTable(Stored(f, v), |v.inodes|) && (f1, next1) == Cached(f, v, next)
    ensures f1.Node? && f1 == f.(kids := f1.kids) && next <= next1
    ensures AllNew(f1.kids) && HasChildren(f1, t, next1)
  {
    hide Parse, StoredBlock, Print, PrintBlock, Shows;
    LoadsListing(v, t, f.num);
    ListingNumbers(t, f.num);
    var es := Stored(f, v);
    next1 := next + |es|;
    if es != [] {
      f1 := LoadShows(f, es, t, next);
    } else {
      f1 := DotShows(f, t, next);
    }
  }

  /** The entry of the current directory shows its directory. */
  lemma CurrentEntry(cache: Forest, cur: Path, t: Tree, next: nat)
    returns (f: Forest, p: int, es: seq<Entry>)
    requires ShowsTree(cache, cur, t, next)
    ensures f == At(cache, cur) && f.Node? && f.num == t.cwd > p && t.cwd < |t.dirs|
    ensures Shows(f, p, es, t, next) && DOT_LITERAL < f.name.addr < next
    ensures f.kids.Node? ==> HasChildren(f, t, next)
  {
    f := At(cache, cur);
    p, es := ShowsAt(cache, -1, ROOT_LISTING, t, next, cur, t.cwd);
  }

  /** Its flags, in the three states between commands. */
  lemma CurrentFlags(cache: Forest, cur: Path)
    requires At(cache, cur).Node?
    ensures IsClean(cache) ==> IsClean(At(cache, cur))
    ensures PendingAt(cache, cur) ==> PendingAt(At(cache, cur), []) && At(cache, cur).kids.Node?
  {
    if IsClean(cache) {
      AtOfClean(cache, cur);
    }
    if PendingAt(cache, cur) {
      AtOfPending(cache, cur);
    }
  }

  /** A directory that is in step with the disk can be loaded. */
  lemma SyncedIsLoadable(f: Forest, v: Volume, t: Tree)
    requires WellShaped(v) && IsTree(t) && |t.dirs| <= |v.inodes| && Storable(t, v.bpb)
    requires f.Node? && f.num < |t.dirs| && Synced(v, t, f.num)
    ensures Loadable(f, v)
  {
    hide StoredBlock, Parse, Words, Print, PrintBlock;
    LoadsListing(v, t, f.num);
    ListingNumbers(t, f.num);
    assert t.dirs[f.num] == [] ==> ListingOf(t, f.num) == [Entry(DOT_NAME, f.num)];
  }

  /** Before the current directory is cached it is in step with the disk. */
  lemma EnterIsDefined(l: Live, t: Tree, meta: nat)
    requires LiveOk(l, t, meta)
    ensures Enterable(l)
    ensures At(l.cache, l.cur).kids.Nil? ==> Synced(l.vol, t, t.cwd)
  {
    var f, p, es := CurrentEntry(l.cache, l.cur, t, l.next);
    CurrentFlags(l.cache, l.cur);
    var phase :| InPhase(l.cache, l.cur, phase) && InSync(l.vol, t, Loaded(l.cache), Stale(phase, t));
    ShowsInTable(l.cache, -1, ROOT_LISTING, t, l.next, |l.vol.inodes|);
    ShowsFit(l.cache, -1, ROOT_LISTING, t, l.next, l.vol.bpb);
    hide Loadable;
    if f.kids.Nil? {
      SyncedIsLoadable(f, l.vol, t);
    }
  }

  /** The current entry once it is cached: what it shows, and that one flush
      from it clears everything and writes at most its directory. */
  lemma CachedCurrent(l: Live, t: Tree, meta: nat, phase: Phase)
    returns (f1: Forest, next1: nat, p: int, es: seq<Entry>)
    requires LiveOk(l, t, meta) && Enterable(l)
    requires At(l.cache, l.cur).kids.Nil? ==> Synced(l.vol, t, t.cwd)
    requires InPhase(l.cache, l.cur, phase)
    ensures var f := At(l.cache, l.cur);
            && f.Node? && f.num == t.cwd && (f1, next1) == Cached(f, l.vol, l.next)
            && f1 == f.(kids := f1.kids) && l.next <= next1
            && (phase == ChildPending ==> f1 == f)
    ensures HasChildren(f1, t, next1) && Shows(f1, p, es, t, next1)
    ensures Tidy(f1) && Stale(phase, t) <= FlushTargets(f1) <= {t.cwd}
    ensures Loaded(f1) <= Loaded(At(l.cache, l.cur)) + FlushTargets(f1)
  {
    var f;
    f, p, es := CurrentEntry(l.cache, l.cur, t, l.next);
    CurrentFlags(l.cache, l.cur);
    if f.kids.Nil? {
      f1, next1 := CachedShows(f, l.vol, t, l.next);
      ShowsLater(f.sib, p, es[1..], t, l.next, next1);
      LoadedIsTidy(f1);
      NewIsNotLoaded(f1.kids);
    } else {
      f1, next1 := f, l.next;
      if phase == AllClean {
        CleanIsTidy(f);
      } else {
        PendingIsTidy(f, []);
      }
    }
  }

  /** The cache with the current entry replaced by its cached, clean form. */
  lemma CacheAfter(cache: Forest, cur: Path, t: Tree, next: nat, f1: Forest, next1: nat, phase: Phase)
    returns (cache1: Forest)
    requires t.cwd < |t.dirs| && next <= next1
    requires ShowsTree(cache, cur, t, next)
    requires At(cache, cur).Node? && At(cache, cur).num == t.cwd && f1.Node? && f1 == At(cache, cur).(kids := f1.kids)
    requires HasChildren(f1, t, next1)
    requires InPhase(cache, cur, phase) && (phase == ChildPending ==> f1 == At(cache, cur))
    ensures cache1 == Replace(cache, cur, Bare(f1))
    ensures ShowsTree(cache1, cur, t, next1)
    ensures IsClean(cache1) && At(cache1, cur) == Bare(f1) && HasChildren(Bare(f1), t, next1)
  {
    var f, g := At(cache, cur), Bare(f1);
    cache1 := Replace(cache, cur, g);
    forall q: int, fs: seq<Entry> | Shows(f.sib, q, fs, t, next)
      ensures Shows(g.sib, q, fs, t, next1)
    {
      ShowsLater(f.sib, q, fs, t, next, next1);
      ShowsBare(f.sib, q, fs, t, next1);
    }
    ShowsBare(f1.kids, t.cwd, ListingOf(t, t.cwd), t, next1);
    ShowsReplaced(cache, -1, ROOT_LISTING, t, next, cur, t.cwd, g, next1);
    AtOfReplace(cache, cur, g);
    BareEntries(f1);
    if phase == AllClean {
      ReplaceInClean(cache, cur, g);
    } else if phase == ChildPending {
      AtOfPending(cache, cur);
      BareEntries(cache);
    }
  }

  /** The disk after the flush from the current entry. */
  lemma DiskAfter(v: Volume, t: Tree, meta: nat, f1: Forest, next1: nat, p: int, es: seq<Entry>, loaded: set<nat>,
                  stale: set<nat>)
    returns (vol: Volume)
    requires VolumeOk(v, t, meta) && InSync(v, t, loaded, stale) && Shows(f1, p, es, t, next1)
    requires Tidy(f1) && stale <= FlushTargets(f1)
    ensures InTable(f1, |v.inodes|) && Flush(f1, v) == (Bare(f1), vol)
    ensures VolumeOk(vol, t, meta) && MasterOf(vol, 0) == MasterOf(v, 0)
    ensures InSync(vol, t, loaded + FlushTargets(f1), {})
  {
    ShowsInTable(f1, p, es, t, next1, |v.inodes|);
    FlushClears(f1, v);
    FlushUpdates(f1, p, es, v, t, next1, meta);
    vol := Flush(f1, v).1;
    VolumeAfterUpdates(v, vol, FlushTargets(f1), t, meta, loaded, stale);
    assert stale - FlushTargets(f1) == {};
  }

  /** Replacing the current entry loads no other directory. */
  lemma LoadedAfter(cache: Forest, cur: Path, f1: Forest, w: set<nat>)
    requires At(cache, cur).Node? && Loaded(f1) <= Loaded(At(cache, cur)) + w
    ensures Loaded(Replace(cache, cur, Bare(f1))) <= Loaded(cache) + w
  {
    hide Loaded, Bare, Replace, At;
    LoadedAt(cache, cur);
    LoadedOfReplace(cache, cur, Bare(f1));
    LoadedOfBare(f1);
  }

  /** The state after the current directory has been cached. */
  ghost predicate Settled(l: Live, t: Tree, meta: nat) {
    var holds :=
      && VolumeOk(l.vol, t, meta) && l.mb == MasterOf(l.vol, 0) && l.next >= FIRST_ADDRESS
      && ShowsTree(l.cache, l.cur, t, l.next) && IsClean(l.cache) && InSync(l.vol, t, Loaded(l.cache), {});
    holds
  }

  lemma InSyncFewer(v: Volume, t: Tree, loaded: set<nat>, loaded': set<nat>)
    requires WellShaped(v) && |t.dirs| <= |v.inodes| && InSync(v, t, loaded, {}) && loaded' <= loaded
    ensures InSync(v, t, loaded', {})
  {
    hide Synced, UpToDate;
  }

  lemma NowSettled(l: Live, t: Tree, meta: nat)
    requires VolumeOk(l.vol, t, meta) && l.mb == MasterOf(l.vol, 0) && l.next >= FIRST_ADDRESS
    requires ShowsTree(l.cache, l.cur, t, l.next) && IsClean(l.cache) && InSync(l.vol, t, Loaded(l.cache), {})
    ensures Settled(l, t, meta)
  {
  }

  lemma SettledIsOk(l: Live, t: Tree, meta: nat)
    requires Settled(l, t, meta)
    ensures LiveOk(l, t, meta)
  {
    assert InPhase(l.cache, l.cur, AllClean) && InSync(l.vol, t, Loaded(l.cache), Stale(AllClean, t));
  }

  /** Getting the children of the current directory, which starts every command
      but unmount: it is defined, shows the directory's listing, and leaves the
      cache clean and every directory in step with the disk. */
  lemma WithChildrenSettles(l: Live, t: Tree, meta: nat)
    returns (l1: Live)
    requires LiveOk(l, t, meta)
    ensures Enterable(l) && l1 == WithChildren(l)
    ensures Settled(l1, t, meta)
    ensures |l1.vol.inodes| == |l.vol.inodes| && l1.vol.bpb == l.vol.bpb
    ensures l1.cur == l.cur && HasChildren(At(l1.cache, l1.cur), t, l1.next) && At(l1.cache, l1.cur).num == t.cwd
  {
    EnterIsDefined(l, t, meta);
    var phase :| InPhase(l.cache, l.cur, phase) && InSync(l.vol, t, Loaded(l.cache), Stale(phase, t));
    var f1, next1, p, es := CachedCurrent(l, t, meta, phase);
    var vol := DiskAfter(l.vol, t, meta, f1, next1, p, es, Loaded(l.cache), Stale(phase, t));
    var cache := CacheAfter(l.cache, l.cur, t, l.next, f1, next1, phase);
    LoadedAfter(l.cache, l.cur, f1, FlushTargets(f1));
    l1 := l.(vol := vol, cache := cache, next := next1);
    InSyncFewer(vol, t, Loaded(l.cache) + FlushTargets(f1), Loaded(cache));
    NowSettled(l1, t, meta);
  }
}
