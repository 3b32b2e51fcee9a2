/** What is lost by entering the "." entry: a directory made there. */
module DotEntries {
  import opened Bytes
  import opened BlockDevices
  import opened INodes
  import opened Volumes
  import opened DirectoryText
  import opened DirectoryStore
  import opened Forests
  import opened NameTrees
  import opened WriteBack
  import opened DirtyTracking
  import opened Metadata
  import opened Shells
  import opened Sessions
  import opened SessionCommands
  import opened SessionMounts
  import opened SessionLaws

  // ---------- what a flush writes, entry by entry ----------

  /** A flush of a clean cache does nothing. */
  lemma {:induction false} FlushClean(f: Forest, v: Volume)
    requires IsClean(f) && WellShaped(v) && InTable(f, |v.inodes|)
    ensures Flush(f, v) == (f, v)
    decreases Size(f)
  {
    if f.Node? {
      FlushClean(f.sib, v);
      FlushClean(f.kids, v);
      CleanIsTidy(f.kids);
    }
  }

  /** A flush of a cache with one pending child stores the children of its
      directory as they are cached. */
  lemma {:induction false} FlushPending(f: Forest, path: Path, v: Volume)
    requires PendingAt(f, path) && WellShaped(v) && InTable(f, |v.inodes|)
    ensures At(f, path).Node? && At(f, path).num < |v.inodes|
    ensures Flush(f, v) == (Bare(f), StoreDirectory(v, At(f, path).num, Entries(At(f, path).kids)))
    decreases |path|
  {
    hide StoreDirectory;
    if path == [] {
      FlushClean(f.sib, v);
      CleanedOfLastDirty(f.kids);
    } else if path[0] == ToKids {
      FlushClean(f.sib, v);
      PendingHasNoDirtySibling(f.kids, path[1..]);
      FlushPending(f.kids, path[1..], v);
    } else {
      FlushPending(f.sib, path[1..], v);
      var v' := Flush(f.sib, v).1;
      CleanIsTidy(f.kids);
      FlushClean(f.kids, v');
    }
  }

  /** So does a flush of a directory just loaded. */
  lemma FlushNew(f: Forest, v: Volume)
    requires f.Node? && !f.dirty && IsClean(f.sib) && f.kids.Node? && AllNew(f.kids)
    requires WellShaped(v) && InTable(f, |v.inodes|)
    ensures Flush(f, v) == (Bare(f), StoreDirectory(v, f.num, Entries(f.kids)))
  {
    hide StoreDirectory;
    FlushClean(f.sib, v);
    CleanedOfNew(f.kids);
  }

  /** Storing the listing of a directory brings it in step with the disk. */
  lemma ListingStored(v: Volume, t: Tree, meta: nat, c: nat, stale: set<nat>)
    returns (v': Volume)
    requires VolumeOk(v, t, meta) && c < |t.dirs| && InSync(v, t, {}, stale) && stale <= {c}
    ensures v' == StoreDirectory(v, c, ListingOf(t, c))
    ensures VolumeOk(v', t, meta) && MasterOf(v', 0) == MasterOf(v, 0)
    ensures InSync(v', t, {}, {}) && InSync(v', t, {c}, {})
  {
    v' := UpdatedOne(v, c, t, meta);
    VolumeAfterUpdates(v, v', {c}, t, meta, {}, stale);
    assert stale - {c} == {} && {} + {c} == {c};
    hide Synced, UpToDate;
  }

  // ---------- caches with texts that fit ----------

  predicate Sound(f: Forest, n: nat, bpb: nat) {
    InTable(f, n) && TextsFit(f, bpb)
  }

  lemma {:induction false} SoundBare(f: Forest, n: nat, bpb: nat)
    ensures Sound(Bare(f), n, bpb) <==> Sound(f, n, bpb)
  {
    if f.Node? {
      SoundBare(f.kids, n, bpb);
      SoundBare(f.sib, n, bpb);
      BareEntries(f.kids);
    }
  }

  lemma {:induction false} SoundAppend(f: Forest, entry: Forest, n: nat, bpb: nat)
    requires Sound(f, n, bpb) && Sound(entry, n, bpb)
    ensures Sound(Append(f, entry), n, bpb)
  {
    if f.Node? {
      SoundAppend(f.sib, entry, n, bpb);
    }
  }

  lemma {:induction false} EntriesAppend(f: Forest, entry: Forest)
    requires entry.Node? && entry.sib.Nil?
    ensures Entries(Append(f, entry)) == Entries(f) + [Entry(entry.name.chars, entry.num)]
  {
    if f.Node? {
      EntriesAppend(f.sib, entry);
    }
  }

  /** A part replaced by one with the same names and numbers at its top. */
  lemma {:induction false} SoundReplace(f: Forest, path: Path, g: Forest, n: nat, bpb: nat)
    requires Sound(f, n, bpb) && Sound(g, n, bpb) && At(f, path).Node?
    requires Entries(g) == Entries(At(f, path)) && g.Node?
    ensures Sound(Replace(f, path, g), n, bpb)
    ensures Entries(Replace(f, path, g)) == Entries(f) && Replace(f, path, g).Node?
    decreases |path|
  {
    if path != [] {
      if path[0] == ToKids {
        SoundReplace(f.kids, path[1..], g, n, bpb);
      } else {
        SoundReplace(f.sib, path[1..], g, n, bpb);
      }
    }
  }

  // ---------- replacing below an entry ----------

  lemma {:induction false} ReplaceBelow(f: Forest, path: Path, g: Forest)
    requires At(f, path).Node?
    ensures Replace(f, path + [ToKids], g) == Replace(f, path, At(f, path).(kids := g))
    decreases |path|
  {
    if path == [] {
      assert (path + [ToKids])[1..] == [];
    } else {
      assert (path + [ToKids])[1..] == path[1..] + [ToKids];
      ReplaceBelow(if path[0] == ToKids then f.kids else f.sib, path[1..], g);
    }
  }

  lemma {:induction false} ReplaceTwice(f: Forest, path: Path, g: Forest, g': Forest)
    requires At(f, path).Node?
    ensures Replace(Replace(f, path, g), path, g') == Replace(f, path, g')
    decreases |path|
  {
    if path != [] {
      ReplaceTwice(if path[0] == ToKids then f.kids else f.sib, path[1..], g, g');
    }
  }

  // ---------- the search from the "." entry ----------

  lemma {:induction false} AbsentBare(f: Forest, num: nat, addr: nat)
    ensures Absent(Bare(f), num, addr) <==> Absent(f, num, addr)
  {
    if f.Node? {
      AbsentBare(f.kids, num, addr);
      AbsentBare(f.sib, num, addr);
    }
  }

  lemma {:induction false} AbsentAppend(f: Forest, entry: Forest, num: nat, addr: nat)
    requires Absent(f, num, addr) && Absent(entry, num, addr)
    ensures Absent(Append(f, entry), num, addr)
  {
    if f.Node? {
      AbsentAppend(f.sib, entry, num, addr);
    }
  }

  /** The "." entry of a directory, once something has been cached below it, is
      still the only entry with its number and name pointer. */
  lemma {:induction false} DotOnlyAt(f: Forest, p: int, es: seq<Entry>, t: Tree, next: nat, path: Path, k: nat,
                                     g: Forest)
    requires IsTree(t) && AreSiblings(es, p, t) && Shows(f, p, es, t, next) && LeadsTo(f, p, path, k)
    requires At(f, path).Node? && At(f, path).kids.Node? && g.Node? && g == At(f, path).kids.(kids := g.kids)
    requires Absent(g.kids, k, g.name.addr)
    ensures OnlyAt(Replace(f, path + [ToKids], g), path + [ToKids], k, g.name.addr)
    decreases |path|
  {
    var addr := g.name.addr;
    PathSides(f, p, es, t, next, path, k);
    if path == [] {
      assert (path + [ToKids])[1..] == [];
      KeyAbsent(f.sib, p, es[1..], t, next, k, addr);
      DotAmongSiblings(f, t, next, k, g);
    } else {
      assert (path + [ToKids])[1..] == path[1..] + [ToKids] && (path + [ToKids])[0] == path[0];
      if path[0] == ToKids {
        ListingIsSiblings(t, f.num);
        DotOnlyAt(f.kids, f.num, ListingOf(t, f.num), t, next, path[1..], k, g);
        KeyAbsent(f.sib, p, es[1..], t, next, k, addr);
      } else {
        DotOnlyAt(f.sib, p, es[1..], t, next, path[1..], k, g);
        if f.kids.Node? {
          ListingNotAbove(t, f.num, k);
          ListingIsSiblings(t, f.num);
          KeyAbsent(f.kids, f.num, ListingOf(t, f.num), t, next, k, addr);
        }
      }
    }
  }

  lemma DotAmongSiblings(f: Forest, t: Tree, next: nat, k: nat, g: Forest)
    requires IsTree(t) && k < |t.dirs| && f.Node? && f.kids.Node? && f.kids.name.addr != f.name.addr
    requires Shows(f.kids, k, ListingOf(t, k), t, next)
    requires g.Node? && g == f.kids.(kids := g.kids) && Absent(g.kids, k, g.name.addr)
    ensures OnlyAt(g, [], k, g.name.addr)
  {
    var es := ListingOf(t, k);
    ListingNotAbove(t, k, k);
    ListingIsSiblings(t, k);
    assert forall i :: 0 <= i < |es[1..]| ==> es[1..][i] == es[i + 1];
    KeyAbsent(f.kids.sib, k, es[1..], t, next, k, g.name.addr);
  }

  lemma {:induction false} LastDownOfKid(path: Path)
    ensures LastDown(path + [ToKids]) == (true, path)
  {
    if path == [] {
      assert (path + [ToKids])[1..] == [];
    } else {
      assert (path + [ToKids])[1..] == path[1..] + [ToKids];
      LastDownOfKid(path[1..]);
      assert [path[0]] + path[1..] == path;
    }
  }

  lemma UniqueKidHasParent(root: Forest, path: Path, k: nat, addr: nat)
    requires root.Node? && (path == [] || path[0] == ToKids) && OnlyAt(root, path + [ToKids], k, addr)
    ensures ParentSearch(root, k, addr) == (true, path)
  {
    var q := path + [ToKids];
    SearchFinds(root.kids, [ToKids], [], q[1..], k, addr);
    ParentIsLastDown([], [], q);
    assert [] + [ToKids] == [ToKids];
    assert ParentOf([], [], q) == ParentOf([ToKids], [], q[1..]);
    LastDownOfKid(path);
    assert [] + path == path;
  }

  // ---------- a directory that has been cached ----------

  /** The current directory is cached, the cache is clean, and the disk agrees. */
  ghost predicate AtHome(l: Live, t: Tree, meta: nat) {
    Settled(l, t, meta) && HasChildren(At(l.cache, l.cur), t, l.next) && At(l.cache, l.cur).num == t.cwd
  }

  /** Its first child is its "." entry, which has not been cached. */
  lemma HomeHasDot(l: Live, t: Tree, meta: nat)
    returns (dot: Forest)
    requires AtHome(l, t, meta)
    ensures dot == At(l.cache, l.cur).kids == At(l.cache, l.cur + [ToKids])
    ensures dot.Node? && dot.num == t.cwd < |t.dirs| && dot.kids.Nil? && dot.name.addr < l.next && IsClean(dot)
    ensures Entries(dot) == ListingOf(t, t.cwd)
    ensures FindDirectory(dot, l.vol.inodes, DOT_NAME, l.cur + [ToKids]) == (true, l.cur + [ToKids])
  {
    dot := At(l.cache, l.cur).kids;
    SettledINodes(l, t, meta);
    DotComesFirst(l.cache, l.cur, l.vol.inodes, t, l.next);
    ShowsEntries(dot, t.cwd, ListingOf(t, t.cwd), t, l.next);
    AtOfClean(l.cache, l.cur + [ToKids]);
  }

  lemma HomeVolume(l: Live, t: Tree, meta: nat)
    requires AtHome(l, t, meta)
    ensures VolumeOk(l.vol, t, meta) && l.mb == MasterOf(l.vol, 0) && InSync(l.vol, t, {}, {})
    ensures t.cwd < |t.dirs| && UpToDate(l.vol, t, t.cwd)
    ensures l.next >= FIRST_ADDRESS && ShowsTree(l.cache, l.cur, t, l.next) && IsClean(l.cache)
  {
    var c := LoadedAtPath(l.cache, l.cur, l.cur, t, l.next);
    InSyncFewer(l.vol, t, Loaded(l.cache), {});
  }

  lemma HomeSound(l: Live, t: Tree, meta: nat)
    requires AtHome(l, t, meta)
    ensures Sound(l.cache, |l.vol.inodes|, l.vol.bpb)
  {
    ShowsInTable(l.cache, -1, ROOT_LISTING, t, l.next, |l.vol.inodes|);
    ShowsFit(l.cache, -1, ROOT_LISTING, t, l.next, l.vol.bpb);
  }

  // ---------- mkdir in the "." entry ----------

  /** Caching the "." entry loads the listing of its directory once more. */
  lemma LoadDot(dot: Forest, v: Volume, t: Tree, next: nat)
    returns (dot1: Forest)
    requires dot.Node? && dot.kids.Nil? && dot.num < |t.dirs| <= |v.inodes| && dot.name.addr < next
    requires WellShaped(v) && v.bpb > 0 && IsTree(t) && Storable(t, v.bpb) && UpToDate(v, t, dot.num)
    requires next >= FIRST_ADDRESS && Synced(v, t, dot.num)
    ensures Loadable(dot, v) && Cached(dot, v, next) == (dot1, next + |ListingOf(t, dot.num)|)
    ensures dot1 == dot.(kids := dot1.kids) && dot1.kids.Node? && AllNew(dot1.kids)
    ensures Entries(dot1.kids) == ListingOf(t, dot.num) && Absent(dot1.kids, dot.num, dot.name.addr)
    ensures Sound(dot1.kids, |v.inodes|, v.bpb)
  {
    hide *;
    SyncedIsLoadable(dot, v, t);
    UpToDateLoads(v, t, dot.num);
    ListingNumbers(t, dot.num);
    var kids := LoadedAgain(v, t, dot.num, next, dot.name.addr);
    dot1 := dot.(kids := kids);
    CachedDot(dot, v, ListingOf(t, dot.num), next);
  }

  lemma CachedDot(dot: Forest, v: Volume, es: seq<Entry>, next: nat)
    requires dot.Node? && dot.kids.Nil? && WellShaped(v) && dot.num < |v.inodes|
    requires Parse(StoredBlock(v, dot.num)) == es && NumbersInTable(es, |v.inodes|) && Load(Nil, es, next).Node?
    ensures NumbersInTable(Stored(dot, v), |v.inodes|)
    ensures Cached(dot, v, next) == (dot.(kids := Load(Nil, es, next)), next + |es|)
  {
    hide Load, StoredBlock, Parse;
  }

  /** The children that a second load of directory c gives. */
  lemma LoadedAgain(v: Volume, t: Tree, c: nat, next: nat, addr: nat)
    returns (kids: Forest)
    requires IsTree(t) && c < |t.dirs| <= |v.inodes| && Storable(t, v.bpb) && next >= FIRST_ADDRESS && addr < next
    ensures NumbersInTable(ListingOf(t, c), |v.inodes|) && kids == Load(Nil, ListingOf(t, c), next)
    ensures kids.Node? && AllNew(kids) && Entries(kids) == ListingOf(t, c) && Absent(kids, c, addr)
    ensures Sound(kids, |v.inodes|, v.bpb)
  {
    var es, next1 := ListingOf(t, c), next + |ListingOf(t, c)|;
    ListingNumbers(t, c);
    LoadNew(Nil, es, next);
    LoadKeepsFirst(Nil, es, next);
    ShowsLoaded(Nil, c, [], es, t, next);
    assert [] + es == es;
    kids := Load(Nil, es, next);
    hide Load;
    LoadedIsSound(kids, v, t, c, next1);
    LoadedHasOtherKeys(kids, t, c, next1, addr);
  }

  lemma UpToDateLoads(v: Volume, t: Tree, c: nat)
    requires WellShaped(v) && c < |v.inodes| && c < |t.dirs| && Storable(t, v.bpb) && UpToDate(v, t, c)
    ensures Parse(StoredBlock(v, c)) == ListingOf(t, c)
  {
    hide StoredBlock, Parse, PrintBlock, LegalName;
    DotIsLegal();
    assert forall i :: 1 <= i < |ListingOf(t, c)| ==> ListingOf(t, c)[i] == ChildAt(t, c, i - 1);
    WordsOfPrint(ListingOf(t, c), v.bpb);
  }

  lemma LoadedIsSound(kids: Forest, v: Volume, t: Tree, c: nat, next: nat)
    requires c < |t.dirs| <= |v.inodes| && Storable(t, v.bpb) && Shows(kids, c, ListingOf(t, c), t, next)
    ensures Entries(kids) == ListingOf(t, c) && Sound(kids, |v.inodes|, v.bpb)
  {
    ShowsEntries(kids, c, ListingOf(t, c), t, next);
    ShowsInTable(kids, c, ListingOf(t, c), t, next, |v.inodes|);
    ShowsFit(kids, c, ListingOf(t, c), t, next, v.bpb);
  }

  lemma LoadedHasOtherKeys(kids: Forest, t: Tree, c: nat, next: nat, addr: nat)
    requires IsTree(t) && c < |t.dirs| && Shows(kids, c, ListingOf(t, c), t, next)
    requires kids.Node? && kids.name.addr != addr
    ensures Absent(kids, c, addr)
  {
    ListingNotAbove(t, c, c);
    ListingIsSiblings(t, c);
    KeyAbsent(kids, c, ListingOf(t, c), t, next, c, addr);
  }

  // ---------- commands away from the real entries ----------

  lemma CanEnter(l: Live, t: Tree, meta: nat)
    requires VolumeOk(l.vol, t, meta) && Sound(l.cache, |l.vol.inodes|, l.vol.bpb)
    requires At(l.cache, l.cur).Node? && At(l.cache, l.cur).num < |t.dirs|
    requires At(l.cache, l.cur).kids.Nil? ==> Loadable(At(l.cache, l.cur), l.vol)
    ensures Enterable(l)
  {
    hide Loadable, TextsFit, InTable;
  }

  /** The state after the current entry has been cached and flushed. */
  lemma EnteredIs(l: Live, f: Forest, next: nat, vol: Volume)
    requires Enterable(l) && InTable(f, |l.vol.inodes|)
    requires Cached(At(l.cache, l.cur), l.vol, l.next) == (f, next) && Flush(f, l.vol) == (Bare(f), vol)
    ensures WithChildren(l) == Live(vol, l.mb, Replace(l.cache, l.cur, Bare(f)), l.cur, next)
  {
    AtInTable(l.cache, l.cur, |l.vol.inodes|);
    hide Cached, Flush, Replace, Bare, Loadable;
  }

  lemma {:induction false} SoundPart(f: Forest, path: Path, n: nat, bpb: nat)
    requires Sound(f, n, bpb)
    ensures Sound(At(f, path), n, bpb)
    decreases |path|
  {
    if path != [] && f.Node? {
      SoundPart(f.kids, path[1..], n, bpb);
      SoundPart(f.sib, path[1..], n, bpb);
    }
  }

  /** A "." entry with these entries cached below it. */
  predicate Filled(dot: Forest, filled: Forest, es: seq<Entry>, n: nat, bpb: nat) {
    && dot.Node? && filled.Node? && filled == dot.(kids := filled.kids) && filled.kids.Node?
    && Entries(filled.kids) == es && Absent(filled.kids, dot.num, dot.name.addr) && Sound(filled.kids, n, bpb)
  }

  lemma FilledIsSound(dot: Forest, filled: Forest, es: seq<Entry>, n: nat, bpb: nat)
    requires Filled(dot, filled, es, n, bpb) && Sound(dot, n, bpb) && Fits(es, bpb)
    ensures Sound(filled, n, bpb) && Entries(filled) == Entries(dot)
  {
  }

  /** The cache with that "." entry in place. */
  lemma DotInPlace(cache: Forest, q: Path, filled: Forest, es: seq<Entry>, n: nat, bpb: nat)
    returns (cache': Forest)
    requires Sound(cache, n, bpb) && At(cache, q).Node? && Filled(At(cache, q), filled, es, n, bpb) && Fits(es, bpb)
    ensures cache' == Replace(cache, q, filled) && At(cache', q) == filled && cache'.Node?
    ensures Sound(cache', n, bpb) && Sound(filled, n, bpb)
  {
    SoundPart(cache, q, n, bpb);
    FilledIsSound(At(cache, q), filled, es, n, bpb);
    cache' := Replace(cache, q, filled);
    SoundReplace(cache, q, filled, n, bpb);
    AtOfReplace(cache, q, filled);
  }

  lemma VolumeFacts(v: Volume, t: Tree, meta: nat)
    requires VolumeOk(v, t, meta)
    ensures WellShaped(v) && v.bpb > 0 && IsTree(t) && t.cwd < |t.dirs| <= |v.inodes| && Storable(t, v.bpb)
    ensures INodesMatch(v.inodes, t) && Fits(ListingOf(t, t.cwd), v.bpb)
    ensures MasterOf(v, 0).bytesPerBlock == v.bpb && MasterOf(v, 0).inodeCount == |v.inodes|
  {
  }

  // ---------- mkdir in the "." entry ----------

  /** The "." entry when it is cached: its directory is stored once more. */
  lemma DotLoaded(dot: Forest, v: Volume, t: Tree, next: nat)
    returns (dot1: Forest)
    requires dot.Node? && dot.kids.Nil? && IsClean(dot) && dot.num < |t.dirs| <= |v.inodes| && dot.name.addr < next
    requires WellShaped(v) && v.bpb > 0 && IsTree(t) && Storable(t, v.bpb) && UpToDate(v, t, dot.num)
    requires next >= FIRST_ADDRESS && Synced(v, t, dot.num) && InTable(dot, |v.inodes|)
    ensures Loadable(dot, v) && Cached(dot, v, next) == (dot1, next + |ListingOf(t, dot.num)|)
    ensures InTable(dot1, |v.inodes|)
    ensures Flush(dot1, v) == (Bare(dot1), StoreDirectory(v, dot.num, ListingOf(t, dot.num)))
    ensures Filled(dot, dot1, ListingOf(t, dot.num), |v.inodes|, v.bpb)
    ensures Filled(dot, Bare(dot1), ListingOf(t, dot.num), |v.inodes|, v.bpb)
  {
    dot1 := LoadDot(dot, v, t, next);
    hide Loadable, UpToDate, Synced, Storable, IsTree, Cached, StoreDirectory, Flush, ListingOf, WellShaped, TextsFit;
    FlushNew(dot1, v);
    BareEntries(dot1.kids);
    SoundBare(dot1.kids, |v.inodes|, v.bpb);
    AbsentBare(dot1.kids, dot.num, dot.name.addr);
  }

  /** The "." entry, cached and clean, after a directory has been made in it, and
      after that has been flushed. */
  lemma DotMade(dot: Forest, dot1: Forest, es: seq<Entry>, entry: Forest, n: nat, bpb: nat)
    returns (dot2: Forest)
    requires Filled(dot, dot1, es, n, bpb) && IsClean(dot1)
    requires AllNew(entry) && entry.Node? && entry.sib.Nil? && entry.num < n && entry.num != dot.num
    ensures dot2 == dot1.(kids := Append(dot1.kids, entry)) && PendingAt(dot2, [])
    ensures Filled(dot, dot2, es + [Entry(entry.name.chars, entry.num)], n, bpb)
    ensures Filled(dot, Bare(dot2), es + [Entry(entry.name.chars, entry.num)], n, bpb) && IsClean(Bare(dot2))
  {
    AppendPending(dot1.kids, entry);
    EntriesAppend(dot1.kids, entry);
    SoundAppend(dot1.kids, entry, n, bpb);
    AbsentAppend(dot1.kids, entry, dot.num, dot.name.addr);
    dot2 := dot1.(kids := Append(dot1.kids, entry));
    BareEntries(dot2);
    BareEntries(dot2.kids);
    SoundBare(dot2.kids, n, bpb);
    AbsentBare(dot2.kids, dot.num, dot.name.addr);
  }

  // ---------- mkdir in the "." entry ----------

  /** Entering a directory through its "." entry, away from the current one. */
  function InDot(l: Live): Live {
    l.(cur := l.cur + [ToKids])
  }

  /** l1 is l with its "." entry filled, the volume as given, and the pointer at
      the "." entry. */
  ghost predicate DotState(l: Live, l1: Live, dot: Forest, filled: Forest, es: seq<Entry>) {
    && At(l.cache, l.cur + [ToKids]) == dot && Filled(dot, filled, es, |l.vol.inodes|, l.vol.bpb)
    && l1.cur == l.cur + [ToKids] && l1.mb == l.mb && l1.cache == Replace(l.cache, l.cur + [ToKids], filled)
    && |l1.vol.inodes| == |l.vol.inodes| && l1.vol.bpb == l.vol.bpb
  }

  /** The tree and the disk agree but for these directories. */
  ghost predicate DiskHolds(l: Live, t: Tree, meta: nat, stale: set<nat>) {
    && VolumeOk(l.vol, t, meta) && l.mb == MasterOf(l.vol, 0)
    && WellShaped(l.vol) && |t.dirs| <= |l.vol.inodes| && InSync(l.vol, t, {}, stale)
  }

  lemma BareIsClean(f: Forest)
    ensures IsClean(Bare(f))
  {
    BareEntries(f);
  }

  lemma UpToDateIsSynced(v: Volume, t: Tree, c: nat)
    requires WellShaped(v) && c < |v.inodes| && c < |t.dirs| && UpToDate(v, t, c)
    ensures Synced(v, t, c)
  {
  }

  lemma SoundIsInTable(f: Forest, n: nat, bpb: nat)
    requires Sound(f, n, bpb)
    ensures InTable(f, n)
  {
  }

  /** All that a cached directory has to offer. */
  lemma HomeFacts(l: Live, t: Tree, meta: nat)
    returns (dot: Forest)
    requires AtHome(l, t, meta)
    ensures VolumeOk(l.vol, t, meta) && l.mb == MasterOf(l.vol, 0) && l.next >= FIRST_ADDRESS
    ensures WellShaped(l.vol) && l.vol.bpb > 0
    ensures IsTree(t) && t.cwd < |t.dirs| <= |l.vol.inodes| && Storable(t, l.vol.bpb)
    ensures InSync(l.vol, t, {}, {}) && UpToDate(l.vol, t, t.cwd) && Synced(l.vol, t, t.cwd)
    ensures dot == At(l.cache, l.cur).kids == At(l.cache, l.cur + [ToKids]) && Entries(dot) == ListingOf(t, t.cwd)
    ensures dot.Node? && dot.num == t.cwd && dot.kids.Nil? && dot.name.addr < l.next && IsClean(dot)
    ensures InTable(dot, |l.vol.inodes|) && Sound(l.cache, |l.vol.inodes|, l.vol.bpb)
    ensures Fits(ListingOf(t, t.cwd), l.vol.bpb)
    ensures FindDirectory(dot, l.vol.inodes, DOT_NAME, l.cur + [ToKids]) == (true, l.cur + [ToKids])
    ensures ShowsTree(l.cache, l.cur, t, l.next) && IsClean(l.cache)
  {
    hide *;
    HomeVolume(l, t, meta);
    VolumeFacts(l.vol, t, meta);
    dot := HomeHasDot(l, t, meta);
    HomeSound(l, t, meta);
    SoundPart(l.cache, l.cur + [ToKids], |l.vol.inodes|, l.vol.bpb);
    UpToDateIsSynced(l.vol, t, t.cwd);
    SoundIsInTable(dot, |l.vol.inodes|, l.vol.bpb);
  }

  /** Getting the children of the "." entry. */
  lemma EnterDot(l: Live, t: Tree, meta: nat)
    returns (l1: Live, dot: Forest, filled: Forest)
    requires AtHome(l, t, meta)
    ensures Enterable(InDot(l)) && l1 == WithChildren(InDot(l)) && t.cwd < |t.dirs|
    ensures DotState(l, l1, dot, filled, ListingOf(t, t.cwd)) && IsClean(filled)
    ensures dot.Node? && dot.num == t.cwd && dot.name.addr < l.next
    ensures DiskHolds(l1, t, meta, {})
  {
    hide AtHome, VolumeOk, InSync, Loadable, Cached, Flush, StoreDirectory, UpToDate, Synced, Storable, IsTree;
    hide Enterable, WithChildren, Replace, At, Bare, IsClean, Filled, Sound, InTable, ListingOf, FindDirectory, Fits;
    hide WellShaped, ShowsTree, Entries;
    dot := HomeFacts(l, t, meta);
    var dot1 := DotLoaded(dot, l.vol, t, l.next);
    var v1 := ListingStored(l.vol, t, meta, t.cwd, {});
    VolumeFacts(v1, t, meta);
    CanEnter(InDot(l), t, meta);
    EnteredIs(InDot(l), dot1, l.next + |ListingOf(t, t.cwd)|, v1);
    BareIsClean(dot1);
    filled := Bare(dot1);
    l1 := WithChildren(InDot(l));
  }

  lemma MadeListing(t: Tree, name: Name)
    requires t.cwd < |t.dirs|
    ensures ListingOf(MakeDirectory(t, name), t.cwd) == ListingOf(t, t.cwd) + [Entry(name, |t.dirs|)]
    ensures MakeDirectory(t, name).cwd == t.cwd && |MakeDirectory(t, name).dirs| == |t.dirs| + 1
  {
  }

  /** mkdir on a volume that agrees with the tree. */
  lemma MadeOnDisk(l: Live, t: Tree, name: Name, meta: nat)
    returns (vol: Volume)
    requires DiskHolds(l, t, meta, {}) && t.cwd < |t.dirs| && MayMake(t, name, l.mb, meta)
    ensures |t.dirs| < |l.vol.inodes| && vol == l.vol.(inodes := WithDirectory(l.vol.inodes, |t.dirs|))
    ensures DiskHolds(l.(vol := vol), MakeDirectory(t, name), meta, {t.cwd}) && INodesMatch(l.vol.inodes, t)
  {
    VolumeFacts(l.vol, t, meta);
    hide VolumeOk, InSync, INodesMatch, Storable, IsTree, Fits, LegalName, PointersFit;
    vol := MkdirVolume(l.vol, t, name, meta, {});
    VolumeFacts(vol, MakeDirectory(t, name), meta);
  }

  lemma DotReplaced(l: Live, l1: Live, dot: Forest, filled: Forest, filled': Forest, es: seq<Entry>)
    requires DotState(l, l1, dot, filled, es)
    ensures At(l1.cache, l1.cur) == filled
    ensures Replace(l1.cache, l1.cur, filled') == Replace(l.cache, l.cur + [ToKids], filled')
  {
    AtOfReplace(l.cache, l.cur + [ToKids], filled);
    ReplaceTwice(l.cache, l.cur + [ToKids], filled, filled');
  }

  /** mkdir in the "." entry adds the new entry to the second list of the
      directory, and leaves it pending. */
  lemma MkdirInDot(l: Live, t: Tree, name: Name, meta: nat)
    returns (l2: Live, dot: Forest, made: Forest)
    requires AtHome(l, t, meta) && t.cwd < |t.dirs| && MayMake(t, name, l.mb, meta)
    ensures Enterable(InDot(l)) && DoMkdir(InDot(l), name) == Mounted(l2)
    ensures DotState(l, l2, dot, made, ListingOf(MakeDirectory(t, name), t.cwd)) && PendingAt(made, [])
    ensures Filled(dot, Bare(made), ListingOf(MakeDirectory(t, name), t.cwd), |l.vol.inodes|, l.vol.bpb)
    ensures dot.Node? && dot.num == t.cwd && dot.name.addr < l.next
    ensures DiskHolds(l2, MakeDirectory(t, name), meta, {t.cwd})
  {
    var l1, filled;
    l1, dot, filled := EnterDot(l, t, meta);
    var c, entry := |t.dirs|, NewEntry(|t.dirs|, CStr(l1.next, name));
    var vol := MadeOnDisk(l1, t, name, meta);
    MadeListing(t, name);
    hide AtHome, Enterable, WithChildren, VolumeOk, INodesMatch, MayMake, InSync, ListingOf;
    hide MakeDirectory, WellShaped, IsClean;
    hide WithDirectory, DoMkdir, Replace, At, PendingAt, Bare, Filled, Append;
    made := DotMade(dot, filled, ListingOf(t, t.cwd), entry, |l.vol.inodes|, l.vol.bpb);
    DotReplaced(l, l1, dot, filled, made, ListingOf(t, t.cwd));
    MkdirIsMade(InDot(l), l1, t, name);
    l2 := Made(l1, c, name);
  }

  // ---------- cd .. from the "." entry ----------

  /** A cached entry is only flushed. */
  lemma CachedAlready(f: Forest, v: Volume, next: nat)
    requires f.Node? && f.kids.Node? && WellShaped(v) && f.num < |v.inodes|
    ensures Cached(f, v, next) == (f, next)
  {
  }

  /** Flushing the pending "." entry stores its list, with the new directory. */
  lemma LeaveDot(l: Live, l2: Live, t: Tree, u: Tree, dot: Forest, made: Forest, meta: nat)
    returns (l3: Live)
    requires AtHome(l, t, meta) && t.cwd == u.cwd < |u.dirs|
    requires DotState(l, l2, dot, made, ListingOf(u, t.cwd)) && PendingAt(made, []) && dot.Node? && dot.num == t.cwd
    requires DiskHolds(l2, u, meta, {t.cwd})
    ensures Enterable(l2) && WithChildren(l2) == l3 && DiskHolds(l3, u, meta, {})
    ensures l3.cur == l.cur + [ToKids] && l3.mb == l.mb && l3.cache == Replace(l.cache, l.cur + [ToKids], Bare(made))
    ensures |l3.vol.inodes| == |l.vol.inodes| && l3.vol.bpb == l.vol.bpb
  {
    VolumeFacts(l2.vol, u, meta);
    hide AtHome, VolumeOk, InSync, Loadable, Cached, Flush, StoreDirectory, UpToDate, Synced;
    hide Storable, IsTree, INodesMatch;
    hide Enterable, WithChildren, Replace, At, Bare, IsClean, Sound, InTable, ListingOf, FindDirectory, Fits, PendingAt;
    hide ShowsTree, WellShaped;
    var dot' := HomeFacts(l, t, meta);
    var cache := DotInPlace(l.cache, l.cur + [ToKids], made, ListingOf(u, t.cwd), |l.vol.inodes|, l.vol.bpb);
    CanEnter(l2, u, meta);
    SoundIsInTable(made, |l.vol.inodes|, l.vol.bpb);
    AtNowhere(made);
    FlushPending(made, [], l2.vol);
    var v := ListingStored(l2.vol, u, meta, t.cwd, {t.cwd});
    VolumeFacts(v, u, meta);
    CachedAlready(made, l2.vol, l2.next);
    EnteredIs(l2, made, l2.next, v);
    DotReplaced(l, l2, dot, made, Bare(made), ListingOf(u, t.cwd));
    l3 := WithChildren(l2);
  }

  lemma AtNowhere(f: Forest)
    ensures At(f, []) == f
  {
  }

  lemma DoCdUpFinds(l: Live, l1: Live, f: Forest, parent: Path)
    requires Enterable(l) && l1 == WithChildren(l) && l1.cur != [] && l1.cache.Node?
    requires f.Node? && f == At(l1.cache, l1.cur) && ParentSearch(l1.cache, f.num, f.name.addr) == (true, parent)
    ensures DoCd(l, PARENT_NAME) == (Mounted(l1.(cur := parent)), Silent)
  {
    hide ParentSearch, At, WithChildren, Enterable, FindDirectory;
  }

  /** The search from the "." entry, which is told apart from every other entry
      by its name pointer, finds the directory that it hangs in. */
  lemma DotHasParent(l: Live, t: Tree, meta: nat, dot: Forest, filled: Forest, es: seq<Entry>, n: nat, bpb: nat)
    requires AtHome(l, t, meta) && dot == At(l.cache, l.cur + [ToKids]) && Filled(dot, filled, es, n, bpb)
    ensures var cache := Replace(l.cache, l.cur + [ToKids], filled);
            && cache.Node? && At(cache, l.cur + [ToKids]) == filled && dot.num == t.cwd
            && ParentSearch(cache, t.cwd, filled.name.addr) == (true, l.cur)
  {
    var dot' := HomeFacts(l, t, meta);
    SettledCache(l, t, meta);
    RootPointer(l.cache, t, l.next, l.cur, t.cwd);
    DotOnlyAt(l.cache, -1, ROOT_LISTING, t, l.next, l.cur, t.cwd, filled);
    var cache := Replace(l.cache, l.cur + [ToKids], filled);
    AtOfReplace(l.cache, l.cur + [ToKids], filled);
    hide AtHome, OnlyAt, ParentSearch;
    assert cache.Node?;
    UniqueKidHasParent(cache, l.cur, t.cwd, filled.name.addr);
  }

  /** cd .. from the "." entry leads back to the directory itself. */
  lemma CdUpFromDot(l: Live, l2: Live, t: Tree, u: Tree, dot: Forest, made: Forest, meta: nat)
    returns (l3: Live)
    requires AtHome(l, t, meta) && t.cwd == u.cwd < |u.dirs|
    requires DotState(l, l2, dot, made, ListingOf(u, t.cwd)) && PendingAt(made, []) && dot.Node? && dot.num == t.cwd
    requires Filled(dot, Bare(made), ListingOf(u, t.cwd), |l.vol.inodes|, l.vol.bpb)
    requires DiskHolds(l2, u, meta, {t.cwd})
    ensures Enterable(l2) && DoCd(l2, PARENT_NAME) == (Mounted(l3), Silent) && DiskHolds(l3, u, meta, {})
    ensures l3.cur == l.cur && l3.mb == l.mb && l3.cache == Replace(l.cache, l.cur + [ToKids], Bare(made))
    ensures |l3.vol.inodes| == |l.vol.inodes| && l3.vol.bpb == l.vol.bpb
  {
    hide AtHome, VolumeOk, InSync, PendingAt, Enterable, WithChildren, Replace, At, Bare;
    hide WellShaped, ListingOf, DoCd, ParentSearch;
    hide Sound, Absent, Entries;
    var l1 := LeaveDot(l, l2, t, u, dot, made, meta);
    DotHasParent(l, t, meta, dot, Bare(made), ListingOf(u, t.cwd), |l.vol.inodes|, l.vol.bpb);
    DoCdUpFinds(l2, l1, Bare(made), l.cur);
    l3 := l1.(cur := l.cur);
  }

  // ---------- mkdir in the directory itself ----------

  /** The tree in which directory c has this child in place of those it got after
      its first n. The directories that it loses are nobody's children. */
  function Forgotten(t: Tree, c: nat, es: seq<Entry>, child: Entry): Tree
    requires c < |t.dirs|
  {
    t.(dirs := t.dirs[c := es + [child]])
  }

  lemma ForgottenChild(t: Tree, c: nat, es: seq<Entry>, lost: Entry, child: Entry, d: nat, i: nat)
    requires c < |t.dirs| && t.dirs[c] == es + [lost] + [child]
    requires d < |t.dirs| && i < |Forgotten(t, c, es, child).dirs[d]|
    ensures var i' := if d == c && i == |es| then i + 1 else i;
            i' < |t.dirs[d]| && ChildAt(Forgotten(t, c, es, child), d, i) == ChildAt(t, d, i')
  {
  }

  lemma ForgottenIsTree(t: Tree, c: nat, es: seq<Entry>, lost: Entry, child: Entry)
    requires IsTree(t) && c < |t.dirs| && t.dirs[c] == es + [lost] + [child]
    ensures IsTree(Forgotten(t, c, es, child))
  {
    var t' := Forgotten(t, c, es, child);
    forall d, i | 0 <= d < |t'.dirs| && 0 <= i < |t'.dirs[d]|
      ensures d < ChildAt(t', d, i).num < |t'.dirs| && t'.par[ChildAt(t', d, i).num] == d
      ensures forall j :: i < j < |t'.dirs[d]| ==> ChildAt(t', d, i).num != ChildAt(t', d, j).num
    {
      ForgottenChild(t, c, es, lost, child, d, i);
      forall j | i < j < |t'.dirs[d]|
        ensures ChildAt(t', d, i).num != ChildAt(t', d, j).num
      {
        ForgottenChild(t, c, es, lost, child, d, j);
      }
    }
  }

  lemma FewerLinesFit(es: seq<Entry>, lost: Entry, child: Entry, bpb: nat)
    requires Fits(es + [lost] + [child], bpb)
    ensures Fits(es + [child], bpb)
  {
    PrintConcat(es, [lost]);
    PrintConcat(es + [lost], [child]);
    PrintConcat(es, [child]);
    hide Print;
  }

  lemma ForgottenIsStorable(t: Tree, c: nat, es: seq<Entry>, lost: Entry, child: Entry, bpb: nat)
    requires IsTree(t) && Storable(t, bpb) && c < |t.dirs| && t.dirs[c] == es + [lost] + [child]
    ensures Storable(Forgotten(t, c, es, child), bpb)
  {
    var t' := Forgotten(t, c, es, child);
    hide Fits, LegalName;
    forall d | 0 <= d < |t'.dirs|
      ensures Fits(ListingOf(t', d), bpb) && PointersFit(|ListingOf(t', d)|, bpb)
      ensures forall i :: 0 <= i < |t'.dirs[d]| ==> LegalName(ChildAt(t', d, i).name)
    {
      forall i | 0 <= i < |t'.dirs[d]|
        ensures LegalName(ChildAt(t', d, i).name)
      {
        ForgottenChild(t, c, es, lost, child, d, i);
      }
      if d == c {
        var first := [Entry(DOT_NAME, c)];
        assert ListingOf(t, c) == (first + es) + [lost] + [child] && ListingOf(t', c) == (first + es) + [child];
        FewerLinesFit(first + es, lost, child, bpb);
      } else {
        assert ListingOf(t', d) == ListingOf(t, d);
      }
    }
  }

  /** A volume on which directory c is stale anyway. */
  lemma ForgottenOnDisk(l: Live, t: Tree, c: nat, es: seq<Entry>, lost: Entry, child: Entry, meta: nat)
    requires DiskHolds(l, t, meta, {c}) && c < |t.dirs| && t.dirs[c] == es + [lost] + [child]
    ensures DiskHolds(l, Forgotten(t, c, es, child), meta, {c})
  {
    var t' := Forgotten(t, c, es, child);
    VolumeFacts(l.vol, t, meta);
    ForgottenIsTree(t, c, es, lost, child);
    ForgottenIsStorable(t, c, es, lost, child, l.vol.bpb);
    SameVolumeForgets(l.vol, t, t', meta);
    hide VolumeOk, StoredBlock, PrintBlock, Storable, IsTree;
    forall d: nat | d < |t'.dirs| && d != c
      ensures Synced(l.vol, t', d)
    {
      assert Synced(l.vol, t, d) && ListingOf(t', d) == ListingOf(t, d);
    }
  }

  lemma SameVolumeForgets(v: Volume, t: Tree, t': Tree, meta: nat)
    requires VolumeOk(v, t, meta) && |t'.dirs| == |t.dirs| && IsTree(t') && Storable(t', v.bpb)
    ensures VolumeOk(v, t', meta)
  {
    hide Roomy, Formatted, IsTree, Storable;
  }

  /** The cache with the clean "." entry in place, seen from the directory. */
  lemma HomeWithDot(l: Live, t: Tree, meta: nat, dot: Forest, filled: Forest, es: seq<Entry>)
    returns (cache: Forest, home: Forest)
    requires AtHome(l, t, meta) && dot == At(l.cache, l.cur + [ToKids])
    requires Filled(dot, filled, es, |l.vol.inodes|, l.vol.bpb) && Fits(es, l.vol.bpb) && IsClean(filled)
    ensures cache == Replace(l.cache, l.cur + [ToKids], filled) && IsClean(cache)
    ensures Sound(cache, |l.vol.inodes|, l.vol.bpb) && home == At(cache, l.cur) && home.Node? && home.num == t.cwd
    ensures home.kids == filled && home.kids.Node? && Entries(home.kids) == ListingOf(t, t.cwd)
  {
    var dot' := HomeFacts(l, t, meta);
    assert At(l.cache, l.cur).Node?;
    cache := DotInPlace(l.cache, l.cur + [ToKids], filled, es, |l.vol.inodes|, l.vol.bpb);
    ReplaceInClean(l.cache, l.cur + [ToKids], filled);
    ReplaceBelow(l.cache, l.cur, filled);
    home := At(l.cache, l.cur).(kids := filled);
    AtOfReplace(l.cache, l.cur, home);
  }

  /** Entering a directory of a clean cache changes nothing. */
  lemma EnterClean(l: Live, u: Tree, meta: nat)
    requires DiskHolds(l, u, meta, {}) && IsClean(l.cache) && Sound(l.cache, |l.vol.inodes|, l.vol.bpb)
    requires At(l.cache, l.cur).Node? && At(l.cache, l.cur).num < |u.dirs| && At(l.cache, l.cur).kids.Node?
    ensures Enterable(l) && WithChildren(l) == l
  {
    var f := At(l.cache, l.cur);
    CanEnter(l, u, meta);
    AtInTable(l.cache, l.cur, |l.vol.inodes|);
    AtOfClean(l.cache, l.cur);
    hide VolumeOk, InSync, TextsFit, Enterable, WithChildren, WellShaped;
    FlushClean(f, l.vol);
    EnteredIs(l, f, l.next, l.vol);
  }

  /** A new child of a cached directory of a clean cache. */
  lemma PendingHome(cache: Forest, path: Path, entry: Forest, es: seq<Entry>, n: nat, bpb: nat)
    returns (cache': Forest)
    requires IsClean(cache) && Sound(cache, n, bpb) && At(cache, path).Node? && At(cache, path).kids.Node?
    requires AllNew(entry) && entry.Node? && entry.sib.Nil? && entry.num < n
    requires es == Entries(At(cache, path).kids) + [Entry(entry.name.chars, entry.num)] && Fits(es, bpb)
    ensures var f := At(cache, path); cache' == Replace(cache, path, f.(kids := Append(f.kids, entry)))
    ensures PendingAt(cache', path) && Sound(cache', n, bpb) && cache'.Node?
    ensures At(cache', path).Node? && At(cache', path).num == At(cache, path).num
    ensures Entries(At(cache', path).kids) == es
  {
    var f := At(cache, path);
    var g := f.(kids := Append(f.kids, entry));
    AddIsPending(cache, path, entry);
    EntriesAppend(f.kids, entry);
    SoundPart(cache, path, n, bpb);
    SoundAppend(f.kids, entry, n, bpb);
    assert g.kids.Node? && Sound(g, n, bpb) && Entries(g) == Entries(f);
    SoundReplace(cache, path, g, n, bpb);
    AtOfReplace(cache, path, g);
    cache' := Replace(cache, path, g);
  }

  /** The tree after `lost` was made through the "." entry of the current
      directory and `kept` in the directory itself. */
  function WithoutLost(t: Tree, lost: Name, kept: Name): Tree
    requires t.cwd < |t.dirs|
  {
    Forgotten(MakeDirectory(MakeDirectory(t, lost), kept), t.cwd, t.dirs[t.cwd], Entry(kept, |t.dirs| + 1))
  }

  lemma BothMade(t: Tree, lost: Name, kept: Name)
    requires t.cwd < |t.dirs|
    ensures var w := MakeDirectory(MakeDirectory(t, lost), kept);
            && t.cwd < |w.dirs|
            && w.dirs[t.cwd] == t.dirs[t.cwd] + [Entry(lost, |t.dirs|)] + [Entry(kept, |t.dirs| + 1)]
    ensures ListingOf(WithoutLost(t, lost, kept), t.cwd) == ListingOf(t, t.cwd) + [Entry(kept, |t.dirs| + 1)]
    ensures WithoutLost(t, lost, kept).cwd == t.cwd && |WithoutLost(t, lost, kept).dirs| == |t.dirs| + 2
    ensures var w := MakeDirectory(MakeDirectory(t, lost), kept);
            WithoutLost(t, lost, kept) == Forgotten(w, t.cwd, t.dirs[t.cwd], Entry(kept, |t.dirs| + 1))
  {
  }

  /** mkdir in the directory itself adds to the first list, which has not heard
      of what was made through the "." entry. */
  lemma MkdirAtHome(l: Live, l3: Live, t: Tree, lost: Name, kept: Name, dot: Forest, filled: Forest, meta: nat)
    returns (l4: Live)
    requires AtHome(l, t, meta) && t.cwd < |t.dirs|
    requires dot == At(l.cache, l.cur + [ToKids]) && IsClean(filled)
    requires Filled(dot, filled, ListingOf(MakeDirectory(t, lost), t.cwd), |l.vol.inodes|, l.vol.bpb)
    requires l3.cur == l.cur && l3.mb == l.mb && l3.cache == Replace(l.cache, l.cur + [ToKids], filled)
    requires |l3.vol.inodes| == |l.vol.inodes| && l3.vol.bpb == l.vol.bpb
    requires DiskHolds(l3, MakeDirectory(t, lost), meta, {}) && MayMake(MakeDirectory(t, lost), kept, l3.mb, meta)
    ensures Enterable(l3) && DoMkdir(l3, kept) == Mounted(l4) && l4.mb == l.mb
    ensures DiskHolds(l4, WithoutLost(t, lost, kept), meta, {t.cwd})
    ensures Sound(l4.cache, |l4.vol.inodes|, l4.vol.bpb) && PendingAt(l4.cache, l4.cur)
    ensures At(l4.cache, l4.cur).Node? && At(l4.cache, l4.cur).num == t.cwd
    ensures t.cwd < |WithoutLost(t, lost, kept).dirs|
    ensures Entries(At(l4.cache, l4.cur).kids) == ListingOf(WithoutLost(t, lost, kept), t.cwd)
  {
    var c := |t.dirs| + 1;
    hide AtHome, VolumeOk, InSync, MayMake, INodesMatch, Enterable, WithChildren, DoMkdir, Replace, At;
    hide ListingOf, MakeDirectory, WithoutLost, Sound, PendingAt, IsClean, Filled, Fits, WellShaped;
    hide Append, WithDirectory, Entries, DiskHolds, AllNew;
    var vol := KeptOnDisk(l3, t, lost, kept, meta);
    BothMade(t, lost, kept);
    EntryIsNew(c, CStr(l3.next, kept));
    var cache, home := HomeWithDot(l, t, meta, dot, filled, ListingOf(MakeDirectory(t, lost), t.cwd));
    EnterClean(l3, MakeDirectory(t, lost), meta);
    MkdirIsMade(l3, l3, MakeDirectory(t, lost), kept);
    var cache4 := PendingHome(cache, l.cur, NewEntry(c, CStr(l3.next, kept)),
                              ListingOf(WithoutLost(t, lost, kept), t.cwd), |l.vol.inodes|, l.vol.bpb);
    l4 := Made(l3, c, kept);
    DiskOnly(l3.(vol := vol), l4, WithoutLost(t, lost, kept), meta, {t.cwd});
  }

  lemma SameSize(inodes: seq<INode>, c: nat)
    requires c < |inodes|
    ensures |WithDirectory(inodes, c)| == |inodes|
  {
  }

  lemma EntryIsNew(c: nat, name: CStr)
    ensures AllNew(NewEntry(c, name))
  {
  }

  lemma DiskOnly(l: Live, l': Live, t: Tree, meta: nat, stale: set<nat>)
    requires DiskHolds(l, t, meta, stale) && l'.vol == l.vol && l'.mb == l.mb
    ensures DiskHolds(l', t, meta, stale)
  {
    hide VolumeOk, InSync, WellShaped;
  }

  /** The disk after `kept` has been made, against the tree without `lost`. */
  lemma KeptOnDisk(l: Live, t: Tree, lost: Name, kept: Name, meta: nat)
    returns (vol: Volume)
    requires t.cwd < |t.dirs| && DiskHolds(l, MakeDirectory(t, lost), meta, {})
    requires MayMake(MakeDirectory(t, lost), kept, l.mb, meta)
    ensures |MakeDirectory(t, lost).dirs| == |t.dirs| + 1 && t.cwd < |WithoutLost(t, lost, kept).dirs|
    ensures |t.dirs| + 1 < |l.vol.inodes| && vol == l.vol.(inodes := WithDirectory(l.vol.inodes, |t.dirs| + 1))
    ensures |vol.inodes| == |l.vol.inodes| && vol.bpb == l.vol.bpb
    ensures INodesMatch(l.vol.inodes, MakeDirectory(t, lost))
    ensures MakeDirectory(t, lost).cwd == t.cwd
    ensures Fits(ListingOf(MakeDirectory(t, lost), t.cwd), l.vol.bpb)
    ensures Fits(ListingOf(WithoutLost(t, lost, kept), t.cwd), l.vol.bpb)
    ensures DiskHolds(l.(vol := vol), WithoutLost(t, lost, kept), meta, {t.cwd})
  {
    hide *;
    var u, w := MakeDirectory(t, lost), MakeDirectory(MakeDirectory(t, lost), kept);
    BothMade(t, lost, kept);
    MadeListing(t, lost);
    DiskFacts(l, u, meta, {});
    vol := MadeOnDisk(l, u, kept, meta);
    SameSize(l.vol.inodes, |t.dirs| + 1);
    ForgottenOnDisk(l.(vol := vol), w, t.cwd, t.dirs[t.cwd], Entry(lost, |t.dirs|), Entry(kept, |t.dirs| + 1), meta);
    DiskFacts(l.(vol := vol), WithoutLost(t, lost, kept), meta, {t.cwd});
  }

  lemma DiskFacts(l: Live, t: Tree, meta: nat, stale: set<nat>)
    requires DiskHolds(l, t, meta, stale)
    ensures t.cwd < |t.dirs| && Fits(ListingOf(t, t.cwd), l.vol.bpb)
  {
    VolumeFacts(l.vol, t, meta);
  }

  // ---------- unmount ----------

  /** Unmounting with one pending child stores the list that it is in. */
  lemma UnmountPending(l: Live, t: Tree, meta: nat, c: nat)
    returns (disk: seq<Block>)
    requires DiskHolds(l, t, meta, {c}) && c < |t.dirs| && Sound(l.cache, |l.vol.inodes|, l.vol.bpb)
    requires PendingAt(l.cache, l.cur) && At(l.cache, l.cur).Node? && At(l.cache, l.cur).num == c
    requires Entries(At(l.cache, l.cur).kids) == ListingOf(t, c)
    ensures Flushable(l) && DoUnmount(l) == Idle(disk) && IdleOk(disk, t, meta, l.mb)
  {
    FlushPending(l.cache, l.cur, l.vol);
    var vol := ListingStored(l.vol, t, meta, c, {c});
    PersistedIsOk(vol, t, meta);
    TableStillFills(vol, t, meta);
    disk := Persist(vol);
    hide VolumeOk, InSync, Persist, Persistable, IdleOk, Flush, StoreDirectory, TableFillsBlocks, MasterOf, TextsFit;
  }

  lemma TableStillFills(v: Volume, t: Tree, meta: nat)
    requires VolumeOk(v, t, meta)
    ensures v.bpb > 0 && TableFillsBlocks(|v.inodes|, v.bpb)
  {
  }

  // ---------- the whole story ----------

  /** `cd .` is no way to stay: a directory made through it is lost. From every
      state that a session reaches, after `cd .`, `mkdir lost`, `cd ..`,
      `mkdir kept` and `unmount`, each of which is answered as if all were well,
      the device holds a tree whose current directory has the new child `kept`
      and not `lost`, which is then nobody's child. */
  lemma DotLosesDirectory(l: Live, t: Tree, lost: Name, kept: Name, meta: nat)
    returns (disk: seq<Block>)
    requires LiveOk(l, t, meta) && t.cwd < |t.dirs|
    requires MayMake(t, lost, l.mb, meta) && MayMake(MakeDirectory(t, lost), kept, l.mb, meta)
    ensures Run(Mounted(l), [Cd(DOT_NAME), Mkdir(lost), Cd(PARENT_NAME), Mkdir(kept), Shells.Unmount])
         == (Idle(disk), [Silent, Silent, Silent, Silent, Silent])
    ensures IdleOk(disk, WithoutLost(t, lost, kept), meta, l.mb)
    ensures WithoutLost(t, lost, kept).dirs[t.cwd] == t.dirs[t.cwd] + [Entry(kept, |t.dirs| + 1)]
  {
    hide *;
    var l1 := WithChildrenSettles(l, t, meta);
    NowAtHome(l1, t, meta);
    CdDot(l, l1, t, meta);
    MasterKept(l, DOT_NAME);
    var l2, dot, made := MkdirInDot(l1, t, lost, meta);
    MadeFacts(t, lost);
    DotStateMaster(l1, l2, dot, made, ListingOf(MakeDirectory(t, lost), t.cwd));
    var l3 := CdUpFromDot(l1, l2, t, MakeDirectory(t, lost), dot, made, meta);
    BareIsClean(made);
    var l4 := MkdirAtHome(l1, l3, t, lost, kept, dot, Bare(made), meta);
    disk := UnmountPending(l4, WithoutLost(t, lost, kept), meta, t.cwd);
    FiveSteps(l, l1, l2, l3, l4, disk, lost, kept);
    BothMade(t, lost, kept);
    WithoutLostDirs(t, lost, kept);
  }

  lemma NowAtHome(l: Live, t: Tree, meta: nat)
    requires Settled(l, t, meta) && HasChildren(At(l.cache, l.cur), t, l.next) && At(l.cache, l.cur).num == t.cwd
    ensures AtHome(l, t, meta)
  {
  }

  /** cd . moves to the "." entry. */
  lemma CdDot(l: Live, l1: Live, t: Tree, meta: nat)
    requires Enterable(l) && l1 == WithChildren(l) && l1.cur == l.cur && AtHome(l1, t, meta)
    ensures DoCd(l, DOT_NAME) == (Mounted(InDot(l1)), Silent)
  {
    var dot := HomeFacts(l1, t, meta);
    assert At(l1.cache, l1.cur).Node?;
    hide WithChildren, Enterable, At, FindDirectory, AtHome, ParentSearch;
  }

  lemma MadeFacts(t: Tree, name: Name)
    requires t.cwd < |t.dirs|
    ensures MakeDirectory(t, name).cwd == t.cwd < |MakeDirectory(t, name).dirs|
  {
  }

  lemma DotStateMaster(l: Live, l1: Live, dot: Forest, filled: Forest, es: seq<Entry>)
    requires DotState(l, l1, dot, filled, es)
    ensures dot == At(l.cache, l.cur + [ToKids]) && l1.mb == l.mb
  {
  }

  lemma WithoutLostDirs(t: Tree, lost: Name, kept: Name)
    requires t.cwd < |t.dirs|
    ensures |WithoutLost(t, lost, kept).dirs| == |t.dirs| + 2
    ensures WithoutLost(t, lost, kept).dirs[t.cwd] == t.dirs[t.cwd] + [Entry(kept, |t.dirs| + 1)]
  {
  }

  lemma FiveSteps(l: Live, l1: Live, l2: Live, l3: Live, l4: Live, disk: seq<Block>, lost: Name, kept: Name)
    requires Enterable(l) && DoCd(l, DOT_NAME) == (Mounted(InDot(l1)), Silent)
    requires Enterable(InDot(l1)) && DoMkdir(InDot(l1), lost) == Mounted(l2)
    requires Enterable(l2) && DoCd(l2, PARENT_NAME) == (Mounted(l3), Silent)
    requires Enterable(l3) && DoMkdir(l3, kept) == Mounted(l4)
    requires Flushable(l4) && DoUnmount(l4) == Idle(disk)
    ensures Run(Mounted(l), [Cd(DOT_NAME), Mkdir(lost), Cd(PARENT_NAME), Mkdir(kept), Shells.Unmount])
         == (Idle(disk), [Silent, Silent, Silent, Silent, Silent])
  {
    MountedSteps(l, DOT_NAME);
    MountedSteps(InDot(l1), lost);
    MountedSteps(l2, PARENT_NAME);
    MountedSteps(l3, kept);
    MountedSteps(l4, []);
    FiveInFront(Cd(DOT_NAME), Mkdir(lost), Cd(PARENT_NAME), Mkdir(kept), Shells.Unmount);
    FiveInFront(Silent, Silent, Silent, Silent, Silent);
    hide *;
    var none: seq<Command> := [];
    RunNothing(Idle(disk));
    RunOne(Mounted(l4), Shells.Unmount, none);
    RunOne(Mounted(l3), Mkdir(kept), [Shells.Unmount] + none);
    RunOne(Mounted(l2), Cd(PARENT_NAME), [Mkdir(kept)] + ([Shells.Unmount] + none));
    RunOne(Mounted(InDot(l1)), Mkdir(lost), [Cd(PARENT_NAME), Mkdir(kept), Shells.Unmount]);
    RunOne(Mounted(l), Cd(DOT_NAME), [Mkdir(lost)] + [Cd(PARENT_NAME), Mkdir(kept), Shells.Unmount]);
  }

  lemma MountedSteps(l: Live, name: Name)
    ensures Enterable(l) ==> Step(Mounted(l), Cd(name)) == DoCd(l, name)
    ensures Enterable(l) ==> Step(Mounted(l), Mkdir(name)) == (DoMkdir(l, name), Silent)
    ensures Flushable(l) ==> Step(Mounted(l), Shells.Unmount) == (DoUnmount(l), Silent)
  {
  }

  lemma RunNothing(s: Shell)
    ensures Run(s, []) == (s, [])
  {
  }

  lemma RunOne(s: Shell, c: Command, cs: seq<Command>)
    ensures Run(s, [c] + cs) == (Run(Step(s, c).0, cs).0, [Step(s, c).1] + Run(Step(s, c).0, cs).1)
  {
    hide Step;
    assert ([c] + cs)[1..] == cs;
  }
}
