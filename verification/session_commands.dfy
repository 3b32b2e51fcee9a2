/** Each command keeps the session invariant and answers as the tree does. */
module SessionCommands {
  import opened Bytes
  import opened INodes
  import opened Volumes
  import opened Ownership
  import opened Accounting
  import opened DirectoryText
  import opened DirectoryStore
  import opened Forests
  import opened NameTrees
  import opened WriteBack
  import opened DirtyTracking
  import opened Metadata
  import opened Shells
  import opened Sessions

  // ---------- ls ----------

  lemma LsOk(l: Live, t: Tree, meta: nat)
    returns (l1: Live)
    requires LiveOk(l, t, meta)
    ensures Enterable(l) && l1 == WithChildren(l) && LiveOk(l1, t, meta)
    ensures t.cwd < |t.dirs| && Names(Entries(Children(l1))) == [DOT_NAME] + Names(t.dirs[t.cwd])
  {
    hide WithChildren, LiveOk, Settled, Enterable;
    l1 := WithChildrenSettles(l, t, meta);
    SettledIsOk(l1, t, meta);
    ShowsEntries(Children(l1), t.cwd, ListingOf(t, t.cwd), t, l1.next);
  }

  // ---------- cd ----------

  /** The list walk of cd stops at the entry that the tree names. */
  lemma {:induction false} FindDirectoryFinds(
    f: Forest, p: int, es: seq<Entry>, t: Tree, next: nat, inodes: seq<INode>, name: Name, here: Path)
    returns (rel: Path)
    requires IsTree(t) && p >= 0 && Shows(f, p, es, t, next) && INodesMatch(inodes, t)
    requires forall i :: 0 <= i < |es| && es[i].name == name ==> es[i].num > p
    ensures var c := FindChild(es, name);
            && FindDirectory(f, inodes, name, here).0 == (c != 0)
            && (c != 0 ==> c > p && FindDirectory(f, inodes, name, here).1 == here + rel && LeadsTo(f, p, rel, c))
    decreases f
  {
    rel := [];
    if f.Node? {
      if f.name.chars == name {
        assert es[0].num == f.num && here + [] == here;
      } else {
        rel := FindDirectoryFinds(f.sib, p, es[1..], t, next, inodes, name, here + [ToSib]);
        assert here + [ToSib] + rel == here + ([ToSib] + rel);
        rel := [ToSib] + rel;
      }
    }
  }

  /** What cd finds below the current directory. */
  lemma CdFinds(l: Live, t: Tree, name: Name, meta: nat)
    returns (c: int, rel: Path)
    requires Settled(l, t, meta) && HasChildren(At(l.cache, l.cur), t, l.next) && At(l.cache, l.cur).num == t.cwd
    requires name != DOT_NAME
    ensures t.cwd < |t.dirs| && c == FindChild(t.dirs[t.cwd], name) && 0 <= c < |t.dirs|
    ensures var found := FindDirectory(At(l.cache, l.cur).kids, l.vol.inodes, name, l.cur + [ToKids]);
            found.0 == (c != 0) && (c != 0 ==> found.1 == l.cur + [ToKids] + rel)
    ensures c != 0 ==> LeadsTo(l.cache, -1, l.cur + [ToKids] + rel, c)
  {
    var f, es := At(l.cache, l.cur), ListingOf(t, t.cwd);
    c := FindChild(t.dirs[t.cwd], name);
    FindChildIsChild(t, t.cwd, 0, name);
    assert t.dirs[t.cwd][0..] == t.dirs[t.cwd] && es[1..] == t.dirs[t.cwd];
    ListingIsSiblings(t, t.cwd);
    rel := FindDirectoryFinds(f.kids, t.cwd, es, t, l.next, l.vol.inodes, name, l.cur + [ToKids]);
    if c > 0 {
      LeadsDown(l.cache, -1, l.cur, t.cwd, rel, c);
    }
  }

  lemma SettledCache(l: Live, t: Tree, meta: nat)
    requires Settled(l, t, meta)
    ensures IsTree(t) && t.cwd < |t.dirs| && l.next >= FIRST_ADDRESS
    ensures ShowsTree(l.cache, l.cur, t, l.next) && IsClean(l.cache)
  {
  }

  lemma CdDownOk(l: Live, t: Tree, name: Name, meta: nat)
    returns (rel: Path)
    requires LiveOk(l, t, meta) && name != DOT_NAME && name != PARENT_NAME
    ensures Enterable(l) && t.cwd < |t.dirs|
    ensures var (s, reply) := DoCd(l, name);
            var c := FindChild(t.dirs[t.cwd], name);
            && s.Mounted? && LiveOk(s.live, if c <= 0 then t else t.(cwd := c), meta)
            && reply == (if c <= 0 then NoSuchDirectory else Silent)
            && (c > 0 ==> s.live.cur == l.cur + [ToKids] + rel && LeadsTo(s.live.cache, -1, l.cur, t.cwd))
  {
    var l1 := WithChildrenSettles(l, t, meta);
    var c;
    c, rel := CdFinds(l1, t, name, meta);
    SettledCache(l1, t, meta);
    hide Settled, LiveOk, WithChildren, Enterable, FindDirectory, At;
    if c > 0 {
      MovedIsOk(l1, t, meta, l1.cur + [ToKids] + rel, c);
    } else {
      SettledIsOk(l1, t, meta);
    }
  }

  /** Moving to another directory of a clean cache. */
  lemma MovedIsOk(l: Live, t: Tree, meta: nat, cur: Path, c: nat)
    requires Settled(l, t, meta)
    requires c < |t.dirs| && LeadsTo(l.cache, -1, cur, c)
    ensures LiveOk(l.(cur := cur), t.(cwd := c), meta)
  {
    var t' := t.(cwd := c);
    ShowsIgnoresCwd(l.cache, -1, ROOT_LISTING, t, l.next, c);
    VolumeIgnoresCwd(l.vol, t, meta, Loaded(l.cache), c);
    SettledIsOk(l.(cur := cur), t', meta);
  }

  lemma {:induction false} ShowsIgnoresCwd(f: Forest, p: int, es: seq<Entry>, t: Tree, next: nat, c: nat)
    requires Shows(f, p, es, t, next)
    ensures Shows(f, p, es, t.(cwd := c), next)
    decreases f
  {
    if f.Node? {
      ShowsIgnoresCwd(f.sib, p, es[1..], t, next, c);
      if f.kids.Node? {
        ShowsIgnoresCwd(f.kids, f.num, ListingOf(t, f.num), t, next, c);
      }
    }
  }

  lemma StorableAnywhere(t: Tree, c: nat, bpb: nat)
    requires IsTree(t) && Storable(t, bpb) && c < |t.dirs|
    ensures Storable(t.(cwd := c), bpb)
  {
    var t' := t.(cwd := c);
    forall d | 0 <= d < |t'.dirs|
      ensures ListingOf(t', d) == ListingOf(t, d)
      ensures forall i :: 0 <= i < |t'.dirs[d]| ==> ChildAt(t', d, i) == ChildAt(t, d, i)
    {
    }
  }

  lemma VolumeIgnoresCwd(v: Volume, t: Tree, meta: nat, loaded: set<nat>, c: nat)
    requires VolumeOk(v, t, meta) && InSync(v, t, loaded, {}) && c < |t.dirs|
    ensures VolumeOk(v, t.(cwd := c), meta) && InSync(v, t.(cwd := c), loaded, {})
  {
    var t' := t.(cwd := c);
    IsTreeAnywhere(t, c);
    StorableAnywhere(t, c, v.bpb);
    forall d: nat | d < |t'.dirs|
      ensures Synced(v, t', d) && (d in loaded ==> UpToDate(v, t', d))
    {
      assert Synced(v, t, d) && ListingOf(t', d) == ListingOf(t, d);
    }
  }

  lemma CdUpOk(l: Live, t: Tree, meta: nat)
    requires LiveOk(l, t, meta)
    ensures Enterable(l) && t.cwd < |t.par|
    ensures var (s, reply) := DoCd(l, PARENT_NAME);
            && s.Mounted? && LiveOk(s.live, if t.cwd == 0 then t else t.(cwd := t.par[t.cwd]), meta)
            && reply == if t.cwd == 0 then AlreadyInRoot else Silent
  {
    var l1 := WithChildrenSettles(l, t, meta);
    SettledIsOk(l1, t, meta);
    RootPointer(l1.cache, t, l1.next, l1.cur, t.cwd);
    if t.cwd != 0 {
      ParentSearchFinds(l1.cache, t, l1.next, l1.cur, t.cwd);
      var (found, parent) := ParentSearch(l1.cache, t.cwd, At(l1.cache, l1.cur).name.addr);
      MovedIsOk(l1, t, meta, parent, t.par[t.cwd]);
    }
  }

  // ---------- mkdir ----------

  /** The inode that mkdir gets is the next in order. */
  lemma NextINode(inodes: seq<INode>, t: Tree)
    requires INodesMatch(inodes, t) && 0 < |t.dirs| < |inodes|
    ensures AllocateINode(inodes).1 == |t.dirs|
    ensures AllocateINode(inodes).0
         == inodes[|t.dirs| := inodes[|t.dirs|].(status := ALLOCATED_STATUS, ownerUid := ALLOCATED_UID)]
  {
    var r := FindFree(inodes, 0);
    assert inodes[|t.dirs|].status == FREE_STATUS;
    assert inodes[0].status == ALLOCATED_STATUS;
  }

  /** Changing fields of one inode other than its pointers, length and level. */
  lemma RetaggedVolume(v: Volume, k: nat, n: INode, meta: nat, dirs: nat, dirs': nat)
    returns (v': Volume)
    requires Roomy(v, meta, dirs) && Formatted(v, meta) && k < |v.inodes|
    requires dirs <= dirs' <= |v.inodes| && RoomFor(v.count, meta, dirs')
    requires n.ptrs == v.inodes[k].ptrs && n.level == v.inodes[k].level && HasWidths(n)
    ensures v' == v.(inodes := v.inodes[k := n])
    ensures Roomy(v', meta, dirs') && Formatted(v', meta) && MasterOf(v', 0) == MasterOf(v, 0)
    ensures forall j :: 0 <= j < |v.inodes| ==> StoredBlock(v', j) == StoredBlock(v, j)
  {
    v' := v.(inodes := v.inodes[k := n]);
    assert forall j: nat, b: nat :: PointerAt(v'.inodes, j, b) == PointerAt(v.inodes, j, b);
    TotalPointersUpdate(v.inodes, k, n);
    assert Owned(v', meta);
    forall j | 0 <= j < |v.inodes|
      ensures StoredBlock(v', j) == StoredBlock(v, j)
    {
      SameBlocksSameText(v, v', j, meta);
    }
  }

  lemma SameBlocksSameText(v: Volume, v': Volume, j: nat, meta: nat)
    requires Owned(v, meta) && Owned(v', meta) && v'.bpb == v.bpb && j < |v.inodes| == |v'.inodes|
    requires forall b: nat :: FileBlock(v', j, b) == FileBlock(v, j, b)
    ensures StoredBlock(v', j) == StoredBlock(v, j)
  {
    OwnedInRange(v, j, meta);
    OwnedInRange(v', j, meta);
    ReadIsView(v, j, 0, v.bpb);
    ReadIsView(v', j, 0, v.bpb);
  }

  lemma NewDirectoryFits(c: nat, bpb: nat)
    requires c < 0x8000_0000 && INODE_BYTES <= bpb
    ensures Fits([Entry(DOT_NAME, c)], bpb)
  {
    assert PowerOfTen(10) == 10_000_000_000 by {
      assert PowerOfTen(5) == 100_000;
      assert PowerOfTen(8) == 1000 * PowerOfTen(5);
    }
    DigitsLength(c, 10);
    assert [Entry(DOT_NAME, c)][1..] == [];
  }

  lemma MadeIsStorable(t: Tree, name: Name, bpb: nat)
    requires IsTree(t) && Storable(t, bpb) && LegalName(name) && INODE_BYTES <= bpb && |t.dirs| < 0x8000_0000
    requires Fits(ListingOf(t, t.cwd) + [Entry(name, |t.dirs|)], bpb) && PointersFit(|ListingOf(t, t.cwd)| + 1, bpb)
    ensures Storable(MakeDirectory(t, name), bpb)
  {
    var t' := MakeDirectory(t, name);
    forall c | 0 <= c < |t'.dirs|
      ensures Fits(ListingOf(t', c), bpb) && PointersFit(|ListingOf(t', c)|, bpb)
      ensures forall i :: 0 <= i < |t'.dirs[c]| ==> LegalName(ChildAt(t', c, i).name)
    {
      forall i | 0 <= i < |t'.dirs[c]|
        ensures ChildAt(t', c, i) == if c == t.cwd && i == |t.dirs[c]| then Entry(name, |t.dirs|) else ChildAt(t, c, i)
      {
      }
      if c == |t.dirs| {
        NewDirectoryFits(c, bpb);
        assert ListingOf(t', c) == [Entry(DOT_NAME, c)];
      } else if c == t.cwd {
        assert ListingOf(t', c) == ListingOf(t, c) + [Entry(name, |t.dirs|)];
      } else {
        assert ListingOf(t', c) == ListingOf(t, c);
      }
    }
  }

  /** The inode table after mkdir has taken its inode. */
  function WithDirectory(inodes: seq<INode>, c: nat): seq<INode>
    requires c < |inodes|
  {
    inodes[c := inodes[c].(status := ALLOCATED_STATUS, ownerUid := ALLOCATED_UID, itype := DIRECTORY_TYPE)]
  }

  lemma MkdirINodes(inodes: seq<INode>, t: Tree, name: Name)
    requires IsTree(t) && INodesMatch(inodes, t) && |t.dirs| < |inodes|
    ensures INodesMatch(WithDirectory(inodes, |t.dirs|), MakeDirectory(t, name))
  {
  }

  /** The stored directories after mkdir: the new one is empty, and only the
      current one lacks a line. */
  lemma MkdirInSync(v: Volume, v': Volume, t: Tree, name: Name, loaded: set<nat>)
    requires WellShaped(v) && WellShaped(v') && v'.bpb == v.bpb
    requires IsTree(t) && |t.dirs| < |v.inodes| == |v'.inodes| && InSync(v, t, loaded, {}) && |t.dirs| !in loaded
    requires forall j :: 0 <= j < |v.inodes| ==> StoredBlock(v', j) == StoredBlock(v, j)
    requires StoredBlock(v', |t.dirs|) == Zeros(v.bpb)
    ensures InSync(v', MakeDirectory(t, name), loaded, {t.cwd})
  {
    hide StoredBlock, PrintBlock;
    var t' := MakeDirectory(t, name);
    forall d: nat | d < |t'.dirs| && d != t.cwd
      ensures Synced(v', t', d) && (d in loaded ==> UpToDate(v', t', d))
    {
      if d < |t.dirs| {
        assert Synced(v, t, d) && StoredBlock(v', d) == StoredBlock(v, d) && ListingOf(t', d) == ListingOf(t, d);
      }
    }
  }

  lemma {:induction false} ShowsLoadedDirectories(f: Forest, p: int, es: seq<Entry>, t: Tree, next: nat)
    requires Shows(f, p, es, t, next)
    ensures forall c :: c in Loaded(f) ==> c < |t.dirs|
    decreases f
  {
    if f.Node? {
      ShowsLoadedDirectories(f.sib, p, es[1..], t, next);
      if f.kids.Node? {
        ShowsLoadedDirectories(f.kids, f.num, ListingOf(t, f.num), t, next);
      }
    }
  }

  lemma MkdirVolume(v: Volume, t: Tree, name: Name, meta: nat, loaded: set<nat>)
    returns (v': Volume)
    requires VolumeOk(v, t, meta) && InSync(v, t, loaded, {}) && |t.dirs| !in loaded
    requires t.cwd < |t.dirs| && v.bpb > 0 && MayMake(t, name, MasterOf(v, 0), meta)
    ensures v' == v.(inodes := WithDirectory(v.inodes, |t.dirs|))
    ensures VolumeOk(v', MakeDirectory(t, name), meta) && MasterOf(v', 0) == MasterOf(v, 0)
    ensures InSync(v', MakeDirectory(t, name), loaded, {t.cwd})
  {
    var c := |t.dirs|;
    v' := RetaggedVolume(v, c, WithDirectory(v.inodes, c)[c], meta, c, c + 1);
    MakeDirectoryIsTree(t, name);
    MadeIsStorable(t, name, v.bpb);
    MkdirINodes(v.inodes, t, name);
    UnmappedIsEmpty(v', c);
    MkdirInSync(v, v', t, name, loaded);
  }

  /** The cache after the new child has been added. */
  lemma MkdirCache(cache: Forest, cur: Path, t: Tree, next: nat, name: Name)
    returns (cache': Forest)
    requires IsTree(t) && next >= FIRST_ADDRESS && IsClean(cache) && ShowsTree(cache, cur, t, next)
    requires At(cache, cur).Node? && At(cache, cur).kids.Node?
    ensures var f := At(cache, cur);
            cache' == Replace(cache, cur, f.(kids := Append(f.kids, NewEntry(|t.dirs|, CStr(next, name)))))
    ensures ShowsTree(cache', cur, MakeDirectory(t, name), next + 1) && PendingAt(cache', cur)
  {
    var f, entry := At(cache, cur), NewEntry(|t.dirs|, CStr(next, name));
    cache' := Replace(cache, cur, f.(kids := Append(f.kids, entry)));
    ShowsMade(cache, -1, ROOT_LISTING, t, next, cur, name);
    AddIsPending(cache, cur, entry);
  }

  /** The state that mkdir leaves, from the one after caching. */
  function Made(l: Live, c: nat, name: Name): Live
    requires c < |l.vol.inodes| && At(l.cache, l.cur).Node?
  {
    var f := At(l.cache, l.cur);
    Live(l.vol.(inodes := WithDirectory(l.vol.inodes, c)), l.mb,
         Replace(l.cache, l.cur, f.(kids := Append(f.kids, NewEntry(c, CStr(l.next, name))))),
         l.cur, l.next + 1)
  }

  lemma MkdirIsMade(l: Live, l1: Live, t: Tree, name: Name)
    requires Enterable(l) && l1 == WithChildren(l) && INodesMatch(l1.vol.inodes, t) && 0 < |t.dirs| < |l1.vol.inodes|
    requires At(l1.cache, l1.cur).Node?
    ensures DoMkdir(l, name) == Mounted(Made(l1, |t.dirs|, name))
  {
    NextINode(l1.vol.inodes, t);
    var (inodes, k) := AllocateINode(l1.vol.inodes);
    assert inodes[k := inodes[k].(itype := DIRECTORY_TYPE)] == WithDirectory(l1.vol.inodes, k);
  }

  lemma MadeVolume(l: Live, t: Tree, name: Name, meta: nat)
    returns (vol: Volume)
    requires Settled(l, t, meta)
    requires t.cwd < |t.dirs| < |l.vol.inodes| && MayMake(t, name, l.mb, meta)
    ensures vol == l.vol.(inodes := WithDirectory(l.vol.inodes, |t.dirs|))
    ensures VolumeOk(vol, MakeDirectory(t, name), meta) && l.mb == MasterOf(vol, 0)
    ensures InSync(vol, MakeDirectory(t, name), Loaded(l.cache), {t.cwd})
  {
    ShowsLoadedDirectories(l.cache, -1, ROOT_LISTING, t, l.next);
    vol := MkdirVolume(l.vol, t, name, meta, Loaded(l.cache));
  }

  /** A new child makes no directory loaded. */
  lemma MadeLoads(cache: Forest, cur: Path, c: nat, name: CStr)
    requires At(cache, cur).Node? && At(cache, cur).kids.Node?
    ensures var f := At(cache, cur);
            Loaded(Replace(cache, cur, f.(kids := Append(f.kids, NewEntry(c, name))))) <= Loaded(cache)
  {
    var f, entry := At(cache, cur), NewEntry(c, name);
    LoadedAt(cache, cur);
    LoadedOfAppend(f.kids, entry);
    LoadedOfReplace(cache, cur, f.(kids := Append(f.kids, entry)));
  }

  lemma MadeCache(l: Live, t: Tree, name: Name, meta: nat)
    returns (cache: Forest)
    requires Settled(l, t, meta) && At(l.cache, l.cur).Node? && At(l.cache, l.cur).kids.Node?
    ensures var f := At(l.cache, l.cur);
            cache == Replace(l.cache, l.cur, f.(kids := Append(f.kids, NewEntry(|t.dirs|, CStr(l.next, name)))))
    ensures t.cwd < |t.dirs| && ShowsTree(cache, l.cur, MakeDirectory(t, name), l.next + 1) && PendingAt(cache, l.cur)
    ensures l.next + 1 >= FIRST_ADDRESS && Loaded(cache) <= Loaded(l.cache)
  {
    hide *;
    SettledCache(l, t, meta);
    MadeLoads(l.cache, l.cur, |t.dirs|, CStr(l.next, name));
    cache := MkdirCache(l.cache, l.cur, t, l.next, name);
  }

  lemma MadeParts(l: Live, c: nat, name: Name, vol: Volume, cache: Forest)
    requires c < |l.vol.inodes| && At(l.cache, l.cur).Node?
    requires vol == l.vol.(inodes := WithDirectory(l.vol.inodes, c))
    requires var f := At(l.cache, l.cur);
             cache == Replace(l.cache, l.cur, f.(kids := Append(f.kids, NewEntry(c, CStr(l.next, name)))))
    ensures Made(l, c, name) == Live(vol, l.mb, cache, l.cur, l.next + 1)
  {
  }

  lemma MadeIsOk(l: Live, t: Tree, name: Name, meta: nat)
    returns (l2: Live)
    requires Settled(l, t, meta)
    requires t.cwd < |t.dirs| < |l.vol.inodes| && MayMake(t, name, l.mb, meta)
    requires At(l.cache, l.cur).Node? && At(l.cache, l.cur).kids.Node?
    ensures l2 == Made(l, |t.dirs|, name) && LiveOk(l2, MakeDirectory(t, name), meta)
  {
    hide *;
    var vol := MadeVolume(l, t, name, meta);
    var cache := MadeCache(l, t, name, meta);
    MadeParts(l, |t.dirs|, name, vol, cache);
    l2 := PendingIsOk(vol, l.mb, cache, l.cur, l.next + 1, MakeDirectory(t, name), meta, t.cwd, Loaded(l.cache));
  }

  lemma SettledINodes(l: Live, t: Tree, meta: nat)
    requires Settled(l, t, meta)
    ensures INodesMatch(l.vol.inodes, t) && 0 < |t.dirs| && l.mb.inodeCount == |l.vol.inodes|
  {
  }

  lemma MkdirOk(l: Live, t: Tree, name: Name, meta: nat)
    returns (l2: Live)
    requires LiveOk(l, t, meta) && t.cwd < |t.dirs| && MayMake(t, name, l.mb, meta)
    ensures Enterable(l) && DoMkdir(l, name) == Mounted(l2) && LiveOk(l2, MakeDirectory(t, name), meta)
  {
    var l1 := WithChildrenSettles(l, t, meta);
    SettledINodes(l1, t, meta);
    MkdirIsMade(l, l1, t, name);
    l2 := MadeIsOk(l1, t, name, meta);
  }

  lemma PendingIsOk(vol: Volume, mb: MasterBlock, cache: Forest, cur: Path, next: nat, t: Tree, meta: nat, cwd: nat,
                    loaded: set<nat>)
    returns (l: Live)
    requires VolumeOk(vol, t, meta) && mb == MasterOf(vol, 0) && next >= FIRST_ADDRESS && t.cwd == cwd
    requires ShowsTree(cache, cur, t, next) && PendingAt(cache, cur) && InSync(vol, t, loaded, {cwd})
    requires Loaded(cache) <= loaded
    ensures l == Live(vol, mb, cache, cur, next) && LiveOk(l, t, meta)
  {
    l := Live(vol, mb, cache, cur, next);
    assert InPhase(cache, cur, ChildPending) && InSync(vol, t, Loaded(cache), Stale(ChildPending, t));
  }
}
