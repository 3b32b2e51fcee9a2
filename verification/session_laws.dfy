/** What holds in every state a session reaches, and what the commands that the
    refinement leaves out really do. */
module SessionLaws {
  import opened Bytes
  import opened BlockDevices
  import opened INodes
  import opened Volumes
  import opened Ownership
  import opened Accounting
  import opened DirectoryText
  import opened DirectoryStore
  import opened Forests
  import opened NameTrees
  import opened WriteBack
  import opened DirtyTracking
  import opened Metadata
  import opened Shells
  import opened Sessions
  import opened SessionCommands
  import opened Refinement

  // ---------- dirty tracking over runs ----------

  /** If the directory at `path` is cached and no child of it is dirty, its
      stored text is its cached list of children. */
  predicate CachedIsStored(l: Live, path: Path)
    requires WellShaped(l.vol)
  {
    var f := At(l.cache, path);
    f.Node? && f.kids.Node? && !AnyDirty(f.kids) ==>
      f.num < |l.vol.inodes| && StoredBlock(l.vol, f.num) == PrintBlock(Entries(f.kids), l.vol.bpb)
  }

  lemma PendingIsDirty(cache: Forest, cur: Path)
    requires PendingAt(cache, cur)
    ensures At(cache, cur).Node? && AnyDirty(At(cache, cur).kids)
  {
    AtOfPending(cache, cur);
    CleanedOfLastDirty(At(cache, cur).kids);
  }

  lemma LoadedAtPath(cache: Forest, cur: Path, path: Path, t: Tree, next: nat)
    returns (c: nat)
    requires ShowsTree(cache, cur, t, next)
    requires At(cache, path).Node? && At(cache, path).kids.Node?
    ensures c == At(cache, path).num && c in Loaded(cache) && c < |t.dirs|
    ensures LeadsTo(cache, -1, path, c) && Entries(At(cache, path).kids) == ListingOf(t, c)
  {
    c := At(cache, path).num;
    LoadedIsReal(cache, -1, ROOT_LISTING, t, next, path);
    LoadedAt(cache, path);
    var p, es := ShowsAt(cache, -1, ROOT_LISTING, t, next, path, c);
    ShowsEntries(At(cache, path).kids, c, ListingOf(t, c), t, next);
  }

  lemma CleanIsStored(l: Live, t: Tree, meta: nat, path: Path)
    requires LiveOk(l, t, meta)
    ensures CachedIsStored(l, path)
  {
    var f := At(l.cache, path);
    if f.Node? && f.kids.Node? && !AnyDirty(f.kids) {
      var phase :| InPhase(l.cache, l.cur, phase) && InSync(l.vol, t, Loaded(l.cache), Stale(phase, t));
      var c := LoadedAtPath(l.cache, l.cur, path, t, l.next);
      if phase == ChildPending && c == t.cwd {
        LeadsToUnique(l.cache, -1, ROOT_LISTING, t, l.next, path, l.cur, c);
        PendingIsDirty(l.cache, l.cur);
        assert false;
      }
      assert UpToDate(l.vol, t, c);
    }
  }

  /** Dirty tracking, over every run of legal commands: between two commands the
      cache is clean, or clean but for the last child of the current directory,
      or the bare root of a volume just mounted; and each cached directory
      without a dirty child is stored as it is cached. */
  lemma DirtyTrackingOverRuns(disk: seq<Block>, bpb: nat, inodeCount: nat, cs: seq<Command>)
    returns (s: Shell)
    requires LegalSession(disk, bpb, inodeCount, cs)
    ensures s == Run(Idle(NewFs(disk, bpb, inodeCount).value), cs).0
    ensures s.Mounted? ==> WellShaped(s.live.vol)
    ensures s.Mounted? ==> exists phase :: InPhase(s.live.cache, s.live.cur, phase)
    ensures s.Mounted? ==> forall path :: CachedIsStored(s.live, path)
  {
    SessionRefinement(disk, bpb, inodeCount, cs);
    s := Run(Idle(NewFs(disk, bpb, inodeCount).value), cs).0;
    var t, meta := RunView(FRESH_VIEW, cs).0.tree, MetadataBlocks(|disk|, bpb, inodeCount);
    if s.Mounted? {
      forall path
        ensures CachedIsStored(s.live, path)
      {
        CleanIsStored(s.live, t, meta, path);
      }
      var phase :| InPhase(s.live.cache, s.live.cur, phase)
        && InSync(s.live.vol, t, Loaded(s.live.cache), Stale(phase, t));
    }
  }

  /** Ownership and conservation, over every run of legal commands. */
  lemma OwnershipOverRuns(disk: seq<Block>, bpb: nat, inodeCount: nat, cs: seq<Command>)
    returns (s: Shell)
    requires LegalSession(disk, bpb, inodeCount, cs)
    ensures s == Run(Idle(NewFs(disk, bpb, inodeCount).value), cs).0
    ensures s.Mounted? ==>
      && Owned(s.live.vol, MetadataBlocks(|disk|, bpb, inodeCount))
      && Conserved(s.live.vol, MetadataBlocks(|disk|, bpb, inodeCount))
  {
    SessionRefinement(disk, bpb, inodeCount, cs);
    s := Run(Idle(NewFs(disk, bpb, inodeCount).value), cs).0;
  }

  // ---------- cd down, then up ----------

  lemma ChildHasParent(t: Tree, name: Name)
    returns (c: nat)
    requires IsTree(t) && FindChild(t.dirs[t.cwd], name) > 0
    ensures c == FindChild(t.dirs[t.cwd], name) && 0 < c < |t.par| && t.par[c] == t.cwd
  {
    FindChildIsChild(t, t.cwd, 0, name);
    assert t.dirs[t.cwd][0..] == t.dirs[t.cwd];
    c := FindChild(t.dirs[t.cwd], name);
  }

  /** After cd to a child, the pointer runs through the directory it came from. */
  lemma CdDownPath(l: Live, t: Tree, name: Name, meta: nat)
    returns (l1: Live, rest: Path)
    requires LiveOk(l, t, meta) && name != DOT_NAME && name != PARENT_NAME
    requires t.cwd < |t.dirs| && FindChild(t.dirs[t.cwd], name) > 0
    ensures Enterable(l) && DoCd(l, name).0 == Mounted(l1)
    ensures LiveOk(l1, t.(cwd := FindChild(t.dirs[t.cwd], name)), meta)
    ensures rest != [] && l1.cur == l.cur + rest && LeadsTo(l1.cache, -1, l.cur, t.cwd)
  {
    hide *;
    var rel := CdDownOk(l, t, name, meta);
    l1 := DoCd(l, name).0.live;
    rest := [ToKids] + rel;
    assert l.cur + [ToKids] + rel == l.cur + rest;
  }

  lemma AtOfWithChildren(l: Live)
    returns (f: Forest)
    requires Enterable(l)
    ensures WithChildren(l).cache == Replace(l.cache, l.cur, f)
  {
    AtInTable(l.cache, l.cur, |l.vol.inodes|);
    f := GetChildren(At(l.cache, l.cur), l.vol, l.next).0;
  }

  lemma CdUpMoves(l: Live, t: Tree, meta: nat)
    returns (l2: Live)
    requires LiveOk(l, t, meta) && t.cwd != 0
    ensures Enterable(l) && t.cwd < |t.par| && DoCd(l, PARENT_NAME) == (Mounted(l2), Silent)
    ensures l2.cache == WithChildren(l).cache && LiveOk(l2, t.(cwd := t.par[t.cwd]), meta)
  {
    CdUpOk(l, t, meta);
    l2 := DoCd(l, PARENT_NAME).0.live;
    hide ParentSearch, FindDirectory, LiveOk, Enterable, GetChildren;
  }

  /** cd .. finds the directory that the pointer runs through. */
  lemma CdUpPath(l: Live, t: Tree, meta: nat, path: Path, rest: Path)
    returns (l2: Live)
    requires LiveOk(l, t, meta) && 0 < t.cwd < |t.par|
    requires l.cur == path + rest && rest != [] && LeadsTo(l.cache, -1, path, t.par[t.cwd])
    ensures Enterable(l) && DoCd(l, PARENT_NAME) == (Mounted(l2), Silent)
    ensures l2.cur == path && LiveOk(l2, t.(cwd := t.par[t.cwd]), meta)
  {
    l2 := CdUpMoves(l, t, meta);
    var f := AtOfWithChildren(l);
    LeadsToKept(l.cache, -1, path, t.par[t.cwd], rest, f);
    OnePointer(l2, t.(cwd := t.par[t.cwd]), meta, path);
  }

  lemma OnePointer(l: Live, t: Tree, meta: nat, path: Path)
    requires LiveOk(l, t, meta) && LeadsTo(l.cache, -1, path, t.cwd)
    ensures l.cur == path
  {
    LeadsToUnique(l.cache, -1, ROOT_LISTING, t, l.next, l.cur, path, t.cwd);
  }

  /** Going down to a directory and up again restores the current directory: the
      pointer itself, not just the name. */
  lemma CdThenUp(l: Live, t: Tree, name: Name, meta: nat)
    returns (l1: Live, l2: Live)
    requires LiveOk(l, t, meta) && name != DOT_NAME && name != PARENT_NAME
    requires t.cwd < |t.dirs| && FindChild(t.dirs[t.cwd], name) > 0
    ensures Enterable(l) && DoCd(l, name) == (Mounted(l1), Silent) && l1.cur != l.cur
    ensures Enterable(l1) && DoCd(l1, PARENT_NAME) == (Mounted(l2), Silent) && l2.cur == l.cur
    ensures LiveOk(l2, t, meta)
  {
    LiveBounds(l, t, meta);
    var c := ChildHasParent(t, name);
    var _ := CdDownOk(l, t, name, meta);
    hide LiveOk, Enterable, DoCd;
    var rest;
    l1, rest := CdDownPath(l, t, name, meta);
    l2 := CdUpPath(l1, t.(cwd := c), meta, l.cur, rest);
    assert t.(cwd := c).(cwd := t.cwd) == t;
  }

  // ---------- what the refinement leaves out ----------

  lemma {:induction false} AtConcat(f: Forest, path: Path, rest: Path)
    requires At(f, path).Node?
    ensures At(f, path + rest) == At(At(f, path), rest)
    decreases |path|
  {
    if path == [] {
      assert path + rest == rest;
    } else {
      assert (path + rest)[1..] == path[1..] + rest;
      AtConcat(if path[0] == ToKids then f.kids else f.sib, path[1..], rest);
    }
  }

  /** `cd .` does not stay: it always moves to the "." entry, which has the inode
      of the current directory but is not its entry, and where nothing has been
      loaded. From there the directory would be cached a second time. */
  lemma DotIsAnotherEntry(l: Live, t: Tree, meta: nat)
    returns (l2: Live)
    requires LiveOk(l, t, meta)
    ensures Enterable(l) && DoCd(l, DOT_NAME) == (Mounted(l2), Silent)
    ensures l2.cur == l.cur + [ToKids] && At(l2.cache, l2.cur).Node?
    ensures At(l2.cache, l2.cur).num == t.cwd && At(l2.cache, l2.cur).kids.Nil?
    ensures !LeadsTo(l2.cache, -1, l2.cur, t.cwd)
  {
    var l1 := WithChildrenSettles(l, t, meta);
    SettledINodes(l1, t, meta);
    SettledCache(l1, t, meta);
    DotComesFirst(l1.cache, l1.cur, l1.vol.inodes, t, l1.next);
    if LeadsTo(l1.cache, -1, l1.cur + [ToKids], t.cwd) {
      LeadsToUnique(l1.cache, -1, ROOT_LISTING, t, l1.next, l1.cur, l1.cur + [ToKids], t.cwd);
    }
    l2 := l1.(cur := l1.cur + [ToKids]);
  }

  lemma DotComesFirst(cache: Forest, cur: Path, inodes: seq<INode>, t: Tree, next: nat)
    requires HasChildren(At(cache, cur), t, next) && At(cache, cur).num == t.cwd && INodesMatch(inodes, t)
    ensures FindDirectory(At(cache, cur).kids, inodes, DOT_NAME, cur + [ToKids]) == (true, cur + [ToKids])
    ensures At(cache, cur + [ToKids]) == At(cache, cur).kids
    ensures At(cache, cur).kids.num == t.cwd && At(cache, cur).kids.kids.Nil?
  {
    AtConcat(cache, cur, [ToKids]);
    assert [ToKids][1..] == [];
  }

  /** mkdir gives the new entry an inode of its own exactly while there is a free
      one. After that it succeeds all the same, and the new entry is the root. */
  lemma MkdirNeedsINode(l: Live, t: Tree, name: Name, meta: nat)
    returns (k: nat)
    requires LiveOk(l, t, meta)
    ensures Enterable(l) && At(WithChildren(l).cache, l.cur).Node?
    ensures var f := At(WithChildren(l).cache, l.cur);
            var entry := NewEntry(k, CStr(WithChildren(l).next, name));
            && DoMkdir(l, name).Mounted?
            && DoMkdir(l, name).live.cache == Replace(WithChildren(l).cache, l.cur, f.(kids := Append(f.kids, entry)))
    ensures k == if |t.dirs| < l.mb.inodeCount then |t.dirs| else 0
    ensures k != 0 <==> |t.dirs| < l.mb.inodeCount
  {
    var l1 := WithChildrenSettles(l, t, meta);
    SettledINodes(l1, t, meta);
    MasterKept(l, name);
    k := NextOrRoot(l1.vol.inodes, t);
  }

  lemma NextOrRoot(inodes: seq<INode>, t: Tree)
    returns (k: nat)
    requires INodesMatch(inodes, t) && 0 < |t.dirs|
    ensures k == AllocateINode(inodes).1 < |inodes| == |AllocateINode(inodes).0|
    ensures k == if |t.dirs| < |inodes| then |t.dirs| else 0
  {
    k := AllocateINode(inodes).1;
    if |t.dirs| < |inodes| {
      NextINode(inodes, t);
    } else {
      ZeroMeansFailure(inodes);
    }
  }

  // ---------- nothing is lost ----------

  /** t' has every directory of t, with the children it had, in their order. */
  predicate Grows(t: Tree, t': Tree) {
    |t.dirs| <= |t'.dirs| && forall c :: 0 <= c < |t.dirs| ==> t.dirs[c] <= t'.dirs[c]
  }

  lemma GrowsTransitive(t: Tree, t': Tree, t'': Tree)
    requires Grows(t, t') && Grows(t', t'')
    ensures Grows(t, t'')
  {
    forall c | 0 <= c < |t.dirs|
      ensures t.dirs[c] <= t''.dirs[c]
    {
      assert t.dirs[c] <= t'.dirs[c] <= t''.dirs[c];
    }
  }

  /** No run of commands loses or reorders a name, unmounts included. */
  lemma {:induction false} RunGrows(w: View, cs: seq<Command>)
    requires IsTree(w.tree)
    ensures Grows(w.tree, RunView(w, cs).0.tree)
    decreases |cs|
  {
    if cs != [] {
      StepViewIsTree(w, cs[0]);
      var w1 := StepView(w, cs[0]).0;
      assert Grows(w.tree, w1.tree);
      RunGrows(w1, cs[1..]);
      GrowsTransitive(w.tree, w1.tree, RunView(w1, cs[1..]).0.tree);
    }
  }

  // ---------- a session ----------

  lemma TwoLines(e: Entry, f: Entry, bpb: nat)
    requires 0 <= e.num < 10 && 0 <= f.num < 10 && |e.name| + |f.name| + 6 < bpb
    ensures Fits([e, f], bpb) && Fits([e], bpb)
  {
    assert Print([e, f][1..]) == Line(f) + [];
    assert [e][1..] == [] && [e, f][1..] == [f] && [f][1..] == [];
  }

  /** A legal command in front of a legal run. */
  lemma OneMore(w: View, c: Command, cs: seq<Command>, mb: MasterBlock, meta: nat)
    requires IsTree(w.tree) && Legal(w, c, mb, meta) && IsTree(StepView(w, c).0.tree)
    requires LegalRun(StepView(w, c).0, cs, mb, meta)
    ensures LegalRun(w, [c] + cs, mb, meta)
    ensures RunView(w, [c] + cs).1 == [StepView(w, c).1] + RunView(StepView(w, c).0, cs).1
  {
    hide Legal, StepView, IsTree;
    assert ([c] + cs)[1..] == cs;
  }

  /** The tree with directory `a` in the root and directory `b` in `a`. */
  function TwoDeep(a: Name, b: Name): Tree {
    Tree([[Entry(a, 1)], [Entry(b, 2)], []], [0, 0, 1], 0)
  }

  /** One directory in the root. */
  function OneDeep(a: Name): Tree {
    Tree([[Entry(a, 1)], []], [0, 0], 0)
  }

  lemma TwoDeepIsMade(a: Name, b: Name)
    ensures IsTree(EMPTY_TREE) && IsTree(OneDeep(a)) && IsTree(OneDeep(a).(cwd := 1))
    ensures IsTree(TwoDeep(a, b)) && IsTree(TwoDeep(a, b).(cwd := 1))
    ensures MakeDirectory(EMPTY_TREE, a) == OneDeep(a)
    ensures MakeDirectory(OneDeep(a).(cwd := 1), b) == TwoDeep(a, b).(cwd := 1)
  {
    var none: seq<Entry> := [];
    assert none + [Entry(a, 1)] == [Entry(a, 1)] && none + [Entry(b, 2)] == [Entry(b, 2)];
    assert [none][0 := [Entry(a, 1)]] + [none] == [[Entry(a, 1)], none];
    assert [[Entry(a, 1)], none][1 := [Entry(b, 2)]] + [none] == [[Entry(a, 1)], [Entry(b, 2)], none];
    MakeDirectoryIsTree(EMPTY_TREE, a);
    IsTreeAnywhere(OneDeep(a), 1);
    MakeDirectoryIsTree(OneDeep(a).(cwd := 1), b);
    IsTreeAnywhere(TwoDeep(a, b).(cwd := 1), 0);
  }

  /** What the device has to offer for two directories beside the root. */
  predicate RoomForTwo(mb: MasterBlock, meta: nat) {
    3 <= mb.inodeCount && RoomFor(mb.blockCount, meta, 3) && INODE_BYTES <= mb.bytesPerBlock
  }

  predicate GoodName(a: Name) {
    LegalName(a) && |a| <= 100 && a != DOT_NAME && a != PARENT_NAME
  }

  lemma MayMakeBoth(a: Name, b: Name, mb: MasterBlock, meta: nat)
    requires RoomForTwo(mb, meta) && GoodName(a) && GoodName(b)
    ensures MayMake(EMPTY_TREE, a, mb, meta) && MayMake(OneDeep(a).(cwd := 1), b, mb, meta)
  {
    TwoLines(Entry(DOT_NAME, 0), Entry(a, 1), mb.bytesPerBlock);
    TwoLines(Entry(DOT_NAME, 1), Entry(b, 2), mb.bytesPerBlock);
    assert ListingOf(EMPTY_TREE, 0) + [Entry(a, 1)] == [Entry(DOT_NAME, 0), Entry(a, 1)];
    assert ListingOf(OneDeep(a).(cwd := 1), 1) + [Entry(b, 2)] == [Entry(DOT_NAME, 1), Entry(b, 2)];
    hide LegalName, Fits;
  }

  /** Making them. */
  lemma MakingBoth(a: Name, b: Name, mb: MasterBlock, meta: nat)
    requires RoomForTwo(mb, meta) && GoodName(a) && GoodName(b)
    ensures Legal(View(EMPTY_TREE, true), Mkdir(a), mb, meta) && Legal(View(OneDeep(a), true), Cd(a), mb, meta)
    ensures Legal(View(OneDeep(a).(cwd := 1), true), Mkdir(b), mb, meta)
    ensures StepView(View(EMPTY_TREE, true), Mkdir(a)) == (View(OneDeep(a), true), Silent)
    ensures StepView(View(OneDeep(a), true), Cd(a)) == (View(OneDeep(a).(cwd := 1), true), Silent)
    ensures StepView(View(OneDeep(a).(cwd := 1), true), Mkdir(b)) == (View(TwoDeep(a, b).(cwd := 1), true), Silent)
  {
    MayMakeBoth(a, b, mb, meta);
    TwoDeepIsMade(a, b);
    hide MayMake, MakeDirectory, LegalName;
  }

  /** Looking at them. */
  lemma SeeingBoth(a: Name, b: Name)
    requires GoodName(a)
    ensures StepView(View(TwoDeep(a, b), true), Ls) == (View(TwoDeep(a, b), true), Listing([DOT_NAME, a]))
    ensures StepView(View(TwoDeep(a, b), true), Cd(a)) == (View(TwoDeep(a, b).(cwd := 1), true), Silent)
    ensures StepView(View(TwoDeep(a, b).(cwd := 1), true), Ls)
         == (View(TwoDeep(a, b).(cwd := 1), true), Listing([DOT_NAME, b]))
    ensures StepView(View(TwoDeep(a, b).(cwd := 1), true), Cd(PARENT_NAME)) == (View(TwoDeep(a, b), true), Silent)
  {
    hide LegalName;
    assert [DOT_NAME] + Names([Entry(a, 1)]) == [DOT_NAME, a] && [DOT_NAME] + Names([Entry(b, 2)]) == [DOT_NAME, b];
  }

  /** The part of the run after the second mount. */
  lemma LookAround(a: Name, b: Name, mb: MasterBlock, meta: nat)
    requires GoodName(a)
    ensures IsTree(TwoDeep(a, b)) && LegalRun(View(TwoDeep(a, b), true), [Ls, Cd(a), Ls, Cd(PARENT_NAME), Ls], mb, meta)
    ensures RunView(View(TwoDeep(a, b), true), [Ls, Cd(a), Ls, Cd(PARENT_NAME), Ls]).1
         == [Listing([DOT_NAME, a]), Silent, Listing([DOT_NAME, b]), Silent, Listing([DOT_NAME, a])]
  {
    TwoDeepIsMade(a, b);
    SeeingBoth(a, b);
    var here, below := View(TwoDeep(a, b), true), View(TwoDeep(a, b).(cwd := 1), true);
    assert LegalRun(here, [], mb, meta) && RunView(here, []).1 == [];
    assert Legal(here, Ls, mb, meta) && Legal(here, Cd(a), mb, meta);
    assert Legal(below, Ls, mb, meta) && Legal(below, Cd(PARENT_NAME), mb, meta);
    FiveInFront(Ls, Cd(a), Ls, Cd(PARENT_NAME), Ls);
    FiveInFront(Listing([DOT_NAME, a]), Silent, Listing([DOT_NAME, b]), Silent, Listing([DOT_NAME, a]));
    hide *;
    var none: seq<Command> := [];
    OneMore(here, Ls, none, mb, meta);
    OneMore(below, Cd(PARENT_NAME), [Ls] + none, mb, meta);
    OneMore(below, Ls, [Cd(PARENT_NAME)] + ([Ls] + none), mb, meta);
    OneMore(here, Cd(a), [Ls, Cd(PARENT_NAME), Ls], mb, meta);
    OneMore(here, Ls, [Cd(a)] + [Ls, Cd(PARENT_NAME), Ls], mb, meta);
  }

  /** A tree that is unmounted and mounted again, as a legal run. */
  lemma AcrossMounts(t: Tree, cs: seq<Command>, mb: MasterBlock, meta: nat)
    requires IsTree(t) && t.cwd == 0 && LegalRun(View(t, true), cs, mb, meta)
    requires 1 < |t.dirs| && IsTree(t.(cwd := 1))
    ensures LegalRun(View(t.(cwd := 1), true), [Unmount, MountDevice] + cs, mb, meta)
    ensures RunView(View(t.(cwd := 1), true), [Unmount, MountDevice] + cs).1
         == [Silent, Silent] + RunView(View(t, true), cs).1
  {
    var below := t.(cwd := 1);
    assert StepView(View(below, false), MountDevice) == (View(t, true), Silent);
    assert StepView(View(below, true), Unmount) == (View(below, false), Silent);
    assert Legal(View(below, false), MountDevice, mb, meta) && Legal(View(below, true), Unmount, mb, meta);
    assert [Unmount] + ([MountDevice] + cs) == [Unmount, MountDevice] + cs;
    hide *;
    OneMore(View(below, false), MountDevice, cs, mb, meta);
    OneMore(View(below, true), Unmount, [MountDevice] + cs, mb, meta);
  }

  lemma ThreeInFront<T>(a: T, b: T, c: T, rest: seq<T>)
    ensures [a] + ([b] + ([c] + rest)) == [a, b, c] + rest
  {
  }

  lemma FiveInFront<T>(a: T, b: T, c: T, d: T, e: T)
    ensures [c] + ([d] + ([e] + [])) == [c, d, e]
    ensures [a] + ([b] + [c, d, e]) == [a, b, c, d, e]
  {
  }

  lemma SixInFront<T>(a: T, b: T, c: T, d: T, e: T, f: T, rest: seq<T>)
    requires |rest| == 5
    ensures [a] + ([b, c, d] + ([e, f] + rest)) == [a, b, c, d, e, f, rest[0], rest[1], rest[2], rest[3], rest[4]]
  {
  }

  /** The part before them. */
  lemma MakeThem(a: Name, b: Name, cs: seq<Command>, mb: MasterBlock, meta: nat)
    requires RoomForTwo(mb, meta) && GoodName(a) && GoodName(b)
    requires IsTree(TwoDeep(a, b).(cwd := 1)) && LegalRun(View(TwoDeep(a, b).(cwd := 1), true), cs, mb, meta)
    ensures IsTree(EMPTY_TREE) && LegalRun(View(EMPTY_TREE, true), [Mkdir(a), Cd(a), Mkdir(b)] + cs, mb, meta)
    ensures RunView(View(EMPTY_TREE, true), [Mkdir(a), Cd(a), Mkdir(b)] + cs).1
         == [Silent, Silent, Silent] + RunView(View(TwoDeep(a, b).(cwd := 1), true), cs).1
  {
    TwoDeepIsMade(a, b);
    MakingBoth(a, b, mb, meta);
    ThreeInFront(Mkdir(a), Cd(a), Mkdir(b), cs);
    ThreeInFront(Silent, Silent, Silent, RunView(View(TwoDeep(a, b).(cwd := 1), true), cs).1);
    hide *;
    OneMore(View(OneDeep(a).(cwd := 1), true), Mkdir(b), cs, mb, meta);
    OneMore(View(OneDeep(a), true), Cd(a), [Mkdir(b)] + cs, mb, meta);
    OneMore(View(EMPTY_TREE, true), Mkdir(a), [Cd(a)] + ([Mkdir(b)] + cs), mb, meta);
  }

  /** The whole run. */
  lemma NestedRun(a: Name, b: Name, mb: MasterBlock, meta: nat)
    returns (cs: seq<Command>)
    requires RoomForTwo(mb, meta) && GoodName(a) && GoodName(b)
    ensures cs == [MountDevice, Mkdir(a), Cd(a), Mkdir(b), Unmount, MountDevice, Ls, Cd(a), Ls, Cd(PARENT_NAME), Ls]
    ensures IsTree(EMPTY_TREE) && LegalRun(FRESH_VIEW, cs, mb, meta)
    ensures RunView(FRESH_VIEW, cs).1
         == [Silent, Silent, Silent, Silent, Silent, Silent, Listing([DOT_NAME, a]), Silent, Listing([DOT_NAME, b]),
             Silent, Listing([DOT_NAME, a])]
  {
    TwoDeepIsMade(a, b);
    assert StepView(FRESH_VIEW, MountDevice) == (View(EMPTY_TREE, true), Silent);
    assert Legal(FRESH_VIEW, MountDevice, mb, meta);
    assert TwoDeep(a, b).cwd == 0 && |TwoDeep(a, b).dirs| == 3;
    hide *;
    var last := [Ls, Cd(a), Ls, Cd(PARENT_NAME), Ls];
    LookAround(a, b, mb, meta);
    AcrossMounts(TwoDeep(a, b), last, mb, meta);
    MakeThem(a, b, [Unmount, MountDevice] + last, mb, meta);
    SixInFront(MountDevice, Mkdir(a), Cd(a), Mkdir(b), Unmount, MountDevice, last);
    SixInFront(Silent, Silent, Silent, Silent, Silent, Silent, RunView(View(TwoDeep(a, b), true), last).1);
    cs := [Mkdir(a), Cd(a), Mkdir(b)] + ([Unmount, MountDevice] + last);
    OneMore(FRESH_VIEW, MountDevice, cs, mb, meta);
    cs := [MountDevice] + cs;
  }

  /** Two directories are made, one inside the other, and are still there after
      an unmount and a mount: such sessions are legal on every device with three
      inodes and the blocks for three directories. */
  lemma NestedSession(disk: seq<Block>, bpb: nat, inodeCount: nat, a: Name, b: Name)
    returns (cs: seq<Command>)
    requires IsDisk(disk, bpb) && bpb < 0x8000_0000 && |disk| < 0x8000_0000 && 3 <= inodeCount < 0x8000_0000
    requires NewFs(disk, bpb, inodeCount).Some? && BlockMapFits(|disk|, bpb) && TableFillsBlocks(inodeCount, bpb)
    requires RoomFor(|disk|, MetadataBlocks(|disk|, bpb, inodeCount), 3) && GoodName(a) && GoodName(b)
    ensures cs == [MountDevice, Mkdir(a), Cd(a), Mkdir(b), Unmount, MountDevice, Ls, Cd(a), Ls, Cd(PARENT_NAME), Ls]
    ensures LegalSession(disk, bpb, inodeCount, cs)
    ensures Run(Idle(NewFs(disk, bpb, inodeCount).value), cs).1
         == [Silent, Silent, Silent, Silent, Silent, Silent, Listing([DOT_NAME, a]), Silent, Listing([DOT_NAME, b]),
             Silent, Listing([DOT_NAME, a])]
  {
    var mb, meta := MasterFor(|disk|, bpb, inodeCount, 0), MetadataBlocks(|disk|, bpb, inodeCount);
    assert RoomForTwo(mb, meta);
    hide NewFs, LegalRun, MetadataBlocks, GoodName, Run, RunView, IsDisk, RoomFor, BlockMapFits, Refines, IsTree;
    cs := NestedRun(a, b, mb, meta);
    SessionRefinement(disk, bpb, inodeCount, cs);
  }
}
