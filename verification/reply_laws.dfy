/** What the commands of the shell answer, name by name and byte by byte. */
module ReplyLaws {
  import opened Bytes
  import opened BlockDevices
  import opened DirectoryText
  import opened DirectoryStore
  import opened Forests
  import opened NameTrees
  import opened Metadata
  import opened Shells
  import opened Sessions
  import opened SessionCommands
  import opened SessionMounts
  import opened Refinement
  import opened SessionLaws
  import opened FormatLaws

  // ---------- cd ----------

  /** `cd ..`, that is, the two bytes 46, goes to the parent, and is refused
      exactly in the root. */
  lemma CdDotDot(l: Live, t: Tree, meta: nat)
    returns (l1: Live)
    requires LiveOk(l, t, meta)
    ensures t.cwd < |t.par|
    ensures Step(Mounted(l), Cd([46, 46])) == (Mounted(l1), if t.cwd == 0 then AlreadyInRoot else Silent)
    ensures LiveOk(l1, if t.cwd == 0 then t else t.(cwd := t.par[t.cwd]), meta)
  {
    hide LiveOk, Enterable, DoCd;
    CdUpOk(l, t, meta);
    l1 := DoCd(l, PARENT_NAME).0.live;
  }

  /** `cd` to any other name but `.` goes to the first child of that name, or
      reports that there is none and stays. */
  lemma CdNamed(l: Live, t: Tree, name: Name, meta: nat)
    returns (l1: Live, i: nat)
    requires LiveOk(l, t, meta) && name != [46] && name != [46, 46]
    ensures t.cwd < |t.dirs| && i <= |t.dirs[t.cwd]|
    ensures forall j :: 0 <= j < i ==> t.dirs[t.cwd][j].name != name
    ensures i < |t.dirs[t.cwd]| ==>
      && t.dirs[t.cwd][i].name == name && 0 <= t.dirs[t.cwd][i].num < |t.dirs|
      && Step(Mounted(l), Cd(name)) == (Mounted(l1), Silent) && LiveOk(l1, t.(cwd := t.dirs[t.cwd][i].num), meta)
    ensures i == |t.dirs[t.cwd]| ==> Step(Mounted(l), Cd(name)) == (Mounted(l1), NoSuchDirectory) && LiveOk(l1, t, meta)
  {
    LiveBounds(l, t, meta);
    hide LiveOk, Enterable, DoCd, Step, FindChild, IsTree;
    var _ := CdDownOk(l, t, name, meta);
    StepCd(l, name);
    l1 := DoCd(l, name).0.live;
    i := FirstChild(t.dirs[t.cwd], name);
    if i < |t.dirs[t.cwd]| {
      ChildNumber(t, i);
    }
  }

  lemma StepCd(l: Live, name: Name)
    requires Enterable(l)
    ensures Step(Mounted(l), Cd(name)) == DoCd(l, name)
  {
  }

  lemma ChildNumber(t: Tree, i: nat)
    requires IsTree(t) && i < |t.dirs[t.cwd]|
    ensures 0 < t.dirs[t.cwd][i].num < |t.dirs|
  {
    assert ChildAt(t, t.cwd, i).num > t.cwd;
  }

  lemma {:induction false} FirstChild(es: seq<Entry>, name: Name)
    returns (i: nat)
    ensures i <= |es| && (forall j :: 0 <= j < i ==> es[j].name != name)
    ensures i < |es| ==> es[i].name == name
    ensures FindChild(es, name) == if i < |es| then es[i].num else 0
  {
    i := 0;
    if es != [] && es[0].name != name {
      i := FirstChild(es[1..], name);
      forall j | 0 <= j < i + 1
        ensures es[j].name != name
      {
        assert j > 0 ==> es[j] == es[1..][j - 1];
      }
      i := i + 1;
    }
  }

  // ---------- ls ----------

  /** `ls` lists the one byte 46, and then the children. */
  lemma LsNames(l: Live, t: Tree, meta: nat)
    returns (l1: Live, names: seq<Name>)
    requires LiveOk(l, t, meta)
    ensures Step(Mounted(l), Ls) == (Mounted(l1), Listing(names)) && LiveOk(l1, t, meta)
    ensures t.cwd < |t.dirs| && |names| == 1 + |t.dirs[t.cwd]| && names[0] == [46]
    ensures forall i :: 0 <= i < |t.dirs[t.cwd]| ==> names[1 + i] == t.dirs[t.cwd][i].name
  {
    hide LiveOk, Enterable, WithChildren;
    l1 := LsOk(l, t, meta);
    names := Names(Entries(Children(l1)));
  }

  // ---------- mkdir ----------

  /** What `mkdir` needs, in numbers: a name without newline, space, `|` and NUL,
      an inode, two blocks for each directory but one, and room for one more line
      and two more pointers in the block of the current directory. */
  lemma MayMakeIs(t: Tree, name: Name, mb: MasterBlock, meta: nat)
    requires t.cwd < |t.dirs|
    ensures MayMake(t, name, mb, meta) <==>
      && name != []
      && (forall i :: 0 <= i < |name| ==> name[i] != 0 && name[i] != 10 && name[i] != 32 && name[i] != 124)
      && |t.dirs| < mb.inodeCount && meta + 2 * |t.dirs| + 1 <= mb.blockCount
      && 16 * |t.dirs[t.cwd]| + 40 <= mb.bytesPerBlock
      && |Print([Entry([46], t.cwd)] + t.dirs[t.cwd] + [Entry(name, |t.dirs|)])| < mb.bytesPerBlock
  {
    LegalNameIs(name);
    hide LegalName;
  }

  /** Then it adds a child at the end of the current directory, with the next
      number and without children. */
  lemma MkdirNamed(l: Live, t: Tree, name: Name, meta: nat)
    returns (l1: Live)
    requires LiveOk(l, t, meta) && t.cwd < |t.dirs| && MayMake(t, name, l.mb, meta)
    ensures Step(Mounted(l), Mkdir(name)) == (Mounted(l1), Silent)
    ensures var n := |t.dirs|;
            LiveOk(l1, Tree(t.dirs[t.cwd := t.dirs[t.cwd] + [Entry(name, n)]] + [[]], t.par + [t.cwd], t.cwd), meta)
  {
    hide LiveOk, Enterable, DoMkdir, MayMake;
    l1 := MkdirOk(l, t, name, meta);
  }

  // ---------- mount and unmount ----------

  /** `unmount` leaves a device that `mount` brings back with the root current,
      and in between every other command is refused. A second mount is refused,
      too. */
  lemma UnmountThenMount(l: Live, t: Tree, meta: nat, c: Command)
    returns (disk: seq<Block>, l1: Live)
    requires LiveOk(l, t, meta)
    ensures Step(Mounted(l), Unmount) == (Idle(disk), Silent)
    ensures c != MountDevice ==> Step(Idle(disk), c) == (Idle(disk), NotMounted)
    ensures Step(Idle(disk), MountDevice) == (Mounted(l1), Silent) && LiveOk(l1, t.(cwd := 0), meta)
    ensures Step(Mounted(l1), MountDevice) == (Mounted(l1), AlreadyMounted)
    ensures l1.cur == [] && l1.cache.Node? && l1.cache.num == 0 && l1.cache.name.chars == [34, 34] && l1.cache.dirty
    ensures l1.cache.kids.Nil? && l1.cache.sib.Nil?
  {
    hide LiveOk, DoUnmount, DoMount, IdleOk, Flushable;
    disk := UnmountOk(l, t, meta);
    l1 := MountOk(disk, t, meta, l.mb);
    RootOfMount(disk, l1, t, meta, l.mb);
  }

  /** A mount makes one entry, for inode 0, with two quotation marks for a name. */
  lemma RootOfMount(disk: seq<Block>, l: Live, t: Tree, meta: nat, mb: MasterBlock)
    requires IdleOk(disk, t, meta, mb) && DoMount(disk) == Mounted(l)
    ensures l.cur == [] && l.cache == Node(0, CStr(1, [34, 34]), true, Nil, Nil)
  {
    var v :| HoldsVolume(disk, v, t, meta, mb);
    hide Mount;
  }

  // ---------- which sessions are legal ----------

  /** A run is legal when every command is, in the state the commands before it
      lead to: on a mounted device `mkdir` has to be possible, and `cd` must not be
      given the one byte 46. */
  lemma {:induction false} LegalRunIs(w: View, cs: seq<Command>, mb: MasterBlock, meta: nat)
    requires IsTree(w.tree)
    ensures LegalRun(w, cs, mb, meta) <==> forall i :: 0 <= i < |cs| ==> LegalAt(w, cs, i, mb, meta)
    decreases |cs|
  {
    if cs != [] {
      StepViewIsTree(w, cs[0]);
      var w1 := StepView(w, cs[0]).0;
      LegalRunIs(w1, cs[1..], mb, meta);
      assert cs[..0] == [] && RunView(w, []) == (w, []);
      forall i | 0 < i < |cs|
        ensures LegalAt(w, cs, i, mb, meta) <==> LegalAt(w1, cs[1..], i - 1, mb, meta)
      {
        assert cs[..i][0] == cs[0] && cs[..i][1..] == cs[1..][..i - 1];
      }
      hide RunView, StepView;
      if forall i :: 0 <= i < |cs| ==> LegalAt(w, cs, i, mb, meta) {
        assert LegalAt(w, cs, 0, mb, meta);
        forall i | 0 <= i < |cs[1..]|
          ensures LegalAt(w1, cs[1..], i, mb, meta)
        {
          assert LegalAt(w, cs, i + 1, mb, meta);
        }
      }
      if forall i :: 0 <= i < |cs[1..]| ==> LegalAt(w1, cs[1..], i, mb, meta) {
        forall i | 0 < i < |cs|
          ensures LegalAt(w, cs, i, mb, meta)
        {
          assert LegalAt(w1, cs[1..], i - 1, mb, meta);
        }
      }
    }
  }

  ghost predicate LegalAt(w: View, cs: seq<Command>, i: nat, mb: MasterBlock, meta: nat)
    requires IsTree(w.tree) && i < |cs|
  {
    var now := RunView(w, cs[..i]).0;
    now.mounted ==>
      && (cs[i].Mkdir? ==> MayMake(now.tree, cs[i].name, mb, meta))
      && (cs[i].Cd? ==> cs[i].name != [46])
  }

  /** The devices and the commands of a session, in numbers. */
  lemma SessionIsLegal(disk: seq<Block>, bpb: nat, inodeCount: nat, cs: seq<Command>)
    requires IsDisk(disk, bpb) && bpb < 0x8000_0000 && |disk| < 0x8000_0000 && 1 < inodeCount < 0x8000_0000
    requires IsTree(FRESH_VIEW.tree)
    ensures FRESH_VIEW == View(Tree([[]], [0], 0), false)
    ensures LegalSession(disk, bpb, inodeCount, cs) <==>
      && bpb >= 128 && |disk| > Reserved(|disk|, bpb, inodeCount)
      && 8 + (|disk| + 7) / 8 <= MapBlocks(|disk|, bpb) * bpb && 128 * inodeCount % bpb == 0
      && LegalRun(FRESH_VIEW, cs,
                  MasterBlock(0xF00D_CAFE, bpb, |disk|, inodeCount, 1, 1 + MapBlocks(|disk|, bpb), 0),
                  Reserved(|disk|, bpb, inodeCount))
  {
    hide MapBlocks, NewFs, LegalRun, BlockMapFits, TableFillsBlocks, BlockMapBlocks, MetadataBlocks, Reserved;
    hide INodeMapAddress;
    NewFsAccepts(disk, bpb, inodeCount);
    SessionDevices(|disk|, bpb, inodeCount);
    LayoutIsReserved(|disk|, bpb, inodeCount);
    MasterIs(|disk|, bpb, inodeCount);
  }

  lemma MasterIs(count: nat, bpb: nat, inodeCount: nat)
    requires bpb > 0
    ensures MasterFor(count, bpb, inodeCount, 0)
         == MasterBlock(0xF00D_CAFE, bpb, count, inodeCount, 1, INodeMapAddress(count, bpb), 0)
  {
  }

  // ---------- one session, byte by byte ----------

  /** The names "fruits" and "apples". */
  const FRUITS: Name := [102, 114, 117, 105, 116, 115]
  const APPLES: Name := [97, 112, 112, 108, 101, 115]

  /** On 100 blocks of 1024 bytes with 16 inodes: a directory in a directory is
      listed again after an unmount and a mount, and `cd ..` leads back. */
  lemma FruitSession(disk: seq<Block>)
    returns (cs: seq<Command>)
    requires IsDisk(disk, 1024) && |disk| == 100
    ensures cs == [MountDevice, Mkdir(FRUITS), Cd(FRUITS), Mkdir(APPLES), Unmount, MountDevice, Ls, Cd(FRUITS), Ls,
                   Cd([46, 46]), Ls]
    ensures LegalSession(disk, 1024, 16, cs)
    ensures Run(Idle(NewFs(disk, 1024, 16).value), cs).1
         == [Silent, Silent, Silent, Silent, Silent, Silent, Listing([[46], FRUITS]), Silent, Listing([[46], APPLES]),
             Silent, Listing([[46], FRUITS])]
  {
    hide *;
    FruitDevice(disk);
    FruitNames();
    cs := NestedSession(disk, 1024, 16, FRUITS, APPLES);
    TwoDots();
  }

  lemma FruitDevice(disk: seq<Block>)
    requires IsDisk(disk, 1024) && |disk| == 100
    ensures NewFs(disk, 1024, 16).Some? && BlockMapFits(100, 1024) && TableFillsBlocks(16, 1024)
    ensures RoomFor(100, MetadataBlocks(100, 1024, 16), 3)
  {
    hide NewFs, BlockMapFits, TableFillsBlocks, MetadataBlocks;
    NewFsAccepts(disk, 1024, 16);
    SessionDevices(100, 1024, 16);
    LayoutIsReserved(100, 1024, 16);
  }

  lemma FruitNames()
    ensures GoodName(FRUITS) && GoodName(APPLES)
  {
  }

  lemma TwoDots()
    ensures DOT_NAME == [46] && PARENT_NAME == [46, 46]
  {
  }
}
