/** The shell as a state machine over values: the concrete commands on a mounted
    volume with its cache, and the same commands on a tree of names. */
module Shells {
  import opened Bytes
  import opened BlockDevices
  import opened BitSets
  import opened INodes
  import opened Volumes
  import opened DirectoryText
  import opened DirectoryStore
  import opened Forests
  import opened NameTrees
  import opened Metadata

  datatype Command = MountDevice | Unmount | Mkdir(name: Name) | Ls | Cd(name: Name)

  datatype Reply =
    | Silent
    | Listing(names: seq<Name>)
    | NoSuchDirectory
    | AlreadyInRoot
    | NotMounted
    | AlreadyMounted

  const PARENT_NAME: Name := [DOT, DOT]

  // ---------- the concrete shell ----------

  /** A mounted file system, the current directory as a pointer into the cache,
      and the next string address. */
  datatype Live = Live(vol: Volume, mb: MasterBlock, cache: Forest, cur: Path, next: nat)

  /** Undefined is the state after a command whose C code leaves defined
      behaviour: a NULL or out-of-range pointer, a failed assertion, or a
      directory text that overruns its buffer. */
  datatype Shell = Idle(disk: seq<Block>) | Mounted(live: Live) | Undefined

  /** Every cached directory has a text that fits its buffer. */
  predicate TextsFit(f: Forest, bpb: nat) {
    f.Node? ==>
      && (f.kids.Node? ==> Fits(Entries(f.kids), bpb))
      && TextsFit(f.kids, bpb) && TextsFit(f.sib, bpb)
  }

  /** A flush from the root is defined. */
  predicate Flushable(l: Live) {
    WellShaped(l.vol) && InTable(l.cache, |l.vol.inodes|) && TextsFit(l.cache, l.vol.bpb)
  }

  lemma {:induction false} AtInTable(f: Forest, path: Path, n: nat)
    requires InTable(f, n)
    ensures InTable(At(f, path), n)
    decreases |path|
  {
    if path != [] && f.Node? {
      AtInTable(f.kids, path[1..], n);
      AtInTable(f.sib, path[1..], n);
    }
  }

  /** What an entry has for children once it is cached. */
  function LoadedEntries(f: Forest, v: Volume): seq<Entry>
    requires f.Node? && WellShaped(v) && f.num < |v.inodes|
  {
    if Stored(f, v) == [] then [Entry(DOT_NAME, f.num)] else Stored(f, v)
  }

  /** The stored text of an entry that has not been cached can be loaded: it is
      a C string of whole lines that name inodes of the table, with no more words
      than there are pointers for, and it can be written again. */
  predicate Loadable(f: Forest, v: Volume)
    requires f.Node? && WellShaped(v) && f.num < |v.inodes|
  {
    && NUL in StoredBlock(v, f.num)
    && |Words(StoredBlock(v, f.num))| % 2 == 0
    && NumbersInTable(Stored(f, v), |v.inodes|)
    && Fits(LoadedEntries(f, v), v.bpb) && PointersFit(Pipes(StoredBlock(v, f.num)), v.bpb)
  }

  /** Getting the children of the current directory is defined. */
  predicate Enterable(l: Live) {
    && Flushable(l)
    && var f := At(l.cache, l.cur);
    && f.Node? && f.num < |l.vol.inodes| && l.vol.inodes[f.num].itype == DIRECTORY_TYPE
    && (f.kids.Nil? ==> Loadable(f, l.vol))
  }

  function WithChildren(l: Live): Live
    requires Enterable(l)
  {
    AtInTable(l.cache, l.cur, |l.vol.inodes|);
    var (f, vol, next) := GetChildren(At(l.cache, l.cur), l.vol, l.next);
    l.(vol := vol, cache := Replace(l.cache, l.cur, f), next := next)
  }

  /** mkdir: cache the current directory, take an inode, add the new child. */
  function DoMkdir(l: Live, name: Name): Shell
    requires Enterable(l)
  {
    var l1 := WithChildren(l);
    var (inodes, k) := AllocateINode(l1.vol.inodes);
    var f := At(l1.cache, l1.cur);
    if k >= |inodes| || f.Nil? then Undefined
    else
      var entry := NewEntry(k, CStr(l1.next, name));
      Mounted(l1.(
        vol := l1.vol.(inodes := inodes[k := inodes[k].(itype := DIRECTORY_TYPE)]),
        cache := Replace(l1.cache, l1.cur, f.(kids := Append(f.kids, entry))),
        next := l1.next + 1))
  }

  /** The first entry with the name that is a directory, in the list at `here`. */
  function FindDirectory(f: Forest, inodes: seq<INode>, name: Name, here: Path): (bool, Path) {
    if f.Nil? then (false, [])
    else if f.name.chars == name && f.num < |inodes| && inodes[f.num].itype == DIRECTORY_TYPE then (true, here)
    else FindDirectory(f.sib, inodes, name, here + [ToSib])
  }

  function DoCd(l: Live, name: Name): (Shell, Reply)
    requires Enterable(l)
  {
    var l1 := WithChildren(l);
    var f := At(l1.cache, l1.cur);
    if name == PARENT_NAME then
      if l1.cur == [] then (Mounted(l1), AlreadyInRoot)
      else if l1.cache.Nil? || f.Nil? then (Undefined, Silent)
      else
        var (found, parent) := ParentSearch(l1.cache, f.num, f.name.addr);
        (if found then Mounted(l1.(cur := parent)) else Undefined, Silent)
    else if f.Nil? then (Undefined, Silent)
    else
      var (found, child) := FindDirectory(f.kids, l1.vol.inodes, name, l1.cur + [ToKids]);
      if found then (Mounted(l1.(cur := child)), Silent) else (Mounted(l1), NoSuchDirectory)
  }

  /** unmount: flush from the root, then write block map and inode table to the
      places that the master block names. */
  function DoUnmount(l: Live): Shell
    requires Flushable(l)
  {
    var (_, vol) := Flush(l.cache, l.vol);
    if Persistable(vol) && l.mb == MasterOf(vol, 0) && TableFillsBlocks(|vol.inodes|, vol.bpb)
    then Idle(Persist(vol))
    else Undefined
  }

  function DoMount(disk: seq<Block>): Shell {
    match Mount(disk)
    case None => Undefined
    case Some((vol, mb)) =>
      if 0 <= mb.rootDirINode < |vol.inodes| && WellShaped(vol) && TableFillsBlocks(|vol.inodes|, vol.bpb)
      then Mounted(Live(vol, mb, NewEntry(mb.rootDirINode, CStr(ROOT_LITERAL, ROOT_NAME)), [], FIRST_ADDRESS))
      else Undefined
  }

  /** No command on a mounted volume touches the master block. */
  lemma MasterKept(l: Live, name: Name)
    requires Enterable(l)
    ensures WithChildren(l).mb == l.mb
    ensures DoCd(l, name).0.Mounted? ==> DoCd(l, name).0.live.mb == l.mb
    ensures DoMkdir(l, name).Mounted? ==> DoMkdir(l, name).live.mb == l.mb
  {
    hide FindDirectory, ParentSearch, Enterable, AllocateINode, GetChildren;
  }

  /** One command of the shell. */
  function Step(s: Shell, c: Command): (Shell, Reply) {
    match s
    case Undefined => (Undefined, Silent)
    case Idle(disk) =>
      if c == MountDevice then (DoMount(disk), Silent) else (s, NotMounted)
    case Mounted(l) =>
      match c
      case MountDevice => (s, AlreadyMounted)
      case Unmount => (if Flushable(l) then DoUnmount(l) else Undefined, Silent)
      case Mkdir(name) => (if Enterable(l) then DoMkdir(l, name) else Undefined, Silent)
      case Ls =>
        if Enterable(l)
        then (Mounted(WithChildren(l)), Listing(Names(Entries(Children(WithChildren(l))))))
        else (Undefined, Silent)
      case Cd(name) => if Enterable(l) then DoCd(l, name) else (Undefined, Silent)
  }

  function Children(l: Live): Forest {
    var f := At(l.cache, l.cur);
    if f.Nil? then Nil else f.kids
  }

  function Run(s: Shell, cs: seq<Command>): (r: (Shell, seq<Reply>))
    decreases |cs|
  {
    if cs == [] then (s, [])
    else
      var (s1, reply) := Step(s, cs[0]);
      var (s2, replies) := Run(s1, cs[1..]);
      (s2, [reply] + replies)
  }

  // ---------- formatting ----------

  function FreshINodes(n: nat): seq<INode> {
    seq(n, k requires 0 <= k < n => BLANK_INODE.(inodeNum := k, status := FREE_STATUS, ownerUid := INITIAL_UID))
  }

  /** The volume that a format builds in memory: metadata blocks reserved, the
      root directory allocated, and the master block at the front of the device.
      What the device held in its other blocks stays. */
  function FormattedVolume(disk: seq<Block>, bpb: nat, inodeCount: nat): (v: Volume)
    requires IsDisk(disk, bpb) && disk != [] && MASTER_BYTES <= bpb < 0x8000_0000
    requires |disk| < 0x8000_0000 && 1 < inodeCount < 0x8000_0000
    requires MetadataBlocks(|disk|, bpb, inodeCount) < |disk|
    ensures |v.inodes| == inodeCount
  {
    var meta := MetadataBlocks(|disk|, bpb, inodeCount);
    var bits := AllocateMany(FreshBits(|disk|, bpb), |disk|, meta).0;
    var (inodes, root) := AllocateINode(FreshINodes(inodeCount));
    var v := Volume(bpb, disk, bits, |disk|, inodes[root := inodes[root].(itype := DIRECTORY_TYPE)]);
    v.(disk := disk[0 := EncodeMaster(MasterOf(v, root), bpb)])
  }

  lemma {:induction false} BlockOfGrows(p: nat, q: nat, bpb: nat)
    requires bpb > 0 && p <= q
    ensures BlockOf(p, bpb) <= BlockOf(q, bpb)
  {
    BlockStartsApart(BlockOf(p, bpb), BlockOf(q, bpb), bpb);
  }

  /** The buffer of a new bit set is as long as the blocks of the block map. */
  lemma FreshBufferSuffices(count: nat, bpb: nat)
    requires bpb > 0
    ensures BlockStart(BlockMapBlocks(count, bpb), bpb) <= HEADER_BYTES + |FreshBits(count, bpb)|
  {
    var n, m := BytesForBits(count), STRUCT_BYTES + BytesForBits(count);
    if n > 0 {
      BlockOfGrows(n - 1, m - 1, bpb);
    }
    BlockStartsApart(CeilDiv(m, bpb), CeilDiv(n, bpb), bpb);
  }

  lemma FreshTableHasWidths(n: nat)
    requires 1 < n < 0x8000_0000
    ensures var (inodes, root) := AllocateINode(FreshINodes(n));
            |inodes| == n && root < n && TableHasWidths(inodes[root := inodes[root].(itype := DIRECTORY_TYPE)])
  {
    FreshTableShaped(n);
    BlankINode();
    hide ZeroPointers;
  }

  lemma FreshTableShaped(n: nat)
    ensures |FreshINodes(n)| == n && forall k :: 0 <= k < n ==> |FreshINodes(n)[k].ptrs| == POINTERS
  {
    BlankINode();
    hide ZeroPointers;
  }

  lemma FormattedIsPersistable(disk: seq<Block>, bpb: nat, inodeCount: nat)
    requires IsDisk(disk, bpb) && disk != [] && MASTER_BYTES <= bpb < 0x8000_0000
    requires |disk| < 0x8000_0000 && 1 < inodeCount < 0x8000_0000
    requires MetadataBlocks(|disk|, bpb, inodeCount) < |disk|
    ensures Persistable(FormattedVolume(disk, bpb, inodeCount))
  {
    FreshBufferSuffices(|disk|, bpb);
    FreshTableHasWidths(inodeCount);
    hide FreshBits, FreshINodes, AllocateINode, HasWidths, EncodeMaster, AllocateMany;
  }

  lemma FormattedMaster(disk: seq<Block>, bpb: nat, inodeCount: nat)
    requires IsDisk(disk, bpb) && disk != [] && MASTER_BYTES <= bpb < 0x8000_0000
    requires |disk| < 0x8000_0000 && 1 < inodeCount < 0x8000_0000
    requires MetadataBlocks(|disk|, bpb, inodeCount) < |disk|
    ensures var v, root := FormattedVolume(disk, bpb, inodeCount), AllocateINode(FreshINodes(inodeCount)).1;
            v.bpb == bpb && v.disk != [] && MasterHasWidths(MasterOf(v, root))
            && HoldsMaster(v.disk[0], MasterOf(v, root))
  {
    var root := AllocateINode(FreshINodes(inodeCount)).1;
    FreshTableHasWidths(inodeCount);
    assert MasterHasWidths(MasterFor(|disk|, bpb, inodeCount, root));
    EncodedMaster(MasterFor(|disk|, bpb, inodeCount, root), bpb);
    hide FreshBits, FreshINodes, AllocateINode, HasWidths, EncodeMaster, AllocateMany, HoldsMaster, TableHasWidths;
  }

  /** newfs: the device afterwards, or None when the parameters are refused. */
  function NewFs(disk: seq<Block>, bpb: nat, inodeCount: nat): Option<seq<Block>>
    requires IsDisk(disk, bpb) && bpb < 0x8000_0000 && |disk| < 0x8000_0000 && 1 < inodeCount < 0x8000_0000
  {
    if bpb < MASTER_BYTES || bpb < INODE_BYTES then None
    else if |disk| <= MetadataBlocks(|disk|, bpb, inodeCount) then None
    else
      FormattedIsPersistable(disk, bpb, inodeCount);
      Some(Persist(FormattedVolume(disk, bpb, inodeCount)))
  }

  /** A device that newfs accepts although the header of its block map does not
      fit: 2048 blocks of 256 bytes. The mount succeeds, with a block map of 2048
      bits in room for 1984, so that the first look at the last blocks leaves the
      buffer. */
  lemma HeaderForgotten(disk: seq<Block>)
    returns (v: Volume)
    requires IsDisk(disk, 256) && |disk| == 2048
    ensures NewFs(disk, 256, 16).Some? && Mount(NewFs(disk, 256, 16).value).Some?
    ensures v == Mount(NewFs(disk, 256, 16).value).value.0
    ensures v.count == 2048 && 8 * |v.bits| == 1984
    ensures DoMount(NewFs(disk, 256, 16).value) == Undefined
  {
    HeaderNumbers();
    hide BlockMapFits, BlockMapBlocks, MetadataBlocks, HoldsMaster, HasWidths, AllocateINode, FreshINodes;
    hide AllocateMany, FreshBits, Persist, Mount;
    FormattedIsPersistable(disk, 256, 16);
    FormattedMaster(disk, 256, 16);
    var w := FormattedVolume(disk, 256, 16);
    RemountNeedsHeaderRoom(w, AllocateINode(FreshINodes(16)).1);
    v := Remounted(w);
  }

  lemma HeaderNumbers()
    ensures MetadataBlocks(2048, 256, 16) == 10 && BlockStart(BlockMapBlocks(2048, 256), 256) == 256
    ensures !BlockMapFits(2048, 256)
  {
    CeilDivIsQuotient(256, 256);
    CeilDivIsQuotient(2048, 256);
    BlockStartIsProduct(1, 256);
  }

  // ---------- the abstract shell ----------

  datatype View = View(tree: Tree, mounted: bool)

  function StepView(w: View, c: Command): (View, Reply)
    requires w.tree.cwd < |w.tree.dirs| == |w.tree.par|
  {
    var t := w.tree;
    if !w.mounted then
      if c == MountDevice then (View(t.(cwd := 0), true), Silent) else (w, NotMounted)
    else
      match c
      case MountDevice => (w, AlreadyMounted)
      case Unmount => (w.(mounted := false), Silent)
      case Mkdir(name) => (w.(tree := MakeDirectory(t, name)), Silent)
      case Ls => (w, Listing([DOT_NAME] + Names(t.dirs[t.cwd])))
      case Cd(name) =>
        if name == PARENT_NAME then
          if t.cwd == 0 then (w, AlreadyInRoot) else (w.(tree := t.(cwd := t.par[t.cwd])), Silent)
        else
          var c := FindChild(t.dirs[t.cwd], name);
          if c <= 0 then (w, NoSuchDirectory) else (w.(tree := t.(cwd := c)), Silent)
  }

  /** A new directory needs a legal name, an inode, room for its text on the
      device and for its line in its parent's block. */
  predicate MayMake(t: Tree, name: Name, mb: MasterBlock, meta: nat)
    requires t.cwd < |t.dirs|
  {
    var c := |t.dirs|;
    && LegalName(name) && c < mb.inodeCount
    && RoomFor(mb.blockCount, meta, c + 1)
    && mb.bytesPerBlock > 0 && PointersFit(|ListingOf(t, t.cwd)| + 1, mb.bytesPerBlock)
    && Fits(ListingOf(t, t.cwd) + [Entry(name, c)], mb.bytesPerBlock)
  }

  /** The commands that the tree gives a meaning to; "." is not a place to go to. */
  predicate Legal(w: View, c: Command, mb: MasterBlock, meta: nat)
    requires w.tree.cwd < |w.tree.dirs|
  {
    w.mounted ==>
      match c
      case Mkdir(name) => MayMake(w.tree, name, mb, meta)
      case Cd(name) => name != DOT_NAME
      case _ => true
  }
}
