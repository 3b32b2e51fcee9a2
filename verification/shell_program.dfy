/** The shell as a program: its variables, its file system and its linked cache,
    updated in place. Each command is proved to do what the shell on values
    does. */
module ShellProgram {
  import opened Bytes
  import opened BlockDevices
  import opened INodes
  import opened Volumes
  import opened DirectoryText
  import opened Forests
  import opened NameTrees
  import opened Metadata
  import opened Shells
  import opened FileSystems
  import opened MetadataIO
  import opened DirectoryEntries
  import opened DirectoryCache
  import opened DirectoryLoader

  // ---------- shapes under pointers ----------

  function ReplaceShape(s: Shape, path: Path, g: Shape): Shape
    decreases |path|
  {
    if path == [] || s.NoEntry? then g
    else if path[0] == ToKids then s.(kids := ReplaceShape(s.kids, path[1..], g))
    else s.(sib := ReplaceShape(s.sib, path[1..], g))
  }

  lemma {:induction false} ShapeAtNodes(h: Snapshot, d: DirectoryEntry?, s: Shape, path: Path)
    requires Linked(h, d, s) && Distinct(s)
    ensures ViewOf(h, ShapeAt(s, path)) == At(ViewOf(h, s), path) && Distinct(ShapeAt(s, path))
    ensures Nodes(ShapeAt(s, path)) <= Nodes(s)
    ensures ShapeAt(s, path).AnEntry? ==> Linked(h, ShapeAt(s, path).entry, ShapeAt(s, path))
    decreases |path|
  {
    if path != [] && s.AnEntry? {
      ShapeAtNodes(h, h[s.entry].kids, s.kids, path[1..]);
      ShapeAtNodes(h, h[s.entry].next, s.sib, path[1..]);
    }
  }

  /** One part of a cache replaced, and nothing else changed. */
  lemma {:induction false} ReplacedShape(h: Snapshot, h': Snapshot, d: DirectoryEntry?, s: Shape, path: Path, g: Shape)
    requires Linked(h, d, s) && Distinct(s) && ShapeAt(s, path).AnEntry?
    requires g.AnEntry? && g.entry == ShapeAt(s, path).entry && Linked(h', g.entry, g) && Distinct(g)
    requires forall e :: e in h && e !in Nodes(ShapeAt(s, path)) ==> e in h' && h'[e] == h[e]
    requires Nodes(g) !! h.Keys - Nodes(ShapeAt(s, path))
    ensures Linked(h', d, ReplaceShape(s, path, g)) && Distinct(ReplaceShape(s, path, g))
    ensures Nodes(ReplaceShape(s, path, g)) <= Nodes(s) + Nodes(g)
    ensures ViewOf(h', ReplaceShape(s, path, g)) == Replace(ViewOf(h, s), path, ViewOf(h', g))
    ensures ShapeAt(ReplaceShape(s, path, g), path) == g
    decreases |path|
  {
    if path != [] {
      LinkedNodes(h, d, s);
      if path[0] == ToKids {
        ShapeAtNodes(h, h[s.entry].kids, s.kids, path[1..]);
        ReplacedShape(h, h', h[s.entry].kids, s.kids, path[1..], g);
        ShapeFrame(h, h', h[s.entry].next, s.sib);
      } else {
        ShapeAtNodes(h, h[s.entry].next, s.sib, path[1..]);
        ReplacedShape(h, h', h[s.entry].next, s.sib, path[1..], g);
        ShapeFrame(h, h', h[s.entry].kids, s.kids);
      }
    }
  }

  lemma {:induction false} NamesReplaced(f: Forest, path: Path, g: Forest)
    requires NamesAreStrings(f) && NamesAreStrings(g)
    ensures NamesAreStrings(Replace(f, path, g)) && NamesAreStrings(At(f, path))
    decreases |path|
  {
    if path != [] && f.Node? {
      NamesReplaced(f.kids, path[1..], g);
      NamesReplaced(f.sib, path[1..], g);
    }
  }

  lemma {:induction false} PartWritable(f: Forest, path: Path, n: nat, bpb: nat)
    requires Writable(f, n, bpb)
    ensures Writable(At(f, path), n, bpb)
    decreases |path|
  {
    if path != [] && f.Node? {
      PartWritable(f.kids, path[1..], n, bpb);
      PartWritable(f.sib, path[1..], n, bpb);
    }
  }

  lemma EnterableParts(l: Live)
    requires Enterable(l) && NamesAreStrings(l.cache)
    ensures Writable(l.cache, |l.vol.inodes|, l.vol.bpb)
    ensures At(l.cache, l.cur).Node? && At(l.cache, l.cur).num < |l.vol.inodes|
    ensures At(l.cache, l.cur).kids.Nil? ==> Loadable(At(l.cache, l.cur), l.vol)
  {
  }

  lemma NullKids(h: Snapshot, s: Shape)
    requires s.AnEntry?
    ensures ViewOf(h, s).Node? && ViewOf(h, s).num == s.entry.inode && (ViewOf(h, s).kids.Nil? <==> s.kids.NoEntry?)
  {
  }

  /** The linked cache under a root: no entry twice, names are strings, and the
      pointer leads to `dir`. */
  ghost predicate Holds(h: Snapshot, root: DirectoryEntry?, shape: Shape, cur: Path, dir: DirectoryEntry?) {
    var linked := Linked(h, root, shape) && Distinct(shape) && NamesAreStrings(ViewOf(h, shape));
    var here := ShapeAt(shape, cur).AnEntry? && ShapeAt(shape, cur).entry == dir;
    var holds := linked && here;
    holds
  }

  lemma HereIsKnown(h: Snapshot, root: DirectoryEntry?, shape: Shape, cur: Path, dir: DirectoryEntry?)
    requires Holds(h, root, shape, cur, dir)
    ensures dir in h
  {
    ShapeAtNodes(h, root, shape, cur);
  }

  /** The children of the entry that a pointer leads to, cached and flushed. */
  method GetChildrenAt(dir: DirectoryEntry, fs: FileSystem, next: nat, ghost root: DirectoryEntry?, ghost shape: Shape,
                       ghost cur: Path, ghost h: Snapshot)
    returns (kids: DirectoryEntry?, next': nat, ghost shape': Shape, ghost h': Snapshot)
    requires fs.Valid() && Numbered(fs.inodeMap[..]) && Describes(h) && Holds(h, root, shape, cur, dir)
    requires Writable(ViewOf(h, shape), fs.inodeMap.Length, fs.device.bytesPerBlock)
    requires var f := At(ViewOf(h, shape), cur);
             f.Node? && f.num < fs.inodeMap.Length && (f.kids.Nil? ==> Loadable(f, fs.View()))
    modifies dir`maybeChildren, h.Keys`isDirty, fs.device`blocks, fs.blockMap.bytes, fs.inodeMap
    ensures fs.Valid() && Numbered(fs.inodeMap[..]) && Describes(h') && Holds(h', root, shape', cur, dir)
    ensures var f := At(ViewOf(h, shape), cur);
            InTable(f, fs.inodeMap.Length)
            && ViewOf(h', shape') == Replace(ViewOf(h, shape), cur, Forests.GetChildren(f, old(fs.View()), next).0)
            && fs.View() == Forests.GetChildren(f, old(fs.View()), next).1
            && next' == Forests.GetChildren(f, old(fs.View()), next).2
    ensures kids != null && ShapeAt(shape', cur).AnEntry? && ShapeAt(shape', cur).kids.AnEntry?
    ensures kids == ShapeAt(shape', cur).kids.entry && h.Keys <= h'.Keys && fresh(h'.Keys - h.Keys)
  {
    ghost var part := ShapeAt(shape, cur);
    ghost var part';
    ShapeAtNodes(h, root, shape, cur);
    PartWritable(ViewOf(h, shape), cur, fs.inodeMap.Length, fs.device.bytesPerBlock);
    LinkedNodes(h, root, shape);
    NullKids(h, part);
    hide Linked, ViewOf, Distinct, Nodes, Forests.GetChildren, Loadable, At, Replace, NamesAreStrings, WellShaped;
    hide ShapeAt, ReplaceShape, TextsFit;
    kids, part', next', h' := DirectoryLoader.GetChildren(dir, fs, next, part, h);
    ReplacedShape(h, h', root, shape, cur, part');
    NamesReplaced(ViewOf(h, shape), cur, ViewOf(h', part'));
    shape' := ReplaceShape(shape, cur, part');
  }

  lemma WithChildrenIs(l: Live, vol: Volume, cache: Forest, next: nat)
    requires Enterable(l) && InTable(At(l.cache, l.cur), |l.vol.inodes|)
    requires cache == Replace(l.cache, l.cur, Forests.GetChildren(At(l.cache, l.cur), l.vol, l.next).0)
    requires vol == Forests.GetChildren(At(l.cache, l.cur), l.vol, l.next).1
    requires next == Forests.GetChildren(At(l.cache, l.cur), l.vol, l.next).2
    ensures WithChildren(l) == Live(vol, l.mb, cache, l.cur, next)
  {
  }

  /** The entry that a pointer leads to, with one more child. */
  method AddChildAt(dir: DirectoryEntry, name: CStr, inode: nat, ghost root: DirectoryEntry?, ghost shape: Shape,
                    ghost cur: Path, ghost h: Snapshot)
    returns (ghost shape': Shape, ghost h': Snapshot)
    requires Describes(h) && Holds(h, root, shape, cur, dir) && NUL !in name.chars
    modifies dir`maybeChildren, h.Keys`nextSibling
    ensures Describes(h') && Holds(h', root, shape', cur, dir) && At(ViewOf(h, shape), cur).Node?
    ensures var f := At(ViewOf(h, shape), cur);
            ViewOf(h', shape') == Replace(ViewOf(h, shape), cur, f.(kids := Append(f.kids, NewEntry(inode, name))))
    ensures h.Keys <= h'.Keys && fresh(h'.Keys - h.Keys)
  {
    ghost var part := ShapeAt(shape, cur);
    ShapeAtNodes(h, root, shape, cur);
    NullKids(h, part);
    LinkedNodes(h, root, shape);
    LinkedNodes(h, dir, part);
    NamesReplaced(ViewOf(h, shape), cur, Nil);
    PartIsSeparate(h, dir, part);
    hide Linked, ViewOf, Distinct, Nodes, At, Replace, Append, NamesAreStrings, ShapeAt, ReplaceShape, AppendShape;
    var newkid;
    newkid, h' := AddChild(dir, name, inode, part.kids, h);
    ghost var part' := part.(kids := AppendShape(part.kids, newkid));
    OneMoreChild(h, h', part, newkid, NewEntry(inode, name));
    ReplacedShape(h, h', root, shape, cur, part');
    NamesReplaced(ViewOf(h, shape), cur, ViewOf(h', part'));
    shape' := ReplaceShape(shape, cur, part');
  }

  lemma PartIsSeparate(h: Snapshot, dir: DirectoryEntry, part: Shape)
    requires part.AnEntry? && part.entry == dir && Distinct(part) && Linked(h, dir, part)
    ensures dir in h && dir !in Nodes(part.kids) && Distinct(part.kids) && Linked(h, h[dir].kids, part.kids)
    ensures Nodes(part.kids) <= h.Keys
  {
    LinkedNodes(h, h[dir].kids, part.kids);
  }

  /** A list of siblings whose first entry got other children. */
  lemma OtherKids(h: Snapshot, h': Snapshot, part: Shape, kids: Shape, newkid: DirectoryEntry)
    requires part.AnEntry? && Distinct(part) && Linked(h, part.entry, part)
    requires newkid !in h && h'.Keys == h.Keys + {newkid}
    requires forall e :: e in h && e != part.entry && e !in Nodes(part.kids) ==> h'[e] == h[e]
    requires h'[part.entry] == h[part.entry].(kids := h'[part.entry].kids)
    requires Nodes(kids) == Nodes(part.kids) + {newkid} && Distinct(kids) && Linked(h', h'[part.entry].kids, kids)
    ensures Distinct(part.(kids := kids)) && Linked(h', part.entry, part.(kids := kids))
    ensures Nodes(part.(kids := kids)) == Nodes(part) + {newkid}
    ensures ViewOf(h, part).Node? && ViewOf(h', part.(kids := kids)) == ViewOf(h, part).(kids := ViewOf(h', kids))
  {
    LinkedNodes(h, part.entry, part);
    ShapeFrame(h, h', h[part.entry].next, part.sib);
  }

  /** A list of siblings whose first entry got one more child. */
  lemma OneMoreChild(h: Snapshot, h': Snapshot, part: Shape, newkid: DirectoryEntry, entry: Forest)
    requires part.AnEntry? && Distinct(part) && Linked(h, part.entry, part) && NamesAreStrings(ViewOf(h, part))
    requires newkid !in h && h'.Keys == h.Keys + {newkid}
    requires forall e :: e in h && e != part.entry && e !in Nodes(part.kids) ==> h'[e] == h[e]
    requires h'[part.entry] == h[part.entry].(kids := h'[part.entry].kids)
    requires Nodes(AppendShape(part.kids, newkid)) == Nodes(part.kids) + {newkid}
    requires Distinct(AppendShape(part.kids, newkid))
    requires Linked(h', h'[part.entry].kids, AppendShape(part.kids, newkid))
    requires ViewOf(h', AppendShape(part.kids, newkid)) == Append(ViewOf(h, part.kids), entry)
    requires entry.Node? && entry.sib.Nil? && entry.kids.Nil? && NUL !in entry.name.chars
    ensures var part' := part.(kids := AppendShape(part.kids, newkid));
            && Distinct(part') && Linked(h', part.entry, part') && Nodes(part') == Nodes(part) + {newkid}
            && ViewOf(h, part).Node?
            && ViewOf(h', part') == ViewOf(h, part).(kids := Append(ViewOf(h, part.kids), entry))
            && NamesAreStrings(ViewOf(h', part'))
  {
    var f := ViewOf(h, part);
    assert NamesAreStrings(f.kids);
    hide Append, TextsFit, Entries, AppendShape, Linked, Distinct, Nodes, ViewOf;
    AppendEntries(f.kids, entry);
    OtherKids(h, h', part, AppendShape(part.kids, newkid), newkid);
  }

  /** Takes an inode for a directory. */
  method TakeDirectory(fs: FileSystem) returns (k: nat)
    requires fs.Valid() && Numbered(fs.inodeMap[..]) && fs.inodeMap.Length > 0
    modifies fs.inodeMap
    ensures fs.Valid() && Numbered(fs.inodeMap[..])
    ensures k == INodes.AllocateINode(old(fs.View()).inodes).1 < fs.inodeMap.Length
    ensures var inodes := INodes.AllocateINode(old(fs.View()).inodes).0;
            fs.View() == old(fs.View()).(inodes := inodes[k := inodes[k].(itype := DIRECTORY_TYPE)])
  {
    k := fs.AllocateINode();
    fs.inodeMap[k] := fs.inodeMap[k].(itype := DIRECTORY_TYPE);
  }

  lemma DoMkdirIs(l: Live, name: Name, k: nat, vol: Volume, cache: Forest)
    requires Enterable(l) && At(WithChildren(l).cache, l.cur).Node?
    requires k == INodes.AllocateINode(WithChildren(l).vol.inodes).1
    requires k < |INodes.AllocateINode(WithChildren(l).vol.inodes).0|
    requires var inodes := INodes.AllocateINode(WithChildren(l).vol.inodes).0;
             vol == WithChildren(l).vol.(inodes := inodes[k := inodes[k].(itype := DIRECTORY_TYPE)])
    requires var f := At(WithChildren(l).cache, l.cur);
             var entry := NewEntry(k, CStr(WithChildren(l).next, name));
             cache == Replace(WithChildren(l).cache, l.cur, f.(kids := Append(f.kids, entry)))
    ensures DoMkdir(l, name) == Mounted(Live(vol, l.mb, cache, l.cur, WithChildren(l).next + 1))
  {
    hide Forests.GetChildren, Replace, At, Append, Enterable, INodes.AllocateINode;
  }

  // ---------- commands on a mounted file system ----------

  /** The file system, the linked cache and the current directory hold what l says. */
  ghost predicate Running(fs: FileSystem, root: DirectoryEntry?, dir: DirectoryEntry?, shape: Shape, h: Snapshot,
                          l: Live)
    reads fs.device, fs.blockMap.bytes, fs.inodeMap, h.Keys
  {
    && fs.Valid() && Numbered(fs.inodeMap[..]) && Describes(h) && Holds(h, root, shape, l.cur, dir)
    && l.vol == fs.View() && l.cache == ViewOf(h, shape)
  }

  /** Caches the current directory and flushes from it on. */
  method Enter(fs: FileSystem, dir: DirectoryEntry, next: nat, ghost root: DirectoryEntry?, ghost shape: Shape,
               ghost h: Snapshot, ghost l: Live)
    returns (kids: DirectoryEntry?, next': nat, ghost shape': Shape, ghost h': Snapshot)
    requires Running(fs, root, dir, shape, h, l) && next == l.next && Enterable(l)
    modifies h.Keys, fs.device`blocks, fs.blockMap.bytes, fs.inodeMap
    ensures Running(fs, root, dir, shape', h', WithChildren(l)) && next' == WithChildren(l).next
    ensures kids != null && ShapeAt(shape', l.cur).AnEntry? && ShapeAt(shape', l.cur).kids.AnEntry?
    ensures kids == ShapeAt(shape', l.cur).kids.entry && h.Keys <= h'.Keys && fresh(h'.Keys - h.Keys)
  {
    HereIsKnown(h, root, shape, l.cur, dir);
    EnterableParts(l);
    hide Linked, ViewOf, Distinct, Nodes, Forests.GetChildren, Writable, Loadable, Enterable, At, Replace;
    hide NamesAreStrings, WellShaped, ShapeAt, WithChildren, InTable, Holds;
    kids, next', shape', h' := GetChildrenAt(dir, fs, next, root, shape, l.cur, h);
    WithChildrenIs(l, fs.View(), ViewOf(h', shape'), next');
  }

  method MakeIn(fs: FileSystem, dir: DirectoryEntry, name: Name, next: nat, ghost root: DirectoryEntry?,
                ghost shape: Shape, ghost h: Snapshot, ghost l: Live)
    returns (next': nat, ghost shape': Shape, ghost h': Snapshot)
    requires Running(fs, root, dir, shape, h, l) && next == l.next && Enterable(l) && NUL !in name
    modifies h.Keys, fs.device`blocks, fs.blockMap.bytes, fs.inodeMap
    ensures DoMkdir(l, name).Mounted? && Running(fs, root, dir, shape', h', DoMkdir(l, name).live)
    ensures next' == DoMkdir(l, name).live.next && h.Keys <= h'.Keys && fresh(h'.Keys - h.Keys)
  {
    SomeINode(l);
    hide Linked, ViewOf, Distinct, Nodes, Enterable, At, Replace, Append, NamesAreStrings, WellShaped, ShapeAt;
    hide WithChildren, DoMkdir, INodes.AllocateINode, Numbered, Holds;
    var kids;
    kids, next', shape', h' := Enter(fs, dir, next, root, shape, h, l);
    WithChildrenKeeps(l);
    EntriesApart(h', fs);
    HereIsKnown(h', root, shape', l.cur, dir);
    var k := TakeDirectory(fs);
    ghost var shape1, h1 := shape', h';
    shape', h' := AddChildAt(dir, CStr(next', name), k, root, shape1, l.cur, h1);
    DoMkdirIs(l, name, k, fs.View(), ViewOf(h', shape'));
    next' := next' + 1;
  }

  lemma SomeINode(l: Live)
    requires Enterable(l)
    ensures 0 < |l.vol.inodes| == |WithChildren(l).vol.inodes|
  {
  }

  lemma WithChildrenKeeps(l: Live)
    requires Enterable(l)
    ensures WithChildren(l).cur == l.cur && WithChildren(l).mb == l.mb
  {
  }

  // ---------- ls ----------

  method ListNames(first: DirectoryEntry?, ghost s: Shape, ghost h: Snapshot) returns (names: seq<Name>)
    requires Describes(h) && Linked(h, first, s)
    ensures names == Names(Entries(ViewOf(h, s)))
  {
    names := [];
    var d := first;
    ghost var rest := s;
    while d != null
      invariant Linked(h, d, rest)
      invariant Names(Entries(ViewOf(h, s))) == names + Names(Entries(ViewOf(h, rest)))
      decreases rest
    {
      NamesNext(d.name.chars, d.inode, Entries(ViewOf(h, rest.sib)), names);
      names := names + [d.name.chars];
      d := d.nextSibling;
      rest := rest.sib;
    }
  }

  lemma NamesNext(name: Name, num: int, es: seq<Entry>, names: seq<Name>)
    ensures names + Names([Entry(name, num)] + es) == names + [name] + Names(es)
  {
    assert Names([Entry(name, num)] + es) == [name] + Names(es);
  }

  method ListIn(fs: FileSystem, dir: DirectoryEntry, next: nat, ghost root: DirectoryEntry?, ghost shape: Shape,
                ghost h: Snapshot, ghost l: Live)
    returns (names: seq<Name>, next': nat, ghost shape': Shape, ghost h': Snapshot)
    requires Running(fs, root, dir, shape, h, l) && next == l.next && Enterable(l)
    modifies h.Keys, fs.device`blocks, fs.blockMap.bytes, fs.inodeMap
    ensures Running(fs, root, dir, shape', h', WithChildren(l)) && next' == WithChildren(l).next
    ensures names == Names(Entries(Children(WithChildren(l)))) && h.Keys <= h'.Keys && fresh(h'.Keys - h.Keys)
  {
    WithChildrenKeeps(l);
    var kids;
    kids, next', shape', h' := Enter(fs, dir, next, root, shape, h, l);
    KidsAt(h', root, shape', l.cur, dir);
    hide Linked, ViewOf, Distinct, Nodes, Enterable, NamesAreStrings, WellShaped, ShapeAt, WithChildren, Entries, At;
    names := ListNames(kids, ShapeAt(shape', l.cur).kids, h');
  }

  /** The children of the entry that a pointer leads to. */
  lemma KidsAt(h: Snapshot, root: DirectoryEntry?, shape: Shape, cur: Path, dir: DirectoryEntry?)
    requires Holds(h, root, shape, cur, dir)
    ensures dir in h && ShapeAt(shape, cur).AnEntry? && Linked(h, h[dir].kids, ShapeAt(shape, cur).kids)
    ensures At(ViewOf(h, shape), cur).Node? && At(ViewOf(h, shape), cur).kids == ViewOf(h, ShapeAt(shape, cur).kids)
    ensures ShapeAt(shape, cur).kids.AnEntry? ==> h[dir].kids == ShapeAt(shape, cur).kids.entry
  {
    ShapeAtNodes(h, root, shape, cur);
  }

  // ---------- cd ----------

  /** The first entry with the name that is a directory. */
  method FindIn(first: DirectoryEntry?, fs: FileSystem, target: Name, ghost shape: Shape, ghost from: Path,
                ghost h: Snapshot)
    returns (child: DirectoryEntry?)
    requires fs.Valid() && Describes(h) && Linked(h, first, ShapeAt(shape, from))
    requires InTable(ViewOf(h, ShapeAt(shape, from)), fs.inodeMap.Length)
    ensures var r := FindDirectory(ViewOf(h, ShapeAt(shape, from)), fs.View().inodes, target, from);
            && (child != null <==> r.0)
            && (child != null ==> ShapeAt(shape, r.1).AnEntry? && ShapeAt(shape, r.1).entry == child)
  {
    var d := first;
    ghost var rest, here := ShapeAt(shape, from), from;
    while d != null
      invariant Linked(h, d, rest) && ShapeAt(shape, here) == rest && InTable(ViewOf(h, rest), fs.inodeMap.Length)
      invariant FindDirectory(ViewOf(h, ShapeAt(shape, from)), fs.View().inodes, target, from)
             == FindDirectory(ViewOf(h, rest), fs.View().inodes, target, here)
      decreases rest
    {
      if d.name.chars == target {
        if fs.inodeMap[d.inode].itype == DIRECTORY_TYPE {
          return d;
        }
      }
      ShapeAtNext(shape, here, ToSib);
      d := d.nextSibling;
      rest, here := rest.sib, here + [ToSib];
    }
    return null;
  }

  /** Only the root entry is where no pointer has to go. */
  lemma {:induction false} RootIsNowhereElse(s: Shape, path: Path)
    requires Distinct(s) && s.AnEntry? && ShapeAt(s, path).AnEntry?
    ensures ShapeAt(s, path).entry == s.entry <==> path == []
    ensures ShapeAt(s, path).entry in Nodes(s)
    decreases |path|
  {
    if path != [] {
      RootIsNowhereElse(if path[0] == ToKids then s.kids else s.sib, path[1..]);
    }
  }

  /** The same cache with the pointer elsewhere. */
  lemma HoldsElsewhere(h: Snapshot, root: DirectoryEntry?, shape: Shape, cur: Path, dir: DirectoryEntry?, cur': Path,
                       dir': DirectoryEntry?)
    requires Holds(h, root, shape, cur, dir) && ShapeAt(shape, cur').AnEntry? && ShapeAt(shape, cur').entry == dir'
    ensures Holds(h, root, shape, cur', dir')
  {
  }

  method GoUp(fs: FileSystem, rootDir: DirectoryEntry, dir: DirectoryEntry, ghost shape: Shape, ghost h: Snapshot,
              ghost l: Live)
    returns (dir': DirectoryEntry?, reply: Reply, ghost cur': Path)
    requires Running(fs, rootDir, dir, shape, h, l) && InTable(l.cache, |l.vol.inodes|)
    ensures l.cur == [] ==> dir' == dir && cur' == l.cur && reply == AlreadyInRoot
    ensures l.cur != [] ==> reply == Silent && At(l.cache, l.cur).Node? && l.cache.Node?
    ensures l.cur != [] ==>
      (var r := ParentSearch(l.cache, At(l.cache, l.cur).num, At(l.cache, l.cur).name.addr);
       (dir' != null <==> r.0) && (r.0 ==> cur' == r.1))
    ensures dir' != null ==> Holds(h, rootDir, shape, cur', dir')
  {
    ShapeAtNodes(h, rootDir, shape, l.cur);
    RootIsNowhereElse(shape, l.cur);
    LinkedNodes(h, rootDir, shape);
    cur' := l.cur;
    if dir == rootDir {
      return dir, AlreadyInRoot, cur';
    }
    assert ShapeAt(shape, []) == shape && [] + [ToKids] == [ToKids];
    AtInTable(l.cache, l.cur, |l.vol.inodes|);
    dir' := DirParentSearch(rootDir, dir, fs, shape, [], h);
    cur' := ParentSearch(l.cache, dir.inode, dir.name.addr).1;
    reply := Silent;
    if dir' != null {
      HoldsElsewhere(h, rootDir, shape, l.cur, dir, cur', dir');
    }
  }

  lemma {:induction false} BareInTable(f: Forest, n: nat)
    ensures InTable(Bare(f), n) <==> InTable(f, n)
  {
    if f.Node? {
      BareInTable(f.kids, n);
      BareInTable(f.sib, n);
    }
  }

  lemma {:induction false} ReplacedInTable(f: Forest, path: Path, g: Forest, n: nat)
    requires InTable(f, n) && InTable(g, n)
    ensures InTable(Replace(f, path, g), n)
    decreases |path|
  {
    if path != [] && f.Node? {
      ReplacedInTable(f.kids, path[1..], g, n);
      ReplacedInTable(f.sib, path[1..], g, n);
    }
  }

  lemma WithChildrenInTable(l: Live)
    requires Enterable(l)
    ensures InTable(WithChildren(l).cache, |WithChildren(l).vol.inodes|)
  {
    var n := |l.vol.inodes|;
    AtInTable(l.cache, l.cur, n);
    var f := At(l.cache, l.cur);
    CachedInTable(f, l.vol, l.next);
    var f1 := Cached(f, l.vol, l.next).0;
    FlushClears(f1, l.vol);
    BareInTable(f1, n);
    BareInTable(Flush(f1, l.vol).0, n);
    ReplacedInTable(l.cache, l.cur, Flush(f1, l.vol).0, n);
  }

  lemma DoCdDown(l: Live, target: Name)
    requires Enterable(l) && target != PARENT_NAME && At(WithChildren(l).cache, l.cur).Node?
    ensures var l1 := WithChildren(l);
            var (found, child) := FindDirectory(At(l1.cache, l.cur).kids, l1.vol.inodes, target, l.cur + [ToKids]);
            DoCd(l, target) == if found then (Mounted(l1.(cur := child)), Silent) else (Mounted(l1), NoSuchDirectory)
  {
  }

  lemma DoCdUp(l: Live)
    requires Enterable(l) && At(WithChildren(l).cache, l.cur).Node? && WithChildren(l).cache.Node?
    ensures var l1 := WithChildren(l);
            var f := At(l1.cache, l.cur);
            var (found, parent) := ParentSearch(l1.cache, f.num, f.name.addr);
            DoCd(l, PARENT_NAME) == if l.cur == [] then (Mounted(l1), AlreadyInRoot)
                                    else (if found then Mounted(l1.(cur := parent)) else Undefined, Silent)
  {
  }

  method ChangeIn(fs: FileSystem, rootDir: DirectoryEntry, dir: DirectoryEntry, target: Name, next: nat,
                  ghost shape: Shape, ghost h: Snapshot, ghost l: Live)
    returns (dir': DirectoryEntry?, reply: Reply, next': nat, ghost shape': Shape, ghost h': Snapshot)
    requires Running(fs, rootDir, dir, shape, h, l) && next == l.next && Enterable(l) && DoCd(l, target).0.Mounted?
    modifies h.Keys, fs.device`blocks, fs.blockMap.bytes, fs.inodeMap
    ensures Running(fs, rootDir, dir', shape', h', DoCd(l, target).0.live) && reply == DoCd(l, target).1
    ensures next' == DoCd(l, target).0.live.next && h.Keys <= h'.Keys && fresh(h'.Keys - h.Keys)
  {
    WithChildrenKeeps(l);
    WithChildrenInTable(l);
    hide Linked, ViewOf, Distinct, Nodes, Enterable, NamesAreStrings, WellShaped, ShapeAt, WithChildren, At, InTable;
    hide Numbered, DoCd, Holds, FindDirectory, ParentSearch;
    var kids;
    kids, next', shape', h' := Enter(fs, dir, next, rootDir, shape, h, l);
    ghost var l1 := WithChildren(l);
    KidsAt(h', rootDir, shape', l.cur, dir);
    RootThere(h', rootDir, shape', l.cur, dir);
    if target == PARENT_NAME {
      ghost var cur';
      dir', reply, cur' := GoUp(fs, rootDir, dir, shape', h', l1);
      DoCdUp(l);
    } else {
      DoCdDown(l, target);
      ShapeAtNext(shape', l.cur, ToKids);
      PartInTable(l1.cache, l.cur, |l1.vol.inodes|);
      var child := FindIn(kids, fs, target, shape', l.cur + [ToKids], h');
      dir', reply := dir, NoSuchDirectory;
      if child != null {
        dir', reply := child, Silent;
        HoldsElsewhere(h', rootDir, shape', l.cur, dir, DoCd(l, target).0.live.cur, child);
      }
    }
  }

  lemma PartInTable(f: Forest, path: Path, n: nat)
    requires InTable(f, n) && At(f, path).Node?
    ensures InTable(At(f, path).kids, n)
  {
    AtInTable(f, path, n);
  }

  lemma RootThere(h: Snapshot, root: DirectoryEntry?, shape: Shape, cur: Path, dir: DirectoryEntry?)
    requires Holds(h, root, shape, cur, dir)
    ensures ViewOf(h, shape).Node?
  {
  }

  // ---------- unmount and mount ----------

  lemma FlushableParts(l: Live)
    requires Flushable(l) && NamesAreStrings(l.cache)
    ensures Writable(l.cache, |l.vol.inodes|, l.vol.bpb)
  {
  }

  lemma DoUnmountIs(l: Live, vol: Volume)
    requires Flushable(l) && DoUnmount(l).Idle? && vol == Flush(l.cache, l.vol).1
    ensures Persistable(vol) && l.mb == MasterOf(vol, 0) && DoUnmount(l) == Idle(Persist(vol))
  {
  }

  /** Flushes the whole cache and writes the metadata. */
  method UnmountIn(fs: FileSystem, mb: MasterBlock, rootDir: DirectoryEntry, ghost dir: DirectoryEntry?,
                   ghost shape: Shape, ghost h: Snapshot, ghost l: Live)
    requires Running(fs, rootDir, dir, shape, h, l) && mb == l.mb && Flushable(l) && DoUnmount(l).Idle?
    modifies h.Keys, fs.device`blocks, fs.blockMap.bytes, fs.inodeMap
    ensures fs.device.Valid() && Idle(fs.device.blocks) == DoUnmount(l)
  {
    FlushableParts(l);
    ghost var h' := FlushDirectoryCache(rootDir, fs, shape, h);
    DoUnmountIs(l, fs.View());
    PersistMetadata(fs, mb);
  }

  lemma DoMountIs(disk: seq<Block>, vol: Volume, mb: MasterBlock)
    requires Metadata.Mount(disk) == Some((vol, mb)) && DoMount(disk).Mounted?
    ensures 0 <= mb.rootDirINode < |vol.inodes| && WellShaped(vol)
    ensures DoMount(disk).live
         == Live(vol, mb, NewEntry(mb.rootDirINode, CStr(ROOT_LITERAL, ROOT_NAME)), [], FIRST_ADDRESS)
  {
  }

  lemma DoMountMounts(disk: seq<Block>)
    requires DoMount(disk).Mounted?
    ensures Metadata.Mount(disk).Some?
  {
  }

  lemma RootAlone(rootDir: DirectoryEntry)
    requires rootDir.nextSibling == null && rootDir.maybeChildren == null && rootDir.isDirty
    requires rootDir.name == CStr(ROOT_LITERAL, ROOT_NAME)
    ensures var shape, h := AnEntry(rootDir, NoEntry, NoEntry), map[rootDir := Cell(null, null, true)];
            && Describes(h) && Holds(h, rootDir, shape, [], rootDir)
            && ViewOf(h, shape) == NewEntry(rootDir.inode, CStr(ROOT_LITERAL, ROOT_NAME))
  {
  }

  /** Reads the metadata of a device and starts a cache at the root. */
  method MountIn(device: BlockDevice)
    returns (fs: FileSystem?, mb: MasterBlock, rootDir: DirectoryEntry?, ghost shape: Shape, ghost h: Snapshot)
    requires device.Valid() && DoMount(device.blocks).Mounted? && Numbered(DoMount(device.blocks).live.vol.inodes)
    ensures fs != null && fresh(fs) && fs.device == device && fresh(fs.blockMap.bytes) && fresh(fs.inodeMap)
    ensures fresh(h.Keys)
    ensures Running(fs, rootDir, rootDir, shape, h, DoMount(device.blocks).live)
    ensures DoMount(device.blocks).live.mb == mb && DoMount(device.blocks).live.next == FIRST_ADDRESS && rootDir != null
  {
    hide DoMount, Mount, WellShaped, Numbered, Holds, Linked, ViewOf, Describes;
    DoMountMounts(device.blocks);
    fs, mb := MetadataIO.MountDevice(device);
    DoMountIs(device.blocks, fs.View(), mb);
    rootDir := new DirectoryEntry(mb.rootDirINode, CStr(ROOT_LITERAL, ROOT_NAME));
    shape, h := AnEntry(rootDir, NoEntry, NoEntry), map[rootDir := Cell(null, null, true)];
    RootAlone(rootDir);
  }

  lemma DeviceStays(fs: FileSystem, root: DirectoryEntry?, dir: DirectoryEntry?, shape: Shape, h: Snapshot, l: Live)
    requires Running(fs, root, dir, shape, h, l)
    ensures fs.device.Valid() && dir != null
  {
    HereIsKnown(h, root, shape, l.cur, dir);
  }

  // ---------- what each command is on values ----------

  lemma StepParts(l: Live, name: Name)
    ensures Step(Mounted(l), Mkdir(name)).0 != Undefined ==>
      Enterable(l) && Step(Mounted(l), Mkdir(name)) == (DoMkdir(l, name), Silent)
    ensures Step(Mounted(l), Cd(name)).0 != Undefined ==>
      Enterable(l) && DoCd(l, name).0.Mounted? && Step(Mounted(l), Cd(name)) == DoCd(l, name)
    ensures Step(Mounted(l), Ls).0 != Undefined ==>
      Enterable(l)
      && Step(Mounted(l), Ls) == (Mounted(WithChildren(l)), Listing(Names(Entries(Children(WithChildren(l))))))
    ensures Step(Mounted(l), Unmount).0 != Undefined ==>
      Flushable(l) && DoUnmount(l).Idle? && Step(Mounted(l), Unmount) == (DoUnmount(l), Silent)
    ensures Step(Mounted(l), MountDevice) == (Mounted(l), AlreadyMounted)
  {
  }

  lemma StepIdle(disk: seq<Block>, c: Command)
    ensures c.MountDevice? && Step(Idle(disk), c).0 != Undefined ==>
      DoMount(disk).Mounted? && Step(Idle(disk), c) == (DoMount(disk), Silent)
    ensures !c.MountDevice? ==> Step(Idle(disk), c) == (Idle(disk), NotMounted)
  {
  }

  /** `cd` to the two bytes 46 goes up, or stays in the root. */
  lemma TwoDotsGoUp(s: Shell)
    ensures s.Mounted? && Step(s, Shells.Cd([46, 46])).0 != Undefined ==>
      Step(s, Shells.Cd([46, 46])).1 == if s.live.cur == [] then AlreadyInRoot else Silent
  {
    hide ParentSearch, FindDirectory, Enterable;
  }

  // ---------- the program ----------

  class MainShell {
    const device: BlockDevice
    var fs: FileSystem?
    var mb: MasterBlock
    var rootDir: DirectoryEntry?
    var currentDir: DirectoryEntry?
    /** The next address that an allocation of a string gets. */
    var next: nat
    ghost var shape: Shape
    ghost var h: Snapshot
    ghost var live: Live

    /** The objects that a command may change. */
    ghost function Parts(): set<object>
      reads this
    {
      if fs == null then {} else h.Keys + {fs.device, fs.blockMap.bytes, fs.inodeMap}
    }

    ghost predicate Valid()
      reads this, device, Parts()
    {
      && device.Valid()
      && (fs != null ==>
            && fs.device == device && rootDir != null && currentDir != null
            && Running(fs, rootDir, currentDir, shape, h, live) && live.mb == mb && live.next == next)
    }

    /** The state of the shell as a value. */
    ghost function View(): Shell
      reads this, device
    {
      if fs == null then Idle(device.blocks) else Mounted(live)
    }

    constructor (device: BlockDevice)
      requires device.Valid()
      ensures Valid() && this.device == device && View() == Idle(device.blocks) && Parts() == {}
    {
      this.device := device;
      fs := null;
      mb := MasterBlock(0, 0, 0, 0, 0, 0, 0);
      rootDir := null;
      currentDir := null;
      next := 0;
      shape := NoEntry;
      h := map[];
    }

    method Mount() returns (reply: Reply)
      requires Valid() && Step(View(), MountDevice).0 != Undefined
      requires fs == null ==> Numbered(DoMount(device.blocks).live.vol.inodes)
      modifies this, device, Parts()
      ensures Valid() && (View(), reply) == Step(old(View()), MountDevice) && fresh(Parts() - old(Parts()) - {device})
    {
      hide Step, DoMount, DoUnmount, DoMkdir, DoCd, WithChildren, Enterable, Flushable, Running, IsDisk, WellShaped;
      if fs != null {
        StepParts(live, []);
        return AlreadyMounted;
      }
      StepIdle(device.blocks, MountDevice);
      ghost var disk := device.blocks;
      fs, mb, rootDir, shape, h := MountIn(device);
      currentDir, next, live := rootDir, FIRST_ADDRESS, DoMount(disk).live;
      return Silent;
    }

    method Unmount() returns (reply: Reply)
      requires Valid() && Step(View(), Shells.Unmount).0 != Undefined
      modifies this, device, Parts()
      ensures Valid() && (View(), reply) == Step(old(View()), Shells.Unmount)
      ensures fresh(Parts() - old(Parts()) - {device})
    {
      hide Step, DoMount, DoUnmount, DoMkdir, DoCd, WithChildren, Enterable, Flushable, Running, IsDisk, WellShaped;
      if fs == null {
        StepIdle(device.blocks, Shells.Unmount);
        return NotMounted;
      }
      StepParts(live, []);
      UnmountIn(fs, mb, rootDir, currentDir, shape, h, live);
      fs := null;
      return Silent;
    }

    method Mkdir(name: Name) returns (reply: Reply)
      requires Valid() && Step(View(), Shells.Mkdir(name)).0 != Undefined
      requires fs != null ==> NUL !in name
      modifies this, device, Parts()
      ensures Valid() && (View(), reply) == Step(old(View()), Shells.Mkdir(name))
      ensures fresh(Parts() - old(Parts()) - {device})
    {
      hide Step, DoMount, DoUnmount, DoMkdir, DoCd, WithChildren, Enterable, Flushable, Running, IsDisk, WellShaped;
      if fs == null {
        StepIdle(device.blocks, Shells.Mkdir(name));
        return NotMounted;
      }
      ghost var l := live;
      StepParts(l, name);
      MasterKept(l, name);
      next, shape, h := MakeIn(fs, currentDir, name, next, rootDir, shape, h, l);
      live := DoMkdir(l, name).live;
      DeviceStays(fs, rootDir, currentDir, shape, h, live);
      return Silent;
    }

    method Ls() returns (reply: Reply)
      requires Valid() && Step(View(), Shells.Ls).0 != Undefined
      modifies this, device, Parts()
      ensures Valid() && (View(), reply) == Step(old(View()), Shells.Ls) && fresh(Parts() - old(Parts()) - {device})
    {
      hide Step, DoMount, DoUnmount, DoMkdir, DoCd, WithChildren, Enterable, Flushable, Running, IsDisk, WellShaped;
      if fs == null {
        StepIdle(device.blocks, Shells.Ls);
        return NotMounted;
      }
      ghost var l := live;
      StepParts(l, []);
      MasterKept(l, []);
      var names;
      names, next, shape, h := ListIn(fs, currentDir, next, rootDir, shape, h, l);
      live := WithChildren(l);
      DeviceStays(fs, rootDir, currentDir, shape, h, live);
      return Listing(names);
    }

    method Cd(name: Name) returns (reply: Reply)
      requires Valid() && Step(View(), Shells.Cd(name)).0 != Undefined
      modifies this, device, Parts()
      ensures Valid() && (View(), reply) == Step(old(View()), Shells.Cd(name))
      ensures fresh(Parts() - old(Parts()) - {device})
    {
      hide Step, DoMount, DoUnmount, DoMkdir, DoCd, WithChildren, Enterable, Flushable, Running, IsDisk, WellShaped;
      if fs == null {
        StepIdle(device.blocks, Shells.Cd(name));
        return NotMounted;
      }
      ghost var l := live;
      StepParts(l, name);
      MasterKept(l, name);
      currentDir, reply, next, shape, h := ChangeIn(fs, rootDir, currentDir, name, next, shape, h, l);
      live := DoCd(l, name).0.live;
      DeviceStays(fs, rootDir, currentDir, shape, h, live);
    }

    /** One command: the program ends in the state, and gives the answer, of the
        shell on values. */
    method Execute(c: Command) returns (reply: Reply)
      requires Valid() && Step(View(), c).0 != Undefined
      requires c.Mkdir? && fs != null ==> NUL !in c.name
      requires c.MountDevice? && fs == null ==> Numbered(DoMount(device.blocks).live.vol.inodes)
      modifies this, device, Parts()
      ensures Valid() && (View(), reply) == Step(old(View()), c) && fresh(Parts() - old(Parts()) - {device})
      ensures c == Shells.Cd([46, 46]) && old(View()).Mounted? ==>
        reply == if old(View()).live.cur == [] then AlreadyInRoot else Silent
    {
      TwoDotsGoUp(View());
      hide Step, Running;
      match c
      case MountDevice => reply := Mount();
      case Unmount => reply := Unmount();
      case Mkdir(name) => reply := Mkdir(name);
      case Ls => reply := Ls();
      case Cd(name) => reply := Cd(name);
    }
  }
}
