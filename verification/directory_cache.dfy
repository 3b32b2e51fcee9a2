/** Writing back, loading and searching the linked directory cache. */
module DirectoryCache {
  import opened Bytes
  import opened INodes
  import opened Volumes
  import opened DirectoryText
  import opened DirectoryStore
  import opened Forests
  import opened Shells
  import opened FileSystems
  import opened DirectoryEntries
  import opened TextBuffers

  // ---------- what a write leaves alone ----------

  /** Each inode holds its own index. */
  predicate Numbered(inodes: seq<INode>) {
    forall k :: 0 <= k < |inodes| ==> inodes[k].inodeNum == k
  }

  lemma {:induction false} WriteFromKeepsNumbers(v: Volume, k: nat, i: nat, blocks: nat, off: nat, done: nat,
                                                 data: seq<byte>)
    requires WellShaped(v) && k < |v.inodes| && i <= blocks && off < v.bpb && done <= |data|
    requires Numbered(v.inodes)
    ensures Numbered(WriteFrom(v, k, i, blocks, off, done, data).vol.inodes)
    decreases blocks - i
  {
    if i < blocks {
      var chunk := Min(v.bpb - off, |data| - done);
      var (v1, a) := LookupOrAllocate(v, k, i);
      assert Numbered(v1.inodes);
      if 0 <= a < |v1.disk| {
        var v2 := v1.(disk := v1.disk[a := Splice(v1.disk[a], off, data[done..done + chunk])]);
        WriteFromKeepsNumbers(v2, k, i + 1, blocks, 0, done + chunk, data);
      }
    }
  }

  lemma StoreKeepsNumbers(v: Volume, k: nat, es: seq<Entry>)
    requires WellShaped(v) && k < |v.inodes| && Numbered(v.inodes)
    ensures Numbered(StoreDirectory(v, k, es).inodes)
  {
    var data := PrintBlock(es, v.bpb);
    WriteFromKeepsNumbers(v, k, 0, BlockSpan(0, |data|, v.bpb), OffsetIn(0, v.bpb), 0, data);
  }

  lemma StoreIs(v: Volume, k: nat, es: seq<Entry>)
    requires WellShaped(v) && k < |v.inodes| && Numbered(v.inodes)
    ensures StoreDirectory(v, k, es) == Volumes.INodeWrite(v, k, 0, PrintBlock(es, v.bpb)).0
    ensures Numbered(StoreDirectory(v, k, es).inodes)
  {
    StoreKeepsNumbers(v, k, es);
  }

  // ---------- writing one directory ----------

  /** A snapshot with the flags of some entries cleared. */
  predicate ClearedIn(h: Snapshot, h': Snapshot, done: set<DirectoryEntry>) {
    h'.Keys == h.Keys && forall e :: e in h ==> h'[e] == if e in done then h[e].(dirty := false) else h[e]
  }

  /** The flags of one list of siblings cleared. */
  lemma {:induction false} CleanedIn(h: Snapshot, h': Snapshot, d: DirectoryEntry?, s: Shape, done: set<DirectoryEntry>)
    requires Distinct(s) && Linked(h, d, s) && ClearedIn(h, h', done)
    requires TopNodes(s) <= done && Nodes(s) - TopNodes(s) !! done
    ensures Linked(h', d, s) && ViewOf(h', s) == Cleaned(ViewOf(h, s))
    decreases s
  {
    if s.AnEntry? {
      LinkedNodes(h, h[s.entry].kids, s.kids);
      ShapeFrame(h, h', h[s.entry].kids, s.kids);
      CleanedIn(h, h', h[s.entry].next, s.sib, done);
    }
  }

  /** The text of a list of siblings, split before its first entry. */
  lemma PrintNext(h: Snapshot, s: Shape, text: seq<byte>)
    requires s.AnEntry?
    ensures text + Print(Entries(ViewOf(h, s))) ==
      text + Line(Entry(s.entry.name.chars, s.entry.inode)) + Print(Entries(ViewOf(h, s.sib)))
  {
    hide Line;
    var es := Entries(ViewOf(h, s));
    assert es[0] == Entry(s.entry.name.chars, s.entry.inode) && es[1..] == Entries(ViewOf(h, s.sib));
    ConcatAssociates(text, Line(es[0]), Print(es[1..]));
  }

  lemma PrintBlockIs(es: seq<Entry>, bpb: nat)
    requires Fits(es, bpb)
    ensures PrintBlock(es, bpb) == Print(es) + Zeros(bpb - |Print(es)|)
  {
  }

  /** Names are C strings. */
  predicate NamesAreStrings(f: Forest) {
    f.Node? ==> NUL !in f.name.chars && NamesAreStrings(f.kids) && NamesAreStrings(f.sib)
  }

  /** One step along a list of siblings. */
  lemma WalkOn(h: Snapshot, d: DirectoryEntry, s: Shape, n: nat)
    requires Linked(h, d, s) && Distinct(s) && InTable(ViewOf(h, s), n) && NamesAreStrings(ViewOf(h, s))
    ensures s.AnEntry? && s.entry == d && d in h && d !in TopNodes(s.sib) && TopNodes(s) == {d} + TopNodes(s.sib)
    ensures Linked(h, h[d].next, s.sib) && Distinct(s.sib)
    ensures d.inode < n && NUL !in d.name.chars
    ensures InTable(ViewOf(h, s.sib), n) && NamesAreStrings(ViewOf(h, s.sib))
  {
  }

  lemma WalkEnds(h: Snapshot, s: Shape)
    requires Linked(h, null, s)
    ensures Print(Entries(ViewOf(h, s))) == [] && TopNodes(s) == {}
  {
  }

  lemma LineIsString(name: Name, num: int)
    requires NUL !in name
    ensures NUL !in Line(Entry(name, num))
  {
    DecimalIsWord(num);
  }

  /** Clears the flag of one more entry. */
  method ClearFlag(d: DirectoryEntry, ghost h: Snapshot, ghost h1: Snapshot,
                   ghost done: set<DirectoryEntry>) returns (ghost h2: Snapshot)
    requires Describes(h1) && ClearedIn(h, h1, done) && d in h1
    modifies d`isDirty
    ensures Describes(h2) && ClearedIn(h, h2, done + {d})
  {
    d.isDirty := false;
    h2 := h1[d := h1[d].(dirty := false)];
  }

  /** Appends the line of one entry to the buffer. */
  method PrintEntry(curr: DirectoryEntry, inodes: array<INode>, writestring: array<byte>, ghost text: seq<byte>)
    returns (ghost text': seq<byte>)
    requires Numbered(inodes[..]) && curr.inode < inodes.Length && NUL !in curr.name.chars && NUL !in text
    requires |text| + |Line(Entry(curr.name.chars, curr.inode))| < writestring.Length
    requires writestring[..] == text + Zeros(writestring.Length - |text|)
    modifies writestring
    ensures text' == text + Line(Entry(curr.name.chars, curr.inode)) && NUL !in text'
    ensures |text'| < writestring.Length && writestring[..] == text' + Zeros(writestring.Length - |text'|)
  {
    LineIsString(curr.name.chars, curr.inode);
    var strboy := Line(Entry(curr.name.chars, inodes[curr.inode].inodeNum));
    StrCat(writestring, strboy, text);
    text' := text + strboy;
  }

  /** The buffer that a directory is written from: one line per child. Clears
      the flags of the children. */
  method PrintChildren(first: DirectoryEntry, inodes: array<INode>, bpb: nat, ghost kids: Shape, ghost h: Snapshot)
    returns (writestring: array<byte>, ghost h': Snapshot)
    requires Describes(h) && Linked(h, first, kids) && Distinct(kids)
    requires Numbered(inodes[..]) && InTable(ViewOf(h, kids), inodes.Length) && NamesAreStrings(ViewOf(h, kids))
    requires Fits(Entries(ViewOf(h, kids)), bpb)
    modifies h.Keys`isDirty
    ensures fresh(writestring) && writestring[..] == PrintBlock(Entries(ViewOf(h, kids)), bpb)
    ensures Describes(h') && ClearedIn(h, h', TopNodes(kids))
  {
    hide Line, Print, PrintBlock, Linked, Distinct, InTable, NamesAreStrings, ViewOf, TopNodes, Nodes;
    writestring := new byte[bpb](_ => 0);
    h' := h;
    var curr: DirectoryEntry? := first;
    ghost var done: set<DirectoryEntry> := {};
    ghost var rest, text := kids, [];
    while curr != null
      invariant Linked(h, curr, rest) && Distinct(rest)
      invariant InTable(ViewOf(h, rest), inodes.Length) && NamesAreStrings(ViewOf(h, rest))
      invariant NUL !in text && Print(Entries(ViewOf(h, kids))) == text + Print(Entries(ViewOf(h, rest)))
      invariant writestring[..] == text + Zeros(bpb - |text|)
      invariant Describes(h') && ClearedIn(h, h', done) && done + TopNodes(rest) == TopNodes(kids)
      decreases rest
    {
      WalkOn(h, curr, rest, inodes.Length);
      PrintNext(h, rest, text);
      text := PrintEntry(curr, inodes, writestring, text);
      h' := ClearFlag(curr, h, h', done);
      done := done + {curr};
      curr := curr.nextSibling;
      rest := rest.sib;
    }
    WalkEnds(h, rest);
    PrintBlockIs(Entries(ViewOf(h, kids)), bpb);
  }

  /** The cache shares no memory with the volume. */
  lemma EntriesApart(h: Snapshot, fs: FileSystem)
    ensures forall e :: e in h ==>
      e as object != fs.blockMap.bytes && e as object != fs.inodeMap && e as object != fs.device
  {
  }

  /** Stores the text of a directory; the cache stays as it is. */
  method StoreText(k: nat, fs: FileSystem, writestring: array<byte>, ghost es: seq<Entry>, ghost h: Snapshot)
    requires fs.Valid() && Numbered(fs.inodeMap[..]) && k < fs.inodeMap.Length && Describes(h)
    requires writestring[..] == PrintBlock(es, fs.device.bytesPerBlock)
    requires writestring != fs.blockMap.bytes && writestring as object != fs.inodeMap
    modifies fs.device`blocks, fs.blockMap.bytes, fs.inodeMap
    ensures fs.Valid() && Numbered(fs.inodeMap[..]) && Describes(h)
    ensures fs.View() == StoreDirectory(old(fs.View()), k, es)
  {
    EntriesApart(h, fs);
    StoreIs(fs.View(), k, es);
    hide Volumes.INodeWrite, StoreDirectory, PrintBlock, WellShaped;
    assert writestring[..fs.device.bytesPerBlock] == writestring[..];
    var n := fs.INodeWrite(k, 0, fs.device.bytesPerBlock, writestring);
  }

  lemma ClearedNothing(h: Snapshot, kids: Shape)
    ensures kids.NoEntry? ==> ClearedIn(h, h, TopNodes(kids))
  {
  }

  lemma ClearedKeys(h: Snapshot, h': Snapshot, done: set<DirectoryEntry>)
    requires ClearedIn(h, h', done)
    ensures h'.Keys == h.Keys
  {
  }

  /** Writes the children of a directory, if it has been cached, to its inode. */
  method WriteDirectory(d: DirectoryEntry, fs: FileSystem, ghost kids: Shape,
                        ghost h: Snapshot) returns (ghost h': Snapshot)
    requires fs.Valid() && Numbered(fs.inodeMap[..]) && d.inode < fs.inodeMap.Length
    requires Describes(h) && d in h && d !in Nodes(kids) && Linked(h, h[d].kids, kids) && Distinct(kids)
    requires InTable(ViewOf(h, kids), fs.inodeMap.Length) && NamesAreStrings(ViewOf(h, kids))
    requires kids.AnEntry? ==> Fits(Entries(ViewOf(h, kids)), fs.device.bytesPerBlock)
    modifies h.Keys`isDirty, fs.device`blocks, fs.blockMap.bytes, fs.inodeMap
    ensures fs.Valid() && Numbered(fs.inodeMap[..])
    ensures Describes(h') && ClearedIn(h, h', TopNodes(kids) + {d})
    ensures fs.View() ==
      if kids.NoEntry? then old(fs.View()) else StoreDirectory(old(fs.View()), d.inode, Entries(ViewOf(h, kids)))
  {
    LinkedNodes(h, h[d].kids, kids);
    ClearedNothing(h, kids);
    hide StoreDirectory, PrintBlock, Fits, Entries, InTable, NamesAreStrings, WellShaped, Linked, ViewOf, Nodes;
    hide Distinct, Numbered, ClearedIn, TopNodes;
    h' := h;
    if d.maybeChildren != null {
      var writestring;
      writestring, h' := PrintChildren(d.maybeChildren, fs.inodeMap, fs.device.bytesPerBlock, kids, h);
      StoreText(d.inode, fs, writestring, Entries(ViewOf(h, kids)), h');
    }
    ClearedKeys(h, h', TopNodes(kids));
    h' := ClearFlag(d, h, h', TopNodes(kids));
  }

  // ---------- the write-back ----------

  /** What a write-back asks of a cache: entries in the table, C strings for
      names, texts that fit. */
  predicate Writable(f: Forest, n: nat, bpb: nat) {
    InTable(f, n) && NamesAreStrings(f) && TextsFit(f, bpb)
  }

  lemma {:induction false} WritableCleaned(f: Forest, n: nat, bpb: nat)
    ensures Writable(Cleaned(f), n, bpb) <==> Writable(f, n, bpb)
  {
    if f.Node? {
      WritableCleaned(f.sib, n, bpb);
    }
  }

  lemma WritableParts(f: Forest, n: nat, bpb: nat)
    requires f.Node? && Writable(f, n, bpb)
    ensures f.num < n && Writable(f.kids, n, bpb) && Writable(f.sib, n, bpb)
    ensures InTable(f, n) && InTable(f.kids, n) && NamesAreStrings(f.kids)
    ensures f.kids.Node? ==> Fits(Entries(f.kids), bpb)
    ensures Writable(Cleaned(f.kids), n, bpb) && InTable(Cleaned(f.kids), n) && NamesAreStrings(Cleaned(f.kids))
    ensures Entries(Cleaned(f.kids)) == Entries(f.kids)
  {
    WritableCleaned(f.kids, n, bpb);
  }

  /** The stages of a write-back. */
  lemma FlushUnfolds(f: Forest, v: Volume, f1: Forest, v1: Volume)
    requires f.Node? && WellShaped(v) && InTable(f, |v.inodes|)
    requires f1 == f.(sib := Flush(f.sib, v).0) && v1 == Flush(f.sib, v).1
    ensures var (f2, v2) := FlushEntry(f1, v1);
            InTable(f2.kids, |v2.inodes|) && Flush(f, v) == FlushKids(f2, v2)
  {
    hide StoreDirectory, WellShaped, Cleaned;
    InTableOfCleaned(f.kids, |v.inodes|);
  }

  /** Whether an entry of the list is dirty. */
  method AnyDirtyEntry(first: DirectoryEntry?, ghost s: Shape, ghost h: Snapshot) returns (dirty: bool)
    requires Describes(h) && Linked(h, first, s)
    ensures dirty == AnyDirty(ViewOf(h, s))
  {
    var curr := first;
    ghost var rest := s;
    while curr != null
      invariant Linked(h, curr, rest) && AnyDirty(ViewOf(h, s)) == AnyDirty(ViewOf(h, rest))
      decreases rest
    {
      if curr.isDirty {
        return true;
      }
      curr := curr.nextSibling;
      rest := rest.sib;
    }
    return false;
  }

  /** An entry with the children that h shows below it, beside some siblings. */
  function EntryView(h: Snapshot, d: DirectoryEntry, kids: Shape, sib: Forest): (f: Forest)
    requires d in h
    ensures f.Node?
  {
    Node(d.inode, d.name, h[d].dirty, ViewOf(h, kids), sib)
  }

  /** Only the flags of these entries may have changed. */
  predicate OnlyFlags(h: Snapshot, h': Snapshot, ns: set<DirectoryEntry>) {
    && h'.Keys == h.Keys
    && forall e :: e in h ==> h'[e] == if e in ns then h[e].(dirty := h'[e].dirty) else h[e]
  }

  /** An entry and its children after the entry has been written. */
  lemma ClearedEntry(h: Snapshot, h': Snapshot, d: DirectoryEntry, kids: Shape, sib: Forest)
    requires d in h && d !in Nodes(kids) && Distinct(kids) && Linked(h, h[d].kids, kids)
    requires ClearedIn(h, h', TopNodes(kids) + {d})
    ensures h'[d] == h[d].(dirty := false) && Linked(h', h[d].kids, kids) && OnlyFlags(h, h', Nodes(kids) + {d})
    ensures EntryView(h', d, kids, sib) == Node(d.inode, d.name, false, Cleaned(ViewOf(h, kids)), sib)
  {
    CleanedIn(h, h', h[d].kids, kids, TopNodes(kids) + {d});
  }

  /** Writes an entry back if it is dirty. */
  method FlushIfDirty(d: DirectoryEntry, fs: FileSystem, ghost kids: Shape, ghost sib: Forest, ghost h: Snapshot)
    returns (ghost h': Snapshot)
    requires fs.Valid() && Numbered(fs.inodeMap[..]) && d.inode < fs.inodeMap.Length
    requires Describes(h) && d in h && d !in Nodes(kids) && Linked(h, h[d].kids, kids) && Distinct(kids)
    requires Writable(ViewOf(h, kids), fs.inodeMap.Length, fs.device.bytesPerBlock)
    requires kids.AnEntry? ==> Fits(Entries(ViewOf(h, kids)), fs.device.bytesPerBlock)
    modifies h.Keys`isDirty, fs.device`blocks, fs.blockMap.bytes, fs.inodeMap
    ensures fs.Valid() && Numbered(fs.inodeMap[..])
    ensures Describes(h') && OnlyFlags(h, h', Nodes(kids) + {d}) && Linked(h', h[d].kids, kids)
    ensures (EntryView(h', d, kids, sib), fs.View()) == FlushEntry(EntryView(h, d, kids, sib), old(fs.View()))
    ensures Writable(ViewOf(h', kids), fs.inodeMap.Length, fs.device.bytesPerBlock)
    ensures kids.AnEntry? ==> Fits(Entries(ViewOf(h', kids)), fs.device.bytesPerBlock)
  {
    WritableCleaned(ViewOf(h, kids), fs.inodeMap.Length, fs.device.bytesPerBlock);
    hide TextsFit, InTable, NamesAreStrings, StoreDirectory, WellShaped, Fits, Distinct, Linked, ViewOf, Nodes;
    hide TopNodes;
    h' := h;
    if d.isDirty {
      h' := WriteDirectory(d, fs, kids, h);
      ClearedEntry(h, h', d, kids, sib);
    }
  }

  /** The part of the write-back below an entry. */
  method FlushBelow(d: DirectoryEntry, fs: FileSystem, ghost kids: Shape, ghost sib: Forest, ghost h: Snapshot)
    returns (ghost h': Snapshot)
    requires fs.Valid() && Numbered(fs.inodeMap[..]) && d.inode < fs.inodeMap.Length
    requires Describes(h) && d in h && d !in Nodes(kids) && Linked(h, h[d].kids, kids) && Distinct(kids)
    requires Writable(ViewOf(h, kids), fs.inodeMap.Length, fs.device.bytesPerBlock)
    requires InTable(ViewOf(h, kids), fs.inodeMap.Length)
    requires kids.AnEntry? ==> Fits(Entries(ViewOf(h, kids)), fs.device.bytesPerBlock)
    modifies h.Keys`isDirty, fs.device`blocks, fs.blockMap.bytes, fs.inodeMap
    ensures fs.Valid() && Numbered(fs.inodeMap[..])
    ensures Describes(h') && OnlyFlags(h, h', Nodes(kids) + {d}) && Linked(h', h[d].kids, kids)
    ensures (EntryView(h', d, kids, sib), fs.View()) == FlushKids(EntryView(h, d, kids, sib), old(fs.View()))
    decreases kids, 2
  {
    LinkedNodes(h, h[d].kids, kids);
    hide TextsFit, InTable, NamesAreStrings, StoreDirectory, WellShaped, Fits, Distinct, Linked, ViewOf, Nodes;
    hide TopNodes, Flush;
    h' := h;
    if d.maybeChildren != null {
      var stop := AnyDirtyEntry(d.maybeChildren, kids, h);
      if stop {
        h' := WriteDirectory(d, fs, kids, h);
        ClearedEntry(h, h', d, kids, sib);
      } else {
        h' := FlushDirectoryCache(d.maybeChildren, fs, kids, h);
      }
    }
  }

  /** The entry itself, then what is below it. */
  method FlushFromEntry(d: DirectoryEntry, fs: FileSystem, ghost kids: Shape, ghost sib: Forest, ghost h: Snapshot)
    returns (ghost h': Snapshot)
    requires fs.Valid() && Numbered(fs.inodeMap[..]) && d.inode < fs.inodeMap.Length
    requires Describes(h) && d in h && d !in Nodes(kids) && Linked(h, h[d].kids, kids) && Distinct(kids)
    requires Writable(ViewOf(h, kids), fs.inodeMap.Length, fs.device.bytesPerBlock)
    requires kids.AnEntry? ==> Fits(Entries(ViewOf(h, kids)), fs.device.bytesPerBlock)
    modifies h.Keys`isDirty, fs.device`blocks, fs.blockMap.bytes, fs.inodeMap
    ensures fs.Valid() && Numbered(fs.inodeMap[..])
    ensures Describes(h') && OnlyFlags(h, h', Nodes(kids) + {d}) && Linked(h', h[d].kids, kids)
    ensures InTable(FlushEntry(EntryView(h, d, kids, sib), old(fs.View())).0.kids, fs.inodeMap.Length)
    ensures var (f, v) := FlushEntry(EntryView(h, d, kids, sib), old(fs.View()));
            (EntryView(h', d, kids, sib), fs.View()) == FlushKids(f, v)
    decreases kids, 3
  {
    h' := FlushIfDirty(d, fs, kids, sib, h);
    hide InTable, NamesAreStrings, TextsFit, FlushEntry, FlushKids, Entries, Fits, Linked, ViewOf, Nodes, Distinct;
    hide WellShaped;
    h' := FlushBelow(d, fs, kids, sib, h');
  }

  /** The later siblings of an entry. */
  method FlushBeside(d: DirectoryEntry, fs: FileSystem, ghost sib: Shape,
                     ghost h: Snapshot) returns (ghost h': Snapshot)
    requires fs.Valid() && Numbered(fs.inodeMap[..])
    requires Describes(h) && d in h && Linked(h, h[d].next, sib) && Distinct(sib)
    requires Writable(ViewOf(h, sib), fs.inodeMap.Length, fs.device.bytesPerBlock)
    modifies h.Keys`isDirty, fs.device`blocks, fs.blockMap.bytes, fs.inodeMap
    ensures fs.Valid() && Numbered(fs.inodeMap[..])
    ensures Describes(h') && OnlyFlags(h, h', Nodes(sib)) && Linked(h', h[d].next, sib)
    ensures (ViewOf(h', sib), fs.View()) == Flush(ViewOf(h, sib), old(fs.View()))
    decreases sib, 2
  {
    LinkedNodes(h, h[d].next, sib);
    h' := h;
    if d.nextSibling != null {
      hide Linked, ViewOf, Writable, WellShaped, Distinct;
      h' := FlushDirectoryCache(d.nextSibling, fs, sib, h);
    }
  }

  /** The two halves of a flush, put together. */
  lemma FlushedShape(h: Snapshot, h1: Snapshot, h2: Snapshot, s: Shape)
    requires s.AnEntry? && Distinct(s) && Linked(h, s.entry, s)
    requires OnlyFlags(h, h1, Nodes(s.sib)) && Linked(h1, h[s.entry].next, s.sib)
    ensures s.entry in h1 && h1[s.entry] == h[s.entry] && Linked(h1, h[s.entry].kids, s.kids)
    ensures ViewOf(h, s).Node?
    ensures EntryView(h1, s.entry, s.kids, ViewOf(h1, s.sib)) == ViewOf(h, s).(sib := ViewOf(h1, s.sib))
    ensures OnlyFlags(h1, h2, Nodes(s.kids) + {s.entry}) && Linked(h2, h[s.entry].kids, s.kids) ==>
      OnlyFlags(h, h2, Nodes(s)) && Linked(h2, s.entry, s)
      && EntryView(h2, s.entry, s.kids, ViewOf(h1, s.sib)) == ViewOf(h2, s)
  {
    LinkedNodes(h, s.entry, s);
    ShapeFrame(h, h1, h[s.entry].kids, s.kids);
    if OnlyFlags(h1, h2, Nodes(s.kids) + {s.entry}) {
      ShapeFrame(h1, h2, h[s.entry].next, s.sib);
    }
  }

  /** Writes every dirty directory back, later siblings first; stops above the
      children of a directory that it wrote. */
  method FlushDirectoryCache(dir: DirectoryEntry, fs: FileSystem, ghost s: Shape,
                             ghost h: Snapshot) returns (ghost h': Snapshot)
    requires fs.Valid() && Numbered(fs.inodeMap[..])
    requires Describes(h) && Linked(h, dir, s) && Distinct(s)
    requires Writable(ViewOf(h, s), fs.inodeMap.Length, fs.device.bytesPerBlock)
    modifies h.Keys`isDirty, fs.device`blocks, fs.blockMap.bytes, fs.inodeMap
    ensures fs.Valid() && Numbered(fs.inodeMap[..])
    ensures Describes(h') && OnlyFlags(h, h', Nodes(s)) && Linked(h', dir, s)
    ensures (ViewOf(h', s), fs.View()) == Flush(ViewOf(h, s), old(fs.View()))
    decreases s, 1
  {
    ghost var f, v := ViewOf(h, s), fs.View();
    WritableParts(f, fs.inodeMap.Length, fs.device.bytesPerBlock);
    assert dir == s.entry && dir !in Nodes(s.kids) && Distinct(s.kids) && Distinct(s.sib);
    ghost var h1 := FlushBeside(dir, fs, s.sib, h);
    ghost var sib, v1 := ViewOf(h1, s.sib), fs.View();
    FlushedShape(h, h1, h1, s);
    hide Linked, ViewOf, Writable, InTable, NamesAreStrings, Flush, FlushKids, FlushEntry, Entries, WellShaped, Fits;
    hide Nodes, Distinct, OnlyFlags;
    FlushUnfolds(f, v, f.(sib := sib), v1);
    h' := FlushFromEntry(dir, fs, s.kids, sib, h1);
    FlushedShape(h, h1, h', s);
  }
}
