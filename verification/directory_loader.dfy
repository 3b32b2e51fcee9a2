/** Loading a directory into the linked cache, and searching the cache. */
module DirectoryLoader {
  import opened Bytes
  import opened Volumes
  import opened DirectoryText
  import opened DirectoryStore
  import opened Forests
  import opened Shells
  import opened FileSystems
  import opened DirectoryEntries
  import opened TextBuffers
  import opened DirectoryCache

  // ---------- the words of a stored directory ----------

  lemma {:induction false} CStringStopsAtNul(s: seq<byte>, tail: seq<byte>)
    requires NUL in s
    ensures CString(s + tail) == CString(s)
  {
    if s[0] != NUL {
      assert s == [s[0]] + s[1..];
      CStringStopsAtNul(s[1..], tail);
      assert (s + tail)[1..] == s[1..] + tail;
    }
  }

  /** A list of pointers to the words, ended by NULL. */
  ghost predicate AreWords(out: array<CharPtr>, words: seq<seq<byte>>)
    reads out
  {
    && |words| < out.Length
    && (forall i :: 0 <= i < |words| ==> out[i] == Str(words[i]))
    && (forall i :: |words| <= i < out.Length ==> out[i] == Null)
  }

  lemma WordsInArray(out: array<CharPtr>, words: seq<seq<byte>>)
    requires AreWords(out, words)
    ensures |words| < out.Length && out[|words|] == Null
    ensures forall i :: 0 <= i < |words| ==> out[i] == Str(words[i])
  {
  }

  /** Reads the block of a directory into a buffer. */
  method ReadText(k: nat, fs: FileSystem) returns (readstring: array<byte>)
    requires fs.Valid() && k < fs.inodeMap.Length && NUL in StoredBlock(fs.View(), k)
    ensures fresh(readstring) && NUL in readstring[..]
    ensures CString(readstring[..]) == CString(StoredBlock(fs.View(), k))
  {
    var bpb := fs.device.bytesPerBlock;
    ghost var block := StoredBlock(fs.View(), k);
    readstring := new byte[bpb](_ => 0);
    var n := fs.INodeRead(k, 0, bpb, readstring);
    CStringStopsAtNul(block, readstring[..][n..]);
    assert readstring[..] == block + readstring[..][n..];
  }

  /** Reads the block of a directory and breaks it into words, two per `|`, in
      an array that ends with a NULL. */
  method ReadWords(k: nat, fs: FileSystem) returns (out: array<CharPtr>)
    requires fs.Valid() && k < fs.inodeMap.Length && NUL in StoredBlock(fs.View(), k)
    requires PointersFit(Pipes(StoredBlock(fs.View(), k)), fs.device.bytesPerBlock)
    ensures fresh(out) && AreWords(out, Words(StoredBlock(fs.View(), k)))
  {
    hide Tokens, CString, CountOccurrences, StoredBlock;
    var readstring := ReadText(k, fs);
    var length := StrLen(readstring);
    var items := CountOccurrencesIn(readstring, PIPE, length);
    items := 2 * items;
    out := new CharPtr[fs.device.bytesPerBlock / POINTER_BYTES](_ => Null);
    var count := BreakWords(readstring[..length], out, items);
  }

  // ---------- loading ----------

  /** Loading the entries of the words from i on, step by step. */
  lemma LoadNext(f: Forest, words: seq<seq<byte>>, i: nat, left: nat, addr: nat, n: nat)
    requires i < |words| && 2 * left == |words| - i && NumbersInTable(Pairs(words[i..]), n)
    ensures i + 1 < |words| && 0 <= Atoi(words[i + 1]) < n && NumbersInTable(Pairs(words[i + 2..]), n)
    ensures |Pairs(words[i..])| == 1 + |Pairs(words[i + 2..])|
    ensures Load(f, Pairs(words[i..]), addr)
         == Load(Append(f, NewEntry(Atoi(words[i + 1]), CStr(addr, words[i]))), Pairs(words[i + 2..]), addr + 1)
  {
    var es := Pairs(words[i..]);
    assert words[i..][2..] == words[i + 2..];
    assert es[0] == Entry(words[i], Atoi(words[i + 1])) && es[1..] == Pairs(words[i + 2..]);
    assert forall j :: 0 <= j < |es[1..]| ==> es[1..][j] == es[j + 1];
  }

  /** From h to h', `dir` got these children and nothing else changed. */
  predicate Grown(h: Snapshot, h': Snapshot, dir: DirectoryEntry, kids: Shape) {
    var keys := dir in h && h'.Keys == h.Keys + Nodes(kids) && Nodes(kids) !! h.Keys;
    var frame := keys && (forall e :: e in h && e != dir ==> h'[e] == h[e]) && h'[dir] == h[dir].(kids := h'[dir].kids);
    var linked := keys && Distinct(kids) && Linked(h', h'[dir].kids, kids);
    var holds := keys && frame && linked;
    holds
  }

  lemma GrownStart(h: Snapshot, dir: DirectoryEntry)
    requires dir in h && h[dir].kids == null
    ensures Grown(h, h, dir, NoEntry) && ViewOf(h, NoEntry) == Nil && Nodes(NoEntry) == {}
  {
  }

  lemma GrownNow(h: Snapshot, h': Snapshot, dir: DirectoryEntry, kids: Shape)
    requires Grown(h, h', dir, kids)
    ensures dir in h' && dir !in Nodes(kids) && Distinct(kids) && Linked(h', h'[dir].kids, kids)
  {
  }

  lemma EntryGrown(h: Snapshot, h': Snapshot, dir: DirectoryEntry, kids: Shape)
    requires Describes(h') && Grown(h, h', dir, kids)
    ensures dir.maybeChildren == null <==> kids.NoEntry?
  {
  }

  lemma GrownMore(h: Snapshot, h1: Snapshot, h2: Snapshot, dir: DirectoryEntry, kids: Shape, newkid: DirectoryEntry)
    requires Grown(h, h1, dir, kids) && newkid !in h1 && h2.Keys == h1.Keys + {newkid}
    requires forall e :: e in h1 && e != dir && e !in Nodes(kids) ==> h2[e] == h1[e]
    requires h2[dir] == h1[dir].(kids := h2[dir].kids)
    requires Nodes(AppendShape(kids, newkid)) == Nodes(kids) + {newkid} && Distinct(AppendShape(kids, newkid))
    requires Linked(h2, h2[dir].kids, AppendShape(kids, newkid))
    ensures Grown(h, h2, dir, AppendShape(kids, newkid))
  {
  }

  /** Adds one entry to those that `dir` has got so far. */
  method AddOne(dir: DirectoryEntry, name: CStr, inode: nat, ghost kids: Shape, ghost h0: Snapshot, ghost h: Snapshot)
    returns (ghost kids': Shape, ghost h': Snapshot)
    requires Describes(h) && Grown(h0, h, dir, kids)
    modifies dir`maybeChildren, Nodes(kids)`nextSibling
    ensures Describes(h') && Grown(h0, h', dir, kids') && Nodes(kids) <= Nodes(kids')
    ensures fresh(Nodes(kids') - Nodes(kids))
    ensures ViewOf(h', kids') == Append(ViewOf(h, kids), NewEntry(inode, name))
  {
    GrownNow(h0, h, dir, kids);
    hide Grown, Linked, ViewOf, Distinct, Nodes, AppendShape, Append;
    var newkid;
    newkid, h' := AddChild(dir, name, inode, kids, h);
    kids' := AppendShape(kids, newkid);
    GrownMore(h0, h, h', dir, kids, newkid);
  }

  /** A load of directory `dir` under way: the cache and the next free address as
      they were, its words, and the size of the inode table. */
  datatype LoadJob = LoadJob(dir: DirectoryEntry, h: Snapshot, next: nat, words: seq<seq<byte>>, n: nat)

  /** Before the word at i, what the words from there on would still add leads to
      what all of them add. */
  ghost predicate Loading(job: LoadJob, i: nat, kids: Shape, h: Snapshot, next: nat) {
    var sized := i <= |job.words| && (|job.words| - i) % 2 == 0 && NumbersInTable(Pairs(job.words), job.n);
    var numbers := sized && NumbersInTable(Pairs(job.words[i..]), job.n);
    var entries := numbers && Grown(job.h, h, job.dir, kids)
      && Load(ViewOf(h, kids), Pairs(job.words[i..]), next) == Load(Nil, Pairs(job.words), job.next);
    var addresses := sized && next + |Pairs(job.words[i..])| == job.next + |Pairs(job.words)|;
    var holds := sized && numbers && entries && addresses;
    holds
  }

  lemma LoadingStarts(job: LoadJob)
    requires job.dir in job.h && job.h[job.dir].kids == null
    requires |job.words| % 2 == 0 && NumbersInTable(Pairs(job.words), job.n)
    ensures Loading(job, 0, NoEntry, job.h, job.next) && Nodes(NoEntry) == {}
  {
    assert job.words[0..] == job.words;
    GrownStart(job.h, job.dir);
  }

  lemma LoadingBounds(job: LoadJob, i: nat, kids: Shape, h: Snapshot, next: nat)
    requires Loading(job, i, kids, h, next)
    ensures i <= |job.words| && Grown(job.h, h, job.dir, kids)
    ensures i < |job.words| ==> i + 2 <= |job.words|
  {
  }

  /** The pair of words at i becomes the next entry. */
  lemma LoadingGoesOn(job: LoadJob, i: nat, kids: Shape, h: Snapshot, next: nat, kids': Shape, h': Snapshot)
    requires Loading(job, i, kids, h, next) && i + 1 < |job.words| && Grown(job.h, h', job.dir, kids')
    requires Atoi(job.words[i + 1]) >= 0 ==>
      ViewOf(h', kids') == Append(ViewOf(h, kids), NewEntry(Atoi(job.words[i + 1]), CStr(next, job.words[i])))
    ensures Loading(job, i + 2, kids', h', next + 1)
  {
    var left := (|job.words| - i) / 2;
    assert 2 * left == |job.words| - i && NumbersInTable(Pairs(job.words[i..]), job.n);
    hide Atoi, Load, Grown, ViewOf, Append, Pairs, NumbersInTable;
    LoadNext(ViewOf(h, kids), job.words, i, left, next, job.n);
  }

  lemma NumberInTable(job: LoadJob, i: nat, kids: Shape, h: Snapshot, next: nat)
    requires Loading(job, i, kids, h, next) && i + 1 < |job.words|
    ensures 0 <= Atoi(job.words[i + 1]) < job.n
  {
    LoadNext(ViewOf(h, kids), job.words, i, (|job.words| - i) / 2, next, job.n);
  }

  lemma LoadingEnds(job: LoadJob, kids: Shape, h: Snapshot, next: nat)
    requires Loading(job, |job.words|, kids, h, next)
    ensures Grown(job.h, h, job.dir, kids) && NumbersInTable(Pairs(job.words), job.n)
    ensures ViewOf(h, kids) == Load(Nil, Pairs(job.words), job.next) && next == job.next + |Pairs(job.words)|
  {
  }

  /** Adds an entry to a directory for each pair of words. */
  method AddEntries(dir: DirectoryEntry, out: array<CharPtr>, next: nat, ghost words: seq<seq<byte>>, ghost n: nat,
                    ghost h: Snapshot)
    returns (ghost kids: Shape, next': nat, ghost h': Snapshot)
    requires Describes(h) && dir in h && h[dir].kids == null
    requires AreWords(out, words) && |words| % 2 == 0 && NumbersInTable(Pairs(words), n)
    modifies dir`maybeChildren
    ensures Describes(h') && Grown(h, h', dir, kids) && fresh(Nodes(kids))
    ensures ViewOf(h', kids) == Load(Nil, Pairs(words), next) && next' == next + |Pairs(words)|
  {
    ghost var job := LoadJob(dir, h, next, words, n);
    kids, next', h' := NoEntry, next, h;
    LoadingStarts(job);
    WordsInArray(out, words);
    hide *;
    var i := 0;
    while out[i] != Null
      invariant Describes(h') && fresh(Nodes(kids)) && i <= |words| && Loading(job, i, kids, h', next')
      decreases |words| - i
    {
      LoadingBounds(job, i, kids, h', next');
      NumberInTable(job, i, kids, h', next');
      ghost var kids1, h1 := kids, h';
      kids, h' := AddOne(dir, CStr(next', out[i].chars), Atoi(out[i + 1].chars), kids1, h, h1);
      LoadingGoesOn(job, i, kids1, h1, next', kids, h');
      next', i := next' + 1, i + 2;
    }
    LoadingEnds(job, kids, h', next');
  }

  // ---------- what has been loaded can be written again ----------

  lemma {:induction false} AppendEntries(f: Forest, entry: Forest)
    requires entry.Node? && entry.sib.Nil? && entry.kids.Nil?
    ensures Entries(Append(f, entry)) == Entries(f) + [Entry(entry.name.chars, entry.num)]
    ensures NamesAreStrings(f) && NUL !in entry.name.chars ==> NamesAreStrings(Append(f, entry))
    ensures forall bpb: nat :: TextsFit(f, bpb) ==> TextsFit(Append(f, entry), bpb)
  {
    if f.Node? {
      AppendEntries(f.sib, entry);
    }
  }

  lemma {:induction false} LoadEntries(f: Forest, es: seq<Entry>, addr: nat, bpb: nat)
    requires NamesAreStrings(f) && TextsFit(f, bpb)
    requires forall i :: 0 <= i < |es| ==> 0 <= es[i].num && NUL !in es[i].name
    ensures Entries(Load(f, es, addr)) == Entries(f) + es
    ensures NamesAreStrings(Load(f, es, addr)) && TextsFit(Load(f, es, addr), bpb)
    decreases |es|
  {
    if es == [] {
      assert Entries(f) + es == Entries(f);
    } else {
      var entry := NewEntry(es[0].num, CStr(addr, es[0].name));
      AppendEntries(f, entry);
      LoadEntries(Append(f, entry), es[1..], addr + 1, bpb);
      assert Entries(f) + [es[0]] + es[1..] == Entries(f) + es;
    }
  }

  lemma ParsedNames(buf: seq<byte>)
    ensures forall i :: 0 <= i < |Parse(buf)| ==> NUL !in Parse(buf)[i].name
  {
    forall i | 0 <= i < |Parse(buf)|
      ensures NUL !in Parse(buf)[i].name
    {
      PairsAreWords(Words(buf), i);
      TokensAreWords(CString(buf), 2 * i);
    }
  }

  lemma CachedWritable(f: Forest, v: Volume, next: nat)
    requires f.Node? && WellShaped(v) && Writable(f, |v.inodes|, v.bpb)
    requires f.kids.Nil? ==> Loadable(f, v)
    ensures Writable(Cached(f, v, next).0, |v.inodes|, v.bpb) && Cached(f, v, next).0.kids.Node?
  {
    hide StoredBlock, Parse, Words, Print;
    CachedInTable(f, v, next);
    if f.kids.Nil? {
      ParsedNames(StoredBlock(v, f.num));
      LoadEntries(Nil, Stored(f, v), next, v.bpb);
      assert [] + Stored(f, v) == Stored(f, v);
      assert Entries(NewEntry(f.num, CStr(DOT_LITERAL, DOT_NAME))) == [Entry(DOT_NAME, f.num)];
      var g := Cached(f, v, next).0;
      assert InTable(g, |v.inodes|);
      assert NamesAreStrings(g.kids);
      assert Entries(g.kids) == LoadedEntries(f, v);
      assert TextsFit(g.kids, v.bpb);
    }
  }

  // ---------- getChildren ----------

  /** The block of an inode can be loaded as a directory. */
  ghost predicate ReadyToLoad(k: nat, v: Volume)
    requires WellShaped(v) && k < |v.inodes|
  {
    var block := StoredBlock(v, k);
    && NUL in block && |Words(block)| % 2 == 0 && PointersFit(Pipes(block), v.bpb)
    && NumbersInTable(Parse(block), |v.inodes|)
  }

  /** The children that the block of an inode stores. */
  function LoadedKids(k: nat, v: Volume, next: nat): Forest
    requires WellShaped(v) && k < |v.inodes| && ReadyToLoad(k, v)
  {
    Load(Nil, Parse(StoredBlock(v, k)), next)
  }

  /** The children that an entry without children gets, and the next free address. */
  function FirstKids(k: nat, v: Volume, next: nat): (Forest, nat)
    requires WellShaped(v) && k < |v.inodes| && ReadyToLoad(k, v)
  {
    var loaded := LoadedKids(k, v, next);
    (if loaded.Nil? then NewEntry(k, CStr(DOT_LITERAL, DOT_NAME)) else loaded, next + |Parse(StoredBlock(v, k))|)
  }

  lemma FirstKidsAre(k: nat, v: Volume, next: nat)
    requires WellShaped(v) && k < |v.inodes| && ReadyToLoad(k, v)
    ensures FirstKids(k, v, next).0
      == if LoadedKids(k, v, next).Nil? then Append(Nil, NewEntry(k, CStr(DOT_LITERAL, DOT_NAME)))
         else LoadedKids(k, v, next)
  {
    hide Load, Parse, StoredBlock, ReadyToLoad;
  }

  /** Loads the children of a directory from its inode. */
  method LoadChildren(dir: DirectoryEntry, fs: FileSystem, next: nat, ghost h: Snapshot)
    returns (ghost kids: Shape, next': nat, ghost h': Snapshot)
    requires fs.Valid() && dir.inode < fs.inodeMap.Length && Describes(h) && dir in h && h[dir].kids == null
    requires ReadyToLoad(dir.inode, fs.View())
    modifies dir`maybeChildren
    ensures Describes(h') && Grown(h, h', dir, kids) && fresh(Nodes(kids)) && fs.Valid()
    ensures ViewOf(h', kids) == LoadedKids(dir.inode, fs.View(), next)
    ensures next' == FirstKids(dir.inode, fs.View(), next).1
  {
    hide Words, StoredBlock, Load, ViewOf, Grown, NumbersInTable, Pairs, Nodes;
    var out := ReadWords(dir.inode, fs);
    kids, next', h' := AddEntries(dir, out, next, Words(StoredBlock(fs.View(), dir.inode)), fs.inodeMap.Length, h);
  }

  /** Loads the children of a directory, or gives it its "." entry. */
  method LoadOrDot(dir: DirectoryEntry, fs: FileSystem, next: nat, ghost h: Snapshot)
    returns (ghost kids: Shape, next': nat, ghost h': Snapshot)
    requires fs.Valid() && dir.inode < fs.inodeMap.Length && Describes(h) && dir in h && h[dir].kids == null
    requires ReadyToLoad(dir.inode, fs.View())
    modifies dir`maybeChildren
    ensures Describes(h') && Grown(h, h', dir, kids) && fresh(Nodes(kids)) && kids.AnEntry?
    ensures fs.Valid() && (ViewOf(h', kids), next') == FirstKids(dir.inode, fs.View(), next)
  {
    FirstKidsAre(dir.inode, fs.View(), next);
    hide *;
    kids, next', h' := LoadChildren(dir, fs, next, h);
    EntryGrown(h, h', dir, kids);
    if dir.maybeChildren == null {
      kids, h' := AddOne(dir, CStr(DOT_LITERAL, DOT_NAME), dir.inode, kids, h, h');
    }
  }

  /** A list of siblings whose first entry got its children. */
  lemma GrownShape(h: Snapshot, h': Snapshot, s: Shape, kids: Shape)
    requires s.AnEntry? && s.kids.NoEntry? && Distinct(s) && Linked(h, s.entry, s) && Grown(h, h', s.entry, kids)
    ensures Distinct(s.(kids := kids)) && Linked(h', s.entry, s.(kids := kids))
    ensures ViewOf(h, s).Node? && ViewOf(h', s.(kids := kids)) == ViewOf(h, s).(kids := ViewOf(h', kids))
    ensures Nodes(s.(kids := kids)) == Nodes(s) + Nodes(kids)
  {
    LinkedNodes(h, h[s.entry].next, s.sib);
    ShapeFrame(h, h', h[s.entry].next, s.sib);
  }

  lemma LoadableParts(h: Snapshot, s: Shape, v: Volume)
    requires s.AnEntry? && WellShaped(v) && s.entry.inode < |v.inodes|
    requires s.kids.NoEntry? ==> Loadable(ViewOf(h, s), v)
    ensures s.kids.NoEntry? ==> ReadyToLoad(s.entry.inode, v)
  {
  }

  lemma CachedIs(h: Snapshot, s: Shape, v: Volume, next: nat)
    requires s.AnEntry? && WellShaped(v) && s.entry.inode < |v.inodes|
    requires s.kids.NoEntry? ==> ReadyToLoad(s.entry.inode, v)
    ensures s.kids.NoEntry? ==>
      Cached(ViewOf(h, s), v, next)
      == (ViewOf(h, s).(kids := FirstKids(s.entry.inode, v, next).0), FirstKids(s.entry.inode, v, next).1)
    ensures s.kids.AnEntry? ==> Cached(ViewOf(h, s), v, next) == (ViewOf(h, s), next)
  {
    hide Parse, StoredBlock, Load;
  }

  /** From h to h' the first entry of a list got the children it lacked, if it
      lacked any, and nothing else changed. */
  predicate KidsAdded(h: Snapshot, h': Snapshot, s: Shape, s': Shape) {
    var same := s.AnEntry? && s'.AnEntry? && s'.entry == s.entry && s'.sib == s.sib && s'.kids.AnEntry?;
    var keys := same && s.entry in h && h.Keys <= h'.Keys && Nodes(s') == Nodes(s) + (h'.Keys - h.Keys);
    var frame := keys && (forall e :: e in h && e != s.entry ==> h'[e] == h[e])
      && h'[s.entry] == h[s.entry].(kids := h'[s.entry].kids);
    var linked := same && Linked(h', s.entry, s') && Distinct(s');
    var holds := same && keys && frame && linked;
    holds
  }

  lemma GrownAdds(h: Snapshot, h': Snapshot, s: Shape, kids: Shape)
    requires s.AnEntry? && s.kids.NoEntry? && Distinct(s) && Linked(h, s.entry, s) && Grown(h, h', s.entry, kids)
    requires kids.AnEntry?
    ensures KidsAdded(h, h', s, s.(kids := kids)) && h'.Keys - h.Keys == Nodes(kids)
    ensures ViewOf(h, s).Node? && ViewOf(h', s.(kids := kids)) == ViewOf(h, s).(kids := ViewOf(h', kids))
  {
    GrownShape(h, h', s, kids);
  }

  lemma NothingAdded(h: Snapshot, s: Shape)
    requires s.AnEntry? && s.kids.AnEntry? && Distinct(s) && Linked(h, s.entry, s)
    ensures KidsAdded(h, h, s, s) && h.Keys - h.Keys == {}
  {
  }

  lemma FirstEntry(h: Snapshot, dir: DirectoryEntry, s: Shape)
    requires Describes(h) && s.AnEntry? && Linked(h, dir, s)
    ensures dir == s.entry && dir in h && dir.maybeChildren == h[dir].kids && (h[dir].kids == null <==> s.kids.NoEntry?)
    ensures Nodes(s) <= h.Keys
  {
    LinkedNodes(h, dir, s);
    LinkedNodes(h, h[dir].kids, s.kids);
  }

  /** Caches the children of an entry that has none: those its inode stores, or
      ".". */
  method CacheChildren(dir: DirectoryEntry, fs: FileSystem, next: nat, ghost s: Shape, ghost h: Snapshot)
    returns (ghost s': Shape, next': nat, ghost h': Snapshot)
    requires fs.Valid() && dir.inode < fs.inodeMap.Length && Describes(h) && s.AnEntry? && Linked(h, dir, s)
    requires Distinct(s)
    requires s.kids.NoEntry? ==> Loadable(ViewOf(h, s), fs.View())
    modifies dir`maybeChildren
    ensures Describes(h') && KidsAdded(h, h', s, s') && fresh(h'.Keys - h.Keys)
    ensures (ViewOf(h', s'), next') == Cached(ViewOf(h, s), fs.View(), next)
  {
    FirstEntry(h, dir, s);
    LoadableParts(h, s, fs.View());
    CachedIs(h, s, fs.View(), next);
    hide *;
    s', next', h' := s, next, h;
    if dir.maybeChildren == null {
      ghost var kids;
      kids, next', h' := LoadOrDot(dir, fs, next, h);
      GrownAdds(h, h', s, kids);
      s' := s.(kids := kids);
    } else {
      NothingAdded(h, s);
    }
  }

  lemma {:induction false} WritableBare(f: Forest, n: nat, bpb: nat)
    ensures Writable(Bare(f), n, bpb) <==> Writable(f, n, bpb)
  {
    if f.Node? {
      WritableBare(f.kids, n, bpb);
      WritableBare(f.sib, n, bpb);
      BareEntries(f.kids);
    }
  }

  lemma FlushedWritable(f: Forest, v: Volume, n: nat, bpb: nat)
    requires WellShaped(v) && InTable(f, |v.inodes|) && Writable(f, n, bpb)
    ensures Writable(Flush(f, v).0, n, bpb)
  {
    FlushClears(f, v);
    WritableBare(f, n, bpb);
    WritableBare(Flush(f, v).0, n, bpb);
  }

  /** The children of an entry, loaded on demand, and everything from the entry
      on flushed. */
  method GetChildren(dir: DirectoryEntry, fs: FileSystem, next: nat, ghost s: Shape, ghost h: Snapshot)
    returns (kids: DirectoryEntry?, ghost s': Shape, next': nat, ghost h': Snapshot)
    requires fs.Valid() && Numbered(fs.inodeMap[..]) && dir.inode < fs.inodeMap.Length
    requires Describes(h) && s.AnEntry? && Linked(h, dir, s) && Distinct(s)
    requires Writable(ViewOf(h, s), fs.inodeMap.Length, fs.device.bytesPerBlock)
    requires s.kids.NoEntry? ==> Loadable(ViewOf(h, s), fs.View())
    modifies dir`maybeChildren, h.Keys`isDirty, fs.device`blocks, fs.blockMap.bytes, fs.inodeMap
    ensures fs.Valid() && Numbered(fs.inodeMap[..])
    ensures Describes(h') && Linked(h', dir, s') && Distinct(s')
    ensures s'.AnEntry? && s'.entry == s.entry && s'.sib == s.sib && kids != null && s'.kids.AnEntry?
    ensures kids == s'.kids.entry
    ensures h.Keys <= h'.Keys && fresh(h'.Keys - h.Keys) && Nodes(s') == Nodes(s) + (h'.Keys - h.Keys)
    ensures forall e :: e in h && e !in Nodes(s) ==> h'[e] == h[e]
    ensures (ViewOf(h', s'), fs.View(), next') == Forests.GetChildren(ViewOf(h, s), old(fs.View()), next)
    ensures NamesAreStrings(ViewOf(h', s'))
  {
    ghost var v := fs.View();
    CachedWritable(ViewOf(h, s), v, next);
    LinkedNodes(h, dir, s);
    s', next', h' := CacheChildren(dir, fs, next, s, h);
    ghost var h1 := h';
    FlushedWritable(ViewOf(h1, s'), v, fs.inodeMap.Length, fs.device.bytesPerBlock);
    h' := FlushDirectoryCache(dir, fs, s', h1);
    kids := dir.maybeChildren;
  }

  // ---------- the search for a parent ----------

  /** The part of a shape that a pointer leads to. */
  function ShapeAt(s: Shape, path: Path): Shape
    decreases |path|
  {
    if path == [] || s.NoEntry? then s
    else if path[0] == ToKids then ShapeAt(s.kids, path[1..])
    else ShapeAt(s.sib, path[1..])
  }

  lemma {:induction false} ShapeAtNext(s: Shape, path: Path, hop: Hop)
    requires ShapeAt(s, path).AnEntry?
    ensures ShapeAt(s, path + [hop]) == if hop == ToKids then ShapeAt(s, path).kids else ShapeAt(s, path).sib
    decreases |path|
  {
    if path == [] {
      assert (path + [hop])[1..] == [];
    } else {
      assert (path + [hop])[1..] == path[1..] + [hop];
      ShapeAtNext(if path[0] == ToKids then s.kids else s.sib, path[1..], hop);
    }
  }

  /** The entry under which an entry hangs that has the inode number and the very
      name of `seekdir`; null if there is none below `prev`. */
  method DirParentSearch(prev: DirectoryEntry, seekdir: DirectoryEntry, fs: FileSystem,
                         ghost root: Shape, ghost parent: Path, ghost h: Snapshot)
    returns (found: DirectoryEntry?)
    requires fs.Valid() && Numbered(fs.inodeMap[..]) && seekdir.inode < fs.inodeMap.Length && Describes(h)
    requires ShapeAt(root, parent).AnEntry? && ShapeAt(root, parent).entry == prev && prev in h
    requires Linked(h, h[prev].kids, ShapeAt(root, parent).kids)
    requires InTable(ViewOf(h, ShapeAt(root, parent).kids), fs.inodeMap.Length)
    ensures
      var kids := ViewOf(h, ShapeAt(root, parent).kids);
      var r := SearchFrom(kids, parent + [ToKids], parent, seekdir.inode, seekdir.name.addr);
            && (found != null <==> r.0)
            && (found != null ==> ShapeAt(root, r.1).AnEntry? && ShapeAt(root, r.1).entry == found)
    decreases ShapeAt(root, parent)
  {
    var curr := prev.maybeChildren;
    ghost var rest, here := ShapeAt(root, parent).kids, parent + [ToKids];
    ghost var num, addr := seekdir.inode, seekdir.name.addr;
    ghost var goal := SearchFrom(ViewOf(h, rest), here, parent, num, addr);
    ShapeAtNext(root, parent, ToKids);
    while curr != null
      invariant Linked(h, curr, rest) && ShapeAt(root, here) == rest && InTable(ViewOf(h, rest), fs.inodeMap.Length)
      invariant SearchFrom(ViewOf(h, rest), here, parent, num, addr) == goal
      invariant rest < ShapeAt(root, parent)
      decreases rest
    {
      if curr.maybeChildren != null {
        var check := DirParentSearch(curr, seekdir, fs, root, here, h);
        if check != null {
          return check;
        }
      }
      if fs.inodeMap[curr.inode].inodeNum == fs.inodeMap[seekdir.inode].inodeNum {
        if curr.name.addr == seekdir.name.addr {
          return prev;
        }
      }
      ShapeAtNext(root, here, ToSib);
      curr := curr.nextSibling;
      rest, here := rest.sib, here + [ToSib];
    }
    return null;
  }
}
