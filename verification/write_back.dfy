/** What the write-back of a cache does to the stored directories. */
module WriteBack {
  import opened Bytes
  import opened Volumes
  import opened Ownership
  import opened Accounting
  import opened DirectoryText
  import opened DirectoryStore
  import opened Forests
  import opened NameTrees

  /** Every directory of the tree has legal names, a text that fits a block, and
      no more lines than the loader has pointers for. */
  ghost predicate Storable(t: Tree, bpb: nat) {
    forall c :: 0 <= c < |t.dirs| ==>
      && Fits(ListingOf(t, c), bpb) && PointersFit(|ListingOf(t, c)|, bpb)
      && forall i :: 0 <= i < |t.dirs[c]| ==> LegalName(ChildAt(t, c, i).name)
  }

  /** The stored text of directory c is its current listing. */
  ghost predicate UpToDate(v: Volume, t: Tree, c: nat)
    requires WellShaped(v) && c < |v.inodes| && c < |t.dirs|
  {
    StoredBlock(v, c) == PrintBlock(ListingOf(t, c), v.bpb)
  }

  /** Or it was never written, and the directory is empty. */
  ghost predicate Synced(v: Volume, t: Tree, c: nat)
    requires WellShaped(v) && c < |v.inodes| && c < |t.dirs|
  {
    UpToDate(v, t, c) || (t.dirs[c] == [] && StoredBlock(v, c) == Zeros(v.bpb))
  }

  /** v' differs from v only in the contents of the directories in w. */
  ghost predicate Kept(v: Volume, v': Volume, w: set<nat>, meta: nat)
    requires WellShaped(v) && WellShaped(v')
  {
    var sized := v'.bpb == v.bpb && v'.count == v.count && |v'.disk| == |v.disk| && |v'.inodes| == |v.inodes|
      && |v'.bits| == |v.bits|;
    var inodes := sized && forall k :: 0 <= k < |v.inodes| ==>
      v'.inodes[k].(ptrs := [], numBytes := 0) == v.inodes[k].(ptrs := [], numBytes := 0);
    var others := sized && forall k :: 0 <= k < |v.inodes| && k !in w ==>
      v'.inodes[k] == v.inodes[k] && StoredBlock(v', k) == StoredBlock(v, k);
    var metadata := sized && forall a :: 0 <= a < meta && a < |v.disk| ==> v'.disk[a] == v.disk[a];
    var holds := sized && inodes && others && metadata;
    holds
  }

  /** The directories in w have been written and nothing else has changed. */
  ghost predicate Updated(v: Volume, v': Volume, w: set<nat>, t: Tree, meta: nat) {
    var holds :=
      && Roomy(v, meta, |t.dirs|) && Roomy(v', meta, |t.dirs|)
      && Kept(v, v', w, meta)
      && forall c :: c in w ==> c < |t.dirs| && UpToDate(v', t, c);
    holds
  }

  lemma UpdatedNothing(v: Volume, t: Tree, meta: nat)
    requires Roomy(v, meta, |t.dirs|)
    ensures Updated(v, v, {}, t, meta)
  {
  }

  lemma UpdatedBoth(v: Volume, v1: Volume, v2: Volume, w1: set<nat>, w2: set<nat>, t: Tree, meta: nat)
    requires Updated(v, v1, w1, t, meta) && Updated(v1, v2, w2, t, meta)
    ensures Updated(v, v2, w1 + w2, t, meta)
  {
    forall c | c in w1 + w2
      ensures c < |t.dirs| && UpToDate(v2, t, c)
    {
      if c !in w2 {
        assert StoredBlock(v2, c) == StoredBlock(v1, c);
      }
    }
  }

  lemma OnlyFileIsKept(v: Volume, v': Volume, c: nat, meta: nat)
    requires WellShaped(v) && WellShaped(v') && OnlyFile(v, v', c, meta) && |v'.bits| == |v.bits|
    requires forall j :: 0 <= j < |v.inodes| && j != c ==> StoredBlock(v', j) == StoredBlock(v, j)
    ensures Kept(v, v', {c}, meta)
  {
    hide StoredBlock, WellShaped, FileBlock;
  }

  lemma UpdatedOne(v: Volume, c: nat, t: Tree, meta: nat)
    returns (v': Volume)
    requires Roomy(v, meta, |t.dirs|) && c < |t.dirs|
    ensures v' == StoreDirectory(v, c, ListingOf(t, c))
    ensures Updated(v, v', {c}, t, meta)
  {
    v' := StoreEffect(v, c, ListingOf(t, c), meta, |t.dirs|);
    OnlyFileIsKept(v, v', c, meta);
    hide Kept, OnlyFile, StoreDirectory, StoredBlock, PrintBlock, Owned, OnlyDirectories, Conserved;
  }

  lemma {:induction false} ShowsEntries(f: Forest, p: int, es: seq<Entry>, t: Tree, next: nat)
    requires Shows(f, p, es, t, next)
    ensures Entries(f) == es
    decreases f
  {
    if f.Node? {
      ShowsEntries(f.sib, p, es[1..], t, next);
    }
  }

  lemma {:induction false} ShowsInTable(f: Forest, p: int, es: seq<Entry>, t: Tree, next: nat, n: nat)
    requires Shows(f, p, es, t, next) && |t.dirs| <= n
    ensures InTable(f, n)
    decreases f
  {
    if f.Node? {
      ShowsInTable(f.sib, p, es[1..], t, next, n);
      if f.kids.Node? {
        ShowsInTable(f.kids, f.num, ListingOf(t, f.num), t, next, n);
      }
    }
  }

  /** What a cache shows does not depend on its flags. */
  lemma {:induction false} ShowsBare(f: Forest, p: int, es: seq<Entry>, t: Tree, next: nat)
    ensures Shows(Bare(f), p, es, t, next) <==> Shows(f, p, es, t, next)
    decreases f
  {
    if f.Node? {
      if es != [] {
        ShowsBare(f.sib, p, es[1..], t, next);
      }
      if f.num < |t.dirs| {
        ShowsBare(f.kids, f.num, ListingOf(t, f.num), t, next);
      }
    }
  }

  lemma ShowsCleaned(f: Forest, p: int, es: seq<Entry>, t: Tree, next: nat)
    requires Shows(f, p, es, t, next)
    ensures Shows(Cleaned(f), p, es, t, next)
  {
    ShowsBare(f, p, es, t, next);
    BareOfCleaned(f);
    ShowsBare(Cleaned(f), p, es, t, next);
  }

  /** Writing one cached entry stores the listing of its directory. */
  lemma WriteDirectoryUpdates(f: Forest, p: int, es: seq<Entry>, v: Volume, t: Tree, next: nat, meta: nat)
    returns (w: set<nat>)
    requires Roomy(v, meta, |t.dirs|)
    requires f.Node? && Shows(f, p, es, t, next)
    ensures w == if f.kids.Node? then {f.num} else {}
    ensures Updated(v, WriteDirectory(f, v).1, w, t, meta)
  {
    w := {};
    if f.kids.Node? {
      ShowsEntries(f.kids, f.num, ListingOf(t, f.num), t, next);
      var v' := UpdatedOne(v, f.num, t, meta);
      w := {f.num};
    } else {
      UpdatedNothing(v, t, meta);
    }
  }

  lemma FlushEntryUpdates(f: Forest, p: int, es: seq<Entry>, v: Volume, t: Tree, next: nat, meta: nat)
    returns (w: set<nat>)
    requires Roomy(v, meta, |t.dirs|)
    requires f.Node? && Shows(f, p, es, t, next)
    ensures w == if f.dirty && f.kids.Node? then {f.num} else {}
    ensures Updated(v, FlushEntry(f, v).1, w, t, meta)
    ensures Shows(FlushEntry(f, v).0, p, es, t, next)
  {
    if f.dirty {
      w := WriteDirectoryUpdates(f, p, es, v, t, next, meta);
      if f.kids.Node? {
        ShowsCleaned(f.kids, f.num, ListingOf(t, f.num), t, next);
      }
    } else {
      w := {};
      UpdatedNothing(v, t, meta);
    }
  }

  /** The three stages of a flush. */
  lemma FlushStages(f: Forest, v: Volume)
    returns (sib: Forest, v1: Volume, f1: Forest, v2: Volume)
    requires f.Node? && WellShaped(v) && InTable(f, |v.inodes|)
    ensures (sib, v1) == Flush(f.sib, v) && WellShaped(v1) && |v1.inodes| == |v.inodes|
    ensures (f1, v2) == FlushEntry(f.(sib := sib), v1) && WellShaped(v2) && |v2.inodes| == |v.inodes|
    ensures f1.Node? && f1.num < |v.inodes| && InTable(f1.kids, |v.inodes|)
    ensures Flush(f, v) == FlushKids(f1, v2)
    ensures FlushTargets(f) == FlushTargets(f.sib)
      + (if f.dirty && f.kids.Node? then {f.num} else {})
      + (if AnyDirty(f1.kids) then {f.num} else FlushTargets(f1.kids))
  {
    sib, v1 := Flush(f.sib, v).0, Flush(f.sib, v).1;
    InTableOfCleaned(f.kids, |v.inodes|);
    f1, v2 := FlushEntry(f.(sib := sib), v1).0, FlushEntry(f.(sib := sib), v1).1;
  }

  /** A flush brings exactly the directories it writes up to date. Every text it
      writes is a current listing, so no directory that was in step with the
      tree falls out of step. */
  lemma {:induction false} FlushUpdates(f: Forest, p: int, es: seq<Entry>, v: Volume, t: Tree, next: nat, meta: nat)
    requires Roomy(v, meta, |t.dirs|) && InTable(f, |v.inodes|)
    requires Shows(f, p, es, t, next)
    ensures Updated(v, Flush(f, v).1, FlushTargets(f), t, meta)
    decreases Size(f), 0
  {
    if f.Nil? {
      UpdatedNothing(v, t, meta);
    } else {
      var sib, v1, f1, v2 := FlushStages(f, v);
      FlushUpdates(f.sib, p, es[1..], v, t, next, meta);
      FlushClears(f.sib, v);
      ShowsBare(f.sib, p, es[1..], t, next);
      ShowsBare(sib, p, es[1..], t, next);
      var w := FlushEntryUpdates(f.(sib := sib), p, es, v1, t, next, meta);
      UpdatedBoth(v, v1, v2, FlushTargets(f.sib), w, t, meta);
      var w' := FlushKidsUpdates(f1, p, es, v2, t, next, meta);
      UpdatedBoth(v, v2, FlushKids(f1, v2).1, FlushTargets(f.sib) + w, w', t, meta);
    }
  }

  lemma {:induction false} FlushKidsUpdates(f: Forest, p: int, es: seq<Entry>, v: Volume, t: Tree, next: nat, meta: nat)
    returns (w: set<nat>)
    requires Roomy(v, meta, |t.dirs|)
    requires f.Node? && Shows(f, p, es, t, next)
    ensures InTable(f, |v.inodes|)
    ensures w == if AnyDirty(f.kids) then {f.num} else FlushTargets(f.kids)
    ensures Updated(v, FlushKids(f, v).1, w, t, meta)
    decreases Size(f.kids), 1
  {
    ShowsInTable(f, p, es, t, next, |v.inodes|);
    if AnyDirty(f.kids) {
      w := WriteDirectoryUpdates(f, p, es, v, t, next, meta);
    } else if f.kids.Nil? {
      w := {};
      UpdatedNothing(v, t, meta);
    } else {
      w := FlushTargets(f.kids);
      FlushUpdates(f.kids, f.num, ListingOf(t, f.num), v, t, next, meta);
    }
  }
}
