/** The directory cache as a value. Each entry points to its next sibling and to
    its first child, so a pointer to an entry is a pointer to a binary tree. */
module Forests {
  import opened Volumes
  import opened DirectoryText
  import opened DirectoryStore

  /** A pointer to a C string: names are compared by address in one place and by
      contents everywhere else. */
  datatype CStr = CStr(addr: nat, chars: Name)

  const DOT_LITERAL: nat := 0
  const ROOT_LITERAL: nat := 1
  const FIRST_ADDRESS: nat := 2

  const DOT_NAME: Name := [DOT]
  const ROOT_NAME: Name := [34, 34]

  /** `num` is the index of the inode that the entry points to. Without kids a
      directory has not been cached. */
  datatype Forest = Nil | Node(num: nat, name: CStr, dirty: bool, kids: Forest, sib: Forest)

  function Size(f: Forest): nat {
    if f.Nil? then 0 else 1 + Size(f.kids) + Size(f.sib)
  }

  /** The entries along a list of siblings. */
  function Entries(f: Forest): seq<Entry> {
    if f.Nil? then [] else [Entry(f.name.chars, f.num)] + Entries(f.sib)
  }

  function AnyDirty(f: Forest): bool {
    f.Node? && (f.dirty || AnyDirty(f.sib))
  }

  /** The list of siblings with its flags cleared. */
  function Cleaned(f: Forest): (r: Forest)
    ensures Size(r) == Size(f) && r.Nil? == f.Nil? && !AnyDirty(r) && Entries(r) == Entries(f)
  {
    if f.Nil? then Nil else f.(dirty := false, sib := Cleaned(f.sib))
  }

  /** The whole cache with its flags cleared. */
  function Bare(f: Forest): Forest {
    if f.Nil? then Nil else f.(dirty := false, kids := Bare(f.kids), sib := Bare(f.sib))
  }

  lemma {:induction false} BareOfCleaned(f: Forest)
    ensures Bare(Cleaned(f)) == Bare(f)
  {
    if f.Node? {
      BareOfCleaned(f.sib);
    }
  }

  lemma {:induction false} BareEntries(f: Forest)
    ensures Entries(Bare(f)) == Entries(f) && Size(Bare(f)) == Size(f) && !AnyDirty(Bare(f))
    ensures Cleaned(Bare(f)) == Bare(f)
    ensures Bare(Bare(f)) == Bare(f)
  {
    if f.Node? {
      BareEntries(f.sib);
      BareEntries(f.kids);
    }
  }

  /** Every entry points into an inode table of n inodes. */
  predicate InTable(f: Forest, n: nat) {
    f.Node? ==> f.num < n && InTable(f.kids, n) && InTable(f.sib, n)
  }

  lemma {:induction false} InTableOfCleaned(f: Forest, n: nat)
    requires InTable(f, n)
    ensures InTable(Cleaned(f), n)
  {
    if f.Node? {
      InTableOfCleaned(f.sib, n);
    }
  }

  // ---------- adding entries ----------

  /** A new entry at the end of a list of siblings. */
  function Append(f: Forest, entry: Forest): Forest {
    if f.Nil? then entry else f.(sib := Append(f.sib, entry))
  }

  function NewEntry(num: nat, name: CStr): Forest {
    Node(num, name, true, Nil, Nil)
  }

  predicate NumbersInTable(es: seq<Entry>, n: nat) {
    forall i :: 0 <= i < |es| ==> 0 <= es[i].num < n
  }

  /** The entries that loading a listing adds, one after the other; the names
      are fresh strings. */
  function Load(f: Forest, es: seq<Entry>, addr: nat): Forest
    requires forall i :: 0 <= i < |es| ==> 0 <= es[i].num
    decreases |es|
  {
    if es == [] then f
    else Load(Append(f, NewEntry(es[0].num, CStr(addr, es[0].name))), es[1..], addr + 1)
  }

  // ---------- writing back ----------

  /** Writes one directory, if it has been cached. */
  function WriteDirectory(f: Forest, v: Volume): (r: (Forest, Volume))
    requires f.Node? && WellShaped(v) && f.num < |v.inodes|
    ensures WellShaped(r.1) && |r.1.inodes| == |v.inodes| && r.1.bpb == v.bpb
  {
    if f.kids.Nil? then (f.(dirty := false), v)
    else (f.(dirty := false, kids := Cleaned(f.kids)), StoreDirectory(v, f.num, Entries(f.kids)))
  }

  /** The recursive write-back: later siblings first, then the entry itself if
      it is dirty, then what is below it. */
  function Flush(f: Forest, v: Volume): (r: (Forest, Volume))
    requires WellShaped(v) && InTable(f, |v.inodes|)
    ensures WellShaped(r.1) && |r.1.inodes| == |v.inodes| && r.1.bpb == v.bpb
    decreases Size(f), 0
  {
    if f.Nil? then (Nil, v)
    else
      var (sib, v1) := Flush(f.sib, v);
      InTableOfCleaned(f.kids, |v.inodes|);
      var (f1, v2) := FlushEntry(f.(sib := sib), v1);
      FlushKids(f1, v2)
  }

  function FlushEntry(f: Forest, v: Volume): (r: (Forest, Volume))
    requires f.Node? && WellShaped(v) && f.num < |v.inodes|
    ensures WellShaped(r.1) && |r.1.inodes| == |v.inodes| && r.1.bpb == v.bpb
    ensures r.0.Node? && Size(r.0.kids) == Size(f.kids)
  {
    if f.dirty then WriteDirectory(f, v) else (f, v)
  }

  /** A directory with a dirty child is written, and the recursion stops there,
      above its children. */
  function FlushKids(f: Forest, v: Volume): (r: (Forest, Volume))
    requires f.Node? && WellShaped(v) && f.num < |v.inodes| && InTable(f.kids, |v.inodes|)
    ensures WellShaped(r.1) && |r.1.inodes| == |v.inodes| && r.1.bpb == v.bpb
    decreases Size(f.kids), 1
  {
    if AnyDirty(f.kids) then WriteDirectory(f, v)
    else
      var (kids, v1) := Flush(f.kids, v);
      (f.(kids := kids), v1)
  }

  /** The inodes that a flush writes. */
  function FlushTargets(f: Forest): set<nat>
    decreases Size(f)
  {
    if f.Nil? then {}
    else
      FlushTargets(f.sib)
      + (if f.kids.Node? && (f.dirty || AnyDirty(f.kids)) then {f.num} else {})
      + (if f.dirty then FlushTargets(Cleaned(f.kids)) else if AnyDirty(f.kids) then {} else FlushTargets(f.kids))
  }

  /** The caches that one flush leaves without a dirty entry: wherever it stops
      early, nothing below the children of the directory it wrote is dirty. */
  predicate Tidy(f: Forest)
    decreases Size(f)
  {
    f.Node? ==>
      && Tidy(f.sib)
      && if f.dirty then Tidy(Cleaned(f.kids))
         else if AnyDirty(f.kids) then Cleaned(f.kids) == Bare(f.kids)
         else Tidy(f.kids)
  }

  /** A flush changes flags only, and clears them all exactly on tidy caches. */
  lemma {:induction false} FlushClears(f: Forest, v: Volume)
    requires WellShaped(v) && InTable(f, |v.inodes|)
    ensures Bare(Flush(f, v).0) == Bare(f)
    ensures Tidy(f) <==> Flush(f, v).0 == Bare(f)
    decreases Size(f)
  {
    if f.Node? {
      FlushClears(f.sib, v);
      var (sib, v1) := Flush(f.sib, v);
      InTableOfCleaned(f.kids, |v.inodes|);
      var (f1, v2) := FlushEntry(f.(sib := sib), v1);
      BareOfCleaned(f.kids);
      if !AnyDirty(f1.kids) {
        FlushClears(f1.kids, v2);
      }
    }
  }

  // ---------- loading ----------

  /** What loading finds in the inode of an entry. */
  function Stored(f: Forest, v: Volume): seq<Entry>
    requires f.Node? && WellShaped(v) && f.num < |v.inodes|
  {
    Parse(StoredBlock(v, f.num))
  }

  /** The entry once its children are cached, and the next free address. */
  function Cached(f: Forest, v: Volume, next: nat): (Forest, nat)
    requires f.Node? && WellShaped(v) && f.num < |v.inodes|
    requires f.kids.Nil? ==> NumbersInTable(Stored(f, v), |v.inodes|)
  {
    if f.kids.Node? then (f, next)
    else
      var es := Stored(f, v);
      var kids := Load(Nil, es, next);
      (f.(kids := if kids.Nil? then NewEntry(f.num, CStr(DOT_LITERAL, DOT_NAME)) else kids), next + |es|)
  }

  lemma {:induction false} AppendInTable(f: Forest, entry: Forest, n: nat)
    requires InTable(f, n) && InTable(entry, n)
    ensures InTable(Append(f, entry), n)
  {
    if f.Node? {
      AppendInTable(f.sib, entry, n);
    }
  }

  lemma {:induction false} LoadInTable(f: Forest, es: seq<Entry>, addr: nat, n: nat)
    requires InTable(f, n) && NumbersInTable(es, n)
    ensures InTable(Load(f, es, addr), n)
    decreases |es|
  {
    if es != [] {
      var entry := NewEntry(es[0].num, CStr(addr, es[0].name));
      AppendInTable(f, entry, n);
      LoadInTable(Append(f, entry), es[1..], addr + 1, n);
    }
  }

  lemma CachedInTable(f: Forest, v: Volume, next: nat)
    requires f.Node? && WellShaped(v) && InTable(f, |v.inodes|)
    requires f.kids.Nil? ==> NumbersInTable(Stored(f, v), |v.inodes|)
    ensures InTable(Cached(f, v, next).0, |v.inodes|)
  {
    if f.kids.Nil? {
      LoadInTable(Nil, Stored(f, v), next, |v.inodes|);
    }
  }

  /** The children of an entry, loaded on demand, and everything from the entry
      on flushed. */
  function GetChildren(f: Forest, v: Volume, next: nat): (r: (Forest, Volume, nat))
    requires f.Node? && WellShaped(v) && InTable(f, |v.inodes|)
    requires f.kids.Nil? ==> NumbersInTable(Stored(f, v), |v.inodes|)
    ensures WellShaped(r.1) && |r.1.inodes| == |v.inodes| && r.1.bpb == v.bpb
  {
    CachedInTable(f, v, next);
    var (f1, next1) := Cached(f, v, next);
    var (f2, v2) := Flush(f1, v);
    (f2, v2, next1)
  }

  // ---------- pointers into the cache ----------

  datatype Hop = ToKids | ToSib

  /** A pointer to an entry: the fields to follow from the root. */
  type Path = seq<Hop>

  function At(f: Forest, path: Path): Forest
    decreases |path|
  {
    if path == [] || f.Nil? then f
    else if path[0] == ToKids then At(f.kids, path[1..])
    else At(f.sib, path[1..])
  }

  function Replace(f: Forest, path: Path, g: Forest): Forest
    decreases |path|
  {
    if path == [] || f.Nil? then g
    else if path[0] == ToKids then f.(kids := Replace(f.kids, path[1..], g))
    else f.(sib := Replace(f.sib, path[1..], g))
  }

  // ---------- the search for a parent ----------

  predicate HasKey(f: Forest, num: nat, addr: nat)
    requires f.Node?
  {
    f.num == num && f.name.addr == addr
  }

  /** The search through a list of siblings whose first entry is at `here` and
      whose parent is at `parent`, children before their parents. */
  function SearchFrom(f: Forest, here: Path, parent: Path, num: nat, addr: nat): (r: (bool, Path)) {
    if f.Nil? then (false, [])
    else
      var below := SearchFrom(f.kids, here + [ToKids], here, num, addr);
      if below.0 then below
      else if HasKey(f, num, addr) then (true, parent)
      else SearchFrom(f.sib, here + [ToSib], parent, num, addr)
  }

  /** The parent found for an entry with the given inode number and name. */
  function ParentSearch(root: Forest, num: nat, addr: nat): (bool, Path)
    requires root.Node?
  {
    SearchFrom(root.kids, [ToKids], [], num, addr)
  }

  predicate Absent(f: Forest, num: nat, addr: nat) {
    f.Node? ==> !HasKey(f, num, addr) && Absent(f.kids, num, addr) && Absent(f.sib, num, addr)
  }

  /** The entry at `path` is the only one with its number and name pointer. */
  predicate OnlyAt(f: Forest, path: Path, num: nat, addr: nat)
    decreases |path|
  {
    && f.Node?
    && if path == [] then HasKey(f, num, addr) && Absent(f.kids, num, addr) && Absent(f.sib, num, addr)
       else if path[0] == ToKids then
         !HasKey(f, num, addr) && Absent(f.sib, num, addr) && OnlyAt(f.kids, path[1..], num, addr)
       else
         !HasKey(f, num, addr) && Absent(f.kids, num, addr) && OnlyAt(f.sib, path[1..], num, addr)
  }

  /** The parent of the entry at the end of `path`, in a list that starts at
      `here` under `parent`: where the path last went down. */
  function ParentOf(here: Path, parent: Path, path: Path): Path
    decreases |path|
  {
    if path == [] then parent
    else if path[0] == ToKids then ParentOf(here + [ToKids], here, path[1..])
    else ParentOf(here + [ToSib], parent, path[1..])
  }

  /** Nothing is found exactly when no entry has the key. */
  lemma {:induction false} SearchMisses(f: Forest, here: Path, parent: Path, num: nat, addr: nat)
    ensures SearchFrom(f, here, parent, num, addr).0 <==> !Absent(f, num, addr)
  {
    if f.Node? {
      SearchMisses(f.kids, here + [ToKids], here, num, addr);
      SearchMisses(f.sib, here + [ToSib], parent, num, addr);
    }
  }

  /** The search finds the parent of an entry that no other entry is mistaken
      for, whatever the shape of the cache around it. */
  lemma {:induction false} SearchFinds(f: Forest, here: Path, parent: Path, path: Path, num: nat, addr: nat)
    requires OnlyAt(f, path, num, addr)
    ensures SearchFrom(f, here, parent, num, addr) == (true, ParentOf(here, parent, path))
    decreases |path|
  {
    SearchMisses(f.kids, here + [ToKids], here, num, addr);
    if path != [] {
      if path[0] == ToKids {
        SearchFinds(f.kids, here + [ToKids], here, path[1..], num, addr);
      } else {
        SearchFinds(f.sib, here + [ToSib], parent, path[1..], num, addr);
      }
    }
  }
}
