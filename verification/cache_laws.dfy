/** The searches and the write-back of the directory cache, on any cache, by
    lists of what they look at and what they write. */
module CacheLaws {
  import opened INodes
  import opened Volumes
  import opened DirectoryText
  import opened DirectoryStore
  import opened Forests
  import opened Shells

  // ---------- the search for a parent ----------

  /** An entry that the search compares, and the entry it hangs under. */
  datatype Visit = Visit(num: nat, addr: nat, parent: Path)

  /** The entries in the order in which the search compares them: each after
      everything below it and before its later siblings. */
  function Visits(f: Forest, here: Path, parent: Path): seq<Visit> {
    if f.Nil? then []
    else
      Visits(f.kids, here + [ToKids], here) + [Visit(f.num, f.name.addr, parent)]
      + Visits(f.sib, here + [ToSib], parent)
  }

  /** Where an entry with the key comes first, or the length of the list. */
  function FirstVisit(vs: seq<Visit>, num: nat, addr: nat): (i: nat)
    ensures i <= |vs| && (i < |vs| ==> vs[i].num == num && vs[i].addr == addr)
    ensures forall j :: 0 <= j < i ==> vs[j].num != num || vs[j].addr != addr
  {
    if vs == [] || (vs[0].num == num && vs[0].addr == addr) then 0 else 1 + FirstVisit(vs[1..], num, addr)
  }

  lemma {:induction false} FirstVisitOfConcat(a: seq<Visit>, b: seq<Visit>, num: nat, addr: nat)
    ensures FirstVisit(a + b, num, addr)
         == if FirstVisit(a, num, addr) < |a| then FirstVisit(a, num, addr) else |a| + FirstVisit(b, num, addr)
  {
    if a == [] {
      assert a + b == b;
    } else {
      FirstVisitOfConcat(a[1..], b, num, addr);
      assert (a + b)[1..] == a[1..] + b;
    }
  }

  /** The search returns what the first entry with the key hangs under. */
  lemma {:induction false} SearchIsFirstVisit(f: Forest, here: Path, parent: Path, num: nat, addr: nat)
    returns (vs: seq<Visit>, i: nat)
    ensures vs == Visits(f, here, parent) && i == FirstVisit(vs, num, addr)
    ensures SearchFrom(f, here, parent, num, addr) == if i < |vs| then (true, vs[i].parent) else (false, [])
    decreases f
  {
    vs := Visits(f, here, parent);
    i := FirstVisit(vs, num, addr);
    if f.Node? {
      var below, k := SearchIsFirstVisit(f.kids, here + [ToKids], here, num, addr);
      var beside, s := SearchIsFirstVisit(f.sib, here + [ToSib], parent, num, addr);
      var own := [Visit(f.num, f.name.addr, parent)];
      FirstVisitOfConcat(below + own, beside, num, addr);
      FirstVisitOfConcat(below, own, num, addr);
    }
  }

  // ---------- the search of cd ----------

  /** Entry n of a list of siblings. */
  function Sibling(f: Forest, n: nat): Forest {
    if n == 0 || f.Nil? then f else Sibling(f.sib, n - 1)
  }

  /** n steps along the siblings. */
  function Steps(n: nat): (path: Path)
    ensures |path| == n && forall i :: 0 <= i < n ==> path[i] == ToSib
  {
    seq(n, _ => ToSib)
  }

  /** The walk stops at the first sibling with the name whose inode has type 2,
      the directories; files of that name are passed over. */
  lemma {:induction false} FindDirectoryIs(f: Forest, inodes: seq<INode>, name: Name, here: Path)
    returns (n: nat)
    ensures forall i :: 0 <= i < n ==> !IsHit(Sibling(f, i), inodes, name)
    ensures Sibling(f, n).Node? ==>
      IsHit(Sibling(f, n), inodes, name) && FindDirectory(f, inodes, name, here) == (true, here + Steps(n))
    ensures Sibling(f, n).Nil? ==> FindDirectory(f, inodes, name, here) == (false, [])
    decreases f
  {
    n := 0;
    if f.Node? && !IsHit(f, inodes, name) {
      n := FindDirectoryIs(f.sib, inodes, name, here + [ToSib]);
      assert here + [ToSib] + Steps(n) == here + Steps(n + 1);
      forall i | 0 <= i < n + 1
        ensures !IsHit(Sibling(f, i), inodes, name)
      {
        assert i > 0 ==> Sibling(f, i) == Sibling(f.sib, i - 1);
      }
      n := n + 1;
    } else {
      assert here + Steps(0) == here;
    }
  }

  predicate IsHit(f: Forest, inodes: seq<INode>, name: Name) {
    f.Node? && f.name.chars == name && f.num < |inodes| && inodes[f.num].itype == 2
  }

  // ---------- the write-back ----------

  /** A directory to be written: its inode and its children. */
  datatype Store = Store(num: nat, entries: seq<Entry>)

  /** What a flush writes, in order: first what later siblings need, then the
      entry itself if it is dirty; after that what is below it, unless one of its
      children is dirty, in which case the entry and nothing below. */
  function Stores(f: Forest): seq<Store>
    decreases Size(f)
  {
    if f.Nil? then []
    else
      var own := if f.kids.Nil? then [] else [Store(f.num, Entries(f.kids))];
      if f.dirty then Stores(f.sib) + own + Stores(Cleaned(f.kids))
      else if AnyDirty(f.kids) then Stores(f.sib) + own
      else Stores(f.sib) + Stores(f.kids)
  }

  predicate StoresInTable(ws: seq<Store>, n: nat) {
    forall i :: 0 <= i < |ws| ==> ws[i].num < n
  }

  /** Writing directories one after the other. */
  function StoreAll(v: Volume, ws: seq<Store>): (r: Volume)
    requires WellShaped(v) && StoresInTable(ws, |v.inodes|)
    ensures WellShaped(r) && |r.inodes| == |v.inodes| && r.bpb == v.bpb
    decreases |ws|
  {
    if ws == [] then v else StoreAll(StoreDirectory(v, ws[0].num, ws[0].entries), ws[1..])
  }

  lemma {:induction false} StoreAllConcat(v: Volume, a: seq<Store>, b: seq<Store>)
    requires WellShaped(v) && StoresInTable(a, |v.inodes|) && StoresInTable(b, |v.inodes|)
    ensures StoresInTable(a + b, |v.inodes|) && StoreAll(v, a + b) == StoreAll(StoreAll(v, a), b)
    decreases |a|
  {
    hide StoreDirectory;
    if a == [] {
      assert a + b == b;
    } else {
      StoreAllConcat(StoreDirectory(v, a[0].num, a[0].entries), a[1..], b);
      assert (a + b)[1..] == a[1..] + b;
    }
  }

  /** The volume after a flush, one entry at a time. */
  lemma FlushVolume(f: Forest, v: Volume)
    returns (v1: Volume)
    requires f.Node? && WellShaped(v) && InTable(f, |v.inodes|)
    ensures v1 == Flush(f.sib, v).1 && WellShaped(v1) && |v1.inodes| == |v.inodes|
    ensures InTable(Cleaned(f.kids), |v.inodes|)
    ensures f.dirty && f.kids.Nil? ==> Flush(f, v).1 == v1
    ensures f.dirty && f.kids.Node? ==>
      Flush(f, v).1 == Flush(Cleaned(f.kids), StoreDirectory(v1, f.num, Entries(f.kids))).1
    ensures !f.dirty && AnyDirty(f.kids) ==> Flush(f, v).1 == StoreDirectory(v1, f.num, Entries(f.kids))
    ensures !f.dirty && !AnyDirty(f.kids) ==> Flush(f, v).1 == Flush(f.kids, v1).1
  {
    hide StoreDirectory;
    v1 := Flush(f.sib, v).1;
    InTableOfCleaned(f.kids, |v.inodes|);
    var (f1, v2) := FlushEntry(f.(sib := Flush(f.sib, v).0), v1);
    assert Flush(f, v) == FlushKids(f1, v2);
    assert f1.kids == if f.dirty then Cleaned(f.kids) else f.kids;
    if f1.kids.Nil? {
      assert Flush(f1.kids, v2) == (Nil, v2);
    }
  }

  lemma {:induction false} OwnThenBelow(v: Volume, v1: Volume, beside: seq<Store>, num: nat, es: seq<Entry>,
                                        below: seq<Store>)
    requires WellShaped(v) && StoresInTable(beside, |v.inodes|) && num < |v.inodes|
    requires StoresInTable(below, |v.inodes|) && v1 == StoreAll(v, beside)
    ensures StoresInTable(beside + [Store(num, es)], |v.inodes|)
    ensures StoreAll(v, beside + [Store(num, es)]) == StoreDirectory(v1, num, es)
    ensures StoresInTable(beside + [Store(num, es)] + below, |v.inodes|)
    ensures StoreAll(v, beside + [Store(num, es)] + below) == StoreAll(StoreDirectory(v1, num, es), below)
  {
    StoreOne(v1, num, es);
    hide StoreDirectory, StoreAll;
    StoreAllConcat(v, beside, [Store(num, es)]);
    StoreAllConcat(v, beside + [Store(num, es)], below);
  }

  /** On any cache a flush writes exactly those directories, in that order. */
  lemma {:induction false} FlushStores(f: Forest, v: Volume)
    returns (ws: seq<Store>)
    requires WellShaped(v) && InTable(f, |v.inodes|)
    ensures ws == Stores(f) && StoresInTable(ws, |v.inodes|) && Flush(f, v).1 == StoreAll(v, ws)
    decreases Size(f)
  {
    ws := Stores(f);
    if f.Node? {
      var beside := FlushStores(f.sib, v);
      var v1 := FlushVolume(f, v);
      hide Flush, StoreDirectory, StoreAll;
      if f.dirty && f.kids.Node? {
        var below := FlushStores(Cleaned(f.kids), StoreDirectory(v1, f.num, Entries(f.kids)));
        OwnThenBelow(v, v1, beside, f.num, Entries(f.kids), below);
      } else if f.dirty {
        assert Stores(Cleaned(f.kids)) == [] && beside + [] + [] == beside;
      } else if AnyDirty(f.kids) {
        OwnThenBelow(v, v1, beside, f.num, Entries(f.kids), []);
      } else {
        var below := FlushStores(f.kids, v1);
        StoreAllConcat(v, beside, below);
      }
    }
  }

  lemma StoreOne(v: Volume, num: nat, entries: seq<Entry>)
    requires WellShaped(v) && num < |v.inodes|
    ensures StoreAll(v, [Store(num, entries)]) == StoreDirectory(v, num, entries)
  {
    hide StoreDirectory;
    assert [Store(num, entries)][1..] == [];
  }
}
